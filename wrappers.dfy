/** Optional values: PHP `null` / JavaScript `null`/`undefined` become None. */
module Wrappers {

  datatype Option<+T> = None | Some(value: T) {

    /** The value, or `default` when absent (PHP `??`, JavaScript `||` on a value known to be truthy). */
    function GetOr(default: T): T {
      match this
      case Some(v) => v
      case None => default
    }
  }

  /**
   * The JSON envelope of controllers/api.php: `sendSuccess($data)` or
   * `sendError($message, $code)`.
   */
  datatype ApiResult<+T> = Success(data: T) | Failure(message: string, code: int)
}
