/**
 * The login state kept in `$_SESSION` (config/session.php): five keys, each
 * either unset or holding a value, and the 30-minute inactivity rule applied
 * when the file is loaded. `time()` is the parameter `now`.
 */
module Session {
  import opened Wrappers
  import opened Config

  /** What `getCurrentUser` returns for a logged-in visitor. */
  datatype CurrentUser = CurrentUser(id: int, nim: string, name: Option<string>, loginTime: Option<int>, lastActivity: Option<int>)

  /** Whether a visitor idle since `lastActivity` has passed the timeout: strictly more than 1800 seconds. */
  predicate TimedOut(lastActivity: int, now: int) {
    now - lastActivity > SessionTimeout
  }

  /** The `$_SESSION` array; `None` is an unset (or null) key. */
  class PhpSession {
    var userId: Option<int>
    var nim: Option<string>
    var name: Option<string>
    var loginTime: Option<int>
    var lastActivity: Option<int>

    /** A new session holds no key. */
    constructor ()
      ensures userId.None? && nim.None? && name.None? && loginTime.None? && lastActivity.None?
      ensures !IsLoggedIn()
    {
      userId, nim, name, loginTime, lastActivity := None, None, None, None, None;
    }

    /** `isLoggedIn`: both `user_id` and `nim` are set. */
    predicate IsLoggedIn()
      reads this
    {
      userId.Some? && nim.Some?
    }

    /** `getCurrentUser`: nothing when logged out, otherwise the five keys. */
    function GetCurrentUser(): (u: Option<CurrentUser>)
      reads this
      ensures u.None? <==> !IsLoggedIn()
      ensures u.Some? ==> (u.value.id == userId.value && u.value.nim == nim.value && u.value.name == name &&
                           u.value.loginTime == loginTime && u.value.lastActivity == lastActivity)
    {
      if !IsLoggedIn() then None
      else Some(CurrentUser(userId.value, nim.value, name, loginTime, lastActivity))
    }

    /** `isSessionExpired`: a logged-out visitor counts as expired; otherwise more than 1800 idle seconds, a missing time counting as 0. */
    predicate IsSessionExpired(now: int)
      reads this
    {
      !IsLoggedIn() || TimedOut(lastActivity.GetOr(0), now)
    }

    /** `setUserSession`: logged in, with login and activity time both now. */
    method SetUserSession(id: int, userNim: string, userName: string, now: int)
      modifies this
      ensures IsLoggedIn()
      ensures GetCurrentUser() == Some(CurrentUser(id, userNim, Some(userName), Some(now), Some(now)))
      ensures !IsSessionExpired(now)
    {
      userId, nim, name := Some(id), Some(userNim), Some(userName);
      loginTime, lastActivity := Some(now), Some(now);
    }

    /** `updateLastActivity`: only a logged-in session is touched. */
    method UpdateLastActivity(now: int)
      modifies this
      ensures userId == old(userId) && nim == old(nim) && name == old(name) && loginTime == old(loginTime)
      ensures old(IsLoggedIn()) ==> lastActivity == Some(now)
      ensures !old(IsLoggedIn()) ==> lastActivity == old(lastActivity)
    {
      if IsLoggedIn() {
        lastActivity := Some(now);
      }
    }

    /** `destroyUserSession`: every key is cleared. */
    method DestroyUserSession()
      modifies this
      ensures userId.None? && nim.None? && name.None? && loginTime.None? && lastActivity.None?
      ensures !IsLoggedIn() && GetCurrentUser().None?
    {
      userId, nim, name, loginTime, lastActivity := None, None, None, None, None;
    }

    /**
     * The step run whenever the file is loaded: an expired login is
     * destroyed, a live one has its activity refreshed, a logged-out
     * session is left alone.
     */
    method OnLoad(now: int)
      modifies this
      ensures !old(IsLoggedIn()) ==>
        userId == old(userId) && nim == old(nim) && name == old(name) && loginTime == old(loginTime) && lastActivity == old(lastActivity)
      ensures old(IsLoggedIn()) && old(IsSessionExpired(now)) ==>
        !IsLoggedIn() && userId.None? && nim.None? && name.None? && loginTime.None? && lastActivity.None?
      ensures old(IsLoggedIn()) && !old(IsSessionExpired(now)) ==>
        IsLoggedIn() && GetCurrentUser() == Some(old(GetCurrentUser()).value.(lastActivity := Some(now))) && !IsSessionExpired(now)
    {
      if IsLoggedIn() {
        if IsSessionExpired(now) {
          DestroyUserSession();
        } else {
          UpdateLastActivity(now);
        }
      }
    }
  }

  /** `isSessionExpired` for a logged-in visitor idle exactly the timeout is false; one second more is true. */
  lemma TimeoutIsStrict(lastActivity: int)
    ensures !TimedOut(lastActivity, lastActivity + SessionTimeout)
    ensures TimedOut(lastActivity, lastActivity + SessionTimeout + 1)
  {
  }
}
