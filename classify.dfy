/**
 * The nutrient-status rule: a food's value for one nutrient against the
 * nutrient's recommended minimum and maximum.
 *
 * The server code (controllers/api.php, nutrition.php) treats a bound as present
 * when it is not null; the browser code (script.js, nutrition.js) reads a bound
 * with `parseFloat(x) || null`, so a bound of zero counts as absent there.
 */
module Classify {
  import opened Wrappers

  /**
   * A DECIMAL(10,2) column value as the database driver delivers it: the text
   * (for example "12.50") and the number that text denotes.
   */
  datatype Decimal = Decimal(text: string, value: real)

  datatype Status = Normal | Excess | Deficiency | NoStandard

  /** The `status` key of a comparison, also used as the `status-<name>` CSS class. */
  function StatusName(s: Status): string {
    match s
    case Normal => "normal"
    case Excess => "excess"
    case Deficiency => "deficiency"
    case NoStandard => "no-standard"
  }

  /** The `status_text` / `statusText` of a comparison. */
  function StatusText(s: Status): string {
    match s
    case Normal => "Normal Range"
    case Excess => "Excess"
    case Deficiency => "Deficient"
    case NoStandard => "No Standard"
  }

  /** One row of the standards table, with the keys `formatStandardData` gives it. */
  datatype Standard = Standard(
    nutrient: string,
    minimum: Option<Decimal>,
    maximum: Option<Decimal>,
    recommendation: Option<string>,
    functionText: Option<string>,
    excessText: Option<string>,
    deficiencyText: Option<string>)

  /** The number of a nullable DECIMAL, as PHP compares it. */
  function Number(d: Option<Decimal>): (r: Option<real>)
    ensures r.Some? <==> d.Some?
    ensures r.Some? ==> r.value == d.value.value
  {
    match d
    case None => None
    case Some(x) => Some(x.value)
  }

  /** `floatval($foodValue ?? 0)` and `parseFloat(foodValue) || 0`: a missing value counts as 0. */
  function ValueOrZero(d: Option<Decimal>): (r: real)
    ensures d.None? ==> r == 0.0
    ensures d.Some? ==> r == d.value.value
  {
    match d
    case None => 0.0
    case Some(x) => x.value
  }

  /** The value lies within every bound that is present. */
  predicate WithinBounds(v: real, min: Option<real>, max: Option<real>) {
    (min.None? || v >= min.value) && (max.None? || v <= max.value)
  }

  /**
   * The server rule (controllers/api.php, nutrition.php): no standard exactly
   * when both bounds are null; otherwise normal within the present bounds,
   * excess above the maximum, deficiency below the minimum (when not also above
   * the maximum).
   */
  function ClassifyServer(v: real, min: Option<real>, max: Option<real>): (s: Status)
    ensures s == NoStandard <==> min.None? && max.None?
    ensures s == Normal <==> (min.Some? || max.Some?) && WithinBounds(v, min, max)
    ensures s == Excess <==> max.Some? && v > max.value
    ensures s == Deficiency <==> min.Some? && v < min.value && !(max.Some? && v > max.value)
  {
    if min.Some? || max.Some? then
      if min.Some? && max.Some? then
        if v >= min.value && v <= max.value then Normal
        else if v > max.value then Excess
        else Deficiency
      else if min.Some? then
        if v >= min.value then Normal else Deficiency
      else
        if v <= max.value then Normal else Excess
    else NoStandard
  }

  /** `parseFloat(x) || null`: a null bound and a zero bound are both absent. */
  function JsBound(b: Option<Decimal>): (r: Option<real>)
    ensures r.Some? <==> b.Some? && b.value.value != 0.0
    ensures r.Some? ==> r.value == b.value.value
  {
    if b.Some? && b.value.value != 0.0 then Some(b.value.value) else None
  }

  /** JavaScript truthiness of a bound delivered as text: present and not the empty string. */
  predicate JsTruthy(b: Option<Decimal>) {
    b.Some? && b.value.text != ""
  }

  /**
   * The browser rule (script.js and nutrition.js `generateComparisonData`) for a
   * standard that was found: the guard `standard.Minimum || standard.Maximum`,
   * then the same branches as the server over the bounds read with
   * `parseFloat(x) || null`; with both bounds the last branch is guarded by
   * `value < min`, leaving 'no-standard' when that guard fails.
   */
  function ClassifyClient(v: real, rawMin: Option<Decimal>, rawMax: Option<Decimal>): Status {
    if JsTruthy(rawMin) || JsTruthy(rawMax) then
      var min := JsBound(rawMin);
      var max := JsBound(rawMax);
      if min.Some? && max.Some? then
        if v >= min.value && v <= max.value then Normal
        else if v > max.value then Excess
        else if v < min.value then Deficiency
        else NoStandard
      else if min.Some? then
        if v >= min.value then Normal else Deficiency
      else if max.Some? then
        if v <= max.value then Normal else Excess
      else NoStandard
    else NoStandard
  }

  /** Every present bound has non-empty text, as a DECIMAL column always does. */
  predicate TextPresent(b: Option<Decimal>) {
    b.None? || b.value.text != ""
  }

  /**
   * The browser rule is the server rule applied to the bounds read with
   * `parseFloat(x) || null`: the extra `value < min` guard never fails.
   */
  lemma ClientIsServerOnJsBounds(v: real, rawMin: Option<Decimal>, rawMax: Option<Decimal>)
    requires TextPresent(rawMin) && TextPresent(rawMax)
    ensures ClassifyClient(v, rawMin, rawMax) == ClassifyServer(v, JsBound(rawMin), JsBound(rawMax))
  {
  }

  /**
   * Where the two rules part: a minimum of 0 and no maximum is a standard for
   * the server (every value is normal) and no standard for the browser.
   */
  lemma ZeroMinimumDiffers(v: real, text: string)
    requires v >= 0.0 && text != ""
    ensures ClassifyServer(v, Number(Some(Decimal(text, 0.0))), None) == Normal
    ensures ClassifyClient(v, Some(Decimal(text, 0.0)), None) == NoStandard
  {
  }

  /** Without a zero bound the two rules agree. */
  lemma RulesAgreeWithoutZeroBounds(v: real, rawMin: Option<Decimal>, rawMax: Option<Decimal>)
    requires TextPresent(rawMin) && TextPresent(rawMax)
    requires rawMin.None? || rawMin.value.value != 0.0
    requires rawMax.None? || rawMax.value.value != 0.0
    ensures ClassifyClient(v, rawMin, rawMax) == ClassifyServer(v, Number(rawMin), Number(rawMax))
  {
    ClientIsServerOnJsBounds(v, rawMin, rawMax);
    assert JsBound(rawMin) == Number(rawMin);
    assert JsBound(rawMax) == Number(rawMax);
  }

  /**
   * Classification is monotone in the value: raising a value never turns an
   * excess into anything else, and lowering one never turns a deficiency into
   * anything else.
   */
  lemma ExcessStaysExcess(v: real, w: real, min: Option<real>, max: Option<real>)
    requires ClassifyServer(v, min, max) == Excess && w >= v
    ensures ClassifyServer(w, min, max) == Excess
  {
  }

  lemma DeficiencyStaysDeficiency(v: real, w: real, min: Option<real>, max: Option<real>)
    requires ClassifyServer(v, min, max) == Deficiency && w <= v
    ensures ClassifyServer(w, min, max) == Deficiency
  {
  }
}
