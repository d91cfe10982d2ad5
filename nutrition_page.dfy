/**
 * The nutrition analysis page: the server-rendered page (nutrition.php) and the
 * browser page (nutrition.js) — the page flow, the recommended-range text, the
 * food-value cell, the nutrient information cards with their icons, and the
 * browser's error messages.
 */
module NutritionPage {
  import opened Wrappers
  import opened Text
  import opened Lists
  import opened Classify
  import opened FoodModel
  import opened Analysis

  // ---------------------------------------------------------------------------
  // Page flow of nutrition.php.

  datatype PageOutcome =
    | RedirectToIndex
    | FoodNotFound(errorMessage: string)
    | Report(food: Food, comparisons: seq<Comparison>, totalNutrients: nat, safeNutrients: nat, safetyPercentage: int)

  /** The `food` query parameter, trimmed; a missing one reads as "". */
  function FoodParamName(foodParam: Option<string>): string {
    PhpTrim(foodParam.GetOr(""))
  }

  /** The report for a food that was found: one comparison per standard and the page's counters. */
  predicate IsReportFor(page: PageOutcome, food: Food, standards: seq<Standard>) {
    page.Report? && page.food == food &&
    |page.comparisons| == |standards| == page.totalNutrients &&
    (forall i :: 0 <= i < |standards| ==> page.comparisons[i] == ServerComparison(standards[i], food)) &&
    page.safeNutrients == CountInRange(page.comparisons) &&
    page.safetyPercentage == SafetyPercentage(page.safeNutrients, page.totalNutrients)
  }

  /**
   * The page for a trimmed name: an empty one (or "0") redirects to the
   * catalogue; an unknown food gives the not-found message; otherwise its report.
   */
  predicate PageFor(page: PageOutcome, foodName: string, rows: seq<FoodRow>, standards: seq<Standard>) {
    if PhpEmpty(foodName) then page == RedirectToIndex
    else match LookupFood(rows, foodName)
      case None => page == FoodNotFound("Food '" + foodName + "' not found in database")
      case Some(food) => IsReportFor(page, food, standards)
  }

  /**
   * nutrition.php: the `food` parameter is trimmed; an empty one redirects
   * before any lookup (the cache is untouched); an unknown food gives the
   * error message and no comparisons; otherwise the report with its counters.
   */
  method NutritionPageFlow(foodParam: Option<string>, store: FoodStore, standards: seq<Standard>, now: int)
    returns (page: PageOutcome)
    requires store.Coherent()
    modifies store
    ensures store.Coherent()
    ensures PageFor(page, FoodParamName(foodParam), store.rows, standards)
    ensures PhpEmpty(FoodParamName(foodParam)) ==> store.cache == old(store.cache)
  {
    page := PageForName(FoodParamName(foodParam), store, standards, now);
  }

  /** nutrition.php once the name is trimmed: the redirect check, the lookup, then the error message or the report. */
  method PageForName(foodName: string, store: FoodStore, standards: seq<Standard>, now: int) returns (page: PageOutcome)
    requires store.Coherent()
    modifies store
    ensures store.Coherent()
    ensures PageFor(page, foodName, store.rows, standards)
    ensures PhpEmpty(foodName) ==> store.cache == old(store.cache)
  {
    if PhpEmpty(foodName) {
      return RedirectToIndex;
    }
    var food := store.GetFoodByName(foodName, now);
    if food.None? {
      return FoodNotFound("Food '" + foodName + "' not found in database");
    }
    page := BuildReport(food.value, standards);
  }

  /** The report part of nutrition.php: the comparison loop, then the safety percentage. */
  method BuildReport(food: Food, standards: seq<Standard>) returns (page: PageOutcome)
    ensures IsReportFor(page, food, standards)
  {
    var comparisons, totalNutrients, safeNutrients := AnalyzeStandards(standards, food);
    var percentage := SafetyPercentage(safeNutrients, totalNutrients);
    page := Report(food, comparisons, totalNutrients, safeNutrients, percentage);
  }

  // ---------------------------------------------------------------------------
  // Recommended-range text.

  /** The shape of the recommended-range cell. */
  datatype RangeForm = Between(low: string, high: string) | AtLeast(low: string) | AtMost(high: string) | Recommended(text: string) | NoRange

  /** PHP truthiness of a string: not "" and not "0". */
  predicate PhpTruthy(s: string) {
    !PhpEmpty(s)
  }

  /** JavaScript truthiness of a string: not "". */
  predicate JsTruthyText(s: string) {
    s != ""
  }

  predicate TruthyBound(b: Option<Decimal>, truthy: string -> bool) {
    b.Some? && truthy(b.value.text)
  }

  /**
   * The range text chain of nutrition.php (186-203), nutrition.js and
   * comparison.js (330-343): both bounds, minimum only, maximum only, the
   * recommendation, and otherwise none; `truthy` is the language's test of a
   * string.
   */
  function RangeFormOf(standard: Option<Standard>, truthy: string -> bool): (f: RangeForm)
    ensures f.Between? <==> standard.Some? && TruthyBound(standard.value.minimum, truthy) && TruthyBound(standard.value.maximum, truthy)
    ensures f.AtLeast? <==> standard.Some? && TruthyBound(standard.value.minimum, truthy) && !TruthyBound(standard.value.maximum, truthy)
    ensures f.AtMost? <==> standard.Some? && !TruthyBound(standard.value.minimum, truthy) && TruthyBound(standard.value.maximum, truthy)
    ensures f.NoRange? <==> (standard.None? ||
      (!TruthyBound(standard.value.minimum, truthy) && !TruthyBound(standard.value.maximum, truthy) &&
       !(standard.value.recommendation.Some? && truthy(standard.value.recommendation.value))))
  {
    match standard
    case None => NoRange
    case Some(s) =>
      if TruthyBound(s.minimum, truthy) && TruthyBound(s.maximum, truthy) then Between(s.minimum.value.text, s.maximum.value.text)
      else if TruthyBound(s.minimum, truthy) then AtLeast(s.minimum.value.text)
      else if TruthyBound(s.maximum, truthy) then AtMost(s.maximum.value.text)
      else if s.recommendation.Some? && truthy(s.recommendation.value) then Recommended(s.recommendation.value)
      else NoRange
  }

  /** The cell text: "min - max", "≥ min", "≤ max", the recommendation, or the page's fallback. */
  function RangeText(f: RangeForm, fallback: string): string {
    match f
    case Between(lo, hi) => lo + " - " + hi
    case AtLeast(lo) => "≥ " + lo
    case AtMost(hi) => "≤ " + hi
    case Recommended(t) => t
    case NoRange => fallback
  }

  /** nutrition.php / nutrition.js fallback and comparison.js fallback. */
  const AnalysisPageFallback := "No standard available"
  const ComparisonPageFallback := "No standard"

  /** A DECIMAL value's text is never "" nor "0" (it always carries two decimals). */
  predicate DecimalText(b: Option<Decimal>) {
    b.None? || (b.value.text != "" && b.value.text != "0")
  }

  /**
   * For DECIMAL bounds and a recommendation other than "0", the server page and
   * the browser pages choose the same form of range text.
   */
  lemma RangeFormsAgree(standard: Option<Standard>)
    requires standard.Some? ==> DecimalText(standard.value.minimum) && DecimalText(standard.value.maximum)
    requires standard.Some? && standard.value.recommendation.Some? ==> standard.value.recommendation.value != "0"
    ensures RangeFormOf(standard, PhpTruthy) == RangeFormOf(standard, JsTruthyText)
  {
  }

  /**
   * For DECIMAL bounds, a present bound always shows in the range text, even a
   * zero one: truthiness tests the text "0.00", not the number.
   */
  lemma PresentBoundsShow(s: Standard, truthy: string -> bool)
    requires DecimalText(s.minimum) && DecimalText(s.maximum)
    requires forall t: string :: t != "" && t != "0" ==> truthy(t)
    ensures s.minimum.Some? && s.maximum.Some? ==> RangeFormOf(Some(s), truthy) == Between(s.minimum.value.text, s.maximum.value.text)
    ensures s.minimum.Some? && s.maximum.None? ==> RangeFormOf(Some(s), truthy) == AtLeast(s.minimum.value.text)
    ensures s.minimum.None? && s.maximum.Some? ==> RangeFormOf(Some(s), truthy) == AtMost(s.maximum.value.text)
  {
  }

  // ---------------------------------------------------------------------------
  // Value cells and status icons.

  /** What a value cell shows: '-' or a number with two decimals, or a text as it is. */
  datatype Display = Dash | TwoDecimals(x: real) | Verbatim(text: string)

  /** nutrition.php:216: '-' exactly for a null value, else `number_format($v, 2)`. */
  function ServerValueCell(v: Option<Decimal>): (d: Display)
    ensures d == Dash <==> v.None?
    ensures v.Some? ==> d == TwoDecimals(v.value.value)
  {
    if v.Some? then TwoDecimals(v.value.value) else Dash
  }

  /** A JavaScript value as the pages receive it. */
  datatype JsValue = JsNull | JsUndefined | JsNumber(n: real) | JsString(s: string)

  /** How the browser receives a DECIMAL from the API: JSON null, or the driver's text. */
  function FromApi(v: Option<Decimal>): JsValue {
    if v.Some? then JsString(v.value.text) else JsNull
  }

  /** `formatNutrientValue(value)`: '-' for null, undefined and ''; `toFixed(2)` for numbers; other values as text. */
  function FormatNutrientValue(v: JsValue): (d: Display)
    ensures d == Dash <==> v == JsNull || v == JsUndefined || v == JsString("")
    ensures v.JsNumber? ==> d == TwoDecimals(v.n)
    ensures v.JsString? && v.s != "" ==> d == Verbatim(v.s)
  {
    match v
    case JsNull => Dash
    case JsUndefined => Dash
    case JsString(s) => if s == "" then Dash else Verbatim(s)
    case JsNumber(n) => TwoDecimals(n)
  }

  /** The browser shows '-' for a value from the API exactly when the server page does. */
  lemma DashAgrees(v: Option<Decimal>)
    requires DecimalText(v)
    ensures FormatNutrientValue(FromApi(v)) == Dash <==> ServerValueCell(v) == Dash
  {
  }

  /** `$statusIcons[$status]` of nutrition.php. */
  function StatusIcon(s: Status): string {
    match s
    case Normal => "check-circle"
    case Excess => "exclamation-triangle"
    case Deficiency => "arrow-down"
    case NoStandard => "question-circle"
  }

  /** `getStatusIcon(status)` of nutrition.js: the same icons, with 'question-circle' for any other name. */
  function StatusIconByName(name: string): (icon: string)
    ensures forall s: Status :: name == StatusName(s) ==> icon == StatusIcon(s)
    ensures (forall s: Status :: name != StatusName(s)) ==> icon == "question-circle"
  {
    assert StatusName(Normal) == "normal" && StatusName(Excess) == "excess" && StatusName(Deficiency) == "deficiency";
    if name == "normal" then "check-circle"
    else if name == "excess" then "exclamation-triangle"
    else if name == "deficiency" then "arrow-down"
    else "question-circle"
  }

  // ---------------------------------------------------------------------------
  // Nutrient information cards.

  /** PHP truthiness of a nullable text column. */
  predicate Truthy(t: Option<string>) {
    t.Some? && PhpTruthy(t.value)
  }

  /** The standard has a function, excess or deficiency text to show (the info button and the cards). */
  predicate HasDetails(standard: Option<Standard>) {
    standard.Some? && (Truthy(standard.value.functionText) || Truthy(standard.value.excessText) || Truthy(standard.value.deficiencyText))
  }

  /** `array_filter($comparisons, ...)`: the comparisons with details, in their order. */
  function Detailed(cs: seq<Comparison>): (r: seq<Comparison>)
    ensures |r| <= |cs|
    ensures forall i :: 0 <= i < |r| ==> r[i] in cs && HasDetails(r[i].standard)
    ensures forall i :: 0 <= i < |cs| && HasDetails(cs[i].standard) ==> cs[i] in r
  {
    if cs == [] then []
    else if HasDetails(cs[0].standard) then [cs[0]] + Detailed(cs[1..])
    else Detailed(cs[1..])
  }

  /** Filtering keeps order: the filter of a concatenation is the concatenation of the filters. */
  lemma {:induction false} DetailedConcat(a: seq<Comparison>, b: seq<Comparison>)
    ensures Detailed(a + b) == Detailed(a) + Detailed(b)
    decreases |a|
  {
    if a != [] {
      assert (a + b)[1..] == a[1..] + b;
      DetailedConcat(a[1..], b);
    } else {
      assert a + b == b;
    }
  }

  /** `array_slice($detailedComparisons, 0, 6)`: at most six cards, the first ones with details. */
  function InfoCards(cs: seq<Comparison>): (r: seq<Comparison>)
    ensures |r| <= 6
    ensures forall i :: 0 <= i < |r| ==> HasDetails(r[i].standard)
    ensures |Detailed(cs)| <= 6 ==> r == Detailed(cs)
    ensures |Detailed(cs)| > 6 ==> |r| == 6
    ensures r <= Detailed(cs)
  {
    var d := Detailed(cs);
    if |d| <= 6 then d else d[..6]
  }

  /** The keyword → icon table of nutrition.php, in its order. */
  const NutrientIcons: seq<(string, string)> := [
    ("Energy", "bolt"), ("Protein", "dumbbell"), ("Fat", "cheese"),
    ("Carbohydrate", "bread-slice"), ("Vitamin", "pills"), ("Fiber", "leaf")
  ]

  /** The icon of the first keyword occurring in the nutrient name, else 'atom'. */
  function IconFor(nutrient: string): (icon: string)
    ensures icon == "atom" <==> forall k :: 0 <= k < |NutrientIcons| ==> !Contains(nutrient, NutrientIcons[k].0)
  {
    match FindFirst(NutrientIcons, (p: (string, string)) => Contains(nutrient, p.0))
    case None => "atom"
    case Some(k) => NutrientIcons[k].1
  }

  /** The icon loop of nutrition.php: 'atom' unless a keyword occurs, stopping at the first that does. */
  method ChooseIcon(nutrient: string) returns (icon: string)
    ensures icon == IconFor(nutrient)
  {
    icon := "atom";
    var k := 0;
    while k < |NutrientIcons|
      invariant 0 <= k <= |NutrientIcons|
      invariant forall j :: 0 <= j < k ==> !Contains(nutrient, NutrientIcons[j].0)
      invariant icon == "atom"
    {
      if Contains(nutrient, NutrientIcons[k].0) {
        icon := NutrientIcons[k].1;
        break;
      }
      k := k + 1;
    }
  }

  /** Earlier keywords win: a name containing "Energy" gets 'bolt' whatever else it contains. */
  lemma EnergyFirst(nutrient: string)
    requires Contains(nutrient, "Energy")
    ensures IconFor(nutrient) == "bolt"
  {
  }

  // ---------------------------------------------------------------------------
  // nutrition.js error handling.

  /** `initializePage`: no `food` parameter (or an empty one) is an error; otherwise the analysis is loaded. */
  function InitialError(foodParam: Option<string>): (r: Option<string>)
    ensures r.None? <==> foodParam.Some? && foodParam.value != ""
  {
    if foodParam.None? || foodParam.value == "" then Some("No food specified for analysis") else None
  }

  /** The message `loadDataAndAnalyze` shows for an unsuccessful API answer. */
  function AnalysisErrorMessage(foodName: string, error: Option<string>): string {
    if error.Some? && Contains(error.value, "not found") then "Food \"" + foodName + "\" not found in database"
    else if error.Some? && error.value != "" then error.value
    else "Failed to load nutrition data"
  }

  /** `response.ok`: a status from 200 to 299. */
  predicate ResponseOk(code: int) {
    200 <= code <= 299
  }

  /**
   * `loadDataAndAnalyze` as written: an answer whose status is not ok is
   * thrown to the catch-all before its error is read, so only an error sent
   * with an ok status would reach `AnalysisErrorMessage`.
   */
  function AnalysisOutcomeAsWritten<T>(foodName: string, result: ApiResult<T>): (r: Option<string>)
    ensures r.None? <==> result.Success?
    ensures result.Failure? && !ResponseOk(result.code) ==> r == Some("Failed to load nutrition data")
    ensures result.Failure? && ResponseOk(result.code) ==> r == Some(AnalysisErrorMessage(foodName, Some(result.message)))
  {
    match result
    case Success(_) => None
    case Failure(message, code) =>
      if !ResponseOk(code) then Some("Failed to load nutrition data") else Some(AnalysisErrorMessage(foodName, Some(message)))
  }

  /** As written, the API's 404 'Food not found' is shown as the generic failure, never as the not-found message. */
  lemma NotFoundHiddenAsWritten<T>(foodName: string)
    ensures AnalysisOutcomeAsWritten<T>(foodName, Failure("Food not found", 404)) == Some("Failed to load nutrition data")
    ensures AnalysisOutcomeAsWritten<T>(foodName, Failure("Food not found", 404)) != Some("Food \"" + foodName + "\" not found in database")
  {
    var shown := "Food \"" + foodName + "\" not found in database";
    assert shown[0] == 'F' && shown[1] == 'o' && shown[4] == ' ' && shown[5] == '"';
    assert "Failed to load nutrition data"[1] == 'a';
  }

  /** `loadDataAndAnalyze` with the API's error read whatever the status: the message comes from the error. */
  function AnalysisOutcome<T>(foodName: string, result: ApiResult<T>): (r: Option<string>)
    ensures r.None? <==> result.Success?
    ensures result.Failure? ==> r == Some(AnalysisErrorMessage(foodName, Some(result.message)))
  {
    match result
    case Success(_) => None
    case Failure(message, _) => Some(AnalysisErrorMessage(foodName, Some(message)))
  }

  /**
   * Against the API's own failures: 404 'Food not found' is shown as the
   * not-found message naming the food, and 400 'Food name is required'
   * verbatim.
   */
  lemma ApiErrorsShown<T>(foodName: string)
    ensures AnalysisOutcome<T>(foodName, Failure("Food not found", 404)) == Some("Food \"" + foodName + "\" not found in database")
    ensures AnalysisOutcome<T>(foodName, Failure("Food name is required", 400)) == Some("Food name is required")
  {
    NotFoundMessageMatches();
    NotContainedShort("Food name is required", "not found");
  }

  /** The API's 404 message contains "not found". */
  lemma NotFoundMessageMatches()
    ensures Contains("Food not found", "not found")
  {
    assert "Food not found"[5..][..9] == "not found";
    assert StartsWith("not found", "not found");
    assert Contains("Food not found"[5..], "not found");
    assert "Food not found"[1..][1..][1..][1..][1..] == "Food not found"[5..];
  }

  /** A string without the letter 'f' does not contain "not found". */
  lemma {:induction false} NotContainedShort(s: string, t: string)
    requires t == "not found"
    requires forall j :: 0 <= j < |s| ==> s[j] != 'f'
    ensures !Contains(s, t)
    decreases |s|
  {
    if |t| <= |s| {
      assert s[..|t|][4] != t[4];
    }
    if s != [] {
      NotContainedShort(s[1..], t);
    }
  }
}
