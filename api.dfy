/**
 * The JSON API (controllers/api.php): the `action` parameter picks one of
 * seven handlers, and each answers `{"success": true, "data": ...}` with
 * status 200 or `{"success": false, "error": ...}` with the status it sets.
 * The rows the LIKE queries return (`getAllFoods`, `getTotalCount`,
 * `searchFoods`) and the standards table are parameters.
 */
module Api {
  import opened Wrappers
  import opened Text
  import opened Config
  import opened Classify
  import opened FoodModel
  import opened Analysis
  import opened Pagination
  import opened NutritionPage
  import opened ComparisonPage

  /** The query parameters the controller reads; `None` is a parameter absent from the request, `page` and `limit` are after `intval`. */
  datatype ApiRequest = ApiRequest(action: Option<string>, page: Option<int>, limit: Option<int>,
                                   q: Option<string>, name: Option<string>, names: Option<string>)

  /** The `data` of a successful answer, one shape per action. */
  datatype Payload =
    | FoodsList(foods: seq<Food>, pagination: FoodsPage)
    | FoodsFound(matches: seq<Food>, count: nat)
    | OneFood(food: Food)
    | StandardsList(standards: seq<Standard>, count: nat)
    | AnalysisData(analysis: NutritionAnalysis)
    | ComparisonList(comparison: ComparisonData, count: nat)

  /** How a request ends: a JSON answer, or an error nothing catches (PHP's DivisionByZeroError). */
  datatype Response = Reply(result: ApiResult<Payload>) | Uncaught

  /**
   * `explode(',', $names)` with every piece trimmed by PHP's `trim`: one
   * name more than there are commas, none holding a comma or starting or
   * ending with white space.
   */
  function NamesList(names: string): (r: seq<string>)
    ensures |r| == 1 + Count(names, IsComma)
    ensures forall k, j :: 0 <= k < |r| && 0 <= j < |r[k]| ==> !IsComma(r[k][j])
    ensures forall k :: 0 <= k < |r| && r[k] != [] ==> !IsPhpWhite(r[k][0]) && !IsPhpWhite(r[k][|r[k]| - 1])
  {
    var pieces := Split(names, IsComma);
    var r := seq(|pieces|, i requires 0 <= i < |pieces| => PhpTrim(pieces[i]));
    assert forall k, j :: 0 <= k < |r| && 0 <= j < |r[k]| ==> !IsComma(r[k][j]) by {
      forall k | 0 <= k < |r|
        ensures forall j :: 0 <= j < |r[k]| ==> !IsComma(r[k][j])
      {
        TrimKeepsProperty(pieces[k], IsPhpWhite, c => !IsComma(c));
      }
    }
    r
  }

  /**
   * `getFoods`: the page as given (not clamped), the limit defaulting to
   * ITEMS_PER_PAGE; a limit of 0 fails in `ceil($total / $limit)`.
   */
  function FoodsAnswer(page: Option<int>, limit: Option<int>, pageFoods: seq<Food>, total: nat): (r: Response)
    ensures r.Uncaught? <==> limit.GetOr(ItemsPerPage) == 0
    ensures r.Reply? ==> r.result.Success? && r.result.data.FoodsList? && r.result.data.foods == pageFoods
    ensures r.Reply? ==> r.result.data.pagination.currentPage == page.GetOr(1) && r.result.data.pagination.totalItems == total
    ensures r.Reply? ==> r.result.data.pagination.totalPages == CeilDiv(total, limit.GetOr(ItemsPerPage))
  {
    match GetFoodsPage(page, limit, total)
    case None => Uncaught
    case Some(pagination) => Reply(Success(FoodsList(pageFoods, pagination)))
  }

  /** `searchFoods`: an empty query (including "0") is refused; otherwise the rows found and their number. */
  function SearchAnswer(q: Option<string>, found: seq<Food>): (r: ApiResult<Payload>)
    ensures r.Failure? <==> PhpEmpty(q.GetOr(""))
    ensures r.Failure? ==> r == Failure("Search query is required", 400)
    ensures r.Success? ==> r.data == FoodsFound(found, |found|)
  {
    if PhpEmpty(q.GetOr("")) then Failure("Search query is required", 400)
    else Success(FoodsFound(found, |found|))
  }

  /** `getFood`: an empty name is refused, an unknown one is 404, a known one is answered with the stored food. */
  function FoodAnswer(name: Option<string>, rows: seq<FoodRow>): (r: ApiResult<Payload>)
    ensures PhpEmpty(name.GetOr("")) ==> r == Failure("Food name is required", 400)
    ensures !PhpEmpty(name.GetOr("")) && LookupFood(rows, name.value).None? ==> r == Failure("Food not found", 404)
    ensures r.Success? <==> !PhpEmpty(name.GetOr("")) && LookupFood(rows, name.value).Some?
    ensures r.Success? ==> r.data == OneFood(LookupFood(rows, name.value).value)
  {
    if PhpEmpty(name.GetOr("")) then Failure("Food name is required", 400)
    else match LookupFood(rows, name.value)
      case None => Failure("Food not found", 404)
      case Some(food) => Success(OneFood(food))
  }

  /**
   * `getMultipleFoods`: an empty parameter is refused; otherwise the foods
   * matching one of the comma-separated names, ignoring ASCII case, and their
   * number (no lower or upper bound on the number of names).
   */
  function MultipleFoodsAnswer(names: Option<string>, rows: seq<FoodRow>): (r: ApiResult<Payload>)
    ensures r.Failure? <==> PhpEmpty(names.GetOr(""))
    ensures r.Failure? ==> r == Failure("Food names are required", 400)
    ensures r.Success? ==> r.data.FoodsFound? && r.data.count == |r.data.matches| <= |rows|
    ensures r.Success? ==> forall j :: 0 <= j < |r.data.matches| ==> Lower(r.data.matches[j].menu) in LowerAll(NamesList(names.value))
  {
    if PhpEmpty(names.GetOr("")) then Failure("Food names are required", 400)
    else
      Success(FoodsFound(FoodsByNames(rows, NamesList(names.value)), |FoodsByNames(rows, NamesList(names.value))|))
  }

  /**
   * `getComparison`: the names are refused when empty, fewer than two or
   * more than MAX_COMPARISON_ITEMS; fewer than two foods found is 404;
   * otherwise the foods found and every standard.
   */
  function ComparisonAnswer(names: Option<string>, rows: seq<FoodRow>, standards: seq<Standard>): (r: ApiResult<ComparisonData>)
    ensures PhpEmpty(names.GetOr("")) ==> r == Failure("Food names are required", 400)
    ensures !PhpEmpty(names.GetOr("")) && Count(names.value, IsComma) == 0 ==>
      r == Failure("At least 2 foods are required for comparison", 400)
    ensures !PhpEmpty(names.GetOr("")) && 1 + Count(names.value, IsComma) > MaxComparisonItems ==>
      r == Failure("Maximum 5 foods can be compared", 400)
    ensures r.Success? <==>
      !PhpEmpty(names.GetOr("")) && 2 <= 1 + Count(names.value, IsComma) <= MaxComparisonItems &&
      |FoodsByNames(rows, NamesList(names.value))| >= 2
    ensures !PhpEmpty(names.GetOr("")) && 2 <= 1 + Count(names.value, IsComma) <= MaxComparisonItems && r.Failure? ==>
      r == Failure("Could not find enough foods for comparison", 404)
    ensures r.Success? ==> r.data == ComparisonData(FoodsByNames(rows, NamesList(names.value)), standards)
  {
    var param := names.GetOr("");
    if PhpEmpty(param) then Failure("Food names are required", 400)
    else
      var list := NamesList(param);
      if |list| < 2 then Failure("At least 2 foods are required for comparison", 400)
      else if |list| > MaxComparisonItems then Failure("Maximum 5 foods can be compared", 400)
      else
        var foods := FoodsByNames(rows, list);
        if |foods| < 2 then Failure("Could not find enough foods for comparison", 404)
        else Success(ComparisonData(foods, standards))
  }

  /** The actions `handleRequest` dispatches on. */
  predicate KnownAction(action: string) {
    action == "get_foods" || action == "search_foods" || action == "get_food" || action == "get_multiple_foods" ||
    action == "get_standards" || action == "get_nutrition_analysis" || action == "get_comparison"
  }

  /** Whether a payload has the shape the handler of `action` answers with. */
  predicate AnswersAction(p: Payload, action: string) {
    match p
    case FoodsList(_, _) => action == "get_foods"
    case FoodsFound(_, _) => action == "search_foods" || action == "get_multiple_foods"
    case OneFood(_) => action == "get_food"
    case StandardsList(_, _) => action == "get_standards"
    case AnalysisData(_) => action == "get_nutrition_analysis"
    case ComparisonList(_, _) => action == "get_comparison"
  }

  /** Wraps an analysis answer as a payload answer. */
  function AnalysisReply(r: ApiResult<NutritionAnalysis>): ApiResult<Payload> {
    match r
    case Success(a) => Success(AnalysisData(a))
    case Failure(m, c) => Failure(m, c)
  }

  /** Wraps a comparison answer as a payload answer, with the number of foods. */
  function ComparisonReply(r: ApiResult<ComparisonData>): ApiResult<Payload> {
    match r
    case Success(d) => Success(ComparisonList(d, |d.foods|))
    case Failure(m, c) => Failure(m, c)
  }

  /**
   * `handleRequest`: a missing or unknown action is 400 'Invalid action';
   * every refusal is sent with status 400 or 404, never with an ok status;
   * a successful answer carries the payload of the action asked for; only
   * `get_foods` with a limit of 0 ends without an answer.
   */
  function Respond(req: ApiRequest, rows: seq<FoodRow>, standards: seq<Standard>, pageFoods: seq<Food>, total: nat, found: seq<Food>): (r: Response)
    ensures !KnownAction(req.action.GetOr("")) ==> r == Reply(Failure("Invalid action", 400))
    ensures r.Reply? && r.result.Failure? ==> (r.result.code == 400 || r.result.code == 404) && !ResponseOk(r.result.code)
    ensures r.Uncaught? <==> req.action == Some("get_foods") && req.limit.GetOr(ItemsPerPage) == 0
    ensures r.Reply? && r.result.Success? ==> AnswersAction(r.result.data, req.action.GetOr(""))
    ensures req.action == Some("get_standards") ==> r == Reply(Success(StandardsList(standards, |standards|)))
  {
    match req.action.GetOr("")
    case "get_foods" => FoodsAnswer(req.page, req.limit, pageFoods, total)
    case "search_foods" => Reply(SearchAnswer(req.q, found))
    case "get_food" => Reply(FoodAnswer(req.name, rows))
    case "get_multiple_foods" => Reply(MultipleFoodsAnswer(req.names, rows))
    case "get_standards" => Reply(Success(StandardsList(standards, |standards|)))
    case "get_nutrition_analysis" => Reply(AnalysisReply(NutritionAnswer(req.name.GetOr(""), rows, standards)))
    case "get_comparison" => Reply(ComparisonReply(ComparisonAnswer(req.names, rows, standards)))
    case _ => Reply(Failure("Invalid action", 400))
  }

  /**
   * The controller on a request: the single-food actions look the food up
   * through the cache (so it may fill or drop entries); every other action
   * leaves the cache alone. The answer is the one `Respond` describes.
   */
  method HandleRequest(req: ApiRequest, store: FoodStore, standards: seq<Standard>,
                       pageFoods: seq<Food>, total: nat, found: seq<Food>, now: int) returns (resp: Response)
    requires store.Coherent()
    modifies store
    ensures store.Coherent()
    ensures resp == Respond(req, store.rows, standards, pageFoods, total, found)
    ensures req.action != Some("get_food") && req.action != Some("get_nutrition_analysis") ==> store.cache == old(store.cache)
  {
    var action := req.action.GetOr("");
    if action == "get_foods" {
      resp := FoodsAnswer(req.page, req.limit, pageFoods, total);
    } else if action == "search_foods" {
      resp := Reply(SearchAnswer(req.q, found));
    } else if action == "get_food" {
      var name := req.name.GetOr("");
      if PhpEmpty(name) {
        resp := Reply(Failure("Food name is required", 400));
      } else {
        var food := store.GetFoodByName(name, now);
        if food.None? {
          resp := Reply(Failure("Food not found", 404));
        } else {
          resp := Reply(Success(OneFood(food.value)));
        }
      }
    } else if action == "get_multiple_foods" {
      resp := Reply(MultipleFoodsAnswer(req.names, store.rows));
    } else if action == "get_standards" {
      resp := Reply(Success(StandardsList(standards, |standards|)));
    } else if action == "get_nutrition_analysis" {
      var analysis := GetNutritionAnalysis(req.name.GetOr(""), store, standards, now);
      resp := Reply(AnalysisReply(analysis));
    } else if action == "get_comparison" {
      resp := Reply(ComparisonReply(ComparisonAnswer(req.names, store.rows, standards)));
    } else {
      resp := Reply(Failure("Invalid action", 400));
    }
  }

  // ---------------------------------------------------------------------------
  // The pages against the API.

  /** Pieces cut at commas and trimmed are free of commas. */
  lemma TrimmedPiecesCommaFree(pieces: seq<string>, names: seq<string>)
    requires forall k, j :: 0 <= k < |pieces| && 0 <= j < |pieces[k]| ==> !IsComma(pieces[k][j])
    requires |names| == |pieces| && forall i :: 0 <= i < |pieces| ==> names[i] == JsTrim(pieces[i])
    ensures forall k, j :: 0 <= k < |names| && 0 <= j < |names[k]| ==> !IsComma(names[k][j])
  {
    forall k | 0 <= k < |names|
      ensures forall j :: 0 <= j < |names[k]| ==> !IsComma(names[k][j])
    {
      TrimKeepsProperty(pieces[k], IsJsWhite, c => !IsComma(c));
    }
  }

  /** A join of two or more names holds a comma, so PHP does not take it for empty. */
  lemma JoinNotEmpty(names: seq<string>)
    requires |names| >= 2
    ensures !PhpEmpty(Join(names, ","))
  {
    var s := Join(names, ",");
    assert s == names[0] + "," + Join(names[1..], ",");
    assert s[|names[0]|] == ',';
  }

  /**
   * The comparison page asks for the names it parsed, joined with commas: the
   * API splits them back into the same number of names, each the page's name
   * trimmed again, so it accepts the count exactly when the page's list is
   * within MAX_COMPARISON_ITEMS and refuses a longer one (a select-all on
   * index.php can produce one) with 'Maximum 5 foods can be compared'.
   */
  lemma ComparisonRequestAgrees(foods: string, rows: seq<FoodRow>, standards: seq<Standard>)
    requires ParseFoodsParam(Some(foods)).Ready?
    ensures var names := ParseFoodsParam(Some(foods)).value;
      var r := ComparisonAnswer(Some(Join(names, ",")), rows, standards);
      NamesList(Join(names, ",")) == seq(|names|, i requires 0 <= i < |names| => PhpTrim(names[i])) &&
      (|names| <= MaxComparisonItems ==> r.Success? || r == Failure("Could not find enough foods for comparison", 404)) &&
      (|names| > MaxComparisonItems ==> r == Failure("Maximum 5 foods can be compared", 400))
  {
    var names := ParseFoodsParam(Some(foods)).value;
    TrimmedPiecesCommaFree(Split(foods, IsComma), names);
    SplitJoin(names, ',', IsComma);
    assert [','] == ",";
    JoinNotEmpty(names);
  }

  /**
   * The comparison page as written never shows the API's own refusal: every
   * error the API can send for a comparison reaches it with a status that is
   * not ok, and it shows 'Failed to load comparison data'; read whatever the
   * status, the API's message would be shown.
   */
  lemma ComparisonRefusalsHidden(names: Option<string>, rows: seq<FoodRow>, standards: seq<Standard>)
    requires ComparisonAnswer(names, rows, standards).Failure?
    ensures SelectFoodsAsWritten(ComparisonAnswer(names, rows, standards)) == ShowError("Failed to load comparison data")
    ensures SelectFoods(ComparisonAnswer(names, rows, standards)) == ShowError(ComparisonAnswer(names, rows, standards).message)
  {
  }

  /**
   * The nutrition page as written never shows the API's refusal either: it
   * shows 'Failed to load nutrition data'; read whatever the status, an
   * unknown food is reported by name.
   */
  lemma AnalysisRefusalsHidden(name: string, rows: seq<FoodRow>, standards: seq<Standard>)
    requires NutritionAnswer(name, rows, standards).Failure?
    ensures AnalysisOutcomeAsWritten(name, NutritionAnswer(name, rows, standards)) == Some("Failed to load nutrition data")
    ensures !PhpEmpty(name) ==>
      AnalysisOutcome(name, NutritionAnswer(name, rows, standards)) == Some("Food \"" + name + "\" not found in database")
  {
    if !PhpEmpty(name) {
      ApiErrorsShown<NutritionAnalysis>(name);
    }
  }
}
