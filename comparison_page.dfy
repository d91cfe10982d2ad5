/**
 * The multi-food comparison page (comparison.js, and the same table in
 * script.js): the `foods` parameter, the selection built from the API answer,
 * the comparison table with its status classes and range texts, and the
 * highest-value insights.
 */
module ComparisonPage {
  import opened Wrappers
  import opened Text
  import opened Lists
  import opened Config
  import opened Classify
  import opened FoodName
  import opened FoodModel
  import opened Analysis
  import opened NutritionPage

  /** What a page step leads to: the value to go on with, or the message `showErrorMessage` shows. */
  datatype Step<T> = Ready(value: T) | ShowError(message: string)

  predicate IsComma(c: char) {
    c == ','
  }

  /**
   * `initializePage`: a missing or empty `foods` parameter is an error;
   * otherwise the names are the comma-separated pieces, trimmed, and fewer
   * than two of them is an error (no request is made).
   */
  function ParseFoodsParam(foodsParam: Option<string>): (r: Step<seq<string>>)
    ensures (foodsParam.None? || foodsParam.value == "") ==> r == ShowError("No foods specified for comparison")
    ensures foodsParam.Some? && foodsParam.value != "" ==>
      (r.Ready? <==> Count(foodsParam.value, IsComma) >= 1)
    ensures foodsParam.Some? && foodsParam.value != "" && r.ShowError? ==>
      r.message == "At least 2 foods are required for comparison"
    ensures r.Ready? ==>
      |r.value| == 1 + Count(foodsParam.value, IsComma) >= 2 &&
      forall i :: 0 <= i < |r.value| ==> r.value[i] == JsTrim(Split(foodsParam.value, IsComma)[i])
  {
    if foodsParam.None? || foodsParam.value == "" then ShowError("No foods specified for comparison")
    else
      var pieces := Split(foodsParam.value, IsComma);
      var names := seq(|pieces|, i requires 0 <= i < |pieces| => JsTrim(pieces[i]));
      if |names| < 2 then ShowError("At least 2 foods are required for comparison")
      else Ready(names)
  }

  /** One entry of `selectedFoods`: the food and its display name. */
  datatype SelectedFood = SelectedFood(food: Food, formattedName: string)

  /** The `data` of a successful `get_comparison` answer. */
  datatype ComparisonData = ComparisonData(foods: seq<Food>, standards: seq<Standard>)

  /**
   * `loadDataAndCompare` after the answer arrives, as written: an answer whose
   * status is not ok is thrown to the catch-all, which shows the generic
   * message; the API's own error would be shown only with an ok status.
   */
  function SelectFoodsAsWritten(result: ApiResult<ComparisonData>): (r: Step<seq<SelectedFood>>)
    ensures result.Failure? && !ResponseOk(result.code) ==> r == ShowError("Failed to load comparison data")
    ensures result.Failure? && ResponseOk(result.code) ==> r == SelectFoods(result)
    ensures result.Success? ==> r == SelectFoods(result)
  {
    if result.Failure? && !ResponseOk(result.code) then ShowError("Failed to load comparison data") else SelectFoods(result)
  }

  /** As written, the API's 400 for more than five names is shown as the generic failure. */
  lemma LimitErrorHiddenAsWritten()
    ensures SelectFoodsAsWritten(Failure("Maximum 5 foods can be compared", 400)) == ShowError("Failed to load comparison data")
    ensures SelectFoods(Failure("Maximum 5 foods can be compared", 400)) == ShowError("Maximum 5 foods can be compared")
  {
  }

  /**
   * `loadDataAndCompare` after the answer arrives, with the API's error read
   * whatever the status: an unsuccessful answer shows its error (or the
   * default message when it has none); fewer than two foods is an error;
   * otherwise one selected entry per food, in order.
   */
  function SelectFoods(result: ApiResult<ComparisonData>): (r: Step<seq<SelectedFood>>)
    ensures result.Failure? ==> (r.ShowError? &&
      r.message == (if result.message != "" then result.message else "Failed to load comparison data"))
    ensures result.Success? && |result.data.foods| < 2 ==> r == ShowError("Could not find enough foods for comparison")
    ensures r.Ready? <==> result.Success? && |result.data.foods| >= 2
    ensures r.Ready? ==> (|r.value| == |result.data.foods| &&
      forall i :: 0 <= i < |r.value| ==>
        r.value[i].food == result.data.foods[i] && r.value[i].formattedName == FormatFoodName(result.data.foods[i].menu))
  {
    match result
    case Failure(message, _) => ShowError(if message != "" then message else "Failed to load comparison data")
    case Success(data) =>
      if |data.foods| < 2 then ShowError("Could not find enough foods for comparison")
      else Ready(seq(|data.foods|, i requires 0 <= i < |data.foods| => SelectedFood(data.foods[i], FormatFoodName(data.foods[i].menu))))
  }

  // ---------------------------------------------------------------------------
  // The comparison table.

  /** `standardsData.find(s => s.Nutrisi === nutrient)`. */
  function FindStandard(nutrient: string, standards: seq<Standard>): (r: Option<Standard>)
    ensures r.Some? ==> r.value in standards && r.value.nutrient == nutrient
    ensures r.None? <==> forall i :: 0 <= i < |standards| ==> standards[i].nutrient != nutrient
  {
    match FindFirst(standards, (s: Standard) => s.nutrient == nutrient)
    case None => None
    case Some(i) => Some(standards[i])
  }

  /**
   * The status class of a value cell: set only when the standard has a truthy
   * bound and both bounds read with `parseFloat(x) || null` are present, and
   * then the class of the status the comparison rule gives.
   */
  function CellClass(value: Option<Decimal>, standard: Option<Standard>): (cls: string)
    ensures cls != "" <==> (standard.Some? && (JsTruthy(standard.value.minimum) || JsTruthy(standard.value.maximum)) &&
      JsBound(standard.value.minimum).Some? && JsBound(standard.value.maximum).Some?)
    ensures cls != "" ==> cls == "status-" + StatusName(ClassifyClient(ValueOrZero(value), standard.value.minimum, standard.value.maximum))
  {
    if standard.Some? && (JsTruthy(standard.value.minimum) || JsTruthy(standard.value.maximum)) then
      var min := JsBound(standard.value.minimum);
      var max := JsBound(standard.value.maximum);
      var v := ValueOrZero(value);
      if min.Some? && max.Some? then
        if v >= min.value && v <= max.value then "status-normal"
        else if v > max.value then "status-excess"
        else "status-deficiency"
      else ""
    else ""
  }

  /** A cell of the table. */
  datatype Cell = Heading(text: string) | NutrientCell(nutrient: string) | ValueCell(statusClass: string, shown: Display) | RangeCell(text: string)

  /** The value cell of one food in one nutrient row. */
  function ValueCellOf(nutrient: string, standard: Option<Standard>, selected: SelectedFood): Cell {
    var value := NutrientValue(selected.food, nutrient);
    ValueCell(CellClass(value, standard), FormatNutrientValue(FromApi(value)))
  }

  /** The last cell of a nutrient row: the range text with the 'No standard' fallback. */
  function RangeCellOf(standard: Option<Standard>): Cell {
    RangeCell(RangeText(RangeFormOf(standard, JsTruthyText), ComparisonPageFallback))
  }

  /** The row is the nutrient's name cell, one value cell per selected food in order, and the range cell. */
  predicate IsNutrientRow(row: seq<Cell>, nutrient: string, selected: seq<SelectedFood>, standards: seq<Standard>) {
    |row| == |selected| + 2 &&
    row[0] == NutrientCell(nutrient) &&
    (forall j :: 0 <= j < |selected| ==> row[j + 1] == ValueCellOf(nutrient, FindStandard(nutrient, standards), selected[j])) &&
    row[|selected| + 1] == RangeCellOf(FindStandard(nutrient, standards))
  }

  /** The inner `forEach` of `renderMultiComparisonTable`: one nutrient row, built cell by cell. */
  method RenderNutrientRow(nutrient: string, selected: seq<SelectedFood>, standards: seq<Standard>) returns (row: seq<Cell>)
    ensures IsNutrientRow(row, nutrient, selected, standards)
  {
    var standard := FindStandard(nutrient, standards);
    row := [NutrientCell(nutrient)];
    for j := 0 to |selected|
      invariant |row| == j + 1 && row[0] == NutrientCell(nutrient)
      invariant forall i :: 0 <= i < j ==> row[i + 1] == ValueCellOf(nutrient, standard, selected[i])
    {
      row := row + [ValueCellOf(nutrient, standard, selected[j])];
    }
    row := row + [RangeCellOf(standard)];
  }

  /**
   * `renderMultiComparisonTable`: the header holds 'Nutrient', one heading per
   * selected food and 'Recommended Range'; the body holds one row per
   * NUTRIENT_MAPPING key, in order.
   */
  method RenderMultiComparisonTable(selected: seq<SelectedFood>, standards: seq<Standard>)
    returns (header: seq<Cell>, body: seq<seq<Cell>>)
    ensures |header| == |selected| + 2
    ensures header[0] == Heading("Nutrient") && header[|selected| + 1] == Heading("Recommended Range")
    ensures forall j :: 0 <= j < |selected| ==> header[j + 1] == Heading(selected[j].formattedName)
    ensures |body| == |NutrientKeys|
    ensures forall i :: 0 <= i < |body| ==> IsNutrientRow(body[i], NutrientKeys[i], selected, standards)
  {
    header := [Heading("Nutrient")];
    for j := 0 to |selected|
      invariant |header| == j + 1 && header[0] == Heading("Nutrient")
      invariant forall i :: 0 <= i < j ==> header[i + 1] == Heading(selected[i].formattedName)
    {
      header := header + [Heading(selected[j].formattedName)];
    }
    header := header + [Heading("Recommended Range")];
    body := [];
    for k := 0 to |NutrientKeys|
      invariant |body| == k
      invariant forall i :: 0 <= i < k ==> IsNutrientRow(body[i], NutrientKeys[i], selected, standards)
    {
      var row := RenderNutrientRow(NutrientKeys[k], selected, standards);
      body := body + [row];
    }
  }

  /**
   * A coloured cell only appears in a row whose range text shows both bounds:
   * single-bounded and unstandardised nutrients stay uncoloured.
   */
  lemma ColouredCellsHaveBothBounds(value: Option<Decimal>, standard: Option<Standard>)
    requires standard.Some? ==> TextPresent(standard.value.minimum) && TextPresent(standard.value.maximum)
    requires CellClass(value, standard) != ""
    ensures RangeFormOf(standard, JsTruthyText).Between?
  {
  }

  /**
   * The colour of a cell is the status the browser analysis gives the same
   * food and nutrient.
   */
  lemma CellClassIsAnalysisStatus(nutrient: string, selected: SelectedFood, standards: seq<Standard>)
    requires CellClass(NutrientValue(selected.food, nutrient), FindStandard(nutrient, standards)) != ""
    ensures CellClass(NutrientValue(selected.food, nutrient), FindStandard(nutrient, standards)) ==
      "status-" + StatusName(ClientComparison(nutrient, selected.food, standards).status)
  {
    var c := ClientComparison(nutrient, selected.food, standards);
    assert c.standard == FindStandard(nutrient, standards);
  }

  // ---------------------------------------------------------------------------
  // Nutritional insights.

  /** `Math.max(...values)`. */
  function MaxOf(values: seq<real>): (m: real)
    requires |values| > 0
    ensures m in values
    ensures forall i :: 0 <= i < |values| ==> values[i] <= m
  {
    if |values| == 1 then values[0]
    else
      var rest := MaxOf(values[1..]);
      if values[0] >= rest then values[0] else rest
  }

  /** `values.indexOf(x)` for a value that occurs: its first position. */
  function IndexOf(values: seq<real>, x: real): (k: nat)
    requires x in values
    ensures k < |values| && values[k] == x
    ensures forall j :: 0 <= j < k ==> values[j] != x
  {
    if values[0] == x then 0 else IndexOf(values[1..], x) + 1
  }

  /** `values.indexOf(Math.max(...values))`: the first position holding the maximum. */
  function HighestIndex(values: seq<real>): (k: nat)
    requires |values| > 0
    ensures k < |values| && values[k] == MaxOf(values)
    ensures forall j :: 0 <= j < |values| ==> values[j] <= values[k]
    ensures forall j :: 0 <= j < k ==> values[j] < values[k]
  {
    IndexOf(values, MaxOf(values))
  }

  /** `parseFloat(sf.food[key]) || 0` over the selected foods. */
  function ValuesOf(selected: seq<SelectedFood>, key: string): (vs: seq<real>)
    ensures |vs| == |selected|
    ensures forall i :: 0 <= i < |selected| ==> vs[i] == ValueOrZero(NutrientValue(selected[i].food, key))
  {
    seq(|selected|, i requires 0 <= i < |selected| => ValueOrZero(NutrientValue(selected[i].food, key)))
  }

  /** The food named in the 'Highest' line of an insight card. */
  function HighestFood(selected: seq<SelectedFood>, key: string): (f: SelectedFood)
    requires |selected| > 0
    ensures f in selected
    ensures forall g :: g in selected ==> ValueOrZero(NutrientValue(g.food, key)) <= ValueOrZero(NutrientValue(f.food, key))
    ensures exists k :: (0 <= k < |selected| && f == selected[k] &&
                         forall j :: 0 <= j < k ==> ValueOrZero(NutrientValue(selected[j].food, key)) < ValueOrZero(NutrientValue(f.food, key)))
  {
    selected[HighestIndex(ValuesOf(selected, key))]
  }

  /** The energy card is highlighted when the highest energy exceeds 2000 kJ. */
  predicate EnergyHighlighted(selected: seq<SelectedFood>)
    requires |selected| > 0
  {
    MaxOf(ValuesOf(selected, "Energy (kJ)")) > 2000.0
  }

  /** The energy card is highlighted exactly when some selected food has more than 2000 kJ. */
  lemma EnergyHighlightedIffSomeFood(selected: seq<SelectedFood>)
    requires |selected| > 0
    ensures EnergyHighlighted(selected) <==>
      exists i :: 0 <= i < |selected| && ValueOrZero(NutrientValue(selected[i].food, "Energy (kJ)")) > 2000.0
  {
    var vs := ValuesOf(selected, "Energy (kJ)");
    if EnergyHighlighted(selected) {
      var k := HighestIndex(vs);
      assert vs[k] > 2000.0;
    }
  }
}
