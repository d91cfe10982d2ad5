/**
 * Single-food analysis: one comparison record per nutrient and the summary
 * statistics (safe count and safety percentage), as computed by the API
 * endpoint `get_nutrition_analysis` (controllers/api.php), the server-rendered
 * page (nutrition.php) and the browser (`generateComparisonData` and
 * `updateSummaryCards` in script.js and nutrition.js).
 */
module Analysis {
  import opened Wrappers
  import opened Text
  import opened Config
  import opened Lists
  import opened Classify
  import opened FoodModel

  /** One comparison record: nutrient, food value, standard, status, status text and in-range flag. */
  datatype Comparison = Comparison(
    nutrient: string,
    foodValue: Option<Decimal>,
    standard: Option<Standard>,
    status: Status,
    statusText: string,
    inRange: bool)

  /** The comparison the server builds for one standard row. */
  function ServerComparison(standard: Standard, food: Food): (c: Comparison)
    ensures c.nutrient == standard.nutrient && c.standard == Some(standard)
    ensures c.foodValue == NutrientValue(food, standard.nutrient)
    ensures c.status == ClassifyServer(ValueOrZero(c.foodValue), Number(standard.minimum), Number(standard.maximum))
    ensures c.statusText == StatusText(c.status)
    ensures c.inRange <==> c.status == Normal
  {
    var value := NutrientValue(food, standard.nutrient);
    var status := ClassifyServer(ValueOrZero(value), Number(standard.minimum), Number(standard.maximum));
    Comparison(standard.nutrient, value, Some(standard), status, StatusText(status), status == Normal)
  }

  /**
   * The body of the loop over standards in `getNutritionAnalysis`: a record that
   * starts as 'no-standard' and whose status fields are overwritten branch by branch.
   */
  method CompareWithStandard(standard: Standard, food: Food) returns (c: Comparison)
    ensures c == ServerComparison(standard, food)
  {
    var foodValue := NutrientValue(food, standard.nutrient);
    c := Comparison(standard.nutrient, foodValue, Some(standard), NoStandard, "No Standard", false);
    if standard.minimum.Some? || standard.maximum.Some? {
      var value := ValueOrZero(foodValue);
      if standard.minimum.Some? && standard.maximum.Some? {
        var min := standard.minimum.value.value;
        var max := standard.maximum.value.value;
        if value >= min && value <= max {
          c := c.(status := Normal, statusText := "Normal Range", inRange := true);
        } else if value > max {
          c := c.(status := Excess, statusText := "Excess");
        } else {
          c := c.(status := Deficiency, statusText := "Deficient");
        }
      } else if standard.minimum.Some? {
        if value >= standard.minimum.value.value {
          c := c.(status := Normal, statusText := "Normal Range", inRange := true);
        } else {
          c := c.(status := Deficiency, statusText := "Deficient");
        }
      } else if standard.maximum.Some? {
        if value <= standard.maximum.value.value {
          c := c.(status := Normal, statusText := "Normal Range", inRange := true);
        } else {
          c := c.(status := Excess, statusText := "Excess");
        }
      }
    }
  }

  /** The number of records with `in_range` true (`count(array_filter(...))`, `filter(c => c.inRange).length`). */
  function CountInRange(cs: seq<Comparison>): (n: nat)
    ensures n <= |cs|
  {
    if cs == [] then 0
    else CountInRange(cs[..|cs| - 1]) + (if cs[|cs| - 1].inRange then 1 else 0)
  }

  lemma {:induction false} CountInRangeIsNormalCount(cs: seq<Comparison>, k: nat)
    requires k <= |cs|
    requires forall i :: 0 <= i < |cs| ==> (cs[i].inRange <==> cs[i].status == Normal)
    ensures CountInRange(cs[..k]) == |set i | 0 <= i < k && cs[i].status == Normal|
  {
    if k > 0 {
      CountInRangeIsNormalCount(cs, k - 1);
      assert cs[..k][..k - 1] == cs[..k - 1];
      var before := set i | 0 <= i < k - 1 && cs[i].status == Normal;
      var after := set i | 0 <= i < k && cs[i].status == Normal;
      if cs[k - 1].status == Normal {
        assert after == before + {k - 1};
      } else {
        assert after == before;
      }
    }
  }

  /** The comparisons of `getNutritionAnalysis`: one per standard, in the standards' order. */
  method ServerComparisons(standards: seq<Standard>, food: Food) returns (comparisons: seq<Comparison>)
    ensures |comparisons| == |standards|
    ensures forall i :: 0 <= i < |standards| ==> comparisons[i] == ServerComparison(standards[i], food)
  {
    comparisons := [];
    for k := 0 to |standards|
      invariant |comparisons| == k
      invariant forall i :: 0 <= i < k ==> comparisons[i] == ServerComparison(standards[i], food)
    {
      var c := CompareWithStandard(standards[k], food);
      comparisons := comparisons + [c];
    }
  }

  // ---------------------------------------------------------------------------
  // Rounding and the safety percentage.

  /** PHP `round($x)`: to the nearest integer, halves away from zero. */
  function PhpRound(x: real): int {
    if x >= 0.0 then (x + 0.5).Floor else -((-x + 0.5).Floor)
  }

  /** JavaScript `Math.round(x)`: to the nearest integer, halves upwards. */
  function JsRound(x: real): int {
    (x + 0.5).Floor
  }

  /** The two roundings agree on non-negative numbers. */
  lemma RoundingsAgree(x: real)
    requires x >= 0.0
    ensures PhpRound(x) == JsRound(x)
  {
  }

  /** The two roundings differ on negative halves: -0.5 rounds to -1 in PHP and to 0 in JavaScript. */
  lemma RoundingsDifferOnNegativeHalf()
    ensures PhpRound(-0.5) == -1 && JsRound(-0.5) == 0
  {
  }

  lemma MulCancel(u: real, v: real, c: real)
    requires c > 0.0 && u * c == v * c
    ensures u == v
  {
  }

  lemma MulMonotone(u: real, v: real, c: real)
    requires c > 0.0 && u * c <= v * c
    ensures u <= v
  {
  }

  lemma MulStrict(u: real, v: real, c: real)
    requires c > 0.0 && u * c < v * c
    ensures u < v
  {
  }

  /** The floor of the real quotient `a / b` is Dafny's integer quotient (for b > 0). */
  lemma FloorOfQuotient(a: int, b: int)
    requires b > 0
    ensures (a as real / b as real).Floor == a / b
  {
    var q := a / b;
    var x := a as real / b as real;
    var B := b as real;
    assert x * B == a as real;
    assert q * b <= a < (q + 1) * b;
    assert (q * b) as real == q as real * B;
    assert ((q + 1) * b) as real == (q as real + 1.0) * B;
    MulMonotone(q as real, x, B);
    MulStrict(x, q as real + 1.0, B);
  }

  /** `round(($safe / $total) * 100)`, or 0 when there is nothing to count. */
  function SafetyPercentage(safe: nat, total: nat): (p: int)
    ensures total == 0 ==> p == 0
  {
    if total > 0 then PhpRound((safe as real / total as real) * 100.0) else 0
  }

  /** `Math.round((safeNutrients / totalNutrients) * 100)`, or 0 when there is nothing to count. */
  function ClientSafetyPercentage(safe: nat, total: nat): (p: int)
    ensures total == 0 ==> p == 0
  {
    if total > 0 then JsRound((safe as real / total as real) * 100.0) else 0
  }

  /** The percentage in integer arithmetic: (200·safe + total) div (2·total). */
  lemma SafetyPercentageExact(safe: nat, total: nat)
    requires total > 0
    ensures SafetyPercentage(safe, total) == (200 * safe + total) / (2 * total)
    ensures ClientSafetyPercentage(safe, total) == SafetyPercentage(safe, total)
  {
    var x := (safe as real / total as real) * 100.0;
    var y := (200 * safe + total) as real / (2 * total) as real;
    var T := total as real;
    var u := safe as real / T;
    assert u * T == safe as real;
    assert y * (2.0 * T) == 200.0 * safe as real + T;
    assert (x + 0.5) * (2.0 * T) == 200.0 * (u * T) + T;
    MulCancel(x + 0.5, y, 2.0 * T);
    FloorOfQuotient(200 * safe + total, 2 * total);
  }

  /** The percentage is a whole number between 0 and 100. */
  lemma SafetyPercentageBounds(safe: nat, total: nat)
    requires safe <= total
    ensures 0 <= SafetyPercentage(safe, total) <= 100
    ensures safe == total && total > 0 ==> SafetyPercentage(safe, total) == 100
    ensures safe == 0 ==> SafetyPercentage(safe, total) == 0
  {
    if total > 0 {
      SafetyPercentageExact(safe, total);
      var a := 200 * safe + total;
      var b := 2 * total;
      QuotientBelow(a, b, 101);
      if safe == total {
        assert a == b * 100 + total;
        QuotientExact(a, b, 100, total);
      }
      if safe == 0 {
        QuotientExact(a, b, 0, total);
      }
    }
  }

  lemma QuotientBelow(a: int, b: int, m: int)
    requires b > 0 && 0 <= a < b * m
    ensures 0 <= a / b < m
  {
  }

  /** A multiple of a positive `b` strictly between -b and b is 0. */
  lemma ZeroMultiple(b: int, d: int)
    requires b > 0 && -b < b * d < b
    ensures d == 0
  {
  }

  lemma QuotientExact(a: int, b: int, q: int, r: int)
    requires b > 0 && 0 <= r < b && a == b * q + r
    ensures a / b == q
  {
    var q' := a / b;
    var r' := a % b;
    assert b * (q' - q) == r - r';
    ZeroMultiple(b, q' - q);
  }

  datatype Statistics = Statistics(totalNutrients: nat, safeNutrients: nat, safetyPercentage: int)

  /** The `statistics` of `getNutritionAnalysis` over the comparisons built. */
  function StatisticsOf(cs: seq<Comparison>): (s: Statistics)
    ensures s.totalNutrients == |cs| && s.safeNutrients <= s.totalNutrients
    ensures s.safeNutrients == CountInRange(cs)
    ensures s.safetyPercentage == SafetyPercentage(s.safeNutrients, s.totalNutrients)
    ensures |cs| > 0 ==> s.safetyPercentage == (200 * s.safeNutrients + |cs|) / (2 * |cs|)
    ensures 0 <= s.safetyPercentage <= 100
  {
    SafetyPercentageBounds(CountInRange(cs), |cs|);
    assert |cs| > 0 ==> SafetyPercentage(CountInRange(cs), |cs|) == (200 * CountInRange(cs) + |cs|) / (2 * |cs|) by {
      if |cs| > 0 {
        SafetyPercentageExact(CountInRange(cs), |cs|);
      }
    }
    Statistics(|cs|, CountInRange(cs), SafetyPercentage(CountInRange(cs), |cs|))
  }

  datatype NutritionAnalysis = NutritionAnalysis(food: Food, comparisons: seq<Comparison>, statistics: Statistics)

  /**
   * The answer of `getNutritionAnalysis` against the foods table: an empty
   * name (including "0") is 400 'Food name is required', an unknown food is
   * 404 'Food not found'; otherwise one comparison per standard, in the
   * standards' order, and the statistics over them.
   */
  function NutritionAnswer(name: string, rows: seq<FoodRow>, standards: seq<Standard>): (r: ApiResult<NutritionAnalysis>)
    ensures PhpEmpty(name) ==> r == Failure("Food name is required", 400)
    ensures !PhpEmpty(name) && LookupFood(rows, name).None? ==> r == Failure("Food not found", 404)
    ensures r.Success? <==> !PhpEmpty(name) && LookupFood(rows, name).Some?
    ensures r.Success? ==>
      r.data.food == LookupFood(rows, name).value &&
      |r.data.comparisons| == |standards| &&
      (forall i :: 0 <= i < |standards| ==>
        r.data.comparisons[i].nutrient == standards[i].nutrient && r.data.comparisons[i] == ServerComparison(standards[i], r.data.food)) &&
      r.data.statistics.totalNutrients == |standards| &&
      r.data.statistics.safeNutrients == CountInRange(r.data.comparisons)
  {
    if PhpEmpty(name) then Failure("Food name is required", 400)
    else match LookupFood(rows, name)
      case None => Failure("Food not found", 404)
      case Some(food) =>
        var comparisons := seq(|standards|, i requires 0 <= i < |standards| => ServerComparison(standards[i], food));
        Success(NutritionAnalysis(food, comparisons, StatisticsOf(comparisons)))
  }

  /**
   * `getNutritionAnalysis`: the food is looked up through the cache (which
   * with a coherent cache gives the database's answer) and the comparisons
   * are built by the loop over the standards.
   */
  method GetNutritionAnalysis(name: string, store: FoodStore, standards: seq<Standard>, now: int)
    returns (r: ApiResult<NutritionAnalysis>)
    requires store.Coherent()
    modifies store
    ensures store.Coherent()
    ensures r == NutritionAnswer(name, store.rows, standards)
    ensures PhpEmpty(name) ==> store.cache == old(store.cache)
  {
    if PhpEmpty(name) {
      return Failure("Food name is required", 400);
    }
    var food := store.GetFoodByName(name, now);
    if food.None? {
      return Failure("Food not found", 404);
    }
    var comparisons := ServerComparisons(standards, food.value);
    assert comparisons == seq(|standards|, i requires 0 <= i < |standards| => ServerComparison(standards[i], food.value));
    r := Success(NutritionAnalysis(food.value, comparisons, StatisticsOf(comparisons)));
  }

  /**
   * The loop of nutrition.php: the same records as the API, with the counters
   * kept alongside; the safe counter goes up exactly when the record was set
   * to 'normal' (the branches that set `in_range`).
   */
  method AnalyzeStandards(standards: seq<Standard>, food: Food)
    returns (comparisons: seq<Comparison>, totalNutrients: nat, safeNutrients: nat)
    ensures |comparisons| == |standards| == totalNutrients
    ensures forall i :: 0 <= i < |standards| ==> comparisons[i] == ServerComparison(standards[i], food)
    ensures safeNutrients == CountInRange(comparisons) <= totalNutrients
  {
    comparisons := [];
    totalNutrients := 0;
    safeNutrients := 0;
    for k := 0 to |standards|
      invariant totalNutrients == |comparisons| == k
      invariant forall i :: 0 <= i < k ==> comparisons[i] == ServerComparison(standards[i], food)
      invariant safeNutrients == CountInRange(comparisons)
    {
      var c := CompareWithStandard(standards[k], food);
      if c.inRange {
        safeNutrients := safeNutrients + 1;
      }
      assert (comparisons + [c])[..k] == comparisons;
      comparisons := comparisons + [c];
      totalNutrients := totalNutrients + 1;
    }
  }

  /** `$safetyPercentage` of nutrition.php agrees with the API's statistics for the same records. */
  lemma PageAndApiStatisticsAgree(comparisons: seq<Comparison>, totalNutrients: nat, safeNutrients: nat)
    requires totalNutrients == |comparisons| && safeNutrients == CountInRange(comparisons)
    ensures StatisticsOf(comparisons) == Statistics(totalNutrients, safeNutrients, SafetyPercentage(safeNutrients, totalNutrients))
  {
  }

  // ---------------------------------------------------------------------------
  // The browser version (script.js and nutrition.js).

  /**
   * The comparison the browser builds for one NUTRIENT_MAPPING key: the standard
   * is the first whose Nutrisi equals the key; without one the status stays
   * 'no-standard'.
   */
  function ClientComparison(nutrient: string, food: Food, standards: seq<Standard>): (c: Comparison)
    ensures c.nutrient == nutrient && c.foodValue == NutrientValue(food, nutrient)
    ensures c.standard.None? ==> c.status == NoStandard
    ensures c.standard.Some? ==>
      (c.standard.value in standards && c.standard.value.nutrient == nutrient &&
       c.status == ClassifyClient(ValueOrZero(c.foodValue), c.standard.value.minimum, c.standard.value.maximum))
    ensures c.statusText == StatusText(c.status)
    ensures c.inRange <==> c.status == Normal
  {
    var value := NutrientValue(food, nutrient);
    match FindFirst(standards, (s: Standard) => s.nutrient == nutrient)
    case None => Comparison(nutrient, value, None, NoStandard, StatusText(NoStandard), false)
    case Some(i) =>
      var status := ClassifyClient(ValueOrZero(value), standards[i].minimum, standards[i].maximum);
      Comparison(nutrient, value, Some(standards[i]), status, StatusText(status), status == Normal)
  }

  /** `generateComparisonData(food)`: one record per NUTRIENT_MAPPING key, in declaration order. */
  method ClientComparisons(food: Food, standards: seq<Standard>) returns (comparisons: seq<Comparison>)
    ensures |comparisons| == |NutrientKeys|
    ensures forall i :: 0 <= i < |NutrientKeys| ==> comparisons[i] == ClientComparison(NutrientKeys[i], food, standards)
  {
    comparisons := [];
    for k := 0 to |NutrientKeys|
      invariant |comparisons| == k
      invariant forall i :: 0 <= i < k ==> comparisons[i] == ClientComparison(NutrientKeys[i], food, standards)
    {
      comparisons := comparisons + [ClientComparison(NutrientKeys[k], food, standards)];
    }
  }

  /** Records none of which is in range count zero. */
  lemma {:induction false} NoneInRange(cs: seq<Comparison>)
    requires forall i :: 0 <= i < |cs| ==> !cs[i].inRange
    ensures CountInRange(cs) == 0
    decreases |cs|
  {
    if cs != [] {
      NoneInRange(cs[..|cs| - 1]);
    }
  }

  /**
   * script.js declares `standardsData = []` and never fills it, so the
   * records its own analysis builds find no standard for any nutrient and
   * its summary cards show 0%.
   */
  lemma UnfilledStandardsShowNothing(cs: seq<Comparison>, keys: seq<string>, food: Food)
    requires |cs| == |keys|
    requires forall i :: 0 <= i < |cs| ==> cs[i] == ClientComparison(keys[i], food, [])
    ensures forall i :: 0 <= i < |cs| ==> cs[i].status == NoStandard && !cs[i].inRange
    ensures CountInRange(cs) == 0 && ClientSafetyPercentage(CountInRange(cs), |cs|) == 0
  {
    forall i | 0 <= i < |cs|
      ensures cs[i].status == NoStandard && !cs[i].inRange
    {
      assert cs[i].standard.None?;
    }
    NoneInRange(cs);
    if |cs| > 0 {
      SafetyPercentageBounds(0, |cs|);
      SafetyPercentageExact(0, |cs|);
    }
  }

  /** `updateSummaryCards(comparisons)`: the browser's statistics equal the server's formula. */
  lemma ClientStatisticsAgree(cs: seq<Comparison>)
    ensures ClientSafetyPercentage(CountInRange(cs), |cs|) == StatisticsOf(cs).safetyPercentage
  {
    assert |cs| > 0 ==> SafetyPercentage(CountInRange(cs), |cs|) == (200 * CountInRange(cs) + |cs|) / (2 * |cs|) by {
      if |cs| > 0 {
        SafetyPercentageExact(CountInRange(cs), |cs|);
      }
    }
  }
}
