/**
 * The catalogue page's selection of foods to compare (script.js): at most
 * `maxSelections` entries, one per food name, toggled one at a time or a page
 * at a time, and the navigation to the comparison page.
 */
module Selection {
  import opened Wrappers
  import opened Text
  import opened Lists
  import opened Config
  import opened FoodModel

  /** An entry of `selectedFoods`: the food, its name as identifier, and its display name. */
  datatype Entry = Entry(food: Food, foodId: string, formattedName: string)

  /**
   * script.js's own `formatFoodName`: a falsy name reads 'Unknown Food';
   * any other name goes through its chain of regular-expression rewrites,
   * which is the parameter `format`.
   */
  function DisplayName(menu: string, format: string -> string): (r: string)
    ensures menu == "" ==> r == "Unknown Food"
    ensures menu != "" ==> r == format(menu)
  {
    if menu == "" then "Unknown Food" else format(menu)
  }

  /** The entry `handleFoodSelection` and `handleSelectAll` push for a food: the name is its identifier. */
  function EntryFor(food: Food, format: string -> string): (e: Entry)
    ensures e.food == food && e.foodId == food.menu
    ensures food.menu == "" ==> e.formattedName == "Unknown Food"
    ensures food.menu != "" ==> e.formattedName == format(food.menu)
  {
    Entry(food, food.menu, DisplayName(food.menu, format))
  }

  /** The identifiers of the entries, in order. */
  function Ids(entries: seq<Entry>): (ids: seq<string>)
    ensures |ids| == |entries| && forall i :: 0 <= i < |entries| ==> ids[i] == entries[i].foodId
  {
    seq(|entries|, i requires 0 <= i < |entries| => entries[i].foodId)
  }

  /** No identifier occurs twice. */
  predicate Distinct(ids: seq<string>) {
    forall i, j :: 0 <= i < j < |ids| ==> ids[i] != ids[j]
  }

  /** JavaScript `xs.slice(begin, end)`: negative positions count from the end, positions are clamped. */
  function JsSlice<T>(xs: seq<T>, begin: int, end: int): (r: seq<T>)
    ensures |r| <= |xs|
    ensures forall k :: 0 <= k < |r| ==> r[k] in xs
    ensures 0 <= begin <= end <= |xs| ==> r == xs[begin..end]
    ensures 0 <= end <= begin ==> r == []
    ensures -|xs| <= begin < 0 && end >= |xs| ==> r == xs[|xs| + begin..]
  {
    var lo := if begin < 0 then (if |xs| + begin > 0 then |xs| + begin else 0) else (if begin < |xs| then begin else |xs|);
    var hi := if end < 0 then (if |xs| + end > 0 then |xs| + end else 0) else (if end < |xs| then end else |xs|);
    if lo < hi then xs[lo..hi] else []
  }

  /** The foods shown on the current page of the filtered list. */
  function PageFoods(filtered: seq<Food>, currentPage: int, itemsPerPage: int): seq<Food> {
    var startIndex := (currentPage - 1) * itemsPerPage;
    var endIndex := if startIndex + itemsPerPage < |filtered| then startIndex + itemsPerPage else |filtered|;
    JsSlice(filtered, startIndex, endIndex)
  }

  /** The entries `handleSelectAll` adds: page foods in order, skipping those already selected, while there is room. */
  function AddAll(entries: seq<Entry>, foods: seq<Food>, format: string -> string): (r: seq<Entry>)
    decreases |foods|
  {
    if foods == [] then entries
    else
      var before := AddAll(entries, foods[..|foods| - 1], format);
      var food := foods[|foods| - 1];
      if food.menu !in Ids(before) && |before| < MaxComparisonItems then before + [EntryFor(food, format)] else before
  }

  /** Adding a page keeps what was selected, in front. */
  lemma {:induction false} AddAllExtends(entries: seq<Entry>, foods: seq<Food>, format: string -> string)
    ensures |entries| <= |AddAll(entries, foods, format)| && AddAll(entries, foods, format)[..|entries|] == entries
    decreases |foods|
  {
    if foods != [] {
      AddAllExtends(entries, foods[..|foods| - 1], format);
    }
  }

  /** Adding a page keeps the list bounded and duplicate-free. */
  lemma {:induction false} AddAllKeepsValid(entries: seq<Entry>, foods: seq<Food>, format: string -> string)
    requires |entries| <= MaxComparisonItems && Distinct(Ids(entries))
    ensures |AddAll(entries, foods, format)| <= MaxComparisonItems && Distinct(Ids(AddAll(entries, foods, format)))
    decreases |foods|
  {
    if foods != [] {
      AddAllKeepsValid(entries, foods[..|foods| - 1], format);
      var before := AddAll(entries, foods[..|foods| - 1], format);
      var food := foods[|foods| - 1];
      if food.menu !in Ids(before) && |before| < MaxComparisonItems {
        assert Ids(before + [EntryFor(food, format)]) == Ids(before) + [food.menu];
      }
    }
  }

  /** After adding a page, every food of the page is selected unless the list is full. */
  lemma {:induction false} AddAllSelectsPage(entries: seq<Entry>, foods: seq<Food>, format: string -> string)
    ensures forall k :: 0 <= k < |foods| ==> foods[k].menu in Ids(AddAll(entries, foods, format)) || |AddAll(entries, foods, format)| >= MaxComparisonItems
    decreases |foods|
  {
    if foods != [] {
      var init := foods[..|foods| - 1];
      AddAllSelectsPage(entries, init, format);
      var before := AddAll(entries, init, format);
      var after := AddAll(entries, foods, format);
      assert Ids(after)[..|before|] == Ids(before);
      forall k | 0 <= k < |foods|
        ensures foods[k].menu in Ids(after) || |after| >= MaxComparisonItems
      {
        if k < |foods| - 1 {
          assert foods[k] == init[k];
          if foods[k].menu in Ids(before) {
            var p :| 0 <= p < |before| && Ids(before)[p] == foods[k].menu;
            assert Ids(after)[p] == foods[k].menu;
          }
        } else if |after| < MaxComparisonItems && foods[k].menu !in Ids(before) {
          assert Ids(after)[|before|] == foods[k].menu;
        }
      }
    }
  }

  /** The names of a list of foods. */
  function Names(foods: seq<Food>): (names: seq<string>)
    ensures |names| == |foods| && forall k :: 0 <= k < |foods| ==> names[k] == foods[k].menu
  {
    seq(|foods|, k requires 0 <= k < |foods| => foods[k].menu)
  }

  /** Holds for an entry of another food than `id`. */
  function OtherThan(id: string): Entry -> bool {
    (e: Entry) => e.foodId != id
  }

  /** Holds for an entry of no food of `foods`. */
  function OffPage(foods: seq<Food>): Entry -> bool {
    (e: Entry) => e.foodId !in Names(foods)
  }

  /** The entries left after unselecting the page: those whose identifier is not a page food's name. */
  function WithoutIds(entries: seq<Entry>, foods: seq<Food>): seq<Entry> {
    Filter(entries, OffPage(foods))
  }

  /** Unselecting a food leaves no entry of it. */
  lemma OtherThanRemoves(entries: seq<Entry>, id: string)
    ensures id !in Ids(Filter(entries, OtherThan(id)))
  {
    var r := Filter(entries, OtherThan(id));
    forall q | 0 <= q < |r|
      ensures Ids(r)[q] != id
    {
      assert OtherThan(id)(r[q]);
    }
  }

  /** Removing the page's entries, then one more food's, is removing both at once. */
  lemma {:induction false} FilterTwice(entries: seq<Entry>, foods: seq<Food>, food: Food)
    ensures Filter(WithoutIds(entries, foods), OtherThan(food.menu)) == WithoutIds(entries, foods + [food])
    decreases |entries|
  {
    var once := OffPage(foods + [food]);
    if entries != [] {
      var init, e := entries[..|entries| - 1], entries[|entries| - 1];
      FilterTwice(init, foods, food);
      var last := if OffPage(foods)(e) then [e] else [];
      FilterConcat(WithoutIds(init, foods), last, OtherThan(food.menu));
      assert Names(foods + [food]) == Names(foods) + [food.menu];
      assert once(e) == (OffPage(foods)(e) && OtherThan(food.menu)(e));
      if last != [] {
        assert last[..0] == [];
      }
      assert Filter(last, OtherThan(food.menu)) == if once(e) then [e] else [];
    }
  }

  /** A sub-list of a valid list is valid. */
  lemma FilterKeepsValid(entries: seq<Entry>, p: Entry -> bool)
    requires |entries| <= MaxComparisonItems && Distinct(Ids(entries))
    ensures |Filter(entries, p)| <= MaxComparisonItems && Distinct(Ids(Filter(entries, p)))
  {
    FilterOrderedDistinct(entries, p);
  }

  lemma {:induction false} FilterOrderedDistinct(entries: seq<Entry>, p: Entry -> bool)
    requires Distinct(Ids(entries))
    ensures Distinct(Ids(Filter(entries, p)))
    decreases |entries|
  {
    if entries != [] {
      var init := entries[..|entries| - 1];
      assert Ids(init) == Ids(entries)[..|init|];
      FilterOrderedDistinct(init, p);
      var e := entries[|entries| - 1];
      var f := Filter(init, p);
      if p(e) {
        forall k | 0 <= k < |f|
          ensures f[k].foodId != e.foodId
        {
          var q :| 0 <= q < |init| && init[q] == f[k];
          assert Ids(entries)[q] == f[k].foodId;
          assert Ids(entries)[|init|] == e.foodId;
        }
        assert Ids(f + [e]) == Ids(f) + [e.foodId];
      }
    }
  }

  /** What a click on a food's checkbox did. */
  datatype Toggle = NoSuchFood | Removed | Added | LimitReached(message: string)

  /** Where `navigateToComparison` leads. */
  datatype Navigation = GoTo(url: string) | ShowError(message: string)

  /** The identifiers that are not empty, joined with commas. */
  function FoodsParam(entries: seq<Entry>): string {
    Join(Filter(Ids(entries), (id: string) => id != ""), ",")
  }

  /**
   * `navigateToComparison`: fewer than two entries is an error; otherwise the
   * comparison page with the non-empty names, unless none is left.
   */
  function NavigateToComparison(entries: seq<Entry>): (r: Navigation)
    ensures |entries| < 2 ==> r == ShowError("Please select at least 2 foods to compare")
    ensures r.GoTo? ==> |entries| >= 2 && r.url == "comparison.php?foods=" + FoodsParam(entries) && FoodsParam(entries) != ""
    ensures |entries| >= 2 && FoodsParam(entries) == "" ==> r == ShowError("No valid food names found for comparison")
  {
    if |entries| < 2 then ShowError("Please select at least 2 foods to compare")
    else if FoodsParam(entries) == "" then ShowError("No valid food names found for comparison")
    else GoTo("comparison.php?foods=" + FoodsParam(entries))
  }

  /** The `selectedFoods` global of script.js. */
  class SelectionList {
    var selected: seq<Entry>

    /** At most `maxSelections` entries, no food twice, each identified by its name. */
    ghost predicate Valid()
      reads this
    {
      |selected| <= MaxComparisonItems && Distinct(Ids(selected)) &&
      forall i :: 0 <= i < |selected| ==> selected[i].foodId == selected[i].food.menu
    }

    constructor ()
      ensures selected == [] && Valid()
    {
      selected := [];
    }

    /**
     * `handleFoodSelection(foodIndex)`: no food at the index changes nothing;
     * a selected food is unselected; an unselected one is added unless the
     * list is full, which reports the limit and changes nothing.
     */
    method HandleFoodSelection(filtered: seq<Food>, foodIndex: int, format: string -> string) returns (outcome: Toggle)
      requires Valid()
      modifies this
      ensures Valid()
      ensures !(0 <= foodIndex < |filtered|) ==> outcome == NoSuchFood && selected == old(selected)
      ensures 0 <= foodIndex < |filtered| && filtered[foodIndex].menu in Ids(old(selected)) ==>
        outcome == Removed && selected == Filter(old(selected), OtherThan(filtered[foodIndex].menu)) &&
        filtered[foodIndex].menu !in Ids(selected)
      ensures 0 <= foodIndex < |filtered| && filtered[foodIndex].menu !in Ids(old(selected)) && |old(selected)| >= MaxComparisonItems ==>
        outcome == LimitReached("Maximum 5 foods can be selected for comparison") && selected == old(selected)
      ensures 0 <= foodIndex < |filtered| && filtered[foodIndex].menu !in Ids(old(selected)) && |old(selected)| < MaxComparisonItems ==>
        outcome == Added && selected == old(selected) + [EntryFor(filtered[foodIndex], format)]
    {
      if !(0 <= foodIndex < |filtered|) {
        return NoSuchFood;
      }
      var food := filtered[foodIndex];
      var foodId := food.menu;
      if foodId in Ids(selected) {
        FilterKeepsValid(selected, OtherThan(foodId));
        FilterSubset(selected, OtherThan(foodId));
        OtherThanRemoves(selected, foodId);
        selected := Filter(selected, OtherThan(foodId));
        outcome := Removed;
      } else {
        if |selected| >= MaxComparisonItems {
          return LimitReached("Maximum 5 foods can be selected for comparison");
        }
        assert Ids(selected + [EntryFor(food, format)]) == Ids(selected) + [foodId];
        selected := selected + [EntryFor(food, format)];
        outcome := Added;
      }
    }

    /**
     * `handleSelectAll` when checked: the page's foods are added in order,
     * skipping selected ones, while there is room.
     */
    method SelectPage(pageFoods: seq<Food>, format: string -> string)
      requires Valid()
      modifies this
      ensures Valid()
      ensures selected == AddAll(old(selected), pageFoods, format)
    {
      AddAllKeepsValid(selected, pageFoods, format);
      AddAllExtends(selected, pageFoods, format);
      ghost var start := selected;
      for k := 0 to |pageFoods|
        invariant selected == AddAll(start, pageFoods[..k], format)
        invariant forall i :: 0 <= i < |selected| ==> selected[i].foodId == selected[i].food.menu
      {
        assert pageFoods[..k + 1][..k] == pageFoods[..k];
        var food := pageFoods[k];
        if food.menu !in Ids(selected) {
          if |selected| < MaxComparisonItems {
            selected := selected + [EntryFor(food, format)];
          }
        }
      }
      assert pageFoods[..|pageFoods|] == pageFoods;
    }

    /** `handleSelectAll` when unchecked: only the entries of the page's foods are removed. */
    method UnselectPage(pageFoods: seq<Food>)
      requires Valid()
      modifies this
      ensures Valid()
      ensures selected == WithoutIds(old(selected), pageFoods)
    {
      ghost var start := selected;
      FilterKeepsValid(start, OffPage(pageFoods));
      FilterSubset(start, OffPage(pageFoods));
      FilterAll(start);
      for k := 0 to |pageFoods|
        invariant selected == WithoutIds(start, pageFoods[..k])
      {
        var food := pageFoods[k];
        FilterTwice(start, pageFoods[..k], food);
        PrefixSnoc(pageFoods, k);
        selected := Filter(selected, OtherThan(food.menu));
      }
      assert pageFoods[..|pageFoods|] == pageFoods;
    }

    /** `handleSelectAll`: the page of the filtered list is added or removed. */
    method HandleSelectAll(filtered: seq<Food>, currentPage: int, itemsPerPage: int, isChecked: bool, format: string -> string)
      requires Valid()
      modifies this
      ensures Valid()
      ensures isChecked ==> selected == AddAll(old(selected), PageFoods(filtered, currentPage, itemsPerPage), format)
      ensures !isChecked ==> selected == WithoutIds(old(selected), PageFoods(filtered, currentPage, itemsPerPage))
    {
      var pageFoods := PageFoods(filtered, currentPage, itemsPerPage);
      if isChecked {
        SelectPage(pageFoods, format);
      } else {
        UnselectPage(pageFoods);
      }
    }

    /** `clearAllSelections`. */
    method ClearAll()
      modifies this
      ensures selected == [] && Valid()
    {
      selected := [];
    }
  }

  /** The prefix one longer is the prefix followed by the next element. */
  lemma PrefixSnoc<T>(xs: seq<T>, k: int)
    requires 0 <= k < |xs|
    ensures xs[..k] + [xs[k]] == xs[..k + 1]
  {
  }

  /** Unselecting an empty page changes nothing. */
  lemma {:induction false} FilterAll(entries: seq<Entry>)
    ensures WithoutIds(entries, []) == entries
    decreases |entries|
  {
    if entries != [] {
      FilterAll(entries[..|entries| - 1]);
      assert entries[..|entries| - 1] + [entries[|entries| - 1]] == entries;
    }
  }

  /** Every kept entry comes from the list, so it keeps the name-as-identifier property. */
  lemma FilterSubset(entries: seq<Entry>, p: Entry -> bool)
    requires forall i :: 0 <= i < |entries| ==> entries[i].foodId == entries[i].food.menu
    ensures forall i :: 0 <= i < |Filter(entries, p)| ==> Filter(entries, p)[i].foodId == Filter(entries, p)[i].food.menu
  {
  }
}
