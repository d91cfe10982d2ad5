/**
 * The server-rendered catalogue's checkbox selection (index.php): the
 * selected foods are read back from the checked boxes after every change,
 * and unchecked boxes are disabled once the comparison limit is reached.
 */
module IndexSelection {
  import opened Text
  import opened Config

  /** One `.food-checkbox` of the rendered table. */
  datatype Box = Box(foodName: string, checked: bool, disabled: bool)

  /**
   * Whether jQuery's `.data('food-name')` turns the attribute text into a
   * falsy value: "false" and "null" become those values, and a text that
   * reads back unchanged as a number becomes that number, so "0" and "NaN"
   * are falsy, beside the empty text itself.
   */
  predicate DataFalsy(name: string) {
    name == "" || name == "0" || name == "NaN" || name == "false" || name == "null"
  }

  /** The names of the checked boxes, in page order, leaving out those `if (foodName)` rejects. */
  function CheckedNames(boxes: seq<Box>): (names: seq<string>)
    ensures |names| <= |boxes|
    ensures forall n :: n in names ==> !DataFalsy(n)
    decreases |boxes|
  {
    if boxes == [] then []
    else
      var last := boxes[|boxes| - 1];
      CheckedNames(boxes[..|boxes| - 1]) + (if last.checked && !DataFalsy(last.foodName) then [last.foodName] else [])
  }

  /** A checked box for a food named "0" is not selected. */
  lemma FalsyNameSkipped()
    ensures CheckedNames([Box("0", true, false), Box("A", true, false)]) == ["A"]
  {
    var boxes := [Box("0", true, false), Box("A", true, false)];
    assert boxes[..1][..0] == [];
    assert CheckedNames(boxes[..1]) == [];
  }

  /** The selected names are exactly the names of the checked boxes. */
  lemma {:induction false} CheckedNamesExactly(boxes: seq<Box>)
    ensures forall i :: 0 <= i < |boxes| && boxes[i].checked && !DataFalsy(boxes[i].foodName) ==> boxes[i].foodName in CheckedNames(boxes)
    ensures forall n :: n in CheckedNames(boxes) ==> exists i :: 0 <= i < |boxes| && boxes[i].checked && boxes[i].foodName == n
    decreases |boxes|
  {
    if boxes != [] {
      var init := boxes[..|boxes| - 1];
      CheckedNamesExactly(init);
      forall n | n in CheckedNames(boxes)
        ensures exists i :: 0 <= i < |boxes| && boxes[i].checked && boxes[i].foodName == n
      {
        if n in CheckedNames(init) {
          var i :| 0 <= i < |init| && init[i].checked && init[i].foodName == n;
          assert boxes[i] == init[i];
        } else {
          assert boxes[|boxes| - 1].foodName == n;
        }
      }
    }
  }

  /** The disabled flags `updateSelection` leaves: at the limit every unchecked box is disabled, else none is. */
  function WithLimit(boxes: seq<Box>, count: int): (r: seq<Box>)
    ensures |r| == |boxes|
    ensures forall i :: 0 <= i < |boxes| ==> r[i].foodName == boxes[i].foodName && r[i].checked == boxes[i].checked
    ensures count >= MaxComparisonItems ==> forall i :: 0 <= i < |boxes| && !boxes[i].checked ==> r[i].disabled
    ensures count >= MaxComparisonItems ==> forall i :: 0 <= i < |boxes| && boxes[i].checked ==> r[i].disabled == boxes[i].disabled
    ensures count < MaxComparisonItems ==> forall i :: 0 <= i < |boxes| ==> !r[i].disabled
  {
    seq(|boxes|, i requires 0 <= i < |boxes| =>
      if count >= MaxComparisonItems then (if boxes[i].checked then boxes[i] else boxes[i].(disabled := true))
      else boxes[i].(disabled := false))
  }

  /** The state `updateSelection` maintains: fewer than the limit and nothing disabled, or every unchecked box disabled. */
  predicate Settled(boxes: seq<Box>) {
    var count := |CheckedNames(boxes)|;
    (count < MaxComparisonItems ==> forall i :: 0 <= i < |boxes| ==> !boxes[i].disabled) &&
    (count >= MaxComparisonItems ==> forall i :: 0 <= i < |boxes| && !boxes[i].checked ==> boxes[i].disabled)
  }

  /** The boxes after a click on box `i`: a disabled box (or no box) does not react, otherwise it flips. */
  function Clicked(boxes: seq<Box>, i: int): (r: seq<Box>)
    ensures |r| == |boxes|
    ensures forall j :: 0 <= j < |boxes| && j != i ==> r[j] == boxes[j]
    ensures 0 <= i < |boxes| ==> r[i].foodName == boxes[i].foodName && r[i].disabled == boxes[i].disabled
    ensures 0 <= i < |boxes| ==> (r[i].checked != boxes[i].checked <==> !boxes[i].disabled)
  {
    if 0 <= i < |boxes| && !boxes[i].disabled then boxes[i := boxes[i].(checked := !boxes[i].checked)] else boxes
  }

  /** The boxes after `$('.food-checkbox').prop('checked', isChecked)`: every box, disabled or not. */
  function AllChecked(boxes: seq<Box>, isChecked: bool): (r: seq<Box>)
    ensures |r| == |boxes|
    ensures forall i :: 0 <= i < |boxes| ==> r[i] == boxes[i].(checked := isChecked)
  {
    seq(|boxes|, i requires 0 <= i < |boxes| => boxes[i].(checked := isChecked))
  }

  /** Where the compare button leads. */
  datatype CompareAction = Alert(message: string) | GoTo(url: string)

  /** The compare button: fewer than two names is refused, otherwise the names joined with commas. */
  function CompareSelected(selectedFoods: seq<string>): (r: CompareAction)
    ensures r.Alert? <==> |selectedFoods| < 2
    ensures r.Alert? ==> r.message == "Please select at least 2 foods to compare"
    ensures r.GoTo? ==> r.url == "comparison.php?foods=" + Join(selectedFoods, ",")
  {
    if |selectedFoods| < 2 then Alert("Please select at least 2 foods to compare")
    else GoTo("comparison.php?foods=" + Join(selectedFoods, ","))
  }

  /** The names of checked boxes, unchanged by the disabled flags. */
  lemma {:induction false} CheckedNamesIgnoreDisabled(boxes: seq<Box>, count: int)
    ensures CheckedNames(WithLimit(boxes, count)) == CheckedNames(boxes)
    decreases |boxes|
  {
    if boxes != [] {
      var n := |boxes| - 1;
      assert WithLimit(boxes, count)[..n] == WithLimit(boxes[..n], count);
      CheckedNamesIgnoreDisabled(boxes[..n], count);
    }
  }

  /** Replacing one box changes the number of selected names by at most one, and checking never lowers it. */
  lemma {:induction false} CheckedNamesUpdate(boxes: seq<Box>, i: int, b: Box)
    requires 0 <= i < |boxes|
    ensures |CheckedNames(boxes[i := b])| <= |CheckedNames(boxes)| + 1
    ensures !b.checked || DataFalsy(b.foodName) ==> |CheckedNames(boxes[i := b])| <= |CheckedNames(boxes)|
    decreases |boxes|
  {
    var n := |boxes| - 1;
    if i < n {
      assert boxes[i := b][..n] == boxes[..n][i := b];
      CheckedNamesUpdate(boxes[..n], i, b);
    } else {
      assert boxes[i := b][..n] == boxes[..n];
    }
  }

  /** A click on a settled page never takes the selection past the limit. */
  lemma ClickStaysWithinLimit(boxes: seq<Box>, i: int)
    requires Settled(boxes) && |CheckedNames(boxes)| <= MaxComparisonItems
    ensures |CheckedNames(Clicked(boxes, i))| <= MaxComparisonItems
    ensures Settled(WithLimit(Clicked(boxes, i), |CheckedNames(Clicked(boxes, i))|))
  {
    var after := Clicked(boxes, i);
    if 0 <= i < |boxes| && !boxes[i].disabled {
      CheckedNamesUpdate(boxes, i, boxes[i].(checked := !boxes[i].checked));
    }
    CheckedNamesIgnoreDisabled(after, |CheckedNames(after)|);
  }

  /** Six named, unchecked, enabled boxes. */
  function SixBoxes(): seq<Box> {
    [Box("A", false, false), Box("B", false, false), Box("C", false, false),
     Box("D", false, false), Box("E", false, false), Box("F", false, false)]
  }

  /** Select-all checks every box, so a page of six foods yields six selected names, past the limit. */
  lemma SelectAllIgnoresLimit()
    ensures Settled(SixBoxes())
    ensures |CheckedNames(AllChecked(SixBoxes(), true))| == 6 > MaxComparisonItems
  {
    var all := AllChecked(SixBoxes(), true);
    assert all[..1][..0] == [];
    assert CheckedNames(all[..1]) == ["A"];
    assert all[..2][..1] == all[..1];
    assert CheckedNames(all[..2]) == ["A", "B"];
    assert all[..3][..2] == all[..2];
    assert CheckedNames(all[..3]) == ["A", "B", "C"];
    assert all[..4][..3] == all[..3];
    assert CheckedNames(all[..4]) == ["A", "B", "C", "D"];
    assert all[..5][..4] == all[..4];
    assert CheckedNames(all[..5]) == ["A", "B", "C", "D", "E"];
    assert all[..5] == all[..|all| - 1];
  }

  /** The checkboxes of index.php and the `selectedFoods` array its script keeps. */
  class FoodCheckboxes {
    var boxes: seq<Box>
    var selectAllChecked: bool
    var selectedFoods: seq<string>

    /** `selectedFoods` is read back from the boxes, and the disabled flags follow it. */
    ghost predicate Valid()
      reads this
    {
      selectedFoods == CheckedNames(boxes) && Settled(boxes)
    }

    /** A freshly rendered page: nothing checked or disabled. */
    constructor (names: seq<string>)
      ensures |boxes| == |names| && !selectAllChecked && selectedFoods == []
      ensures forall i :: 0 <= i < |names| ==> boxes[i] == Box(names[i], false, false)
      ensures Valid()
    {
      boxes := seq(|names|, i requires 0 <= i < |names| => Box(names[i], false, false));
      selectAllChecked := false;
      selectedFoods := [];
      new;
      NothingChecked(boxes);
    }

    /** Collects the names of the checked boxes. */
    method CollectSelected() returns (names: seq<string>)
      ensures names == CheckedNames(boxes)
    {
      names := [];
      for k := 0 to |boxes|
        invariant names == CheckedNames(boxes[..k])
      {
        assert boxes[..k + 1][..k] == boxes[..k];
        if boxes[k].checked && !DataFalsy(boxes[k].foodName) {
          names := names + [boxes[k].foodName];
        }
      }
      assert boxes[..|boxes|] == boxes;
    }

    /** `updateSelection`: re-reads the selection and applies the limit to the boxes. */
    method UpdateSelection()
      modifies this
      ensures selectedFoods == CheckedNames(old(boxes))
      ensures boxes == WithLimit(old(boxes), |selectedFoods|)
      ensures selectAllChecked == old(selectAllChecked)
      ensures Valid()
    {
      selectedFoods := CollectSelected();
      CheckedNamesIgnoreDisabled(boxes, |selectedFoods|);
      boxes := WithLimit(boxes, |selectedFoods|);
    }

    /**
     * A change event on box `i` (a disabled box cannot be clicked). From a
     * selection within the limit a click stays within it; after select-all
     * has passed the limit, a click only re-reads the boxes.
     */
    method Click(i: int)
      requires Valid()
      modifies this
      ensures boxes == WithLimit(Clicked(old(boxes), i), |selectedFoods|)
      ensures selectedFoods == CheckedNames(Clicked(old(boxes), i))
      ensures old(|selectedFoods|) <= MaxComparisonItems ==> |selectedFoods| <= MaxComparisonItems
      ensures selectAllChecked == old(selectAllChecked)
      ensures Valid()
    {
      if |selectedFoods| <= MaxComparisonItems {
        ClickStaysWithinLimit(boxes, i);
      }
      boxes := Clicked(boxes, i);
      UpdateSelection();
    }

    /** The select-all checkbox: every box takes its state, then the selection is re-read. */
    method SelectAll(isChecked: bool)
      modifies this
      ensures selectAllChecked == isChecked
      ensures selectedFoods == CheckedNames(AllChecked(old(boxes), isChecked))
      ensures boxes == WithLimit(AllChecked(old(boxes), isChecked), |selectedFoods|)
      ensures Valid()
    {
      selectAllChecked := isChecked;
      boxes := AllChecked(boxes, isChecked);
      UpdateSelection();
    }

    /** The clear button: every box and the select-all box are unchecked. */
    method ClearSelection()
      modifies this
      ensures !selectAllChecked && selectedFoods == []
      ensures boxes == WithLimit(AllChecked(old(boxes), false), 0)
      ensures |boxes| == |old(boxes)| && forall i :: 0 <= i < |boxes| ==> !boxes[i].checked && !boxes[i].disabled
      ensures Valid()
    {
      NothingChecked(AllChecked(boxes, false));
      boxes := AllChecked(boxes, false);
      selectAllChecked := false;
      UpdateSelection();
    }
  }

  /** With no box checked nothing is selected. */
  lemma {:induction false} NothingChecked(boxes: seq<Box>)
    requires forall i :: 0 <= i < |boxes| ==> !boxes[i].checked
    ensures CheckedNames(boxes) == []
    decreases |boxes|
  {
    if boxes != [] {
      NothingChecked(boxes[..|boxes| - 1]);
    }
  }
}
