/**
 * The selection state of the file list in public/script.js
 * (`updateSelectedFiles`): the set of selected values is rebuilt from the
 * checked boxes, and the "select all" box becomes checked, unchecked or
 * indeterminate from how many values are selected out of how many boxes.
 */
module Selection {
  import opened Text

  /** A `.file-select` checkbox: the file path it stands for and whether it is checked. */
  datatype Checkbox = Checkbox(value: string, checked: bool)

  /** The values of the checked boxes, as `selectedFiles.add` collects them in document order. */
  function CheckedValues(boxes: seq<Checkbox>): (values: set<string>)
    ensures |values| <= |boxes|
    ensures forall v :: v in values <==> exists i :: 0 <= i < |boxes| && boxes[i].checked && boxes[i].value == v
  {
    if boxes == [] then {}
    else
      var front, last := boxes[..|boxes| - 1], boxes[|boxes| - 1];
      var values := CheckedValues(front) + if last.checked then {last.value} else {};
      assert forall i :: 0 <= i < |front| ==> boxes[i] == front[i];
      values
  }

  predicate AllChecked(boxes: seq<Checkbox>)
  {
    forall i :: 0 <= i < |boxes| ==> boxes[i].checked
  }

  /** No two boxes stand for the same value. */
  predicate DistinctValues(boxes: seq<Checkbox>)
  {
    forall i, j :: 0 <= i < j < |boxes| ==> boxes[i].value != boxes[j].value
  }

  /**
   * As many values are selected as there are boxes exactly when every box
   * is checked and no two boxes share a value.
   */
  lemma {:induction false} CountIsTotal(boxes: seq<Checkbox>)
    ensures |CheckedValues(boxes)| == |boxes| <==> AllChecked(boxes) && DistinctValues(boxes)
  {
    if boxes != [] {
      var front, last := boxes[..|boxes| - 1], boxes[|boxes| - 1];
      var before := CheckedValues(front);
      CountIsTotal(front);
      assert CheckedValues(boxes) == before + if last.checked then {last.value} else {};
      LastBox(boxes);
      if AllChecked(front) {
        assert last.value in before <==> exists i :: 0 <= i < |front| && front[i].value == last.value;
      }
    }
  }

  /** How the last box adds to the two predicates. */
  lemma LastBox(boxes: seq<Checkbox>)
    requires boxes != []
    ensures var front, last := boxes[..|boxes| - 1], boxes[|boxes| - 1];
      && (AllChecked(boxes) <==> AllChecked(front) && last.checked)
      && (DistinctValues(boxes) <==>
            DistinctValues(front) && forall i :: 0 <= i < |front| ==> front[i].value != last.value)
  {
    var front := boxes[..|boxes| - 1];
    assert forall i :: 0 <= i < |front| ==> boxes[i] == front[i];
  }

  /** The state of the `selectAll` box. */
  datatype SelectAllBox = SelectAllBox(checked: bool, indeterminate: bool)

  /**
   * The tri-state of `selectAll` for `count` selected values out of `total`
   * boxes: unchecked when nothing is selected, checked when the counts meet,
   * indeterminate in between; never checked and indeterminate at once.
   */
  function SelectAllState(count: nat, total: nat): (box: SelectAllBox)
    ensures !(box.checked && box.indeterminate)
    ensures box.checked <==> count != 0 && count == total
    ensures box.indeterminate <==> count != 0 && count != total
  {
    if count == 0 then SelectAllBox(false, false)
    else if count == total then SelectAllBox(true, false)
    else SelectAllBox(false, true)
  }

  /**
   * Over a list of boxes: "select all" is checked exactly when there are
   * boxes, all checked with distinct values; it is clear of both marks
   * exactly when no box is checked.
   */
  lemma SelectAllOfBoxes(boxes: seq<Checkbox>)
    ensures var box := SelectAllState(|CheckedValues(boxes)|, |boxes|);
      && (box.checked <==> boxes != [] && AllChecked(boxes) && DistinctValues(boxes))
      && (!box.checked && !box.indeterminate <==> forall i :: 0 <= i < |boxes| ==> !boxes[i].checked)
  {
    CountIsTotal(boxes);
    if boxes != [] && AllChecked(boxes) {
      assert boxes[0].value in CheckedValues(boxes);
    }
    if exists i :: 0 <= i < |boxes| && boxes[i].checked {
      var i :| 0 <= i < |boxes| && boxes[i].checked;
      assert boxes[i].value in CheckedValues(boxes);
    }
  }

  /** The selection widgets of the page that `updateSelectedFiles` writes. */
  class FileSelection {
    /** `selectedFiles`. */
    var selectedFiles: set<string>
    /** `selectAll.checked` and `selectAll.indeterminate`. */
    var selectAll: SelectAllBox
    /** Whether `bulkActions` is displayed. */
    var bulkActionsVisible: bool
    /** The text of `selectedCount`. */
    var selectedCountText: string

    constructor ()
      ensures selectedFiles == {} && !bulkActionsVisible
      ensures selectAll == SelectAllBox(false, false)
    {
      selectedFiles := {};
      selectAll := SelectAllBox(false, false);
      bulkActionsVisible := false;
      selectedCountText := "";
    }

    /**
     * `updateSelectedFiles()` over the page's checkboxes: clear the set, add
     * the value of every checked box, then show the count, the bulk actions
     * and the tri-state.
     */
    method UpdateSelectedFiles(boxes: seq<Checkbox>)
      modifies this
      ensures selectedFiles == CheckedValues(boxes)
      ensures bulkActionsVisible <==> exists i :: 0 <= i < |boxes| && boxes[i].checked
      ensures selectedCountText == NatToString(|selectedFiles|) + " selected"
      ensures selectAll == SelectAllState(|selectedFiles|, |boxes|)
    {
      selectedFiles := {};
      for i := 0 to |boxes|
        invariant selectedFiles == CheckedValues(boxes[..i])
      {
        assert boxes[..i + 1][..i] == boxes[..i];
        if boxes[i].checked {
          selectedFiles := selectedFiles + {boxes[i].value};
        }
      }
      assert boxes[..|boxes|] == boxes;
      var count := |selectedFiles|;
      selectedCountText := NatToString(count) + " selected";
      bulkActionsVisible := count > 0;
      selectAll := SelectAllState(count, |boxes|);
      SelectAllOfBoxes(boxes);
    }
  }
}
