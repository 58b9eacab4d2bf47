/**
 * The questionnaire form: the gating transition run on every selection, the
 * submit-readiness predicate, the submitted results, the arrow-key focus
 * router, and the component state these drive.
 */
module VerificationForm {
  import opened CheckItemModel

  /** Submit is possible when every answer is "yes" or some answer is "no". */
  predicate IsSubmitEnabled(items: seq<CheckItem>)
    ensures items == [] ==> IsSubmitEnabled(items)
  {
    || (forall k :: 0 <= k < |items| ==> items[k].result == Yes)
    || (exists k :: 0 <= k < |items| && items[k].result == No)
  }

  /** Item `j` after answering item `i` with `v`. */
  function SelectedAt(items: seq<CheckItem>, i: nat, v: Verdict, j: nat): CheckItem
    requires j < |items|
  {
    if j == i then items[j].(result := v)
    else if j > i && v == No then items[j].(disabled := true)
    else if j > i && v == Yes then
      if i == j - 1 || items[j - 1].result == Yes then items[j].(disabled := false)
      else items[j].(disabled := true)
    else items[j]
  }

  /**
   * The gating transition: item `i` takes the answer `v` and the enabled
   * flags of every later item are recomputed; earlier items are untouched.
   */
  function SelectItem(items: seq<CheckItem>, i: nat, v: Verdict): (r: seq<CheckItem>)
    ensures |r| == |items|
    ensures Checks(r) == Checks(items)
    ensures forall j :: 0 <= j < |r| && j < i ==> r[j] == items[j]
    ensures i < |r| ==> r[i].result == v && r[i].disabled == items[i].disabled
    ensures forall j :: i < j < |r| ==> r[j].result == items[j].result
    ensures v == No ==> forall j :: i < j < |r| ==> r[j].disabled
    ensures v == Yes && i + 1 < |r| ==> !r[i + 1].disabled
    ensures v == Yes ==> forall j :: i + 1 < j < |r| ==> (r[j].disabled <==> items[j - 1].result != Yes)
  {
    seq(|items|, j requires 0 <= j < |items| => SelectedAt(items, i, v, j))
  }

  /**
   * After a "yes", every later item is enabled exactly when its predecessor
   * now holds "yes".
   */
  lemma SelectYesGatesOnPredecessor(items: seq<CheckItem>, i: nat)
    ensures var r := SelectItem(items, i, Yes);
      forall j :: i < j < |r| ==> (r[j].disabled <==> r[j - 1].result != Yes)
  {
    var r := SelectItem(items, i, Yes);
    forall j | i < j < |r|
      ensures r[j].disabled <==> r[j - 1].result != Yes
    {
      if j > i + 1 {
        assert r[j - 1].result == items[j - 1].result;
      }
    }
  }

  /**
   * The invariant the gate keeps: the first item is enabled, and an enabled
   * later item has a predecessor answered "yes". Only the immediate
   * predecessor is constrained.
   */
  ghost predicate GateSound(items: seq<CheckItem>) {
    && (|items| > 0 ==> !items[0].disabled)
    && forall j :: 0 < j < |items| && !items[j].disabled ==> items[j - 1].result == Yes
  }

  lemma InitializedIsGateSound(s: seq<CheckItem>)
    ensures GateSound(Initialized(s))
  {
  }

  lemma SelectPreservesGate(items: seq<CheckItem>, i: nat, v: Verdict)
    requires GateSound(items)
    ensures GateSound(SelectItem(items, i, v))
  {
  }

  /** Answering the same item twice with the same value changes nothing more. */
  lemma SelectIsIdempotent(items: seq<CheckItem>, i: nat, v: Verdict)
    ensures SelectItem(SelectItem(items, i, v), i, v) == SelectItem(items, i, v)
  {
  }

  /** A reset discards every selection: only ids, priorities and descriptions matter. */
  lemma ResetIgnoresSelection(items: seq<CheckItem>, i: nat, v: Verdict)
    ensures Initialized(SelectItem(items, i, v)) == Initialized(items)
  {
  }

  /** A "no" anywhere makes the form submittable. */
  lemma SubmitEnabledAfterNo(items: seq<CheckItem>, i: nat)
    requires i < |items|
    ensures IsSubmitEnabled(SelectItem(items, i, No))
  {
    assert SelectItem(items, i, No)[i].result == No;
  }

  /** Once every item holds an answer the form is submittable. */
  lemma SubmitEnabledWhenAllAnswered(items: seq<CheckItem>)
    requires forall k :: 0 <= k < |items| ==> items[k].result != Unset
    ensures IsSubmitEnabled(items)
  {
    if !(forall k :: 0 <= k < |items| ==> items[k].result == Yes) {
      var k :| 0 <= k < |items| && items[k].result != Yes;
      assert items[k].result == No;
    }
  }

  /** A freshly loaded or reset, non-empty form cannot be submitted. */
  lemma InitialNotSubmittable(s: seq<CheckItem>)
    requires |s| > 0
    ensures !IsSubmitEnabled(Initialized(s))
  {
    assert Initialized(s)[0].result == Unset;
  }

  /** The state after answering "yes" on items 0 .. k-1, in that order. */
  function AnswerYesUpTo(items: seq<CheckItem>, k: nat): seq<CheckItem>
    requires k <= |items|
  {
    if k == 0 then items else SelectItem(AnswerYesUpTo(items, k - 1), k - 1, Yes)
  }

  /** The first k items hold "yes", the rest are unanswered, and exactly the first k + 1 are enabled. */
  ghost predicate AnsweredYesUpTo(r: seq<CheckItem>, k: nat) {
    && (forall j :: 0 <= j < |r| ==> r[j].result == (if j < k then Yes else Unset))
    && (forall j :: 0 <= j < |r| ==> (r[j].disabled <==> j > k))
  }

  /** One more "yes" on the next item moves the answered prefix on by one. */
  lemma AnswerNextYes(r: seq<CheckItem>, k: nat)
    requires k < |r| && AnsweredYesUpTo(r, k)
    ensures AnsweredYesUpTo(SelectItem(r, k, Yes), k + 1)
  {
    var r' := SelectItem(r, k, Yes);
    forall j | 0 <= j < |r'|
      ensures r'[j].result == (if j < k + 1 then Yes else Unset)
      ensures r'[j].disabled <==> j > k + 1
    {
      if j < k {
        assert r'[j] == r[j];
      } else if j > k + 1 {
        assert r[j - 1].result == Unset;
      }
    }
  }

  /**
   * Answering "yes" in order from the initial state answers exactly the first
   * k items and enables exactly the first k + 1; the form becomes submittable
   * only once every item is answered.
   */
  lemma {:induction false} AnswerYesInOrder(s: seq<CheckItem>, k: nat)
    requires k <= |s|
    ensures var r := AnswerYesUpTo(Initialized(s), k);
      && |r| == |s|
      && (forall j :: 0 <= j < |r| ==> r[j].result == (if j < k then Yes else Unset))
      && (forall j :: 0 <= j < |r| ==> (r[j].disabled <==> j > k))
    ensures IsSubmitEnabled(AnswerYesUpTo(Initialized(s), k)) <==> k == |s|
  {
    var r := AnswerYesUpTo(Initialized(s), k);
    if k > 0 {
      AnswerYesInOrder(s, k - 1);
      AnswerNextYes(AnswerYesUpTo(Initialized(s), k - 1), k - 1);
    }
    assert AnsweredYesUpTo(r, k);
    if k < |s| {
      assert r[k].result == Unset;
    }
  }

  /** An item is sent when it is answered and enabled. */
  predicate IsSubmittable(item: CheckItem) {
    item.result != Unset && !item.disabled
  }

  function ResultOf(item: CheckItem): CheckResult {
    CheckResult(item.id, item.result)
  }

  /** The results sent on submit: the answered, enabled items, in list order. */
  function SubmittedResults(items: seq<CheckItem>): (r: seq<CheckResult>)
    ensures |r| <= |items|
  {
    if items == [] then []
    else (if IsSubmittable(items[0]) then [ResultOf(items[0])] else []) + SubmittedResults(items[1..])
  }

  /** The indices `j` of `items`, from `from` on, whose item is submittable. */
  ghost function SubmittableIndices(items: seq<CheckItem>, from: nat): seq<nat>
    requires from <= |items|
    decreases |items| - from
  {
    if from == |items| then []
    else (if IsSubmittable(items[from]) then [from] else []) + SubmittableIndices(items, from + 1)
  }

  /**
   * The submitted results are the results of exactly the submittable items,
   * in list order: the k-th result comes from the k-th submittable index.
   */
  lemma {:induction false} SubmittedResultsFrom(items: seq<CheckItem>, from: nat)
    requires from <= |items|
    ensures var r, idx := SubmittedResults(items[from..]), SubmittableIndices(items, from);
      && |idx| == |r|
      && (forall k :: 0 <= k < |idx| ==> from <= idx[k] < |items| && IsSubmittable(items[idx[k]]) && r[k] == ResultOf(items[idx[k]]))
      && (forall k1, k2 :: 0 <= k1 < k2 < |idx| ==> idx[k1] < idx[k2])
      && (forall j :: from <= j < |items| && IsSubmittable(items[j]) ==> j in idx)
    decreases |items| - from
  {
    if from < |items| {
      SubmittedResultsFrom(items, from + 1);
      assert items[from..][1..] == items[from + 1..];
      assert items[from..][0] == items[from];
    }
  }

  lemma SubmittedResultsSpec(items: seq<CheckItem>)
    ensures var r, idx := SubmittedResults(items), SubmittableIndices(items, 0);
      && |idx| == |r|
      && (forall k :: 0 <= k < |idx| ==> idx[k] < |items| && IsSubmittable(items[idx[k]]) && r[k] == ResultOf(items[idx[k]]))
      && (forall k1, k2 :: 0 <= k1 < k2 < |idx| ==> idx[k1] < idx[k2])
      && (forall j :: 0 <= j < |items| && IsSubmittable(items[j]) ==> j in idx)
  {
    SubmittedResultsFrom(items, 0);
    assert items[0..] == items;
  }

  /** Every submitted record carries a "yes" or "no". */
  lemma {:induction false} SubmittedResultsAreAnswered(items: seq<CheckItem>)
    ensures forall c :: c in SubmittedResults(items) ==> c.result != Unset
  {
    if items != [] {
      SubmittedResultsAreAnswered(items[1..]);
    }
  }

  /** Nothing is submitted while no item is answered, as after a load or a reset. */
  lemma {:induction false} NothingSubmittedUnanswered(items: seq<CheckItem>)
    requires forall k :: 0 <= k < |items| ==> items[k].result == Unset
    ensures SubmittedResults(items) == []
  {
    if items != [] {
      NothingSubmittedUnanswered(items[1..]);
    }
  }

  /**
   * Only the predecessor is checked. With four items, answering "yes" on
   * items 0, 1 and 2, then "no" on item 1, then "no" and "yes" on item 0
   * leaves item 2 disabled and item 3 enabled, and after "yes" on item 3 the
   * submitted results hold a "yes" after a "no". Every step answers an
   * enabled item with a value other than its current answer, so each one is
   * a change of that item's radio-button selection.
   */
  lemma PredecessorOnlyGate(s: seq<CheckItem>)
    requires |s| == 4
    ensures var r0 := Initialized(s);
      var r1 := SelectItem(r0, 0, Yes);
      var r2 := SelectItem(r1, 1, Yes);
      var r3 := SelectItem(r2, 2, Yes);
      var r4 := SelectItem(r3, 1, No);
      var r5 := SelectItem(r4, 0, No);
      var r6 := SelectItem(r5, 0, Yes);
      && !r0[0].disabled && r0[0].result != Yes
      && !r1[1].disabled && r1[1].result != Yes
      && !r2[2].disabled && r2[2].result != Yes
      && !r3[1].disabled && r3[1].result != No
      && !r4[0].disabled && r4[0].result != No
      && !r5[0].disabled && r5[0].result != Yes
      && r6[2].disabled && !r6[3].disabled && r6[3].result != Yes
      && SubmittedResults(SelectItem(r6, 3, Yes))
         == [CheckResult(s[0].id, Yes), CheckResult(s[1].id, No), CheckResult(s[3].id, Yes)]
  {
    var r0 := Initialized(s);
    var r1 := SelectItem(r0, 0, Yes);
    var r2 := SelectItem(r1, 1, Yes);
    var r3 := SelectItem(r2, 2, Yes);
    var r4 := SelectItem(r3, 1, No);
    var r5 := SelectItem(r4, 0, No);
    var r6 := SelectItem(r5, 0, Yes);
    var r7 := SelectItem(r6, 3, Yes);
    assert r6[1].result == No && !r6[1].disabled;
    assert r6[2].disabled && !r6[3].disabled;
    assert r7[0].id == s[0].id by { assert Checks(r7)[0] == Checks(s)[0]; }
    assert r7[1].id == s[1].id by { assert Checks(r7)[1] == Checks(s)[1]; }
    assert r7[3].id == s[3].id by { assert Checks(r7)[3] == Checks(s)[3]; }
    assert IsSubmittable(r7[0]) && IsSubmittable(r7[1]) && !IsSubmittable(r7[2]) && IsSubmittable(r7[3]);
    assert r7[3..][1..] == [];
    assert SubmittedResults(r7[3..]) == [ResultOf(r7[3])];
    assert r7[2..][1..] == r7[3..];
    assert SubmittedResults(r7[2..]) == [ResultOf(r7[3])];
    assert r7[1..][1..] == r7[2..];
    assert SubmittedResults(r7[1..]) == [ResultOf(r7[1]), ResultOf(r7[3])];
    assert r7[0..][1..] == r7[1..] && r7[0..] == r7;
  }

  /**
   * The focus after an arrow key. A focus of -1 (none) counts as index 0;
   * focus moves only onto an enabled neighbour, otherwise it stays.
   */
  function FocusAfterKey(items: seq<CheckItem>, focused: int, key: string): (r: int)
    requires focused == -1 || 0 <= focused < |items|
    ensures var base := if focused == -1 then 0 else focused;
      && (r != focused ==> 0 <= r < |items| && !items[r].disabled)
      && (key != "ArrowUp" && key != "ArrowDown" ==> r == focused)
      && (key == "ArrowUp" ==> r == focused || r == base - 1)
      && (key == "ArrowDown" ==> r == focused || r == base + 1)
      && (key == "ArrowUp" && 0 <= base - 1 && !items[base - 1].disabled ==> r == base - 1)
      && (key == "ArrowDown" && base + 1 < |items| && !items[base + 1].disabled ==> r == base + 1)
    ensures focused == -1 && key == "ArrowUp" ==> r == -1
  {
    var base := if focused == -1 then 0 else focused;
    if key == "ArrowUp" && base - 1 >= 0 && !items[base - 1].disabled then base - 1
    else if key == "ArrowDown" && base + 1 < |items| && !items[base + 1].disabled then base + 1
    else focused
  }

  /** The form component's state. */
  class Form {
    var items: seq<CheckItem>
    var focusedItemIndex: int
    var isSubmitted: bool

    ghost predicate Valid()
      reads this
    {
      && GateSound(items)
      && (focusedItemIndex == -1 || 0 <= focusedItemIndex < |items|)
    }

    /** The state on mount: no items, nothing focused, nothing submitted. */
    constructor ()
      ensures Valid()
      ensures items == [] && focusedItemIndex == -1 && !isSubmitted
    {
      items := [];
      focusedItemIndex := -1;
      isSubmitted := false;
    }

    /** The submit button is disabled while a submission is in flight or the form is not ready. */
    predicate SubmitButtonDisabled()
      reads this
      ensures isSubmitted ==> SubmitButtonDisabled()
      ensures !isSubmitted && (forall k :: 0 <= k < |items| ==> items[k].result != Unset) ==> !SubmitButtonDisabled()
    {
      !IsSubmitEnabled(items) || isSubmitted
    }

    /** A selection `v` on the item at `i`. */
    method OnItemSelect(i: nat, v: Verdict)
      requires Valid()
      modifies this`items
      ensures Valid()
      ensures items == SelectItem(old(items), i, v)
    {
      SelectPreservesGate(items, i, v);
      items := SelectItem(items, i, v);
    }

    /** Resets the form to the initial state of `newItems`. */
    method InitForm(newItems: seq<CheckItem>)
      requires Valid()
      requires focusedItemIndex == -1 || focusedItemIndex < |newItems|
      modifies this`items, this`isSubmitted
      ensures Valid()
      ensures items == Initialized(newItems) && !isSubmitted
    {
      InitializedIsGateSound(newItems);
      items := Initialized(newItems);
      isSubmitted := false;
    }

    /** The window key handler for ArrowUp and ArrowDown. */
    method OnArrowKey(key: string)
      requires Valid()
      modifies this`focusedItemIndex
      ensures Valid()
      ensures focusedItemIndex == FocusAfterKey(items, old(focusedItemIndex), key)
    {
      var focused := focusedItemIndex;
      if key == "ArrowUp" {
        var newIndex := if focused == -1 then 0 else focused;
        if newIndex - 1 >= 0 && !items[newIndex - 1].disabled {
          focusedItemIndex := newIndex - 1;
        }
      }
      if key == "ArrowDown" {
        var newIndex := if focused == -1 then 0 else focused;
        if newIndex + 1 < |items| && !items[newIndex + 1].disabled {
          focusedItemIndex := newIndex + 1;
        }
      }
    }

    /** A group's focus notification: gaining focus makes that item the focused one. */
    method OnItemFocus(index: nat, value: bool)
      requires Valid()
      requires index < |items|
      modifies this`focusedItemIndex
      ensures Valid()
      ensures focusedItemIndex == if value then index else old(focusedItemIndex)
    {
      if value {
        focusedItemIndex := index;
      }
    }

    /**
     * The submit handler up to the remote call: marks the submission in
     * flight and returns the results to send.
     */
    method OnFormSubmit() returns (results: seq<CheckResult>)
      requires Valid()
      modifies this`isSubmitted
      ensures Valid()
      ensures isSubmitted && SubmitButtonDisabled()
      ensures results == SubmittedResults(items)
    {
      isSubmitted := true;
      results := SubmittedResults(items);
    }

    /**
     * The submit handler after the remote call settles: whatever the outcome,
     * the form is reset; the returned text is the alert shown.
     */
    method OnSubmitSettled(succeeded: bool) returns (message: string)
      requires Valid()
      modifies this`items, this`isSubmitted
      ensures Valid()
      ensures items == Initialized(old(items)) && !isSubmitted
      ensures message == if succeeded then "Submitted Successfully." else "Error. Please resubmit the form"
    {
      message := if succeeded then "Submitted Successfully." else "Error. Please resubmit the form";
      InitForm(items);
    }
  }
}
