/**
  Step 16 of the form wizard (`src/app/recruit/form/_step/16.tsx`): the design stacks. On
  mount it steps past itself (backwards when `recruit:back` says so) unless 'design' is
  among the chosen stacks; it drops `recruit:final_edit` when entered in final-edit mode;
  its skip button empties the answer; its list toggles a stack in or out.
*/
module StepSixteen {
  import opened Wrappers
  import opened Application

  const DESIGN: string := "design"

  /** `sessionStorage.getItem('recruit:back') === 'true' ? -1 : +1`. */
  function Direction(session: map<string, string>): (amount: int)
    ensures amount == -1 <==> HasFlag(session, BACK_KEY, "true")
    ensures amount == 1 <==> !HasFlag(session, BACK_KEY, "true")
  {
    if HasFlag(session, BACK_KEY, "true") then -1 else 1
  }

  /** `list.filter((s) => s !== value)`. */
  function Without(list: seq<string>, value: string): (r: seq<string>)
    ensures value !in r
    ensures forall x :: x in r <==> x in list && x != value
    ensures multiset(r) == multiset(list)[value := 0]
    ensures |r| <= |list|
    ensures value !in list ==> r == list
  {
    if list == [] then []
    else
      assert list == [list[0]] + list[1..];
      if list[0] == value then Without(list[1..], value)
      else [list[0]] + Without(list[1..], value)
  }

  /** The filter keeps the order of what it keeps: filtering a concatenation filters each part. */
  lemma {:induction false} WithoutConcat(a: seq<string>, b: seq<string>, value: string)
    ensures Without(a + b, value) == Without(a, value) + Without(b, value)
  {
    if a != [] {
      assert (a + b)[0] == a[0] && (a + b)[1..] == a[1..] + b;
      WithoutConcat(a[1..], b, value);
    } else {
      assert a + b == b;
    }
  }

  /** `onSelect`: remove the stack when the list holds it, append it otherwise. The
      membership test uses the item's own value `raw`, the update the selected `value`. */
  function Toggle(list: seq<string>, raw: string, value: string): (r: seq<string>)
    ensures raw !in list ==> |r| == |list| + 1 && r[..|list|] == list && r[|list|] == value
    ensures raw in list ==> value !in r && multiset(r) == multiset(list)[value := 0]
  {
    if raw in list then Without(list, value) else list + [value]
  }

  /** A toggle flips the selected stack's membership and keeps every other stack's: an
      absent stack is appended at the end, a present one is filtered out (with the others
      left in order, by `WithoutConcat`). */
  lemma ToggleFlips(list: seq<string>, value: string)
    ensures value in Toggle(list, value, value) <==> value !in list
    ensures forall x :: x != value ==> (x in Toggle(list, value, value) <==> x in list)
    ensures value !in list ==> Toggle(list, value, value) == list + [value]
    ensures value in list ==> Toggle(list, value, value) == Without(list, value)
  {
  }

  /** Toggling an absent stack twice gives back the list as it was. */
  lemma ToggleTwiceRestores(list: seq<string>, value: string)
    requires value !in list
    ensures Toggle(Toggle(list, value, value), value, value) == list
  {
    WithoutAppended(list, value);
  }

  lemma {:induction false} WithoutAppended(list: seq<string>, value: string)
    requires value !in list
    ensures Without(list + [value], value) == list
  {
    if list != [] {
      assert (list + [value])[1..] == list[1..] + [value];
      WithoutAppended(list[1..], value);
    }
  }

  /** What the mount does: the render drops `recruit:final_edit` when the step read it as
      'true'; the effect then either moves the step by `Direction`, leaving `recruit:back`
      in place, or, with 'design' chosen, stays and removes `recruit:back`. The stacks are
      read with a non-null assertion, so they must be stored. */
  method Mount(w: Wizard) returns (s: StepState)
    requires w.Valid() && w.Rendered() && w.step == 16 && w.localStacks.Some?
    requires DESIGN !in w.localStacks.value ==> 0 <= 16 + Direction(w.session) < w.stepCount
    modifies w`session, w`step, w`localStep
    ensures w.Valid() && fresh(s) && !s.clicked
    ensures s.isFinalEdit == FinalEditSet(old(w.session))
    ensures DESIGN !in w.localStacks.value ==>
              w.step == 16 + Direction(old(w.session)) &&
              w.session == if s.isFinalEdit then old(w.session) - {FINAL_EDIT_KEY} else old(w.session)
    ensures DESIGN in w.localStacks.value ==>
              w.step == 16 &&
              w.session == (if s.isFinalEdit then old(w.session) - {FINAL_EDIT_KEY} else old(w.session)) - {BACK_KEY}
  {
    s := new StepState(FinalEditSet(w.session));
    if s.isFinalEdit {
      w.session := w.session - {FINAL_EDIT_KEY};
    }
    var amount := Direction(w.session);
    if DESIGN !in w.localStacks.value {
      w.ShiftStep(amount);
    } else {
      w.session := w.session - {BACK_KEY};
    }
  }

  /** The skip button, absent in final-edit mode: disable the buttons, empty the answer
      and go to the next step. */
  method Skip(w: Wizard, s: StepState)
    requires w.Valid() && w.Rendered() && w.step == 16 && !s.isFinalEdit && !s.clicked
    modifies s`clicked, w`answers, w`localData, w`isProcessing, w`pending
    ensures w.Valid() && s.clicked
    ensures w.answers == old(w.answers)[DESIGN_STACKS := List([])]
    ensures w.isProcessing && w.pending == old(w.pending) + [Next]
    ensures w.localData == Some(w.answers)
  {
    s.clicked := true;
    w.SetValue(DESIGN_STACKS, List([]));
    w.Go(Next);
  }

  method Continue(w: Wizard, s: StepState, valid: bool, message: string)
    requires w.Valid() && w.Rendered() && w.step == 16 && !s.clicked
    modifies s, w`session, w`isProcessing, w`pending, w`toasts
    ensures w.Valid()
    ensures valid ==> s.clicked && w.isProcessing && w.toasts == old(w.toasts)
    ensures valid ==> w.pending == old(w.pending) + [NextOrSummary(s.isFinalEdit)]
    ensures valid ==> w.session == if s.isFinalEdit then old(w.session) - {FINAL_EDIT_KEY} else old(w.session)
    ensures !valid ==> !s.clicked && w.toasts == old(w.toasts) + [ErrorToast(message)]
    ensures !valid ==> w.pending == old(w.pending) && w.isProcessing == old(w.isProcessing)
    ensures !valid ==> w.session == old(w.session)
  {
    ValidatedContinue(w, s, valid, message);
  }
}
