/**
  Step 17 of the form wizard (`src/app/recruit/form/_step/17.tsx`): the favourite project,
  with a character counter against 700, a skip button that empties the answer, and a
  continue button.
*/
module StepSeventeen {
  import opened Wrappers
  import opened Util
  import opened Application
  import opened StepSeven

  const FAVORITE_PROJECT_LIMIT: nat := 700

  /** `(favoriteProject?.length ?? 0) <= 700 ? neutral : red`, the length in UTF-16 code units. */
  function FavoriteProjectCounter(favoriteProject: Option<string>): (c: CounterView)
    ensures c.red <==> favoriteProject.Some? && Utf16Length(favoriteProject.value) > 700
    ensures favoriteProject.Some? && |favoriteProject.value| > 700 ==> c.red
    ensures favoriteProject.None? ==> c == CharCounter(0, 700)
  {
    CharCounter(Utf16Length(favoriteProject.GetOr("")), FAVORITE_PROJECT_LIMIT)
  }

  /** The skip button, absent in final-edit mode. */
  method Skip(w: Wizard, s: StepState)
    requires w.Valid() && w.Rendered() && w.step == 17 && !s.isFinalEdit && !s.clicked
    modifies s`clicked, w`answers, w`localData, w`isProcessing, w`pending
    ensures w.Valid() && s.clicked
    ensures w.answers == old(w.answers)[FAVORITE_PROJECT := Text("")]
    ensures w.isProcessing && w.pending == old(w.pending) + [Next]
    ensures w.localData == Some(w.answers)
  {
    s.clicked := true;
    w.SetValue(FAVORITE_PROJECT, Text(""));
    w.Go(Next);
  }

  method Continue(w: Wizard, s: StepState, valid: bool, message: string)
    requires w.Valid() && w.Rendered() && w.step == 17 && !s.clicked
    modifies s, w`session, w`isProcessing, w`pending, w`toasts
    ensures w.Valid()
    ensures valid ==> s.clicked && w.isProcessing && w.toasts == old(w.toasts)
    ensures valid ==> w.pending == old(w.pending) + [NextOrSummary(s.isFinalEdit)]
    ensures valid ==> w.session == if s.isFinalEdit then old(w.session) - {FINAL_EDIT_KEY} else old(w.session)
    ensures !valid ==> !s.clicked && w.toasts == old(w.toasts) + [ErrorToast(message)]
    ensures !valid ==> w.pending == old(w.pending) && w.isProcessing == old(w.isProcessing)
    ensures !valid ==> w.session == old(w.session)
  {
    ValidatedContinue(w, s, valid, message);
  }
}
