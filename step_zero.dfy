/**
  Step 0 of the form wizard (`src/app/recruit/form/_step/0.tsx`): the privacy agreement
  gate. "Yes" is enabled only once the checkbox is exactly checked; "no" sends the
  visitor back without touching the wizard.
*/
module StepZero {
  import opened Application

  /** Radix's `CheckedState`: `true`, `false` or `'indeterminate'`. */
  datatype CheckedState = Checked | Unchecked | Indeterminate

  class Step0State {
    var clicked: bool
    var isAgreePrivacy: CheckedState
    const isFinalEdit: bool

    constructor (isFinalEdit: bool)
      ensures !clicked && isAgreePrivacy == Indeterminate && this.isFinalEdit == isFinalEdit
    {
      clicked := false;
      isAgreePrivacy := Indeterminate;
      this.isFinalEdit := isFinalEdit;
    }
  }

  /** `disabled={clicked || isAgreePrivacy !== true}`, negated. */
  function YesEnabled(clicked: bool, agreement: CheckedState): (enabled: bool)
    ensures enabled <==> !clicked && agreement == Checked
    ensures agreement == Indeterminate ==> !enabled
  {
    !(clicked || agreement != Checked)
  }

  /** The "yes" button's label. */
  function YesLabel(isFinalEdit: bool): (caption: string)
    ensures caption == "수정 완료" <==> isFinalEdit
  {
    if isFinalEdit then "수정 완료" else "네"
  }

  method Mount(w: Wizard) returns (s: Step0State)
    ensures fresh(s) && !s.clicked && s.isAgreePrivacy == Indeterminate
    ensures s.isFinalEdit == FinalEditSet(w.session)
  {
    s := new Step0State(FinalEditSet(w.session));
  }

  method SetAgreement(s: Step0State, value: CheckedState)
    modifies s`isAgreePrivacy
    ensures s.isAgreePrivacy == value
  {
    s.isAgreePrivacy := value;
  }

  /** "Yes": disable both buttons and go to the summary in final-edit mode, else to the
      next step. The final-edit flag is read but never removed here. */
  method Yes(w: Wizard, s: Step0State)
    requires w.Valid() && w.Rendered() && w.step == 0
    requires YesEnabled(s.clicked, s.isAgreePrivacy)
    modifies s`clicked, w`isProcessing, w`pending
    ensures w.Valid() && s.clicked
    ensures w.isProcessing && w.pending == old(w.pending) + [NextOrSummary(s.isFinalEdit)]
    ensures w.session == old(w.session)
  {
    s.clicked := true;
    w.Go(NextOrSummary(s.isFinalEdit));
  }

  /** "No": disable both buttons and go back in the browser history; the wizard's step and
      transitions are untouched. */
  method No(w: Wizard, s: Step0State)
    requires w.Valid() && w.Rendered() && w.step == 0 && !s.clicked
    modifies s`clicked, w`location
    ensures s.clicked && w.location == WentBack
    ensures !YesEnabled(s.clicked, s.isAgreePrivacy)
  {
    s.clicked := true;
    w.location := WentBack;
  }
}
