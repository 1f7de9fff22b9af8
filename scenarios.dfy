/**
  Client scenarios that chain events and check, from the contracts alone, what the pages
  evidently aim at: one transition per double click on the back arrow, final-edit mode
  landing on the summary with its flag consumed, a reload resuming where the visitor
  was, what happens when a back transition re-enters a skipped step 16, a back click ignored
  while a continue is pending, and an avatar
  deletion refused during an upload.
*/
module Scenarios {
  import opened Application
  import StepSeven
  import StepSixteen
  import StepSeventeen
  import Profile

  /** Two clicks on the back arrow before the timer fires give one transition. */
  method DoubleBackClick(w: Wizard)
    requires w.Valid() && w.Rendered() && !w.isProcessing && w.pending == []
    requires 0 < w.step < w.stepCount
    modifies w
    ensures w.step == old(w.step) - 1 || (old(w.step) == 15 && w.step == 8)
  {
    w.BackArrowClick();
    w.BackArrowClick();
    assert w.pending == [Back];
    BackRule(w.step, w.session);
    w.Settle();
    assert w.pending == [] && !w.isProcessing;
  }

  /** After a valid continue on step 7, a click on the back arrow before the timer fires is
      ignored: the one transition that settles is the continue's. */
  method ContinueBlocksBackArrow(w: Wizard, s: StepState)
    requires w.Valid() && w.Rendered() && w.step == 7 && !s.clicked && !s.isFinalEdit
    requires w.pending == [] && 8 < w.stepCount
    modifies w, s
    ensures w.step == 8 && !w.isProcessing && w.pending == []
  {
    StepSeven.Continue(w, s, true, "");
    w.BackArrowClick();
    assert w.pending == [NextOrSummary(false)];
    w.Settle();
  }

  /** In final-edit mode a valid answer on step 17 lands on the summary, and the flag is gone. */
  method FinalEditReturnsToSummary(w: Wizard, s: StepState)
    requires w.Valid() && w.Rendered() && w.step == 17 && !s.clicked && w.pending == []
    requires s.isFinalEdit && SUMMARY_STEP < w.stepCount
    modifies w, s
    ensures w.step == SUMMARY_STEP && FINAL_EDIT_KEY !in w.session
  {
    StepSeventeen.Continue(w, s, true, "");
    assert w.pending == [NextOrSummary(true)];
    w.Settle();
  }

  /** Mounting the page again over what it stored resumes the same step with the same answers. */
  method Reload(w: Wizard) returns (w': Wizard)
    requires w.Valid()
    ensures w'.step == w.step && w'.answers == w.answers
  {
    ReloadRestores(w.step, w.answers);
    w' := new Wizard.Mount(w.stepCount, w.localStep, w.localData, w.localStacks, w.session);
  }

  /** The application page's back arrow paired with the form's step 16: without 'design'
      among the stacks and without `recruit:back`, stepping back from 17 re-enters 16,
      whose mount sends the visitor forward to 17 again. Whatever raises `recruit:back`
      (the form's own controller, which is not part of this model) must do so first. */
  method BackIntoSkippedStep(w: Wizard)
    requires w.Valid() && w.Rendered() && w.step == 17 && w.pending == [] && !w.isProcessing
    requires w.localStacks.Some? && StepSixteen.DESIGN !in w.localStacks.value
    requires BACK_KEY !in w.session && 17 < w.stepCount
    modifies w
    ensures w.step == 17
  {
    w.BackArrowClick();
    w.Settle();
    assert w.step == 16;
    var s := StepSixteen.Mount(w);
  }

  /** With `recruit:back` raised the same re-entry lands on 15, and the flag stays for the next mount. */
  method BackIntoSkippedStepWithFlag(w: Wizard)
    requires w.Valid() && w.Rendered() && w.step == 17 && w.pending == [] && !w.isProcessing
    requires w.localStacks.Some? && StepSixteen.DESIGN !in w.localStacks.value
    requires HasFlag(w.session, BACK_KEY, "true") && 17 < w.stepCount
    modifies w
    ensures w.step == 15 && HasFlag(w.session, BACK_KEY, "true")
  {
    w.BackArrowClick();
    w.Settle();
    var s := StepSixteen.Mount(w);
  }

  /** A click on the trash button while a new avatar is uploading sends nothing; once the
      upload is over, the same click requests the deletion. */
  method TrashDuringUpload(m: Profile.InfoModal, signedUrl: string)
    requires Profile.ShowsTrashButton(m.user) && !m.isUploading
    modifies m
    ensures m.requests == old(m.requests) + [Profile.UploadImage, Profile.DeleteMyAvatar]
  {
    m.UploadStarted();
    m.TrashClick();
    m.UploadFinished(signedUrl);
    m.TrashClick();
  }
}
