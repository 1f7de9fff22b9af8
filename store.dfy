/**
  The part of the recruitment store (`useRecruitStore`) that the core reads and writes:
  the form wizard's `step`, the `modify` target (held as `modifyStep`) of a summary edit, and the `confetti`
  flag. The store's own source is not part of this model; its `clear()` is recorded as
  having been called, without modelling what it resets.
*/
module Store {
  import opened Wrappers

  class RecruitStore {
    var step: int
    /** `modify`: the step to return to after editing one answer, or `undefined`. */
    var modifyStep: Option<int>
    var confetti: bool
    /** Whether `clear()` has been called. */
    var cleared: bool
    /** Delayed `setModify(undefined)` calls whose 400 ms timer has not fired yet. */
    var pendingModifyResets: nat

    constructor (step: int, modifyStep: Option<int>, confetti: bool)
      ensures this.step == step && this.modifyStep == modifyStep && this.confetti == confetti
      ensures !cleared && pendingModifyResets == 0
    {
      this.step := step;
      this.modifyStep := modifyStep;
      this.confetti := confetti;
      cleared := false;
      pendingModifyResets := 0;
    }
  }
}
