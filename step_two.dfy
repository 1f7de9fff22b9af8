/**
  Step 2 of the form wizard (`src/app/recruit/form/_step/2.tsx`): the student ID, checked
  for a duplicate application before moving on. The target is the store's `modify` when
  that is truthy and the store's step plus one otherwise.
*/
module StepTwo {
  import opened Wrappers
  import opened Application
  import opened Store

  const DUPLICATE_NOTICE: string := "이미 윙크 부원이거나, 이번 모집에 지원하셨습니다."

  /** JavaScript truthiness of `modify`: defined and not 0. */
  predicate Truthy(modifyStep: Option<int>) {
    modifyStep.Some? && modifyStep.value != 0
  }

  /** `modify || step + 1`. */
  function NextTarget(modifyStep: Option<int>, step: int): (target: int)
    ensures Truthy(modifyStep) ==> target == modifyStep.value
    ensures !Truthy(modifyStep) ==> target == step + 1
    ensures modifyStep == Some(0) ==> target == step + 1
  {
    if Truthy(modifyStep) then modifyStep.value else step + 1
  }

  /** `modify ? '수정 완료' : '다음으로'`. */
  function ButtonLabel(modifyStep: Option<int>): (caption: string)
    ensures caption == "수정 완료" <==> Truthy(modifyStep)
  {
    if Truthy(modifyStep) then "수정 완료" else "다음으로"
  }

  /** The button: validate the ID; when it is valid, consult the duplicate check, whose
      answer is `duplicated`; a duplicate clears the store and leaves for '/recruit',
      anything else goes on and, when `modify` was set, schedules its reset. A failed
      validation shows the message and enables the button again. */
  method Continue(w: Wizard, s: StepState, store: RecruitStore, valid: bool, duplicated: bool, message: string)
    requires w.Valid() && w.Rendered() && w.step == 2 && !s.clicked
    modifies s`clicked, store`cleared, store`pendingModifyResets
    modifies w`isProcessing, w`pending, w`toasts, w`location
    ensures w.Valid()
    ensures !valid ==> !s.clicked && w.toasts == old(w.toasts) + [ErrorToast(message)]
    ensures !valid ==> w.pending == old(w.pending) && w.isProcessing == old(w.isProcessing)
    ensures !valid ==> w.location == old(w.location)
    ensures !valid ==> store.cleared == old(store.cleared) && store.pendingModifyResets == old(store.pendingModifyResets)
    ensures valid && duplicated ==>
              s.clicked && store.cleared && w.location == Replaced("/recruit") &&
              w.toasts == old(w.toasts) + [ErrorToast(DUPLICATE_NOTICE)] && w.pending == old(w.pending) &&
              w.isProcessing == old(w.isProcessing) &&
              store.pendingModifyResets == old(store.pendingModifyResets)
    ensures valid && !duplicated ==>
              s.clicked && w.isProcessing &&
              w.pending == old(w.pending) + [To(NextTarget(store.modifyStep, store.step))] &&
              w.toasts == old(w.toasts) && w.location == old(w.location) && store.cleared == old(store.cleared) &&
              store.pendingModifyResets == old(store.pendingModifyResets) + (if Truthy(store.modifyStep) then 1 else 0)
  {
    s.clicked := true;
    if valid {
      if duplicated {
        store.cleared := true;
        w.toasts := w.toasts + [ErrorToast(DUPLICATE_NOTICE)];
        w.location := Replaced("/recruit");
        return;
      }
      w.Go(To(NextTarget(store.modifyStep, store.step)));
      if Truthy(store.modifyStep) {
        store.pendingModifyResets := store.pendingModifyResets + 1;
      }
    } else {
      w.toasts := w.toasts + [ErrorToast(message)];
      s.clicked := false;
    }
  }

  /** A scheduled `setModify(undefined)` fires. */
  method ModifyResetFires(store: RecruitStore)
    requires store.pendingModifyResets > 0
    modifies store`modifyStep, store`pendingModifyResets
    ensures store.modifyStep == None && store.pendingModifyResets == old(store.pendingModifyResets) - 1
  {
    store.modifyStep := None;
    store.pendingModifyResets := store.pendingModifyResets - 1;
  }
}
