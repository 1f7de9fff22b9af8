/**
  The recruitment application wizard of `src/app/recruit/application/page.tsx`: the step
  index and its two-event transition (`go` marks the page busy at once; a 400 ms timer
  later sets the step and clears the mark), the back arrow with its 15 -> 8 shortcut, the
  persistence of the step and of the answers in local storage, their restoration on mount,
  and the access guard that decides whether the page loads at all.

  Browser storage is held on the page object: `recruit:step` as text (written with
  `String`, read with `Number`), `recruit:data` and `recruit:stacks` already decoded (the
  JSON codec is a library), and session storage as a map from key to text.
*/
module Application {
  import opened Wrappers
  import opened Util
  import opened Window

  /** Entries of the step table `STEPS` (lines 44-62). */
  const APPLICATION_STEPS: nat := 17

  /** The summary step that a final-edit continue jumps to. */
  const SUMMARY_STEP: int := 18

  /** The step from which the back arrow may jump back to `PREV_DEVELOP_TARGET`. */
  const PREV_DEVELOP_STEP: int := 15
  const PREV_DEVELOP_TARGET: int := 8

  const FINAL_EDIT_KEY: string := "recruit:final_edit"
  const BACK_KEY: string := "recruit:back"
  const PREV_DEVELOP_KEY: string := "recruit:prev-develop"

  /** Whether session storage holds `value` under `key`. */
  predicate HasFlag(session: map<string, string>, key: string, value: string) {
    key in session && session[key] == value
  }

  /** What a step reads, once, when it mounts: `sessionStorage.getItem('recruit:final_edit') === 'true'`. */
  predicate FinalEditSet(session: map<string, string>) {
    HasFlag(session, FINAL_EDIT_KEY, "true")
  }

  // ---------------------------------------------------------------------------------------
  // Answers
  // ---------------------------------------------------------------------------------------

  /** A form value: a text field or a list of choices. */
  datatype Value = Text(text: string) | List(items: seq<string>)

  type Answers = map<string, Value>

  const DESIGN_STACKS: string := "designTechStacks"
  const FAVORITE_PROJECT: string := "favoriteProject"

  /** The form's `defaultValues` (lines 77-92). */
  function Defaults(): (d: Answers)
    ensures forall k :: k in d ==> d[k] == Text("") || d[k] == List([])
  {
    map[
      "name" := Text(""), "studentId" := Text(""), "email" := Text(""),
      "phoneNumber" := Text(""), "jiwonDonggi" := Text(""), "baeugoSipeunJeom" := Text(""),
      "canInterviewDates" := List([]), "github" := Text(""),
      "frontendTechStacks" := List([]), "backendTechStacks" := List([]),
      "devOpsTechStacks" := List([]), DESIGN_STACKS := List([]),
      FAVORITE_PROJECT := Text(""), "lastComment" := Text("")]
  }

  /** The answers after mounting over stored data: every stored key takes its stored value,
      every other field keeps its default. */
  function Restored(stored: Option<Answers>): (a: Answers)
    ensures stored.None? ==> a == Defaults()
    ensures stored.Some? ==> a.Keys == Defaults().Keys + stored.value.Keys
    ensures stored.Some? ==> forall k :: k in stored.value ==> a[k] == stored.value[k]
    ensures stored.Some? ==> forall k :: k in Defaults() && k !in stored.value ==> a[k] == Defaults()[k]
  {
    if stored.Some? then Defaults() + stored.value else Defaults()
  }

  // ---------------------------------------------------------------------------------------
  // The step as stored text
  // ---------------------------------------------------------------------------------------

  /** The step restored on mount (lines 153-159): an absent or empty entry keeps the initial
      0; a decimal entry gives its number. */
  function RestoredStep(stored: Option<string>): (step: int)
    ensures stored.None? || stored == Some("") ==> step == 0
    ensures stored.Some? && ParseInt(stored.value).Some? ==> step == ParseInt(stored.value).value
  {
    match stored
    case None => 0
    case Some(text) => if text == "" then 0 else ParseInt(text).GetOr(0)
  }

  /** What the page writes after each step change is read back as the same step. */
  lemma StepTextRoundTrip(step: int)
    ensures RestoredStep(Some(IntToString(step))) == step
  {
    IntTextRoundTrip(step);
  }

  /** Reloading the page over what it persisted gives back its step and its answers. */
  lemma ReloadRestores(step: int, answers: Answers)
    requires Defaults().Keys <= answers.Keys
    ensures RestoredStep(Some(IntToString(step))) == step
    ensures Restored(Some(answers)) == answers
  {
    StepTextRoundTrip(step);
    assert Restored(Some(answers)).Keys == answers.Keys;
  }

  /** The example of a resumed session: stored step "5" and stored data `{"name": "Kim"}`. */
  lemma ResumeExample()
    ensures RestoredStep(Some("5")) == 5
    ensures Restored(Some(map["name" := Text("Kim")]))["name"] == Text("Kim")
    ensures Restored(Some(map["name" := Text("Kim")]))["email"] == Text("")
  {
    assert AllDigits("5");
    assert DecimalValue("5") == 10 * DecimalValue("") + DigitValue('5');
  }

  // ---------------------------------------------------------------------------------------
  // Navigation intents
  // ---------------------------------------------------------------------------------------

  /** The argument of `go`: a number, or one of the updater functions the core passes. */
  datatype Intent =
    | To(target: int)                // go(n)
    | Next                           // go((prev) => prev + 1)
    | NextOrSummary(finalEdit: bool) // go((prev) => (isFinalEdit ? 18 : prev + 1))
    | Back                           // the back arrow's updater (lines 207-214)

  /** The step an intent settles on from `prev`, and session storage after its updater ran
      (only the back arrow's updater touches it). */
  function Resolve(intent: Intent, prev: int, session: map<string, string>): (r: (int, map<string, string>))
    ensures !intent.Back? ==> r.1 == session
  {
    match intent
    case To(target) => (target, session)
    case Next => (prev + 1, session)
    case NextOrSummary(finalEdit) => (if finalEdit then SUMMARY_STEP else prev + 1, session)
    case Back =>
      if prev == PREV_DEVELOP_STEP && HasFlag(session, PREV_DEVELOP_KEY, "false") then
        (PREV_DEVELOP_TARGET, session - {PREV_DEVELOP_KEY})
      else (prev - 1, session)
  }

  /** Back from 15 with `recruit:prev-develop` at 'false' lands on 8 and drops that flag;
      every other back lands on the previous step and leaves session storage alone. */
  lemma BackRule(prev: int, session: map<string, string>)
    ensures var r := Resolve(Back, prev, session);
            && (prev == 15 && HasFlag(session, PREV_DEVELOP_KEY, "false") ==>
                  r.0 == 8 && PREV_DEVELOP_KEY !in r.1 && r.1 == session - {PREV_DEVELOP_KEY})
            && (!(prev == 15 && HasFlag(session, PREV_DEVELOP_KEY, "false")) ==>
                  r.0 == prev - 1 && r.1 == session)
  {
  }

  /** The arrow only exists on a step above 0, and from there back never goes below 0 and
      always goes backwards. */
  lemma BackStaysInRange(prev: int, session: map<string, string>)
    requires prev > 0
    ensures 0 <= Resolve(Back, prev, session).0 < prev
  {
  }

  /** A forward intent from before the summary moves strictly forwards and not past the
      summary; in final-edit mode it lands exactly on the summary. */
  lemma ForwardAdvances(finalEdit: bool, prev: int, session: map<string, string>)
    requires prev < SUMMARY_STEP
    ensures prev < Resolve(Next, prev, session).0 <= SUMMARY_STEP
    ensures prev < Resolve(NextOrSummary(finalEdit), prev, session).0 <= SUMMARY_STEP
    ensures finalEdit ==> Resolve(NextOrSummary(finalEdit), prev, session).0 == SUMMARY_STEP
    ensures !finalEdit ==> Resolve(NextOrSummary(finalEdit), prev, session) == Resolve(Next, prev, session)
  {
  }

  // ---------------------------------------------------------------------------------------
  // The page
  // ---------------------------------------------------------------------------------------

  /** A notification shown with `toast`. */
  datatype Toast = InfoToast(message: string) | ErrorToast(message: string)

  /** Where the router has sent the visitor. */
  datatype Location = Here | Replaced(path: string) | WentBack

  const RESUMED_NOTICE: string := "이전에 작성하던 내용을 불러왔습니다."
  const FRESH_NOTICE: string := "페이지를 나갔다 와도 내용을 계속 작성할 수 있어요"
  const REFUSED_NOTICE: string := "잘못된 접근입니다."

  class Wizard {
    /** The length of the step table the page renders from; `STEPS[step]` is unchecked. */
    const stepCount: nat

    var step: int
    var isProcessing: bool
    /** Intents of `go` calls whose 400 ms timer has not fired yet, oldest first. */
    var pending: seq<Intent>
    var loading: bool
    var recruit: Option<Recruit>
    var answers: Answers

    /** `localStorage['recruit:step']`. */
    var localStep: Option<string>
    /** `localStorage['recruit:data']`, decoded. */
    var localData: Option<Answers>
    /** `localStorage['recruit:stacks']`, decoded; written by an earlier step. */
    var localStacks: Option<seq<string>>
    /** `sessionStorage`. */
    var session: map<string, string>

    var toasts: seq<Toast>
    var location: Location

    /** The page's invariant: storage mirrors the step and the answers, and the page is
        busy only while a transition is pending. */
    ghost predicate Valid()
      reads this
    {
      && localStep == Some(IntToString(step))
      && answers == Restored(localData)
      && (isProcessing ==> pending != [])
    }

    /** The page renders its content only once loaded with a recruitment (line 186). */
    predicate Rendered()
      reads this
    {
      !loading && recruit.Some?
    }

    /** Mounting the page over the browser's storage: the initial state, the notice that
        says whether earlier answers were found, restoring the step and the answers, and
        writing the step back. The stored answers are not rewritten: the restore effect
        runs before the effect that subscribes to the form. */
    constructor Mount(stepCount: nat, storedStep: Option<string>, storedData: Option<Answers>,
                      storedStacks: Option<seq<string>>, session: map<string, string>)
      ensures Valid()
      ensures this.stepCount == stepCount
      ensures step == RestoredStep(storedStep)
      ensures answers == Restored(storedData)
      ensures !isProcessing && pending == [] && loading && recruit == None
      ensures localData == storedData && localStacks == storedStacks
      ensures this.session == session && location == Here
      ensures toasts == [if storedData.Some? then InfoToast(RESUMED_NOTICE) else InfoToast(FRESH_NOTICE)]
    {
      this.stepCount := stepCount;
      step := 0;
      isProcessing := false;
      pending := [];
      loading := true;
      recruit := None;
      answers := Defaults();
      localStep := storedStep;
      localData := storedData;
      localStacks := storedStacks;
      this.session := session;
      toasts := [if storedData.Some? then InfoToast(RESUMED_NOTICE) else InfoToast(FRESH_NOTICE)];
      location := Here;
      new;
      RestoreStep();
      RestoreData(false);
      localStep := Some(IntToString(step));
    }

    /** Lines 153-159. */
    method RestoreStep()
      modifies this`step
      ensures step == match localStep
                      case None => old(step)
                      case Some(text) => if text == "" then old(step) else ParseInt(text).GetOr(0)
    {
      if localStep.Some? && localStep.value != "" {
        step := ParseInt(localStep.value).GetOr(0);
      }
    }

    /** Lines 161-172: `form.setValue` for every stored entry. When `subscribed`, each call
        is seen by the `form.watch` subscription (lines 178-184), which writes all answers
        back; on the first mount the subscription is made by a later effect, so the stored
        text is left as it was. */
    method RestoreData(subscribed: bool)
      modifies this`answers, this`localData
      ensures old(localData).None? ==> answers == old(answers)
      ensures old(localData).Some? ==> answers == old(answers) + old(localData).value
      ensures localData == if subscribed && old(localData).Some? && old(localData).value != map[]
                           then Some(answers) else old(localData)
    {
      if localData.None? {
        return;
      }
      var data := localData.value;
      var keys := data.Keys;
      while keys != {}
        invariant keys <= data.Keys
        invariant answers == old(answers) + (data - keys)
        invariant localData == if subscribed && keys != data.Keys then Some(answers) else old(localData)
        decreases keys
      {
        var k :| k in keys;
        answers := answers[k := data[k]];
        if subscribed {
          localData := Some(answers);
        }
        keys := keys - {k};
        assert answers == old(answers) + (data - keys);
      }
      assert data - keys == data;
    }

    /** Lines 126-143: the latest recruitment is either admitted, and the page loads (and, its
        `recruit` having changed, restores the stored answers once more), or refused, and the
        visitor is sent home while the page stays loading. */
    method LoadRecruit(latest: Option<Recruit>, now: int, clock: Clock)
      requires Valid()
      modifies this`recruit, this`loading, this`toasts, this`location, this`answers, this`localData
      ensures Valid()
      ensures MayApply(latest, now, clock) ==>
                recruit == latest && !loading && toasts == old(toasts) && location == old(location)
      ensures !MayApply(latest, now, clock) ==>
                recruit == old(recruit) && loading == old(loading) &&
                toasts == old(toasts) + [ErrorToast(REFUSED_NOTICE)] && location == Replaced("/") &&
                localData == old(localData)
      ensures MayApply(latest, now, clock) ==>
                localData == if old(recruit) != latest && old(localData).Some? && old(localData).value != map[]
                             then Some(answers) else old(localData)
      ensures answers == old(answers)
    {
      var previous := recruit;
      if !MayApply(latest, now, clock) {
        toasts := toasts + [ErrorToast(REFUSED_NOTICE)];
        location := Replaced("/");
        return;
      }
      recruit := latest;
      loading := false;
      if recruit != previous {
        RestoreData(true);
        assert Restored(localData) == answers;
      }
    }

    /** `form.setValue(key, value)`, followed by the watch subscription's write. */
    method SetValue(key: string, value: Value)
      requires Valid()
      modifies this`answers, this`localData
      ensures Valid()
      ensures answers == old(answers)[key := value] && localData == Some(answers)
    {
      answers := answers[key := value];
      localData := Some(answers);
      assert Restored(localData) == answers;
    }

    /** `go(page)`, lines 95-102: the page is busy at once; the step waits for the timer. */
    method Go(intent: Intent)
      requires Valid()
      modifies this`isProcessing, this`pending
      ensures Valid()
      ensures isProcessing && pending == old(pending) + [intent]
    {
      isProcessing := true;
      pending := pending + [intent];
    }

    /** The step an event settling now would land on. */
    function NextSettled(): (int, map<string, string>)
      reads this
      requires pending != []
    {
      Resolve(pending[0], step, session)
    }

    /** The oldest `go` timer fires: `setStep(page)` and `setisProcessing(false)` together,
        then the step is persisted (lines 174-176). The target must index the table. */
    method Settle()
      requires Valid() && pending != []
      requires 0 <= NextSettled().0 < stepCount
      modifies this`step, this`session, this`isProcessing, this`pending, this`localStep
      ensures Valid()
      ensures (step, session) == Resolve(old(pending[0]), old(step), old(session))
      ensures !isProcessing && pending == old(pending[1..])
      ensures 0 <= step < stepCount
    {
      var (target, session') := Resolve(pending[0], step, session);
      step, session := target, session';
      isProcessing := false;
      pending := pending[1..];
      localStep := Some(IntToString(step));
    }

    /** `setStep((prev) => prev + amount)` called directly, without the transition. */
    method ShiftStep(amount: int)
      requires Valid()
      requires 0 <= step + amount < stepCount
      modifies this`step, this`localStep
      ensures Valid() && step == old(step) + amount
    {
      step := step + amount;
      localStep := Some(IntToString(step));
    }

    /** A click on the back arrow, which exists only on a step above 0 (line 190): ignored
        while a transition is in progress, otherwise a `go` with the back updater. */
    method BackArrowClick()
      requires Valid() && Rendered() && step > 0
      modifies this`isProcessing, this`pending
      ensures Valid()
      ensures old(isProcessing) ==> isProcessing && pending == old(pending)
      ensures !old(isProcessing) ==> isProcessing && pending == old(pending) + [Back]
    {
      if !isProcessing {
        Go(Back);
      }
    }
  }

  /** The local state of the step component on screen: its `clicked` guard and the
      final-edit flag it read when it mounted. A new object stands for a new mount. */
  class StepState {
    var clicked: bool
    const isFinalEdit: bool

    constructor (isFinalEdit: bool)
      ensures !clicked && this.isFinalEdit == isFinalEdit
    {
      clicked := false;
      this.isFinalEdit := isFinalEdit;
    }
  }

  /** The continue handler shared by the steps that validate one field: on success, drop
      `recruit:final_edit` when in final-edit mode and go to the summary or the next step;
      on failure, show the validation message and enable the buttons again. */
  method ValidatedContinue(w: Wizard, s: StepState, valid: bool, message: string)
    requires w.Valid() && !s.clicked
    modifies s, w`session, w`isProcessing, w`pending, w`toasts
    ensures w.Valid()
    ensures valid ==> s.clicked && w.isProcessing && w.toasts == old(w.toasts)
    ensures valid ==> w.pending == old(w.pending) + [NextOrSummary(s.isFinalEdit)]
    ensures valid ==> w.session == if s.isFinalEdit then old(w.session) - {FINAL_EDIT_KEY} else old(w.session)
    ensures !valid ==> !s.clicked && w.toasts == old(w.toasts) + [ErrorToast(message)]
    ensures !valid ==> w.pending == old(w.pending) && w.isProcessing == old(w.isProcessing)
    ensures !valid ==> w.session == old(w.session)
  {
    s.clicked := true;
    if valid {
      if s.isFinalEdit {
        w.session := w.session - {FINAL_EDIT_KEY};
      }
      w.Go(NextOrSummary(s.isFinalEdit));
    } else {
      w.toasts := w.toasts + [ErrorToast(message)];
      s.clicked := false;
    }
  }
}
