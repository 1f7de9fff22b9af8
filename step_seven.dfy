/**
  Step 7 of the form wizard (`src/app/recruit/form/_step/7.tsx`): the self-introduction,
  with a character counter against 500 and a continue button (there is no skip).
*/
module StepSeven {
  import opened Util
  import opened Application

  const SELF_INTRODUCE_LIMIT: nat := 500

  /** A counter line `{length} / {limit}` and whether it is drawn in red. */
  datatype CounterView = CounterView(text: string, red: bool)

  /** The counter both free-text steps draw above their text area. */
  function CharCounter(length: nat, limit: nat): (c: CounterView)
    ensures c.red <==> length > limit
  {
    CounterView(NatToString(length) + " / " + NatToString(limit), !(length <= limit))
  }

  /** The counter's number reads back as the length, and it turns red exactly past the limit. */
  lemma CounterShowsLength(length: nat, limit: nat)
    ensures var c := CharCounter(length, limit);
            var k := |NatToString(length)|;
            && k < |c.text| && AllDigits(c.text[..k]) && DecimalValue(c.text[..k]) == length
            && c.text[k..k + 3] == " / " && c.text[k + 3..] == NatToString(limit)
            && (c.red <==> length > limit)
  {
    var k := |NatToString(length)|;
    var c := CharCounter(length, limit);
    assert c.text[..k] == NatToString(length);
    assert c.text[k + 3..] == NatToString(limit);
    DecimalRoundTrip(length);
  }

  /** `selfIntroduce.length <= 500 ? neutral : red`, the length in UTF-16 code units. */
  function SelfIntroduceCounter(selfIntroduce: string): (c: CounterView)
    ensures c.red <==> Utf16Length(selfIntroduce) > 500
    ensures |selfIntroduce| > 500 ==> c.red
    ensures Utf16Length(selfIntroduce) == |selfIntroduce| ==> (c.red <==> |selfIntroduce| > 500)
  {
    CharCounter(Utf16Length(selfIntroduce), SELF_INTRODUCE_LIMIT)
  }

  /** 300 emoji already pass the limit: JavaScript counts each as two units. */
  lemma EmojiCountTwice()
    ensures SelfIntroduceCounter(seq(300, _ => '\U{1F600}')).red
  {
    AstralLengthDoubles(seq(300, _ => '\U{1F600}'));
  }

  /** The only transition of this step. */
  method Continue(w: Wizard, s: StepState, valid: bool, message: string)
    requires w.Valid() && w.Rendered() && w.step == 7 && !s.clicked
    modifies s, w`session, w`isProcessing, w`pending, w`toasts
    ensures w.Valid()
    ensures valid ==> s.clicked && w.isProcessing && w.toasts == old(w.toasts)
    ensures valid ==> w.pending == old(w.pending) + [NextOrSummary(s.isFinalEdit)]
    ensures valid ==> w.session == if s.isFinalEdit then old(w.session) - {FINAL_EDIT_KEY} else old(w.session)
    ensures !valid ==> !s.clicked && w.toasts == old(w.toasts) + [ErrorToast(message)]
    ensures !valid ==> w.pending == old(w.pending) && w.isProcessing == old(w.isProcessing)
    ensures !valid ==> w.session == old(w.session)
  {
    ValidatedContinue(w, s, valid, message);
  }
}
