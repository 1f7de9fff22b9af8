/**
  The two decisions taken over the recruitment period: the access guard of the
  application wizard (`src/app/recruit/application/page.tsx`) and the status line or
  button of the recruitment landing page (`src/app/recruit/page.tsx`). Both compare the
  current instant with `startOfDay` of the shifted start date and `endOfDay` of the shifted
  end date. The date library is abstract: a `Clock` supplies the string parser and the two
  day bounds, and `ValidClock` states what this model relies on about them.
*/
module Window {
  import opened Wrappers
  import opened Util

  /** The date library as this model sees it. */
  datatype Clock = Clock(parse: string -> int, startOfDay: int -> int, endOfDay: int -> int)

  /** A day starts no later and ends no earlier than any instant in it, and both bounds are monotone. */
  ghost predicate ValidClock(c: Clock) {
    && (forall t :: c.startOfDay(t) <= t <= c.endOfDay(t))
    && (forall a, b :: a <= b ==> c.startOfDay(a) <= c.startOfDay(b))
    && (forall a, b :: a <= b ==> c.endOfDay(a) <= c.endOfDay(b))
  }

  /** The fields of a recruitment that the core reads; the dates are the API's strings. */
  datatype Recruit = Recruit(
    id: int, year: int, semester: int,
    recruitStartDate: DateInput, recruitEndDate: DateInput,
    interviewStartDate: DateInput, interviewEndDate: DateInput)

  /** `startOfDay(toDate(recruit.recruitStartDate))`. */
  function OpensAt(r: Recruit, c: Clock): int {
    c.startOfDay(ToDate(r.recruitStartDate, c.parse))
  }

  /** `endOfDay(toDate(recruit.recruitEndDate))`. */
  function ClosesAt(r: Recruit, c: Clock): int {
    c.endOfDay(ToDate(r.recruitEndDate, c.parse))
  }

  /** The wizard's guard: it refuses when there is no recruitment, when now is before the
      start day, or when now is after the end day. */
  function MayApply(recruit: Option<Recruit>, now: int, c: Clock): (ok: bool)
    ensures ok <==> recruit.Some? && OpensAt(recruit.value, c) <= now <= ClosesAt(recruit.value, c)
  {
    !(recruit.None? || now < OpensAt(recruit.value, c) || now > ClosesAt(recruit.value, c))
  }

  /** An admitted instant lies between the shifted start and end dates' own days: the
      start instant's day has begun and the end instant's day has not finished. */
  lemma AdmittedWithinDays(r: Recruit, now: int, c: Clock)
    requires ValidClock(c)
    requires MayApply(Some(r), now, c)
    ensures c.startOfDay(ToDate(r.recruitStartDate, c.parse)) <= now
    ensures now <= c.endOfDay(ToDate(r.recruitEndDate, c.parse))
    ensures OpensAt(r, c) <= ClosesAt(r, c)
  {
  }

  /** Any instant of a string-dated period's first or last day, by shifted time, is admitted. */
  lemma StartInstantAdmitted(r: Recruit, c: Clock)
    requires ValidClock(c)
    requires ToDate(r.recruitStartDate, c.parse) <= ToDate(r.recruitEndDate, c.parse)
    ensures MayApply(Some(r), ToDate(r.recruitStartDate, c.parse), c)
    ensures MayApply(Some(r), ToDate(r.recruitEndDate, c.parse), c)
  {
    var s, e := ToDate(r.recruitStartDate, c.parse), ToDate(r.recruitEndDate, c.parse);
    assert c.startOfDay(s) <= s <= c.endOfDay(s);
    assert c.endOfDay(s) <= c.endOfDay(e);
    assert c.startOfDay(s) <= c.startOfDay(e) <= e;
  }

  /** What the landing page shows under the period heading. */
  datatype Status =
    | Ended                      // "지원이 종료되었습니다."
    | OpensOn(startText: string) // "{start}부터 지원할 수 있습니다."
    | ApplyButton                // "지원하기", goes to the form
    | LogoutButton               // "로그아웃"

  /** The landing page's choice, in its own branch order: first `startOfDay(start) <= now`,
      then `now <= endOfDay(end)`, then whether a user is signed in. */
  function RecruitStatus(r: Recruit, now: int, signedIn: bool, c: Clock, calendar: int -> CalendarFields): (s: Status)
    requires ValidFields(FieldsOf(AsDate(ToDate(r.recruitStartDate, c.parse)), c.parse, calendar))
    ensures s == Ended <==> OpensAt(r, c) <= now
    ensures s.OpensOn? <==> now < OpensAt(r, c) && now <= ClosesAt(r, c)
    ensures s == ApplyButton <==> ClosesAt(r, c) < now < OpensAt(r, c) && !signedIn
    ensures s == LogoutButton <==> ClosesAt(r, c) < now < OpensAt(r, c) && signedIn
    ensures s.OpensOn? ==> s.startText == FormatDate(r.recruitStartDate, true, c.parse, calendar)
  {
    if OpensAt(r, c) <= now then Ended
    else if now <= ClosesAt(r, c) then
      OpensOn(FormatDate(AsDate(ToDate(r.recruitStartDate, c.parse)), true, c.parse, calendar))
    else if !signedIn then ApplyButton
    else LogoutButton
  }

  /** Whenever the start day begins no later than the end day ends, which is every real
      period, neither button can be shown. */
  lemma ButtonsUnreachable(r: Recruit, now: int, signedIn: bool, c: Clock, calendar: int -> CalendarFields)
    requires ValidFields(FieldsOf(AsDate(ToDate(r.recruitStartDate, c.parse)), c.parse, calendar))
    requires OpensAt(r, c) <= ClosesAt(r, c)
    ensures RecruitStatus(r, now, signedIn, c, calendar) in {Ended} ||
            RecruitStatus(r, now, signedIn, c, calendar).OpensOn?
  {
  }

  /** The inversion: at every instant the wizard admits, the landing page says the
      application has ended. */
  lemma OpenPeriodShownAsEnded(r: Recruit, now: int, signedIn: bool, c: Clock, calendar: int -> CalendarFields)
    requires ValidFields(FieldsOf(AsDate(ToDate(r.recruitStartDate, c.parse)), c.parse, calendar))
    requires MayApply(Some(r), now, c)
    ensures RecruitStatus(r, now, signedIn, c, calendar) == Ended
  {
  }

  /** The evidently intended order: ended after the end day, "from {start}" before the start
      day, and the apply or logout button inside the period. The corrected page offers a
      button exactly when the wizard would let the visitor in, and says "ended" exactly
      after the period. */
  function IntendedStatus(r: Recruit, now: int, signedIn: bool, c: Clock, calendar: int -> CalendarFields): (s: Status)
    requires ValidFields(FieldsOf(AsDate(ToDate(r.recruitStartDate, c.parse)), c.parse, calendar))
    ensures s == ApplyButton || s == LogoutButton <==> MayApply(Some(r), now, c)
    ensures s == ApplyButton ==> !signedIn
    ensures s == LogoutButton ==> signedIn
    ensures s == Ended <==> now > ClosesAt(r, c)
    ensures s.OpensOn? <==> now < OpensAt(r, c) && now <= ClosesAt(r, c)
    ensures s.OpensOn? ==> s.startText == FormatDate(r.recruitStartDate, true, c.parse, calendar)
  {
    if ClosesAt(r, c) < now then Ended
    else if now < OpensAt(r, c) then
      OpensOn(FormatDate(AsDate(ToDate(r.recruitStartDate, c.parse)), true, c.parse, calendar))
    else if !signedIn then ApplyButton
    else LogoutButton
  }
}
