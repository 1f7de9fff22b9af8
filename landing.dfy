/**
  The recruitment landing page (`src/app/recruit/page.tsx`): the two information cards,
  the reset of the store's confetti flag, the blank page while the recruitment is being
  fetched, and the period status under the heading (chosen by `Window.RecruitStatus`).
*/
module Landing {
  import opened Wrappers
  import opened Util
  import opened Window
  import opened Store

  /** An information card. */
  datatype Info = Info(title: string, content: string)

  const PERIOD_TITLE: string := "지원 기간"
  const INTERVIEW_TITLE: string := "면접 일정"

  /** The `Date` getters are always in range. */
  ghost predicate CalendarValid(calendar: int -> CalendarFields) {
    forall t :: ValidFields(calendar(t))
  }

  /** `{from} ~\n{to}` with both ends formatted with their day of the week. */
  function Span(from: DateInput, to: DateInput, parse: string -> int, calendar: int -> CalendarFields): string
    requires CalendarValid(calendar)
  {
    FormatDate(from, true, parse, calendar) + " ~\n" + FormatDate(to, true, parse, calendar)
  }

  /** `infos`: nothing without a recruitment, else the application period then the interview period. */
  function Infos(recruit: Option<Recruit>, parse: string -> int, calendar: int -> CalendarFields): (r: seq<Info>)
    requires CalendarValid(calendar)
    ensures recruit.None? ==> r == []
    ensures recruit.Some? ==> |r| == 2 && r[0].title == PERIOD_TITLE && r[1].title == INTERVIEW_TITLE
    ensures recruit.Some? ==>
              var rc := recruit.value;
              && r[0].content == FormatDate(rc.recruitStartDate, true, parse, calendar) + " ~\n" +
                                 FormatDate(rc.recruitEndDate, true, parse, calendar)
              && r[1].content == FormatDate(rc.interviewStartDate, true, parse, calendar) + " ~\n" +
                                 FormatDate(rc.interviewEndDate, true, parse, calendar)
  {
    match recruit
    case None => []
    case Some(rc) =>
      [Info(PERIOD_TITLE, Span(rc.recruitStartDate, rc.recruitEndDate, parse, calendar)),
       Info(INTERVIEW_TITLE, Span(rc.interviewStartDate, rc.interviewEndDate, parse, calendar))]
  }

  /** What the page shows once the fetch is over. */
  datatype PageView = PageView(titleYear: int, infos: seq<Info>, status: Option<Status>)

  /** The page: nothing while the fetch is in flight; otherwise the heading year (the
      recruitment's, or this year's), the cards, and the status when there is a recruitment. */
  function View(isApi: bool, recruit: Option<Recruit>, now: int, signedIn: bool, clock: Clock,
                calendar: int -> CalendarFields, currentYear: int): (v: Option<PageView>)
    requires CalendarValid(calendar)
    ensures isApi <==> v.None?
    ensures v.Some? ==> v.value.titleYear == (if recruit.Some? then recruit.value.year else currentYear)
    ensures v.Some? ==> (v.value.status.Some? <==> recruit.Some?)
    ensures v.Some? && recruit.Some? ==>
              (v.value.status == Some(Ended) <==> OpensAt(recruit.value, clock) <= now)
  {
    if isApi then None
    else
      Some(PageView(
        if recruit.Some? then recruit.value.year else currentYear,
        Infos(recruit, clock.parse, calendar),
        if recruit.Some? then Some(RecruitStatus(recruit.value, now, signedIn, clock, calendar)) else None))
  }

  /** The page's own state: whether the fetch is in flight, and what it returned. */
  class LandingPage {
    var isApi: bool
    var recruit: Option<Recruit>

    /** Mounting starts the fetch of the latest recruitment. */
    constructor Mount()
      ensures isApi && recruit == None
    {
      isApi := true;
      recruit := None;
    }

    method Fetched(latest: Option<Recruit>)
      requires isApi
      modifies this
      ensures !isApi && recruit == latest
    {
      recruit := latest;
      isApi := false;
    }
  }

  /** The confetti effect, lines 69-72: a raised flag is lowered; a lowered one is left. */
  method ConfettiEffect(store: RecruitStore)
    modifies store`confetti
    ensures !store.confetti
  {
    if !store.confetti {
      return;
    }
    store.confetti := false;
  }
}
