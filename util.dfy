/**
  Pure helpers of `src/lib/util.ts`: the Korea-time shift applied by `toDate`, the two
  zero-padded date formatters, `nowPath`, and the query stripping applied to uploaded
  object URLs. The JavaScript `Date` internals (string parsing, calendar fields) are a
  library, so they enter as function parameters.
*/
module Util {
  import opened Wrappers

  // ---------------------------------------------------------------------------------------
  // Decimal text (JavaScript `String(n)` on integers and `Number(s)` on decimal strings)
  // ---------------------------------------------------------------------------------------

  predicate IsDigit(c: char) {
    '0' <= c <= '9'
  }

  predicate AllDigits(s: string) {
    forall i :: 0 <= i < |s| ==> IsDigit(s[i])
  }

  function DigitValue(c: char): (d: nat)
    requires IsDigit(c)
    ensures d < 10
  {
    c as int - '0' as int
  }

  function DigitChar(d: nat): (c: char)
    requires d < 10
    ensures IsDigit(c) && DigitValue(c) == d
  {
    (d + '0' as int) as char
  }

  /** `String(n)` for a non-negative integer: its shortest decimal spelling. */
  function NatToString(n: nat): (s: string)
    ensures 1 <= |s| && AllDigits(s)
    ensures |s| == 1 <==> n < 10
    decreases n
  {
    if n < 10 then [DigitChar(n)] else NatToString(n / 10) + [DigitChar(n % 10)]
  }

  /** The number a string of decimal digits denotes (leading zeros allowed). */
  function DecimalValue(s: string): nat
    requires AllDigits(s)
  {
    if s == [] then 0 else 10 * DecimalValue(s[..|s| - 1]) + DigitValue(s[|s| - 1])
  }

  lemma {:induction false} DecimalRoundTrip(n: nat)
    ensures DecimalValue(NatToString(n)) == n
    decreases n
  {
    if n >= 10 {
      var s := NatToString(n);
      assert s[..|s| - 1] == NatToString(n / 10);
      DecimalRoundTrip(n / 10);
    }
  }

  /** `String(i)` for any integer: a minus sign before the magnitude when negative. */
  function IntToString(i: int): (s: string)
    ensures 1 <= |s|
    ensures s[0] == '-' <==> i < 0
    ensures i < 0 ==> 2 <= |s| && AllDigits(s[1..])
    ensures i >= 0 ==> AllDigits(s)
  {
    if i < 0 then "-" + NatToString(-i) else NatToString(i)
  }

  /** `Number(s)` restricted to what `String(i)` can produce: optional minus sign, then at
      least one decimal digit. Anything else is `None` (JavaScript would give `NaN`). */
  function ParseInt(s: string): (r: Option<int>)
    ensures r.Some? <==> (2 <= |s| && s[0] == '-' && AllDigits(s[1..])) || (1 <= |s| && AllDigits(s))
    ensures r.Some? && s[0] == '-' ==> r.value <= 0
    ensures r.Some? && s[0] != '-' ==> r.value >= 0
  {
    if 2 <= |s| && s[0] == '-' && AllDigits(s[1..]) then Some(0 - DecimalValue(s[1..]))
    else if 1 <= |s| && AllDigits(s) then Some(DecimalValue(s) as int)
    else None
  }

  lemma IntTextRoundTrip(i: int)
    ensures ParseInt(IntToString(i)) == Some(i)
  {
    if i < 0 {
      var digits := NatToString(-i);
      var s := "-" + digits;
      assert s[1..] == digits;
      assert AllDigits(s[1..]);
      DecimalRoundTrip(-i);
      assert ParseInt(s) == Some(0 - DecimalValue(digits));
    } else {
      var s := NatToString(i);
      assert IsDigit(s[0]);
      DecimalRoundTrip(i);
      assert ParseInt(s) == Some(DecimalValue(s) as int);
    }
  }

  /** `s.padStart(2, '0')`. */
  function PadStart2(s: string): string {
    if |s| < 2 then seq(2 - |s|, _ => '0') + s else s
  }

  /** `String(n).padStart(2, '0')`, the month and day fields of both formatters. */
  function TwoDigits(n: nat): string {
    PadStart2(NatToString(n))
  }

  lemma TwoDigitsDecodes(n: nat)
    requires n < 100
    ensures |TwoDigits(n)| == 2 && AllDigits(TwoDigits(n))
    ensures DecimalValue(TwoDigits(n)) == n
  {
    var s := TwoDigits(n);
    if n < 10 {
      assert s == ['0', DigitChar(n)];
      assert s[..1] == ['0'] && ['0'][..0] == [];
    } else {
      assert NatToString(n) == NatToString(n / 10) + [DigitChar(n % 10)];
      DecimalRoundTrip(n);
    }
  }

  // ---------------------------------------------------------------------------------------
  // String length as JavaScript counts it
  // ---------------------------------------------------------------------------------------

  /** The UTF-16 code units a character takes: two (a surrogate pair) above U+FFFF. */
  function Utf16Units(c: char): (n: nat)
    ensures n == 1 || n == 2
  {
    if c as int > 0xFFFF then 2 else 1
  }

  /** `s.length`: JavaScript strings count UTF-16 code units, not characters. */
  function Utf16Length(s: string): (n: nat)
    ensures |s| <= n <= 2 * |s|
    ensures (forall i :: 0 <= i < |s| ==> s[i] as int <= 0xFFFF) ==> n == |s|
  {
    if s == [] then 0 else Utf16Units(s[0]) + Utf16Length(s[1..])
  }

  /** A string of characters outside the Basic Multilingual Plane (emoji, say) is twice as
      long to JavaScript as it has characters. */
  lemma {:induction false} AstralLengthDoubles(s: string)
    requires forall i :: 0 <= i < |s| ==> s[i] as int > 0xFFFF
    ensures Utf16Length(s) == 2 * |s|
  {
    if s != [] {
      AstralLengthDoubles(s[1..]);
    }
  }

  // ---------------------------------------------------------------------------------------
  // toDate
  // ---------------------------------------------------------------------------------------

  /** Nine hours in milliseconds: the shift `toDate` adds to an API date string. */
  const KST_OFFSET_MS: int := 9 * 60 * 60 * 1000

  /** The argument of `toDate`: a `Date` (an instant in epoch milliseconds) or a string. */
  datatype DateInput = AsDate(instant: int) | AsString(text: string)

  /** `toDate(date)`. `parse` stands for `new Date(text).getTime()`. */
  function ToDate(date: DateInput, parse: string -> int): (t: int)
    ensures date.AsDate? ==> t == date.instant
    ensures date.AsString? ==> t == parse(date.text) + 32_400_000
  {
    match date
    case AsDate(instant) => instant
    case AsString(text) => parse(text) + KST_OFFSET_MS
  }

  /** Handing the result of `toDate` back to it (as `formatDate(toDate(..))` does) does not shift it twice. */
  lemma ToDateIdempotent(date: DateInput, parse: string -> int, parse': string -> int)
    ensures ToDate(AsDate(ToDate(date, parse)), parse') == ToDate(date, parse)
  {
  }

  // ---------------------------------------------------------------------------------------
  // formatDateApi and formatDate
  // ---------------------------------------------------------------------------------------

  /** What the `Date` getters return for an instant: `getFullYear()`, `getMonth()` (0-based),
      `getDate()` and `getDay()` (0 = Sunday). */
  datatype CalendarFields = CalendarFields(fullYear: int, month: int, date: int, weekday: int)

  predicate ValidFields(f: CalendarFields) {
    0 <= f.month < 12 && 1 <= f.date <= 31 && 0 <= f.weekday < 7
  }

  /** The instant `toDate` gives, decomposed by the calendar. */
  function FieldsOf(date: DateInput, parse: string -> int, calendar: int -> CalendarFields): CalendarFields {
    calendar(ToDate(date, parse))
  }

  /** `formatDateApi(date)`: `year-MM-DD`. */
  function FormatDateApi(date: DateInput, parse: string -> int, calendar: int -> CalendarFields): (r: string)
    requires ValidFields(FieldsOf(date, parse, calendar))
    ensures |r| == |IntToString(FieldsOf(date, parse, calendar).fullYear)| + 6
  {
    var f := FieldsOf(date, parse, calendar);
    TwoDigitsDecodes(f.month + 1);
    TwoDigitsDecodes(f.date);
    IntToString(f.fullYear) + "-" + TwoDigits(f.month + 1) + "-" + TwoDigits(f.date)
  }

  /** A day as read back from `year-MM-DD` text: month 1-based. */
  datatype ApiDate = ApiDate(year: int, month: nat, day: nat)

  /** Reads `year-MM-DD` back: the last two characters are the day, the two before the
      last dash the month, and everything before the other dash the year. */
  function ParseDateApi(s: string): Option<ApiDate> {
    if |s| < 7 || s[|s| - 3] != '-' || s[|s| - 6] != '-' then None
    else
      var day, month := s[|s| - 2..], s[|s| - 5..|s| - 3];
      if !AllDigits(day) || !AllDigits(month) then None
      else match ParseInt(s[..|s| - 6])
        case None => None
        case Some(year) => Some(ApiDate(year, DecimalValue(month), DecimalValue(day)))
  }

  /** The text `formatDateApi` produces reads back as the calendar's year, `getMonth() + 1` and `getDate()`. */
  lemma FormatDateApiRoundTrip(date: DateInput, parse: string -> int, calendar: int -> CalendarFields)
    requires ValidFields(FieldsOf(date, parse, calendar))
    ensures var f := FieldsOf(date, parse, calendar);
            ParseDateApi(FormatDateApi(date, parse, calendar)) == Some(ApiDate(f.fullYear, f.month + 1, f.date))
  {
    var f := FieldsOf(date, parse, calendar);
    var y, mm, dd := IntToString(f.fullYear), TwoDigits(f.month + 1), TwoDigits(f.date);
    TwoDigitsDecodes(f.month + 1);
    TwoDigitsDecodes(f.date);
    IntTextRoundTrip(f.fullYear);
    var s := FormatDateApi(date, parse, calendar);
    assert s == y + "-" + mm + "-" + dd;
    assert s[|s| - 2..] == dd;
    assert s[|s| - 5..|s| - 3] == mm;
    assert s[..|s| - 6] == y;
  }

  /** The day names `formatDate` indexes by `getDay()`. */
  const WEEKDAY_NAMES: seq<string> := ["일", "월", "화", "수", "목", "금", "토"]

  /** `formatDate(date, showDayOfWeek)`: `{year}년 {MM}월 {DD}일`, then ` ({day name})` when asked. */
  function FormatDate(date: DateInput, showDayOfWeek: bool, parse: string -> int, calendar: int -> CalendarFields): (r: string)
    requires ValidFields(FieldsOf(date, parse, calendar))
    ensures var year := IntToString(FieldsOf(date, parse, calendar).fullYear);
            && |r| == |year| + (if showDayOfWeek then 13 else 9)
            && r[..|year|] == year
  {
    var f := FieldsOf(date, parse, calendar);
    TwoDigitsDecodes(f.month + 1);
    TwoDigitsDecodes(f.date);
    var base := IntToString(f.fullYear) + "년 " + TwoDigits(f.month + 1) + "월 " + TwoDigits(f.date) + "일";
    if showDayOfWeek then base + " (" + WEEKDAY_NAMES[f.weekday] + ")" else base
  }

  /** The position in `WEEKDAY_NAMES` of a one-letter day name, if it is one. */
  function WeekdayIndex(c: char): Option<nat> {
    if c == '일' then Some(0) else if c == '월' then Some(1) else if c == '화' then Some(2)
    else if c == '수' then Some(3) else if c == '목' then Some(4) else if c == '금' then Some(5)
    else if c == '토' then Some(6) else None
  }

  /** The fields of `formatDate`'s text sit at fixed offsets after the year and decode back to
      `getMonth() + 1`, `getDate()` and, when shown, `getDay()`; the plain form is the
      weekday form without its ` (X)` tail. */
  lemma FormatDateFields(date: DateInput, parse: string -> int, calendar: int -> CalendarFields)
    requires ValidFields(FieldsOf(date, parse, calendar))
    ensures var f := FieldsOf(date, parse, calendar);
            var k := |IntToString(f.fullYear)|;
            var plain := FormatDate(date, false, parse, calendar);
            var full := FormatDate(date, true, parse, calendar);
            && |plain| == k + 9 && |full| == k + 13
            && plain[..k] == IntToString(f.fullYear)
            && AllDigits(plain[k + 2..k + 4]) && DecimalValue(plain[k + 2..k + 4]) == f.month + 1
            && AllDigits(plain[k + 6..k + 8]) && DecimalValue(plain[k + 6..k + 8]) == f.date
            && plain[k..k + 2] == "년 " && plain[k + 4..k + 6] == "월 " && plain[k + 8] == '일'
            && full[..k + 9] == plain
            && full[k + 9..k + 11] == " (" && full[k + 12] == ')'
            && WeekdayIndex(full[k + 11]) == Some(f.weekday)
  {
    var f := FieldsOf(date, parse, calendar);
    TwoDigitsDecodes(f.month + 1);
    TwoDigitsDecodes(f.date);
    DateLayout(IntToString(f.fullYear), TwoDigits(f.month + 1), TwoDigits(f.date), WEEKDAY_NAMES[f.weekday]);
  }

  /** Where the pieces of `{year}년 {MM}월 {DD}일 ({day})` sit, whatever the year's length. */
  lemma DateLayout(y: string, mm: string, dd: string, day: string)
    requires |mm| == 2 && |dd| == 2 && |day| == 1
    ensures var k, plain := |y|, y + "년 " + mm + "월 " + dd + "일";
            var full := plain + " (" + day + ")";
            && |plain| == k + 9 && |full| == k + 13
            && plain[..k] == y && plain[k..k + 2] == "년 " && plain[k + 2..k + 4] == mm
            && plain[k + 4..k + 6] == "월 " && plain[k + 6..k + 8] == dd && plain[k + 8] == '일'
            && full[..k + 9] == plain && full[k + 9..k + 11] == " (" && full[k + 11] == day[0]
            && full[k + 12] == ')'
  {
    var k, plain := |y|, y + "년 " + mm + "월 " + dd + "일";
    var full := plain + " (" + day + ")";
    assert plain[k..k + 2] == "년 " && plain[k + 4..k + 6] == "월 ";
    assert full[..k + 9] == plain && full[k + 9..k + 11] == " (";
  }

  // ---------------------------------------------------------------------------------------
  // nowPath
  // ---------------------------------------------------------------------------------------

  /** `href.substring(origin.length)`; `substring` clamps a start past the end to the end. */
  function NowPath(href: string, origin: string): (r: string)
    ensures |r| == if |origin| <= |href| then |href| - |origin| else 0
    ensures r == href[|href| - |r|..]
  {
    if |origin| <= |href| then href[|origin|..] else ""
  }

  /** When the page address starts with its origin, putting the origin back gives the address. */
  lemma NowPathRestores(href: string, origin: string)
    requires origin <= href
    ensures origin + NowPath(href, origin) == href
  {
  }

  // ---------------------------------------------------------------------------------------
  // url.replace(/\?.+$/, '')
  // ---------------------------------------------------------------------------------------

  /** The characters a regular-expression `.` does not match. */
  predicate IsLineTerminator(c: char) {
    c == '\n' || c == '\r' || c == '\U{2028}' || c == '\U{2029}'
  }

  /** `/\?.+$/` (no flags) matches starting at `i`: a `?`, then one or more characters up to
      the end of the input, none of them a line terminator. */
  predicate MatchesAt(url: string, i: nat)
    requires i < |url|
  {
    url[i] == '?' && i + 1 < |url| && forall j :: i < j < |url| ==> !IsLineTerminator(url[j])
  }

  /** The leftmost position at or after `from` where the pattern matches. */
  function FirstMatch(url: string, from: nat): (r: Option<nat>)
    requires from <= |url|
    ensures r.Some? ==> from <= r.value < |url| && MatchesAt(url, r.value)
    ensures r.Some? ==> forall j :: from <= j < r.value ==> !MatchesAt(url, j)
    ensures r.None? ==> forall j :: from <= j < |url| ==> !MatchesAt(url, j)
    decreases |url| - from
  {
    if from == |url| then None
    else if MatchesAt(url, from) then Some(from)
    else FirstMatch(url, from + 1)
  }

  /** `url.replace(/\?.+$/, '')`: cut the URL at the leftmost match, or keep it whole. */
  function StripQuery(url: string): (r: string)
    ensures r <= url
    ensures r == url <==> forall j :: 0 <= j < |url| ==> !MatchesAt(url, j)
    ensures r != url ==> MatchesAt(url, |r|) && forall j :: 0 <= j < |r| ==> !MatchesAt(url, j)
  {
    match FirstMatch(url, 0)
    case Some(i) => url[..i]
    case None => url
  }

  /** Stripping an already stripped URL changes nothing. */
  lemma StripQueryIdempotent(url: string)
    ensures StripQuery(StripQuery(url)) == StripQuery(url)
  {
    match FirstMatch(url, 0)
    case None =>
    case Some(i) =>
      var s := url[..i];
      forall j | 0 <= j < |s|
        ensures !MatchesAt(s, j)
      {
        assert !MatchesAt(url, j);
        if s[j] == '?' && j + 1 < |s| {
          // url fails at j only because of a line terminator after j; it lies before i,
          // since everything after the '?' at i is free of them.
          var t :| j < t < |url| && IsLineTerminator(url[t]);
          assert t < i;
          assert s[t] == url[t];
        }
      }
      assert FirstMatch(s, 0).None?;
  }

  /** The index of the first occurrence of `c` in `s`. */
  function IndexOf(s: string, c: char): (r: Option<nat>)
    ensures r.Some? ==> r.value < |s| && s[r.value] == c && c !in s[..r.value]
    ensures r.None? ==> c !in s
  {
    if s == [] then None
    else if s[0] == c then Some(0)
    else match IndexOf(s[1..], c)
      case None => None
      case Some(k) => assert s[..k + 1] == [s[0]] + s[1..][..k]; Some(k + 1)
  }

  /** On a URL without line breaks the stripping cuts at the first `?` when at least one
      character follows it, and otherwise leaves the URL as it is. */
  lemma StripQueryNewlineFree(url: string)
    requires forall j :: 0 <= j < |url| ==> !IsLineTerminator(url[j])
    ensures match IndexOf(url, '?')
            case Some(i) => StripQuery(url) == if i + 1 < |url| then url[..i] else url
            case None => StripQuery(url) == url
  {
    match IndexOf(url, '?')
    case None =>
      assert FirstMatch(url, 0).None?;
    case Some(i) =>
      forall j | 0 <= j < i
        ensures url[j] != '?'
      {
        assert url[..i][j] == url[j];
      }
      if i + 1 < |url| {
        assert MatchesAt(url, i);
        assert FirstMatch(url, 0) == Some(i);
      } else {
        assert FirstMatch(url, 0).None?;
      }
  }
}
