/** Calendar dates as the dashboard handles them: the DD-MM-YYYY text written by the upload
    page and the dashboard, and the numeric Date constructor new Date(year, monthIndex, day)
    that the pending-orders page uses to read that text back.

    Time values are milliseconds counted from 1970-01-01 in local time; the time-zone offset
    and daylight-saving shifts are not modelled. */
module Dates {
  import opened Collections
  import opened JsBuiltins

  const MsPerDay: int := 86400000

  /** A calendar date: day of month, month (1-12) and full year. */
  datatype CalendarDate = CalendarDate(day: nat, month: nat, year: nat)

  /** A JavaScript Date as the pages test it: null, an Invalid Date (truthy, but every
      comparison with it is false), or a valid time value. */
  datatype JsDate = NullDate | InvalidDate | ValidDate(time: int)

  /** String(n).padStart(2, '0'). */
  function Pad2(n: nat): (r: string)
    ensures |r| >= 2 && AllDigits(r)
    ensures n < 100 ==> |r| == 2
    ensures JsNumber(r) == Some(n)
  {
    NatToStringRoundTrip(n);
    if n < 10 then
      var r := "0" + NatToString(n);
      assert r == ['0', DigitChar(n)];
      assert r[..1] == "0" && DigitsValue(r[..1]) == 0;
      assert DigitsValue(r) == DigitsValue(r[..1]) * 10 + n;
      r
    else NatToString(n)
  }

  /** `${DD}-${MM}-${YYYY}`: the day and month zero-padded to two digits, the year as is. */
  function FormatDMY(d: CalendarDate): (r: string)
    ensures |r| >= 7
  {
    Pad2(d.day) + "-" + Pad2(d.month) + "-" + NatToString(d.year)
  }

  /** The three fields of a formatted date are exactly what splitting at '-' gives back. */
  lemma FormatDMYSplit(d: CalendarDate)
    ensures Split(FormatDMY(d), '-') == [Pad2(d.day), Pad2(d.month), NatToString(d.year)]
  {
    var parts := [Pad2(d.day), Pad2(d.month), NatToString(d.year)];
    NatToStringNoDash(d.year);
    assert Join(parts, '-') == FormatDMY(d) by {
      assert Join(parts[2..], '-') == NatToString(d.year);
      assert parts[1..][1..] == parts[2..];
    }
    SplitJoin(parts, '-');
  }

  /** Days since 1970-01-01 of a proleptic Gregorian date whose month is 1-12
      (a day outside the month's length simply runs on into the following days). */
  function DaysFromCivil(y: int, m: int, d: int): int
    requires 1 <= m <= 12
  {
    var y' := if m <= 2 then y - 1 else y;
    var era := y' / 400;
    var yoe := y' % 400;
    var mp := if m > 2 then m - 3 else m + 9;
    var doy := (153 * mp + 2) / 5 + d - 1;
    var doe := yoe * 365 + yoe / 4 - yoe / 100 + doy;
    era * 146097 + doe - 719468
  }

  /** The day number new Date(year, monthIndex, day) stands for: a year from 0 to 99 means
      1900 + year, a month index outside 0-11 moves into neighbouring years, and the day
      counts on from the first of the month. */
  function DateConstructorDay(year: int, monthIndex: int, day: int): int
  {
    var fullYear := if 0 <= year <= 99 then 1900 + year else year;
    DaysFromCivil(fullYear + monthIndex / 12, monthIndex % 12 + 1, 1) + day - 1
  }

  /** date.getTime() || 0 as a sort key: null and Invalid Date sort as 0. */
  function TimeOrZero(d: JsDate): int {
    if d.ValidDate? then d.time else 0
  }

  /** The pending-orders page's parseCustomDate: null for "", otherwise the first three
      '-' fields read with Number as day, month and year and passed to
      new Date(year, month - 1, day); a missing or non-numeric field yields Invalid Date. */
  function ParseCustomDate(s: string): (r: JsDate)
    ensures r.NullDate? <==> s == ""
  {
    if s == "" then NullDate
    else
      var parts := Split(s, '-');
      var day := JsNumber(parts[0]);
      var month := if |parts| > 1 then JsNumber(parts[1]) else None;
      var year := if |parts| > 2 then JsNumber(parts[2]) else None;
      if day.Some? && month.Some? && year.Some? then
        ValidDate(DateConstructorDay(year.value, month.value as int - 1, day.value) * MsPerDay)
      else InvalidDate
  }

  /** Round trip: the page reads every date that FormatDMY writes back as that calendar
      date's midnight. */
  lemma ParseFormatDMY(d: CalendarDate)
    ensures ParseCustomDate(FormatDMY(d)) == ValidDate(DateConstructorDay(d.year, d.month as int - 1, d.day) * MsPerDay)
  {
    FormatDMYSplit(d);
    NatToStringRoundTrip(d.year);
  }

  /** Two dates of the same month and year read back in the order of their days, and to
      the same time value exactly when the days agree. */
  lemma ParseFormatDMYSameMonth(d1: CalendarDate, d2: CalendarDate)
    requires d1.month == d2.month && d1.year == d2.year
    ensures ParseCustomDate(FormatDMY(d1)).ValidDate? && ParseCustomDate(FormatDMY(d2)).ValidDate?
    ensures ParseCustomDate(FormatDMY(d1)).time < ParseCustomDate(FormatDMY(d2)).time <==> d1.day < d2.day
    ensures ParseCustomDate(FormatDMY(d1)).time == ParseCustomDate(FormatDMY(d2)).time <==> d1.day == d2.day
  {
    ParseFormatDMY(d1);
    ParseFormatDMY(d2);
    var k1 := DateConstructorDay(d1.year, d1.month as int - 1, d1.day);
    var k2 := DateConstructorDay(d2.year, d2.month as int - 1, d2.day);
    DayShift(d1.year, d1.month as int - 1, d1.day);
    DayShift(d2.year, d2.month as int - 1, d2.day);
    assert k2 - k1 == d2.day - d1.day;
    ScaleByDay(k1, k2);
  }

  /** The day argument of the Date constructor counts on from the day before the first. */
  lemma DayShift(year: int, monthIndex: int, day: int)
    ensures DateConstructorDay(year, monthIndex, day) == DateConstructorDay(year, monthIndex, 0) + day
  {
  }

  /** The Date constructor reads a year from 0 to 99 as that year of the 1900s. */
  lemma TwoDigitYear(year: int, monthIndex: int, day: int)
    requires 0 <= year <= 99
    ensures DateConstructorDay(year, monthIndex, day) == DateConstructorDay(year + 1900, monthIndex, day)
  {
    var y := 1900 + year + monthIndex / 12;
    assert DateConstructorDay(year, monthIndex, day) == DaysFromCivil(y, monthIndex % 12 + 1, 1) + day - 1;
    assert DateConstructorDay(year + 1900, monthIndex, day) == DaysFromCivil(y, monthIndex % 12 + 1, 1) + day - 1;
  }

  /** Scaling day numbers to milliseconds keeps their order. */
  lemma ScaleByDay(a: int, b: int)
    ensures a < b <==> a * MsPerDay < b * MsPerDay
    ensures a == b <==> a * MsPerDay == b * MsPerDay
  {
  }
}
