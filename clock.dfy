/** Calendar dates and wall-clock times as Python's datetime holds them (years 1 to
    9999, minute precision), the shift from UTC to Nepal Time (UTC+5:45), and the
    strftime layouts the bot prints. Parsing (fromisoformat, strptime) is outside
    the model: callers receive its result as a function from text to an optional
    date-time. */
module Clock {
  import opened Wrappers
  import opened Text

  const MinYear := 1
  const MaxYear := 9999

  const MinutesPerDay := 1440
  /** Nepal Time is 5 hours 45 minutes ahead of UTC. */
  const NptOffset := 5 * 60 + 45

  predicate IsLeapYear(y: int) {
    y % 4 == 0 && (y % 100 != 0 || y % 400 == 0)
  }

  function DaysInMonth(y: int, m: int): (r: int)
    requires 1 <= m <= 12
    ensures 28 <= r <= 31
  {
    if m == 2 then (if IsLeapYear(y) then 29 else 28)
    else if m == 4 || m == 6 || m == 9 || m == 11 then 30
    else 31
  }

  datatype CivilDate = CivilDate(year: int, month: int, day: int) {
    predicate Valid() {
      MinYear <= year <= MaxYear && 1 <= month <= 12 && 1 <= day <= DaysInMonth(year, month)
    }
  }

  /** A datetime.date. */
  type Date = d: CivilDate | d.Valid() witness CivilDate(1, 1, 1)

  const LastDate: Date := CivilDate(MaxYear, 12, 31)

  datatype WallClock = WallClock(date: Date, hour: int, minute: int) {
    predicate Valid() {
      0 <= hour < 24 && 0 <= minute < 60
    }

    /** Minutes since midnight. */
    function TimeOfDay(): int {
      hour * 60 + minute
    }
  }

  /** A datetime.datetime, to the minute. */
  type DateTime = t: WallClock | t.Valid() witness WallClock(CivilDate(1, 1, 1), 0, 0)

  // ---------------------------------------------------------------- day numbers

  function YearLength(y: int): int {
    if IsLeapYear(y) then 366 else 365
  }

  /** Days from 1 January of year 1 to 1 January of year y. */
  function DaysBeforeYear(y: nat): nat {
    if y <= 1 then 0 else DaysBeforeYear(y - 1) + YearLength(y - 1)
  }

  /** Days from 1 January to the first of month m. */
  function DaysBeforeMonth(y: int, m: int): nat
    requires 1 <= m <= 12
  {
    [0, 31, 59, 90, 120, 151, 181, 212, 243, 273, 304, 334][m - 1]
      + (if m > 2 && IsLeapYear(y) then 1 else 0)
  }

  /** The proleptic Gregorian ordinal of a date, counting 1 January of year 1 as 0
      (date.toordinal() - 1). */
  function DayNumber(d: Date): nat {
    DaysBeforeYear(d.year) + DaysBeforeMonth(d.year, d.month) + d.day - 1
  }

  /** Minutes since 1 January of year 1, 00:00. */
  function MinuteNumber(t: DateTime): nat {
    DayNumber(t.date) * MinutesPerDay + t.TimeOfDay()
  }

  /** The following day; there is none after 31 December 9999. */
  function NextDay(d: Date): (r: Option<Date>)
    ensures r.None? <==> d == LastDate
    ensures r.Some? ==> DayNumber(r.value) == DayNumber(d) + 1
  {
    if d.day < DaysInMonth(d.year, d.month) then
      Some(CivilDate(d.year, d.month, d.day + 1))
    else if d.month < 12 then
      var e: Date := CivilDate(d.year, d.month + 1, 1);
      MonthStep(d.year, d.month);
      Some(e)
    else if d.year < MaxYear then
      var e: Date := CivilDate(d.year + 1, 1, 1);
      assert DaysBeforeYear(d.year + 1) == DaysBeforeYear(d.year) + YearLength(d.year);
      Some(e)
    else
      None
  }

  /** A month starts where the one before it ends. */
  lemma MonthStep(y: int, m: int)
    requires 1 <= m < 12
    ensures DaysBeforeMonth(y, m + 1) == DaysBeforeMonth(y, m) + DaysInMonth(y, m)
  {
  }

  /** Different dates have different day numbers, so day numbers order the calendar. */
  lemma DayNumberInjective(d: Date, e: Date)
    requires DayNumber(d) == DayNumber(e)
    ensures d == e
  {
    if d.year < e.year {
      DaysBeforeYearGrows(d.year, e.year);
      assert false;
    } else if e.year < d.year {
      DaysBeforeYearGrows(e.year, d.year);
      assert false;
    } else if d.month != e.month {
      DaysBeforeMonthGrows(d.year, d.month, e.month);
      DaysBeforeMonthGrows(d.year, e.month, d.month);
    }
  }

  /** A whole year of days separates the start of a year from the start of any later one. */
  lemma {:induction false} DaysBeforeYearGrows(y: nat, z: nat)
    requires 1 <= y < z
    ensures DaysBeforeYear(y) + YearLength(y) <= DaysBeforeYear(z)
    decreases z
  {
    if y + 1 < z {
      DaysBeforeYearGrows(y, z - 1);
    }
  }

  lemma DaysBeforeMonthGrows(y: int, m: int, n: int)
    requires 1 <= m < n <= 12
    ensures DaysBeforeMonth(y, m) + DaysInMonth(y, m) <= DaysBeforeMonth(y, n)
  {
  }

  // ---------------------------------------------------------------- UTC to Nepal Time

  /** dt + timedelta(hours=5, minutes=45); None where Python raises OverflowError,
      past the last minute of year 9999. */
  function ShiftToNpt(t: DateTime): (r: Option<DateTime>)
    ensures r.None? <==> t.date == LastDate && t.TimeOfDay() + NptOffset >= MinutesPerDay
    ensures r.Some? ==> MinuteNumber(r.value) == MinuteNumber(t) + NptOffset
    ensures r.Some? ==> r.value.TimeOfDay() == (t.TimeOfDay() + NptOffset) % MinutesPerDay
  {
    var m := t.TimeOfDay() + NptOffset;
    if m < MinutesPerDay then
      var r := AtMinute(t.date, m);
      Some(r)
    else
      match NextDay(t.date)
      case None => None
      case Some(e) =>
        var r := AtMinute(e, m - MinutesPerDay);
        NextDayMinutes(t.date, e, m - MinutesPerDay);
        Some(r)
  }

  /** The time m minutes after midnight on day d. */
  function AtMinute(d: Date, m: int): (r: DateTime)
    requires 0 <= m < MinutesPerDay
    ensures r.date == d && r.TimeOfDay() == m
    ensures MinuteNumber(r) == DayNumber(d) * MinutesPerDay + m
  {
    WallClock(d, m / 60, m % 60)
  }

  lemma NextDayMinutes(d: Date, e: Date, m: int)
    requires DayNumber(e) == DayNumber(d) + 1
    ensures DayNumber(e) * MinutesPerDay + m == DayNumber(d) * MinutesPerDay + MinutesPerDay + m
  {
  }

  // ---------------------------------------------------------------- strftime

  /** Reads back a two-digit field. */
  function FieldValue(s: string): nat {
    DigitsValue(s, 10)
  }

  /** strftime("%H:%M") */
  function FormatHm(t: DateTime): (r: string)
    ensures |r| == 5 && r[2] == ':'
    ensures IsDigits(r[..2]) && IsDigits(r[3..])
    ensures FieldValue(r[..2]) == t.hour && FieldValue(r[3..]) == t.minute
  {
    ShortNumeral(t.hour);
    ShortNumeral(t.minute);
    var r := Pad(t.hour, 2) + ":" + Pad(t.minute, 2);
    assert r[..2] == Pad(t.hour, 2) && r[3..] == Pad(t.minute, 2);
    r
  }

  /** "HH:MM": two digits, a colon and two digits, for an hour below 24 and a
      minute below 60. */
  predicate IsClock(s: string) {
    && |s| == 5 && s[2] == ':' && IsDigits(s[..2]) && IsDigits(s[3..])
    && FieldValue(s[..2]) < 24 && FieldValue(s[3..]) < 60
  }

  /** An "HH:MM" text that reads m minutes after midnight shows exactly the hour
      and the minute of m. */
  lemma ClockFields(s: string, m: int)
    requires IsClock(s) && ClockReading(s) == m
    ensures FieldValue(s[..2]) == m / 60 && FieldValue(s[3..]) == m % 60
  {
  }

  /** The time of day an "HH:MM" text shows, in minutes after midnight. */
  function ClockReading(s: string): nat
    requires |s| == 5
  {
    FieldValue(s[..2]) * 60 + FieldValue(s[3..])
  }

  /** "%H:%M" reads back as the time of day it was printed from. */
  lemma HmReading(t: DateTime)
    ensures IsClock(FormatHm(t)) && ClockReading(FormatHm(t)) == t.TimeOfDay()
  {
    var r := FormatHm(t);
    assert r[..2] == r[..5][..2];
  }

  /** strftime("%Y-%m-%d %H:%M"). The year is printed without padding, as glibc does. */
  function FormatYmdHm(t: DateTime): (r: string)
    ensures |r| >= 13 && r[|r| - 6] == ' ' && r[|r| - 9] == '-' && r[|r| - 12] == '-'
    ensures r[|r| - 5..] == FormatHm(t)
    ensures FieldValue(r[|r| - 11..|r| - 9]) == t.date.month
    ensures FieldValue(r[|r| - 8..|r| - 6]) == t.date.day
    ensures FieldValue(r[..|r| - 12]) == t.date.year
    ensures IsDigits(r[..|r| - 12]) && IsDigits(r[|r| - 11..|r| - 9]) && IsDigits(r[|r| - 8..|r| - 6])
  {
    var y := NatToString(t.date.year);
    var tail := DateTail(t);
    var r := y + tail;
    AfterYear(y, tail);
    r
  }

  /** s reads as "<year>-MM-DD HH:MM" for the date and time of t: digits in every
      field, and each field's value the one of t. */
  predicate ShowsDateTime(s: string, t: DateTime) {
    && |s| >= 13 && s[|s| - 12] == '-' && s[|s| - 9] == '-' && s[|s| - 6] == ' '
    && IsDigits(s[..|s| - 12]) && IsDigits(s[|s| - 11..|s| - 9]) && IsDigits(s[|s| - 8..|s| - 6])
    && IsClock(s[|s| - 5..])
    && FieldValue(s[..|s| - 12]) == t.date.year
    && FieldValue(s[|s| - 11..|s| - 9]) == t.date.month
    && FieldValue(s[|s| - 8..|s| - 6]) == t.date.day
    && ClockReading(s[|s| - 5..]) == t.TimeOfDay()
  }

  /** "%Y-%m-%d %H:%M" reads back as the date and time it was printed from. */
  lemma YmdHmReading(t: DateTime)
    ensures ShowsDateTime(FormatYmdHm(t), t)
  {
    HmReading(t);
  }

  /** "-%m-%d %H:%M": everything after the year. */
  function DateTail(t: DateTime): (r: string)
    ensures |r| == 12 && r[0] == '-' && r[3] == '-' && r[6] == ' '
    ensures FieldValue(r[1..3]) == t.date.month && FieldValue(r[4..6]) == t.date.day
    ensures IsDigits(r[1..3]) && IsDigits(r[4..6])
    ensures r[7..] == FormatHm(t)
  {
    ShortNumeral(t.date.month);
    ShortNumeral(t.date.day);
    var mo := Pad(t.date.month, 2);
    var d := Pad(t.date.day, 2);
    var hm := FormatHm(t);
    var r := "-" + mo + "-" + d + " " + hm;
    assert r[1..3] == mo && r[4..6] == d && r[7..] == hm;
    r
  }

  /** Positions counted from the end of y + tail fall inside tail. */
  lemma AfterYear(y: string, tail: string)
    requires |tail| == 12
    ensures var r := y + tail;
      && r[..|r| - 12] == y && r[|r| - 6] == tail[6] && r[|r| - 9] == tail[3] && r[|r| - 12] == tail[0]
      && r[|r| - 11..|r| - 9] == tail[1..3] && r[|r| - 8..|r| - 6] == tail[4..6] && r[|r| - 5..] == tail[7..]
  {
  }
}
