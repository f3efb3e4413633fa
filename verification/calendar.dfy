/** The parts of Python's `datetime.date` that the program uses: the
    proleptic Gregorian day number behind `today - date`, the ISO week number
    from `isocalendar()`, and `str(date)`. The arithmetic follows the
    algorithms of CPython's `datetime` module. */
module Calendar {
  import opened Text

  datatype YearMonthDay = YearMonthDay(year: int, month: int, day: int)

  /** A `datetime.date`: years 1 to 9999 and a day that exists in its month. */
  type Date = d: YearMonthDay | ValidDate(d) witness YearMonthDay(1, 1, 1)

  predicate ValidDate(d: YearMonthDay) {
    1 <= d.year <= 9999 && 1 <= d.month <= 12 && 1 <= d.day <= DaysInMonth(d.year, d.month)
  }

  predicate IsLeap(year: int) {
    year % 4 == 0 && (year % 100 != 0 || year % 400 == 0)
  }

  function DaysInMonth(year: int, month: int): int
    requires 1 <= month <= 12
  {
    if month == 2 && IsLeap(year) then 29
    else [31, 28, 31, 30, 31, 30, 31, 31, 30, 31, 30, 31][month - 1]
  }

  function DaysBeforeMonth(year: int, month: int): int
    requires 1 <= month <= 12
  {
    [0, 31, 59, 90, 120, 151, 181, 212, 243, 273, 304, 334][month - 1]
      + (if month > 2 && IsLeap(year) then 1 else 0)
  }

  /** Days in the years before `year` (floor division, as in Python). */
  function DaysBeforeYear(year: int): int {
    var y := year - 1;
    y * 365 + y / 4 - y / 100 + y / 400
  }

  /** `date.toordinal()`: 1 for 0001-01-01, one more for each following day. */
  function Ordinal(d: Date): int {
    DaysBeforeYear(d.year) + DaysBeforeMonth(d.year, d.month) + d.day
  }

  /** The day number of the Monday that starts ISO week 1 of `year`. */
  function IsoWeek1Monday(year: int): int {
    var firstDay := DaysBeforeYear(year) + 1;
    var firstWeekday := (firstDay + 6) % 7;
    var monday := firstDay - firstWeekday;
    if firstWeekday > 3 then monday + 7 else monday
  }

  /** `date.isocalendar()[1]`: the ISO week number. */
  function IsoWeek(d: Date): int {
    var today := Ordinal(d);
    var week := (today - IsoWeek1Monday(d.year)) / 7;
    if week < 0 then (today - IsoWeek1Monday(d.year - 1)) / 7 + 1
    else if week >= 52 && today >= IsoWeek1Monday(d.year + 1) then 1
    else week + 1
  }

  /** No month has more than 31 days. */
  lemma DayBound(d: Date)
    ensures d.day <= 31
  {
  }

  /** A year has at least 364 days (in fact 365 or 366). */
  lemma YearLength(year: int)
    ensures DaysBeforeYear(year + 1) - DaysBeforeYear(year) >= 364
  {
    assert (year - 1) / 4 <= year / 4;
    assert year / 100 <= (year - 1) / 100 + 1;
    assert (year - 1) / 400 <= year / 400;
  }

  /** The Monday of ISO week 1 is within three days of New Year's Day. */
  lemma Week1MondayNear(year: int)
    ensures DaysBeforeYear(year) - 2 <= IsoWeek1Monday(year) <= DaysBeforeYear(year) + 4
  {
  }

  /** ISO weeks are numbered from 1. */
  lemma IsoWeekPositive(d: Date)
    ensures IsoWeek(d) >= 1
  {
    YearLength(d.year - 1);
    Week1MondayNear(d.year - 1);
  }

  /** `str(date)`: `YYYY-MM-DD` with zero padding. */
  function IsoFormat(d: Date): string {
    ZeroPadded(d.year, 4) + "-" + ZeroPadded(d.month, 2) + "-" + ZeroPadded(d.day, 2)
  }

  /** Calendar order of dates. */
  predicate Before(a: Date, b: Date) {
    a.year < b.year ||
    (a.year == b.year && (a.month < b.month || (a.month == b.month && a.day < b.day)))
  }
}
