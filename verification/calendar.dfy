/** Gregorian calendar dates, as the samples carry them, and the non-leap day-of-year ordinal
    the wheel's month ticks are laid out on. */
module Calendar {

  datatype Date = Date(year: int, month: int, day: int)

  predicate IsLeapYear(y: int) {
    y % 4 == 0 && (y % 100 != 0 || y % 400 == 0)
  }

  function DaysInMonth(y: int, m: int): (n: int)
    requires 1 <= m <= 12
    ensures 28 <= n <= 31
    ensures n == 29 <==> m == 2 && IsLeapYear(y)
  {
    if m == 2 then (if IsLeapYear(y) then 29 else 28)
    else if m == 4 || m == 6 || m == 9 || m == 11 then 30
    else 31
  }

  /** A date a sample can carry (the range of Python's datetime). */
  predicate ValidDate(d: Date) {
    1 <= d.year <= 9999 && 1 <= d.month <= 12 && 1 <= d.day <= DaysInMonth(d.year, d.month)
  }

  /** The leap-day test of the sequencer: the formatted date contains "-02-29". */
  predicate IsLeapDay(d: Date)
    ensures IsLeapDay(d) && ValidDate(d) ==> IsLeapYear(d.year)
  {
    d.month == 2 && d.day == 29
  }

  /** The calendar day after d. */
  function NextDay(d: Date): (r: Date)
    requires ValidDate(d)
    ensures ValidDate(r) || d == Date(9999, 12, 31)
    ensures r.year == d.year <==> !(d.month == 12 && d.day == 31)
  {
    if d.day < DaysInMonth(d.year, d.month) then Date(d.year, d.month, d.day + 1)
    else if d.month < 12 then Date(d.year, d.month + 1, 1)
    else Date(d.year + 1, 1, 1)
  }

  /** Days before the first of month m in a non-leap year; the same table as the month ticks. */
  function MonthStart(m: int): (r: nat)
    requires 1 <= m <= 12
    ensures r < 365
  {
    [0, 31, 59, 90, 120, 151, 181, 212, 243, 273, 304, 334][m - 1]
  }

  /** The table accumulates the month lengths of a non-leap year: each month starts where the
      previous one ends. */
  lemma MonthStartAccumulates(m: int)
    requires 1 < m <= 12
    ensures MonthStart(m) == MonthStart(m - 1) + DaysInMonth(1, m - 1)
    ensures MonthStart(12) + DaysInMonth(1, 12) == 365
  {
  }

  /** 0-based day of year counted as if February had 28 days: Feb 29 shares its ordinal with Mar 1. */
  function NoLeapOrdinal(d: Date): int
    requires 1 <= d.month <= 12
  {
    MonthStart(d.month) + d.day - 1
  }

  lemma NoLeapOrdinalRange(d: Date)
    requires ValidDate(d)
    ensures 0 <= NoLeapOrdinal(d) <= 364
    ensures IsLeapDay(d) ==> NoLeapOrdinal(d) == NoLeapOrdinal(Date(d.year, 3, 1))
    ensures d.month == 12 && d.day == 31 ==> NoLeapOrdinal(d) == 364
  {
  }

  /** Stepping to the next day inside one year advances the non-leap ordinal by one,
      except when leaving Feb 29, which does not advance it. */
  lemma NextDayOrdinal(d: Date)
    requires ValidDate(d)
    requires NextDay(d).year == d.year
    ensures NoLeapOrdinal(NextDay(d)) == NoLeapOrdinal(d) + (if IsLeapDay(d) then 0 else 1)
  {
    if d.day == DaysInMonth(d.year, d.month) {
      assert d.month < 12;
      assert MonthStart(d.month + 1) == MonthStart(d.month) + DaysInMonth(d.year, d.month) - (if IsLeapDay(d) then 1 else 0);
    }
  }
}
