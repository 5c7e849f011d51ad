/**
 * The part of Python's `datetime.date` that the timesheet relies on:
 * the proleptic Gregorian calendar, `toordinal()`, `weekday()`,
 * adding `timedelta(days=1)` and the difference of two dates in days.
 */
module Dates {

  /** Python's MINYEAR and MAXYEAR: `date(...)` raises ValueError outside them. */
  const MinYear := 1
  const MaxYear := 9999

  datatype Date = Date(year: int, month: int, day: int)

  predicate IsLeapYear(y: int) {
    y % 4 == 0 && (y % 100 != 0 || y % 400 == 0)
  }

  function DaysInYear(y: int): (n: int)
    ensures n == 365 || n == 366
    ensures n == 366 <==> IsLeapYear(y)
  {
    if IsLeapYear(y) then 366 else 365
  }

  function DaysInMonth(y: int, m: int): (n: int)
    requires 1 <= m <= 12
    ensures 28 <= n <= 31
    ensures m == 2 ==> (n == 29 <==> IsLeapYear(y))
  {
    if m == 2 then (if IsLeapYear(y) then 29 else 28)
    else if m == 4 || m == 6 || m == 9 || m == 11 then 30
    else 31
  }

  /** Days of the year before the first of month `m` (1 <= m <= 12). */
  function DaysBeforeMonth(y: int, m: int): int
    requires 1 <= m <= 12
  {
    var table := [0, 31, 59, 90, 120, 151, 181, 212, 243, 273, 304, 334];
    table[m - 1] + (if m > 2 && IsLeapYear(y) then 1 else 0)
  }

  /** Days before January 1 of year `y`, counted from January 1 of year 1: the lengths of
      the years before it. DaysBeforeYearClosedForm gives the closed form Python computes. */
  function DaysBeforeYear(y: int): int
    requires y >= 1
  {
    if y == 1 then 0 else DaysBeforeYear(y - 1) + DaysInYear(y - 1)
  }

  /** A year, month and day that name a day of the calendar (the year may lie past MaxYear). */
  predicate WellFormed(d: Date) {
    d.year >= 1 && 1 <= d.month <= 12 && 1 <= d.day <= DaysInMonth(d.year, d.month)
  }

  /** What `date(year, month, day)` accepts. */
  predicate ValidDate(d: Date) {
    WellFormed(d) && d.year <= MaxYear
  }

  /** `date.toordinal()`: January 1 of year 1 is day 1. */
  function Ordinal(d: Date): (n: int)
    requires WellFormed(d)
    ensures DaysBeforeYear(d.year) < n <= DaysBeforeYear(d.year) + DaysInYear(d.year)
  {
    DaysBeforeYear(d.year) + DaysBeforeMonth(d.year, d.month) + d.day
  }

  /** Zero-based position of `d` in its year: 0 for January 1. */
  function DayOfYear(d: Date): int
    requires WellFormed(d)
  {
    DaysBeforeMonth(d.year, d.month) + d.day - 1
  }

  /** `date.weekday()`: Monday is 0 and Sunday is 6. */
  function Weekday(d: Date): (w: int)
    requires WellFormed(d)
    ensures 0 <= w < 7
  {
    (Ordinal(d) + 6) % 7
  }

  /** `d + timedelta(days=1)`. */
  function NextDay(d: Date): (r: Date)
    requires WellFormed(d)
    ensures WellFormed(r)
  {
    if d.day < DaysInMonth(d.year, d.month) then Date(d.year, d.month, d.day + 1)
    else if d.month < 12 then Date(d.year, d.month + 1, 1)
    else Date(d.year + 1, 1, 1)
  }

  /** `d + timedelta(days=n)`, one day at a time. */
  function AddDays(d: Date, n: nat): (r: Date)
    requires WellFormed(d)
    ensures WellFormed(r)
  {
    if n == 0 then d
    else NextDay(AddDays(d, n - 1))
  }

  function Jan1(y: int): Date { Date(y, 1, 1) }

  function Dec31(y: int): Date { Date(y, 12, 31) }

  /** How each term of DaysBeforeYear steps from one year to the next. */
  lemma DivSteps(y: int)
    requires y >= 1
    ensures y / 4 - (y - 1) / 4 == if y % 4 == 0 then 1 else 0
    ensures y / 100 - (y - 1) / 100 == if y % 100 == 0 then 1 else 0
    ensures y / 400 - (y - 1) / 400 == if y % 400 == 0 then 1 else 0
  {
  }

  /** Python's `_days_before_year`: 365 days a year plus one for each leap year before `y`. */
  lemma {:induction false} DaysBeforeYearClosedForm(y: int)
    requires y >= 1
    ensures var y1 := y - 1; DaysBeforeYear(y) == y1 * 365 + y1 / 4 - y1 / 100 + y1 / 400
  {
    if y > 1 {
      DaysBeforeYearClosedForm(y - 1);
      DivSteps(y - 1);
    }
  }

  /** `(date(y + 1, 1, 1) - date(y, 1, 1)).days` is the length of year `y`. */
  lemma YearLength(y: int)
    requires y >= 1
    ensures Ordinal(Jan1(y + 1)) - Ordinal(Jan1(y)) == DaysInYear(y)
  {
    assert DaysBeforeYear(y + 1) == DaysBeforeYear(y) + DaysInYear(y);
  }

  /** Adding one day moves the ordinal up by one and stays a calendar day. */
  lemma NextDayOrdinal(d: Date)
    requires WellFormed(d)
    ensures WellFormed(NextDay(d))
    ensures Ordinal(NextDay(d)) == Ordinal(d) + 1
  {
    if d.day == DaysInMonth(d.year, d.month) && d.month == 12 {
      YearLength(d.year);
    }
  }

  /** Every calendar day lies within its year's 365 or 366 positions. */
  lemma DayOfYearBound(d: Date)
    requires WellFormed(d)
    ensures 0 <= DayOfYear(d) < DaysInYear(d.year)
    ensures DayOfYear(d) == DaysInYear(d.year) - 1 <==> d == Dec31(d.year)
  {
  }

  /** Before December 31, adding one day stays in the year and moves one position on. */
  lemma NextDayInYear(d: Date)
    requires WellFormed(d)
    requires DayOfYear(d) < DaysInYear(d.year) - 1
    ensures NextDay(d).year == d.year
    ensures DayOfYear(NextDay(d)) == DayOfYear(d) + 1
  {
    DayOfYearBound(d);
  }

  /** January 1 plus `k` days, for `k` below the year's length, is the day at position `k`
      of the same year, `k` days after January 1 on the ordinal scale. */
  lemma {:induction false} AddDaysInYear(y: int, k: nat)
    requires y >= 1 && k < DaysInYear(y)
    ensures AddDays(Jan1(y), k).year == y
    ensures DayOfYear(AddDays(Jan1(y), k)) == k
    ensures Ordinal(AddDays(Jan1(y), k)) == Ordinal(Jan1(y)) + k
  {
    if k > 0 {
      AddDaysInYear(y, k - 1);
      var prev := AddDays(Jan1(y), k - 1);
      NextDayInYear(prev);
      NextDayOrdinal(prev);
    }
  }

  /** Two days of the same year at the same position are the same day. */
  lemma DayOfYearInjective(d: Date, e: Date)
    requires WellFormed(d) && WellFormed(e) && d.year == e.year
    requires DayOfYear(d) == DayOfYear(e)
    ensures d == e
  {
  }

  /** The weekday advances by one, cyclically, from one day to the next. */
  lemma NextDayWeekday(d: Date)
    requires WellFormed(d)
    ensures Weekday(NextDay(d)) == (Weekday(d) + 1) % 7
  {
    var n := Ordinal(d) + 6;
    NextDayOrdinal(d);
    assert Weekday(NextDay(d)) == (n + 1) % 7;
    ModSevenStep(n);
  }

  lemma ModSevenStep(n: int)
    ensures (n + 1) % 7 == (n % 7 + 1) % 7
  {
  }
}
