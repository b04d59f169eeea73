/** The proleptic Gregorian calendar of Python's `datetime`: dates with a real
    day of the month, numbered consecutively, and local-clock timestamps as
    seconds from 0001-01-01 00:00. */
module Calendar {
  import opened Ledger

  predicate IsLeap(y: int)
  {
    y % 4 == 0 && (y % 100 != 0 || y % 400 == 0)
  }

  function DaysInMonth(y: int, m: int): int
    requires 1 <= m <= 12
  {
    if m == 2 then (if IsLeap(y) then 29 else 28)
    else if m == 4 || m == 6 || m == 9 || m == 11 then 30
    else 31
  }

  function DaysInYear(y: int): int
  {
    if IsLeap(y) then 366 else 365
  }

  /** Days of the year before the first of month `m` (13 stands for the year's end). */
  function DaysBefore(y: int, m: int): int
    requires 1 <= m <= 13
  {
    [0, 31, 59, 90, 120, 151, 181, 212, 243, 273, 304, 334, 365][m - 1]
      + (if m > 2 && IsLeap(y) then 1 else 0)
  }

  /** A date `datetime.date` accepts. */
  predicate ValidDate(d: Date)
  {
    1 <= d.year <= 9999 && 1 <= d.month <= 12 && 1 <= d.day <= DaysInMonth(d.year, d.month)
  }

  /** Days from 0001-01-01 to the first of January of `y`. */
  function YearStart(y: int): int
  {
    365 * (y - 1) + (y - 1) / 4 - (y - 1) / 100 + (y - 1) / 400
  }

  /** Days from 0001-01-01 to `d`. */
  function DayNumber(d: Date): int
    requires 1 <= d.month <= 12
  {
    YearStart(d.year) + DaysBefore(d.year, d.month) + d.day - 1
  }

  /** The timestamp of `d` at 00:00. */
  function DayStart(d: Date): int
    requires 1 <= d.month <= 12
  {
    DayNumber(d) * 86400
  }

  /** `d + timedelta(days=1)`. */
  function NextDay(d: Date): Date
    requires ValidDate(d)
  {
    if d.day < DaysInMonth(d.year, d.month) then Date(d.year, d.month, d.day + 1)
    else NextMonthStart(d.year, d.month)
  }

  // ----------------------------------------------------------------- Lemmas

  /** The month table adds up: each month starts where the previous one ends,
      and the months fill the year. */
  lemma DaysBeforeStep(y: int, m: int)
    requires 1 <= m <= 12
    ensures DaysBefore(y, m + 1) == DaysBefore(y, m) + DaysInMonth(y, m)
    ensures DaysBefore(y, 13) == DaysInYear(y)
  {
  }

  /** A year is its number of days long. */
  lemma YearStartStep(y: int)
    ensures YearStart(y + 1) == YearStart(y) + DaysInYear(y)
  {
    assert y / 4 - (y - 1) / 4 == if y % 4 == 0 then 1 else 0;
    assert y / 100 - (y - 1) / 100 == if y % 100 == 0 then 1 else 0;
    assert y / 400 - (y - 1) / 400 == if y % 400 == 0 then 1 else 0;
  }

  lemma {:induction false} YearStartMonotone(a: int, b: int)
    requires a < b
    ensures YearStart(a) + DaysInYear(a) <= YearStart(b)
    decreases b - a
  {
    YearStartStep(a);
    if a + 1 < b {
      YearStartMonotone(a + 1, b);
    }
  }

  lemma {:induction false} DaysBeforeMonotone(y: int, a: int, b: int)
    requires 1 <= a < b <= 13
    ensures DaysBefore(y, a) + DaysInMonth(y, a) <= DaysBefore(y, b)
    decreases b - a
  {
    DaysBeforeStep(y, a);
    if a + 1 < b {
      DaysBeforeMonotone(y, a + 1, b);
    }
  }

  /** A valid date lies inside its year. */
  lemma DayInYear(d: Date)
    requires ValidDate(d)
    ensures YearStart(d.year) <= DayNumber(d) < YearStart(d.year) + DaysInYear(d.year)
  {
    DaysBeforeMonotone(d.year, d.month, 13);
  }

  /** Later valid dates have larger day numbers: the numbering follows the
      calendar order exactly. */
  lemma DayNumberOrder(a: Date, b: Date)
    requires ValidDate(a) && ValidDate(b)
    ensures DateLe(a, b) <==> DayNumber(a) <= DayNumber(b)
    ensures DateLt(a, b) <==> DayNumber(a) < DayNumber(b)
  {
    if a.year != b.year {
      var (lo, hi) := if a.year < b.year then (a, b) else (b, a);
      DayInYear(lo);
      DayInYear(hi);
      YearStartMonotone(lo.year, hi.year);
    } else if a.month != b.month {
      var (lo, hi) := if a.month < b.month then (a, b) else (b, a);
      DaysBeforeMonotone(a.year, lo.month, hi.month);
    }
  }

  /** The next day is a valid date numbered one higher, except after 9999-12-31. */
  lemma NextDaySpec(d: Date)
    requires ValidDate(d) && DateLt(d, Date(9999, 12, 31))
    ensures ValidDate(NextDay(d))
    ensures DayNumber(NextDay(d)) == DayNumber(d) + 1
    ensures DateLt(d, NextDay(d))
  {
    if d.day == DaysInMonth(d.year, d.month) {
      NextMonthStartSpec(d.year, d.month);
    }
  }

  /** The first of the next month comes `DaysInMonth` days after the first of the month. */
  lemma NextMonthStartSpec(y: int, m: int)
    requires 1 <= y <= 9999 && 1 <= m <= 12 && (y < 9999 || m < 12)
    ensures ValidDate(NextMonthStart(y, m))
    ensures DayNumber(NextMonthStart(y, m)) == DayNumber(Date(y, m, 1)) + DaysInMonth(y, m)
  {
    DaysBeforeStep(y, m);
    if m == 12 {
      YearStartStep(y);
    }
  }
}
