/** How the two ledgers' month queries relate: on dates a bot writes, the
    half-open date range and the `YYYY-MM-` prefix pick the same shifts, so
    the month totals agree, and the day list of shiftbot_admin_siw1_rd3 is the
    day list of shiftbot_clean with its zero-minute entries dropped. */
module Variants {
  import opened Seqs
  import opened Ledger
  import opened Totals
  import CleanDb
  import AdminDb

  predicate PositiveEntry(e: DayEntry)
  {
    e.minutes > 0
  }

  ghost predicate AllWellFormed(shifts: seq<ShiftRow>)
  {
    forall i :: 0 <= i < |shifts| ==> WellFormed(shifts[i].workDate)
  }

  /** Both month selections keep the same shifts in the same order. */
  lemma MonthSelectionsAgree(shifts: seq<ShiftRow>, userId: int, year: int, month: int)
    requires AllWellFormed(shifts)
    ensures Filter(shifts, AdminDb.InMonth(userId, year, month)) == CleanDb.MonthShifts(shifts, userId, year, month)
  {
    var (start, end) := CleanDb.MonthBounds(year, month);
    forall i | 0 <= i < |shifts|
      ensures AdminDb.InMonth(userId, year, month)(shifts[i]) == CleanDb.HalfOpen(userId, start, end)(shifts[i])
    {
      MonthFiltersAgree(shifts[i].workDate, year, month);
    }
    FilterExt(shifts, AdminDb.InMonth(userId, year, month), CleanDb.HalfOpen(userId, start, end));
  }

  /** The two variants report the same minutes for a month. */
  lemma MonthMinutesAgree(shifts: seq<ShiftRow>, userId: int, year: int, month: int)
    requires AllWellFormed(shifts)
    ensures AdminDb.MonthMinutes(shifts, userId, year, month) == CleanDb.MonthMinutes(shifts, userId, year, month)
  {
    MonthSelectionsAgree(shifts, userId, year, month);
  }

  /** Dropping the zero entries of a list of closed shifts' days gives the
      list of the shifts with positive minutes. */
  lemma {:induction false} DropZeroDays(s: seq<ShiftRow>)
    ensures Filter(DayEntries(Filter(s, Closed)), PositiveEntry) == DayEntries(Filter(s, AdminDb.Worked))
    decreases |s|
  {
    if s != [] {
      var init, x := s[..|s| - 1], s[|s| - 1];
      DropZeroDays(init);
      var closed := Filter(init, Closed);
      var worked := Filter(init, AdminDb.Worked);
      var tail := if AdminDb.Worked(x) then [x] else [];
      assert Filter(s, Closed) == closed + (if Closed(x) then [x] else []);
      assert Filter(s, AdminDb.Worked) == worked + tail;
      assert PositiveEntry(DayOf(x)) == AdminDb.Worked(x);
      if Closed(x) {
        calc {
          Filter(DayEntries(closed + [x]), PositiveEntry);
          { DayEntriesSnoc(closed, x); }
          Filter(DayEntries(closed) + [DayOf(x)], PositiveEntry);
          { FilterConcat(DayEntries(closed), [DayOf(x)], PositiveEntry); }
          Filter(DayEntries(closed), PositiveEntry) + Filter([DayOf(x)], PositiveEntry);
          { FilterOne(DayOf(x), PositiveEntry); }
          DayEntries(worked) + (if AdminDb.Worked(x) then [DayOf(x)] else []);
          { if AdminDb.Worked(x) {
              DayEntriesSnoc(worked, x);
            } else {
              assert worked + tail == worked;
            }
          }
          DayEntries(worked + tail);
        }
        assert Filter(s, Closed) == closed + [x];
      } else {
        assert !AdminDb.Worked(x);
        assert Filter(s, Closed) == closed;
        assert Filter(s, AdminDb.Worked) == worked;
      }
    }
  }

  /** On dates a bot writes, the day list of shiftbot_admin_siw1_rd3 is the
      day list of shiftbot_clean without its zero-minute entries. */
  lemma MonthDaysAgree(shifts: seq<ShiftRow>, userId: int, year: int, month: int)
    requires AllWellFormed(shifts)
    ensures AdminDb.MonthDays(shifts, userId, year, month)
            == Filter(CleanDb.ClosedDays(CleanDb.MonthShifts(shifts, userId, year, month)), PositiveEntry)
  {
    MonthSelectionsAgree(shifts, userId, year, month);
    DropZeroDays(SortBy(CleanDb.MonthShifts(shifts, userId, year, month), ByDate));
  }
}
