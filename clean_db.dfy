/** shiftbot_clean/db.py: the ledger with a full audit log. Registration
    overwrites the name, a shift's minutes count whenever both timestamps are
    set (zero-minute shifts included), months are half-open date ranges and
    per-user totals come out in user id order. */
module CleanDb {
  import opened Wrappers
  import opened Seqs
  import opened Ledger
  import opened Totals

  /** An `events` row: an audit entry the core only appends. */
  datatype Event = Event(userId: int, workDate: Date, kind: string, ts: int,
                         lat: Option<real>, lon: Option<real>, meta: Option<string>)

  // -------------------------------------------------------- Periods

  /** `_month_bounds`: the first day of the month and the first day of the next. */
  function MonthBounds(year: int, month: int): (Date, Date)
  {
    (Date(year, month, 1), NextMonthStart(year, month))
  }

  /** The bounds are the 1st of the month and the 1st of the following month,
      December rolling over into January of the next year; between them lie
      exactly the dates of the month. */
  lemma MonthBoundsSpec(year: int, month: int, d: Date)
    requires 1 <= month <= 12
    ensures var (start, end) := MonthBounds(year, month);
            && start == Date(year, month, 1) && end.day == 1 && 1 <= end.month <= 12
            && end.year * 12 + end.month == year * 12 + month + 1
            && (WellFormed(d) ==> (DateLe(start, d) && DateLt(d, end) <==> d.year == year && d.month == month))
  {
  }

  /** `user_id=? AND work_date>=? AND work_date<?`. */
  function HalfOpen(userId: int, lo: Date, hi: Date): ShiftRow -> bool
  {
    (r: ShiftRow) => r.userId == userId && DateLe(lo, r.workDate) && DateLt(r.workDate, hi)
  }

  /** `user_id=? AND work_date BETWEEN ? AND ?`. */
  function Between(userId: int, lo: Date, hi: Date): ShiftRow -> bool
  {
    (r: ShiftRow) => r.userId == userId && DateLe(lo, r.workDate) && DateLe(r.workDate, hi)
  }

  function MonthShifts(shifts: seq<ShiftRow>, userId: int, year: int, month: int): seq<ShiftRow>
  {
    Filter(shifts, HalfOpen(userId, MonthBounds(year, month).0, MonthBounds(year, month).1))
  }

  /** Minutes worked in a month: every shift of the month adds its minutes. */
  function MonthMinutes(shifts: seq<ShiftRow>, userId: int, year: int, month: int): int
  {
    SumOf(MonthShifts(shifts, userId, year, month), ShiftMinutes)
  }

  /** The closed shifts of `rows`, ordered by work date, as day entries. */
  function ClosedDays(rows: seq<ShiftRow>): seq<DayEntry>
  {
    DayEntries(Filter(SortBy(rows, ByDate), Closed))
  }

  /** The period of `month_minutes_by_user`: from `start_day` either to the end
      of the month (half-open) or up to `end_day` inclusive, and the department
      when one is given. */
  function InPeriod(year: int, month: int, startDay: int, endDay: Option<int>, department: Option<string>): JoinedRow -> bool
  {
    (r: JoinedRow) =>
      && DateLe(Date(year, month, startDay), r.workDate)
      && (if endDay.None? then DateLt(r.workDate, NextMonthStart(year, month))
          else DateLe(r.workDate, Date(year, month, endDay.value)))
      && (Truthy(department) ==> r.department == department)
  }

  /** The rows `month_minutes_by_user` reads, in user id then date order. */
  function PeriodRows(users: seq<UserRow>, shifts: seq<ShiftRow>, year: int, month: int,
                      startDay: int, endDay: Option<int>, department: Option<string>): seq<JoinedRow>
  {
    SortBy(Filter(Join(users, shifts), InPeriod(year, month, startDay, endDay, department)), ByUserDate)
  }

  /** Its result: one total per user over the period's closed shifts. */
  function PeriodTotals(users: seq<UserRow>, shifts: seq<ShiftRow>, year: int, month: int,
                        startDay: int, endDay: Option<int>, department: Option<string>): seq<UserTotal>
  {
    Accumulate(Filter(PeriodRows(users, shifts, year, month, startDay, endDay, department), JoinedClosed), JoinedMinutes)
  }

  // ------------------------------------------------------ Answers

  /** The `(ok, message)` pair `set_check_in` returns. */
  function CheckInReply(v: Verdict): (bool, string)
  {
    if v == Accepted then (true, "OK") else (false, "Приход уже отмечен.")
  }

  /** The `(ok, message)` pair `set_check_out` returns. */
  function CheckOutReply(v: Verdict): (bool, string)
  {
    match v
    case Accepted => (true, "OK")
    case AlreadyCheckedOut => (false, "Уход уже отмечен.")
    case _ => (false, "Сначала отметьте приход.")
  }

  // ----------------------------------------------------- The database

  class Database {
    var users: seq<UserRow>
    var shifts: seq<ShiftRow>
    var events: seq<Event>

    ghost predicate Valid()
      reads this
    {
      DistinctTg(users) && LedgerInvariant(shifts)
    }

    /** `init_db` on an empty file. */
    constructor ()
      ensures Valid() && users == [] && shifts == [] && events == []
    {
      users, shifts, events := [], [], [];
    }

    /** `create_user`: insert if absent, then overwrite the name; returns the
        user's id and row. */
    method CreateUser(tgId: int, fullName: string) returns (id: int, u: UserRow)
      requires Valid()
      modifies this
      ensures Valid()
      ensures users == RenameUser(InsertUser(old(users), tgId, fullName), tgId, fullName)
      ensures shifts == old(shifts) && events == old(events)
      ensures UserById(users, id) == Some(u) && u.tgId == tgId && u.fullName == fullName
    {
      RegisterUserSpec(users, tgId, fullName);
      users := InsertUser(users, tgId, fullName);
      users := RenameUser(users, tgId, fullName);
      var i := FindTg(users, tgId).value;
      id, u := i + 1, users[i];
    }

    /** `set_user_department`. */
    method SetUserDepartment(userId: int, department: string)
      requires Valid()
      modifies this
      ensures Valid()
      ensures users == SetDepartment(old(users), userId, department)
      ensures shifts == old(shifts) && events == old(events)
    {
      users := SetDepartment(users, userId, department);
    }

    /** `get_or_create_shift`: ensures the (user, date) row and returns it. */
    method GetOrCreateShift(userId: int, date: Date) returns (row: ShiftRow)
      requires Valid()
      modifies this
      ensures Valid()
      ensures shifts == EnsureShift(old(shifts), userId, date)
      ensures users == old(users) && events == old(events)
      ensures row == shifts[FindShift(shifts, userId, date).value]
    {
      EnsureShiftInvariant(shifts, userId, date);
      shifts := EnsureShift(shifts, userId, date);
      row := shifts[FindShift(shifts, userId, date).value];
    }

    /** `set_check_in`. */
    method SetCheckIn(userId: int, date: Date, ts: int) returns (ok: bool, msg: string)
      requires Valid()
      modifies this
      ensures Valid()
      ensures (ok, msg) == CheckInReply(CheckIn(old(shifts), userId, date, ts).0)
      ensures shifts == CheckIn(old(shifts), userId, date, ts).1
      ensures users == old(users) && events == old(events)
    {
      CheckInInvariant(shifts, userId, date, ts);
      var found := FindShift(shifts, userId, date);
      if found.Some? && shifts[found.value].checkIn.Some? {
        return false, "Приход уже отмечен.";
      }
      if found.Some? {
        shifts := shifts[found.value := shifts[found.value].(checkIn := Some(ts))];
      }
      ok, msg := true, "OK";
    }

    /** `set_check_out`. */
    method SetCheckOut(userId: int, date: Date, ts: int) returns (ok: bool, msg: string)
      requires Valid()
      modifies this
      ensures Valid()
      ensures (ok, msg) == CheckOutReply(CheckOut(old(shifts), userId, date, ts).0)
      ensures shifts == CheckOut(old(shifts), userId, date, ts).1
      ensures users == old(users) && events == old(events)
    {
      CheckOutInvariant(shifts, userId, date, ts);
      var found := FindShift(shifts, userId, date);
      if found.None? || shifts[found.value].checkIn.None? {
        return false, "Сначала отметьте приход.";
      }
      if shifts[found.value].checkOut.Some? {
        return false, "Уход уже отмечен.";
      }
      shifts := shifts[found.value := shifts[found.value].(checkOut := Some(ts))];
      ok, msg := true, "OK";
    }

    /** `log_event`: appends to the audit log, which nothing here reads. */
    method LogEvent(e: Event)
      requires Valid()
      modifies this
      ensures Valid()
      ensures events == old(events) + [e]
      ensures users == old(users) && shifts == old(shifts)
    {
      events := events + [e];
    }

    /** `fetch_today_shifts`: the day's joined rows, by department then name. */
    method FetchTodayShifts(date: Date) returns (rows: seq<JoinedRow>)
      ensures multiset(rows) == multiset(Filter(Join(users, shifts), OnDate(date)))
      ensures forall i :: 0 <= i < |rows| ==> rows[i].workDate == date
      ensures SortedBy(rows, ByDeptName)
      ensures rows == TodayRows(users, shifts, date)
    {
      TodayRowsSpec(users, shifts, date);
      rows := TodayRows(users, shifts, date);
    }

    /** `month_minutes_for_user`: the loop adds the minutes of each closed shift. */
    method MonthMinutesForUser(userId: int, year: int, month: int) returns (total: int)
      ensures total == MonthMinutes(shifts, userId, year, month)
    {
      var (start, end) := MonthBounds(year, month);
      var rows := Filter(shifts, HalfOpen(userId, start, end));
      total := 0;
      var i := 0;
      while i < |rows|
        invariant 0 <= i <= |rows|
        invariant total == SumOf(rows[..i], ShiftMinutes)
      {
        var r := rows[i];
        SumOfStep(rows, i, ShiftMinutes);
        if r.checkIn.Some? && r.checkOut.Some? {
          var m := (r.checkOut.value - r.checkIn.value) / 60;
          total := total + (if m > 0 then m else 0);
        }
        i := i + 1;
      }
      assert rows[..i] == rows;
    }

    /** `month_days_for_user` and `range_days_for_user`: the closed shifts of the
        selected rows in date order, one entry each, zero-minute ones included. */
    method DaysFor(selected: ShiftRow -> bool) returns (result: seq<DayEntry>)
      ensures result == ClosedDays(Filter(shifts, selected))
    {
      var rows := SortBy(Filter(shifts, selected), ByDate);
      result := ClosedEntries(rows);
    }

    /** The loop of the day lists: an entry for each closed row, in row order. */
    static method ClosedEntries(rows: seq<ShiftRow>) returns (result: seq<DayEntry>)
      ensures result == DayEntries(Filter(rows, Closed))
    {
      result := [];
      ghost var done: seq<ShiftRow> := [];
      var i := 0;
      while i < |rows|
        invariant 0 <= i <= |rows|
        invariant done == Filter(rows[..i], Closed)
        invariant result == DayEntries(done)
      {
        var r := rows[i];
        FilterSnoc(rows, Closed, i);
        if r.checkIn.Some? && r.checkOut.Some? {
          DayEntriesSnoc(done, r);
          var m := (r.checkOut.value - r.checkIn.value) / 60;
          var mins := if m > 0 then m else 0;
          assert DayEntry(r.workDate, mins) == DayOf(r);
          result := result + [DayEntry(r.workDate, mins)];
          done := done + [r];
        } else {
          assert done + [] == done;
        }
        i := i + 1;
      }
      assert rows[..i] == rows;
    }

    method MonthDaysForUser(userId: int, year: int, month: int) returns (result: seq<DayEntry>)
      ensures result == ClosedDays(MonthShifts(shifts, userId, year, month))
    {
      var (start, end) := MonthBounds(year, month);
      result := DaysFor(HalfOpen(userId, start, end));
    }

    method RangeDaysForUser(userId: int, from: Date, to: Date) returns (result: seq<DayEntry>)
      ensures result == ClosedDays(Filter(shifts, Between(userId, from, to)))
    {
      result := DaysFor(Between(userId, from, to));
    }

    /** `month_minutes_by_user`: the `agg` dict filled with `setdefault` over
        the period's closed rows. */
    method MonthMinutesByUser(year: int, month: int, startDay: int, endDay: Option<int>, department: Option<string>)
      returns (items: seq<UserTotal>)
      ensures items == PeriodTotals(users, shifts, year, month, startDay, endDay, department)
    {
      var rows := PeriodRows(users, shifts, year, month, startDay, endDay, department);
      items := ClosedTotals(rows);
    }

    /** The loop of the period totals: the `agg` list filled from the closed rows. */
    static method ClosedTotals(rows: seq<JoinedRow>) returns (items: seq<UserTotal>)
      ensures items == Accumulate(Filter(rows, JoinedClosed), JoinedMinutes)
    {
      items := [];
      ghost var done: seq<JoinedRow> := [];
      var i := 0;
      while i < |rows|
        invariant 0 <= i <= |rows|
        invariant done == Filter(rows[..i], JoinedClosed)
        invariant items == Accumulate(done, JoinedMinutes)
      {
        var r := rows[i];
        FilterSnoc(rows, JoinedClosed, i);
        if r.checkIn.Some? && r.checkOut.Some? {
          var m := (r.checkOut.value - r.checkIn.value) / 60;
          var mins := if m > 0 then m else 0;
          assert mins == JoinedMinutes(r);
          AccumulateSnoc(done, r, JoinedMinutes);
          items := SetdefaultAdd(items, r, mins);
          done := done + [r];
        } else {
          assert done + [] == done;
        }
        i := i + 1;
      }
      assert rows[..i] == rows;
    }
  }

  // --------------------------------------------------------- Properties

  /** A day list is in date order. */
  lemma ClosedDaysOrdered(rows: seq<ShiftRow>)
    ensures SortedBy(ClosedDays(rows), EntryDateLe)
  {
    var sorted := SortBy(rows, ByDate);
    DateLeTotalPreorder();
    SortBySorted(rows, ByDate);
    FilterSorted(sorted, Closed, ByDate);
    DayEntriesSpec(Filter(sorted, Closed));
  }

  /** A day list holds one entry per closed shift of the selection and adds
      up to the selection's minutes. */
  lemma ClosedDaysTotal(rows: seq<ShiftRow>)
    ensures |ClosedDays(rows)| == |Filter(rows, Closed)|
    ensures SumOf(ClosedDays(rows), EntryMinutes) == SumOf(rows, ShiftMinutes)
  {
    var sorted := SortBy(rows, ByDate);
    var closed := Filter(sorted, Closed);
    FilterPermutation(sorted, rows, Closed);
    assert |closed| == |multiset(closed)| == |multiset(Filter(rows, Closed))| == |Filter(rows, Closed)|;
    DayEntriesSpec(closed);
    OpenShiftsAddNothing(sorted);
    SumOfPermutation(sorted, rows, ShiftMinutes);
  }

  /** The entries of a day list are exactly the days of the closed shifts. */
  lemma ClosedDaysMembers(rows: seq<ShiftRow>, r: ShiftRow)
    ensures r in rows && Closed(r) ==> DayOf(r) in ClosedDays(rows)
    ensures forall e :: e in ClosedDays(rows) ==> exists x :: x in rows && Closed(x) && e == DayOf(x)
  {
    var sorted := SortBy(rows, ByDate);
    var closed := Filter(sorted, Closed);
    var days := ClosedDays(rows);
    if r in rows && Closed(r) {
      assert r in multiset(sorted);
      var k :| 0 <= k < |sorted| && sorted[k] == r;
      var j :| 0 <= j < |closed| && closed[j] == r;
      assert days[j] == DayOf(r);
    }
    forall e | e in days ensures exists x :: x in rows && Closed(x) && e == DayOf(x) {
      var j :| 0 <= j < |days| && days[j] == e;
      assert closed[j] in sorted;
      assert closed[j] in multiset(rows);
    }
  }

  /** Whole-month totals: a month's minutes are never negative and equal the
      sum of the month's day list. */
  lemma MonthMinutesSpec(shifts: seq<ShiftRow>, userId: int, year: int, month: int)
    ensures MonthMinutes(shifts, userId, year, month) >= 0
    ensures MonthMinutes(shifts, userId, year, month)
            == SumOf(ClosedDays(MonthShifts(shifts, userId, year, month)), EntryMinutes)
  {
    var rows := MonthShifts(shifts, userId, year, month);
    OpenShiftsAddNothing(rows);
    ClosedDaysTotal(rows);
  }

  /** The range query includes both end dates. */
  lemma RangeIncludesBounds(shifts: seq<ShiftRow>, userId: int, from: Date, to: Date, r: ShiftRow)
    requires r in shifts && r.userId == userId && Closed(r) && (r.workDate == from || r.workDate == to)
    requires DateLe(from, to)
    ensures DayOf(r) in ClosedDays(Filter(shifts, Between(userId, from, to)))
  {
    var sel := Filter(shifts, Between(userId, from, to));
    var k :| 0 <= k < |shifts| && shifts[k] == r;
    assert r in sel;
    ClosedDaysMembers(sel, r);
  }

  /** Per-user totals of a period: entries in strictly ascending user id, one
      exactly for each user with a closed shift in the period, whose minutes
      are that user's sum; together they add up to all the period's minutes. */
  lemma PeriodTotalsSpec(users: seq<UserRow>, shifts: seq<ShiftRow>, year: int, month: int,
                         startDay: int, endDay: Option<int>, department: Option<string>, userId: int)
    ensures var items := PeriodTotals(users, shifts, year, month, startDay, endDay, department);
            var closed := Filter(PeriodRows(users, shifts, year, month, startDay, endDay, department), JoinedClosed);
            var mine := Filter(closed, KeyIs(UserIdOf, userId));
            && AscendingIds(items)
            && (TotalIndex(items, userId) >= 0 <==> mine != [])
            && (TotalIndex(items, userId) >= 0 ==> items[TotalIndex(items, userId)].minutes == SumOf(mine, JoinedMinutes))
            && SumOf(items, TotalMinutes) == SumOf(closed, JoinedMinutes)
  {
    var rows := PeriodRows(users, shifts, year, month, startDay, endDay, department);
    var closed := Filter(rows, JoinedClosed);
    ByUserDateTotalPreorder();
    SortBySorted(Filter(Join(users, shifts), InPeriod(year, month, startDay, endDay, department)), ByUserDate);
    FilterSorted(rows, JoinedClosed, ByUserDate);
    AccumulateAscending(closed, JoinedMinutes);
    AccumulateSpec(closed, JoinedMinutes, userId);
    AccumulateSum(closed, JoinedMinutes);
  }
}
