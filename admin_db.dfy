/** shiftbot_admin_siw1_rd3/db.py: the ledger without an audit log.
    Registration never renames, a month is every date whose text starts with
    `YYYY-MM-`, zero-minute shifts are dropped from day lists and totals, a
    period is a test on the day-of-month number, and per-user totals come out
    by department, then name. */
module AdminDb {
  import opened Wrappers
  import opened Seqs
  import opened Ledger
  import opened Totals

  // -------------------------------------------------------- Selections

  /** `user_id=? AND work_date LIKE 'YYYY-MM-%'`. */
  function InMonth(userId: int, year: int, month: int): ShiftRow -> bool
  {
    (r: ShiftRow) => r.userId == userId && PrefixMonth(r.workDate, year, month)
  }

  /** Minutes worked in a month: every shift of the month adds `_minutes_between`. */
  function MonthMinutes(shifts: seq<ShiftRow>, userId: int, year: int, month: int): int
  {
    SumOf(Filter(shifts, InMonth(userId, year, month)), ShiftMinutes)
  }

  /** A shift that yields a positive number of minutes. */
  predicate Worked(r: ShiftRow)
  {
    ShiftMinutes(r) > 0
  }

  /** The month's shifts in date order, one entry for each with positive minutes. */
  function MonthDays(shifts: seq<ShiftRow>, userId: int, year: int, month: int): seq<DayEntry>
  {
    DayEntries(Filter(SortBy(Filter(shifts, InMonth(userId, year, month)), ByDate), Worked))
  }

  /** `_in_range` on the day-of-month number: from `start_day` on, and up to
      `end_day` inclusive when one is given. */
  predicate InRange(day: int, startDay: int, endDay: Option<int>)
  {
    if endDay.None? then day >= startDay else startDay <= day <= endDay.value
  }

  /** The SQL part of `month_minutes_by_user`: the month prefix, and the
      department when one is given. */
  function MonthAndDept(year: int, month: int, department: Option<string>): JoinedRow -> bool
  {
    (r: JoinedRow) => PrefixMonth(r.workDate, year, month) && (Truthy(department) ==> r.department == department)
  }

  /** The rows `month_minutes_by_user` reads, by department, name, then date. */
  function PeriodRows(users: seq<UserRow>, shifts: seq<ShiftRow>, year: int, month: int,
                      department: Option<string>): seq<JoinedRow>
  {
    SortBy(Filter(Join(users, shifts), MonthAndDept(year, month, department)), ByDeptNameDate)
  }

  /** The rows the loop does not skip: in the day range, with positive minutes. */
  function Counted(startDay: int, endDay: Option<int>): JoinedRow -> bool
  {
    (r: JoinedRow) => InRange(r.workDate.day, startDay, endDay) && JoinedMinutes(r) > 0
  }

  /** Its result: one total per user over the counted rows. */
  function PeriodTotals(users: seq<UserRow>, shifts: seq<ShiftRow>, year: int, month: int,
                        startDay: int, endDay: Option<int>, department: Option<string>): seq<UserTotal>
  {
    Accumulate(Filter(PeriodRows(users, shifts, year, month, department), Counted(startDay, endDay)), JoinedMinutes)
  }

  // ------------------------------------------------------ Answers

  /** The `(ok, message)` pair `set_check_in` returns. */
  function CheckInReply(v: Verdict): (bool, string)
  {
    if v == Accepted then (true, "Ок") else (false, "Уже отмечен приход")
  }

  /** The `(ok, message)` pair `set_check_out` returns. */
  function CheckOutReply(v: Verdict): (bool, string)
  {
    match v
    case Accepted => (true, "Ок")
    case AlreadyCheckedOut => (false, "Уже отмечен уход")
    case _ => (false, "Сначала отметь приход")
  }

  // ----------------------------------------------------- The database

  class Database {
    var users: seq<UserRow>
    var shifts: seq<ShiftRow>

    ghost predicate Valid()
      reads this
    {
      DistinctTg(users) && LedgerInvariant(shifts)
    }

    /** `init_db` on an empty file. */
    constructor ()
      ensures Valid() && users == [] && shifts == []
    {
      users, shifts := [], [];
    }

    /** `create_user`: `INSERT OR IGNORE`, then the stored row; a registered
        user keeps the name given first. */
    method CreateUser(tgId: int, fullName: string) returns (id: int, u: UserRow)
      requires Valid()
      modifies this
      ensures Valid()
      ensures users == InsertUser(old(users), tgId, fullName)
      ensures FindTg(old(users), tgId).Some? ==> users == old(users)
      ensures shifts == old(shifts)
      ensures UserById(users, id) == Some(u) && u.tgId == tgId
    {
      InsertUserKeepsRegistered(users, tgId, fullName);
      users := InsertUser(users, tgId, fullName);
      var i := FindTg(users, tgId).value;
      id, u := i + 1, users[i];
    }

    /** `set_user_department`. */
    method SetUserDepartment(userId: int, department: string)
      requires Valid()
      modifies this
      ensures Valid()
      ensures users == SetDepartment(old(users), userId, department)
      ensures shifts == old(shifts)
    {
      users := SetDepartment(users, userId, department);
    }

    /** `get_or_create_shift`: `INSERT OR IGNORE` of the (user, date) row. */
    method GetOrCreateShift(userId: int, date: Date)
      requires Valid()
      modifies this
      ensures Valid()
      ensures shifts == EnsureShift(old(shifts), userId, date)
      ensures KeepsRecorded(old(shifts), shifts)
      ensures users == old(users)
    {
      EnsureShiftInvariant(shifts, userId, date);
      shifts := EnsureShift(shifts, userId, date);
    }

    /** `set_check_in`. */
    method SetCheckIn(userId: int, date: Date, ts: int) returns (ok: bool, msg: string)
      requires Valid()
      modifies this
      ensures Valid()
      ensures (ok, msg) == CheckInReply(CheckIn(old(shifts), userId, date, ts).0)
      ensures shifts == CheckIn(old(shifts), userId, date, ts).1
      ensures users == old(users)
    {
      CheckInInvariant(shifts, userId, date, ts);
      var found := FindShift(shifts, userId, date);
      if found.Some? && shifts[found.value].checkIn.Some? {
        return false, "Уже отмечен приход";
      }
      if found.Some? {
        shifts := shifts[found.value := shifts[found.value].(checkIn := Some(ts))];
      }
      ok, msg := true, "Ок";
    }

    /** `set_check_out`. */
    method SetCheckOut(userId: int, date: Date, ts: int) returns (ok: bool, msg: string)
      requires Valid()
      modifies this
      ensures Valid()
      ensures (ok, msg) == CheckOutReply(CheckOut(old(shifts), userId, date, ts).0)
      ensures shifts == CheckOut(old(shifts), userId, date, ts).1
      ensures users == old(users)
    {
      CheckOutInvariant(shifts, userId, date, ts);
      var found := FindShift(shifts, userId, date);
      if found.None? || shifts[found.value].checkIn.None? {
        return false, "Сначала отметь приход";
      }
      if shifts[found.value].checkOut.Some? {
        return false, "Уже отмечен уход";
      }
      shifts := shifts[found.value := shifts[found.value].(checkOut := Some(ts))];
      ok, msg := true, "Ок";
    }

    /** `fetch_today_shifts`: the day's joined rows, by department then name. */
    method FetchTodayShifts(date: Date) returns (rows: seq<JoinedRow>)
      ensures multiset(rows) == multiset(Filter(Join(users, shifts), OnDate(date)))
      ensures forall i :: 0 <= i < |rows| ==> rows[i].workDate == date
      ensures SortedBy(rows, ByDeptName)
      ensures rows == TodayRows(users, shifts, date)
    {
      TodayRowsSpec(users, shifts, date);
      rows := TodayRows(users, shifts, date);
    }

    /** `month_minutes_for_user`: the loop adds `_minutes_between` of every row. */
    method MonthMinutesForUser(userId: int, year: int, month: int) returns (total: int)
      ensures total == MonthMinutes(shifts, userId, year, month)
    {
      var rows := Filter(shifts, InMonth(userId, year, month));
      total := 0;
      var i := 0;
      while i < |rows|
        invariant 0 <= i <= |rows|
        invariant total == SumOf(rows[..i], ShiftMinutes)
      {
        SumOfStep(rows, i, ShiftMinutes);
        total := total + MinutesBetween(rows[i].checkIn, rows[i].checkOut);
        i := i + 1;
      }
      assert rows[..i] == rows;
    }

    /** `month_days_for_user`: the month's rows in date order, keeping those
        with positive minutes. */
    method MonthDaysForUser(userId: int, year: int, month: int) returns (out: seq<DayEntry>)
      ensures out == MonthDays(shifts, userId, year, month)
    {
      var rows := SortBy(Filter(shifts, InMonth(userId, year, month)), ByDate);
      out := PositiveDays(rows);
    }

    /** The loop of `month_days_for_user`: an entry for each row with
        positive minutes, in row order. */
    static method PositiveDays(rows: seq<ShiftRow>) returns (out: seq<DayEntry>)
      ensures out == DayEntries(Filter(rows, Worked))
    {
      out := [];
      ghost var done: seq<ShiftRow> := [];
      var i := 0;
      while i < |rows|
        invariant 0 <= i <= |rows|
        invariant done == Filter(rows[..i], Worked)
        invariant out == DayEntries(done)
      {
        var r := rows[i];
        FilterSnoc(rows, Worked, i);
        var mins := MinutesBetween(r.checkIn, r.checkOut);
        if mins > 0 {
          DayEntriesSnoc(done, r);
          out := out + [DayEntry(r.workDate, mins)];
          done := done + [r];
        } else {
          assert done + [] == done;
        }
        i := i + 1;
      }
      assert rows[..i] == rows;
    }

    /** `month_minutes_by_user`: the `totals` dict filled over the rows that
        are in the day range and have positive minutes. */
    method MonthMinutesByUser(year: int, month: int, startDay: int, endDay: Option<int>, department: Option<string>)
      returns (items: seq<UserTotal>)
      ensures items == PeriodTotals(users, shifts, year, month, startDay, endDay, department)
    {
      var rows := PeriodRows(users, shifts, year, month, department);
      items := CountedTotals(rows, startDay, endDay);
    }

    /** The loop of the period totals: the `totals` dict filled from the rows
        in the day range with positive minutes. */
    static method CountedTotals(rows: seq<JoinedRow>, startDay: int, endDay: Option<int>) returns (items: seq<UserTotal>)
      ensures items == Accumulate(Filter(rows, Counted(startDay, endDay)), JoinedMinutes)
    {
      var counted := Counted(startDay, endDay);
      items := [];
      ghost var done: seq<JoinedRow> := [];
      var i := 0;
      while i < |rows|
        invariant 0 <= i <= |rows|
        invariant done == Filter(rows[..i], counted)
        invariant items == Accumulate(done, JoinedMinutes)
      {
        var r := rows[i];
        FilterSnoc(rows, counted, i);
        ghost var added := false;
        if InRange(r.workDate.day, startDay, endDay) {
          var mins := MinutesBetween(r.checkIn, r.checkOut);
          if mins > 0 {
            assert counted(r);
            AccumulateSnoc(done, r, JoinedMinutes);
            items := SetdefaultAdd(items, r, mins);
            done := done + [r];
            added := true;
          }
        }
        if !added {
          assert !counted(r);
          assert done + [] == done;
        }
        i := i + 1;
      }
      assert rows[..i] == rows;
    }
  }

  // --------------------------------------------------------- Properties

  /** A month's day list is in date order, holds only positive entries and
      adds up to the month's minutes: dropping zero-minute shifts loses nothing. */
  lemma MonthDaysSpec(shifts: seq<ShiftRow>, userId: int, year: int, month: int)
    ensures SortedBy(MonthDays(shifts, userId, year, month), EntryDateLe)
    ensures forall i :: 0 <= i < |MonthDays(shifts, userId, year, month)| ==> MonthDays(shifts, userId, year, month)[i].minutes > 0
    ensures SumOf(MonthDays(shifts, userId, year, month), EntryMinutes) == MonthMinutes(shifts, userId, year, month)
  {
    PositiveDaysSpec(Filter(shifts, InMonth(userId, year, month)));
  }

  /** The same for any rows: sorting by date and keeping the positive ones. */
  lemma PositiveDaysSpec(rows: seq<ShiftRow>)
    ensures var days := DayEntries(Filter(SortBy(rows, ByDate), Worked));
            && SortedBy(days, EntryDateLe)
            && (forall i :: 0 <= i < |days| ==> days[i].minutes > 0)
            && SumOf(days, EntryMinutes) == SumOf(rows, ShiftMinutes)
  {
    var sorted := SortBy(rows, ByDate);
    var worked := Filter(sorted, Worked);
    DateLeTotalPreorder();
    SortBySorted(rows, ByDate);
    FilterSorted(sorted, Worked, ByDate);
    DayEntriesSpec(worked);
    assert forall i :: 0 <= i < |sorted| && !Worked(sorted[i]) ==> ShiftMinutes(sorted[i]) == 0;
    SumOfFilterNonZero(sorted, ShiftMinutes, Worked);
    SumOfPermutation(sorted, rows, ShiftMinutes);
  }

  /** The days listed are exactly those of the month's shifts with positive minutes. */
  lemma MonthDaysMembers(shifts: seq<ShiftRow>, userId: int, year: int, month: int, r: ShiftRow)
    ensures r in shifts && InMonth(userId, year, month)(r) && Worked(r) ==> DayOf(r) in MonthDays(shifts, userId, year, month)
    ensures forall e :: e in MonthDays(shifts, userId, year, month) ==>
              exists x :: x in shifts && InMonth(userId, year, month)(x) && Worked(x) && e == DayOf(x)
  {
    var rows := Filter(shifts, InMonth(userId, year, month));
    var sorted := SortBy(rows, ByDate);
    var worked := Filter(sorted, Worked);
    var days := MonthDays(shifts, userId, year, month);
    if r in shifts && InMonth(userId, year, month)(r) && Worked(r) {
      var k :| 0 <= k < |shifts| && shifts[k] == r;
      assert r in rows;
      assert r in multiset(sorted);
      var m :| 0 <= m < |sorted| && sorted[m] == r;
      var j :| 0 <= j < |worked| && worked[j] == r;
      assert days[j] == DayOf(r);
    }
    forall e | e in days
      ensures exists x :: x in shifts && InMonth(userId, year, month)(x) && Worked(x) && e == DayOf(x)
    {
      var j :| 0 <= j < |days| && days[j] == e;
      assert worked[j] in sorted;
      assert worked[j] in multiset(rows);
      assert worked[j] in rows;
    }
  }

  /** Per-user totals of a period: ordered by department and then name, one
      entry per user, present exactly for users with a counted row, holding
      that user's sum, always positive; together they add up to all counted
      minutes. */
  lemma PeriodTotalsSpec(users: seq<UserRow>, shifts: seq<ShiftRow>, year: int, month: int,
                         startDay: int, endDay: Option<int>, department: Option<string>, userId: int)
    ensures var items := PeriodTotals(users, shifts, year, month, startDay, endDay, department);
            var counted := Filter(PeriodRows(users, shifts, year, month, department), Counted(startDay, endDay));
            var mine := Filter(counted, KeyIs(UserIdOf, userId));
            && ByDeptAndName(items)
            && DistinctUsers(items)
            && (TotalIndex(items, userId) >= 0 <==> mine != [])
            && (TotalIndex(items, userId) >= 0 ==>
                  items[TotalIndex(items, userId)].minutes == SumOf(mine, JoinedMinutes)
                  && items[TotalIndex(items, userId)].minutes > 0)
            && SumOf(items, TotalMinutes) == SumOf(counted, JoinedMinutes)
  {
    PeriodTotalsOrdered(users, shifts, year, month, startDay, endDay, department);
    PeriodTotalsSums(users, shifts, year, month, startDay, endDay, department, userId);
  }

  lemma PeriodTotalsOrdered(users: seq<UserRow>, shifts: seq<ShiftRow>, year: int, month: int,
                            startDay: int, endDay: Option<int>, department: Option<string>)
    ensures var items := PeriodTotals(users, shifts, year, month, startDay, endDay, department);
            && ByDeptAndName(items)
            && DistinctUsers(items)
  {
    var counted := Filter(PeriodRows(users, shifts, year, month, department), Counted(startDay, endDay));
    var items := PeriodTotals(users, shifts, year, month, startDay, endDay, department);
    assert items == Accumulate(counted, JoinedMinutes);
    AccumulateDistinct(counted, JoinedMinutes);
    CountedSorted(users, shifts, year, month, startDay, endDay, department);
    AccumulateOrdered(counted, JoinedMinutes);
  }

  /** The counted rows keep the query's department-and-name order. */
  lemma CountedSorted(users: seq<UserRow>, shifts: seq<ShiftRow>, year: int, month: int,
                      startDay: int, endDay: Option<int>, department: Option<string>)
    ensures SortedBy(Filter(PeriodRows(users, shifts, year, month, department), Counted(startDay, endDay)), ByDeptName)
  {
    var rows := PeriodRows(users, shifts, year, month, department);
    var counted := Filter(rows, Counted(startDay, endDay));
    ByDeptNameDateTotalPreorder();
    SortBySorted(Filter(Join(users, shifts), MonthAndDept(year, month, department)), ByDeptNameDate);
    assert SortedBy(rows, ByDeptNameDate);
    FilterSorted(rows, Counted(startDay, endDay), ByDeptNameDate);
    ByDeptNameDateRefines(counted);
  }

  lemma PeriodTotalsSums(users: seq<UserRow>, shifts: seq<ShiftRow>, year: int, month: int,
                         startDay: int, endDay: Option<int>, department: Option<string>, userId: int)
    ensures var items := PeriodTotals(users, shifts, year, month, startDay, endDay, department);
            var counted := Filter(PeriodRows(users, shifts, year, month, department), Counted(startDay, endDay));
            var mine := Filter(counted, KeyIs(UserIdOf, userId));
            && (TotalIndex(items, userId) >= 0 <==> mine != [])
            && (TotalIndex(items, userId) >= 0 ==>
                  items[TotalIndex(items, userId)].minutes == SumOf(mine, JoinedMinutes)
                  && items[TotalIndex(items, userId)].minutes > 0)
            && SumOf(items, TotalMinutes) == SumOf(counted, JoinedMinutes)
  {
    var counted := Filter(PeriodRows(users, shifts, year, month, department), Counted(startDay, endDay));
    var mine := Filter(counted, KeyIs(UserIdOf, userId));
    AccumulateSpec(counted, JoinedMinutes, userId);
    AccumulateSum(counted, JoinedMinutes);
    if mine != [] {
      SumOfPositive(mine, JoinedMinutes);
    }
  }
}
