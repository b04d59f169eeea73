/** The shift ledger shared by both bot variants: the `users` and `shifts`
    tables (shiftbot_clean/db.py and shiftbot_admin_siw1_rd3/db.py declare the
    same schema), the check-in / check-out state machine over a shift row, and
    the joined queries both variants run.

    Tables are sequences in rowid order. A user's `id` (AUTOINCREMENT, never
    deleted) is its position plus one. Timestamps are integer local-clock
    seconds; a work date is a (year, month, day) triple. */
module Ledger {
  import opened Wrappers
  import opened Seqs
  import opened Format

  // ------------------------------------------------------------------ Dates

  datatype Date = Date(year: int, month: int, day: int)

  /** The text order of "YYYY-MM-DD" work dates, which for 4-digit years and
      2-digit months and days is the order of (year, month, day). */
  predicate DateLe(a: Date, b: Date)
  {
    a.year < b.year || (a.year == b.year && (a.month < b.month || (a.month == b.month && a.day <= b.day)))
  }

  predicate DateLt(a: Date, b: Date)
  {
    !DateLe(b, a)
  }

  /** A date as `strftime("%Y-%m-%d")` writes it. */
  function DateText(d: Date): string
  {
    PadInt(d.year, 4) + ("-" + (PadInt(d.month, 2) + ("-" + PadInt(d.day, 2))))
  }

  /** The first day of the month after (year, month); December rolls over. */
  function NextMonthStart(year: int, month: int): Date
  {
    if month < 12 then Date(year, month + 1, 1) else Date(year + 1, 1, 1)
  }

  // ----------------------------------------------------------------- Tables

  /** A `users` row; its `id` is its position in the table plus one. */
  datatype UserRow = UserRow(tgId: int, fullName: string, department: Option<string>)

  /** A `shifts` row: at most one per (user, work date), by UNIQUE(user_id, work_date). */
  datatype ShiftRow = ShiftRow(userId: int, workDate: Date, checkIn: Option<int>, checkOut: Option<int>)

  /** A row of `shifts s JOIN users u ON u.id = s.user_id`. */
  datatype JoinedRow = JoinedRow(userId: int, fullName: string, department: Option<string>,
                                 workDate: Date, checkIn: Option<int>, checkOut: Option<int>)

  /** Python truthiness of an optional text column: neither NULL nor "". */
  predicate Truthy(s: Option<string>)
  {
    s.Some? && s.value != ""
  }

  ghost predicate DistinctTg(users: seq<UserRow>)
  {
    forall i, j :: 0 <= i < j < |users| ==> users[i].tgId != users[j].tgId
  }

  /** `SELECT * FROM users WHERE tg_id = ?`: the position of the user's row. */
  function FindTg(users: seq<UserRow>, tgId: int): (r: Option<nat>)
    ensures r.Some? ==> r.value < |users| && users[r.value].tgId == tgId
    ensures r.None? ==> forall i :: 0 <= i < |users| ==> users[i].tgId != tgId
  {
    if users == [] then None
    else if users[|users| - 1].tgId == tgId then Some(|users| - 1)
    else FindTg(users[..|users| - 1], tgId)
  }

  /** The row whose `id` is `userId`, as the JOIN on `u.id = s.user_id` finds it. */
  function UserById(users: seq<UserRow>, userId: int): Option<UserRow>
  {
    if 1 <= userId <= |users| then Some(users[userId - 1]) else None
  }

  /** `INSERT OR IGNORE INTO users(tg_id, full_name)`: appends a row with no
      department unless the Telegram id is already registered. */
  function InsertUser(users: seq<UserRow>, tgId: int, fullName: string): (r: seq<UserRow>)
    ensures FindTg(r, tgId).Some?
    ensures |users| <= |r| <= |users| + 1 && r[..|users|] == users
    ensures |r| > |users| ==> FindTg(users, tgId).None? && r[|users|] == UserRow(tgId, fullName, None)
  {
    if FindTg(users, tgId).Some? then users
    else
      var r := users + [UserRow(tgId, fullName, None)];
      assert r[..|r| - 1] == users;
      r
  }

  /** `UPDATE users SET full_name=? WHERE tg_id=?`. */
  function RenameUser(users: seq<UserRow>, tgId: int, fullName: string): seq<UserRow>
  {
    match FindTg(users, tgId)
    case None => users
    case Some(i) => users[i := users[i].(fullName := fullName)]
  }

  /** `UPDATE users SET department=? WHERE id=?`. */
  function SetDepartment(users: seq<UserRow>, userId: int, department: string): seq<UserRow>
  {
    if 1 <= userId <= |users| then users[userId - 1 := users[userId - 1].(department := Some(department))]
    else users
  }

  lemma {:induction false} FindTgUnique(users: seq<UserRow>, tgId: int, k: nat)
    requires DistinctTg(users)
    requires k < |users| && users[k].tgId == tgId
    ensures FindTg(users, tgId) == Some(k)
  {
  }

  /** Registration (insert if absent, then overwrite the name): the Telegram id
      stays unique, the user's row carries the new name, a registered user keeps
      the row, position and department, and no other row changes. */
  lemma {:induction false} RegisterUserSpec(users: seq<UserRow>, tgId: int, fullName: string)
    requires DistinctTg(users)
    ensures var r := RenameUser(InsertUser(users, tgId, fullName), tgId, fullName);
            var i := FindTg(r, tgId);
            && DistinctTg(r)
            && i.Some? && r[i.value].fullName == fullName
            && |r| == |InsertUser(users, tgId, fullName)|
            && (FindTg(users, tgId).Some? ==>
                  |r| == |users| && i == FindTg(users, tgId) && r[i.value].department == users[i.value].department)
            && (FindTg(users, tgId).None? ==> r == users + [UserRow(tgId, fullName, None)])
            && forall k :: 0 <= k < |users| && k != i.value ==> r[k] == users[k]
  {
    var s := InsertUser(users, tgId, fullName);
    assert DistinctTg(s);
    var j := FindTg(s, tgId).value;
    var r := RenameUser(s, tgId, fullName);
    assert r == s[j := s[j].(fullName := fullName)];
    assert DistinctTg(r);
    FindTgUnique(r, tgId, j);
  }

  /** Insert-or-ignore alone never changes a registered user's row. */
  lemma {:induction false} InsertUserKeepsRegistered(users: seq<UserRow>, tgId: int, fullName: string)
    requires DistinctTg(users)
    ensures DistinctTg(InsertUser(users, tgId, fullName))
    ensures FindTg(users, tgId).Some? ==> InsertUser(users, tgId, fullName) == users
    ensures InsertUser(users, tgId, fullName)[FindTg(InsertUser(users, tgId, fullName), tgId).value].tgId == tgId
  {
  }

  /** Setting a department touches only that user's department. */
  lemma {:induction false} SetDepartmentSpec(users: seq<UserRow>, userId: int, department: string)
    ensures var r := SetDepartment(users, userId, department);
            && |r| == |users|
            && (UserById(users, userId).Some? ==> UserById(r, userId).value.department == Some(department))
            && forall k :: 0 <= k < |users| ==>
                 r[k].tgId == users[k].tgId && r[k].fullName == users[k].fullName && (k + 1 != userId ==> r[k] == users[k])
  {
  }

  ghost predicate UniqueKeys(shifts: seq<ShiftRow>)
  {
    forall i, j :: 0 <= i < j < |shifts| ==>
      shifts[i].userId != shifts[j].userId || shifts[i].workDate != shifts[j].workDate
  }

  /** The two invariants of the `shifts` table: one row per (user, date), and
      never a check-out without a check-in. */
  ghost predicate LedgerInvariant(shifts: seq<ShiftRow>)
  {
    && UniqueKeys(shifts)
    && forall i :: 0 <= i < |shifts| ==> shifts[i].checkOut.Some? ==> shifts[i].checkIn.Some?
  }

  /** `SELECT ... FROM shifts WHERE user_id=? AND work_date=?`: the row's position. */
  function FindShift(shifts: seq<ShiftRow>, userId: int, date: Date): (r: Option<nat>)
    ensures r.Some? ==> r.value < |shifts| && shifts[r.value].userId == userId && shifts[r.value].workDate == date
    ensures r.None? ==> forall i :: 0 <= i < |shifts| ==> shifts[i].userId != userId || shifts[i].workDate != date
  {
    if shifts == [] then None
    else if shifts[|shifts| - 1].userId == userId && shifts[|shifts| - 1].workDate == date then Some(|shifts| - 1)
    else FindShift(shifts[..|shifts| - 1], userId, date)
  }

  // --------------------------------------------------- The state machine

  /** `INSERT OR IGNORE INTO shifts(user_id, work_date)`: adds an empty row
      unless the (user, date) row exists. */
  function EnsureShift(shifts: seq<ShiftRow>, userId: int, date: Date): (r: seq<ShiftRow>)
    ensures FindShift(r, userId, date).Some?
    ensures |shifts| <= |r| <= |shifts| + 1 && r[..|shifts|] == shifts
    ensures |r| > |shifts| ==> FindShift(shifts, userId, date).None? && r[|shifts|] == ShiftRow(userId, date, None, None)
  {
    if FindShift(shifts, userId, date).Some? then shifts
    else
      var r := shifts + [ShiftRow(userId, date, None, None)];
      assert r[..|r| - 1] == shifts;
      r
  }

  /** The typed outcome of a check-in or check-out. */
  datatype Verdict = Accepted | AlreadyCheckedIn | NoCheckIn | AlreadyCheckedOut

  /** `set_check_in`: rejects when the row's check-in is set; otherwise the
      UPDATE sets check-in, and on a missing row it matches nothing yet the
      call still reports success. */
  function CheckIn(shifts: seq<ShiftRow>, userId: int, date: Date, ts: int): (Verdict, seq<ShiftRow>)
  {
    match FindShift(shifts, userId, date)
    case None => (Accepted, shifts)
    case Some(i) =>
      if shifts[i].checkIn.Some? then (AlreadyCheckedIn, shifts)
      else (Accepted, shifts[i := shifts[i].(checkIn := Some(ts))])
  }

  /** `set_check_out`: rejects a missing row or a missing check-in, then an
      existing check-out; otherwise sets check-out. */
  function CheckOut(shifts: seq<ShiftRow>, userId: int, date: Date, ts: int): (Verdict, seq<ShiftRow>)
  {
    match FindShift(shifts, userId, date)
    case None => (NoCheckIn, shifts)
    case Some(i) =>
      if shifts[i].checkIn.None? then (NoCheckIn, shifts)
      else if shifts[i].checkOut.Some? then (AlreadyCheckedOut, shifts)
      else (Accepted, shifts[i := shifts[i].(checkOut := Some(ts))])
  }

  /** `after` keeps every row of `before` with its key, and every timestamp
      already recorded in it. */
  ghost predicate KeepsRecorded(before: seq<ShiftRow>, after: seq<ShiftRow>)
  {
    && |before| <= |after|
    && forall i :: 0 <= i < |before| ==>
         && after[i].userId == before[i].userId && after[i].workDate == before[i].workDate
         && (before[i].checkIn.Some? ==> after[i].checkIn == before[i].checkIn)
         && (before[i].checkOut.Some? ==> after[i].checkOut == before[i].checkOut)
  }

  lemma {:induction false} FindShiftUnique(shifts: seq<ShiftRow>, userId: int, date: Date, k: nat)
    requires UniqueKeys(shifts)
    requires k < |shifts| && shifts[k].userId == userId && shifts[k].workDate == date
    ensures FindShift(shifts, userId, date) == Some(k)
  {
  }

  /** A repeated `get_or_create_shift` changes nothing. */
  lemma {:induction false} EnsureShiftIdempotent(shifts: seq<ShiftRow>, userId: int, date: Date)
    ensures EnsureShift(EnsureShift(shifts, userId, date), userId, date) == EnsureShift(shifts, userId, date)
  {
  }

  lemma {:induction false} EnsureShiftInvariant(shifts: seq<ShiftRow>, userId: int, date: Date)
    requires LedgerInvariant(shifts)
    ensures LedgerInvariant(EnsureShift(shifts, userId, date))
    ensures KeepsRecorded(shifts, EnsureShift(shifts, userId, date))
  {
  }

  lemma {:induction false} CheckInInvariant(shifts: seq<ShiftRow>, userId: int, date: Date, ts: int)
    requires LedgerInvariant(shifts)
    ensures LedgerInvariant(CheckIn(shifts, userId, date, ts).1)
    ensures KeepsRecorded(shifts, CheckIn(shifts, userId, date, ts).1)
  {
  }

  lemma {:induction false} CheckOutInvariant(shifts: seq<ShiftRow>, userId: int, date: Date, ts: int)
    requires LedgerInvariant(shifts)
    ensures LedgerInvariant(CheckOut(shifts, userId, date, ts).1)
    ensures KeepsRecorded(shifts, CheckOut(shifts, userId, date, ts).1)
  {
  }

  /** Check-in on an ensured row: accepted exactly when the row has no check-in,
      and then the row reads back the given timestamp; a rejection changes nothing. */
  lemma {:induction false} CheckInOutcome(shifts: seq<ShiftRow>, userId: int, date: Date, ts: int)
    requires UniqueKeys(shifts)
    requires FindShift(shifts, userId, date).Some?
    ensures var i := FindShift(shifts, userId, date).value;
            var (v, after) := CheckIn(shifts, userId, date, ts);
            && (v == Accepted <==> shifts[i].checkIn.None?)
            && (v != Accepted ==> v == AlreadyCheckedIn && after == shifts)
            && (v == Accepted ==> FindShift(after, userId, date) == Some(i)
                                  && after[i] == shifts[i].(checkIn := Some(ts))
                                  && forall k :: 0 <= k < |shifts| && k != i ==> after[k] == shifts[k])
  {
    var i := FindShift(shifts, userId, date).value;
    var after := CheckIn(shifts, userId, date, ts).1;
    if shifts[i].checkIn.None? {
      assert UniqueKeys(after);
      FindShiftUnique(after, userId, date, i);
    }
  }

  /** Check-out: accepted exactly when the row exists with a check-in and no
      check-out; then only that row's check-out changes; a rejection changes nothing. */
  lemma {:induction false} CheckOutOutcome(shifts: seq<ShiftRow>, userId: int, date: Date, ts: int)
    requires UniqueKeys(shifts)
    ensures var f := FindShift(shifts, userId, date);
            var (v, after) := CheckOut(shifts, userId, date, ts);
            && (v == NoCheckIn <==> f.None? || shifts[f.value].checkIn.None?)
            && (v == AlreadyCheckedOut <==> f.Some? && shifts[f.value].checkIn.Some? && shifts[f.value].checkOut.Some?)
            && (v != Accepted ==> after == shifts)
            && (v == Accepted ==> f.Some? && FindShift(after, userId, date) == f
                                  && after[f.value] == shifts[f.value].(checkOut := Some(ts))
                                  && forall k :: 0 <= k < |shifts| && k != f.value ==> after[k] == shifts[k])
  {
    var f := FindShift(shifts, userId, date);
    var after := CheckOut(shifts, userId, date, ts).1;
    if f.Some? && shifts[f.value].checkIn.Some? && shifts[f.value].checkOut.None? {
      assert UniqueKeys(after);
      FindShiftUnique(after, userId, date, f.value);
    }
  }

  /** Once the row is ensured, whatever the first check-in answered, a second
      one on the same (user, date) is rejected and changes nothing. */
  lemma {:induction false} CheckInTwice(shifts: seq<ShiftRow>, userId: int, date: Date, t1: int, t2: int)
    requires UniqueKeys(shifts)
    ensures var s1 := CheckIn(EnsureShift(shifts, userId, date), userId, date, t1).1;
            CheckIn(s1, userId, date, t2) == (AlreadyCheckedIn, s1)
  {
    var s0 := EnsureShift(shifts, userId, date);
    EnsureShiftInvariantKeys(shifts, userId, date);
    CheckInOutcome(s0, userId, date, t1);
  }

  lemma {:induction false} EnsureShiftInvariantKeys(shifts: seq<ShiftRow>, userId: int, date: Date)
    requires UniqueKeys(shifts)
    ensures UniqueKeys(EnsureShift(shifts, userId, date))
  {
  }

  /** Check-out before any check-in is rejected with NoCheckIn. */
  lemma {:induction false} CheckOutBeforeCheckIn(shifts: seq<ShiftRow>, userId: int, date: Date, ts: int)
    requires FindShift(shifts, userId, date).None?
    ensures CheckOut(EnsureShift(shifts, userId, date), userId, date, ts) == (NoCheckIn, EnsureShift(shifts, userId, date))
  {
    var s0 := EnsureShift(shifts, userId, date);
    assert s0 == shifts + [ShiftRow(userId, date, None, None)];
    var f := FindShift(s0, userId, date);
    assert f == Some(|shifts|);
  }

  /** After an accepted check-out, a second check-out is rejected with AlreadyCheckedOut. */
  lemma {:induction false} CheckOutTwice(shifts: seq<ShiftRow>, userId: int, date: Date, t1: int, t2: int)
    requires UniqueKeys(shifts)
    requires CheckOut(shifts, userId, date, t1).0 == Accepted
    ensures var s1 := CheckOut(shifts, userId, date, t1).1;
            CheckOut(s1, userId, date, t2) == (AlreadyCheckedOut, s1)
  {
    CheckOutOutcome(shifts, userId, date, t1);
    var s1 := CheckOut(shifts, userId, date, t1).1;
    assert UniqueKeys(s1);
    CheckOutOutcome(s1, userId, date, t2);
  }

  // -------------------------------------------------------------- Queries

  /** `shifts s JOIN users u ON u.id = s.user_id`, in shift rowid order. */
  function Join(users: seq<UserRow>, shifts: seq<ShiftRow>): seq<JoinedRow>
  {
    if shifts == [] then []
    else
      var s := shifts[|shifts| - 1];
      Join(users, shifts[..|shifts| - 1]) +
        match UserById(users, s.userId)
        case Some(u) => [JoinedRow(s.userId, u.fullName, u.department, s.workDate, s.checkIn, s.checkOut)]
        case None => []
  }

  /** Text order (SQLite BINARY collation: code point order for UTF-8). */
  predicate StrLe(a: string, b: string)
  {
    if a == [] then true
    else if b == [] then false
    else if a[0] != b[0] then a[0] < b[0]
    else StrLe(a[1..], b[1..])
  }

  /** ORDER BY on a nullable text column: NULL first. */
  predicate OptStrLe(a: Option<string>, b: Option<string>)
  {
    a.None? || (b.Some? && StrLe(a.value, b.value))
  }

  /** ORDER BY work_date. */
  predicate ByDate(a: ShiftRow, b: ShiftRow)
  {
    DateLe(a.workDate, b.workDate)
  }

  /** ORDER BY u.department, u.full_name. */
  predicate ByDeptName(a: JoinedRow, b: JoinedRow)
  {
    OptStrLe(a.department, b.department) && (a.department == b.department ==> StrLe(a.fullName, b.fullName))
  }

  lemma {:induction false} StrLeProperties(a: string, b: string, c: string)
    ensures StrLe(a, b) || StrLe(b, a)
    ensures StrLe(a, b) && StrLe(b, a) ==> a == b
    ensures StrLe(a, b) && StrLe(b, c) ==> StrLe(a, c)
    decreases |a|
  {
    if a != [] && b != [] && c != [] {
      StrLeProperties(a[1..], b[1..], c[1..]);
      if a[0] == b[0] && StrLe(a, b) && StrLe(b, a) {
        assert a == [a[0]] + a[1..] && b == [b[0]] + b[1..];
      }
    } else if a != [] && b != [] {
      StrLeProperties(a[1..], b[1..], a[1..]);
      if a[0] == b[0] && StrLe(a, b) && StrLe(b, a) {
        assert a == [a[0]] + a[1..] && b == [b[0]] + b[1..];
      }
    }
  }

  lemma DateLeTotalPreorder()
    ensures TotalPreorder(ByDate)
  {
  }

  lemma {:induction false} ByDeptNameTotalPreorder()
    ensures TotalPreorder(ByDeptName)
  {
    forall a: JoinedRow, b: JoinedRow ensures ByDeptName(a, b) || ByDeptName(b, a) {
      StrLeProperties(a.fullName, b.fullName, a.fullName);
      if a.department.Some? && b.department.Some? {
        StrLeProperties(a.department.value, b.department.value, a.department.value);
      }
    }
    forall a: JoinedRow, b: JoinedRow, c: JoinedRow | ByDeptName(a, b) && ByDeptName(b, c)
      ensures ByDeptName(a, c)
    {
      StrLeProperties(a.fullName, b.fullName, c.fullName);
      if a.department.Some? && b.department.Some? && c.department.Some? {
        StrLeProperties(a.department.value, b.department.value, c.department.value);
        StrLeProperties(a.department.value, c.department.value, b.department.value);
        StrLeProperties(c.department.value, a.department.value, b.department.value);
      }
    }
  }

  /** ORDER BY s.user_id, s.work_date. */
  predicate ByUserDate(a: JoinedRow, b: JoinedRow)
  {
    a.userId < b.userId || (a.userId == b.userId && DateLe(a.workDate, b.workDate))
  }

  /** ORDER BY u.department, u.full_name, s.work_date. */
  predicate ByDeptNameDate(a: JoinedRow, b: JoinedRow)
  {
    && OptStrLe(a.department, b.department)
    && (a.department == b.department ==>
          StrLe(a.fullName, b.fullName) && (a.fullName == b.fullName ==> DateLe(a.workDate, b.workDate)))
  }

  lemma ByUserDateTotalPreorder()
    ensures TotalPreorder(ByUserDate)
  {
  }

  lemma {:induction false} ByDeptNameDateTotalPreorder()
    ensures TotalPreorder(ByDeptNameDate)
  {
    forall a: JoinedRow, b: JoinedRow ensures ByDeptNameDate(a, b) || ByDeptNameDate(b, a) {
      StrLeProperties(a.fullName, b.fullName, a.fullName);
      if a.department.Some? && b.department.Some? {
        StrLeProperties(a.department.value, b.department.value, a.department.value);
      }
    }
    forall a: JoinedRow, b: JoinedRow, c: JoinedRow | ByDeptNameDate(a, b) && ByDeptNameDate(b, c)
      ensures ByDeptNameDate(a, c)
    {
      StrLeProperties(a.fullName, b.fullName, c.fullName);
      StrLeProperties(a.fullName, c.fullName, b.fullName);
      StrLeProperties(c.fullName, a.fullName, b.fullName);
      if a.department.Some? && b.department.Some? && c.department.Some? {
        StrLeProperties(a.department.value, b.department.value, c.department.value);
        StrLeProperties(a.department.value, c.department.value, b.department.value);
        StrLeProperties(c.department.value, a.department.value, b.department.value);
      }
    }
  }

  /** Rows in department, name, date order are in department, name order. */
  lemma ByDeptNameDateRefines(s: seq<JoinedRow>)
    requires SortedBy(s, ByDeptNameDate)
    ensures SortedBy(s, ByDeptName)
  {
  }

  /** The test `s.work_date = ?`, as a value that can be passed to Filter. */
  function OnDate(date: Date): JoinedRow -> bool
  {
    (r: JoinedRow) => r.workDate == date
  }

  /** `fetch_today_shifts`: the day's rows joined with their users, ordered by
      department (NULL first) and then full name. */
  function TodayRows(users: seq<UserRow>, shifts: seq<ShiftRow>, date: Date): seq<JoinedRow>
  {
    SortBy(Filter(Join(users, shifts), OnDate(date)), ByDeptName)
  }

  /** The roster holds exactly the joined rows of that date, ordered by department and name. */
  lemma TodayRowsSpec(users: seq<UserRow>, shifts: seq<ShiftRow>, date: Date)
    ensures multiset(TodayRows(users, shifts, date)) == multiset(Filter(Join(users, shifts), OnDate(date)))
    ensures forall i :: 0 <= i < |TodayRows(users, shifts, date)| ==> TodayRows(users, shifts, date)[i].workDate == date
    ensures SortedBy(TodayRows(users, shifts, date), ByDeptName)
  {
    var f := Filter(Join(users, shifts), OnDate(date));
    var t := TodayRows(users, shifts, date);
    ByDeptNameTotalPreorder();
    SortBySorted(f, ByDeptName);
    forall i | 0 <= i < |t| ensures t[i].workDate == date {
      assert t[i] in multiset(f);
      var k :| 0 <= k < |f| && f[k] == t[i];
    }
  }
}
