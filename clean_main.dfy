/** shiftbot_clean/main.py: the open-shift ledger behind the "Пришёл" and
    "Ушёл" buttons, where a user may hold any number of shift rows stamped
    with a start and an optional end, and the helpers around it: month bounds,
    the hours-and-minutes text, calendar navigation and the date-range report.
    Timestamps are local-clock seconds from 0001-01-01 00:00 (see Calendar);
    the current time is an input. */
module CleanMain {
  import opened Wrappers
  import opened Seqs
  import opened Format
  import opened Ledger
  import opened Calendar
  import Totals

  // ------------------------------------------------------------- Tables

  /** A latitude/longitude pair as Telegram sends it. */
  datatype Loc = Loc(lat: real, lon: real)

  /** A row of `users`, keyed by the Telegram id. */
  datatype Account = Account(fullName: string, username: Option<string>, createdAt: int)

  /** A row of `shifts`. The table is kept in rowid order; `end` is NULL while
      the shift is open. */
  datatype Shift = Shift(userId: int, start: int, end: Option<int>, startLoc: Option<Loc>, endLoc: Option<Loc>)

  predicate IsOpenOf(s: Shift, userId: int)
  {
    s.userId == userId && s.end.None?
  }

  ghost predicate HasOpen(shifts: seq<Shift>, userId: int)
  {
    exists i :: 0 <= i < |shifts| && IsOpenOf(shifts[i], userId)
  }

  /** The invariant the buttons keep: no user has two open shifts. */
  ghost predicate AtMostOneOpen(shifts: seq<Shift>)
  {
    forall i, j :: 0 <= i < j < |shifts| && shifts[i].end.None? && shifts[j].end.None? ==> shifts[i].userId != shifts[j].userId
  }

  // -------------------------------------------------------------- Users

  /** `upsert_user`: a known user gets the new name and username and keeps the
      creation time; an unknown one is inserted, created at `now`. */
  function Upsert(users: map<int, Account>, userId: int, fullName: string, username: Option<string>, now: int): map<int, Account>
  {
    users[userId := if userId in users then users[userId].(fullName := fullName, username := username)
                    else Account(fullName, username, now)]
  }

  /** The user is present with the given name and username afterwards, an
      existing creation time survives, every other user is untouched, and a
      repeated call changes nothing more. */
  lemma UpsertSpec(users: map<int, Account>, userId: int, fullName: string, username: Option<string>, now: int, later: int)
    ensures var after := Upsert(users, userId, fullName, username, now);
            && after.Keys == users.Keys + {userId}
            && after[userId].fullName == fullName && after[userId].username == username
            && after[userId].createdAt == (if userId in users then users[userId].createdAt else now)
            && (forall k :: k in users && k != userId ==> after[k] == users[k])
            && Upsert(after, userId, fullName, username, later) == after
  {
  }

  // ------------------------------------------------------------- Shifts

  /** `SELECT ... WHERE user_id=? AND end_ts IS NULL ORDER BY start_ts DESC
      LIMIT 1`: the index of the user's open shift that started last. SQL
      leaves ties unordered; the later row is taken. */
  function LatestOpen(shifts: seq<Shift>, userId: int): (r: Option<nat>)
    ensures r.Some? ==> r.value < |shifts| && IsOpenOf(shifts[r.value], userId)
    ensures r.Some? ==> forall i :: 0 <= i < |shifts| && IsOpenOf(shifts[i], userId) ==> shifts[i].start <= shifts[r.value].start
    ensures r.None? ==> forall i :: 0 <= i < |shifts| ==> !IsOpenOf(shifts[i], userId)
  {
    if shifts == [] then None
    else
      var n := |shifts| - 1;
      var prev := LatestOpen(shifts[..n], userId);
      if IsOpenOf(shifts[n], userId) && (prev.None? || shifts[prev.value].start <= shifts[n].start) then Some(n)
      else prev
  }

  /** `end_shift`: the latest open shift gets its end time and location; the
      row as it was before the update is returned. */
  function CloseLatest(shifts: seq<Shift>, userId: int, now: int, loc: Option<Loc>): (Option<Shift>, seq<Shift>)
  {
    match LatestOpen(shifts, userId)
    case None => (None, shifts)
    case Some(k) => (Some(shifts[k]), shifts[k := shifts[k].(end := Some(now), endLoc := loc)])
  }

  /** While no user holds two open shifts, `end_shift` closes exactly the
      user's open shift (if any), returns it, and changes no other row. */
  lemma CloseLatestSpec(shifts: seq<Shift>, userId: int, now: int, loc: Option<Loc>)
    requires AtMostOneOpen(shifts)
    ensures var (row, after) := CloseLatest(shifts, userId, now, loc);
            && |after| == |shifts|
            && (row.None? <==> !HasOpen(shifts, userId))
            && (forall i :: 0 <= i < |shifts| && !IsOpenOf(shifts[i], userId) ==> after[i] == shifts[i])
            && (forall i :: 0 <= i < |shifts| && IsOpenOf(shifts[i], userId) ==>
                  row == Some(shifts[i]) && after[i] == shifts[i].(end := Some(now), endLoc := loc))
            && AtMostOneOpen(after)
            && !HasOpen(after, userId)
  {
    var (row, after) := CloseLatest(shifts, userId, now, loc);
    match LatestOpen(shifts, userId)
    case None =>
    case Some(k) =>
      forall i | 0 <= i < |shifts| && IsOpenOf(shifts[i], userId)
        ensures i == k
      {
        if i != k {
          assert false;
        }
      }
  }

  /** The time a shift has lasted: to its end, or to `now` while it is open. */
  function ShiftDurationSec(row: Shift, now: int): int
  {
    (if row.end.Some? then row.end.value else now) - row.start
  }

  function DurationAt(now: int): Shift -> int
  {
    (s: Shift) => ShiftDurationSec(s, now)
  }

  // ---------------------------------------------------- Arrive and leave

  /** What the bot answers. */
  datatype Reply =
    | AskFullName              // the user is not registered
    | AlreadyOpen              // "Пришёл" while a shift is open
    | ArrivedAt(ts: int)
    | NoOpenShift              // "Ушёл" with nothing open
    | LeftAt(ts: int, seconds: int)
    | NameTooShort             // fewer than two words
    | Registered(fullName: string)
    | MonthTotal(seconds: int) // the /start summary
    | MonthOutOfRange          // December 9999 has no next month

  /** `arrived`: a registered user with no open shift opens one at `now`. */
  function Arrive(users: map<int, Account>, shifts: seq<Shift>, userId: int, now: int, loc: Option<Loc>): (Reply, seq<Shift>)
  {
    if userId !in users then (AskFullName, shifts)
    else if LatestOpen(shifts, userId).Some? then (AlreadyOpen, shifts)
    else (ArrivedAt(now), shifts + [Shift(userId, now, None, loc, None)])
  }

  /** `left`: a registered user's open shift is closed at `now`, and its length
      is reported. */
  function Leave(users: map<int, Account>, shifts: seq<Shift>, userId: int, now: int, loc: Option<Loc>): (Reply, seq<Shift>)
  {
    if userId !in users then (AskFullName, shifts)
    else
      match CloseLatest(shifts, userId, now, loc)
      case (None, _) => (NoOpenShift, shifts)
      case (Some(row), after) => (LeftAt(now, ShiftDurationSec(row, now)), after)
  }

  /** "Пришёл" opens a shift exactly when the user is registered and has none
      open, never creates a second open shift, and otherwise changes nothing. */
  lemma ArriveSpec(users: map<int, Account>, shifts: seq<Shift>, userId: int, now: int, loc: Option<Loc>)
    requires AtMostOneOpen(shifts)
    ensures var (reply, after) := Arrive(users, shifts, userId, now, loc);
            && (reply == ArrivedAt(now) <==> userId in users && !HasOpen(shifts, userId))
            && (reply == AlreadyOpen <==> userId in users && HasOpen(shifts, userId))
            && (reply != ArrivedAt(now) ==> after == shifts)
            && (reply == ArrivedAt(now) ==>
                  |after| == |shifts| + 1 && after[..|shifts|] == shifts && after[|shifts|] == Shift(userId, now, None, loc, None))
            && (userId in users ==> HasOpen(after, userId))
            && AtMostOneOpen(after)
  {
    var (reply, after) := Arrive(users, shifts, userId, now, loc);
    if reply == ArrivedAt(now) {
      assert IsOpenOf(after[|shifts|], userId);
    } else if userId in users {
      var k := LatestOpen(shifts, userId).value;
      assert IsOpenOf(after[k], userId);
    }
  }

  /** "Ушёл" closes the open shift exactly when the user is registered and has
      one, reports how long it lasted, leaves the user with nothing open, and
      otherwise changes nothing. */
  lemma LeaveSpec(users: map<int, Account>, shifts: seq<Shift>, userId: int, now: int, loc: Option<Loc>)
    requires AtMostOneOpen(shifts)
    ensures var (reply, after) := Leave(users, shifts, userId, now, loc);
            && (reply.LeftAt? <==> userId in users && HasOpen(shifts, userId))
            && (reply == NoOpenShift <==> userId in users && !HasOpen(shifts, userId))
            && (!reply.LeftAt? ==> after == shifts)
            && (forall i :: 0 <= i < |shifts| && IsOpenOf(shifts[i], userId) && userId in users ==>
                  reply == LeftAt(now, now - shifts[i].start))
            && (userId in users ==> !HasOpen(after, userId))
            && AtMostOneOpen(after)
  {
    CloseLatestSpec(shifts, userId, now, loc);
  }

  /** Arriving and then leaving records one closed shift from the first
      moment to the second, and reports their difference. */
  lemma ArriveThenLeave(users: map<int, Account>, shifts: seq<Shift>, userId: int, t1: int, t2: int, l1: Option<Loc>, l2: Option<Loc>)
    requires AtMostOneOpen(shifts) && userId in users && !HasOpen(shifts, userId)
    ensures var (r1, s1) := Arrive(users, shifts, userId, t1, l1);
            var (r2, s2) := Leave(users, s1, userId, t2, l2);
            && r1 == ArrivedAt(t1) && r2 == LeftAt(t2, t2 - t1)
            && s2 == shifts + [Shift(userId, t1, Some(t2), l1, l2)]
  {
    var s1 := shifts + [Shift(userId, t1, None, l1, None)];
    var n := |shifts|;
    assert IsOpenOf(s1[n], userId);
    var k := LatestOpen(s1, userId).value;
    if k != n {
      assert false;
    }
  }

  // --------------------------------------------------------- Listing

  /** `start_ts >= since AND (end_ts <= until OR end_ts IS NULL)` for one user. */
  function Between(userId: int, since: int, until: int): Shift -> bool
  {
    (s: Shift) => s.userId == userId && s.start >= since && (s.end.None? || s.end.value <= until)
  }

  /** ORDER BY start_ts. */
  predicate ByStart(a: Shift, b: Shift)
  {
    a.start <= b.start
  }

  /** `list_shifts_between`. */
  function ShiftsBetween(shifts: seq<Shift>, userId: int, since: int, until: int): seq<Shift>
  {
    SortBy(Filter(shifts, Between(userId, since, until)), ByStart)
  }

  /** The listing holds exactly the user's shifts that start at or after
      `since` and are open or end by `until`, each as often as in the table,
      in ascending start order. */
  lemma ShiftsBetweenSpec(shifts: seq<Shift>, userId: int, since: int, until: int, x: Shift)
    ensures var rows := ShiftsBetween(shifts, userId, since, until);
            && (x in rows <==> x in shifts && x.userId == userId && x.start >= since && (x.end.None? || x.end.value <= until))
            && multiset(rows) == multiset(Filter(shifts, Between(userId, since, until)))
            && SortedBy(rows, ByStart)
  {
    SortedFilterMembers(shifts, Between(userId, since, until), ByStart, x);
    assert TotalPreorder(ByStart);
    SortBySorted(Filter(shifts, Between(userId, since, until)), ByStart);
  }

  /** Adds up shift lengths, as the `for` loop in `/start` and the generator in
      `finish_report` do. */
  method TotalSeconds(rows: seq<Shift>, now: int) returns (total: int)
    ensures total == SumOf(rows, DurationAt(now))
  {
    total := 0;
    var i := 0;
    while i < |rows|
      invariant 0 <= i <= |rows|
      invariant total == SumOf(rows[..i], DurationAt(now))
    {
      assert rows[..i + 1][..i] == rows[..i];
      total := total + ShiftDurationSec(rows[i], now);
      i := i + 1;
    }
    assert rows[..i] == rows;
  }

  // -------------------------------------------------------- Month bounds

  /** `month_bounds`: the first of the month and the first of the next one,
      December rolling into January; `replace(year=10000)` fails, which is
      None here. */
  function MonthBounds(d: Date): Option<(Date, Date)>
  {
    if d.month == 12 && d.year == 9999 then None
    else Some((Date(d.year, d.month, 1), NextMonthStart(d.year, d.month)))
  }

  /** The bounds are real dates, exactly the days of `d`'s month start in
      `[start, end)`, and the range is the month's length. */
  lemma MonthBoundsSpec(d: Date, e: Date)
    requires ValidDate(d) && ValidDate(e)
    ensures MonthBounds(d).None? <==> d.year == 9999 && d.month == 12
    ensures MonthBounds(d).Some? ==>
              var (start, end) := MonthBounds(d).value;
              && ValidDate(start) && ValidDate(end)
              && start.year == d.year && start.month == d.month && start.day == 1
              && (DayStart(start) <= DayStart(e) < DayStart(end) <==> e.year == d.year && e.month == d.month)
              && DayStart(end) - DayStart(start) == 86400 * DaysInMonth(d.year, d.month)
  {
    if MonthBounds(d).Some? {
      var (start, end) := MonthBounds(d).value;
      NextMonthStartSpec(d.year, d.month);
      DayNumberOrder(start, e);
      DayNumberOrder(e, end);
    }
  }

  // ------------------------------------------------------- Hours text

  /** `human_td`: whole hours (floor division, so negative totals count down),
      then the minutes of the remaining part, two digits. */
  function HumanTd(seconds: int): string
  {
    IntToString(seconds / 3600) + " ч " + PadInt((seconds % 3600) / 60, 2) + " мин"
  }

  /** Reads `H ч MM мин` back as a number of minutes. */
  function ParseHumanTd(t: string): Option<int>
  {
    if |t| >= 10 && t[|t| - 9..|t| - 6] == " ч " && t[|t| - 4..] == " мин" then
      match (ParseInt(t[..|t| - 9]), ParseNat(t[|t| - 6..|t| - 4]))
      case (Some(h), Some(m)) => Some(h * 60 + m)
      case _ => None
    else None
  }

  /** The minutes field is exactly two digits below 60, and reading the text
      back gives the whole minutes of `seconds`: only the seconds are lost. */
  lemma HumanTdRoundTrip(seconds: int)
    ensures var m := (seconds % 3600) / 60;
            && 0 <= m < 60
            && (seconds / 3600) * 3600 + m * 60 <= seconds < (seconds / 3600) * 3600 + m * 60 + 60
            && ParseHumanTd(HumanTd(seconds)) == Some(seconds / 60)
  {
    var h, m := seconds / 3600, (seconds % 3600) / 60;
    HoursMinutes(seconds);
    var a, b := IntToString(h), PadInt(m, 2);
    Totals.PadIntExact(m, 2);
    assert |a| >= 1;
    HumanTdFields(a, b);
    ParseIntToString(h);
    PadIntRoundTrip(m, 2);
    var t := HumanTd(seconds);
    assert t == a + " ч " + b + " мин";
    assert ParseInt(t[..|t| - 9]) == Some(h);
    assert ParseNat(t[|t| - 6..|t| - 4]) == Some(m);
  }

  /** Hours and minutes of a number of seconds, in floor division. */
  lemma HoursMinutes(seconds: int)
    ensures var h, m := seconds / 3600, (seconds % 3600) / 60;
            && 0 <= m < 60
            && h * 3600 + m * 60 <= seconds < h * 3600 + m * 60 + 60
            && h * 60 + m == seconds / 60
  {
    var h, r := seconds / 3600, seconds % 3600;
    var m, q := r / 60, r % 60;
    assert seconds == 3600 * h + r;
    assert r == 60 * m + q && 0 <= q < 60;
    assert seconds == 60 * (60 * h + m) + q;
  }

  /** The hours and the minutes text sit at fixed places from the end. */
  lemma HumanTdFields(a: string, b: string)
    requires |a| >= 1 && |b| == 2
    ensures var t := a + " ч " + b + " мин";
            && |t| >= 10 && t[..|t| - 9] == a && t[|t| - 6..|t| - 4] == b
            && t[|t| - 9..|t| - 6] == " ч " && t[|t| - 4..] == " мин"
  {
  }

  // ------------------------------------------------- Registration

  /** `reg_fullname`: the stripped text is stored as the name when it has at
      least two words; otherwise nothing is written. */
  method RegFullname(store: Store, userId: int, text: string, username: Option<string>, now: int) returns (reply: Reply)
    modifies store
    ensures reply == NameTooShort <==> WordCount(text) < 2
    ensures reply == NameTooShort ==> store.users == old(store.users)
    ensures reply != NameTooShort ==>
              reply == Registered(Strip(text)) && store.users == Upsert(old(store.users), userId, Strip(text), username, now)
    ensures store.shifts == old(store.shifts)
  {
    var fullName := Strip(text);
    WordCountStrip(text);
    if WordCount(fullName) < 2 {
      return NameTooShort;
    }
    store.UpsertUser(userId, fullName, username, now);
    reply := Registered(fullName);
  }

  // --------------------------------------------------------- The store

  /** The `users` and `shifts` tables. */
  class Store {
    var users: map<int, Account>
    var shifts: seq<Shift>

    constructor()
      ensures users == map[] && shifts == []
    {
      users := map[];
      shifts := [];
    }

    method UpsertUser(userId: int, fullName: string, username: Option<string>, now: int)
      modifies this
      ensures users == Upsert(old(users), userId, fullName, username, now)
      ensures shifts == old(shifts)
    {
      if userId in users {
        users := users[userId := users[userId].(fullName := fullName, username := username)];
      } else {
        users := users[userId := Account(fullName, username, now)];
      }
    }

    /** `open_shift_exists`. */
    method OpenShiftExists(userId: int) returns (row: Option<Shift>)
      ensures row.None? <==> !HasOpen(shifts, userId)
      ensures row.Some? ==> row.value == shifts[LatestOpen(shifts, userId).value]
    {
      match LatestOpen(shifts, userId)
      case None => row := None;
      case Some(k) => row := Some(shifts[k]);
    }

    /** `start_shift`: a new open row. */
    method StartShift(userId: int, now: int, loc: Option<Loc>)
      modifies this
      ensures shifts == old(shifts) + [Shift(userId, now, None, loc, None)]
      ensures users == old(users)
    {
      shifts := shifts + [Shift(userId, now, None, loc, None)];
    }

    /** `end_shift`. */
    method EndShift(userId: int, now: int, loc: Option<Loc>) returns (row: Option<Shift>)
      modifies this
      ensures (row, shifts) == CloseLatest(old(shifts), userId, now, loc)
      ensures users == old(users)
    {
      match LatestOpen(shifts, userId)
      case None => row := None;
      case Some(k) =>
        row := Some(shifts[k]);
        shifts := shifts[k := shifts[k].(end := Some(now), endLoc := loc)];
    }

    /** `list_shifts_between`. */
    method ListShiftsBetween(userId: int, since: int, until: int) returns (rows: seq<Shift>)
      ensures rows == ShiftsBetween(shifts, userId, since, until)
    {
      rows := SortBy(Filter(shifts, Between(userId, since, until)), ByStart);
    }
  }

  // ------------------------------------------------------- Handlers

  /** The "🟢 Пришёл" button. */
  method Arrived(store: Store, userId: int, now: int, loc: Option<Loc>) returns (reply: Reply)
    modifies store
    ensures (reply, store.shifts) == Arrive(old(store.users), old(store.shifts), userId, now, loc)
    ensures store.users == old(store.users)
  {
    if userId !in store.users {
      return AskFullName;
    }
    var open := store.OpenShiftExists(userId);
    if open.Some? {
      return AlreadyOpen;
    }
    store.StartShift(userId, now, loc);
    reply := ArrivedAt(now);
  }

  /** The "🔴 Ушёл" button. */
  method Left(store: Store, userId: int, now: int, loc: Option<Loc>) returns (reply: Reply)
    modifies store
    ensures (reply, store.shifts) == Leave(old(store.users), old(store.shifts), userId, now, loc)
    ensures store.users == old(store.users)
  {
    if userId !in store.users {
      return AskFullName;
    }
    var row := store.EndShift(userId, now, loc);
    if row.None? {
      return NoOpenShift;
    }
    reply := LeftAt(now, ShiftDurationSec(row.value, now));
  }

  /** `/start`: a registered user gets the time worked in the month of `today`
      (open shifts counted up to `now`). */
  method Start(store: Store, userId: int, today: Date, now: int) returns (reply: Reply)
    requires ValidDate(today)
    ensures userId !in store.users <==> reply == AskFullName
    ensures reply == MonthOutOfRange <==> userId in store.users && today.year == 9999 && today.month == 12
    ensures reply.MonthTotal? ==>
              var since := DayStart(Date(today.year, today.month, 1));
              var until := DayStart(NextMonthStart(today.year, today.month));
              reply.seconds == SumOf(Filter(store.shifts, Between(userId, since, until)), DurationAt(now))
    ensures reply in {AskFullName, MonthOutOfRange} || reply.MonthTotal?
  {
    if userId !in store.users {
      return AskFullName;
    }
    match MonthBounds(today)
    case None =>
      reply := MonthOutOfRange;
    case Some((start, end)) =>
      var since, until := DayStart(start), DayStart(end);
      var rows := store.ListShiftsBetween(userId, since, until);
      var total := TotalSeconds(rows, now);
      SumOfPermutation(rows, Filter(store.shifts, Between(userId, since, until)), DurationAt(now));
      reply := MonthTotal(total);
  }

  // ---------------------------------------------------- Calendar and report

  /** `cal_common`'s month arithmetic: "prev" steps back, any other direction
      forward, wrapping the year. */
  function Nav(year: int, month: int, direction: string): (int, int)
  {
    if direction == "prev" then
      if month - 1 == 0 then (year - 1, 12) else (year, month - 1)
    else
      if month + 1 == 13 then (year + 1, 1) else (year, month + 1)
  }

  /** Navigation stays within months 1..12, moves by exactly one month, and
      "prev" undoes "next". */
  lemma NavSpec(year: int, month: int, direction: string)
    requires 1 <= month <= 12
    ensures var (y, m) := Nav(year, month, direction);
            && 1 <= m <= 12
            && y * 12 + m == year * 12 + month + (if direction == "prev" then -1 else 1)
            && (direction != "prev" ==> Nav(y, m, "prev") == (year, month))
  {
  }

  /** The picked dates in calendar order: `finish_report` swaps them when
      the "to" date comes first. */
  function Ordered(from: Date, to: Date): (Date, Date)
  {
    if DateLt(to, from) then (to, from) else (from, to)
  }

  /** Every day from the earlier to the later picked date, both included, lies
      entirely inside `[start of lo, start of hi + 1 day)`, and no other day
      starts there. */
  lemma ReportRangeSpec(from: Date, to: Date, e: Date)
    requires ValidDate(from) && ValidDate(to) && ValidDate(e)
    requires Ordered(from, to).1 != Date(9999, 12, 31)
    ensures var (lo, hi) := Ordered(from, to);
            && DateLe(lo, hi) && {lo, hi} == {from, to}
            && (DateLe(lo, e) && DateLe(e, hi) <==> DayStart(lo) <= DayStart(e) && DayStart(e) + 86400 <= DayStart(NextDay(hi)))
  {
    var (lo, hi) := Ordered(from, to);
    NextDaySpec(hi);
    DayNumberOrder(lo, e);
    DayNumberOrder(e, hi);
  }

  /** One line of the shifts report. */
  datatype Line = Line(start: int, end: Option<int>, seconds: int)

  /** What `finish_report` shows; the text layout is not modelled. */
  datatype Report =
    | Hours(from: Date, to: Date, seconds: int)
    | NoShifts(from: Date, to: Date)
    | Shifts(from: Date, to: Date, lines: seq<Line>)
    | RangeOverflow // the day after 9999-12-31 does not exist

  function LineOf(r: Shift, now: int): Line
  {
    Line(r.start, r.end, ShiftDurationSec(r, now))
  }

  /** The loop building the lines of the shifts report. */
  method ReportLines(rows: seq<Shift>, now: int) returns (lines: seq<Line>)
    ensures |lines| == |rows|
    ensures forall i :: 0 <= i < |rows| ==> lines[i] == LineOf(rows[i], now)
  {
    lines := [];
    var i := 0;
    while i < |rows|
      invariant 0 <= i <= |rows|
      invariant |lines| == i
      invariant forall j :: 0 <= j < i ==> lines[j] == LineOf(rows[j], now)
    {
      lines := lines + [LineOf(rows[i], now)];
      i := i + 1;
    }
  }

  /** `finish_report`: order the two dates, take the shifts from the start of
      the first day to the start of the day after the last, and either add up
      their lengths ("hours", also when no kind was stored) or list them. */
  method FinishReport(store: Store, userId: int, from: Date, to: Date, kind: Option<string>, now: int) returns (report: Report)
    requires ValidDate(from) && ValidDate(to)
    ensures var (lo, hi) := Ordered(from, to);
            && (report == RangeOverflow <==> hi == Date(9999, 12, 31))
            && (report != RangeOverflow ==>
                  var since := DayStart(lo);
                  var until := DayStart(NextDay(hi));
                  var rows := ShiftsBetween(store.shifts, userId, since, until);
                  && report.from == lo && report.to == hi
                  && (report.Hours? <==> kind.None? || kind == Some("hours"))
                  && (report.Hours? ==> report.seconds == SumOf(Filter(store.shifts, Between(userId, since, until)), DurationAt(now)))
                  && (report.NoShifts? ==> rows == [])
                  && (report.Shifts? ==> rows != [] && |report.lines| == |rows|
                                         && forall i :: 0 <= i < |rows| ==> report.lines[i] == LineOf(rows[i], now)))
  {
    var (lo, hi) := Ordered(from, to);
    if hi == Date(9999, 12, 31) {
      return RangeOverflow;
    }
    var since, until := DayStart(lo), DayStart(NextDay(hi));
    var rows := store.ListShiftsBetween(userId, since, until);
    var k := if kind.Some? then kind.value else "hours";
    if k == "hours" {
      var total := TotalSeconds(rows, now);
      SumOfPermutation(rows, Filter(store.shifts, Between(userId, since, until)), DurationAt(now));
      report := Hours(lo, hi, total);
    } else if rows == [] {
      report := NoShifts(lo, hi);
    } else {
      var lines := ReportLines(rows, now);
      report := Shifts(lo, hi, lines);
    }
  }
}
