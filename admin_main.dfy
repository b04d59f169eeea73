/** shiftbot_admin_siw1_rd3/main.py: the arrival/leaving flow gated by a
    geofence, the daily roster and the `/hours_sum` report. The distance to
    the workplace, today's date and the current timestamp are inputs; chat
    replies and manager notifications are values the methods produce. */
module AdminMain {
  import opened Wrappers
  import opened Seqs
  import opened Format
  import opened Ledger
  import opened Totals
  import AdminDb

  // ------------------------------------------------------------ Replies

  /** What the bot answers in the attendance flow. */
  datatype Reply =
    | NeedRegistration         // no user, or no department yet
    | SendLocation(act: string) // the pending action is set; a location is asked for
    | NeedAction               // a location arrived with no pending "in"/"out"
    | OutsideZone(meters: int) // too far from the workplace
    | CheckInRefused           // the ledger refused the check-in
    | CheckedIn
    | CheckOutRefused(msg: string) // the ledger's own message
    | CheckedOut

  /** What `manager_notify` sends. */
  datatype Notice =
    | OutsideAttempt(fullName: string, department: Option<string>, act: string, meters: int)
    | Arrived(fullName: string, department: Option<string>, ts: int, meters: int)
    | Departed(fullName: string, department: Option<string>, ts: int, meters: int)

  /** `is_admin`: listed in the admin ids, or the managers' chat itself. */
  predicate IsAdmin(userId: int, adminIds: set<int>, managersChat: int)
  {
    userId in adminIds || managersChat == userId
  }

  /** `_inside_geofence`: the boundary counts as inside. */
  predicate InsideGeofence(dist: real, radius: real)
  {
    dist <= radius
  }

  /** Python's `int(x)` on a float: drops the fraction, rounding toward zero. */
  function Trunc(x: real): (n: int)
    ensures x >= 0.0 ==> n as real <= x < n as real + 1.0
    ensures x < 0.0 ==> n as real - 1.0 < x <= n as real
  {
    if x >= 0.0 then x.Floor else -((-x).Floor)
  }

  /** A user that may mark shifts: registered and with a non-empty department. */
  predicate Registered(users: seq<UserRow>, tgId: int)
  {
    FindTg(users, tgId).Some? && Truthy(users[FindTg(users, tgId).value].department)
  }

  /** The action `PENDING_ACTION` holds for the user, if it is "in" or "out". */
  predicate Acting(pending: map<int, string>, tgId: int)
  {
    tgId in pending && (pending[tgId] == "in" || pending[tgId] == "out")
  }

  // ------------------------------------------------------------ Daily roster

  /** `department or "Без подразделения"`: the heading rows are grouped under,
      both in the daily roster and in the hours summary. */
  function DeptHeading(department: Option<string>): string
  {
    if Truthy(department) then department.value else "Без подразделения"
  }

  /** The heading a roster row is grouped under. */
  function DeptLabel(r: JoinedRow): string
  {
    DeptHeading(r.department)
  }

  /** `ts[11:16]` of an ISO timestamp: the `HH:MM` of the local clock, or the
      placeholder when the timestamp is missing. */
  function ClockText(ts: Option<int>, missing: string): string
  {
    match ts
    case None => missing
    case Some(t) => PadInt(t / 3600 % 24, 2) + ":" + PadInt(t / 60 % 60, 2)
  }

  function RowLine(r: JoinedRow): string
  {
    "• " + r.fullName + ": " + ClockText(r.checkIn, "—") + " — " + ClockText(r.checkOut, "⏳")
  }

  /** One line per row, in order. */
  function RowLines(rows: seq<JoinedRow>): (lines: seq<string>)
    ensures |lines| == |rows|
    ensures forall i :: 0 <= i < |rows| ==> lines[i] == RowLine(rows[i])
  {
    if rows == [] then [] else RowLines(rows[..|rows| - 1]) + [RowLine(rows[|rows| - 1])]
  }

  lemma RowLinesSnoc(rows: seq<JoinedRow>, j: nat)
    requires j < |rows|
    ensures RowLines(rows[..j + 1]) == RowLines(rows[..j]) + [RowLine(rows[j])]
  {
    assert rows[..j + 1][..j] == rows[..j];
  }

  lemma SectionsSnoc(groups: seq<Bucket<string, JoinedRow>>, k: nat)
    requires k < |groups|
    ensures Sections(groups[..k + 1]) == Sections(groups[..k]) + Section(groups[k])
  {
    assert groups[..k + 1][..k] == groups[..k];
  }

  /** A department's block: its bold heading, its rows, an empty line. */
  function Section(b: Bucket<string, JoinedRow>): seq<string>
  {
    ["<b>" + b.key + "</b>"] + RowLines(b.items) + [""]
  }

  function Sections(groups: seq<Bucket<string, JoinedRow>>): seq<string>
  {
    if groups == [] then [] else Sections(groups[..|groups| - 1]) + Section(groups[|groups| - 1])
  }

  function ReportHeader(today: Date): string
  {
    "📊 Отчёт за " + DateText(today) + "\n"
  }

  function ReportParts(today: Date, rows: seq<JoinedRow>): seq<string>
  {
    [ReportHeader(today)] + Sections(GroupBy(rows, DeptLabel))
  }

  /** `build_report_text` on the rows of the day. */
  function ReportText(today: Date, rows: seq<JoinedRow>): string
  {
    if rows == [] then "Сегодня отметок нет." else Strip(Format.Join(ReportParts(today, rows), "\n"))
  }

  function BucketSize(b: Bucket<string, JoinedRow>): int
  {
    |b.items|
  }

  function One(r: JoinedRow): int
  {
    1
  }

  lemma {:induction false} SumOfOne(s: seq<JoinedRow>)
    ensures SumOf(s, One) == |s|
    decreases |s|
  {
    if s != [] {
      SumOfOne(s[..|s| - 1]);
    }
  }

  lemma {:induction false} SectionsLength(groups: seq<Bucket<string, JoinedRow>>)
    ensures |Sections(groups)| == 2 * |groups| + SumOf(groups, BucketSize)
    decreases |groups|
  {
    if groups != [] {
      SectionsLength(groups[..|groups| - 1]);
    }
  }

  /** A row's line lies in its department's block. */
  lemma {:induction false} SectionsContain(groups: seq<Bucket<string, JoinedRow>>, k: nat, r: JoinedRow)
    requires k < |groups| && r in groups[k].items
    ensures RowLine(r) in Sections(groups)
    decreases |groups|
  {
    var init := groups[..|groups| - 1];
    var sec := Section(groups[|groups| - 1]);
    assert Sections(groups) == Sections(init) + sec;
    if k < |groups| - 1 {
      assert init[k] == groups[k];
      SectionsContain(init, k, r);
    } else {
      SectionContains(groups[k], r);
    }
  }

  /** A row's line lies in the block of a department holding it. */
  lemma SectionContains(b: Bucket<string, JoinedRow>, r: JoinedRow)
    requires r in b.items
    ensures RowLine(r) in Section(b)
  {
    var j :| 0 <= j < |b.items| && b.items[j] == r;
    assert Section(b)[1 + j] == RowLine(r);
  }

  /** The roster: a header, then per department (in order of first appearance)
      a heading, one line per row in the roster's order and an empty line; a
      department's block holds exactly the rows under its heading, and every
      row gets its line. */
  lemma ReportPartsSpec(today: Date, rows: seq<JoinedRow>, heading: string)
    ensures var groups := GroupBy(rows, DeptLabel);
            && |ReportParts(today, rows)| == 1 + 2 * |groups| + |rows|
            && ReportParts(today, rows)[0] == ReportHeader(today)
            && (BucketIndex(groups, heading) >= 0 ==> groups[BucketIndex(groups, heading)].items == Filter(rows, KeyIs(DeptLabel, heading)))
            && (BucketIndex(groups, heading) < 0 ==> Filter(rows, KeyIs(DeptLabel, heading)) == [])
            && (forall r :: r in rows ==> RowLine(r) in ReportParts(today, rows))
  {
    var groups := GroupBy(rows, DeptLabel);
    SectionsLength(groups);
    GroupBySum(rows, DeptLabel, One);
    SumOfOne(rows);
    forall i | 0 <= i < |groups|
      ensures BucketSize(groups[i]) == SumOf(groups[i].items, One)
    {
      SumOfOne(groups[i].items);
    }
    SumOfPointwise(groups, BucketSize, groups, (b: Bucket<string, JoinedRow>) => SumOf(b.items, One));
    GroupByItems(rows, DeptLabel, heading);
    GroupByKeys(rows, DeptLabel);
    forall r | r in rows ensures RowLine(r) in ReportParts(today, rows) {
      var n :| 0 <= n < |rows| && rows[n] == r;
      var k := BucketIndex(groups, DeptLabel(r));
      GroupByItems(rows, DeptLabel, DeptLabel(r));
      assert r in Filter(rows, KeyIs(DeptLabel, DeptLabel(r)));
      SectionsContain(groups, k, r);
    }
  }

  // ------------------------------------------------------------ /hours_sum

  /** `year, month = map(int, text.split("-"))`: exactly two integer fields. */
  function ParseYearMonth(s: string): Option<(int, int)>
  {
    var fields := SplitOn(s, '-');
    if |fields| == 2 && ParseInt(fields[0]).Some? && ParseInt(fields[1]).Some? then
      Some((ParseInt(fields[0]).value, ParseInt(fields[1]).value))
    else None
  }

  /** A `YYYY-MM` argument reads as its year and month. */
  lemma ParseYearMonthOf(year: nat, month: nat)
    ensures ParseYearMonth(PadInt(year, 4) + "-" + PadInt(month, 2)) == Some((year, month))
  {
    var a, b := PadInt(year, 4), PadInt(month, 2);
    NoSeparator(a);
    NoSeparator(b);
    SplitOnPair(a, b, '-');
    assert a + "-" + b == a + ['-'] + b;
    PadIntRoundTrip(year, 4);
    PadIntRoundTrip(month, 2);
    ParseIntDigits(a);
    ParseIntDigits(b);
    assert SplitOn(a + "-" + b, '-') == [a, b];
  }

  lemma NoSeparator(s: string)
    requires AllDigits(s)
    ensures forall i :: 0 <= i < |s| ==> s[i] != '-'
  {
    forall i | 0 <= i < |s|
      ensures s[i] != '-'
    {
      assert IsDigit(s[i]);
    }
  }

  /** An unsigned digit string reads the same signed or unsigned. */
  lemma ParseIntDigits(s: string)
    requires s != [] && AllDigits(s)
    ensures ParseNat(s).Some? && ParseInt(s) == Some(ParseNat(s).value as int)
  {
    assert IsDigit(s[0]);
  }

  /** The optional part: only the words "1" and "2" in third position count. */
  function Part(args: seq<string>): Option<int>
  {
    if |args| >= 3 && args[2] == "1" then Some(1)
    else if |args| >= 3 && args[2] == "2" then Some(2)
    else None
  }

  /** The department: every word from the fourth on, joined by spaces. */
  function DeptArg(args: seq<string>): Option<string>
  {
    if |args| >= 4 then Some(Format.Join(args[3..], " ")) else None
  }

  /** The day range of a part: 1–15, 16 to the end, or the whole month. */
  function PartRange(part: Option<int>): (range: (int, Option<int>))
    ensures part == Some(1) ==> forall d :: AdminDb.InRange(d, range.0, range.1) <==> 1 <= d <= 15
    ensures part == Some(2) ==> forall d :: AdminDb.InRange(d, range.0, range.1) <==> d >= 16
    ensures part != Some(1) && part != Some(2) ==> forall d :: AdminDb.InRange(d, range.0, range.1) <==> d >= 1
  {
    if part == Some(1) then (1, Some(15))
    else if part == Some(2) then (16, None)
    else (1, None)
  }

  /** A department's block of the summary. */
  datatype DeptTotal = DeptTotal(heading: string, minutes: int, members: seq<UserTotal>)

  datatype HoursReply =
    | NotAdmin
    | Usage
    | BadMonth
    | NoData
    | Summary(year: int, month: int, part: Option<int>, dept: Option<string>,
              departments: seq<DeptTotal>, total: int)

  /** The heading a per-user total is grouped under in the summary. */
  function TotalLabel(t: UserTotal): string
  {
    DeptHeading(t.department)
  }

  function DeptMinutes(d: DeptTotal): int
  {
    d.minutes
  }

  function ToDeptTotals(groups: seq<Bucket<string, UserTotal>>): (r: seq<DeptTotal>)
    ensures |r| == |groups|
    ensures forall i :: 0 <= i < |groups| ==>
              r[i] == DeptTotal(groups[i].key, SumOf(groups[i].items, TotalMinutes), groups[i].items)
  {
    if groups == [] then []
    else ToDeptTotals(groups[..|groups| - 1])
         + [DeptTotal(groups[|groups| - 1].key, SumOf(groups[|groups| - 1].items, TotalMinutes), groups[|groups| - 1].items)]
  }

  /** The department blocks of a summary, in order of first appearance. */
  function DeptTotals(items: seq<UserTotal>): seq<DeptTotal>
  {
    ToDeptTotals(GroupBy(items, TotalLabel))
  }

  /** The answer to `/hours_sum` with the given words, the items coming from
      the ledger's per-user totals. */
  function HoursSumReply(admin: bool, args: seq<string>, users: seq<UserRow>, shifts: seq<ShiftRow>): HoursReply
  {
    if !admin then NotAdmin
    else if |args| < 2 then Usage
    else
      match ParseYearMonth(args[1])
      case None => BadMonth
      case Some((year, month)) =>
        var range := PartRange(Part(args));
        var items := AdminDb.PeriodTotals(users, shifts, year, month, range.0, range.1, DeptArg(args));
        if items == [] then NoData
        else Summary(year, month, Part(args), DeptArg(args), DeptTotals(items), SumOf(items, TotalMinutes))
  }

  /** The grand total is the sum of the department totals, which is the sum of
      the users' minutes; each department total is the sum of its members, who
      are exactly the users under that heading, in order. */
  lemma DeptTotalsSpec(items: seq<UserTotal>, heading: string)
    ensures SumOf(DeptTotals(items), DeptMinutes) == SumOf(items, TotalMinutes)
    ensures forall d :: d in DeptTotals(items) ==>
              d.minutes == SumOf(d.members, TotalMinutes) && d.members == Filter(items, KeyIs(TotalLabel, d.heading))
  {
    var groups := GroupBy(items, TotalLabel);
    var r := DeptTotals(items);
    SumOfPointwise(r, DeptMinutes, groups, (b: Bucket<string, UserTotal>) => SumOf(b.items, TotalMinutes));
    GroupBySum(items, TotalLabel, TotalMinutes);
    GroupByKeys(items, TotalLabel);
    forall d | d in r ensures d.minutes == SumOf(d.members, TotalMinutes) && d.members == Filter(items, KeyIs(TotalLabel, d.heading)) {
      var i :| 0 <= i < |r| && r[i] == d;
      GroupByItems(items, TotalLabel, d.heading);
      assert BucketIndex(groups, d.heading) == i;
    }
  }

  /** A summary's grand total is the sum of its department totals and the sum
      of the period's counted minutes, and it is positive. */
  lemma HoursSumSpec(admin: bool, args: seq<string>, users: seq<UserRow>, shifts: seq<ShiftRow>)
    ensures var reply := HoursSumReply(admin, args, users, shifts);
            && (!admin <==> reply == NotAdmin)
            && (reply.Summary? ==>
                  && reply.total == SumOf(reply.departments, DeptMinutes)
                  && reply.total > 0
                  && var range := PartRange(reply.part);
                     reply.total == SumOf(Filter(AdminDb.PeriodRows(users, shifts, reply.year, reply.month, reply.dept),
                                                 AdminDb.Counted(range.0, range.1)), JoinedMinutes))
  {
    if admin && |args| >= 2 && ParseYearMonth(args[1]).Some? {
      var (year, month) := ParseYearMonth(args[1]).value;
      var range := PartRange(Part(args));
      SummaryTotals(users, shifts, year, month, range.0, range.1, DeptArg(args));
    }
  }

  lemma SummaryTotals(users: seq<UserRow>, shifts: seq<ShiftRow>, year: int, month: int,
                      startDay: int, endDay: Option<int>, department: Option<string>)
    ensures var items := AdminDb.PeriodTotals(users, shifts, year, month, startDay, endDay, department);
            && SumOf(DeptTotals(items), DeptMinutes) == SumOf(items, TotalMinutes)
            && SumOf(items, TotalMinutes)
               == SumOf(Filter(AdminDb.PeriodRows(users, shifts, year, month, department), AdminDb.Counted(startDay, endDay)), JoinedMinutes)
            && (items != [] ==> SumOf(items, TotalMinutes) > 0)
  {
    var items := AdminDb.PeriodTotals(users, shifts, year, month, startDay, endDay, department);
    DeptTotalsSpec(items, "");
    AdminDb.PeriodTotalsSpec(users, shifts, year, month, startDay, endDay, department, 0);
    if items != [] {
      forall i | 0 <= i < |items| ensures items[i].minutes > 0 {
        AdminDb.PeriodTotalsSpec(users, shifts, year, month, startDay, endDay, department, items[i].userId);
        TotalIndexDistinct(items, i);
      }
      SumOfPositive(items, TotalMinutes);
    }
  }

  // ---------------------------------------------------------------- The bot

  class AttendanceBot {
    const db: AdminDb.Database
    const managersChat: int
    const adminIds: set<int>
    const radius: real
    var pending: map<int, string>
    var notices: seq<Notice>

    ghost predicate Valid()
      reads this, db
    {
      db.Valid()
    }

    constructor (db: AdminDb.Database, managersChat: int, adminIds: set<int>, radius: real)
      ensures this.db == db && this.managersChat == managersChat && this.adminIds == adminIds && this.radius == radius
      ensures pending == map[] && notices == []
    {
      this.db, this.managersChat, this.adminIds, this.radius := db, managersChat, adminIds, radius;
      pending, notices := map[], [];
    }

    /** `manager_notify`: sent only when a managers' chat is configured. */
    method Notify(n: Notice)
      modifies this
      ensures notices == old(notices) + (if managersChat != 0 then [n] else [])
      ensures pending == old(pending)
    {
      if managersChat != 0 {
        notices := notices + [n];
      }
    }

    /** `ask_location_in` (act "in") and `ask_location_out` (act "out"). */
    method AskLocation(tgId: int, act: string) returns (reply: Reply)
      requires act == "in" || act == "out"
      modifies this
      ensures Registered(db.users, tgId) ==> reply == SendLocation(act) && pending == old(pending)[tgId := act]
      ensures !Registered(db.users, tgId) ==> reply == NeedRegistration && pending == old(pending)
      ensures notices == old(notices)
    {
      var found := FindTg(db.users, tgId);
      if found.None? || !Truthy(db.users[found.value].department) {
        return NeedRegistration;
      }
      pending := pending[tgId := act];
      reply := SendLocation(act);
    }

    /** `on_location`, with the distance to the workplace, today's date and
        the current timestamp given. */
    method OnLocation(tgId: int, dist: real, date: Date, ts: int) returns (reply: Reply)
      requires Valid()
      modifies this, db
      ensures Valid()
      ensures db.users == old(db.users)
      ensures !Registered(old(db.users), tgId) ==>
                reply == NeedRegistration && db.shifts == old(db.shifts) && pending == old(pending) && notices == old(notices)
      ensures Registered(old(db.users), tgId) && !Acting(old(pending), tgId) ==>
                reply == NeedAction && db.shifts == old(db.shifts) && pending == old(pending) && notices == old(notices)
      ensures Registered(old(db.users), tgId) && Acting(old(pending), tgId) && !InsideGeofence(dist, radius) ==>
                var user := old(db.users)[FindTg(old(db.users), tgId).value];
                var n := OutsideAttempt(user.fullName, user.department, old(pending)[tgId], Trunc(dist));
                && reply == OutsideZone(Trunc(dist)) && db.shifts == old(db.shifts) && pending == old(pending)
                && notices == old(notices) + (if managersChat != 0 then [n] else [])
      ensures Registered(old(db.users), tgId) && Acting(old(pending), tgId) && InsideGeofence(dist, radius) && old(pending)[tgId] == "in" ==>
                var i := FindTg(old(db.users), tgId).value;
                var outcome := CheckIn(EnsureShift(old(db.shifts), i + 1, date), i + 1, date, ts);
                var n := Arrived(old(db.users)[i].fullName, old(db.users)[i].department, ts, Trunc(dist));
                && db.shifts == outcome.1
                && (outcome.0 == Accepted ==>
                      reply == CheckedIn && pending == old(pending) - {tgId}
                      && notices == old(notices) + (if managersChat != 0 then [n] else []))
                && (outcome.0 != Accepted ==> reply == CheckInRefused && pending == old(pending) && notices == old(notices))
      ensures Registered(old(db.users), tgId) && Acting(old(pending), tgId) && InsideGeofence(dist, radius) && old(pending)[tgId] == "out" ==>
                var i := FindTg(old(db.users), tgId).value;
                var outcome := CheckOut(EnsureShift(old(db.shifts), i + 1, date), i + 1, date, ts);
                var n := Departed(old(db.users)[i].fullName, old(db.users)[i].department, ts, Trunc(dist));
                && db.shifts == outcome.1
                && (outcome.0 == Accepted ==>
                      reply == CheckedOut && pending == old(pending) - {tgId}
                      && notices == old(notices) + (if managersChat != 0 then [n] else []))
                && (outcome.0 != Accepted ==>
                      reply == CheckOutRefused(AdminDb.CheckOutReply(outcome.0).1) && pending == old(pending) && notices == old(notices))
    {
      var found := FindTg(db.users, tgId);
      if found.None? || !Truthy(db.users[found.value].department) {
        return NeedRegistration;
      }
      var user := db.users[found.value];
      var uid := found.value + 1;
      if !(tgId in pending && (pending[tgId] == "in" || pending[tgId] == "out")) {
        return NeedAction;
      }
      var act := pending[tgId];
      var meters := Trunc(dist);
      if !InsideGeofence(dist, radius) {
        Notify(OutsideAttempt(user.fullName, user.department, act, meters));
        return OutsideZone(meters);
      }
      db.GetOrCreateShift(uid, date);
      if act == "in" {
        var success, msg := db.SetCheckIn(uid, date, ts);
        if !success {
          return CheckInRefused;
        }
        reply := CheckedIn;
        Notify(Arrived(user.fullName, user.department, ts, meters));
      } else {
        var success, msg := db.SetCheckOut(uid, date, ts);
        if !success {
          return CheckOutRefused(msg);
        }
        reply := CheckedOut;
        Notify(Departed(user.fullName, user.department, ts, meters));
      }
      pending := pending - {tgId};
    }

    /** `build_report_text`: the roster of the day, grouped by department. */
    method BuildReportText(today: Date) returns (text: string)
      ensures text == ReportText(today, TodayRows(db.users, db.shifts, today))
    {
      var rows := db.FetchTodayShifts(today);
      if rows == [] {
        return "Сегодня отметок нет.";
      }
      var byDept := GroupRows(rows);
      var parts := RenderParts(ReportHeader(today), byDept);
      text := Strip(Format.Join(parts, "\n"));
    }

    /** The report's first loop: `by_dept.setdefault(label, []).append(r)`. */
    static method GroupRows(rows: seq<JoinedRow>) returns (byDept: seq<Bucket<string, JoinedRow>>)
      ensures byDept == GroupBy(rows, DeptLabel)
    {
      byDept := [];
      for i := 0 to |rows|
        invariant byDept == GroupBy(rows[..i], DeptLabel)
      {
        GroupBySnoc(rows, i, DeptLabel);
        byDept := SetdefaultAppend(byDept, rows[i], DeptLabel);
      }
      assert rows[..|rows|] == rows;
    }

    /** The report's second loop: the header, then each department's block. */
    static method RenderParts(header: string, byDept: seq<Bucket<string, JoinedRow>>) returns (parts: seq<string>)
      ensures parts == [header] + Sections(byDept)
    {
      parts := [header];
      for k := 0 to |byDept|
        invariant parts == [header] + Sections(byDept[..k])
      {
        SectionsSnoc(byDept, k);
        ConcatAssoc([header], Sections(byDept[..k]), Section(byDept[k]));
        parts := AppendSection(parts, byDept[k]);
      }
      assert byDept[..|byDept|] == byDept;
    }

    /** The body of the report's outer loop: a department's heading, its
        rows, then an empty line. */
    static method AppendSection(parts: seq<string>, b: Bucket<string, JoinedRow>) returns (r: seq<string>)
      ensures r == parts + Section(b)
    {
      var heading := "<b>" + b.key + "</b>";
      var lines := [];
      for j := 0 to |b.items|
        invariant lines == RowLines(b.items[..j])
      {
        RowLinesSnoc(b.items, j);
        lines := lines + [RowLine(b.items[j])];
      }
      assert b.items[..|b.items|] == b.items;
      r := parts + ([heading] + lines + [""]);
    }

    /** `cmd_hours_sum` with the command's whitespace-separated words. */
    method HoursSum(callerId: int, args: seq<string>) returns (reply: HoursReply)
      ensures reply == HoursSumReply(IsAdmin(callerId, adminIds, managersChat), args, db.users, db.shifts)
    {
      if !IsAdmin(callerId, adminIds, managersChat) {
        return NotAdmin;
      }
      if |args| < 2 {
        return Usage;
      }
      var ym := ParseYearMonth(args[1]);
      if ym.None? {
        return BadMonth;
      }
      var (year, month) := ym.value;
      var part := Part(args);
      var dept := DeptArg(args);
      var (startDay, endDay) := PartRange(part);
      var items := db.MonthMinutesByUser(year, month, startDay, endDay, dept);
      if items == [] {
        return NoData;
      }
      var byDept, totalAll := GroupTotals(items);
      var departments := SumDepartments(byDept);
      reply := Summary(year, month, part, dept, departments, totalAll);
    }

    /** The summary's first loop: `by_dept.setdefault(d, []).append(r)` and
        the running grand total. */
    static method GroupTotals(items: seq<UserTotal>) returns (byDept: seq<Bucket<string, UserTotal>>, totalAll: int)
      ensures byDept == GroupBy(items, TotalLabel)
      ensures totalAll == SumOf(items, TotalMinutes)
    {
      byDept, totalAll := [], 0;
      for i := 0 to |items|
        invariant byDept == GroupBy(items[..i], TotalLabel)
        invariant totalAll == SumOf(items[..i], TotalMinutes)
      {
        GroupBySnoc(items, i, TotalLabel);
        SumOfStep(items, i, TotalMinutes);
        byDept := SetdefaultAppend(byDept, items[i], TotalLabel);
        totalAll := totalAll + items[i].minutes;
      }
      assert items[..|items|] == items;
    }

    /** The summary's second loop: each department's total over its members. */
    static method SumDepartments(byDept: seq<Bucket<string, UserTotal>>) returns (departments: seq<DeptTotal>)
      ensures departments == ToDeptTotals(byDept)
    {
      departments := [];
      for k := 0 to |byDept|
        invariant departments == ToDeptTotals(byDept[..k])
      {
        assert byDept[..k + 1][..k] == byDept[..k];
        departments := departments + [DeptTotal(byDept[k].key, SumOf(byDept[k].items, TotalMinutes), byDept[k].items)];
      }
      assert byDept[..|byDept|] == byDept;
    }
  }
}
