/** Time aggregation shared by both ledgers: minutes of one shift, the
    per-day lists and the per-user totals that a report is built from, and the
    two ways the variants select the shifts of a month. */
module Totals {
  import opened Wrappers
  import opened Seqs
  import opened Format
  import opened Ledger

  // ------------------------------------------------------- Shift minutes

  /** Whole minutes from check-in to check-out, rounded down and never below
      zero; 0 when either end is missing. `None` also stands for a timestamp
      that does not parse (shiftbot_admin_siw1_rd3/db.py answers 0 then too). */
  function MinutesBetween(checkIn: Option<int>, checkOut: Option<int>): (r: nat)
    ensures checkIn.None? || checkOut.None? ==> r == 0
    ensures checkIn.Some? && checkOut.Some? && checkOut.value < checkIn.value ==> r == 0
    ensures checkIn.Some? && checkOut.Some? && checkOut.value >= checkIn.value ==>
              r * 60 <= checkOut.value - checkIn.value < r * 60 + 60
  {
    if checkIn.Some? && checkOut.Some? then
      var m := (checkOut.value - checkIn.value) / 60;
      if m > 0 then m else 0
    else 0
  }

  /** `if ci and co`: both timestamps of a shift are recorded. */
  predicate BothRecorded(checkIn: Option<int>, checkOut: Option<int>)
  {
    checkIn.Some? && checkOut.Some?
  }

  // The filters and measures below are the two timestamp-pair definitions
  // above, read off a `shifts` row and off a row of the users join; they are
  // kept per row type because `Filter` and `SumOf` take a function on the row.

  /** A shift with both timestamps recorded. */
  predicate Closed(r: ShiftRow)
  {
    BothRecorded(r.checkIn, r.checkOut)
  }

  predicate JoinedClosed(r: JoinedRow)
  {
    BothRecorded(r.checkIn, r.checkOut)
  }

  function ShiftMinutes(r: ShiftRow): int
  {
    MinutesBetween(r.checkIn, r.checkOut)
  }

  function JoinedMinutes(r: JoinedRow): int
  {
    MinutesBetween(r.checkIn, r.checkOut)
  }

  /** Only closed shifts can contribute minutes. */
  lemma OpenShiftsAddNothing(rows: seq<ShiftRow>)
    ensures SumOf(Filter(rows, Closed), ShiftMinutes) == SumOf(rows, ShiftMinutes)
    ensures SumOf(rows, ShiftMinutes) >= 0
  {
    SumOfFilterNonZero(rows, ShiftMinutes, Closed);
    assert forall i :: 0 <= i < |rows| ==> ShiftMinutes(rows[i]) >= 0;
    SumOfNonNegative(rows, ShiftMinutes);
  }

  // ------------------------------------------------------------ Day lists

  /** One `{"date": ..., "minutes": ...}` entry of a day list. */
  datatype DayEntry = DayEntry(date: Date, minutes: int)

  function DayOf(r: ShiftRow): DayEntry
  {
    DayEntry(r.workDate, ShiftMinutes(r))
  }

  function EntryMinutes(e: DayEntry): int
  {
    e.minutes
  }

  /** The entries for `rows`, one per row, in row order. */
  function DayEntries(rows: seq<ShiftRow>): (r: seq<DayEntry>)
    ensures |r| == |rows|
    ensures forall i :: 0 <= i < |rows| ==> r[i] == DayOf(rows[i])
  {
    if rows == [] then [] else DayEntries(rows[..|rows| - 1]) + [DayOf(rows[|rows| - 1])]
  }

  lemma DayEntriesSnoc(rows: seq<ShiftRow>, r: ShiftRow)
    ensures DayEntries(rows + [r]) == DayEntries(rows) + [DayOf(r)]
  {
    assert (rows + [r])[..|rows|] == rows;
  }

  predicate EntryDateLe(a: DayEntry, b: DayEntry)
  {
    DateLe(a.date, b.date)
  }

  /** A day list adds up to the minutes of the rows it was made from, and keeps their date order. */
  lemma DayEntriesSpec(rows: seq<ShiftRow>)
    ensures SumOf(DayEntries(rows), EntryMinutes) == SumOf(rows, ShiftMinutes)
    ensures SortedBy(rows, ByDate) ==> SortedBy(DayEntries(rows), EntryDateLe)
  {
    var d := DayEntries(rows);
    assert forall i :: 0 <= i < |d| ==> EntryMinutes(d[i]) == ShiftMinutes(rows[i]);
    SumOfPointwise(d, EntryMinutes, rows, ShiftMinutes);
  }

  // ------------------------------------------------------ Per-user totals

  /** One `{"user_id", "full_name", "department", "minutes"}` entry. */
  datatype UserTotal = UserTotal(userId: int, fullName: string, department: Option<string>, minutes: int)

  function TotalMinutes(t: UserTotal): int
  {
    t.minutes
  }

  function UserIdOf(r: JoinedRow): int
  {
    r.userId
  }

  /** The position of `userId`'s entry, or -1 (a dict lookup). */
  function TotalIndex(acc: seq<UserTotal>, userId: int): (r: int)
    ensures -1 <= r < |acc|
    ensures r >= 0 ==> acc[r].userId == userId
    ensures r < 0 ==> forall i :: 0 <= i < |acc| ==> acc[i].userId != userId
  {
    if acc == [] then -1
    else if acc[|acc| - 1].userId == userId then |acc| - 1
    else TotalIndex(acc[..|acc| - 1], userId)
  }

  /** One step of the aggregation loop: the user's entry is created on first
      sight with the row's name and department, and its minutes grow by `m`. */
  function AddRow(acc: seq<UserTotal>, x: JoinedRow, m: int): seq<UserTotal>
  {
    var i := TotalIndex(acc, x.userId);
    if i >= 0 then acc[i := acc[i].(minutes := acc[i].minutes + m)]
    else acc + [UserTotal(x.userId, x.fullName, x.department, m)]
  }

  /** The insertion-ordered dict of per-user totals built from `rows`. */
  function Accumulate(rows: seq<JoinedRow>, f: JoinedRow -> int): seq<UserTotal>
  {
    if rows == [] then [] else AddRow(Accumulate(rows[..|rows| - 1], f), rows[|rows| - 1], f(rows[|rows| - 1]))
  }

  lemma AccumulateSnoc(rows: seq<JoinedRow>, x: JoinedRow, f: JoinedRow -> int)
    ensures Accumulate(rows + [x], f) == AddRow(Accumulate(rows, f), x, f(x))
  {
    assert (rows + [x])[..|rows|] == rows;
  }

  /** The dictionary update of the aggregation loop: look the user up, insert
      a zero entry carrying the row's name and department when missing, then
      add `m` to that entry's minutes. */
  method SetdefaultAdd(acc: seq<UserTotal>, x: JoinedRow, m: int) returns (r: seq<UserTotal>)
    ensures r == AddRow(acc, x, m)
  {
    r := acc;
    var k := TotalIndex(r, x.userId);
    if k < 0 {
      r := r + [UserTotal(x.userId, x.fullName, x.department, 0)];
      k := |r| - 1;
    }
    r := r[k := r[k].(minutes := r[k].minutes + m)];
  }

  /** Entry by entry, `a` is `g`: same user, the first row's name and
      department, and the bucket's sum. */
  predicate TotalsMatch(a: seq<UserTotal>, g: seq<Bucket<int, JoinedRow>>, f: JoinedRow -> int)
  {
    && |a| == |g|
    && forall i :: 0 <= i < |a| ==>
         && a[i].userId == g[i].key && g[i].items != []
         && a[i].fullName == g[i].items[0].fullName && a[i].department == g[i].items[0].department
         && a[i].minutes == SumOf(g[i].items, f)
  }

  /** Entry by entry, the totals are the buckets of grouping the rows by user:
      same user, the first row's name and department, and the bucket's sum. */
  lemma {:induction false} AccumulateBuckets(rows: seq<JoinedRow>, f: JoinedRow -> int)
    ensures var a := Accumulate(rows, f);
            var g := GroupBy(rows, UserIdOf);
            && |a| == |g|
            && forall i :: 0 <= i < |a| ==>
                 && a[i].userId == g[i].key && g[i].items != []
                 && a[i].fullName == g[i].items[0].fullName && a[i].department == g[i].items[0].department
                 && a[i].minutes == SumOf(g[i].items, f)
    decreases |rows|
  {
    if rows != [] {
      var init := rows[..|rows| - 1];
      var x := rows[|rows| - 1];
      AccumulateBuckets(init, f);
      assert TotalsMatch(Accumulate(init, f), GroupBy(init, UserIdOf), f);
      AddRowMatches(Accumulate(init, f), GroupBy(init, UserIdOf), x, f);
      assert Accumulate(rows, f) == AddRow(Accumulate(init, f), x, f(x));
      assert GroupBy(rows, UserIdOf) == AddToBucket(GroupBy(init, UserIdOf), x, UserIdOf);
      assert TotalsMatch(Accumulate(rows, f), GroupBy(rows, UserIdOf), f);
    }
  }

  /** One row keeps the totals and the buckets in step. */
  lemma AddRowMatches(a: seq<UserTotal>, g: seq<Bucket<int, JoinedRow>>, x: JoinedRow, f: JoinedRow -> int)
    requires TotalsMatch(a, g, f)
    ensures TotalsMatch(AddRow(a, x, f(x)), AddToBucket(g, x, UserIdOf), f)
  {
    var i := TotalIndex(a, x.userId);
    assert i == BucketIndex(g, UserIdOf(x)) by {
      TotalIndexMatches(a, g, x.userId);
    }
    assert SumOf([x], f) == f(x) by { assert [x][..0] == []; }
    if i >= 0 {
      var items := g[i].items;
      SumOfConcat(items, [x], f);
      assert (items + [x])[0] == items[0];
      assert AddRow(a, x, f(x)) == a[i := a[i].(minutes := a[i].minutes + f(x))];
      assert AddToBucket(g, x, UserIdOf) == g[i := Bucket(x.userId, items + [x])];
    } else {
      assert AddRow(a, x, f(x)) == a + [UserTotal(x.userId, x.fullName, x.department, f(x))];
      assert AddToBucket(g, x, UserIdOf) == g + [Bucket(x.userId, [x])];
    }
  }

  lemma {:induction false} TotalIndexMatches(a: seq<UserTotal>, g: seq<Bucket<int, JoinedRow>>, k: int)
    requires |a| == |g| && forall i :: 0 <= i < |a| ==> a[i].userId == g[i].key
    ensures TotalIndex(a, k) == BucketIndex(g, k)
    decreases |a|
  {
    if a != [] {
      TotalIndexMatches(a[..|a| - 1], g[..|g| - 1], k);
    }
  }

  /** No user has two entries. */
  ghost predicate DistinctUsers(a: seq<UserTotal>)
  {
    forall i, j :: 0 <= i < j < |a| ==> a[i].userId != a[j].userId
  }

  /** With no user twice, looking an entry's user up finds that entry. */
  lemma TotalIndexDistinct(a: seq<UserTotal>, i: nat)
    requires i < |a| && DistinctUsers(a)
    ensures TotalIndex(a, a[i].userId) == i
  {
  }

  /** The per-user totals: one entry per user that occurs in `rows` and none
      for others; an entry's minutes are the sum of `f` over that user's rows,
      and it carries the name and department of the user's first row. */
  lemma AccumulateSpec(rows: seq<JoinedRow>, f: JoinedRow -> int, userId: int)
    ensures var a := Accumulate(rows, f);
            var mine := Filter(rows, KeyIs(UserIdOf, userId));
            && (TotalIndex(a, userId) >= 0 <==> mine != [])
            && (TotalIndex(a, userId) >= 0 ==>
                  var e := a[TotalIndex(a, userId)];
                  e.minutes == SumOf(mine, f) && e.fullName == mine[0].fullName && e.department == mine[0].department)
  {
    var a := Accumulate(rows, f);
    var g := GroupBy(rows, UserIdOf);
    AccumulateBuckets(rows, f);
    TotalIndexMatches(a, g, userId);
    GroupByItems(rows, UserIdOf, userId);
  }

  /** No user has two entries. */
  lemma AccumulateDistinct(rows: seq<JoinedRow>, f: JoinedRow -> int)
    ensures DistinctUsers(Accumulate(rows, f))
  {
    AccumulateBuckets(rows, f);
    GroupByKeys(rows, UserIdOf);
  }

  /** The entries add up to the sum over all rows. */
  lemma AccumulateSum(rows: seq<JoinedRow>, f: JoinedRow -> int)
    ensures SumOf(Accumulate(rows, f), TotalMinutes) == SumOf(rows, f)
  {
    var g := GroupBy(rows, UserIdOf);
    AccumulateBuckets(rows, f);
    SumOfPointwise(Accumulate(rows, f), TotalMinutes, g, (b: Bucket<int, JoinedRow>) => SumOf(b.items, f));
    GroupBySum(rows, UserIdOf, f);
  }

  /** Some row has the entry's user, name and department. */
  ghost predicate FromRow(rows: seq<JoinedRow>, t: UserTotal)
  {
    exists k :: 0 <= k < |rows| && rows[k].userId == t.userId && rows[k].fullName == t.fullName && rows[k].department == t.department
  }

  /** Every entry's user, name and department come from some row. */
  lemma {:induction false} AccumulateFromRows(rows: seq<JoinedRow>, f: JoinedRow -> int)
    ensures forall i :: 0 <= i < |Accumulate(rows, f)| ==> FromRow(rows, Accumulate(rows, f)[i])
    decreases |rows|
  {
    if rows != [] {
      var init := rows[..|rows| - 1];
      var x := rows[|rows| - 1];
      AccumulateFromRows(init, f);
      var prev := Accumulate(init, f);
      var a := Accumulate(rows, f);
      forall i | 0 <= i < |a| ensures FromRow(rows, a[i]) {
        if i < |prev| {
          assert FromRow(init, prev[i]);
          var k :| 0 <= k < |init| && init[k].userId == prev[i].userId
              && init[k].fullName == prev[i].fullName && init[k].department == prev[i].department;
          assert rows[k] == init[k];
        } else {
          assert rows[|rows| - 1] == x;
        }
      }
    }
  }

  ghost predicate AscendingIds(a: seq<UserTotal>)
  {
    forall i, j :: 0 <= i < j < |a| ==> a[i].userId < a[j].userId
  }

  /** Entries ordered by department (none first) and then by name. */
  ghost predicate ByDeptAndName(a: seq<UserTotal>)
  {
    forall i, j :: 0 <= i < j < |a| ==> ByDeptName(AsRow(a[i]), AsRow(a[j]))
  }

  /** Rows ordered by user id give entries in strictly ascending user id. */
  lemma {:induction false} AccumulateAscending(rows: seq<JoinedRow>, f: JoinedRow -> int)
    requires forall i, j :: 0 <= i < j < |rows| ==> rows[i].userId <= rows[j].userId
    ensures AscendingIds(Accumulate(rows, f))
    decreases |rows|
  {
    if rows != [] {
      var init := rows[..|rows| - 1];
      var x := rows[|rows| - 1];
      AccumulateAscending(init, f);
      AccumulateFromRows(init, f);
      var prev := Accumulate(init, f);
      assert AscendingIds(prev);
      var a := Accumulate(rows, f);
      var idx := TotalIndex(prev, x.userId);
      if idx < 0 {
        var last := UserTotal(x.userId, x.fullName, x.department, f(x));
        assert a == prev + [last];
        assert forall k :: 0 <= k < |init| ==> init[k].userId <= x.userId;
        forall i | 0 <= i < |prev| ensures prev[i].userId < last.userId {
          FromRowBelow(init, prev[i], x.userId);
        }
        AscendingSnoc(prev, last);
      } else {
        assert a == prev[idx := prev[idx].(minutes := prev[idx].minutes + f(x))];
        AscendingUpdate(prev, idx, prev[idx].minutes + f(x));
      }
    }
  }

  lemma FromRowBelow(rows: seq<JoinedRow>, t: UserTotal, bound: int)
    requires FromRow(rows, t)
    requires forall k :: 0 <= k < |rows| ==> rows[k].userId <= bound
    ensures t.userId <= bound
  {
  }

  lemma AscendingSnoc(prev: seq<UserTotal>, last: UserTotal)
    requires AscendingIds(prev)
    requires forall i :: 0 <= i < |prev| ==> prev[i].userId < last.userId
    ensures AscendingIds(prev + [last])
  {
  }

  lemma AscendingUpdate(prev: seq<UserTotal>, idx: nat, m: int)
    requires AscendingIds(prev) && idx < |prev|
    ensures AscendingIds(prev[idx := prev[idx].(minutes := m)])
  {
  }

  /** Rows ordered by department and name give entries in that order. */
  lemma {:induction false} AccumulateOrdered(rows: seq<JoinedRow>, f: JoinedRow -> int)
    requires SortedBy(rows, ByDeptName)
    ensures ByDeptAndName(Accumulate(rows, f))
    decreases |rows|
  {
    if rows != [] {
      var init := rows[..|rows| - 1];
      var x := rows[|rows| - 1];
      assert SortedBy(init, ByDeptName);
      AccumulateOrdered(init, f);
      AccumulateFromRows(init, f);
      var prev := Accumulate(init, f);
      assert ByDeptAndName(prev);
      var a := Accumulate(rows, f);
      var idx := TotalIndex(prev, x.userId);
      if idx < 0 {
        var last := UserTotal(x.userId, x.fullName, x.department, f(x));
        assert a == prev + [last];
        forall i | 0 <= i < |prev| ensures ByDeptName(AsRow(prev[i]), AsRow(last)) {
          assert FromRow(init, prev[i]);
          var k :| 0 <= k < |init| && init[k].userId == prev[i].userId
              && init[k].fullName == prev[i].fullName && init[k].department == prev[i].department;
          assert rows[k] == init[k];
          assert ByDeptName(init[k], x);
        }
        OrderedSnoc(prev, last);
      } else {
        assert a == prev[idx := prev[idx].(minutes := prev[idx].minutes + f(x))];
        OrderedUpdate(prev, idx, prev[idx].minutes + f(x));
      }
    }
  }

  lemma OrderedSnoc(prev: seq<UserTotal>, last: UserTotal)
    requires ByDeptAndName(prev)
    requires forall i :: 0 <= i < |prev| ==> ByDeptName(AsRow(prev[i]), AsRow(last))
    ensures ByDeptAndName(prev + [last])
  {
  }

  lemma OrderedUpdate(prev: seq<UserTotal>, idx: nat, m: int)
    requires ByDeptAndName(prev) && idx < |prev|
    ensures ByDeptAndName(prev[idx := prev[idx].(minutes := m)])
  {
    var a := prev[idx := prev[idx].(minutes := m)];
    forall i, j | 0 <= i < j < |a| ensures ByDeptName(AsRow(a[i]), AsRow(a[j])) {
      assert AsRow(a[i]) == AsRow(prev[i]) && AsRow(a[j]) == AsRow(prev[j]);
    }
  }

  /** An entry seen as a joined row, so that row orders apply to entries. */
  function AsRow(t: UserTotal): JoinedRow
  {
    JoinedRow(t.userId, t.fullName, t.department, Date(0, 0, 0), None, None)
  }

  // ------------------------------------------------- Selecting a month

  /** A date `strftime` can write: 4-digit year, real month and day. */
  predicate WellFormed(d: Date)
  {
    1 <= d.year <= 9999 && 1 <= d.month <= 12 && 1 <= d.day <= 31
  }

  /** shiftbot_clean/db.py: `work_date >= "Y-MM-01" AND work_date < <first of next month>`. */
  predicate HalfOpenMonth(d: Date, year: int, month: int)
  {
    DateLe(Date(year, month, 1), d) && DateLt(d, NextMonthStart(year, month))
  }

  /** `f"{year:04d}-{month:02d}-"`. */
  function MonthPrefix(year: int, month: int): string
  {
    PadInt(year, 4) + ("-" + (PadInt(month, 2) + "-"))
  }

  /** shiftbot_admin_siw1_rd3/db.py: `work_date LIKE "YYYY-MM-%"`. */
  predicate PrefixMonth(d: Date, year: int, month: int)
  {
    MonthPrefix(year, month) <= DateText(d)
  }

  lemma HalfOpenMonthSpec(d: Date, year: int, month: int)
    requires WellFormed(d)
    ensures HalfOpenMonth(d, year, month) <==> d.year == year && d.month == month
  {
  }

  lemma {:induction false} NatToStringShort(n: nat, k: nat, bound: nat)
    requires bound == Pow10(k) && n < bound && k >= 1
    ensures |NatToString(n)| <= k
  {
    if n >= 10 {
      NatToStringShort(n / 10, k - 1, Pow10(k - 1));
    }
  }

  function Pow10(k: nat): nat
  {
    if k == 0 then 1 else 10 * Pow10(k - 1)
  }

  /** A field of `width` from a value below 10^width is exactly `width` digits. */
  lemma PadIntExact(n: nat, width: nat)
    requires width >= 1 && n < Pow10(width)
    ensures |PadInt(n, width)| == width
  {
    NatToStringShort(n, width, Pow10(width));
  }

  /** Two fields of the same width that spell the same text hold the same value. */
  lemma PadIntInjective(a: int, b: int, width: nat)
    requires 0 <= a && 0 <= b
    requires PadInt(a, width) == PadInt(b, width)
    ensures a == b
  {
    PadIntRoundTrip(a, width);
    PadIntRoundTrip(b, width);
  }

  /** A zero-padded field followed by "-" is a prefix of another such field
      of exactly the width only when the two values are equal. */
  lemma {:induction false} FieldPrefix(a: int, b: nat, w: nat, u: string, v: string)
    requires w >= 1 && b < Pow10(w)
    requires PadInt(a, w) + ("-" + u) <= PadInt(b, w) + ("-" + v)
    ensures a == b && u <= v
  {
    var fa, fb := PadInt(a, w), PadInt(b, w);
    var p, t := fa + ("-" + u), fb + ("-" + v);
    PadIntExact(b, w);
    assert t[w] == '-';
    assert IsDigit(t[0]) by { assert t[0] == fb[0]; }
    if a < 0 {
      assert false;
    } else {
      assert AllDigits(fa);
      if |fa| > w {
        assert false;
      } else {
        assert fa == p[..w] == t[..w] == fb;
        PadIntInjective(a, b, w);
        assert u == p[w + 1..] && v == t[w + 1..];
      }
    }
  }

  /** The admin prefix test selects `(year, month)` exactly, for every date
      `strftime` writes and any integers the command parsed. */
  lemma {:induction false} PrefixMonthSpec(d: Date, year: int, month: int)
    requires WellFormed(d)
    ensures PrefixMonth(d, year, month) <==> d.year == year && d.month == month
  {
    if PrefixMonth(d, year, month) {
      PrefixMonthSelects(d, year, month);
    }
  }

  lemma {:induction false} PrefixMonthSelects(d: Date, year: int, month: int)
    requires WellFormed(d) && PrefixMonth(d, year, month)
    ensures d.year == year && d.month == month
  {
    FieldPrefix(year, d.year, 4, PadInt(month, 2) + "-", PadInt(d.month, 2) + ("-" + PadInt(d.day, 2)));
    assert "-" + "" == "-";
    FieldPrefix(month, d.month, 2, "", PadInt(d.day, 2));
  }

  /** On well-formed dates both variants select the same month's shifts. */
  lemma MonthFiltersAgree(d: Date, year: int, month: int)
    requires WellFormed(d)
    ensures HalfOpenMonth(d, year, month) <==> PrefixMonth(d, year, month)
  {
    HalfOpenMonthSpec(d, year, month);
    PrefixMonthSpec(d, year, month);
  }
}
