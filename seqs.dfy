/** Sequence helpers that stand for what the SQL engine and Python's built-ins do
    to query results: a WHERE clause (Filter), an ORDER BY (SortBy, a stable
    insertion sort), `sum(...)` (SumOf) and the `dict.setdefault(k, []).append(x)`
    grouping idiom (GroupBy). */
module Seqs {

  // ---------------------------------------------------------------- Filter

  /** The elements of `s` that satisfy `p`, in their original order. */
  function Filter<T>(s: seq<T>, p: T -> bool): (r: seq<T>)
    ensures |r| <= |s|
    ensures forall i :: 0 <= i < |r| ==> r[i] in s && p(r[i])
    ensures forall i :: 0 <= i < |s| && p(s[i]) ==> s[i] in r
  {
    if s == [] then []
    else
      var init := s[..|s| - 1];
      assert s == init + [s[|s| - 1]];
      Filter(init, p) + (if p(s[|s| - 1]) then [s[|s| - 1]] else [])
  }

  lemma {:induction false} FilterConcat<T>(a: seq<T>, b: seq<T>, p: T -> bool)
    ensures Filter(a + b, p) == Filter(a, p) + Filter(b, p)
    decreases |b|
  {
    if b == [] {
      assert a + b == a;
    } else {
      var init := b[..|b| - 1];
      assert (a + b)[..|a + b| - 1] == a + init;
      FilterConcat(a, init, p);
    }
  }

  /** Filtering twice is filtering by the conjunction. */
  lemma {:induction false} FilterFilter<T>(s: seq<T>, p: T -> bool, q: T -> bool, pq: T -> bool)
    requires forall x :: pq(x) == (p(x) && q(x))
    ensures Filter(Filter(s, p), q) == Filter(s, pq)
    decreases |s|
  {
    if s != [] {
      var init := s[..|s| - 1];
      FilterFilter(init, p, q, pq);
      FilterConcat(Filter(init, p), if p(s[|s| - 1]) then [s[|s| - 1]] else [], q);
    }
  }

  /** Filtering a prefix one element longer. */
  lemma FilterSnoc<T>(s: seq<T>, p: T -> bool, i: nat)
    requires i < |s|
    ensures Filter(s[..i + 1], p) == Filter(s[..i], p) + (if p(s[i]) then [s[i]] else [])
  {
    assert s[..i + 1][..i] == s[..i];
  }

  /** Filtering a one-element sequence. */
  lemma FilterOne<T>(x: T, p: T -> bool)
    ensures Filter([x], p) == if p(x) then [x] else []
  {
    assert [x][..0] == [];
  }

  /** Concatenation regroups, shown once for any element type. */
  lemma ConcatAssoc<T>(a: seq<T>, b: seq<T>, c: seq<T>)
    ensures (a + b) + c == a + (b + c)
  {
  }

  /** An element occurs in a filter's output as often as in its input when it
      passes, and not at all otherwise. */
  lemma {:induction false} MultisetFilter<T>(s: seq<T>, p: T -> bool, x: T)
    ensures multiset(Filter(s, p))[x] == if p(x) then multiset(s)[x] else 0
    decreases |s|
  {
    if s != [] {
      var init, last := s[..|s| - 1], s[|s| - 1];
      MultisetFilter(init, p, x);
      assert s == init + [last];
      assert multiset(s) == multiset(init) + multiset{last};
      assert Filter(s, p) == Filter(init, p) + (if p(last) then [last] else []);
    }
  }

  /** Filtering a permutation gives a permutation of the filtered input. */
  lemma FilterPermutation<T>(a: seq<T>, b: seq<T>, p: T -> bool)
    requires multiset(a) == multiset(b)
    ensures multiset(Filter(a, p)) == multiset(Filter(b, p))
  {
    forall x ensures multiset(Filter(a, p))[x] == multiset(Filter(b, p))[x] {
      MultisetFilter(a, p, x);
      MultisetFilter(b, p, x);
    }
  }

  /** Filters by predicates that agree on every element are equal. */
  lemma {:induction false} FilterExt<T>(s: seq<T>, p: T -> bool, q: T -> bool)
    requires forall i :: 0 <= i < |s| ==> p(s[i]) == q(s[i])
    ensures Filter(s, p) == Filter(s, q)
    decreases |s|
  {
    if s != [] {
      FilterExt(s[..|s| - 1], p, q);
    }
  }

  // ------------------------------------------------------------- Ordering

  /** `le` is a total preorder: every two elements compare, and it is transitive. */
  ghost predicate TotalPreorder<T(!new)>(le: (T, T) -> bool)
  {
    && (forall a, b :: le(a, b) || le(b, a))
    && (forall a, b, c :: le(a, b) && le(b, c) ==> le(a, c))
  }

  ghost predicate SortedBy<T>(s: seq<T>, le: (T, T) -> bool)
  {
    forall i, j :: 0 <= i < j < |s| ==> le(s[i], s[j])
  }

  /** Inserts `x` before the first element it is not after. */
  function Insert<T>(x: T, s: seq<T>, le: (T, T) -> bool): (r: seq<T>)
    ensures |r| == |s| + 1
    ensures multiset(r) == multiset(s) + multiset{x}
  {
    if s == [] || le(x, s[0]) then [x] + s
    else
      assert s == [s[0]] + s[1..];
      [s[0]] + Insert(x, s[1..], le)
  }

  /** A stable insertion sort: the result is a permutation of `s`, and elements
      that compare equal keep their order in `s`. */
  function SortBy<T>(s: seq<T>, le: (T, T) -> bool): (r: seq<T>)
    ensures |r| == |s|
    ensures multiset(r) == multiset(s)
  {
    if s == [] then []
    else
      assert s == [s[0]] + s[1..];
      Insert(s[0], SortBy(s[1..], le), le)
  }

  lemma {:induction false} InsertSorted<T(!new)>(x: T, s: seq<T>, le: (T, T) -> bool)
    requires TotalPreorder(le) && SortedBy(s, le)
    ensures SortedBy(Insert(x, s, le), le)
    decreases |s|
  {
    if s == [] || le(x, s[0]) {
      var r := [x] + s;
      forall i, j | 0 <= i < j < |r| ensures le(r[i], r[j]) {
        if i == 0 && j > 1 {
          assert le(s[0], s[j - 1]);
        }
      }
    } else {
      var t := Insert(x, s[1..], le);
      InsertSorted(x, s[1..], le);
      assert le(s[0], x);
      forall y | y in t ensures le(s[0], y) {
        assert y in multiset(t);
        if y != x {
          assert y in multiset(s[1..]);
          var k :| 0 <= k < |s[1..]| && s[1..][k] == y;
          assert s[k + 1] == y;
        }
      }
      var r := [s[0]] + t;
      forall i, j | 0 <= i < j < |r| ensures le(r[i], r[j]) {
        if i == 0 {
          assert r[j] == t[j - 1];
          assert r[j] in t;
        }
      }
    }
  }

  /** SortBy orders by `le` whenever `le` is a total preorder. */
  lemma {:induction false} SortBySorted<T(!new)>(s: seq<T>, le: (T, T) -> bool)
    requires TotalPreorder(le)
    ensures SortedBy(SortBy(s, le), le)
    decreases |s|
  {
    if s != [] {
      SortBySorted(s[1..], le);
      InsertSorted(s[0], SortBy(s[1..], le), le);
    }
  }

  /** A filter of a sorted sequence is sorted. */
  lemma {:induction false} FilterSorted<T>(s: seq<T>, p: T -> bool, le: (T, T) -> bool)
    requires SortedBy(s, le)
    ensures SortedBy(Filter(s, p), le)
    decreases |s|
  {
    if s != [] {
      var init := s[..|s| - 1];
      var last := s[|s| - 1];
      FilterSorted(init, p, le);
      var f := Filter(init, p);
      forall y | y in f ensures le(y, last) {
        var k :| 0 <= k < |init| && init[k] == y;
      }
      var r := f + (if p(last) then [last] else []);
      forall i, j | 0 <= i < j < |r| ensures le(r[i], r[j]) {
        if j == |f| {
          assert r[i] in f;
        }
      }
    }
  }

  /** A sorted selection holds exactly the selected elements. */
  lemma SortedFilterMembers<T>(s: seq<T>, p: T -> bool, le: (T, T) -> bool, x: T)
    ensures x in SortBy(Filter(s, p), le) <==> x in s && p(x)
  {
    var f := Filter(s, p);
    assert x in SortBy(f, le) <==> x in multiset(f);
    if x in f {
      var i :| 0 <= i < |f| && f[i] == x;
    }
    if x in s && p(x) {
      var i :| 0 <= i < |s| && s[i] == x;
    }
  }

  // ------------------------------------------------------------------ Sums

  /** `f` summed over `s` (Python's `sum(f(x) for x in s)`). */
  function SumOf<T>(s: seq<T>, f: T -> int): int
  {
    if s == [] then 0 else SumOf(s[..|s| - 1], f) + f(s[|s| - 1])
  }

  lemma {:induction false} SumOfConcat<T>(a: seq<T>, b: seq<T>, f: T -> int)
    ensures SumOf(a + b, f) == SumOf(a, f) + SumOf(b, f)
    decreases |b|
  {
    if b == [] {
      assert a + b == a;
    } else {
      var init := b[..|b| - 1];
      assert (a + b)[..|a + b| - 1] == a + init;
      SumOfConcat(a, init, f);
    }
  }

  /** A running total over a prefix grows by the next term. */
  lemma SumOfStep<T>(s: seq<T>, i: nat, f: T -> int)
    requires i < |s|
    ensures SumOf(s[..i + 1], f) == SumOf(s[..i], f) + f(s[i])
  {
    assert s[..i + 1][..i] == s[..i];
  }

  /** A sum does not depend on the order of its terms. */
  lemma {:induction false} SumOfPermutation<T>(a: seq<T>, b: seq<T>, f: T -> int)
    requires multiset(a) == multiset(b)
    ensures SumOf(a, f) == SumOf(b, f)
    decreases |a|
  {
    if a != [] {
      var x := a[|a| - 1];
      var init := a[..|a| - 1];
      assert a == init + [x];
      assert x in multiset(b);
      var k :| 0 <= k < |b| && b[k] == x;
      var rest := b[..k] + b[k + 1..];
      assert b == b[..k] + [x] + b[k + 1..];
      assert multiset(b) == multiset(b[..k]) + multiset{x} + multiset(b[k + 1..]);
      assert multiset(a) == multiset(init) + multiset{x};
      assert multiset(rest) == multiset(b[..k]) + multiset(b[k + 1..]);
      calc {
        multiset(init);
        multiset(a) - multiset{x};
        multiset(b) - multiset{x};
        multiset(rest);
      }
      SumOfPermutation(init, rest, f);
      SumOfConcat(b[..k] + [x], b[k + 1..], f);
      SumOfConcat(b[..k], b[k + 1..], f);
      assert (b[..k] + [x])[..k] == b[..k];
    }
  }

  /** Terms on which `f` is zero can be dropped from a sum. */
  lemma {:induction false} SumOfFilterNonZero<T>(s: seq<T>, f: T -> int, p: T -> bool)
    requires forall i :: 0 <= i < |s| && !p(s[i]) ==> f(s[i]) == 0
    ensures SumOf(Filter(s, p), f) == SumOf(s, f)
    decreases |s|
  {
    if s != [] {
      var init := s[..|s| - 1];
      SumOfFilterNonZero(init, f, p);
      SumOfConcat(Filter(init, p), if p(s[|s| - 1]) then [s[|s| - 1]] else [], f);
    }
  }

  lemma {:induction false} SumOfNonNegative<T>(s: seq<T>, f: T -> int)
    requires forall i :: 0 <= i < |s| ==> f(s[i]) >= 0
    ensures SumOf(s, f) >= 0
    decreases |s|
  {
    if s != [] {
      SumOfNonNegative(s[..|s| - 1], f);
    }
  }

  /** A non-empty sum of positive terms is positive. */
  lemma SumOfPositive<T>(s: seq<T>, f: T -> int)
    requires s != [] && forall i :: 0 <= i < |s| ==> f(s[i]) > 0
    ensures SumOf(s, f) > 0
  {
    var init := s[..|s| - 1];
    assert forall i :: 0 <= i < |init| ==> f(init[i]) >= 0 by {
      forall i | 0 <= i < |init| ensures f(init[i]) >= 0 {
        assert init[i] == s[i];
      }
    }
    SumOfNonNegative(init, f);
  }

  /** Replacing one term changes a sum by the difference of the terms. */
  lemma {:induction false} SumOfUpdate<T>(s: seq<T>, k: nat, v: T, f: T -> int)
    requires k < |s|
    ensures SumOf(s[k := v], f) == SumOf(s, f) - f(s[k]) + f(v)
  {
    var t := s[k := v];
    assert s == s[..k] + [s[k]] + s[k + 1..];
    assert t == s[..k] + [v] + s[k + 1..];
    SumOfConcat(s[..k] + [s[k]], s[k + 1..], f);
    SumOfConcat(s[..k] + [v], s[k + 1..], f);
    SumOfConcat(s[..k], [s[k]], f);
    SumOfConcat(s[..k], [v], f);
  }

  /** Sums of two sequences whose terms agree position by position are equal. */
  lemma {:induction false} SumOfPointwise<A, B>(a: seq<A>, f: A -> int, b: seq<B>, g: B -> int)
    requires |a| == |b|
    requires forall i :: 0 <= i < |a| ==> f(a[i]) == g(b[i])
    ensures SumOf(a, f) == SumOf(b, g)
    decreases |a|
  {
    if a != [] {
      SumOfPointwise(a[..|a| - 1], f, b[..|b| - 1], g);
    }
  }

  // -------------------------------------------------------------- Grouping

  datatype Bucket<K, T> = Bucket(key: K, items: seq<T>)

  /** Index of the bucket holding key `k`, if any. */
  function BucketIndex<K(==), T>(groups: seq<Bucket<K, T>>, k: K): (r: int)
    ensures -1 <= r < |groups|
    ensures r >= 0 ==> groups[r].key == k
    ensures r < 0 ==> forall i :: 0 <= i < |groups| ==> groups[i].key != k
  {
    if groups == [] then -1
    else if groups[|groups| - 1].key == k then |groups| - 1
    else BucketIndex(groups[..|groups| - 1], k)
  }

  /** `groups.setdefault(key(x), []).append(x)` on an insertion-ordered dict. */
  function AddToBucket<K(==), T>(groups: seq<Bucket<K, T>>, x: T, key: T -> K): seq<Bucket<K, T>>
  {
    var i := BucketIndex(groups, key(x));
    if i >= 0 then groups[i := Bucket(key(x), groups[i].items + [x])]
    else groups + [Bucket(key(x), [x])]
  }

  /** The dictionary update itself: find the key's bucket, create an empty
      one at the end when missing, then append `x` to it. */
  method SetdefaultAppend<K(==), T>(groups: seq<Bucket<K, T>>, x: T, key: T -> K) returns (r: seq<Bucket<K, T>>)
    ensures r == AddToBucket(groups, x, key)
  {
    r := groups;
    var k := key(x);
    var i := BucketIndex(r, k);
    if i < 0 {
      r := r + [Bucket(k, [])];
      i := |r| - 1;
      assert r[i].items + [x] == [x];
    }
    r := r[i := Bucket(k, r[i].items + [x])];
  }

  function GroupBy<K(==), T>(s: seq<T>, key: T -> K): seq<Bucket<K, T>>
  {
    if s == [] then [] else AddToBucket(GroupBy(s[..|s| - 1], key), s[|s| - 1], key)
  }

  lemma GroupBySnoc<K, T>(s: seq<T>, i: nat, key: T -> K)
    requires i < |s|
    ensures GroupBy(s[..i + 1], key) == AddToBucket(GroupBy(s[..i], key), s[i], key)
  {
    assert s[..i + 1][..i] == s[..i];
  }

  ghost predicate DistinctKeys<K, T>(groups: seq<Bucket<K, T>>)
  {
    forall i, j :: 0 <= i < j < |groups| ==> groups[i].key != groups[j].key
  }

  /** The test "has key k", as a value that can be passed to Filter. */
  function KeyIs<K(==), T>(key: T -> K, k: K): T -> bool
  {
    y => key(y) == k
  }

  lemma {:induction false} BucketIndexUpdate<K, T>(g: seq<Bucket<K, T>>, i: nat, b: Bucket<K, T>, k: K)
    requires i < |g| && b.key == g[i].key
    ensures BucketIndex(g[i := b], k) == BucketIndex(g, k)
    decreases |g|
  {
    if i < |g| - 1 {
      assert g[i := b][..|g| - 1] == g[..|g| - 1][i := b];
      BucketIndexUpdate(g[..|g| - 1], i, b, k);
    } else {
      assert g[i := b][..|g| - 1] == g[..|g| - 1];
    }
  }

  /** GroupBy makes one bucket per distinct key, and every element's key has a bucket. */
  lemma {:induction false} GroupByKeys<K, T>(s: seq<T>, key: T -> K)
    ensures DistinctKeys(GroupBy(s, key))
    ensures forall i :: 0 <= i < |s| ==> BucketIndex(GroupBy(s, key), key(s[i])) >= 0
    decreases |s|
  {
    if s != [] {
      var init := s[..|s| - 1];
      var x := s[|s| - 1];
      GroupByKeys(init, key);
      var g := GroupBy(init, key);
      var i := BucketIndex(g, key(x));
      if i >= 0 {
        var b := Bucket(key(x), g[i].items + [x]);
        assert GroupBy(s, key) == g[i := b];
        forall n | 0 <= n < |s| ensures BucketIndex(g[i := b], key(s[n])) >= 0 {
          BucketIndexUpdate(g, i, b, key(s[n]));
          if n < |s| - 1 {
            assert init[n] == s[n];
          }
        }
      } else {
        var b := Bucket(key(x), [x]);
        assert GroupBy(s, key) == g + [b];
        assert (g + [b])[..|g|] == g;
        forall n | 0 <= n < |s| ensures BucketIndex(g + [b], key(s[n])) >= 0 {
          if n < |s| - 1 {
            assert init[n] == s[n];
          }
        }
      }
    }
  }

  /** Each bucket holds exactly the elements with its key, in their order. */
  lemma {:induction false} GroupByItems<K, T>(s: seq<T>, key: T -> K, k: K)
    ensures BucketIndex(GroupBy(s, key), k) >= 0 ==>
      GroupBy(s, key)[BucketIndex(GroupBy(s, key), k)].items == Filter(s, KeyIs(key, k))
    ensures BucketIndex(GroupBy(s, key), k) < 0 ==> Filter(s, KeyIs(key, k)) == []
    decreases |s|
  {
    if s != [] {
      var init := s[..|s| - 1];
      var x := s[|s| - 1];
      GroupByItems(init, key, k);
      GroupByKeys(init, key);
      var g := GroupBy(init, key);
      var i := BucketIndex(g, key(x));
      if i >= 0 {
        var b := Bucket(key(x), g[i].items + [x]);
        assert GroupBy(s, key) == g[i := b];
        BucketIndexUpdate(g, i, b, k);
      } else {
        var b := Bucket(key(x), [x]);
        assert GroupBy(s, key) == g + [b];
        assert (g + [b])[..|g|] == g;
      }
    }
  }

  /** Summing bucket by bucket gives the sum over all elements. */
  lemma {:induction false} GroupBySum<K, T>(s: seq<T>, key: T -> K, f: T -> int)
    ensures SumOf(GroupBy(s, key), (b: Bucket<K, T>) => SumOf(b.items, f)) == SumOf(s, f)
    decreases |s|
  {
    if s != [] {
      var init := s[..|s| - 1];
      var x := s[|s| - 1];
      var bf := (b: Bucket<K, T>) => SumOf(b.items, f);
      GroupBySum(init, key, f);
      var g := GroupBy(init, key);
      assert SumOf(s, f) == SumOf(init, f) + f(x);
      var i := BucketIndex(g, key(x));
      if i >= 0 {
        var b := Bucket(key(x), g[i].items + [x]);
        assert GroupBy(s, key) == g[i := b];
        SumOfUpdate(g, i, b, bf);
        SumOfConcat(g[i].items, [x], f);
      } else {
        var b := Bucket(key(x), [x]);
        assert GroupBy(s, key) == g + [b];
        SumOfConcat(g, [b], bf);
        SumOfConcat([], [x], f);
        assert [] + [x] == [x];
      }
    }
  }
}
