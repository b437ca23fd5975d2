/** What a median and a percentile are, without sorting: stated by how many samples there are at or below a value. */
module Samples {
  import opened Ranks

  /** x is sample number k, counted from the least: the least value at or below which there are k samples. `at` says how
      many samples there are at or below a value. */
  ghost predicate Kth(at: int -> nat, k: nat, x: int) {
    at(x) >= k && forall y: int :: at(y) >= k ==> x <= y
  }

  /** Twice the median of n samples: the sum of the two in the middle, which are one and the same when n is odd. */
  ghost predicate MedianOf(at: int -> nat, n: nat, m: int) {
    if n == 0 then m == 0
    else exists lo, hi :: Middle(at, n, lo, hi) && m == lo + hi
  }

  ghost predicate Middle(at: int -> nat, n: nat, lo: int, hi: int) {
    Kth(at, (n + 1) / 2, lo) && Kth(at, n / 2 + 1, hi)
  }

  /** The least value that at least p thousandths of n samples do not exceed. */
  ghost predicate PermilleOf(at: int -> nat, n: nat, p: nat, x: int) {
    if n == 0 then x == 0
    else 1000 * at(x) >= p * n && forall y: int :: 1000 * at(y) >= p * n ==> x <= y
  }

  /** The columns of a row of percentiles. */
  ghost predicate ColumnsOf(at: int -> nat, n: nat, r: Percentiles) {
    && r.n == n
    && PermilleOf(at, n, 100, r.p10) && PermilleOf(at, n, 500, r.p50) && PermilleOf(at, n, 750, r.p75)
    && PermilleOf(at, n, 900, r.p90) && PermilleOf(at, n, 950, r.p95) && PermilleOf(at, n, 990, r.p99)
    && PermilleOf(at, n, 999, r.p999) && PermilleOf(at, n, 1000, r.max)
  }

  lemma SortedKth(v: seq<int>, k: nat, at: int -> nat)
    requires k < |v| == |Sort(v)| && forall x: int :: at(x) == AtMost(v, x)
    ensures Kth(at, k + 1, Sort(v)[k])
  {
    hide Sort, AtMost, IsSorted;
    SortSorts(v);
    forall x: int ensures AtMost(v, x) > k <==> Sort(v)[k] <= x {
      AtMostSort(v, x);
      AtMostSorted(Sort(v), x, k);
    }
  }

  /** What the program computes from the sorted samples is their median. */
  lemma MedianIs(v: seq<int>, at: int -> nat)
    requires forall x: int :: at(x) == AtMost(v, x)
    ensures MedianOf(at, |v|, Median2(Sort(v)))
  {
    hide Sort, AtMost, Kth, IsSorted, Median2;
    SortSorts(v);
    var s, n := Sort(v), |v|;
    if n > 0 {
      var i, j := (n - 1) / 2, n / 2;
      SortedKth(v, i, at);
      SortedKth(v, j, at);
      assert i + 1 == (n + 1) / 2;
      assert Middle(at, n, s[i], s[j]);
    }
    TwoMiddles(s);
  }

  lemma TwoMiddles(s: seq<int>)
    ensures Median2(s) == if s == [] then 0 else s[(|s| - 1) / 2] + s[|s| / 2]
  {
  }

  lemma PermilleIs(v: seq<int>, p: nat, at: int -> nat)
    requires 1 <= p <= 1000 && forall x: int :: at(x) == AtMost(v, x)
    ensures PermilleOf(at, |v|, p, NearestRank(Sort(v), p))
  {
    hide AtMost, NearestRank, Sort;
    if v == [] {
      NoRank(p);
    } else {
      PercentileIs(v, p);
      forall y: int | 1000 * at(y) >= p * |v| ensures NearestRank(Sort(v), p) <= y {
        assert 1000 * AtMost(v, y) >= p * |v|;
      }
    }
  }

  lemma NoRank(p: nat)
    ensures NearestRank(Sort([]), p) == 0
  {
  }

  /** And its row of percentiles consists of them. */
  lemma ColumnsAre(v: seq<int>, at: int -> nat)
    requires forall x: int :: at(x) == AtMost(v, x)
    ensures ColumnsOf(at, |v|, Of(v))
  {
    hide AtMost, NearestRank, Sort, PermilleOf;
    SortSorts(v);
    PermilleIs(v, 100, at);
    PermilleIs(v, 500, at);
    PermilleIs(v, 750, at);
    PermilleIs(v, 900, at);
    PermilleIs(v, 950, at);
    PermilleIs(v, 990, at);
    PermilleIs(v, 999, at);
    PermilleIs(v, 1000, at);
    if v == [] { NoRank(1000); } else { LastGreatest(v); }
  }

  lemma {:induction false} AboveIs(v: seq<int>, x: int)
    ensures Above(v, x) + AtMost(v, x) == |v| && Below(v, x) == AtMost(v, x - 1)
  {
    if v != [] { AboveIs(v[1..], x); }
  }

  // ----- samples given by how often each value occurs -----

  /** How many entries of a map have the value d; how many have a value of at most x. */
  ghost function Times<K>(m: map<K, int>, d: int): nat {
    |set k | k in m && m[k] == d|
  }

  ghost function UpTo<K>(m: map<K, int>, x: int): nat {
    |set k | k in m && m[k] <= x|
  }

  lemma Without<K>(m: map<K, int>, k: K, x: int)
    requires k in m
    ensures Times(m, x) == Times(m - {k}, x) + if m[k] == x then 1 else 0
    ensures UpTo(m, x) == UpTo(m - {k}, x) + if m[k] <= x then 1 else 0
    ensures |m| == |m - {k}| + 1
  {
    var m' := m - {k};
    assert (set j | j in m' && m'[j] == x) == (set j | j in m && m[j] == x) - {k};
    assert (set j | j in m' && m'[j] <= x) == (set j | j in m && m[j] <= x) - {k};
    assert m.Keys == m'.Keys + {k};
  }

  lemma TimesBound<K>(m: map<K, int>, d: int)
    ensures Times(m, d) <= |m|
  {
    var same := set k | k in m && m[k] == d;
    assert m.Keys == same + (m.Keys - same);
  }

  lemma Occurs<K>(m: map<K, int>, d: int) returns (k: K)
    requires Times(m, d) > 0
    ensures k in m && m[k] == d
  {
    k :| k in (set j | j in m && m[j] == d);
  }

  lemma Present<K>(m: map<K, int>, k: K)
    requires k in m
    ensures Times(m, m[k]) > 0
  {
    var d := m[k];
    var same := set j | j in m && m[j] == d;
    assert k in same;
  }

  lemma NoSamples<K>(m: map<K, int>, x: int)
    requires forall d: int :: Times(m, d) == 0
    ensures |m| == 0 && UpTo(m, x) == 0
  {
    hide Times;
    var low := set k | k in m && m[k] <= x;
    assert low <= m.Keys;
    if k :| k in m { Present(m, k); }
    assert m.Keys == {};
  }

  /** If each value occurs as often among the samples as in the map, the samples at or below x are as many as the
      entries at or below x. */
  lemma {:induction false} OccurrencesDecide<K>(m: map<K, int>, v: seq<int>, x: int)
    requires forall d: int :: multiset(v)[d] == Times(m, d)
    ensures |v| == |m| && AtMost(v, x) == UpTo(m, x)
    decreases |v|
  {
    hide Times, UpTo;
    if v == [] {
      NoSamples(m, x);
    } else {
      assert v == [v[0]] + v[1..];
      var k := Occurs(m, v[0]);
      forall d: int ensures multiset(v[1..])[d] == Times(m - {k}, d) {
        Without(m, k, d);
        assert multiset(v)[d] == Times(m, d);
      }
      OccurrencesDecide(m - {k}, v[1..], x);
      Without(m, k, x);
    }
  }
}
