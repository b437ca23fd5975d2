/** Nearest-rank percentiles and medians, on exact samples (signed nanoseconds). */
module Ranks {

  /** A millisecond. */
  const MS := 1_000_000

  /** `nearest_rank` on sorted samples, for a rank in thousandths. */
  function NearestRank(s: seq<int>, permille: nat): int {
    if s == [] then 0 else s[Rank(Product(permille, |s|), |s|) - 1]
  }

  function Product(p: nat, n: nat): nat {
    p * n
  }

  /** `div_ceil(1000)` and `clamp(1, n)` */
  function Rank(x: nat, n: nat): (rank: nat)
    requires n >= 1
    ensures 1 <= rank <= n
  {
    var rank := (x + 999) / 1000;
    if rank < 1 then 1 else if rank > n then n else rank
  }

  /** Twice the `median` of sorted samples, so that the middle of two samples stays an integer. */
  function Median2(s: seq<int>): int {
    var n := |s|;
    if n == 0 then 0 else if n % 2 == 1 then 2 * s[n / 2] else s[n / 2 - 1] + s[n / 2]
  }

  // ----- sorting -----

  ghost predicate IsSorted(s: seq<int>) {
    forall i, j :: 0 <= i <= j < |s| ==> s[i] <= s[j]
  }

  function Insert(x: int, s: seq<int>): seq<int> {
    if s == [] || x <= s[0] then [x] + s else [s[0]] + Insert(x, s[1..])
  }

  /** What `sort_by` with the order of the samples returns. */
  function Sort(v: seq<int>): seq<int> {
    if v == [] then [] else Insert(v[0], Sort(v[1..]))
  }

  lemma {:induction false} InsertElements(x: int, s: seq<int>)
    ensures multiset(Insert(x, s)) == multiset(s) + multiset{x}
  {
    if s != [] && x > s[0] {
      InsertElements(x, s[1..]);
      assert s == [s[0]] + s[1..];
    }
  }

  lemma {:induction false} InsertSorts(x: int, s: seq<int>)
    requires IsSorted(s)
    ensures IsSorted(Insert(x, s))
  {
    if s != [] && x > s[0] {
      InsertSorts(x, s[1..]);
      InsertElements(x, s[1..]);
      var t := Insert(x, s[1..]);
      forall j | 0 <= j < |t| ensures s[0] <= t[j] {
        assert t[j] in multiset(t);
        assert t[j] == x || t[j] in s[1..];
      }
      SortedCons(s[0], t);
    }
  }

  lemma SortedCons(y: int, t: seq<int>)
    requires IsSorted(t) && forall j :: 0 <= j < |t| ==> y <= t[j]
    ensures IsSorted([y] + t)
  {
  }

  lemma {:induction false} SortSorts(v: seq<int>)
    ensures IsSorted(Sort(v)) && multiset(Sort(v)) == multiset(v) && |Sort(v)| == |v|
  {
    if v != [] {
      SortSorts(v[1..]);
      InsertSorts(v[0], Sort(v[1..]));
      InsertElements(v[0], Sort(v[1..]));
      assert v == [v[0]] + v[1..];
      assert |multiset(Sort(v))| == |multiset(v)|;
    }
  }

  /** There is one way to sort. */
  lemma {:induction false} SortedUnique(s: seq<int>, t: seq<int>)
    requires IsSorted(s) && IsSorted(t) && multiset(s) == multiset(t)
    ensures s == t
  {
    hide IsSorted;
    assert |multiset(s)| == |s| && |multiset(t)| == |t|;
    if s != [] {
      assert s[0] in multiset(t) && t[0] in multiset(s);
      HeadLeast(s, t[0]);
      HeadLeast(t, s[0]);
      SameTails(s, t);
      SortedUnique(s[1..], t[1..]);
      assert s == [s[0]] + s[1..] && t == [t[0]] + t[1..];
    }
  }

  lemma SameTails(s: seq<int>, t: seq<int>)
    requires s != [] && t != [] && s[0] == t[0] && multiset(s) == multiset(t)
    ensures multiset(s[1..]) == multiset(t[1..])
  {
    assert s == [s[0]] + s[1..] && t == [t[0]] + t[1..];
    assert multiset(s) == multiset{s[0]} + multiset(s[1..]);
    assert multiset(t) == multiset{t[0]} + multiset(t[1..]);
    assert multiset(s[1..]) == multiset(s) - multiset{s[0]};
    assert multiset(t[1..]) == multiset(t) - multiset{t[0]};
  }

  lemma HeadLeast(s: seq<int>, y: int)
    requires IsSorted(s) && y in multiset(s)
    ensures s[0] <= y && IsSorted(s[1..])
  {
  }

  // ----- what a percentile is -----

  /** How many samples are at most x. */
  function AtMost(v: seq<int>, x: int): nat {
    if v == [] then 0 else (if v[0] <= x then 1 else 0) + AtMost(v[1..], x)
  }

  lemma {:induction false} AtMostInsert(y: int, s: seq<int>, x: int)
    ensures AtMost(Insert(y, s), x) == (if y <= x then 1 else 0) + AtMost(s, x)
  {
    if s == [] || y <= s[0] {
      assert ([y] + s)[1..] == s;
    } else {
      AtMostInsert(y, s[1..], x);
      assert ([s[0]] + Insert(y, s[1..]))[1..] == Insert(y, s[1..]);
    }
  }

  lemma {:induction false} AtMostSort(v: seq<int>, x: int)
    ensures AtMost(Sort(v), x) == AtMost(v, x)
  {
    if v != [] {
      AtMostSort(v[1..], x);
      AtMostInsert(v[0], Sort(v[1..]), x);
    }
  }

  /** In sorted samples, at most k of them are at most x as soon as sample number k is greater than x, and more than k
      as soon as it is not. */
  lemma {:induction false} AtMostSorted(s: seq<int>, x: int, k: nat)
    requires IsSorted(s) && k < |s|
    ensures AtMost(s, x) > k <==> s[k] <= x
  {
    AtMostBound(s[1..], x);
    if k > 0 {
      AtMostSorted(s[1..], x, k - 1);
    } else if s[0] > x {
      NoneAtMost(s[1..], x);
    }
  }

  lemma {:induction false} NoneAtMost(s: seq<int>, x: int)
    requires forall i :: 0 <= i < |s| ==> s[i] > x
    ensures AtMost(s, x) == 0
  {
    if s != [] { NoneAtMost(s[1..], x); }
  }

  lemma {:induction false} AtMostBound(s: seq<int>, x: int)
    ensures AtMost(s, x) <= |s|
  {
    if s != [] { AtMostBound(s[1..], x); }
  }

  /** The percentile of a nonempty set of samples is the least sample that at least p thousandths of the samples do
      not exceed. */
  lemma PercentileIs(v: seq<int>, p: nat)
    requires v != [] && 1 <= p <= 1000
    ensures var r := NearestRank(Sort(v), p);
            && r in v && 1000 * AtMost(v, r) >= p * |v|
            && forall x: int :: 1000 * AtMost(v, x) >= p * |v| ==> r <= x
  {
    hide Sort, Rank, IsSorted, AtMost;
    SortSorts(v);
    var s, n := Sort(v), |v|;
    var rank := Rank(Product(p, n), n);
    RankBounds(p, n);
    var r := s[rank - 1];
    assert r in multiset(s);
    AtMostSort(v, r);
    AtMostSorted(s, r, rank - 1);
    forall x: int | 1000 * AtMost(v, x) >= p * n ensures r <= x {
      AtMostSort(v, x);
      AtMostSorted(s, x, rank - 1);
    }
  }

  lemma RankBounds(p: nat, n: nat)
    requires n >= 1 && 1 <= p <= 1000
    ensures var rank := Rank(Product(p, n), n); 1000 * (rank - 1) < p * n <= 1000 * rank
  {
    MulMonotone(1, p, n);
    MulMonotone(p, 1000, n);
    RankBoundsOf(p * n, n);
  }

  lemma RankBoundsOf(x: nat, n: nat)
    requires 1 <= n <= x <= 1000 * n
    ensures 1000 * (Rank(x, n) - 1) < x <= 1000 * Rank(x, n)
  {
  }

  /** Percentiles, medians and all the numbers of a table row depend only on which samples there are, not on their
      order. */
  lemma OrderIrrelevant(v: seq<int>, w: seq<int>)
    requires multiset(v) == multiset(w)
    ensures Sort(v) == Sort(w)
  {
    SortSorts(v);
    SortSorts(w);
    SortedUnique(Sort(v), Sort(w));
  }

  lemma PercentileMonotone(v: seq<int>, p: nat, q: nat)
    requires v != [] && p <= q
    ensures NearestRank(Sort(v), p) <= NearestRank(Sort(v), q)
  {
    SortSorts(v);
    MulMonotone(p, q, |v|);
  }

  lemma MulMonotone(p: nat, q: nat, n: nat)
    requires p <= q
    ensures p * n <= q * n
  {
  }

  /** `Percentiles` */
  datatype Percentiles = Percentiles(n: nat, p10: int, p50: int, p75: int, p90: int, p95: int, p99: int, p999: int,
                                     max: int)

  /** `Percentiles::of` */
  function Of(samples: seq<int>): Percentiles {
    var s := Sort(samples);
    Percentiles(|s|, NearestRank(s, 100), NearestRank(s, 500), NearestRank(s, 750), NearestRank(s, 900),
                NearestRank(s, 950), NearestRank(s, 990), NearestRank(s, 999), if s == [] then 0 else s[|s| - 1])
  }

  lemma SameOf(v: seq<int>, w: seq<int>)
    requires multiset(v) == multiset(w)
    ensures Of(v) == Of(w)
  {
    OrderIrrelevant(v, w);
  }

  /** The columns of a row never decrease, and the last one is the greatest sample. */
  lemma RowOrdered(v: seq<int>)
    requires v != []
    ensures var r := Of(v);
            && r.n == |v|
            && r.p10 <= r.p50 <= r.p75 <= r.p90 <= r.p95 <= r.p99 <= r.p999 <= r.max
            && r.max in v && forall x :: x in v ==> x <= r.max
  {
    hide NearestRank, Sort, IsSorted;
    PercentileMonotone(v, 100, 500);
    PercentileMonotone(v, 500, 750);
    PercentileMonotone(v, 750, 900);
    PercentileMonotone(v, 900, 950);
    PercentileMonotone(v, 950, 990);
    PercentileMonotone(v, 990, 999);
    PercentileMonotone(v, 999, 1000);
    LastGreatest(v);
  }

  lemma LastGreatest(v: seq<int>)
    requires v != []
    ensures var s := Sort(v);
            && |s| == |v| && s[|s| - 1] in v && NearestRank(s, 1000) == s[|s| - 1]
            && forall x :: x in v ==> x <= s[|s| - 1]
  {
    hide Sort;
    SortSorts(v);
    var s := Sort(v);
    assert s[|s| - 1] in multiset(s);
    forall x | x in v ensures x <= s[|s| - 1] {
      assert x in multiset(s);
    }
  }

  // ----- swapping the sides of a difference -----

  function Negated(v: seq<int>): (w: seq<int>)
    ensures |w| == |v|
  {
    seq(|v|, i requires 0 <= i < |v| => -v[i])
  }

  function Reversed(v: seq<int>): (w: seq<int>)
    ensures |w| == |v|
  {
    seq(|v|, i requires 0 <= i < |v| => v[|v| - 1 - i])
  }

  lemma {:induction false} NegatedMultiset(v: seq<int>, w: seq<int>)
    requires multiset(v) == multiset(w)
    ensures multiset(Negated(v)) == multiset(Negated(w))
  {
    forall y ensures multiset(Negated(v))[y] == multiset(Negated(w))[y] {
      NegatedCount(v, y);
      NegatedCount(w, y);
    }
  }

  lemma {:induction false} NegatedCount(v: seq<int>, y: int)
    ensures multiset(Negated(v))[y] == multiset(v)[-y]
  {
    if v != [] {
      NegatedCount(v[1..], y);
      assert v == [v[0]] + v[1..];
      assert Negated(v) == [-v[0]] + Negated(v[1..]);
    }
  }

  lemma {:induction false} ReversedMultiset(v: seq<int>)
    ensures multiset(Reversed(v)) == multiset(v)
  {
    if v != [] {
      ReversedMultiset(v[1..]);
      assert v == [v[0]] + v[1..];
      assert Reversed(v) == Reversed(v[1..]) + [v[0]];
    }
  }

  lemma NegatedReversedSorted(s: seq<int>)
    requires IsSorted(s)
    ensures IsSorted(Negated(Reversed(s)))
  {
  }

  /** Sorting the negated samples reverses and negates the sorted ones. */
  lemma SortNegated(v: seq<int>)
    ensures Sort(Negated(v)) == Negated(Reversed(Sort(v)))
  {
    SortSorts(v);
    SortSorts(Negated(v));
    NegatedMultiset(v, Sort(v));
    ReversedMultiset(Sort(v));
    NegatedMultiset(Sort(v), Reversed(Sort(v)));
    NegatedReversedSorted(Sort(v));
    hide *;
    SortedUnique(Sort(Negated(v)), Negated(Reversed(Sort(v))));
  }

  /** Percentile p of the negated samples is minus percentile 1000 - p, except when p thousandths of the samples is a
      whole number of them: then it is minus the next sample above that. */
  lemma PercentileOfNegated(v: seq<int>, p: nat)
    requires v != [] && 0 < p < 1000
    ensures var s, k := Sort(v), Rank(Product(1000 - p, |v|), |v|);
            && |s| == |v| && NearestRank(s, 1000 - p) == s[k - 1]
            && (Product(p, |v|) % 1000 != 0 ==> NearestRank(Sort(Negated(v)), p) == -s[k - 1])
            && (Product(p, |v|) % 1000 == 0 ==> k < |s| && NearestRank(Sort(Negated(v)), p) == -s[k])
  {
    hide Sort, Rank, IsSorted, Negated, Reversed, Product;
    SortSorts(v);
    SortNegated(v);
    RanksMirror(p, |v|);
    Mirror(Sort(v), Product(p, |v|), Product(1000 - p, |v|));
  }

  lemma Mirror(s: seq<int>, a: nat, b: nat)
    requires s != [] && Rank(a, |s|) + Rank(b, |s|) == if a % 1000 != 0 then |s| + 1 else |s|
    ensures var w, k := Negated(Reversed(s)), Rank(b, |s|);
            && (a % 1000 != 0 ==> w[Rank(a, |s|) - 1] == -s[k - 1])
            && (a % 1000 == 0 ==> k < |s| && w[Rank(a, |s|) - 1] == -s[k])
  {
    hide *;
    MirroredAt(s, Rank(a, |s|) - 1);
  }

  lemma MirroredAt(s: seq<int>, i: nat)
    requires i < |s|
    ensures Negated(Reversed(s))[i] == -s[|s| - 1 - i]
  {
  }

  lemma RanksMirror(p: nat, n: nat)
    requires n >= 1 && 0 < p < 1000
    ensures Rank(Product(p, n), n) + Rank(Product(1000 - p, n), n) == if Product(p, n) % 1000 != 0 then n + 1 else n
  {
    MulMonotone(1, p, n);
    MulMonotone(p, 999, n);
    Rest(p, n);
    hide Rank, Product;
    RanksOfParts(Product(p, n), Product(1000 - p, n), n);
  }

  lemma Rest(p: nat, n: nat)
    requires p <= 1000
    ensures Product(p, n) == p * n && Product(1000 - p, n) == 1000 * n - p * n
  {
  }

  lemma RanksOfParts(a: nat, b: nat, n: nat)
    requires n <= a <= 999 * n && b == 1000 * n - a && n >= 1
    ensures Rank(a, n) + Rank(b, n) == if a % 1000 != 0 then n + 1 else n
  {
    var q, r := a / 1000, a % 1000;
    assert a + 999 == 1000 * q + (r + 999) && b + 999 == 1000 * (n - q) + (999 - r);
    assert (a + 999) / 1000 == (if r == 0 then q else q + 1) && (b + 999) / 1000 == n - q;
  }

  /** Swapping the sides negates the median. */
  lemma MedianOfNegated(v: seq<int>)
    ensures Median2(Sort(Negated(v))) == -Median2(Sort(v))
  {
    SortSorts(v);
    SortNegated(v);
  }

  /** How many samples exceed x, which may be negative; and how many are below -x on the other side. */
  function Above(v: seq<int>, x: int): nat {
    if v == [] then 0 else (if v[0] > x then 1 else 0) + Above(v[1..], x)
  }

  function Below(v: seq<int>, x: int): nat {
    if v == [] then 0 else (if v[0] < x then 1 else 0) + Below(v[1..], x)
  }

  lemma {:induction false} LeadersInsert(y: int, s: seq<int>, x: int)
    ensures Above(Insert(y, s), x) == (if y > x then 1 else 0) + Above(s, x)
    ensures Below(Insert(y, s), x) == (if y < x then 1 else 0) + Below(s, x)
  {
    if s == [] || y <= s[0] {
      assert ([y] + s)[1..] == s;
    } else {
      LeadersInsert(y, s[1..], x);
      assert ([s[0]] + Insert(y, s[1..]))[1..] == Insert(y, s[1..]);
    }
  }

  lemma {:induction false} LeadersSort(v: seq<int>, x: int)
    ensures Above(Sort(v), x) == Above(v, x) && Below(Sort(v), x) == Below(v, x)
  {
    if v != [] {
      LeadersSort(v[1..], x);
      LeadersInsert(v[0], Sort(v[1..]), x);
    }
  }

  /** How many samples lie above or below a bound depends only on the samples. */
  lemma LeadersDependOnSamples(v: seq<int>, w: seq<int>, x: int)
    requires multiset(v) == multiset(w)
    ensures Above(v, x) == Above(w, x) && Below(v, x) == Below(w, x)
  {
    hide Sort, Above, Below;
    OrderIrrelevant(v, w);
    LeadersSort(v, x);
    LeadersSort(w, x);
  }

  /** Swapping the sides swaps the shares that lead by more than x. */
  lemma {:induction false} LeadersSwap(v: seq<int>, x: int)
    ensures Above(Negated(v), x) == Below(v, -x) && Below(Negated(v), -x) == Above(v, x)
  {
    if v != [] {
      LeadersSwap(v[1..], x);
      assert Negated(v)[1..] == Negated(v[1..]);
    }
  }
}
