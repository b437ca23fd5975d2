/** Counting the entries of a map that satisfy a query. The summaries iterate over hash maps in an unspecified order and
    accumulate; what they accumulate is such a count, which has no order. */
module Tally {

  /** Among the keys `ks`, how many entries of `m` answer `q`? */
  ghost function Hits<K, R, Q>(m: map<K, R>, ks: set<K>, hit: (R, Q) -> bool, q: Q): nat {
    |set k | k in ks && k in m && hit(m[k], q)|
  }

  lemma HitsAre<K, R, Q>(m: map<K, R>, ks: set<K>, hit: (R, Q) -> bool, q: Q, s: set<K>)
    requires forall k :: k in s <==> k in ks && k in m && hit(m[k], q)
    ensures Hits(m, ks, hit, q) == |s|
  {
    assert s == set k | k in ks && k in m && hit(m[k], q);
  }

  /** One more key counts once if it answers. */
  lemma HitsAdd<K, R, Q>(m: map<K, R>, ks: set<K>, k: K, hit: (R, Q) -> bool, q: Q)
    requires k !in ks && k in m
    ensures Hits(m, ks + {k}, hit, q) == Hits(m, ks, hit, q) + if hit(m[k], q) then 1 else 0
  {
    var a := set j | j in ks && j in m && hit(m[j], q);
    var b := set j | j in ks + {k} && j in m && hit(m[j], q);
    assert b == if hit(m[k], q) then a + {k} else a;
  }

  /** Counts over disjoint sets of keys add up. */
  lemma HitsUnion<K, R, Q>(m: map<K, R>, ks: set<K>, ls: set<K>, hit: (R, Q) -> bool, q: Q)
    requires ks !! ls
    ensures Hits(m, ks + ls, hit, q) == Hits(m, ks, hit, q) + Hits(m, ls, hit, q)
  {
    var a := set j | j in ks && j in m && hit(m[j], q);
    var b := set j | j in ls && j in m && hit(m[j], q);
    assert (set j | j in ks + ls && j in m && hit(m[j], q)) == a + b;
  }

  /** A positive count has a witness. */
  lemma HitsWitness<K, R, Q>(m: map<K, R>, ks: set<K>, hit: (R, Q) -> bool, q: Q) returns (k: K)
    requires Hits(m, ks, hit, q) > 0
    ensures k in ks && k in m && hit(m[k], q)
  {
    var a := set j | j in ks && j in m && hit(m[j], q);
    assert |a| == Hits(m, ks, hit, q);
    k :| k in a;
  }

  lemma HitsPositive<K, R, Q>(m: map<K, R>, ks: set<K>, hit: (R, Q) -> bool, q: Q, k: K)
    requires k in ks && k in m && hit(m[k], q)
    ensures Hits(m, ks, hit, q) > 0
  {
    var a := set j | j in ks && j in m && hit(m[j], q);
    assert k in a;
  }

  /** A count depends on the answers alone. */
  lemma HitsSame<K, R, Q>(m: map<K, R>, m': map<K, R>, ks: set<K>, hit: (R, Q) -> bool, q: Q)
    requires forall k :: k in ks ==> k in m && k in m' && (hit(m[k], q) <==> hit(m'[k], q))
    ensures Hits(m, ks, hit, q) == Hits(m', ks, hit, q)
  {
    assert (set k | k in ks && k in m && hit(m[k], q)) == (set k | k in ks && k in m' && hit(m'[k], q));
  }

  lemma HitsAtMost<K, R, Q>(m: map<K, R>, ks: set<K>, hit: (R, Q) -> bool, q: Q)
    ensures Hits(m, ks, hit, q) <= |ks|
  {
    var a := set k | k in ks && k in m && hit(m[k], q);
    Subset(a, ks);
  }

  lemma Subset<K>(a: set<K>, b: set<K>)
    requires a <= b
    ensures |a| <= |b|
  {
    assert b == a + (b - a);
  }

  /** What implies another query is answered no more often. */
  lemma HitsMonotone<K, R, Q>(m: map<K, R>, ks: set<K>, hit: (R, Q) -> bool, q: Q, p: Q)
    requires forall k :: k in ks && k in m && hit(m[k], q) ==> hit(m[k], p)
    ensures Hits(m, ks, hit, q) <= Hits(m, ks, hit, p)
  {
    var a := set k | k in ks && k in m && hit(m[k], q);
    var b := set k | k in ks && k in m && hit(m[k], p);
    Subset(a, b);
  }

  // ----- double counting -----

  /** How many of the queries a record answers. */
  ghost function Answers<R, Q>(r: R, hit: (R, Q) -> bool, qs: seq<Q>): nat {
    if qs == [] then 0 else Answers(r, hit, qs[..|qs| - 1]) + if hit(r, qs[|qs| - 1]) then 1 else 0
  }

  ghost function SumHits<K, R, Q>(m: map<K, R>, ks: set<K>, hit: (R, Q) -> bool, qs: seq<Q>): nat {
    if qs == [] then 0 else SumHits(m, ks, hit, qs[..|qs| - 1]) + Hits(m, ks, hit, qs[|qs| - 1])
  }

  lemma {:induction false} SumHitsAdd<K, R, Q>(m: map<K, R>, ks: set<K>, k: K, hit: (R, Q) -> bool, qs: seq<Q>)
    requires k !in ks && k in m
    ensures SumHits(m, ks + {k}, hit, qs) == SumHits(m, ks, hit, qs) + Answers(m[k], hit, qs)
    decreases |qs|
  {
    if qs != [] {
      SumHitsAdd(m, ks, k, hit, qs[..|qs| - 1]);
      HitsAdd(m, ks, k, hit, qs[|qs| - 1]);
    }
  }

  lemma {:induction false} SumHitsNone<K, R, Q>(m: map<K, R>, hit: (R, Q) -> bool, qs: seq<Q>)
    ensures SumHits(m, {}, hit, qs) == 0
    decreases |qs|
  {
    if qs != [] {
      SumHitsNone(m, hit, qs[..|qs| - 1]);
      HitsAtMost(m, {}, hit, qs[|qs| - 1]);
    }
  }

  lemma MulSnoc(c: nat, n: nat)
    ensures c * (n + 1) == c * n + c && c * 0 == 0
  {
  }

  /** If every record answers at least lo of the queries, the counts of the queries sum to at least lo times the number
      of records. */
  lemma {:induction false} SumHitsLeast<K, R, Q>(m: map<K, R>, ks: set<K>, hit: (R, Q) -> bool, qs: seq<Q>, lo: nat)
    requires forall k :: k in ks ==> k in m && lo <= Answers(m[k], hit, qs)
    ensures lo * |ks| <= SumHits(m, ks, hit, qs)
    decreases |ks|
  {
    hide SumHits, Answers;
    if ks == {} {
      MulSnoc(lo, 0);
    } else {
      var k :| k in ks;
      var rest := ks - {k};
      assert ks == rest + {k};
      SumHitsLeast(m, rest, hit, qs, lo);
      SumHitsAdd(m, rest, k, hit, qs);
      MulSnoc(lo, |rest|);
    }
  }

  /** And if every record answers at most hi of them, to at most hi times that number. */
  lemma {:induction false} SumHitsMost<K, R, Q>(m: map<K, R>, ks: set<K>, hit: (R, Q) -> bool, qs: seq<Q>, hi: nat)
    requires forall k :: k in ks ==> k in m && Answers(m[k], hit, qs) <= hi
    ensures SumHits(m, ks, hit, qs) <= hi * |ks|
    decreases |ks|
  {
    hide SumHits, Answers;
    if ks == {} {
      SumHitsNone(m, hit, qs);
    } else {
      var k :| k in ks;
      var rest := ks - {k};
      assert ks == rest + {k};
      SumHitsMost(m, rest, hit, qs, hi);
      SumHitsAdd(m, rest, k, hit, qs);
      MulSnoc(hi, |rest|);
    }
  }

  /** If one record answers more than lo, so does the sum exceed. */
  lemma SumHitsAbove<K, R, Q>(m: map<K, R>, ks: set<K>, hit: (R, Q) -> bool, qs: seq<Q>, lo: nat, more: K)
    requires forall k :: k in ks ==> k in m && lo <= Answers(m[k], hit, qs)
    requires more in ks && Answers(m[more], hit, qs) > lo
    ensures SumHits(m, ks, hit, qs) > lo * |ks|
  {
    hide SumHits, Answers;
    var rest := ks - {more};
    assert ks == rest + {more};
    SumHitsLeast(m, rest, hit, qs, lo);
    SumHitsAdd(m, rest, more, hit, qs);
    MulSnoc(lo, |rest|);
  }

  function SumOf(s: seq<nat>): nat {
    if s == [] then 0 else SumOf(s[..|s| - 1]) + s[|s| - 1]
  }
}
