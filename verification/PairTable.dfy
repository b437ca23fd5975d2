/** The pair tables: the reference source against another one, over the transactions both delivered, by interval of the
    run and by size of the block. */
module PairTable {
  import opened Bytes
  import opened Ranks
  import opened Records
  import opened Tally
  import opened Window

  /** One transaction that both sources delivered: how much later the other one was, when it was first seen, its block
      and the size of that block. */
  datatype Row = Row(diff: int, first: int, block: Option<string>, size: Option<nat>)

  predicate NitroPresent(cfg: Config) {
    exists i :: 0 <= i < |cfg.nitro| && cfg.nitro[i]
  }

  // ----- which rows there are -----

  predicate Both(r: TxRec, i: nat, j: nat) {
    i < |r.arrivals| && j < |r.arrivals| && r.arrivals[i].Some? && r.arrivals[j].Some?
  }

  ghost function PairKeys(cfg: Config, st: State, other: nat): set<Hash> {
    set h | h in st.txs && Both(st.txs[h], cfg.reference, other)
      && InWindow(st.links.allUp, cfg.warmup, st.txs[h].first)
  }

  predicate InBlock(r: TxRec, q: (nat, string)) {
    q.0 < |r.arrivals| && r.arrivals[q.0].Some? && r.blockKey == Some(q.1)
  }

  /** Transactions of block `key` that the reference source delivered. */
  ghost function RefCount(cfg: Config, st: State, key: string): nat {
    Hits(st.txs, st.txs.Keys, InBlock, (cfg.reference, key))
  }

  /** Size of the block that carried a transaction: as the Nitro frame said, or else as the reference source counts. */
  ghost function SizeOf(cfg: Config, st: State, r: TxRec): Option<nat> {
    if NitroPresent(cfg) then (if r.fromNitro then r.txCount else None)
    else if r.blockKey.Some? && RefCount(cfg, st, r.blockKey.value) > 0 then Some(RefCount(cfg, st, r.blockKey.value))
    else None
  }

  ghost function RowOf(cfg: Config, st: State, other: nat, r: TxRec): Row
    requires Both(r, cfg.reference, other)
  {
    Row(r.arrivals[other].value - r.arrivals[cfg.reference].value, r.first, r.blockKey, SizeOf(cfg, st, r))
  }

  /** `rows` are the rows of the transactions `ks`, which are all of those of the pair, each once. */
  ghost predicate AreRows(cfg: Config, st: State, other: nat, ks: seq<Hash>, rows: seq<Row>) {
    && |ks| == |rows| && (forall i, j :: 0 <= i < j < |ks| ==> ks[i] != ks[j])
    && (forall h :: h in ks <==> h in PairKeys(cfg, st, other))
    && (forall i :: 0 <= i < |ks| ==>
          && ks[i] in st.txs && Both(st.txs[ks[i]], cfg.reference, other)
          && rows[i] == RowOf(cfg, st, other, st.txs[ks[i]]))
  }

  /** The first loop of `pair_summary`: transactions per block, as the reference source delivered them. */
  method RefCounts(cfg: Config, txs: map<Hash, TxRec>, ghost st: State) returns (counts: map<string, nat>)
    requires txs == st.txs
    ensures forall k: string ::
              (k in counts <==> RefCount(cfg, st, k) > 0) && (k in counts ==> counts[k] == RefCount(cfg, st, k))
  {
    hide Hits;
    counts := map[];
    var todo := txs.Keys;
    ghost var ks: set<Hash> := {};
    forall k: string ensures Hits(txs, ks, InBlock, (cfg.reference, k)) == 0 {
      HitsAtMost(txs, ks, InBlock, (cfg.reference, k));
    }
    while todo != {}
      invariant todo !! ks && todo + ks == txs.Keys
      invariant forall k: string ::
                  && (k in counts <==> Hits(txs, ks, InBlock, (cfg.reference, k)) > 0)
                  && (k in counts ==> counts[k] == Hits(txs, ks, InBlock, (cfg.reference, k)))
    {
      var h :| h in todo;
      todo := todo - {h};
      var rec := txs[h];
      forall k: string
        ensures Hits(txs, ks + {h}, InBlock, (cfg.reference, k)) ==
                Hits(txs, ks, InBlock, (cfg.reference, k)) + if InBlock(rec, (cfg.reference, k)) then 1 else 0
      {
        HitsAdd(txs, ks, h, InBlock, (cfg.reference, k));
      }
      if cfg.reference < |rec.arrivals| && rec.arrivals[cfg.reference].Some? && rec.blockKey.Some? {
        var k := rec.blockKey.value;
        counts := counts[k := (if k in counts then counts[k] else 0) + 1];
      }
      ks := ks + {h};
    }
    assert ks == txs.Keys;
  }

  /** The second loop: the rows, in the order in which the map happens to be visited. */
  method Rows(cfg: Config, txs: map<Hash, TxRec>, ups: seq<Interval>, ghost st: State, other: nat)
    returns (rows: seq<Row>)
    requires txs == st.txs && ups == st.links.allUp
    ensures exists ks :: AreRows(cfg, st, other, ks, rows)
  {
    hide RefCount;
    var counts: map<string, nat> := map[];
    var nitro := NitroPresent(cfg);
    if !nitro { counts := RefCounts(cfg, txs, st); }
    rows := [];
    ghost var ks: seq<Hash> := [];
    var todo := txs.Keys;
    while todo != {}
      invariant todo <= txs.Keys && |ks| == |rows|
      invariant forall i, j :: 0 <= i < j < |ks| ==> ks[i] != ks[j]
      invariant forall h :: h in ks <==> h in PairKeys(cfg, st, other) && h !in todo
      invariant forall i :: 0 <= i < |ks| ==>
                  && ks[i] in txs && Both(txs[ks[i]], cfg.reference, other)
                  && rows[i] == RowOf(cfg, st, other, txs[ks[i]])
    {
      var h :| h in todo;
      todo := todo - {h};
      var rec := txs[h];
      if Both(rec, cfg.reference, other) && InWindow(ups, cfg.warmup, rec.first) {
        var size :=
          if nitro then (if rec.fromNitro then rec.txCount else None)
          else if rec.blockKey.Some? && rec.blockKey.value in counts then Some(counts[rec.blockKey.value])
          else None;
        var diff := rec.arrivals[other].value - rec.arrivals[cfg.reference].value;
        rows := rows + [Row(diff, rec.first, rec.blockKey, size)];
        ks := ks + [h];
      }
    }
    assert AreRows(cfg, st, other, ks, rows);
  }

  // ----- what the pair as a whole says -----

  function Diffs(rows: seq<Row>): (d: seq<int>)
    ensures |d| == |rows|
  {
    seq(|rows|, i requires 0 <= i < |rows| => rows[i].diff)
  }

  predicate Differ(r: TxRec, q: (nat, nat, int)) {
    Both(r, q.0, q.1) && r.arrivals[q.1].value - r.arrivals[q.0].value == q.2
  }

  lemma {:induction false} DiffsCounted(m: map<Hash, TxRec>, r: nat, o: nat, ks: seq<Hash>, diffs: seq<int>,
                                        done: set<Hash>, d: int)
    requires |ks| == |diffs| && (forall i, j :: 0 <= i < j < |ks| ==> ks[i] != ks[j])
    requires forall h :: h in ks <==> h in done
    requires forall i :: 0 <= i < |ks| ==>
               ks[i] in m && Both(m[ks[i]], r, o) && diffs[i] == m[ks[i]].arrivals[o].value - m[ks[i]].arrivals[r].value
    ensures multiset(diffs)[d] == Hits(m, done, Differ, (r, o, d))
    decreases |ks|
  {
    hide Hits;
    if ks == [] {
      assert done == {};
      HitsAtMost(m, done, Differ, (r, o, d));
    } else {
      var n := |ks| - 1;
      var h := ks[n];
      KeysWithoutLast(ks, done);
      LastCounts(diffs, d);
      DiffsCounted(m, r, o, ks[..n], diffs[..n], done - {h}, d);
      hide Both;
      HitsAdd(m, done - {h}, h, Differ, (r, o, d));
    }
  }

  lemma KeysWithoutLast<K>(ks: seq<K>, done: set<K>)
    requires ks != [] && (forall i, j :: 0 <= i < j < |ks| ==> ks[i] != ks[j]) && forall h :: h in ks <==> h in done
    ensures var n := |ks| - 1;
            && (forall h :: h in ks[..n] <==> h in done - {ks[n]}) && done - {ks[n]} + {ks[n]} == done
  {
    var n := |ks| - 1;
    assert ks == ks[..n] + [ks[n]];
  }

  lemma LastCounts(s: seq<int>, d: int)
    requires s != []
    ensures multiset(s)[d] == multiset(s[..|s| - 1])[d] + if s[|s| - 1] == d then 1 else 0
  {
    assert s == s[..|s| - 1] + [s[|s| - 1]];
  }

  /** How often each difference occurs does not depend on the order of iteration. */
  lemma RowDiffs(cfg: Config, st: State, other: nat, ks: seq<Hash>, rows: seq<Row>, d: int)
    requires AreRows(cfg, st, other, ks, rows)
    ensures multiset(Diffs(rows))[d] == Hits(st.txs, PairKeys(cfg, st, other), Differ, (cfg.reference, other, d))
  {
    DiffsCounted(st.txs, cfg.reference, other, ks, Diffs(rows), PairKeys(cfg, st, other), d);
  }

  function Count(v: seq<int>, lo: int, hi: int): nat {
    if v == [] then 0 else (if lo <= v[0] <= hi then 1 else 0) + Count(v[1..], lo, hi)
  }

  /** The headline of a pair: n, median (doubled), p10, p90, and how often the reference was first, the two were within
      1 ms, the reference led by more than 5 ms, the other one did. */
  datatype Headline = Headline(n: nat, median2: int, p10: int, p90: int, refFirst: nat, within: nat, refEarlier: nat,
                               otherEarlier: nat)

  function HeadlineOf(diffs: seq<int>): Headline {
    var s := Sort(diffs);
    Headline(|diffs|, Median2(s), NearestRank(s, 100), NearestRank(s, 900),
             Above(diffs, 0), Count(diffs, -MS, MS), Above(diffs, 5 * MS), Below(diffs, -5 * MS))
  }

  lemma {:induction false} CountRest(v: seq<int>, lo: int, hi: int)
    requires lo <= hi
    ensures Count(v, lo, hi) + Above(v, hi) + Below(v, lo) == |v|
  {
    if v != [] { CountRest(v[1..], lo, hi); }
  }

  lemma HeadlineOfSamples(v: seq<int>, w: seq<int>)
    requires multiset(v) == multiset(w)
    ensures HeadlineOf(v) == HeadlineOf(w)
  {
    hide Sort, Median2, NearestRank, Above, Below, Count;
    assert |multiset(v)| == |v| && |multiset(w)| == |w|;
    OrderIrrelevant(v, w);
    LeadersDependOnSamples(v, w, 0);
    LeadersDependOnSamples(v, w, MS);
    LeadersDependOnSamples(v, w, -MS);
    LeadersDependOnSamples(v, w, 5 * MS);
    LeadersDependOnSamples(v, w, -5 * MS);
    CountRest(v, -MS, MS);
    CountRest(w, -MS, MS);
  }

  /** The headline is the same for every order of iteration. */
  lemma HeadlineUnique(cfg: Config, st: State, other: nat, ks: seq<Hash>, rows: seq<Row>, ks': seq<Hash>,
                       rows': seq<Row>)
    requires AreRows(cfg, st, other, ks, rows) && AreRows(cfg, st, other, ks', rows')
    ensures HeadlineOf(Diffs(rows)) == HeadlineOf(Diffs(rows'))
  {
    hide AreRows, Diffs, Hits, Sort, Median2, NearestRank;
    var v, w := Diffs(rows), Diffs(rows');
    forall d: int ensures multiset(v)[d] == multiset(w)[d] {
      RowDiffs(cfg, st, other, ks, rows, d);
      RowDiffs(cfg, st, other, ks', rows', d);
    }
    assert multiset(v) == multiset(w);
    HeadlineOfSamples(v, w);
  }

  /** Swapping reference and other negates the median, leaves the share within 1 ms, and swaps the shares that lead by
      more than 5 ms. p10 becomes minus p90 and p90 minus p10 unless n is a multiple of ten, and then minus the next
      sample above. */
  lemma SwappedSides(cfg: Config, st: State, other: nat, ks: seq<Hash>, rows: seq<Row>, ks': seq<Hash>, rows': seq<Row>)
    requires AreRows(cfg, st, other, ks, rows)
    requires AreRows(cfg.(reference := other), st, cfg.reference, ks', rows')
    ensures var a, b := HeadlineOf(Diffs(rows)), HeadlineOf(Diffs(rows'));
            && b.n == a.n && b.median2 == -a.median2 && b.within == a.within
            && b.refEarlier == a.otherEarlier && b.otherEarlier == a.refEarlier
            && (a.n % 10 != 0 ==> b.p10 == -a.p90 && b.p90 == -a.p10)
            && (a.n % 10 == 0 && a.n > 0 ==>
                  var s := Sort(Diffs(rows));
                  && |s| == a.n && a.p90 == s[9 * (a.n / 10) - 1] && a.p10 == s[a.n / 10 - 1]
                  && b.p10 == -s[9 * (a.n / 10)] && b.p90 == -s[a.n / 10])
  {
    hide AreRows, Diffs, Hits, Sort, Median2, NearestRank;
    var v, w := Diffs(rows), Diffs(rows');
    forall d: int ensures multiset(w)[d] == multiset(Negated(v))[d] {
      RowDiffs(cfg, st, other, ks, rows, -d);
      RowDiffs(cfg.(reference := other), st, cfg.reference, ks', rows', d);
      NegatedCount(v, d);
      MirroredHits(cfg, st, other, d);
    }
    assert multiset(w) == multiset(Negated(v));
    HeadlineOfSamples(w, Negated(v));
    MedianOfNegated(v);
    LeadersSwap(v, 5 * MS);
    LeadersSwap(v, MS);
    CountRest(v, -MS, MS);
    CountRest(Negated(v), -MS, MS);
    if v != [] { TenthsSwap(v); }
  }

  lemma TenthsSwap(v: seq<int>)
    requires v != []
    ensures var s, s', n := Sort(v), Sort(Negated(v)), |v|;
            && |s| == n
            && (n % 10 != 0 ==>
                  NearestRank(s', 100) == -NearestRank(s, 900) && NearestRank(s', 900) == -NearestRank(s, 100))
            && (n % 10 == 0 ==>
                  && NearestRank(s, 900) == s[9 * (n / 10) - 1] && NearestRank(s, 100) == s[n / 10 - 1]
                  && NearestRank(s', 100) == -s[9 * (n / 10)] && NearestRank(s', 900) == -s[n / 10])
  {
    hide Sort, NearestRank, Negated, Product, Rank;
    PercentileOfNegated(v, 100);
    PercentileOfNegated(v, 900);
    TenthRanks(|v|);
  }

  lemma TenthRanks(n: nat)
    requires n > 0
    ensures Product(100, n) % 1000 == 0 <==> n % 10 == 0
    ensures Product(900, n) % 1000 == 0 <==> n % 10 == 0
    ensures n % 10 == 0 ==> Rank(Product(900, n), n) == 9 * (n / 10) && Rank(Product(100, n), n) == n / 10
  {
    var q, r := n / 10, n % 10;
    Thousands(q, 100 * r);
    Thousands(9 * q, 900 * r);
    assert Product(100, n) == 1000 * q + 100 * r && Product(900, n) == 1000 * (9 * q) + 900 * r;
    assert 900 * r % 1000 == 0 <==> r == 0;
    if r == 0 {
      RankOfThousands(q, n);
      RankOfThousands(9 * q, n);
    }
  }

  lemma Thousands(m: nat, r: nat)
    ensures (1000 * m + r) % 1000 == r % 1000
  {
  }

  lemma RankOfThousands(m: nat, n: nat)
    requires 1 <= m <= n
    ensures Rank(1000 * m + 0, n) == m
  {
    assert (1000 * m + 999) / 1000 == m;
  }

  lemma MirroredHits(cfg: Config, st: State, other: nat, d: int)
    ensures Hits(st.txs, PairKeys(cfg.(reference := other), st, cfg.reference), Differ, (other, cfg.reference, d))
         == Hits(st.txs, PairKeys(cfg, st, other), Differ, (cfg.reference, other, -d))
  {
    var ks := PairKeys(cfg, st, other);
    assert PairKeys(cfg.(reference := other), st, cfg.reference) == ks;
    HitsMonotone(st.txs, ks, Differ, (other, cfg.reference, d), (cfg.reference, other, -d));
    HitsMonotone(st.txs, ks, Differ, (cfg.reference, other, -d), (other, cfg.reference, d));
  }

  // ----- intervals -----

  /** Index of the interval of the run in which a row lies; before the start counts as the first. */
  function IntervalOf(start: int, interval: nat, row: Row): nat
    requires interval > 0
  {
    (if row.first > start then row.first - start else 0) / interval
  }

  /** The program divides seconds as floating-point numbers and truncates: without rounding, that is this index. */
  lemma IntervalIsTruncated(start: int, interval: nat, row: Row)
    requires interval > 0
    ensures var elapsed := if row.first > start then row.first - start else 0;
            IntervalOf(start, interval, row) ==
              ((elapsed as real / 1000000000.0) / (interval as real / 1000000000.0)).Floor
  {
    hide *;
    var x := if row.first > start then row.first - start else 0;
    ScaleCancels(x as real, interval as real, 1000000000.0);
    FloorOfQuotient(x, interval);
    IntervalIs(start, interval, row);
  }

  lemma IntervalIs(start: int, interval: nat, row: Row)
    requires interval > 0
    ensures IntervalOf(start, interval, row) == (if row.first > start then row.first - start else 0) / interval
  {
  }

  lemma ScaleCancels(a: real, b: real, c: real)
    requires b > 0.0 && c > 0.0
    ensures b / c > 0.0 && (a / c) / (b / c) == a / b
  {
  }

  lemma FloorOfQuotient(x: nat, y: nat)
    requires y > 0
    ensures (x as real / y as real).Floor == x / y
  {
    var q, z := x / y, x as real / y as real;
    QuotientBounds(x, y, q);
    assert z * y as real == x as real;
    Unscaled(q as real, z, y as real);
    Unscaled((q + 1) as real, z, y as real);
    FloorIs(z, q);
  }

  lemma FloorIs(z: real, q: int)
    requires q as real <= z < (q + 1) as real
    ensures z.Floor == q
  {
  }

  lemma QuotientBounds(x: nat, y: nat, q: nat)
    requires y > 0 && q == x / y
    ensures q as real * y as real <= x as real < (q + 1) as real * y as real
  {
    var r := x % y;
    assert x == q * y + r;
    assert (q * y) as real == q as real * y as real && ((q + 1) * y) as real == (q + 1) as real * y as real;
    assert (q + 1) * y == q * y + y;
  }

  lemma Unscaled(a: real, b: real, y: real)
    requires y > 0.0
    ensures a * y <= b * y <==> a <= b
  {
    assert b * y - a * y == (b - a) * y;
  }

  /** The differences of the rows of one interval. */
  function DiffsAt(start: int, interval: nat, rows: seq<Row>, idx: nat): seq<int>
    requires interval > 0
  {
    if rows == [] then []
    else
      var k := |rows| - 1;
      DiffsAt(start, interval, rows[..k], idx) +
        if IntervalOf(start, interval, rows[k]) == idx then [rows[k].diff] else []
  }

  datatype Stat = Stat(idx: nat, n: nat, median2: int, refFirst: nat)

  function StatOf(idx: nat, v: seq<int>): Stat {
    Stat(idx, |v|, Median2(Sort(v)), Above(v, 0))
  }

  ghost predicate IndexOrdered(out: seq<Stat>) {
    forall i, j :: 0 <= i < j < |out| ==> out[i].idx < out[j].idx
  }

  /** `sort_by_key` on the index, one element at a time. */
  method InsertStat(out: seq<Stat>, x: Stat) returns (r: seq<Stat>)
    requires IndexOrdered(out) && forall i :: 0 <= i < |out| ==> out[i].idx != x.idx
    ensures IndexOrdered(r) && forall y :: y in r <==> y in out || y == x
  {
    var i := 0;
    while i < |out| && out[i].idx < x.idx
      invariant 0 <= i <= |out| && forall j :: 0 <= j < i ==> out[j].idx < x.idx
    {
      i := i + 1;
    }
    r := out[..i] + [x] + out[i..];
    assert r[i] == x;
    assert forall j :: 0 <= j < |out| ==> out[j] == if j < i then r[j] else r[j + 1];
  }

  ghost predicate HasIndex(out: seq<Stat>, idx: nat) {
    exists x :: x in out && x.idx == idx
  }

  ghost predicate AreIntervals(start: int, interval: nat, rows: seq<Row>, out: seq<Stat>)
    requires interval > 0
  {
    && IndexOrdered(out)
    && (forall i :: 0 <= i < |rows| ==> HasIndex(out, IntervalOf(start, interval, rows[i])))
    && (forall x :: x in out ==> x.n > 0 && x == StatOf(x.idx, DiffsAt(start, interval, rows, x.idx)))
  }

  /** One entry for each interval, in order. */
  method StatsOf(byIdx: map<nat, seq<int>>) returns (out: seq<Stat>)
    ensures IndexOrdered(out) && forall x :: x in out ==> x.idx in byIdx && x == StatOf(x.idx, byIdx[x.idx])
    ensures forall idx :: idx in byIdx ==> StatOf(idx, byIdx[idx]) in out
  {
    hide StatOf;
    out := [];
    var todo := byIdx.Keys;
    while todo != {}
      invariant todo <= byIdx.Keys && IndexOrdered(out)
      invariant forall x :: x in out ==> x.idx in byIdx && x.idx !in todo && x == StatOf(x.idx, byIdx[x.idx])
      invariant forall idx :: idx in byIdx && idx !in todo ==> StatOf(idx, byIdx[idx]) in out
    {
      var idx :| idx in todo;
      todo := todo - {idx};
      StatIdx(idx, byIdx[idx]);
      assert forall i :: 0 <= i < |out| ==> out[i] in out;
      out := InsertStat(out, StatOf(idx, byIdx[idx]));
    }
  }

  /** The interval part of `pair_summary`. */
  method Intervals(start: int, interval: nat, rows: seq<Row>) returns (out: seq<Stat>)
    requires interval > 0
    ensures AreIntervals(start, interval, rows, out)
  {
    hide StatOf, DiffsAt, IntervalOf;
    var byIdx: map<nat, seq<int>> := map[];
    NoDiffs(start, interval);
    for k := 0 to |rows|
      invariant forall idx: nat :: idx in byIdx <==> DiffsAt(start, interval, rows[..k], idx) != []
      invariant forall idx: nat :: idx in byIdx ==> byIdx[idx] == DiffsAt(start, interval, rows[..k], idx)
    {
      var idx := IntervalOf(start, interval, rows[k]);
      byIdx := byIdx[idx := (if idx in byIdx then byIdx[idx] else []) + [rows[k].diff]];
      DiffsAtSnoc(start, interval, rows, k);
    }
    assert rows[..|rows|] == rows;
    hide IndexOrdered;
    out := StatsOf(byIdx);
    forall i | 0 <= i < |rows| ensures HasIndex(out, IntervalOf(start, interval, rows[i])) {
      var idx := IntervalOf(start, interval, rows[i]);
      DiffsNonEmpty(start, interval, rows, i);
      StatIdx(idx, byIdx[idx]);
      assert StatOf(idx, byIdx[idx]) in out;
    }
    forall x | x in out ensures x.n > 0 { StatIdx(x.idx, byIdx[x.idx]); }
  }

  lemma NoDiffs(start: int, interval: nat)
    requires interval > 0
    ensures forall idx: nat :: DiffsAt(start, interval, [], idx) == []
  {
  }

  lemma DiffsAtSnoc(start: int, interval: nat, rows: seq<Row>, k: nat)
    requires interval > 0 && k < |rows|
    ensures forall idx: nat ::
              DiffsAt(start, interval, rows[..k + 1], idx) ==
              DiffsAt(start, interval, rows[..k], idx)
              + if IntervalOf(start, interval, rows[k]) == idx then [rows[k].diff] else []
  {
    hide IntervalOf;
    assert rows[..k + 1][..k] == rows[..k];
  }

  lemma StatIdx(idx: nat, v: seq<int>)
    ensures StatOf(idx, v).idx == idx && StatOf(idx, v).n == |v|
  {
  }

  lemma {:induction false} DiffsNonEmpty(start: int, interval: nat, rows: seq<Row>, i: nat)
    requires interval > 0 && i < |rows|
    ensures DiffsAt(start, interval, rows, IntervalOf(start, interval, rows[i])) != []
    decreases |rows|
  {
    var k := |rows| - 1;
    if i < k {
      DiffsNonEmpty(start, interval, rows[..k], i);
      assert rows[..k][i] == rows[i];
    }
  }

  function SumN(out: seq<Stat>): nat {
    if out == [] then 0 else SumN(out[..|out| - 1]) + out[|out| - 1].n
  }

  /** Rows counted under the indices of `out`. */
  function Covered(start: int, interval: nat, rows: seq<Row>, out: seq<Stat>): nat
    requires interval > 0
  {
    if out == [] then 0
    else Covered(start, interval, rows, out[..|out| - 1]) + |DiffsAt(start, interval, rows, out[|out| - 1].idx)|
  }

  lemma {:induction false} CoveredSnoc(start: int, interval: nat, rows: seq<Row>, row: Row, out: seq<Stat>)
    requires interval > 0 && IndexOrdered(out)
    ensures Covered(start, interval, rows + [row], out) ==
            Covered(start, interval, rows, out) +
            if HasIndex(out, IntervalOf(start, interval, row)) then 1 else 0
    decreases |out|
  {
    if out != [] {
      var k := |out| - 1;
      CoveredSnoc(start, interval, rows, row, out[..k]);
      assert (rows + [row])[..|rows|] == rows;
      assert out == out[..k] + [out[k]];
      if out[k].idx == IntervalOf(start, interval, row) {
        assert forall x :: x in out[..k] ==> x.idx < out[k].idx;
      }
    }
  }

  lemma {:induction false} AllCovered(start: int, interval: nat, rows: seq<Row>, out: seq<Stat>)
    requires interval > 0 && IndexOrdered(out)
    requires forall i :: 0 <= i < |rows| ==> HasIndex(out, IntervalOf(start, interval, rows[i]))
    ensures Covered(start, interval, rows, out) == |rows|
    decreases |rows|
  {
    if rows == [] {
      NoneCovered(start, interval, out);
    } else {
      var k := |rows| - 1;
      assert forall i :: 0 <= i < k ==> rows[..k][i] == rows[i];
      AllCovered(start, interval, rows[..k], out);
      CoveredSnoc(start, interval, rows[..k], rows[k], out);
      assert rows == rows[..k] + [rows[k]];
    }
  }

  lemma {:induction false} NoneCovered(start: int, interval: nat, out: seq<Stat>)
    requires interval > 0
    ensures Covered(start, interval, [], out) == 0
    decreases |out|
  {
    if out != [] { NoneCovered(start, interval, out[..|out| - 1]); }
  }

  lemma {:induction false} SumIsCovered(start: int, interval: nat, rows: seq<Row>, out: seq<Stat>)
    requires interval > 0 && forall x :: x in out ==> x.n == |DiffsAt(start, interval, rows, x.idx)|
    ensures SumN(out) == Covered(start, interval, rows, out)
    decreases |out|
  {
    if out != [] { SumIsCovered(start, interval, rows, out[..|out| - 1]); }
  }

  /** Every row is counted in exactly one interval: the counts sum to the number of rows. */
  lemma IntervalsPartition(start: int, interval: nat, rows: seq<Row>, out: seq<Stat>)
    requires interval > 0 && AreIntervals(start, interval, rows, out)
    ensures SumN(out) == |rows|
  {
    hide StatOf;
    forall x | x in out ensures x.n == |DiffsAt(start, interval, rows, x.idx)| {
      StatIdx(x.idx, DiffsAt(start, interval, rows, x.idx));
    }
    SumIsCovered(start, interval, rows, out);
    AllCovered(start, interval, rows, out);
  }

  // ----- block-size buckets -----

  /** Position of a block size among 1-5, 6-20, 21-50 and more than 50. */
  function BucketOf(size: Option<nat>): Option<nat> {
    if size.None? || size.value < 1 then None
    else Some(if size.value <= 5 then 0 else if size.value <= 20 then 1 else if size.value <= 50 then 2 else 3)
  }

  function Chosen(rows: seq<Row>, b: nat): seq<Row> {
    if rows == [] then []
    else
      var k := |rows| - 1;
      Chosen(rows[..k], b) + if BucketOf(rows[k].size) == Some(b) then [rows[k]] else []
  }

  /** The distinct block keys among rows. */
  function KeysOf(rows: seq<Row>): set<string> {
    if rows == [] then {}
    else KeysOf(rows[..|rows| - 1]) + if rows[|rows| - 1].block.Some? then {rows[|rows| - 1].block.value} else {}
  }

  datatype Bucket = Bucket(blocks: nat, txs: nat, median2: int, p10: int, p90: int, refFirst: nat)

  function BucketStat(rows: seq<Row>): Bucket {
    var v := Diffs(rows);
    var s := Sort(v);
    Bucket(|KeysOf(rows)|, |rows|, Median2(s), NearestRank(s, 100), NearestRank(s, 900), Above(v, 0))
  }

  ghost predicate AreBuckets(rows: seq<Row>, out: seq<Bucket>) {
    |out| == 4 && forall b :: 0 <= b < 4 ==> out[b] == BucketStat(Chosen(rows, b))
  }

  /** The bucket part of `pair_summary`. */
  method Buckets(rows: seq<Row>) returns (out: seq<Bucket>)
    ensures AreBuckets(rows, out)
  {
    hide BucketStat;
    var chosen: seq<seq<Row>> := [[], [], [], []];
    for k := 0 to |rows|
      invariant |chosen| == 4 && forall b :: 0 <= b < 4 ==> chosen[b] == Chosen(rows[..k], b)
    {
      assert rows[..k + 1][..k] == rows[..k];
      var b := BucketOf(rows[k].size);
      if b.Some? { chosen := chosen[b.value := chosen[b.value] + [rows[k]]]; }
    }
    assert rows[..|rows|] == rows;
    out := [BucketStat(chosen[0]), BucketStat(chosen[1]), BucketStat(chosen[2]), BucketStat(chosen[3])];
  }

  function SizedRows(rows: seq<Row>): nat {
    if rows == [] then 0
    else
      var size := rows[|rows| - 1].size;
      SizedRows(rows[..|rows| - 1]) + if size.Some? && size.value >= 1 then 1 else 0
  }

  /** Every row whose block has a size of at least one is in exactly one bucket. */
  lemma {:induction false} BucketsPartition(rows: seq<Row>)
    ensures |Chosen(rows, 0)| + |Chosen(rows, 1)| + |Chosen(rows, 2)| + |Chosen(rows, 3)| == SizedRows(rows)
    decreases |rows|
  {
    if rows != [] { BucketsPartition(rows[..|rows| - 1]); }
  }

  /** Without a Nitro source the size of a row is that of its block, at least one. */
  lemma BlockHasSize(cfg: Config, st: State, other: nat, ks: seq<Hash>, rows: seq<Row>, i: nat)
    requires AreRows(cfg, st, other, ks, rows) && !NitroPresent(cfg) && i < |rows| && rows[i].block.Some?
    ensures rows[i].size == Some(RefCount(cfg, st, rows[i].block.value)) && rows[i].size.value >= 1
  {
    hide Hits;
    HitsPositive(st.txs, st.txs.Keys, InBlock, (cfg.reference, rows[i].block.value), ks[i]);
  }

  /** Does block `key` have a row in bucket b? */
  ghost predicate InBucket(rows: seq<Row>, b: nat, key: string) {
    exists i :: 0 <= i < |rows| && rows[i].block == Some(key) && BucketOf(rows[i].size) == Some(b)
  }

  lemma InBucketSnoc(front: seq<Row>, row: Row, b: nat, key: string)
    ensures InBucket(front + [row], b, key)
            <==> InBucket(front, b, key) || (row.block == Some(key) && BucketOf(row.size) == Some(b))
  {
    hide BucketOf;
    assert (front + [row])[|front|] == row;
    assert forall i :: 0 <= i < |front| ==> (front + [row])[i] == front[i];
  }

  lemma KeysOfSnoc(front: seq<Row>, row: Row)
    ensures KeysOf(front + [row]) == KeysOf(front) + if row.block.Some? then {row.block.value} else {}
  {
    assert (front + [row])[..|front|] == front;
  }

  lemma {:induction false} KeysOfChosen(rows: seq<Row>, b: nat, key: string)
    ensures key in KeysOf(Chosen(rows, b)) <==>
            exists i :: 0 <= i < |rows| && rows[i].block == Some(key) && BucketOf(rows[i].size) == Some(b)
    decreases |rows|
  {
    hide BucketOf, KeysOf;
    assert key in KeysOf(Chosen(rows, b)) <==> InBucket(rows, b, key) by {
      if rows == [] {
        NoKeys();
      } else {
        var front, row := rows[..|rows| - 1], rows[|rows| - 1];
        assert rows == front + [row];
        KeysOfChosen(front, b, key);
        InBucketSnoc(front, row, b, key);
        KeysOfSnoc(Chosen(front, b), row);
        assert Chosen(front, b) + [] == Chosen(front, b);
      }
    }
  }

  lemma NoKeys()
    ensures KeysOf([]) == {}
  {
  }

  lemma {:induction false} KeysOfAll(rows: seq<Row>, key: string)
    ensures key in KeysOf(rows) <==> exists i :: 0 <= i < |rows| && rows[i].block == Some(key)
    decreases |rows|
  {
    if rows != [] {
      var k := |rows| - 1;
      KeysOfAll(rows[..k], key);
      assert forall i :: 0 <= i < k ==> rows[..k][i] == rows[i];
      if key in KeysOf(rows[..k]) {
        var i :| 0 <= i < k && rows[..k][i].block == Some(key);
        assert rows[i].block == Some(key);
      }
      if rows[k].block != Some(key) && exists i :: 0 <= i < |rows| && rows[i].block == Some(key) {
        var i :| 0 <= i < |rows| && rows[i].block == Some(key);
        assert rows[..k][i].block == Some(key);
      }
    }
  }

  lemma BucketOfKey(cfg: Config, st: State, other: nat, ks: seq<Hash>, rows: seq<Row>, b: nat, key: string)
    requires AreRows(cfg, st, other, ks, rows) && !NitroPresent(cfg)
    ensures key in KeysOf(Chosen(rows, b)) <==> key in KeysOf(rows) && BucketOf(Some(RefCount(cfg, st, key))) == Some(b)
  {
    hide RefCount, AreRows, Chosen, KeysOf;
    KeysOfChosen(rows, b, key);
    KeysOfAll(rows, key);
    forall i | 0 <= i < |rows| && rows[i].block == Some(key)
      ensures rows[i].size == Some(RefCount(cfg, st, key)) && RefCount(cfg, st, key) >= 1
    {
      BlockHasSize(cfg, st, other, ks, rows, i);
    }
  }

  /** Without a Nitro source no block is split across buckets: their block counts sum to the number of distinct
      blocks. */
  lemma BlocksPartition(cfg: Config, st: State, other: nat, ks: seq<Hash>, rows: seq<Row>, out: seq<Bucket>)
    requires AreRows(cfg, st, other, ks, rows) && !NitroPresent(cfg) && AreBuckets(rows, out)
    ensures out[0].blocks + out[1].blocks + out[2].blocks + out[3].blocks == |KeysOf(rows)|
  {
    hide AreRows, RefCount, Chosen, KeysOf, BucketStat, BucketOf;
    var k0, k1, k2, k3 := KeysOf(Chosen(rows, 0)), KeysOf(Chosen(rows, 1)), KeysOf(Chosen(rows, 2)),
        KeysOf(Chosen(rows, 3));
    forall key: string
      ensures key in KeysOf(rows) <==> key in k0 || key in k1 || key in k2 || key in k3
      ensures key in k0 ==> key !in k1 && key !in k2 && key !in k3
      ensures key in k1 ==> key !in k2 && key !in k3
      ensures key in k2 ==> key !in k3
    {
      OneBucket(cfg, st, other, ks, rows, key);
      if key in KeysOf(rows) {
        var q :| OnlyIn(rows, key, q);
      }
    }
    FourParts(KeysOf(rows), k0, k1, k2, k3);
    forall b | 0 <= b < 4 ensures out[b].blocks == |KeysOf(Chosen(rows, b))| { BlocksOf(Chosen(rows, b)); }
  }

  lemma OneBucket(cfg: Config, st: State, other: nat, ks: seq<Hash>, rows: seq<Row>, key: string)
    requires AreRows(cfg, st, other, ks, rows) && !NitroPresent(cfg)
    ensures key !in KeysOf(rows) ==> forall b :: 0 <= b < 4 ==> key !in KeysOf(Chosen(rows, b))
    ensures key in KeysOf(rows) ==> exists q :: OnlyIn(rows, key, q)
  {
    hide AreRows, RefCount, Chosen, KeysOf;
    forall b: nat | b < 4
      ensures key in KeysOf(Chosen(rows, b))
              <==> key in KeysOf(rows) && BucketOf(Some(RefCount(cfg, st, key))) == Some(b)
    {
      BucketOfKey(cfg, st, other, ks, rows, b, key);
    }
    KeysOfAll(rows, key);
    if key in KeysOf(rows) {
      var i :| 0 <= i < |rows| && rows[i].block == Some(key);
      BlockHasSize(cfg, st, other, ks, rows, i);
      var q := BucketOf(Some(RefCount(cfg, st, key))).value;
      assert OnlyIn(rows, key, q);
    }
  }

  ghost predicate OnlyIn(rows: seq<Row>, key: string, q: nat) {
    q < 4 && forall b :: 0 <= b < 4 ==> (key in KeysOf(Chosen(rows, b)) <==> b == q)
  }

  lemma BlocksOf(rows: seq<Row>)
    ensures BucketStat(rows).blocks == |KeysOf(rows)|
  {
  }

  lemma FourParts<T>(all: set<T>, a: set<T>, b: set<T>, c: set<T>, d: set<T>)
    requires all == a + b + c + d && a !! b && (a + b) !! c && (a + b + c) !! d
    ensures |all| == |a| + |b| + |c| + |d|
  {
    assert |a + b| == |a| + |b| && |a + b + c| == |a + b| + |c|;
  }
}
