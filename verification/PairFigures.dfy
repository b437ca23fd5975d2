/** The figures of the pair table, stated from the records of a run: over all transactions of the pair, over those of
    one interval, and over those in blocks of one size. */
module PairFigures {
  import opened Bytes
  import opened Ranks
  import opened Records
  import opened Samples
  import opened Tally
  import opened Window
  import opened PairTable
  import opened PairOrder
  import Figures

  // ----- the samples of a selection of rows -----

  function Select(rows: seq<Row>, which: Row -> bool): seq<Row> {
    if rows == [] then []
    else Select(rows[..|rows| - 1], which) + if which(rows[|rows| - 1]) then [rows[|rows| - 1]] else []
  }

  lemma SelectSnoc(front: seq<Row>, row: Row, which: Row -> bool)
    ensures Select(front + [row], which) == Select(front, which) + if which(row) then [row] else []
  {
    assert (front + [row])[..|front|] == front;
  }

  function Selected(m: map<Hash, Row>, ks: set<Hash>, which: Row -> bool): map<Hash, int> {
    map t | t in ks && t in m && which(m[t]) :: m[t].diff
  }

  lemma {:induction false} SelectedTimes(m: map<Hash, Row>, ks: seq<Hash>, rows: seq<Row>, done: set<Hash>,
                                         which: Row -> bool, d: int)
    requires Image(m, ks, rows) && forall t :: t in ks <==> t in done
    ensures multiset(Diffs(Select(rows, which)))[d] == Times(Selected(m, done, which), d)
    decreases |ks|
  {
    hide Times, Selected, Select, Diffs;
    if ks == [] {
      assert done == {};
      NothingSelected(m, which, d);
    } else {
      var n := |ks| - 1;
      var t, row := ks[n], rows[n];
      KeysWithoutLast(ks, done);
      assert Image(m, ks[..n], rows[..n]);
      SelectedTimes(m, ks[..n], rows[..n], done - {t}, which, d);
      SelectedAdd(m, done - {t}, t, which, d);
      assert rows == rows[..n] + [row];
      SelectSnoc(rows[..n], row, which);
      DiffsConcat(Select(rows[..n], which), if which(row) then [row] else []);
      OneDiff(row);
    }
  }

  lemma OneDiff(row: Row)
    ensures Diffs([row]) == [row.diff] && Diffs([]) == []
  {
  }

  lemma NothingSelected(m: map<Hash, Row>, which: Row -> bool, d: int)
    ensures Select([], which) == [] && Diffs([]) == [] && Times(Selected(m, {}, which), d) == 0
  {
    var e := Selected(m, {}, which);
    TimesBound(e, d);
    assert e.Keys == {};
  }

  lemma SelectedAdd(m: map<Hash, Row>, ks: set<Hash>, t: Hash, which: Row -> bool, d: int)
    requires t !in ks && t in m
    ensures Times(Selected(m, ks + {t}, which), d)
         == Times(Selected(m, ks, which), d) + if which(m[t]) && m[t].diff == d then 1 else 0
  {
    var a, b := Selected(m, ks, which), Selected(m, ks + {t}, which);
    if which(m[t]) {
      Without(b, t, d);
      assert b - {t} == a;
    } else {
      assert b == a;
    }
  }

  lemma {:induction false} SelectIsRowsAt(start: int, interval: nat, rows: seq<Row>, idx: nat, which: Row -> bool)
    requires interval > 0 && forall row: Row :: which(row) <==> IntervalOf(start, interval, row) == idx
    ensures Select(rows, which) == RowsAt(start, interval, rows, idx)
    decreases |rows|
  {
    hide IntervalOf;
    if rows != [] { SelectIsRowsAt(start, interval, rows[..|rows| - 1], idx, which); }
  }

  lemma {:induction false} SelectIsChosen(rows: seq<Row>, b: nat, which: Row -> bool)
    requires forall row: Row :: which(row) <==> BucketOf(row.size) == Some(b)
    ensures Select(rows, which) == Chosen(rows, b)
    decreases |rows|
  {
    hide BucketOf;
    if rows != [] { SelectIsChosen(rows[..|rows| - 1], b, which); }
  }

  lemma {:induction false} SelectAll(rows: seq<Row>, which: Row -> bool)
    requires forall row: Row :: which(row)
    ensures Select(rows, which) == rows
    decreases |rows|
  {
    if rows != [] { SelectAll(rows[..|rows| - 1], which); }
  }

  // ----- the transactions -----

  /** The transactions that both sources delivered and that were first seen inside the window. */
  ghost function PairOf(cfg: Config, h: seq<Event>, other: nat): set<Hash>
    requires ValidHistory(cfg, h)
  {
    var ts := Run(cfg, h).txs;
    set t | t in ts && Shared(ts[t].arrivals, cfg.reference, other) && Figures.Inside(cfg, h, ts[t].first)
  }

  /** Two sources have it. */
  predicate Shared(arrivals: seq<Option<int>>, i: nat, j: nat) {
    i < |arrivals| && j < |arrivals| && arrivals[i] != None && arrivals[j] != None
  }

  /** How much later than the reference the other source delivered each of some transactions. */
  function LateOf(ts: map<Hash, TxRec>, ks: set<Hash>, reference: nat, other: nat): map<Hash, int> {
    map t | t in ks && t in ts && Shared(ts[t].arrivals, reference, other) ::
      ts[t].arrivals[other].value - ts[t].arrivals[reference].value
  }

  /** Those first seen in interval number idx, from 0, of the run; before its start counts as the first one. */
  ghost function DuringOf(ts: map<Hash, TxRec>, ks: set<Hash>, start: int, interval: nat, idx: nat): set<Hash> {
    set t | t in ks && t in ts &&
      if ts[t].first < start then idx == 0
      else start + idx * interval <= ts[t].first < start + (idx + 1) * interval
  }

  /** The size of a transaction's block: as a Nitro frame says, or else how many transactions of the block the reference
      delivered. */
  ghost function SizedOf(cfg: Config, ts: map<Hash, TxRec>, ks: set<Hash>, lo: nat, hi: Option<nat>): set<Hash> {
    set t | t in ks && t in ts &&
      exists n: nat :: BlockSize(cfg, ts, ts[t], n) && lo <= n && (hi.Some? ==> n <= hi.value)
  }

  ghost predicate BlockSize(cfg: Config, ts: map<Hash, TxRec>, r: TxRec, n: nat) {
    if exists s :: 0 <= s < |cfg.nitro| && cfg.nitro[s] then r.fromNitro && r.txCount == Some(n)
    else r.blockKey.Some? && n > 0
         && n == |set u | u in ts && cfg.reference < |ts[u].arrivals| && ts[u].arrivals[cfg.reference].Some?
                          && ts[u].blockKey == r.blockKey|
  }

  lemma SizeExactly(cfg: Config, st: State, r: TxRec, n: nat)
    ensures SizeOf(cfg, st, r) == Some(n) <==> BlockSize(cfg, st.txs, r, n)
  {
    hide Hits;
    if r.blockKey.Some? {
      HitsAre(st.txs, st.txs.Keys, InBlock, (cfg.reference, r.blockKey.value),
              set u | u in st.txs && cfg.reference < |st.txs[u].arrivals| && st.txs[u].arrivals[cfg.reference].Some?
                      && st.txs[u].blockKey == r.blockKey);
    }
  }

  lemma IntervalExactly(start: int, interval: nat, row: Row, idx: nat)
    requires interval > 0
    ensures IntervalOf(start, interval, row) == idx <==>
            if row.first < start then idx == 0
            else start + idx * interval <= row.first < start + (idx + 1) * interval
  {
    var e := if row.first > start then row.first - start else 0;
    assert (idx + 1) * interval == idx * interval + interval;
    if idx * interval <= e < idx * interval + interval { QuotientIs(e, interval, idx, e - idx * interval); }
    var q := e / interval;
    assert e == q * interval + e % interval;
    if row.first < start { QuotientIs(0, interval, 0, 0); }
  }

  /** `v` are the samples of a selection of the pair's transactions. */
  lemma SelectionSamples(cfg: Config, st: State, other: nat, ks: seq<Hash>, rows: seq<Row>, which: Row -> bool,
                         late: map<Hash, int>)
    requires AreRows(cfg, st, other, ks, rows)
    requires forall t :: t in late <==> t in PairKeys(cfg, st, other) && which(RowOf(cfg, st, other, st.txs[t]))
    requires forall t :: t in late ==> late[t] == RowOf(cfg, st, other, st.txs[t]).diff
    ensures var v := Diffs(Select(rows, which)); |v| == |late| && forall x: int :: AtMost(v, x) == UpTo(late, x)
  {
    hide RowOf, PairKeys, Times, UpTo, AtMost, Diffs, Select;
    var m, done, v := RowMap(cfg, st, other), PairKeys(cfg, st, other), Diffs(Select(rows, which));
    assert Image(m, ks, rows);
    RowMapKeys(cfg, st, other);
    assert Selected(m, done, which) == late;
    forall d: int ensures multiset(v)[d] == Times(late, d) { SelectedTimes(m, ks, rows, done, which, d); }
    forall x: int ensures |v| == |late| && AtMost(v, x) == UpTo(late, x) { OccurrencesDecide(late, v, x); }
    OccurrencesDecide(late, v, 0);
  }

  lemma RowMapKeys(cfg: Config, st: State, other: nat)
    ensures PairKeys(cfg, st, other) <= RowMap(cfg, st, other).Keys
    ensures forall t :: t in RowMap(cfg, st, other) ==>
              && t in st.txs && Both(st.txs[t], cfg.reference, other)
              && RowMap(cfg, st, other)[t] == RowOf(cfg, st, other, st.txs[t])
  {
    hide RowOf;
  }

  lemma PairCounted(cfg: Config, h: seq<Event>, other: nat)
    requires ValidConfig(cfg) && ValidHistory(cfg, h)
    ensures PairKeys(cfg, Run(cfg, h), other) == PairOf(cfg, h, other)
  {
    hide Run, InWindow;
  }

  // ----- the table -----

  /** The headline: n, median, p10 and p90 of the differences, and how many are positive, within 1 ms, above 5 ms and
      below -5 ms. */
  lemma HeadlineFigures(cfg: Config, h: seq<Event>, other: nat, interval: nat, t: Table, ks: seq<Hash>, rows: seq<Row>)
    requires ValidConfig(cfg) && ValidHistory(cfg, h) && interval > 0
    requires IsTable(cfg, Run(cfg, h), other, interval, t, ks, rows)
    ensures var late := LateOf(Run(cfg, h).txs, PairOf(cfg, h, other), cfg.reference, other);
            var at, n, f := (x: int) => UpTo(late, x), |late|, t.headline;
            && f.n == n && MedianOf(at, n, f.median2) && PermilleOf(at, n, 100, f.p10) && PermilleOf(at, n, 900, f.p90)
            && f.refFirst == n - at(0) && f.within == at(1_000_000) - at(-1_000_001)
            && f.refEarlier == n - at(5_000_000) && f.otherEarlier == at(-5_000_001)
  {
    hide Run, AreRows, AreIntervals, AreBuckets, Figures.Inside, UpTo, AtMost, Diffs, Select, MedianOf, PermilleOf;
    hide Sort, Median2, NearestRank;
    var st, which := Run(cfg, h), (row: Row) => true;
    var late := LateOf(st.txs, PairOf(cfg, h, other), cfg.reference, other);
    PairCounted(cfg, h, other);
    SelectAll(rows, which);
    SelectionSamples(cfg, st, other, ks, rows, which, late);
    var v, at := Diffs(rows), (x: int) => UpTo(late, x);
    MedianIs(v, at);
    PermilleIs(v, 100, at);
    PermilleIs(v, 900, at);
    AboveIs(v, 0);
    AboveIs(v, 5_000_000);
    AboveIs(v, -5_000_000);
    AboveIs(v, 1_000_000);
    AboveIs(v, -1_000_000);
    CountRest(v, -1_000_000, 1_000_000);
  }

  lemma IntervalSamples(cfg: Config, h: seq<Event>, other: nat, interval: nat, ks: seq<Hash>, rows: seq<Row>, idx: nat)
    requires ValidConfig(cfg) && ValidHistory(cfg, h) && interval > 0
    requires AreRows(cfg, Run(cfg, h), other, ks, rows)
    ensures var ts, v := Run(cfg, h).txs, DiffsAt(cfg.start, interval, rows, idx);
            var late := LateOf(ts, DuringOf(ts, PairOf(cfg, h, other), cfg.start, interval, idx), cfg.reference, other);
            |v| == |late| && forall x: int :: AtMost(v, x) == UpTo(late, x)
  {
    hide Run, AreRows, Figures.Inside, UpTo, AtMost, Diffs, DiffsAt, Select, RowsAt, IntervalOf, InWindow, SizeOf;
    var st, which := Run(cfg, h), (row: Row) => IntervalOf(cfg.start, interval, row) == idx;
    var during := DuringOf(st.txs, PairOf(cfg, h, other), cfg.start, interval, idx);
    var late := LateOf(st.txs, during, cfg.reference, other);
    PairCounted(cfg, h, other);
    forall t | t in PairKeys(cfg, st, other)
      ensures t in late <==> which(RowOf(cfg, st, other, st.txs[t]))
    {
      IntervalExactly(cfg.start, interval, RowOf(cfg, st, other, st.txs[t]), idx);
    }
    SelectionSamples(cfg, st, other, ks, rows, which, late);
    SelectIsRowsAt(cfg.start, interval, rows, idx, which);
    DiffsOfRowsAt(cfg.start, interval, rows, idx);
  }

  /** Of each interval: how many of its transactions there are, their median difference, and how many are positive.
      Every interval that has transactions is listed, in order, and no other. */
  lemma IntervalFigures(cfg: Config, h: seq<Event>, other: nat, interval: nat, t: Table, ks: seq<Hash>, rows: seq<Row>)
    requires ValidConfig(cfg) && ValidHistory(cfg, h) && interval > 0
    requires IsTable(cfg, Run(cfg, h), other, interval, t, ks, rows)
    ensures forall i, j :: 0 <= i < j < |t.intervals| ==> t.intervals[i].idx < t.intervals[j].idx
    ensures forall f: Stat :: f in t.intervals ==>
              var ts := Run(cfg, h).txs;
              var during := DuringOf(ts, PairOf(cfg, h, other), cfg.start, interval, f.idx);
              var late := LateOf(ts, during, cfg.reference, other);
              && f.n == |late| > 0 && f.refFirst == f.n - UpTo(late, 0) && MedianOf(x => UpTo(late, x), f.n, f.median2)
    ensures forall idx: nat :: DuringOf(Run(cfg, h).txs, PairOf(cfg, h, other), cfg.start, interval, idx) != {} ==>
              exists f :: f in t.intervals && f.idx == idx
  {
    hide Run, AreRows, AreBuckets, UpTo, AtMost, MedianOf, DiffsAt, Sort, Median2, LateOf, DuringOf, PairOf;
    hide IntervalOf;
    var ts, pair := Run(cfg, h).txs, PairOf(cfg, h, other);
    forall f: Stat | f in t.intervals
      ensures var late := LateOf(ts, DuringOf(ts, pair, cfg.start, interval, f.idx), cfg.reference, other);
              && f.n == |late| > 0 && f.refFirst == f.n - UpTo(late, 0) && MedianOf(x => UpTo(late, x), f.n, f.median2)
    {
      var v := DiffsAt(cfg.start, interval, rows, f.idx);
      var late := LateOf(ts, DuringOf(ts, pair, cfg.start, interval, f.idx), cfg.reference, other);
      IntervalSamples(cfg, h, other, interval, ks, rows, f.idx);
      MedianIs(v, x => UpTo(late, x));
      AboveIs(v, 0);
    }
    forall idx: nat | DuringOf(ts, pair, cfg.start, interval, idx) != {}
      ensures exists f :: f in t.intervals && f.idx == idx
    {
      IntervalSamples(cfg, h, other, interval, ks, rows, idx);
      DuringLate(cfg, h, other, interval, idx);
      var i := DiffsFrom(cfg.start, interval, rows, idx);
      assert HasIndex(t.intervals, IntervalOf(cfg.start, interval, rows[i]));
    }
  }

  lemma DuringLate(cfg: Config, h: seq<Event>, other: nat, interval: nat, idx: nat)
    requires ValidHistory(cfg, h)
    ensures var ts := Run(cfg, h).txs;
            var during := DuringOf(ts, PairOf(cfg, h, other), cfg.start, interval, idx);
            during != {} ==> |LateOf(ts, during, cfg.reference, other)| > 0
  {
    hide Run, Figures.Inside;
    var ts := Run(cfg, h).txs;
    var during := DuringOf(ts, PairOf(cfg, h, other), cfg.start, interval, idx);
    var late := LateOf(ts, during, cfg.reference, other);
    if t :| t in during { assert t in late.Keys; }
  }

  /** What a bucket of the blocks with lo to hi transactions must hold: their transactions and blocks counted, the
      median, p10 and p90 of the differences, and how many are positive. */
  ghost predicate BucketHolds(cfg: Config, h: seq<Event>, other: nat, f: Bucket, lo: nat, hi: Option<nat>)
    requires ValidHistory(cfg, h)
  {
    var ts := Run(cfg, h).txs;
    var sized := SizedOf(cfg, ts, PairOf(cfg, h, other), lo, hi);
    var late := LateOf(ts, sized, cfg.reference, other);
    var at, n := (x: int) => UpTo(late, x), |late|;
    && f.txs == n && MedianOf(at, n, f.median2) && PermilleOf(at, n, 100, f.p10) && PermilleOf(at, n, 900, f.p90)
    && f.refFirst == n - at(0)
    && f.blocks == |set t | t in sized && t in ts && ts[t].blockKey.Some? :: ts[t].blockKey.value|
  }

  lemma BucketExactly(n: Option<nat>, b: nat)
    ensures b == 0 ==> (BucketOf(n) == Some(b) <==> n.Some? && 1 <= n.value <= 5)
    ensures b == 1 ==> (BucketOf(n) == Some(b) <==> n.Some? && 6 <= n.value <= 20)
    ensures b == 2 ==> (BucketOf(n) == Some(b) <==> n.Some? && 21 <= n.value <= 50)
    ensures b == 3 ==> (BucketOf(n) == Some(b) <==> n.Some? && 51 <= n.value)
  {
  }

  lemma BucketSamples(cfg: Config, h: seq<Event>, other: nat, ks: seq<Hash>, rows: seq<Row>, b: nat, lo: nat,
                      hi: Option<nat>)
    requires ValidConfig(cfg) && ValidHistory(cfg, h) && AreRows(cfg, Run(cfg, h), other, ks, rows)
    requires forall n: Option<nat> ::
               BucketOf(n) == Some(b) <==> n.Some? && lo <= n.value && (hi.Some? ==> n.value <= hi.value)
    ensures var ts, v := Run(cfg, h).txs, Diffs(Chosen(rows, b));
            var late := LateOf(ts, SizedOf(cfg, ts, PairOf(cfg, h, other), lo, hi), cfg.reference, other);
            |v| == |late| && forall x: int :: AtMost(v, x) == UpTo(late, x)
  {
    hide Run, AreRows, Figures.Inside, UpTo, AtMost, Diffs, Select, Chosen, InWindow, SizeOf, BlockSize, BucketOf;
    var st, which := Run(cfg, h), (row: Row) => BucketOf(row.size) == Some(b);
    var sized := SizedOf(cfg, st.txs, PairOf(cfg, h, other), lo, hi);
    var late := LateOf(st.txs, sized, cfg.reference, other);
    PairCounted(cfg, h, other);
    forall t | t in PairKeys(cfg, st, other)
      ensures t in late <==> which(RowOf(cfg, st, other, st.txs[t]))
    {
      SizedExactly(cfg, st, st.txs[t], lo, hi);
    }
    SelectionSamples(cfg, st, other, ks, rows, which, late);
    SelectIsChosen(rows, b, which);
  }

  lemma SizedExactly(cfg: Config, st: State, r: TxRec, lo: nat, hi: Option<nat>)
    ensures var size := SizeOf(cfg, st, r);
            (size.Some? && lo <= size.value && (hi.Some? ==> size.value <= hi.value))
            <==> exists n: nat :: BlockSize(cfg, st.txs, r, n) && lo <= n && (hi.Some? ==> n <= hi.value)
  {
    hide SizeOf, BlockSize;
    forall n: nat ensures SizeOf(cfg, st, r) == Some(n) <==> BlockSize(cfg, st.txs, r, n) {
      SizeExactly(cfg, st, r, n);
    }
  }

  lemma BucketKeys(cfg: Config, h: seq<Event>, other: nat, ks: seq<Hash>, rows: seq<Row>, b: nat, lo: nat,
                   hi: Option<nat>)
    requires ValidConfig(cfg) && ValidHistory(cfg, h) && AreRows(cfg, Run(cfg, h), other, ks, rows)
    requires forall n: Option<nat> ::
               BucketOf(n) == Some(b) <==> n.Some? && lo <= n.value && (hi.Some? ==> n.value <= hi.value)
    ensures var ts := Run(cfg, h).txs;
            var sized := SizedOf(cfg, ts, PairOf(cfg, h, other), lo, hi);
            KeysOf(Chosen(rows, b)) == set t | t in sized && t in ts && ts[t].blockKey.Some? :: ts[t].blockKey.value
  {
    hide Run, Figures.Inside, KeysOf, Chosen, InWindow, SizeOf, BlockSize, BucketOf, PairKeys, PairOf;
    var st, keys := Run(cfg, h), KeysOf(Chosen(rows, b));
    var sized := SizedOf(cfg, st.txs, PairOf(cfg, h, other), lo, hi);
    var named := set t | t in sized && t in st.txs && st.txs[t].blockKey.Some? :: st.txs[t].blockKey.value;
    PairCounted(cfg, h, other);
    forall t | t in st.txs
      ensures BucketOf(SizeOf(cfg, st, st.txs[t])) == Some(b) <==>
              exists n: nat :: BlockSize(cfg, st.txs, st.txs[t], n) && lo <= n && (hi.Some? ==> n <= hi.value)
    {
      SizedExactly(cfg, st, st.txs[t], lo, hi);
    }
    forall key: string ensures key in keys <==> key in named {
      KeysOfChosen(rows, b, key);
      if key in keys {
        var i :| 0 <= i < |rows| && rows[i].block == Some(key) && BucketOf(rows[i].size) == Some(b);
        assert ks[i] in sized;
      }
      if key in named {
        var t :| t in sized && t in st.txs && st.txs[t].blockKey.Some? && st.txs[t].blockKey.value == key;
        var i :| 0 <= i < |ks| && ks[i] == t;
        assert rows[i].block == Some(key);
      }
    }
  }

  lemma OneBucket(cfg: Config, h: seq<Event>, other: nat, ks: seq<Hash>, rows: seq<Row>, b: nat, lo: nat,
                  hi: Option<nat>)
    requires ValidConfig(cfg) && ValidHistory(cfg, h) && AreRows(cfg, Run(cfg, h), other, ks, rows)
    requires forall n: Option<nat> ::
               BucketOf(n) == Some(b) <==> n.Some? && lo <= n.value && (hi.Some? ==> n.value <= hi.value)
    ensures BucketHolds(cfg, h, other, BucketStat(Chosen(rows, b)), lo, hi)
  {
    hide Run, AreRows, UpTo, AtMost, MedianOf, PermilleOf, Sort, Median2, NearestRank, LateOf, SizedOf, PairOf;
    hide KeysOf, Chosen, BucketOf;
    var ts, v := Run(cfg, h).txs, Diffs(Chosen(rows, b));
    var late := LateOf(ts, SizedOf(cfg, ts, PairOf(cfg, h, other), lo, hi), cfg.reference, other);
    BucketSamples(cfg, h, other, ks, rows, b, lo, hi);
    BucketKeys(cfg, h, other, ks, rows, b, lo, hi);
    MedianIs(v, x => UpTo(late, x));
    PermilleIs(v, 100, x => UpTo(late, x));
    PermilleIs(v, 900, x => UpTo(late, x));
    AboveIs(v, 0);
  }

  /** The four buckets: blocks of 1 to 5, 6 to 20, 21 to 50 and more transactions. */
  lemma BucketFigures(cfg: Config, h: seq<Event>, other: nat, interval: nat, t: Table, ks: seq<Hash>, rows: seq<Row>)
    requires ValidConfig(cfg) && ValidHistory(cfg, h) && interval > 0
    requires IsTable(cfg, Run(cfg, h), other, interval, t, ks, rows)
    ensures |t.buckets| == 4
    ensures BucketHolds(cfg, h, other, t.buckets[0], 1, Some(5))
    ensures BucketHolds(cfg, h, other, t.buckets[1], 6, Some(20))
    ensures BucketHolds(cfg, h, other, t.buckets[2], 21, Some(50))
    ensures BucketHolds(cfg, h, other, t.buckets[3], 51, None)
  {
    hide Run, AreRows, AreIntervals, BucketStat, BucketHolds, Chosen, BucketOf;
    forall n: Option<nat>, b: nat
      ensures b == 0 ==> (BucketOf(n) == Some(b) <==> n.Some? && 1 <= n.value <= 5)
      ensures b == 1 ==> (BucketOf(n) == Some(b) <==> n.Some? && 6 <= n.value <= 20)
      ensures b == 2 ==> (BucketOf(n) == Some(b) <==> n.Some? && 21 <= n.value <= 50)
      ensures b == 3 ==> (BucketOf(n) == Some(b) <==> n.Some? && 51 <= n.value)
    {
      BucketExactly(n, b);
    }
    OneBucket(cfg, h, other, ks, rows, 0, 1, Some(5));
    OneBucket(cfg, h, other, ks, rows, 1, 6, Some(20));
    OneBucket(cfg, h, other, ks, rows, 2, 21, Some(50));
    OneBucket(cfg, h, other, ks, rows, 3, 51, None);
  }
}
