/** The whole pair table, and why the order in which a hash map is visited never shows in it. */
module PairOrder {
  import opened Bytes
  import opened Ranks
  import opened Records
  import opened PairTable

  datatype Table = Table(headline: Headline, intervals: seq<Stat>, buckets: seq<Bucket>)

  /** A table made from rows collected in some order. */
  ghost predicate IsTable(cfg: Config, st: State, other: nat, interval: nat, t: Table, ks: seq<Hash>, rows: seq<Row>)
    requires interval > 0
  {
    && AreRows(cfg, st, other, ks, rows)
    && t.headline == HeadlineOf(Diffs(rows))
    && AreIntervals(cfg.start, interval, rows, t.intervals)
    && AreBuckets(rows, t.buckets)
  }

  /** `pair_summary` */
  method PairSummary(cfg: Config, txs: map<Hash, TxRec>, ups: seq<Interval>, ghost st: State, other: nat, interval: nat)
    returns (t: Table)
    requires txs == st.txs && ups == st.links.allUp && interval > 0
    ensures exists ks, rows :: IsTable(cfg, st, other, interval, t, ks, rows)
  {
    hide AreRows, AreIntervals, AreBuckets, HeadlineOf;
    var rows := Rows(cfg, txs, ups, st, other);
    var intervals := Intervals(cfg.start, interval, rows);
    var buckets := Buckets(rows);
    t := Table(HeadlineOf(Diffs(rows)), intervals, buckets);
    ghost var ks :| AreRows(cfg, st, other, ks, rows);
    assert IsTable(cfg, st, other, interval, t, ks, rows);
  }

  // ----- the rows as a multiset -----

  lemma HeadIn<T>(s: seq<T>)
    ensures s == [] || s[0] in s
  {
  }

  lemma TakeOut<T>(s: seq<T>, j: nat)
    requires j < |s|
    ensures multiset(s[..j] + s[j + 1..]) + multiset{s[j]} == multiset(s)
  {
    assert s == s[..j] + [s[j]] + s[j + 1..];
  }

  /** `rows` are the images of the keys `ks`, all different. */
  ghost predicate Image<K, R>(m: map<K, R>, ks: seq<K>, rows: seq<R>) {
    && |ks| == |rows| && (forall i, j :: 0 <= i < j < |ks| ==> ks[i] != ks[j])
    && (forall i :: 0 <= i < |ks| ==> ks[i] in m && rows[i] == m[ks[i]])
  }

  function Cut<T>(s: seq<T>, j: nat): seq<T>
    requires j < |s|
  {
    s[..j] + s[j + 1..]
  }

  /** Taking one of the keys out. */
  lemma ImageCut<K, R>(m: map<K, R>, ks: seq<K>, rows: seq<R>, j: nat)
    requires Image(m, ks, rows) && j < |ks|
    ensures Image(m, Cut(ks, j), Cut(rows, j)) && rows[j] == m[ks[j]]
    ensures forall k :: k in Cut(ks, j) <==> k in ks && k != ks[j]
    ensures multiset(Cut(rows, j)) + multiset{rows[j]} == multiset(rows)
  {
    TakeOut(rows, j);
    var rest := Cut(ks, j);
    forall k | k in ks && k != ks[j] ensures k in rest {
      var i :| 0 <= i < |ks| && ks[i] == k;
      assert rest[if i < j then i else i - 1] == k;
    }
  }

  lemma {:induction false} SameImage<K, R>(m: map<K, R>, ks: seq<K>, rows: seq<R>, ks': seq<K>, rows': seq<R>)
    requires Image(m, ks, rows) && Image(m, ks', rows') && forall k :: k in ks <==> k in ks'
    ensures multiset(rows) == multiset(rows')
    decreases |ks|
  {
    if ks == [] {
      HeadIn(ks');
    } else {
      assert ks[0] in ks';
      var j :| 0 <= j < |ks'| && ks'[j] == ks[0];
      ImageCut(m, ks, rows, 0);
      ImageCut(m, ks', rows', j);
      assert |Cut(ks, 0)| < |ks|;
      hide Image, Cut;
      SameImage(m, Cut(ks, 0), Cut(rows, 0), Cut(ks', j), Cut(rows', j));
    }
  }

  ghost function RowMap(cfg: Config, st: State, other: nat): map<Hash, Row> {
    map h | h in st.txs && Both(st.txs[h], cfg.reference, other) :: RowOf(cfg, st, other, st.txs[h])
  }

  lemma SameRows(cfg: Config, st: State, other: nat, ks: seq<Hash>, rows: seq<Row>, ks': seq<Hash>, rows': seq<Row>)
    requires AreRows(cfg, st, other, ks, rows) && AreRows(cfg, st, other, ks', rows')
    ensures multiset(rows) == multiset(rows')
  {
    hide RowOf, PairKeys;
    SameImage(RowMap(cfg, st, other), ks, rows, ks', rows');
  }

  // ----- what is computed from that multiset -----

  lemma DiffsCut(rows: seq<Row>, j: nat)
    requires j < |rows|
    ensures multiset(Diffs(Cut(rows, j))) + multiset{rows[j].diff} == multiset(Diffs(rows))
    ensures |Cut(rows, j)| == |rows| - 1 && multiset(Cut(rows, j)) + multiset{rows[j]} == multiset(rows)
  {
    TakeOut(rows, j);
    TakeOut(Diffs(rows), j);
    assert Diffs(Cut(rows, j)) == Cut(Diffs(rows), j);
  }

  lemma Cancel<T>(a: multiset<T>, b: multiset<T>, x: T)
    requires a + multiset{x} == b + multiset{x}
    ensures a == b
  {
    assert a == a + multiset{x} - multiset{x};
    assert b == b + multiset{x} - multiset{x};
  }

  lemma {:induction false} SameDiffs(rows: seq<Row>, rows': seq<Row>)
    requires multiset(rows) == multiset(rows')
    ensures multiset(Diffs(rows)) == multiset(Diffs(rows'))
    decreases |rows|
  {
    hide Diffs, Cut;
    if rows == [] {
      assert |multiset(rows')| == |multiset(rows)|;
      assert rows' == [];
    } else {
      assert rows[0] in multiset(rows');
      var j :| 0 <= j < |rows'| && rows'[j] == rows[0];
      DiffsCut(rows, 0);
      DiffsCut(rows', j);
      Cancel(multiset(Cut(rows, 0)), multiset(Cut(rows', j)), rows[0]);
      SameDiffs(Cut(rows, 0), Cut(rows', j));
    }
  }

  lemma {:induction false} ChosenCount(rows: seq<Row>, b: nat, x: Row)
    ensures multiset(Chosen(rows, b))[x] == if BucketOf(x.size) == Some(b) then multiset(rows)[x] else 0
    decreases |rows|
  {
    if rows != [] {
      var k := |rows| - 1;
      ChosenCount(rows[..k], b, x);
      assert rows == rows[..k] + [rows[k]];
    }
  }

  /** The rows of one interval. */
  function RowsAt(start: int, interval: nat, rows: seq<Row>, idx: nat): seq<Row>
    requires interval > 0
  {
    if rows == [] then []
    else
      var k := |rows| - 1;
      RowsAt(start, interval, rows[..k], idx) + if IntervalOf(start, interval, rows[k]) == idx then [rows[k]] else []
  }

  lemma {:induction false} RowsAtCount(start: int, interval: nat, rows: seq<Row>, idx: nat, x: Row)
    requires interval > 0
    ensures multiset(RowsAt(start, interval, rows, idx))[x] ==
            if IntervalOf(start, interval, x) == idx then multiset(rows)[x] else 0
    decreases |rows|
  {
    hide IntervalOf;
    if rows != [] {
      var k := |rows| - 1;
      RowsAtCount(start, interval, rows[..k], idx, x);
      assert rows == rows[..k] + [rows[k]];
    }
  }

  lemma DiffsConcat(a: seq<Row>, b: seq<Row>)
    ensures Diffs(a + b) == Diffs(a) + Diffs(b)
  {
  }

  lemma {:induction false} DiffsOfRowsAt(start: int, interval: nat, rows: seq<Row>, idx: nat)
    requires interval > 0
    ensures DiffsAt(start, interval, rows, idx) == Diffs(RowsAt(start, interval, rows, idx))
    decreases |rows|
  {
    hide IntervalOf;
    if rows != [] {
      var k := |rows| - 1;
      var front := RowsAt(start, interval, rows[..k], idx);
      DiffsOfRowsAt(start, interval, rows[..k], idx);
      DiffsConcat(front, [rows[k]]);
      assert Diffs([rows[k]]) == [rows[k].diff];
      assert front + [] == front;
    }
  }

  lemma SameStat(start: int, interval: nat, rows: seq<Row>, rows': seq<Row>, idx: nat)
    requires interval > 0 && multiset(rows) == multiset(rows')
    ensures var v, w := DiffsAt(start, interval, rows, idx), DiffsAt(start, interval, rows', idx);
            StatOf(idx, v) == StatOf(idx, w) && |v| == |w|
  {
    hide *;
    var a, b := RowsAt(start, interval, rows, idx), RowsAt(start, interval, rows', idx);
    forall x: Row ensures multiset(a)[x] == multiset(b)[x] {
      RowsAtCount(start, interval, rows, idx, x);
      RowsAtCount(start, interval, rows', idx, x);
    }
    assert multiset(a) == multiset(b);
    SameDiffs(a, b);
    DiffsOfRowsAt(start, interval, rows, idx);
    DiffsOfRowsAt(start, interval, rows', idx);
    StatOfSamples(idx, Diffs(a), Diffs(b));
  }

  lemma StatOfSamples(idx: nat, v: seq<int>, w: seq<int>)
    requires multiset(v) == multiset(w)
    ensures StatOf(idx, v) == StatOf(idx, w) && |v| == |w|
  {
    hide Sort, Above, Median2;
    assert |multiset(v)| == |v| && |multiset(w)| == |w|;
    OrderIrrelevant(v, w);
    LeadersDependOnSamples(v, w, 0);
  }

  /** Two ordered lists of the same intervals are equal. */
  lemma {:induction false} OrderedUnique(s: seq<Stat>, t: seq<Stat>)
    requires IndexOrdered(s) && IndexOrdered(t) && forall x :: x in s <==> x in t
    ensures s == t
    decreases |s|
  {
    if s == [] {
      HeadIn(t);
    } else {
      assert s[0] in t;
      LastIsGreatest(s);
      LastIsGreatest(t);
      var k, l := |s| - 1, |t| - 1;
      assert s[k] in t && t[l] in s;
      assert s[k] == t[l];
      hide IndexOrdered;
      forall x ensures x in s[..k] <==> x in t[..l] {
        assert x in s[..k] <==> x in s && x != s[k];
        assert x in t[..l] <==> x in t && x != t[l];
      }
      OrderedUnique(s[..k], t[..l]);
      assert s == s[..k] + [s[k]] && t == t[..l] + [t[l]];
    }
  }

  lemma LastIsGreatest(s: seq<Stat>)
    requires IndexOrdered(s) && s != []
    ensures var last := s[|s| - 1];
            && IndexOrdered(s[..|s| - 1])
            && (forall x :: x in s && x.idx >= last.idx ==> x == last)
            && (forall x :: x in s[..|s| - 1] <==> x in s && x != last)
  {
    var front, last := s[..|s| - 1], s[|s| - 1];
    assert s == front + [last];
    forall x | x in front ensures x.idx < last.idx {
      var i :| 0 <= i < |front| && front[i] == x;
      assert s[i] == x;
    }
  }

  lemma {:induction false} DiffsFrom(start: int, interval: nat, rows: seq<Row>, idx: nat) returns (i: nat)
    requires interval > 0 && DiffsAt(start, interval, rows, idx) != []
    ensures i < |rows| && IntervalOf(start, interval, rows[i]) == idx
    decreases |rows|
  {
    var k := |rows| - 1;
    if IntervalOf(start, interval, rows[k]) == idx {
      i := k;
    } else {
      i := DiffsFrom(start, interval, rows[..k], idx);
    }
  }

  lemma SameInterval(start: int, interval: nat, rows: seq<Row>, rows': seq<Row>, out: seq<Stat>, out': seq<Stat>,
                     x: Stat)
    requires interval > 0 && multiset(rows) == multiset(rows')
    requires AreIntervals(start, interval, rows, out) && AreIntervals(start, interval, rows', out') && x in out
    ensures x in out'
  {
    hide StatOf, DiffsAt, IntervalOf;
    SameStat(start, interval, rows, rows', x.idx);
    StatIdx(x.idx, DiffsAt(start, interval, rows, x.idx));
    var i := DiffsFrom(start, interval, rows', x.idx);
    assert HasIndex(out', IntervalOf(start, interval, rows'[i]));
    var y :| y in out' && y.idx == x.idx;
  }

  lemma SameBucket(rows: seq<Row>, rows': seq<Row>, b: nat)
    requires multiset(rows) == multiset(rows')
    ensures BucketStat(Chosen(rows, b)) == BucketStat(Chosen(rows', b))
  {
    hide *;
    var c, c' := Chosen(rows, b), Chosen(rows', b);
    forall x: Row ensures multiset(c)[x] == multiset(c')[x] {
      ChosenCount(rows, b, x);
      ChosenCount(rows', b, x);
    }
    assert multiset(c) == multiset(c');
    SameDiffs(c, c');
    forall key: string ensures key in KeysOf(c) <==> key in KeysOf(c') {
      KeysInBag(c, key);
      KeysInBag(c', key);
    }
    assert KeysOf(c) == KeysOf(c');
    BucketOfSamples(c, c');
  }

  lemma KeysInBag(rows: seq<Row>, key: string)
    ensures key in KeysOf(rows) <==> exists x :: x in multiset(rows) && x.block == Some(key)
  {
    hide KeysOf;
    KeysOfAll(rows, key);
    if key in KeysOf(rows) {
      var i :| 0 <= i < |rows| && rows[i].block == Some(key);
      assert rows[i] in multiset(rows);
    }
  }

  lemma BucketOfSamples(c: seq<Row>, c': seq<Row>)
    requires multiset(Diffs(c)) == multiset(Diffs(c')) && KeysOf(c) == KeysOf(c')
    ensures BucketStat(c) == BucketStat(c')
  {
    hide Sort, Above, Median2, NearestRank, KeysOf, Diffs;
    var v, w := Diffs(c), Diffs(c');
    assert |multiset(v)| == |v| && |multiset(w)| == |w|;
    OrderIrrelevant(v, w);
    LeadersDependOnSamples(v, w, 0);
  }

  /** Whatever the order of iteration, `pair_summary` yields one and the same table: headline, intervals and buckets. */
  lemma TableUnique(cfg: Config, st: State, other: nat, interval: nat,
                    t: Table, ks: seq<Hash>, rows: seq<Row>, t': Table, ks': seq<Hash>, rows': seq<Row>)
    requires interval > 0 && IsTable(cfg, st, other, interval, t, ks, rows)
             && IsTable(cfg, st, other, interval, t', ks', rows')
    ensures t == t'
  {
    hide AreRows, HeadlineOf, AreIntervals, BucketStat, Chosen, IndexOrdered;
    HeadlineUnique(cfg, st, other, ks, rows, ks', rows');
    SameRows(cfg, st, other, ks, rows, ks', rows');
    forall x ensures x in t.intervals <==> x in t'.intervals {
      if x in t.intervals { SameInterval(cfg.start, interval, rows, rows', t.intervals, t'.intervals, x); }
      if x in t'.intervals { SameInterval(cfg.start, interval, rows', rows, t'.intervals, t.intervals, x); }
    }
    Ordered(cfg.start, interval, rows, t.intervals);
    Ordered(cfg.start, interval, rows', t'.intervals);
    OrderedUnique(t.intervals, t'.intervals);
    forall b: nat | b < 4 ensures t.buckets[b] == t'.buckets[b] { SameBucket(rows, rows', b); }
    assert t.buckets == t'.buckets;
  }

  lemma Ordered(start: int, interval: nat, rows: seq<Row>, out: seq<Stat>)
    requires interval > 0 && AreIntervals(start, interval, rows, out)
    ensures IndexOrdered(out)
  {
  }
}
