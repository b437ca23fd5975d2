/** Blocks and size buckets when a Nitro source is present: a transaction's block and the size of that block can come
    from different deliveries, and then one block can be counted in several buckets. */
module BlockSplit {
  import opened Bytes
  import opened Records
  import opened Confluence
  import opened Interleaving
  import opened PairTable
  import Window

  /** The blocks of the rows whose size is known and at least one. */
  ghost function SizedKeys(rows: seq<Row>): set<string> {
    set i | 0 <= i < |rows| && rows[i].block.Some? && BucketOf(rows[i].size).Some? :: rows[i].block.value
  }

  /** Two rows of one block that fall into different buckets. */
  ghost predicate Splits(rows: seq<Row>) {
    exists i, j :: 0 <= i < |rows| && 0 <= j < |rows| && Apart(rows[i], rows[j])
  }

  predicate Apart(x: Row, y: Row) {
    && x.block.Some? && x.block == y.block
    && BucketOf(x.size).Some? && BucketOf(y.size).Some? && BucketOf(x.size) != BucketOf(y.size)
  }

  lemma TwoSets<T>(a: set<T>, b: set<T>)
    ensures |a| + |b| == |a + b| + |a * b|
    ensures |a * b| == 0 <==> a !! b
  {
    assert a + b == a + (b - a) && b == (b - a) + (a * b);
    if a !! b {
      assert a * b == {};
    } else {
      var x :| x in a && x in b;
      assert x in a * b;
    }
  }

  lemma FourSets<T>(a: set<T>, b: set<T>, c: set<T>, d: set<T>)
    ensures |a| + |b| + |c| + |d| >= |a + b + c + d|
    ensures |a| + |b| + |c| + |d| == |a + b + c + d| <==> a !! b && (a + b) !! c && (a + b + c) !! d
  {
    TwoSets(a, b);
    TwoSets(a + b, c);
    TwoSets(a + b + c, d);
  }

  lemma KeyInBucket(rows: seq<Row>, b: nat, key: string)
    ensures key in KeysOf(Chosen(rows, b)) <==> InBucket(rows, b, key)
  {
    hide KeysOf, Chosen, BucketOf;
    KeysOfChosen(rows, b, key);
  }

  /** The block counts of the buckets sum to at least the number of blocks, and to exactly that if and only if no
      block has rows in two buckets. */
  lemma BlocksCountedOnce(rows: seq<Row>, out: seq<Bucket>)
    requires AreBuckets(rows, out)
    ensures var sum := out[0].blocks + out[1].blocks + out[2].blocks + out[3].blocks;
            sum >= |SizedKeys(rows)| && (sum == |SizedKeys(rows)| <==> !Splits(rows))
  {
    hide KeysOf, Chosen, BucketStat, Splits, SizedKeys;
    var k0, k1, k2, k3 := KeysOf(Chosen(rows, 0)), KeysOf(Chosen(rows, 1)), KeysOf(Chosen(rows, 2)),
        KeysOf(Chosen(rows, 3));
    forall b | 0 <= b < 4 ensures out[b].blocks == |KeysOf(Chosen(rows, b))| { BlocksOf(Chosen(rows, b)); }
    FourSets(k0, k1, k2, k3);
    forall key ensures key in SizedKeys(rows) <==> key in k0 || key in k1 || key in k2 || key in k3 {
      SizedInBucket(rows, key);
    }
    assert SizedKeys(rows) == k0 + k1 + k2 + k3;
    SplitsShow(rows);
  }

  lemma SizedInBucket(rows: seq<Row>, key: string)
    ensures key in SizedKeys(rows) <==>
            key in KeysOf(Chosen(rows, 0)) || key in KeysOf(Chosen(rows, 1))
            || key in KeysOf(Chosen(rows, 2)) || key in KeysOf(Chosen(rows, 3))
  {
    hide KeysOf, Chosen;
    KeyInBucket(rows, 0, key);
    KeyInBucket(rows, 1, key);
    KeyInBucket(rows, 2, key);
    KeyInBucket(rows, 3, key);
    if key in SizedKeys(rows) {
      var i :| 0 <= i < |rows| && rows[i].block.Some? && BucketOf(rows[i].size).Some? && rows[i].block.value == key;
      assert InBucket(rows, BucketOf(rows[i].size).value, key);
    }
  }

  /** A block with rows in two buckets is one that two of the four sets of keys share. */
  lemma SplitsShow(rows: seq<Row>)
    ensures var k0, k1, k2, k3 := KeysOf(Chosen(rows, 0)), KeysOf(Chosen(rows, 1)), KeysOf(Chosen(rows, 2)),
              KeysOf(Chosen(rows, 3));
            Splits(rows) <==> !(k0 !! k1 && (k0 + k1) !! k2 && (k0 + k1 + k2) !! k3)
  {
    hide KeysOf, Chosen;
    var k0, k1, k2, k3 := KeysOf(Chosen(rows, 0)), KeysOf(Chosen(rows, 1)), KeysOf(Chosen(rows, 2)),
        KeysOf(Chosen(rows, 3));
    if Splits(rows) {
      var i, j :| 0 <= i < |rows| && 0 <= j < |rows| && Apart(rows[i], rows[j]);
      var key := rows[i].block.value;
      KeyInBucket(rows, BucketOf(rows[i].size).value, key);
      KeyInBucket(rows, BucketOf(rows[j].size).value, key);
    }
    forall key, b: nat, c: nat | b < c < 4 && key in KeysOf(Chosen(rows, b)) && key in KeysOf(Chosen(rows, c))
      ensures Splits(rows) {
      KeyInBucket(rows, b, key);
      KeyInBucket(rows, c, key);
      var i :| 0 <= i < |rows| && rows[i].block == Some(key) && BucketOf(rows[i].size) == Some(b);
      var j :| 0 <= j < |rows| && rows[j].block == Some(key) && BucketOf(rows[j].size) == Some(c);
      assert Apart(rows[i], rows[j]);
    }
    if !(k0 !! k1 && (k0 + k1) !! k2 && (k0 + k1 + k2) !! k3) {
      var key :| (key in k0 && key in k1) || (key in k0 + k1 && key in k2) || (key in k0 + k1 + k2 && key in k3);
    }
  }

  // ----- in terms of deliveries -----

  /** Two transactions that Nitro deliveries put into the same block, and whose last Nitro counts lie in different
      buckets. */
  ghost predicate CountsApart(cfg: Config, h: seq<Event>, tx: Hash, tx': Hash) {
    var block, n, n' := First(h, KeyIn(cfg, tx, true)), Last(h, TxCountIn(cfg, tx)), Last(h, TxCountIn(cfg, tx'));
    && block.Some? && block == First(h, KeyIn(cfg, tx', true))
    && BucketOf(n).Some? && BucketOf(n').Some? && BucketOf(n) != BucketOf(n')
  }

  lemma RowFromDeliveries(cfg: Config, h: seq<Event>, other: nat, ks: seq<Hash>, rows: seq<Row>, i: nat)
    requires ValidHistory(cfg, h) && NitroPresent(cfg) && AreRows(cfg, Run(cfg, h), other, ks, rows) && i < |ks|
    ensures var block := First(h, KeyIn(cfg, ks[i], true));
            && rows[i].size == (if block.Some? then Last(h, TxCountIn(cfg, ks[i])) else None)
            && (block.Some? ==> rows[i].block == block)
  {
    hide Run, First, Last, NitroPresent, PairKeys, Both;
    KeyFirstCountLast(cfg, h, ks[i]);
  }

  /** With a Nitro source, the block counts of the buckets sum to the number of blocks of known size if and only if no
      two transactions of the table are put into the same block with counts in different buckets. */
  lemma SplitExactly(cfg: Config, h: seq<Event>, other: nat, ks: seq<Hash>, rows: seq<Row>, out: seq<Bucket>)
    requires ValidHistory(cfg, h) && NitroPresent(cfg)
    requires AreRows(cfg, Run(cfg, h), other, ks, rows) && AreBuckets(rows, out)
    ensures out[0].blocks + out[1].blocks + out[2].blocks + out[3].blocks == |SizedKeys(rows)|
            <==> forall tx, tx' ::
                   tx in PairKeys(cfg, Run(cfg, h), other) && tx' in PairKeys(cfg, Run(cfg, h), other) ==>
                     !CountsApart(cfg, h, tx, tx')
  {
    hide Run, First, Last, NitroPresent, AreBuckets, SizedKeys, PairKeys, BucketOf, RowOf;
    BlocksCountedOnce(rows, out);
    forall i, j | 0 <= i < |ks| && 0 <= j < |ks|
      ensures Apart(rows[i], rows[j]) <==> CountsApart(cfg, h, ks[i], ks[j]) {
      RowFromDeliveries(cfg, h, other, ks, rows, i);
      RowFromDeliveries(cfg, h, other, ks, rows, j);
      NoBucket();
    }
    if Splits(rows) {
      var i, j :| 0 <= i < |rows| && 0 <= j < |rows| && Apart(rows[i], rows[j]);
      assert ks[i] in ks && ks[j] in ks;
    }
    forall tx, tx' | tx in PairKeys(cfg, Run(cfg, h), other) && tx' in PairKeys(cfg, Run(cfg, h), other)
        && CountsApart(cfg, h, tx, tx')
      ensures Splits(rows)
    {
      var i :| 0 <= i < |ks| && ks[i] == tx;
      var j :| 0 <= j < |ks| && ks[j] == tx';
      assert Apart(rows[i], rows[j]);
    }
  }

  lemma NoBucket()
    ensures BucketOf(None).None?
  {
  }

  // ----- a block in two buckets -----

  function Delivered(source: nat, tx: Hash, count: nat): Event {
    Event(source, 1, Tx(tx, Some("seq:1"), Some(count), false, 0))
  }

  /** Two Nitro sources deliver transactions a and b of block 1. The last count for a is 5, the last count for b is
      60: the block is in two buckets. */
  lemma BlockInTwoBuckets(cfg: Config, h: seq<Event>, a: Hash, b: Hash, ks: seq<Hash>, rows: seq<Row>, out: seq<Bucket>)
    requires cfg == Config([true, true], 0, 1, 0, 0) && a != b
    requires h == [Event(0, 0, Connected("")), Event(1, 0, Connected("")),
                   Delivered(0, a, 5), Delivered(1, a, 5), Delivered(0, b, 5), Delivered(1, b, 60)]
    requires ValidHistory(cfg, h) && AreRows(cfg, Run(cfg, h), 1, ks, rows) && AreBuckets(rows, out)
    ensures out[0].blocks + out[1].blocks + out[2].blocks + out[3].blocks > |SizedKeys(rows)|
  {
    hide Run, First, Last, AreRows, AreBuckets, SizedKeys, PairKeys, CountsApart;
    BothInTable(cfg, h, a, b);
    TwoCounts(cfg, h, a, b);
    assert NitroPresent(cfg) by { assert cfg.nitro[0]; }
    BlocksCountedOnce(rows, out);
    SplitExactly(cfg, h, 1, ks, rows, out);
  }

  lemma TwoCounts(cfg: Config, h: seq<Event>, a: Hash, b: Hash)
    requires cfg == Config([true, true], 0, 1, 0, 0) && a != b
    requires h == [Event(0, 0, Connected("")), Event(1, 0, Connected("")),
                   Delivered(0, a, 5), Delivered(1, a, 5), Delivered(0, b, 5), Delivered(1, b, 60)]
    ensures CountsApart(cfg, h, a, b)
  {
    Offers(h, KeyIn(cfg, a, true));
    Offers(h, KeyIn(cfg, b, true));
    Offers(h, TxCountIn(cfg, a));
    Offers(h, TxCountIn(cfg, b));
  }

  lemma Offers<T>(h: seq<Event>, f: Event -> Option<T>)
    requires |h| == 6
    ensures First(h, f) == OrElse(f(h[0]), OrElse(f(h[1]), OrElse(f(h[2]), OrElse(f(h[3]), OrElse(f(h[4]), f(h[5]))))))
    ensures Last(h, f) == OrElse(f(h[5]), OrElse(f(h[4]), OrElse(f(h[3]), OrElse(f(h[2]), OrElse(f(h[1]), f(h[0]))))))
  {
    var h1, h2, h3, h4, h5 := h[..1], h[..2], h[..3], h[..4], h[..5];
    assert h1[..0] == [] && h2[..1] == h1 && h3[..2] == h2 && h4[..3] == h3 && h5[..4] == h4;
    assert First(h1, f) == f(h[0]) == Last(h1, f);
    assert First(h2, f) == OrElse(f(h[0]), f(h[1])) && Last(h2, f) == OrElse(f(h[1]), f(h[0]));
    assert First(h4, f) == OrElse(First(h3, f), f(h[3])) && First(h3, f) == OrElse(First(h2, f), f(h[2]));
    assert Last(h4, f) == OrElse(f(h[3]), Last(h3, f)) && Last(h3, f) == OrElse(f(h[2]), Last(h2, f));
  }

  lemma BothInTable(cfg: Config, h: seq<Event>, a: Hash, b: Hash)
    requires cfg == Config([true, true], 0, 1, 0, 0) && a != b
    requires h == [Event(0, 0, Connected("")), Event(1, 0, Connected("")),
                   Delivered(0, a, 5), Delivered(1, a, 5), Delivered(0, b, 5), Delivered(1, b, 60)]
    ensures ValidHistory(cfg, h) && a in PairKeys(cfg, Run(cfg, h), 1) && b in PairKeys(cfg, Run(cfg, h), 1)
  {
    var h1, h2, h3, h4, h5 := h[..1], h[..2], h[..3], h[..4], h[..5];
    assert h1[..0] == [] && h2[..1] == h1 && h3[..2] == h2 && h4[..3] == h3 && h5[..4] == h4 && h[..5] == h5;
    BothConnected(cfg, h2);
    hide Run, Step, Window.InWindow;
    assert h3 == h2 + [h[2]] && h4 == h3 + [h[3]] && h5 == h4 + [h[4]] && h == h5 + [h[5]];
    RunSnoc(cfg, h2, h[2]);
    RunSnoc(cfg, h3, h[3]);
    RunSnoc(cfg, h4, h[4]);
    RunSnoc(cfg, h5, h[5]);
    TxDelivered(cfg, Run(cfg, h2), h[2]);
    TxDelivered(cfg, Run(cfg, h3), h[3]);
    TxDelivered(cfg, Run(cfg, h4), h[4]);
    TxDelivered(cfg, Run(cfg, h5), h[5]);
  }

  lemma BothConnected(cfg: Config, h: seq<Event>)
    requires cfg == Config([true, true], 0, 1, 0, 0)
    requires h == [Event(0, 0, Connected("")), Event(1, 0, Connected(""))]
    ensures ValidHistory(cfg, h) && Run(cfg, h).txs == map[] && Window.InWindow(Run(cfg, h).links.allUp, 0, 1)
  {
    hide Deliver, DeliverTx, Disconnect;
    var h1 := h[..1];
    assert h1[..0] == [];
    assert Run(cfg, h1) == Step(cfg, Run(cfg, []), h[0]);
    assert Run(cfg, h1).links.connected == [true, false] && !Run(cfg, h1).links.connected[1];
    assert Run(cfg, h1).links.allUp == [];
    assert Run(cfg, h).links.allUp == [Interval(0, None)];
    assert Window.Covers(Run(cfg, h).links.allUp[0], 0, 1);
  }

  /** A delivery at instant 1 leaves the window and the other transactions alone. */
  lemma TxDelivered(cfg: Config, st: State, ev: Event)
    requires Sized(cfg, st) && ev.source < Size(cfg) && ev.payload.Tx? && ev.t == 1
    requires forall tx :: tx in st.txs ==> st.txs[tx].first == 1
    ensures var st', tx := Step(cfg, st, ev), ev.payload.tx;
            && st'.links == st.links && tx in st'.txs && st'.txs[tx].arrivals[ev.source].Some?
            && (forall k :: k in st'.txs ==> st'.txs[k].first == 1)
            && (forall k :: k in st.txs && k != tx ==> k in st'.txs && st'.txs[k] == st.txs[k])
            && (tx in st.txs ==> forall i :: 0 <= i < Size(cfg) && st.txs[tx].arrivals[i].Some? ==>
                st'.txs[tx].arrivals[i].Some?)
  {
    hide Deliver, Connect, Disconnect;
  }
}
