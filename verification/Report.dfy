/** The interleaving and the report: which tables two interleavings of the same streams share. */
module Report {
  import opened Bytes
  import opened Records
  import opened Confluence
  import opened Interleaving
  import opened Completion
  import opened Tally
  import opened Window
  import TxTable
  import BlockTable
  import PairTable
  import PairOrder

  /** Two interleavings of the same streams, neither of which puts connection stamps out of order. */
  ghost predicate Alike(cfg: Config, h: seq<Event>, h': seq<Event>) {
    && ValidConfig(cfg) && ValidHistory(cfg, h) && ValidHistory(cfg, h') && SameStreams(cfg, h, h')
    && InOrder(cfg, h) && InOrder(cfg, h')
  }

  lemma AlikeWindow(cfg: Config, h: seq<Event>, h': seq<Event>, t: int)
    requires Alike(cfg, h, h')
    ensures InWindow(Run(cfg, h).links.allUp, cfg.warmup, t) <==> InWindow(Run(cfg, h').links.allUp, cfg.warmup, t)
  {
    hide InWindow, Run, InOrder, SameStreams, EffectiveBefore;
    var a := AfterAll(cfg, h);
    var b := AfterAll(cfg, h');
    var end := if a < b then b else a;
    BeforeLater(cfg, h, a, end);
    BeforeLater(cfg, h', b, end);
    SameWindow(cfg, h, h', end - 1);
    assert InWindow(LinksAfter(cfg, h).allUp, cfg.warmup, t) <==> InWindow(LinksAfter(cfg, h').allUp, cfg.warmup, t);
  }

  // ----- transactions -----

  lemma TxHitSame(r: TxRec, r': TxRec, q: TxTable.Query)
    requires SameTx(r, r')
    ensures TxTable.Hit(r, q) <==> TxTable.Hit(r', q)
  {
  }

  lemma TxKeysSame(cfg: Config, h: seq<Event>, h': seq<Event>)
    requires Alike(cfg, h, h')
    ensures TxTable.WindowKeys(cfg, Run(cfg, h)) == TxTable.WindowKeys(cfg, Run(cfg, h'))
    ensures TxTable.MatchedKeys(cfg, Run(cfg, h)) == TxTable.MatchedKeys(cfg, Run(cfg, h'))
  {
    hide InWindow, Run, InOrder, SameStreams, SameBlock, OwnOf;
    Confluent(cfg, h, h');
    forall t: int
      ensures InWindow(Run(cfg, h).links.allUp, cfg.warmup, t) <==> InWindow(Run(cfg, h').links.allUp, cfg.warmup, t)
    {
      AlikeWindow(cfg, h, h', t);
    }
  }

  /** The transaction summary is the same for two such interleavings. */
  lemma SameTxSummary(cfg: Config, h: seq<Event>, h': seq<Event>,
                      s: TxTable.Summary, lags: seq<seq<int>>, s': TxTable.Summary, lags': seq<seq<int>>)
    requires Alike(cfg, h, h')
    requires TxTable.IsSummary(cfg, Run(cfg, h), s, lags) && TxTable.IsSummary(cfg, Run(cfg, h'), s', lags')
    ensures s == s'
  {
    hide Run, SameStreams, InOrder, SameBlock, SameTx;
    hide OwnOf, Hits, TxTable.Hit, TxTable.WindowKeys, TxTable.MatchedKeys;
    var st, st' := Run(cfg, h), Run(cfg, h');
    Confluent(cfg, h, h');
    TxKeysSame(cfg, h, h');
    forall ks: set<Hash>, q: TxTable.Query | ks <= st.txs.Keys
      ensures Hits(st.txs, ks, TxTable.Hit, q) == Hits(st'.txs, ks, TxTable.Hit, q)
    {
      forall k | k in ks ensures TxTable.Hit(st.txs[k], q) <==> TxTable.Hit(st'.txs[k], q) {
        TxHitSame(st.txs[k], st'.txs[k], q);
      }
      HitsSame(st.txs, st'.txs, ks, TxTable.Hit, q);
    }
    TxKeysWithin(cfg, st);
    assert TxTable.IsSummary(cfg, st', s, lags);
    TxTable.SummaryUnique(cfg, st', s, lags, s', lags');
  }

  lemma TxKeysWithin(cfg: Config, st: State)
    ensures TxTable.MatchedKeys(cfg, st) <= TxTable.WindowKeys(cfg, st) <= st.txs.Keys
  {
  }

  // ----- blocks -----

  /** Every block has one winner and one completion instant, whatever the interleaving. */
  ghost predicate BlocksDecided(cfg: Config, h: seq<Event>)
    requires ValidHistory(cfg, h)
  {
    forall key :: key in Run(cfg, h).blocks ==>
      SoleEarliest(Run(cfg, h).blocks[key].arrivals) && Settled(cfg, Run(cfg, h).blocks[key].arrivals)
  }

  /** The fields of a block on which the summary depends. */
  ghost predicate Agree(r: BlockRec, r': BlockRec) {
    r.arrivals == r'.arrivals && r.first == r'.first && r.firstSrc == r'.firstSrc && r.completedAt == r'.completedAt
  }

  lemma BlocksAgree(cfg: Config, h: seq<Event>, h': seq<Event>, key: string)
    requires Alike(cfg, h, h') && BlocksDecided(cfg, h) && key in Run(cfg, h).blocks
    ensures key in Run(cfg, h').blocks && Agree(Run(cfg, h).blocks[key], Run(cfg, h').blocks[key])
  {
    hide Run, SameStreams, InOrder, OwnOf, SameTx, Settled, SoleEarliest;
    Confluent(cfg, h, h');
    SettledAgrees(cfg, h, h', key);
  }

  lemma BlockHitSame(r: BlockRec, r': BlockRec, q: BlockTable.Query)
    requires Agree(r, r')
    ensures BlockTable.Hit(r, q) <==> BlockTable.Hit(r', q)
  {
  }

  /** The block summary of any period is the same for two such interleavings, when every block is decided. */
  lemma SameBlockSummary(cfg: Config, h: seq<Event>, h': seq<Event>, since: Option<int>, until: int,
                         r: BlockTable.Summary, samples: seq<seq<int>>, r': BlockTable.Summary, samples': seq<seq<int>>)
    requires Alike(cfg, h, h') && BlocksDecided(cfg, h)
    requires BlockTable.IsSummary(cfg, Run(cfg, h), since, until, r, samples)
    requires BlockTable.IsSummary(cfg, Run(cfg, h'), since, until, r', samples')
    ensures r == r'
  {
    hide Run, SameStreams, InOrder, SameBlock, SameTx, OwnOf, Hits, Agree, BlocksDecided;
    hide BlockTable.Hit, BlockTable.CountedKeys;
    var st, st' := Run(cfg, h), Run(cfg, h');
    Confluent(cfg, h, h');
    forall key | key in st.blocks ensures Agree(st.blocks[key], st'.blocks[key]) { BlocksAgree(cfg, h, h', key); }
    CountedSame(cfg, h, h', since, until);
    var ks := BlockTable.CountedKeys(cfg, st, since, until);
    forall q: BlockTable.Query
      ensures Hits(st.blocks, ks, BlockTable.Hit, q) == Hits(st'.blocks, ks, BlockTable.Hit, q) {
      forall k | k in ks ensures BlockTable.Hit(st.blocks[k], q) <==> BlockTable.Hit(st'.blocks[k], q) {
        BlockHitSame(st.blocks[k], st'.blocks[k], q);
      }
      HitsSame(st.blocks, st'.blocks, ks, BlockTable.Hit, q);
    }
    assert BlockTable.IsSummary(cfg, st', since, until, r, samples);
    BlockTable.SummaryUnique(cfg, st', since, until, r, samples, r', samples');
  }

  lemma CountedSame(cfg: Config, h: seq<Event>, h': seq<Event>, since: Option<int>, until: int)
    requires Alike(cfg, h, h')
    requires Run(cfg, h).blocks.Keys == Run(cfg, h').blocks.Keys
    requires forall key :: key in Run(cfg, h).blocks ==> Agree(Run(cfg, h).blocks[key], Run(cfg, h').blocks[key])
    ensures var ks := BlockTable.CountedKeys(cfg, Run(cfg, h), since, until);
            ks == BlockTable.CountedKeys(cfg, Run(cfg, h'), since, until) && ks <= Run(cfg, h).blocks.Keys
  {
    hide Run, InWindow, InOrder, SameStreams;
    forall t: int
      ensures InWindow(Run(cfg, h).links.allUp, cfg.warmup, t) <==> InWindow(Run(cfg, h').links.allUp, cfg.warmup, t)
    {
      AlikeWindow(cfg, h, h', t);
    }
  }

  // ----- pairs -----

  /** Every transaction has one block key and one count, whatever the interleaving. */
  ghost predicate TxsDecided(cfg: Config, h: seq<Event>)
    requires ValidHistory(cfg, h)
  {
    forall tx :: tx in Run(cfg, h).txs ==>
      FirstsAgree(cfg, h, KeyIn(cfg, tx, NitroNames(cfg, h, tx))) && LastsAgree(cfg, h, TxCountIn(cfg, tx))
  }

  /** Then the transactions are the same in every field. */
  lemma SameTxs(cfg: Config, h: seq<Event>, h': seq<Event>)
    requires Alike(cfg, h, h') && TxsDecided(cfg, h)
    ensures Run(cfg, h).txs == Run(cfg, h').txs
  {
    hide Run, SameStreams, InOrder, SameBlock, OwnOf, First, Last, FirstsAgree, LastsAgree, NitroNames;
    Confluent(cfg, h, h');
    var txs, txs' := Run(cfg, h).txs, Run(cfg, h').txs;
    forall tx | tx in txs ensures txs[tx] == txs'[tx] {
      KeyFirstCountLast(cfg, h, tx);
      KeyFirstCountLast(cfg, h', tx);
      FirstsSame(cfg, h, h', KeyIn(cfg, tx, true));
      TxFieldsDetermined(cfg, h, tx);
    }
  }

  /** The pair table is the same for two such interleavings, when every transaction is decided. */
  lemma SamePairTable(cfg: Config, h: seq<Event>, h': seq<Event>, other: nat, interval: nat,
                      t: PairOrder.Table, ks: seq<Hash>, rows: seq<PairTable.Row>,
                      t': PairOrder.Table, ks': seq<Hash>, rows': seq<PairTable.Row>)
    requires Alike(cfg, h, h') && TxsDecided(cfg, h) && interval > 0
    requires PairOrder.IsTable(cfg, Run(cfg, h), other, interval, t, ks, rows)
    requires PairOrder.IsTable(cfg, Run(cfg, h'), other, interval, t', ks', rows')
    ensures t == t'
  {
    hide Run, InOrder, SameStreams, TxsDecided, PairTable.AreRows, PairTable.AreIntervals, PairTable.AreBuckets;
    hide PairTable.HeadlineOf, PairTable.Diffs;
    SameTxs(cfg, h, h');
    PairKeysSame(cfg, h, h', other);
    RowsOfSame(cfg, Run(cfg, h), Run(cfg, h'), other, ks, rows);
    PairOrder.TableUnique(cfg, Run(cfg, h'), other, interval, t, ks, rows, t', ks', rows');
  }

  lemma RowsOfSame(cfg: Config, st: State, st': State, other: nat, ks: seq<Hash>, rows: seq<PairTable.Row>)
    requires PairTable.AreRows(cfg, st, other, ks, rows) && st.txs == st'.txs
    requires PairTable.PairKeys(cfg, st, other) == PairTable.PairKeys(cfg, st', other)
    ensures PairTable.AreRows(cfg, st', other, ks, rows)
  {
    hide Hits, PairTable.PairKeys, PairTable.NitroPresent, PairTable.Both;
  }

  lemma PairKeysSame(cfg: Config, h: seq<Event>, h': seq<Event>, other: nat)
    requires Alike(cfg, h, h') && Run(cfg, h).txs == Run(cfg, h').txs
    ensures PairTable.PairKeys(cfg, Run(cfg, h), other) == PairTable.PairKeys(cfg, Run(cfg, h'), other)
  {
    hide Run, InWindow, InOrder, SameStreams, PairTable.Both;
    forall t: int
      ensures InWindow(Run(cfg, h).links.allUp, cfg.warmup, t) <==> InWindow(Run(cfg, h').links.allUp, cfg.warmup, t)
    {
      AlikeWindow(cfg, h, h', t);
    }
  }
}
