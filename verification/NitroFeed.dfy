/** What the blocks of a Nitro feed become in the collector, in any interleaving with the other sources; and the blocks
    that it shares with Eira. */
module NitroFeed {
  import opened Bytes
  import opened Text
  import opened Records
  import opened Confluence
  import opened Interleaving
  import opened PerSource
  import opened Nitro
  import Eira
  import EiraFeed

  /** The first and the last value that the items of a log have to offer. */
  function FirstItem<T>(log: seq<Item>, f: Item -> Option<T>): Option<T> {
    if log == [] then None else OrElse(FirstItem(log[..|log| - 1], f), f(log[|log| - 1]))
  }

  function LastItem<T>(log: seq<Item>, f: Item -> Option<T>): Option<T> {
    if log == [] then None else OrElse(f(log[|log| - 1]), LastItem(log[..|log| - 1], f))
  }

  lemma {:induction false} Offers<T>(index: nat, log: seq<Item>, g: Event -> Option<T>, f: Item -> Option<T>)
    requires forall item: Item :: First(Emit(index, item), g) == f(item) == Last(Emit(index, item), g)
    ensures First(SentBy(index, log), g) == FirstItem(log, f) && Last(SentBy(index, log), g) == LastItem(log, f)
    decreases |log|
  {
    hide Emit;
    if log != [] {
      var front, item := log[..|log| - 1], log[|log| - 1];
      Offers(index, front, g, f);
      FirstConcat(SentBy(index, front), Emit(index, item), g);
    }
  }

  // ----- blocks -----

  lemma {:induction false} TxsOfferNothing<T>(evs: seq<Event>, g: Event -> Option<T>)
    requires forall i :: 0 <= i < |evs| ==> g(evs[i]).None?
    ensures First(evs, g).None? && Last(evs, g).None?
  {
    if evs != [] { TxsOfferNothing(evs[..|evs| - 1], g); }
  }

  lemma BlockEmitted<T>(index: nat, item: Item, g: Event -> Option<T>)
    requires forall ev: Event :: !ev.payload.Block? ==> g(ev).None?
    ensures First(Emit(index, item), g) == Last(Emit(index, item), g)
         == if item.Delivered? then g(BlockEvent(index, item.t, item.block, item.wireLen)) else None
  {
    hide KeyOf, TxEvents;
    if item.Delivered? {
      var block := BlockEvent(index, item.t, item.block, item.wireLen);
      var txs := TxEvents(index, item.t, item.block, |item.block.txs|);
      FirstConcat([block], txs, g);
      TxsOfferNothing(txs, g);
      FirstOfOne(block, g);
    } else {
      TxsOfferNothing(Emit(index, item), g);
    }
  }

  /** What the deliveries of block n say about it. */
  function NumberOf(n: nat): Item -> Option<nat> {
    (item: Item) => if item.Delivered? && item.block.number == n then Some(n) else None
  }

  function HashOf(n: nat): Item -> Option<string> {
    (item: Item) => if item.Delivered? && item.block.number == n then item.block.hash else None
  }

  function CountOf(n: nat): Item -> Option<nat> {
    (item: Item) => if item.Delivered? && item.block.number == n then Some(|item.block.txs|) else None
  }

  /** What the collector is told of block n, under the key "seq:n": its number, the first hash that a delivery names,
      and the number of transactions in the first delivery. */
  lemma NitroBlocks(h: seq<Event>, index: nat, log: seq<Item>, n: nat)
    requires Stream(h, index) == SentBy(index, log)
    ensures var key, own := KeyOf("seq:", n), Stream(h, index);
            && First(own, NumberIn(key)) == FirstItem(log, NumberOf(n))
            && First(own, HashIn(key)) == FirstItem(log, HashOf(n))
            && First(own, CountIn(key)) == FirstItem(log, CountOf(n))
  {
    hide Stream, SentBy, First, Last, Emit, KeyOf, FirstItem, LastItem;
    var key := KeyOf("seq:", n);
    forall item: Item
      ensures First(Emit(index, item), NumberIn(key)) == NumberOf(n)(item) == Last(Emit(index, item), NumberIn(key))
      ensures First(Emit(index, item), HashIn(key)) == HashOf(n)(item) == Last(Emit(index, item), HashIn(key))
      ensures First(Emit(index, item), CountIn(key)) == CountOf(n)(item) == Last(Emit(index, item), CountIn(key))
    {
      if item.Delivered? && KeyOf("seq:", item.block.number) == key {
        KeyInjective("seq:", item.block.number, "seq:", n);
      }
      BlockEmitted(index, item, NumberIn(key));
      BlockEmitted(index, item, HashIn(key));
      BlockEmitted(index, item, CountIn(key));
    }
    Offers(index, log, NumberIn(key), NumberOf(n));
    Offers(index, log, HashIn(key), HashOf(n));
    Offers(index, log, CountIn(key), CountOf(n));
  }

  // ----- transactions -----

  ghost predicate Carries(b: ParsedBlock, tx: Hash, k: nat)
    requires k <= |b.txs|
  {
    exists i :: 0 <= i < k && b.txs[i].hash == tx
  }

  lemma {:induction false} TxsOffer<T>(index: nat, t: int, b: ParsedBlock, k: nat, tx: Hash,
                                      g: Event -> Option<T>, v: T)
    requires k <= |b.txs|
    requires forall ev: Event :: !(ev.payload.Tx? && ev.payload.tx == tx) ==> g(ev).None?
    requires forall i :: 0 <= i < |b.txs| && b.txs[i].hash == tx ==> g(TxEvents(index, t, b, |b.txs|)[i]) == Some(v)
    ensures var evs := TxEvents(index, t, b, k);
            First(evs, g) == Last(evs, g) == if Carries(b, tx, k) then Some(v) else None
    decreases k
  {
    hide KeyOf;
    if k > 0 {
      var evs, all := TxEvents(index, t, b, k), TxEvents(index, t, b, |b.txs|);
      TxsOffer(index, t, b, k - 1, tx, g, v);
      assert evs[..k - 1] == TxEvents(index, t, b, k - 1);
      assert evs[k - 1] == all[k - 1];
    }
  }

  lemma TxEmitted<T>(index: nat, item: Item, tx: Hash, g: Event -> Option<T>, v: T)
    requires forall ev: Event :: !(ev.payload.Tx? && ev.payload.tx == tx) ==> g(ev).None?
    requires item.Delivered? ==>
               var b := item.block;
               forall i :: 0 <= i < |b.txs| && b.txs[i].hash == tx ==>
                 g(TxEvents(index, item.t, b, |b.txs|)[i]) == Some(v)
    ensures First(Emit(index, item), g) == Last(Emit(index, item), g)
         == if item.Delivered? && Carries(item.block, tx, |item.block.txs|) then Some(v) else None
  {
    hide KeyOf, TxEvents, Carries;
    if item.Delivered? {
      var b, block := item.block, BlockEvent(index, item.t, item.block, item.wireLen);
      FirstConcat([block], TxEvents(index, item.t, b, |b.txs|), g);
      TxsOffer(index, item.t, b, |b.txs|, tx, g, v);
      FirstOfOne(block, g);
    } else {
      TxsOfferNothing(Emit(index, item), g);
    }
  }

  /** What the delivered blocks that carry the transaction say about it. */
  ghost function TxStampIn(tx: Hash): Item -> Option<int> {
    (item: Item) => if item.Delivered? && Carries(item.block, tx, |item.block.txs|) then Some(item.t) else None
  }

  ghost function TxKeyIn(tx: Hash): Item -> Option<string> {
    (item: Item) =>
      if item.Delivered? && Carries(item.block, tx, |item.block.txs|) then Some(KeyOf("seq:", item.block.number))
      else None
  }

  ghost function TxsWith(tx: Hash): Item -> Option<nat> {
    (item: Item) =>
      if item.Delivered? && Carries(item.block, tx, |item.block.txs|) then Some(|item.block.txs|) else None
  }

  /** What the collector is told of a transaction: it arrives with the first delivered block that carries it, whose
      key it gets, while its count is that of the last one. The feed flags no swaps. */
  lemma NitroTxs(cfg: Config, h: seq<Event>, index: nat, log: seq<Item>, tx: Hash)
    requires ValidHistory(cfg, h) && IsNitro(cfg, index) && Stream(h, index) == SentBy(index, log)
    ensures var own := Stream(h, index);
            && TxArrivalOf(cfg, Run(cfg, h), tx, index) == FirstItem(log, TxStampIn(tx))
            && First(own, KeyIn(cfg, tx, true)) == FirstItem(log, TxKeyIn(tx))
            && Last(own, TxCountIn(cfg, tx)) == LastItem(log, TxsWith(tx))
            && !Flagged(h, tx, index)
  {
    hide Run, TxArrivalOf, Stream, SentBy, First, Last, Emit, KeyOf, FirstItem, LastItem, Carries, Flagged;
    TxFirstDeliveryWins(cfg, h, index, tx);
    forall item: Item
      ensures First(Emit(index, item), TxStampOf(tx)) == TxStampIn(tx)(item) == Last(Emit(index, item), TxStampOf(tx))
      ensures First(Emit(index, item), KeyIn(cfg, tx, true)) == TxKeyIn(tx)(item)
           == Last(Emit(index, item), KeyIn(cfg, tx, true))
      ensures First(Emit(index, item), TxCountIn(cfg, tx)) == TxsWith(tx)(item)
           == Last(Emit(index, item), TxCountIn(cfg, tx))
      ensures First(Emit(index, item), EiraFeed.FlagIn(tx, index)).None?
      ensures Last(Emit(index, item), EiraFeed.FlagIn(tx, index)).None?
    {
      OneItem(cfg, index, item, tx);
    }
    Offers(index, log, TxStampOf(tx), TxStampIn(tx));
    Offers(index, log, KeyIn(cfg, tx, true), TxKeyIn(tx));
    Offers(index, log, TxCountIn(cfg, tx), TxsWith(tx));
    FlaggedInStream(h, tx, index);
    EiraFeed.FlaggedIsOffered(Stream(h, index), tx, index);
    Offers<bool>(index, log, EiraFeed.FlagIn(tx, index), (item: Item) => None);
    NothingOffered<bool>(log);
  }

  lemma {:induction false} NothingOffered<T>(log: seq<Item>)
    ensures FirstItem<T>(log, (item: Item) => None).None?
  {
    if log != [] { NothingOffered<T>(log[..|log| - 1]); }
  }

  lemma OneItem(cfg: Config, index: nat, item: Item, tx: Hash)
    requires IsNitro(cfg, index)
    ensures First(Emit(index, item), TxStampOf(tx)) == TxStampIn(tx)(item) == Last(Emit(index, item), TxStampOf(tx))
    ensures First(Emit(index, item), KeyIn(cfg, tx, true)) == TxKeyIn(tx)(item)
         == Last(Emit(index, item), KeyIn(cfg, tx, true))
    ensures First(Emit(index, item), TxCountIn(cfg, tx)) == TxsWith(tx)(item)
         == Last(Emit(index, item), TxCountIn(cfg, tx))
    ensures First(Emit(index, item), EiraFeed.FlagIn(tx, index)).None?
    ensures Last(Emit(index, item), EiraFeed.FlagIn(tx, index)).None?
  {
    hide First, Last, KeyOf, Carries, Emit;
    if item.Delivered? {
      TxEmitted(index, item, tx, TxStampOf(tx), item.t);
      TxEmitted(index, item, tx, KeyIn(cfg, tx, true), KeyOf("seq:", item.block.number));
      TxEmitted<nat>(index, item, tx, TxCountIn(cfg, tx), |item.block.txs|);
    } else {
      TxEmitted(index, item, tx, TxStampOf(tx), 0);
      TxEmitted(index, item, tx, KeyIn(cfg, tx, true), "");
      TxEmitted<nat>(index, item, tx, TxCountIn(cfg, tx), 0);
    }
    NoFlags(index, item, tx);
  }

  lemma NoFlags(index: nat, item: Item, tx: Hash)
    ensures First(Emit(index, item), EiraFeed.FlagIn(tx, index)).None?
    ensures Last(Emit(index, item), EiraFeed.FlagIn(tx, index)).None?
  {
    hide KeyOf, First, Last;
    var evs := Emit(index, item);
    assert forall i :: 0 <= i < |evs| ==> !(evs[i].payload.Tx? && evs[i].payload.swap);
    TxsOfferNothing(evs, EiraFeed.FlagIn(tx, index));
  }

  // ----- counters and connection -----

  function LinkOf(): Item -> Option<bool> {
    (item: Item) => if item.Opened? then Some(true) else if item.Closed? then Some(false) else None
  }

  function Sizes(txs: seq<ParsedTx>): nat {
    if txs == [] then 0 else Sizes(txs[..|txs| - 1]) + txs[|txs| - 1].rawLen
  }

  function TotalOf(log: seq<Item>, f: ParsedBlock -> nat): nat {
    if log == [] then 0
    else TotalOf(log[..|log| - 1], f) + if log[|log| - 1].Delivered? then f(log[|log| - 1].block) else 0
  }

  lemma {:induction false} TxsSum(index: nat, t: int, b: ParsedBlock, k: nat)
    requires k <= |b.txs|
    ensures var evs := TxEvents(index, t, b, k);
            Sum(evs, OneTx) == k && Sum(evs, OneBlock) == 0 && Sum(evs, RawLen) == Sizes(b.txs[..k])
    decreases k
  {
    hide KeyOf;
    if k > 0 {
      var evs := TxEvents(index, t, b, k);
      TxsSum(index, t, b, k - 1);
      assert evs[..k - 1] == TxEvents(index, t, b, k - 1);
      assert b.txs[..k][..k - 1] == b.txs[..k - 1];
    }
  }

  lemma ItemSums(index: nat, item: Item)
    ensures var evs := Emit(index, item);
            && Sum(evs, OneBlock) == (if item.Delivered? then 1 else 0)
            && Sum(evs, OneTx) == (if item.Delivered? then |item.block.txs| else 0)
            && Sum(evs, RawLen) == (if item.Delivered? then Sizes(item.block.txs) else 0)
  {
    hide KeyOf, TxEvents, Sizes;
    if item.Delivered? {
      var b, block := item.block, BlockEvent(index, item.t, item.block, item.wireLen);
      var txs := TxEvents(index, item.t, b, |b.txs|);
      TxsSum(index, item.t, b, |b.txs|);
      assert b.txs[..|b.txs|] == b.txs;
      EiraFeed.SumConcat([block], txs, OneBlock);
      EiraFeed.SumConcat([block], txs, OneTx);
      EiraFeed.SumConcat([block], txs, RawLen);
      EiraFeed.SumOfOne(block, OneBlock);
      EiraFeed.SumOfOne(block, OneTx);
      EiraFeed.SumOfOne(block, RawLen);
    } else if !item.Spoiled? {
      var ev := Emit(index, item)[0];
      EiraFeed.SumOfOne(ev, OneBlock);
      EiraFeed.SumOfOne(ev, OneTx);
      EiraFeed.SumOfOne(ev, RawLen);
      assert Emit(index, item) == [ev];
    }
  }

  lemma {:induction false} LogSums(index: nat, log: seq<Item>)
    ensures Sum(SentBy(index, log), OneBlock) == TotalOf(log, (b: ParsedBlock) => 1)
    ensures Sum(SentBy(index, log), OneTx) == TotalOf(log, (b: ParsedBlock) => |b.txs|)
    ensures Sum(SentBy(index, log), RawLen) == TotalOf(log, (b: ParsedBlock) => Sizes(b.txs))
    decreases |log|
  {
    hide Emit, Sum, Sizes;
    if log == [] {
      EiraFeed.SumOfOne(Event(0, 0, Connected("")), OneBlock);
      EiraFeed.SumOfOne(Event(0, 0, Connected("")), OneTx);
      EiraFeed.SumOfOne(Event(0, 0, Connected("")), RawLen);
    } else {
      var front, item := log[..|log| - 1], log[|log| - 1];
      LogSums(index, front);
      ItemSums(index, item);
      EiraFeed.SumConcat(SentBy(index, front), Emit(index, item), OneBlock);
      EiraFeed.SumConcat(SentBy(index, front), Emit(index, item), OneTx);
      EiraFeed.SumConcat(SentBy(index, front), Emit(index, item), RawLen);
    }
  }

  lemma LinkEmitted(index: nat, item: Item)
    ensures First(Emit(index, item), LinkIn) == LinkOf()(item) == Last(Emit(index, item), LinkIn)
  {
    hide KeyOf;
    if item.Opened? || item.Closed? {
      FirstOfOne(Emit(index, item)[0], LinkIn);
      assert Emit(index, item) == [Emit(index, item)[0]];
    } else {
      TxsOfferNothing(Emit(index, item), LinkIn);
    }
  }

  /** The collector's view of the source itself: connected while a session is open, and its blocks, its transactions and
      their bytes counted over all sessions, replays included. */
  lemma NitroSource(cfg: Config, h: seq<Event>, index: nat, log: seq<Item>)
    requires ValidHistory(cfg, h) && index < Size(cfg) && Stream(h, index) == SentBy(index, log)
    ensures var o := OwnOf(cfg, Run(cfg, h), index);
            && o.connected == (LastItem(log, LinkOf()) == Some(true))
            && o.blockEvents == TotalOf(log, (b: ParsedBlock) => 1)
            && o.txEvents == TotalOf(log, (b: ParsedBlock) => |b.txs|)
            && o.rawTxBytes == TotalOf(log, (b: ParsedBlock) => Sizes(b.txs))
            && o.wireBytes == WireOf(log)
  {
    hide Run, OwnOf, Stream, SentBy, Emit, TotalOf, LastItem, FirstItem, Last, First, Reconnects, Sum, KeyOf, Sizes;
    StreamTells(cfg, h, index);
    LogSums(index, log);
    forall item: Item
      ensures First(Emit(index, item), LinkIn) == LinkOf()(item) == Last(Emit(index, item), LinkIn)
    {
      LinkEmitted(index, item);
    }
    Offers(index, log, LinkIn, LinkOf());
    WireBytesCounted(cfg, h, index);
    WireSent(index, log);
  }

  // ----- one block from two kinds of source -----

  /** A block with a number on the feed that both a Nitro source and an Eira source deliver is one record, with the
      stamp of the first delivery by each. */
  lemma OneRecord(cfg: Config, h: seq<Event>, i: nat, log: seq<Item>, e: nat, wanted: int, inputs: seq<Eira.Input>,
                  n: nat)
    requires ValidConfig(cfg) && ValidHistory(cfg, h) && i < Size(cfg) && e < Size(cfg) && n > 0
    requires Stream(h, i) == SentBy(i, log) && Stream(h, e) == Eira.Emitted(e, wanted, inputs, true).0
    requires Has(log, n) || EiraFeed.FirstOf(inputs, wanted, EiraFeed.InFeedBlock(n)).Some?
    ensures var st, key := Run(cfg, h), KeyOf("seq:", n);
            && key in st.blocks && |st.blocks[key].arrivals| == Size(cfg)
            && st.blocks[key].arrivals[i] == FirstStamp(log, n)
            && st.blocks[key].arrivals[e] == EiraFeed.FirstOf(inputs, wanted, EiraFeed.InFeedBlock(n))
  {
    hide Run, Stream, SentBy, Eira.Emitted, EiraFeed.FirstOf, FirstStamp, Has, KeyOf, Inv;
    var st, key := Run(cfg, h), KeyOf("seq:", n);
    ResumedRun(cfg, h, i, log, n);
    EiraFeed.EiraBlocks(cfg, h, e, wanted, inputs, n);
    RunKeeps(cfg, h);
    RecordedWhenDelivered(cfg, st, key, []);
  }
}
