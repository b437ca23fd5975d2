/** What the Eira adapter's updates become in the collector, in any interleaving with the other sources. */
module EiraFeed {
  import opened Bytes
  import opened Text
  import opened Records
  import opened Confluence
  import opened Interleaving
  import opened PerSource
  import opened Eira

  /** A transaction with a 32-byte hash, at the commitment level that was asked for. */
  predicate Counts(i: Input, wanted: int) {
    i.Got? && i.update.Transaction? && |i.update.hash| == 32 && i.update.commitment == wanted
  }

  /** The first value that such transactions have to offer. */
  function FirstOf<T>(inputs: seq<Input>, wanted: int, f: Input -> Option<T>): Option<T>
  {
    if inputs == [] then None
    else
      var i := inputs[|inputs| - 1];
      OrElse(FirstOf(inputs[..|inputs| - 1], wanted, f), if Counts(i, wanted) then f(i) else None)
  }

  // ----- transactions -----

  /** What transaction events offer, block events aside. */
  lemma {:induction false} TxOffers<T>(index: nat, wanted: int, inputs: seq<Input>, g: Event -> Option<T>,
                                       f: Input -> Option<T>)
    requires forall ev: Event :: !ev.payload.Tx? ==> g(ev).None?
    requires forall i: Input :: Counts(i, wanted) ==> g(TxEvent(index, i.t, i.update)) == f(i)
    ensures First(Emitted(index, wanted, inputs, true).0, g) == FirstOf(inputs, wanted, f)
    decreases |inputs|
  {
    hide Turn, BlockKey, TxEvent;
    if inputs != [] {
      var front, i := inputs[..|inputs| - 1], inputs[|inputs| - 1];
      var (evs, s) := Emitted(index, wanted, front, true);
      TxOffers(index, wanted, front, g, f);
      TurnTx(index, wanted, s, i, g);
      FirstConcat(evs, Turn(index, wanted, s, i, true).0, g);
    }
  }

  lemma TurnTx<T>(index: nat, wanted: int, s: Session, i: Input, g: Event -> Option<T>)
    requires forall ev: Event :: !ev.payload.Tx? ==> g(ev).None?
    ensures First(Turn(index, wanted, s, i, true).0, g)
         == if Counts(i, wanted) then g(TxEvent(index, i.t, i.update)) else None
  {
    hide BlockKey;
    var evs := Turn(index, wanted, s, i, true).0;
    if |evs| == 1 {
      FirstOfOne(evs[0], g);
      assert evs == [evs[0]];
    } else if |evs| == 2 {
      OfTwo(evs[0], evs[1], g);
      assert evs == [evs[0], evs[1]];
    }
  }

  // ----- blocks -----

  /** A block has been announced only if an earlier transaction was in it. */
  lemma {:induction false} SeenFrom(index: nat, wanted: int, inputs: seq<Input>, key: string) returns (j: nat)
    requires key in Emitted(index, wanted, inputs, true).1.seen
    ensures j < |inputs| && Counts(inputs[j], wanted) && BlockKey(inputs[j].update) == key
    decreases |inputs|
  {
    hide BlockKey;
    var front, i := inputs[..|inputs| - 1], inputs[|inputs| - 1];
    if Counts(i, wanted) && BlockKey(i.update) == key {
      j := |inputs| - 1;
    } else {
      TurnSeen(index, wanted, Emitted(index, wanted, front, true).1, i, key);
      j := SeenFrom(index, wanted, front, key);
    }
  }

  lemma TurnSeen(index: nat, wanted: int, s: Session, i: Input, key: string)
    requires key in Turn(index, wanted, s, i, true).1.seen && !(Counts(i, wanted) && BlockKey(i.update) == key)
    ensures key in s.seen
  {
    hide BlockKey;
  }

  lemma {:induction false} OfferedBefore<T>(inputs: seq<Input>, wanted: int, f: Input -> Option<T>, j: nat)
    requires j < |inputs| && Counts(inputs[j], wanted) && f(inputs[j]).Some?
    ensures FirstOf(inputs, wanted, f).Some?
    decreases |inputs|
  {
    if j < |inputs| - 1 { OfferedBefore(inputs[..|inputs| - 1], wanted, f, j); }
  }

  lemma TurnBlock<T>(index: nat, wanted: int, s: Session, i: Input, g: Event -> Option<T>)
    requires forall ev: Event :: !ev.payload.Block? ==> g(ev).None?
    ensures var offer := First(Turn(index, wanted, s, i, true).0, g);
            if !Counts(i, wanted) then offer.None?
            else
              && (offer.Some? ==> offer == g(BlockEvent(index, i.t, i.update)))
              && (BlockKey(i.update) !in s.seen ==> offer == g(BlockEvent(index, i.t, i.update)))
  {
    hide BlockKey;
    var evs := Turn(index, wanted, s, i, true).0;
    if |evs| == 1 {
      FirstOfOne(evs[0], g);
      assert evs == [evs[0]];
    } else if |evs| == 2 {
      OfTwo(evs[0], evs[1], g);
      assert evs == [evs[0], evs[1]];
    }
  }

  /** What block events offer, if whether there is an offer depends on the block alone: leaving out the block events of
      blocks already announced takes nothing away. */
  lemma {:induction false} BlockOffers<T>(index: nat, wanted: int, inputs: seq<Input>, g: Event -> Option<T>,
                                          f: Input -> Option<T>)
    requires forall ev: Event :: !ev.payload.Block? ==> g(ev).None?
    requires forall i: Input :: Counts(i, wanted) ==> g(BlockEvent(index, i.t, i.update)) == f(i)
    requires forall i: Input, j: Input ::
               Counts(i, wanted) && Counts(j, wanted) && BlockKey(i.update) == BlockKey(j.update) && f(i).Some? ==>
                 f(j).Some?
    ensures First(Emitted(index, wanted, inputs, true).0, g) == FirstOf(inputs, wanted, f)
    decreases |inputs|
  {
    hide Turn, BlockKey, BlockEvent;
    if inputs != [] {
      var front, i := inputs[..|inputs| - 1], inputs[|inputs| - 1];
      var (evs, s) := Emitted(index, wanted, front, true);
      BlockOffers(index, wanted, front, g, f);
      TurnBlock(index, wanted, s, i, g);
      FirstConcat(evs, Turn(index, wanted, s, i, true).0, g);
      if Counts(i, wanted) && BlockKey(i.update) in s.seen && f(i).Some? {
        var j := SeenFrom(index, wanted, front, BlockKey(i.update));
        OfferedBefore(front, wanted, f, j);
      }
    }
  }

  /** Which block a key of the adapter stands for. */
  lemma KeyStands(u: Update, n: nat)
    requires u.Transaction?
    ensures n > 0 ==> (BlockKey(u) == KeyOf("seq:", n) <==> u.feedSequence == n)
    ensures BlockKey(u) == KeyOf("num:", n) <==> u.feedSequence == 0 && u.blockNumber == n
  {
    hide KeyOf;
    var kind, k := if u.feedSequence > 0 then "seq:" else "num:",
        if u.feedSequence > 0 then u.feedSequence else u.blockNumber;
    if KeyOf(kind, k) == KeyOf("seq:", n) { KeyInjective(kind, k, "seq:", n); }
    if KeyOf(kind, k) == KeyOf("num:", n) { KeyInjective(kind, k, "num:", n); }
  }

  // ----- what reaches the collector -----

  /** The stamps of the transactions of the block with number n on the feed, and of those of the block with number n
      on the chain whose number on the feed is unknown. */
  function InFeedBlock(n: nat): Input -> Option<int> {
    (i: Input) => if i.Got? && i.update.Transaction? && i.update.feedSequence == n then Some(i.t) else None
  }

  function InChainBlock(n: nat): Input -> Option<int> {
    (i: Input) =>
      if i.Got? && i.update.Transaction? && i.update.feedSequence == 0 && i.update.blockNumber == n then Some(i.t)
      else None
  }

  function NumberedBy(n: nat): Input -> Option<nat> {
    (i: Input) => if i.Got? && i.update.Transaction? && i.update.feedSequence == n then Some(n) else None
  }

  /** Main result: a block that the feed numbers n is the block "seq:n" of the other sources, and arrives with the
      first of its transactions; a block without a number on the feed is the block "num:n". The adapter names the feed
      number of a block, and never a hash or a count. */
  lemma EiraBlocks(cfg: Config, h: seq<Event>, index: nat, wanted: int, inputs: seq<Input>, n: nat)
    requires ValidHistory(cfg, h) && index < Size(cfg) && Stream(h, index) == Emitted(index, wanted, inputs, true).0
    ensures n > 0 ==>
              ArrivalOf(cfg, Run(cfg, h), KeyOf("seq:", n), index) == FirstOf(inputs, wanted, InFeedBlock(n))
    ensures ArrivalOf(cfg, Run(cfg, h), KeyOf("num:", n), index) == FirstOf(inputs, wanted, InChainBlock(n))
    ensures n > 0 ==> First(Stream(h, index), NumberIn(KeyOf("seq:", n))) == FirstOf(inputs, wanted, NumberedBy(n))
    ensures First(Stream(h, index), NumberIn(KeyOf("num:", n))).None?
    ensures forall key :: First(Stream(h, index), HashIn(key)).None? && First(Stream(h, index), CountIn(key)).None?
  {
    hide Run, ArrivalOf, Stream, Emitted, FirstOf, First, KeyOf;
    forall u: Update | u.Transaction?
      ensures n > 0 ==> (BlockKey(u) == KeyOf("seq:", n) <==> u.feedSequence == n)
      ensures BlockKey(u) == KeyOf("num:", n) <==> u.feedSequence == 0 && u.blockNumber == n
    {
      KeyStands(u, n);
    }
    hide BlockKey;
    if n > 0 {
      FirstDeliveryWins(cfg, h, index, KeyOf("seq:", n));
      BlockOffers(index, wanted, inputs, StampOf(KeyOf("seq:", n)), InFeedBlock(n));
      BlockOffers(index, wanted, inputs, NumberIn(KeyOf("seq:", n)), NumberedBy(n));
    }
    FirstDeliveryWins(cfg, h, index, KeyOf("num:", n));
    BlockOffers(index, wanted, inputs, StampOf(KeyOf("num:", n)), InChainBlock(n));
    BlockOffers<nat>(index, wanted, inputs, NumberIn(KeyOf("num:", n)), (i: Input) => None);
    NoOffer<nat>(inputs, wanted);
    forall key ensures First(Stream(h, index), HashIn(key)).None? && First(Stream(h, index), CountIn(key)).None? {
      BlockOffers<string>(index, wanted, inputs, HashIn(key), (i: Input) => None);
      BlockOffers<nat>(index, wanted, inputs, CountIn(key), (i: Input) => None);
      NoOffer<string>(inputs, wanted);
    }
  }

  lemma {:induction false} NoOffer<T>(inputs: seq<Input>, wanted: int)
    ensures FirstOf<T>(inputs, wanted, (i: Input) => None).None?
    decreases |inputs|
  {
    if inputs != [] { NoOffer<T>(inputs[..|inputs| - 1], wanted); }
  }

  function OfTx(tx: Hash): Input -> Option<int> {
    (i: Input) => if i.Got? && i.update.Transaction? && i.update.hash == tx then Some(i.t) else None
  }

  /** The key of the block of the transaction. */
  function BlockOfTx(tx: Hash): Input -> Option<string> {
    (i: Input) =>
      if i.Got? && i.update.Transaction? && i.update.hash == tx then
        Some(if i.update.feedSequence > 0 then KeyOf("seq:", i.update.feedSequence)
             else KeyOf("num:", i.update.blockNumber))
      else None
  }

  function FlagOfTx(tx: Hash): Input -> Option<bool> {
    (i: Input) => if i.Got? && i.update.Transaction? && i.update.hash == tx && i.update.swap then Some(true) else None
  }

  function FlagIn(tx: Hash, s: nat): Event -> Option<bool> {
    (ev: Event) =>
      if ev.source == s && ev.payload.Tx? && ev.payload.tx == tx && ev.payload.swap then Some(true) else None
  }

  lemma {:induction false} FlaggedIsOffered(h: seq<Event>, tx: Hash, s: nat)
    ensures Flagged(h, tx, s) <==> First(h, FlagIn(tx, s)).Some?
  {
    if h != [] { FlaggedIsOffered(h[..|h| - 1], tx, s); }
  }

  /** A transaction arrives with its first update that counts, which also names its block, by the same key as the block
      itself; and it is flagged as a swap when one of them flags it. */
  lemma EiraTxs(cfg: Config, h: seq<Event>, index: nat, wanted: int, inputs: seq<Input>, tx: Hash)
    requires ValidHistory(cfg, h) && index < Size(cfg) && Stream(h, index) == Emitted(index, wanted, inputs, true).0
    ensures TxArrivalOf(cfg, Run(cfg, h), tx, index) == FirstOf(inputs, wanted, OfTx(tx))
    ensures First(Stream(h, index), KeyIn(cfg, tx, false)) == FirstOf(inputs, wanted, BlockOfTx(tx))
    ensures Flagged(h, tx, index) <==> FirstOf(inputs, wanted, FlagOfTx(tx)).Some?
  {
    hide Run, TxArrivalOf, Stream, Emitted, FirstOf, First, KeyOf, Flagged;
    TxFirstDeliveryWins(cfg, h, index, tx);
    TxOffers(index, wanted, inputs, TxStampOf(tx), OfTx(tx));
    TxOffers(index, wanted, inputs, KeyIn(cfg, tx, false), BlockOfTx(tx));
    FlaggedInStream(h, tx, index);
    FlaggedIsOffered(Stream(h, index), tx, index);
    TxOffers(index, wanted, inputs, FlagIn(tx, index), FlagOfTx(tx));
  }

  // ----- counters and connection -----

  function Total(inputs: seq<Input>, wanted: int, f: Input -> nat): nat {
    if inputs == [] then 0
    else
      var i := inputs[|inputs| - 1];
      Total(inputs[..|inputs| - 1], wanted, f) + if Counts(i, wanted) then f(i) else 0
  }

  lemma {:induction false} SumConcat(a: seq<Event>, b: seq<Event>, f: Event -> nat)
    ensures Sum(a + b, f) == Sum(a, f) + Sum(b, f)
    decreases |b|
  {
    if b == [] {
      assert a + b == a;
    } else {
      var k := |b| - 1;
      SumConcat(a, b[..k], f);
      assert (a + b)[..|a| + k] == a + b[..k] && (a + b)[|a| + k] == b[k];
    }
  }

  lemma {:induction false} TxSums(index: nat, wanted: int, inputs: seq<Input>, g: Event -> nat, f: Input -> nat)
    requires forall ev: Event :: !ev.payload.Tx? ==> g(ev) == 0
    requires forall i: Input :: Counts(i, wanted) ==> g(TxEvent(index, i.t, i.update)) == f(i)
    ensures Sum(Emitted(index, wanted, inputs, true).0, g) == Total(inputs, wanted, f)
    decreases |inputs|
  {
    hide Turn, BlockKey, TxEvent;
    if inputs != [] {
      var front, i := inputs[..|inputs| - 1], inputs[|inputs| - 1];
      var (evs, s) := Emitted(index, wanted, front, true);
      TxSums(index, wanted, front, g, f);
      TurnSum(index, wanted, s, i, g);
      SumConcat(evs, Turn(index, wanted, s, i, true).0, g);
    }
  }

  lemma SumOfOne(ev: Event, f: Event -> nat)
    ensures Sum([ev], f) == f(ev) && Sum([], f) == 0
  {
    assert [ev][..0] == [];
  }

  lemma TurnSum(index: nat, wanted: int, s: Session, i: Input, g: Event -> nat)
    requires forall ev: Event :: !ev.payload.Tx? ==> g(ev) == 0
    ensures Sum(Turn(index, wanted, s, i, true).0, g)
         == if Counts(i, wanted) then g(TxEvent(index, i.t, i.update)) else 0
  {
    hide BlockKey;
    var evs := Turn(index, wanted, s, i, true).0;
    if |evs| == 1 {
      assert evs == [evs[0]];
      SumOfOne(evs[0], g);
    } else if |evs| == 2 {
      SumConcat([evs[0]], [evs[1]], g);
      SumOfOne(evs[0], g);
      SumOfOne(evs[1], g);
      assert evs == [evs[0]] + [evs[1]];
    }
  }

  /** Did the server acknowledge the subscription in the session under way? */
  predicate Acked(inputs: seq<Input>) {
    inputs != [] &&
    var i := inputs[|inputs| - 1];
    !i.Broken? && (i.update.Ack? || Acked(inputs[..|inputs| - 1]))
  }

  /** Whether the source is up: it is with the first acknowledgement of a session, until the session ends, but after
      that acknowledgement what the server last said of its own source at the level asked for decides. */
  function UpAfter(inputs: seq<Input>, wanted: int): Option<bool> {
    if inputs == [] then None
    else
      var front, i := inputs[..|inputs| - 1], inputs[|inputs| - 1];
      if i.Broken? then Some(false)
      else if i.update.Ack? && !Acked(front) then Some(true)
      else if i.update.SourceStatus? && i.update.commitment == wanted && Acked(front) then Some(i.update.up)
      else UpAfter(front, wanted)
  }

  lemma {:induction false} LinkSent(index: nat, wanted: int, inputs: seq<Input>)
    ensures Emitted(index, wanted, inputs, true).1.announced == Acked(inputs)
    ensures Last(Emitted(index, wanted, inputs, true).0, LinkIn) == UpAfter(inputs, wanted)
    decreases |inputs|
  {
    hide Turn;
    if inputs != [] {
      var front, i := inputs[..|inputs| - 1], inputs[|inputs| - 1];
      var (evs, s) := Emitted(index, wanted, front, true);
      LinkSent(index, wanted, front);
      TurnLink(index, wanted, s, i);
      FirstConcat(evs, Turn(index, wanted, s, i, true).0, LinkIn);
    }
  }

  lemma TurnLink(index: nat, wanted: int, s: Session, i: Input)
    ensures var (evs, s') := Turn(index, wanted, s, i, true);
            && s'.announced == (!i.Broken? && (i.update.Ack? || s.announced))
            && Last(evs, LinkIn) ==
               if i.Broken? then Some(false)
               else if i.update.Ack? && !s.announced then Some(true)
               else if i.update.SourceStatus? && i.update.commitment == wanted && s.announced then Some(i.update.up)
               else None
  {
    hide BlockKey;
    var evs := Turn(index, wanted, s, i, true).0;
    if |evs| == 1 {
      FirstOfOne(evs[0], LinkIn);
      assert evs == [evs[0]];
    } else if |evs| == 2 {
      OfTwo(evs[0], evs[1], LinkIn);
      assert evs == [evs[0], evs[1]];
    }
  }

  /** The collector's view of the source itself: whether it is connected, and its transactions and their bytes. */
  lemma EiraSource(cfg: Config, h: seq<Event>, index: nat, wanted: int, inputs: seq<Input>)
    requires ValidHistory(cfg, h) && index < Size(cfg) && Stream(h, index) == Emitted(index, wanted, inputs, true).0
    ensures var o := OwnOf(cfg, Run(cfg, h), index);
            && o.connected == (UpAfter(inputs, wanted) == Some(true))
            && o.txEvents == Total(inputs, wanted, (i: Input) => 1)
            && o.rawTxBytes
               == Total(inputs, wanted, (i: Input) => if i.Got? && i.update.Transaction? then i.update.rawLen else 0)
            && o.wireBytes == 0
  {
    hide Run, OwnOf, Stream, Emitted, Total, UpAfter, Last, First, Reconnects, Sum, KeyOf;
    StreamTells(cfg, h, index);
    LinkSent(index, wanted, inputs);
    TxSums(index, wanted, inputs, OneTx, (i: Input) => 1);
    TxSums(index, wanted, inputs, RawLen, (i: Input) => if i.Got? && i.update.Transaction? then i.update.rawLen else 0);
    WireBytesCounted(cfg, h, index);
    NoBytes(index, wanted, inputs, true);
  }
}
