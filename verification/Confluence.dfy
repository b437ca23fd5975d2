/** The channel interleaves the sources in any way. What the collector keeps about a source depends on that source's
    stream alone, and what it keeps about a block or a transaction depends on the streams and not on their
    interleaving. */
module Confluence {
  import opened Bytes
  import opened Records

  /** The stream of source s within a history. */
  function Stream(h: seq<Event>, s: nat): seq<Event> {
    if h == [] then []
    else Stream(h[..|h| - 1], s) + if h[|h| - 1].source == s then [h[|h| - 1]] else []
  }

  lemma {:induction false} StreamValid(cfg: Config, h: seq<Event>, s: nat)
    requires ValidHistory(cfg, h)
    ensures ValidHistory(cfg, Stream(h, s))
  {
    if h != [] { StreamValid(cfg, h[..|h| - 1], s); }
  }

  lemma StreamSnoc(h: seq<Event>, ev: Event, i: nat)
    ensures Stream(h + [ev], i) == Stream(h, i) + if ev.source == i then [ev] else []
  {
    assert (h + [ev])[..|h|] == h;
  }

  lemma {:induction false} StreamConcat(a: seq<Event>, b: seq<Event>, s: nat)
    ensures Stream(a + b, s) == Stream(a, s) + Stream(b, s)
  {
    if b == [] {
      assert a + b == a;
    } else {
      StreamConcat(a, b[..|b| - 1], s);
      assert (a + b)[..|a + b| - 1] == a + b[..|b| - 1];
    }
  }

  /** The same streams, interleaved in two ways. */
  ghost predicate SameStreams(cfg: Config, h: seq<Event>, h': seq<Event>) {
    forall s :: 0 <= s < Size(cfg) ==> Stream(h, s) == Stream(h', s)
  }

  // ----- what belongs to one source -----

  /** Everything the collector keeps per source, except arrivals. */
  datatype Own = Own(connected: bool, ever: bool, reconnects: nat, detail: string,
                     txEvents: nat, blockEvents: nat, wireBytes: nat, rawTxBytes: nat)

  ghost function OwnOf(cfg: Config, st: State, s: nat): Own
    requires Sized(cfg, st) && s < Size(cfg)
  {
    Own(st.links.connected[s], st.links.ever[s], st.links.reconnects[s], st.links.details[s],
        st.counts.txEvents[s], st.counts.blockEvents[s], st.counts.wireBytes[s], st.counts.rawTxBytes[s])
  }

  ghost function ArrivalOf(cfg: Config, st: State, key: string, s: nat): Option<int>
    requires Sized(cfg, st) && s < Size(cfg)
  {
    if key in st.blocks then st.blocks[key].arrivals[s] else None
  }

  ghost function TxArrivalOf(cfg: Config, st: State, tx: Hash, s: nat): Option<int>
    requires Sized(cfg, st) && s < Size(cfg)
  {
    if tx in st.txs then st.txs[tx].arrivals[s] else None
  }

  /** An event of another source leaves a source's part alone. */
  lemma OthersUntouched(cfg: Config, st: State, ev: Event, s: nat, key: string, tx: Hash)
    requires Sized(cfg, st) && ev.source < Size(cfg) && s < Size(cfg) && ev.source != s
    ensures var st' := Step(cfg, st, ev);
            && OwnOf(cfg, st', s) == OwnOf(cfg, st, s)
            && ArrivalOf(cfg, st', key, s) == ArrivalOf(cfg, st, key, s)
            && TxArrivalOf(cfg, st', tx, s) == TxArrivalOf(cfg, st, tx, s)
  {
    if ev.payload.Connected? || ev.payload.Disconnected? {
      hide Deliver, DeliverTx;
    } else if ev.payload.Block? {
      hide DeliverTx, Connect, Disconnect, Latest;
    } else {
      hide Deliver, Connect, Disconnect;
    }
  }

  /** An event of the source itself does the same to its part in any two states that agree on it. */
  lemma OwnEvent(cfg: Config, st: State, st0: State, ev: Event, key: string, tx: Hash)
    requires Sized(cfg, st) && Sized(cfg, st0) && ev.source < Size(cfg)
    requires OwnOf(cfg, st, ev.source) == OwnOf(cfg, st0, ev.source)
    requires ArrivalOf(cfg, st, key, ev.source) == ArrivalOf(cfg, st0, key, ev.source)
    requires TxArrivalOf(cfg, st, tx, ev.source) == TxArrivalOf(cfg, st0, tx, ev.source)
    ensures var s, st', st0' := ev.source, Step(cfg, st, ev), Step(cfg, st0, ev);
            && OwnOf(cfg, st', s) == OwnOf(cfg, st0', s)
            && ArrivalOf(cfg, st', key, s) == ArrivalOf(cfg, st0', key, s)
            && TxArrivalOf(cfg, st', tx, s) == TxArrivalOf(cfg, st0', tx, s)
  {
    hide Step, OwnOf, ArrivalOf, TxArrivalOf;
    if ev.payload.Block? {
      OwnEventBlock(cfg, st, ev, key, tx);
      OwnEventBlock(cfg, st0, ev, key, tx);
    } else if ev.payload.Tx? {
      OwnEventTx(cfg, st, ev, key, tx);
      OwnEventTx(cfg, st0, ev, key, tx);
    } else {
      OwnEventLink(cfg, st, st0, ev, key, tx);
    }
  }

  lemma OwnEventLink(cfg: Config, st: State, st0: State, ev: Event, key: string, tx: Hash)
    requires Sized(cfg, st) && Sized(cfg, st0) && ev.source < Size(cfg)
             && (ev.payload.Connected? || ev.payload.Disconnected?)
    requires OwnOf(cfg, st, ev.source) == OwnOf(cfg, st0, ev.source)
    ensures var s, st', st0' := ev.source, Step(cfg, st, ev), Step(cfg, st0, ev);
            && OwnOf(cfg, st', s) == OwnOf(cfg, st0', s)
            && ArrivalOf(cfg, st', key, s) == ArrivalOf(cfg, st, key, s)
            && ArrivalOf(cfg, st0', key, s) == ArrivalOf(cfg, st0, key, s)
            && TxArrivalOf(cfg, st', tx, s) == TxArrivalOf(cfg, st, tx, s)
            && TxArrivalOf(cfg, st0', tx, s) == TxArrivalOf(cfg, st0, tx, s)
  {
    hide Connect, Disconnect, Step, Sized;
    OwnEventStep(cfg, st, ev);
    OwnEventStep(cfg, st0, ev);
    OwnEventLinks(st.links, st0.links, ev.source, ev.t, if ev.payload.Connected? then ev.payload.detail else "");
  }

  /** What a block event does to the part of its source: the first delivery sets the arrival, later ones leave it. */
  lemma OwnEventBlock(cfg: Config, st: State, ev: Event, key: string, tx: Hash)
    requires Sized(cfg, st) && ev.source < Size(cfg) && ev.payload.Block?
    ensures var s, p, o, st' := ev.source, ev.payload, OwnOf(cfg, st, ev.source), Step(cfg, st, ev);
            && OwnOf(cfg, st', s) == o.(blockEvents := o.blockEvents + 1, wireBytes := o.wireBytes + p.wireLen)
            && ArrivalOf(cfg, st', key, s) == (if key == p.key then OrElse(ArrivalOf(cfg, st, key, s), Some(ev.t))
                                               else ArrivalOf(cfg, st, key, s))
            && TxArrivalOf(cfg, st', tx, s) == TxArrivalOf(cfg, st, tx, s)
  {
    hide Latest;
  }

  lemma OwnEventStep(cfg: Config, st: State, ev: Event)
    requires Sized(cfg, st) && ev.source < Size(cfg) && (ev.payload.Connected? || ev.payload.Disconnected?)
    ensures LinksSized(st.links, Size(cfg)) && |st.links.connected| == Size(cfg)
    ensures Step(cfg, st, ev) ==
            st.(links := if ev.payload.Connected? then Connect(st.links, ev.source, ev.t, ev.payload.detail)
                         else Disconnect(st.links, ev.source, ev.t))
  {
    hide Connect, Disconnect;
  }

  lemma OwnEventTx(cfg: Config, st: State, ev: Event, key: string, tx: Hash)
    requires Sized(cfg, st) && ev.source < Size(cfg) && ev.payload.Tx?
    ensures var s, p, o, st' := ev.source, ev.payload, OwnOf(cfg, st, ev.source), Step(cfg, st, ev);
            && OwnOf(cfg, st', s) == o.(txEvents := o.txEvents + 1, rawTxBytes := o.rawTxBytes + p.rawLen)
            && ArrivalOf(cfg, st', key, s) == ArrivalOf(cfg, st, key, s)
            && TxArrivalOf(cfg, st', tx, s) == (if tx == p.tx then OrElse(TxArrivalOf(cfg, st, tx, s), Some(ev.t))
                                                else TxArrivalOf(cfg, st, tx, s))
  {
  }

  lemma OwnEventLinks(l: Links, l0: Links, s: nat, t: int, detail: string)
    requires LinksSized(l, |l.connected|) && LinksSized(l0, |l.connected|) && s < |l.connected|
    requires l.connected[s] == l0.connected[s] && l.ever[s] == l0.ever[s]
    requires l.reconnects[s] == l0.reconnects[s] && l.details[s] == l0.details[s]
    ensures var a, b := Connect(l, s, t, detail), Connect(l0, s, t, detail);
            a.connected[s] == b.connected[s] && a.ever[s] == b.ever[s] && a.reconnects[s] == b.reconnects[s]
              && a.details[s] == b.details[s]
    ensures var a, b := Disconnect(l, s, t), Disconnect(l0, s, t);
            a.connected[s] == b.connected[s] && a.ever[s] == b.ever[s] && a.reconnects[s] == b.reconnects[s]
              && a.details[s] == b.details[s]
  {
  }

  // ----- what an event does to one block -----

  lemma BlockDelivered(cfg: Config, st: State, ev: Event, r: BlockRec)
    requires Sized(cfg, st) && ev.source < Size(cfg) && ev.payload.Block?
    requires r == if ev.payload.key in st.blocks then st.blocks[ev.payload.key]
                  else FreshBlock(Size(cfg), ev.source, ev.t, ev.payload.number)
    ensures Step(cfg, st, ev).blocks ==
              st.blocks[ev.payload.key := Deliver(cfg.minSources, r, ev.source, ev.t, ev.payload)]
  {
    hide Deliver;
  }

  lemma OthersLeaveBlock(cfg: Config, st: State, ev: Event, key: string)
    requires Sized(cfg, st) && ev.source < Size(cfg) && !(ev.payload.Block? && ev.payload.key == key)
    ensures var st' := Step(cfg, st, ev);
            (key in st'.blocks <==> key in st.blocks) && (key in st.blocks ==> st'.blocks[key] == st.blocks[key])
  {
    hide Deliver, DeliverTx, Connect, Disconnect;
  }

  // ----- whole streams -----

  /** A source's part after any history is its part after its own stream alone. */
  lemma {:induction false} OwnStreamDecides(cfg: Config, h: seq<Event>, s: nat, key: string, tx: Hash)
    requires ValidHistory(cfg, h) && s < Size(cfg) && ValidHistory(cfg, Stream(h, s))
    ensures var st, alone := Run(cfg, h), Run(cfg, Stream(h, s));
            && OwnOf(cfg, st, s) == OwnOf(cfg, alone, s)
            && ArrivalOf(cfg, st, key, s) == ArrivalOf(cfg, alone, key, s)
            && TxArrivalOf(cfg, st, tx, s) == TxArrivalOf(cfg, alone, tx, s)
    decreases |h|
  {
    hide Step, OwnOf, ArrivalOf, TxArrivalOf;
    if h != [] {
      var front, ev := h[..|h| - 1], h[|h| - 1];
      var own := Stream(front, s);
      StreamValid(cfg, front, s);
      OwnStreamDecides(cfg, front, s, key, tx);
      if ev.source == s {
        assert Stream(h, s)[..|own|] == own;
        OwnEvent(cfg, Run(cfg, front), Run(cfg, own), ev, key, tx);
      } else {
        assert Stream(h, s) == own;
        OthersUntouched(cfg, Run(cfg, front), ev, s, key, tx);
      }
    }
  }

  /** The first value that the events of a history have to offer, and the last one. */
  function First<T>(h: seq<Event>, f: Event -> Option<T>): Option<T> {
    if h == [] then None else OrElse(First(h[..|h| - 1], f), f(h[|h| - 1]))
  }

  function Last<T>(h: seq<Event>, f: Event -> Option<T>): Option<T> {
    if h == [] then None else OrElse(f(h[|h| - 1]), Last(h[..|h| - 1], f))
  }

  lemma {:induction false} FirstConcat<T>(a: seq<Event>, b: seq<Event>, f: Event -> Option<T>)
    ensures First(a + b, f) == OrElse(First(a, f), First(b, f))
    ensures Last(a + b, f) == OrElse(Last(b, f), Last(a, f))
    decreases |b|
  {
    if b == [] {
      assert a + b == a;
    } else {
      var k := |b| - 1;
      FirstConcat(a, b[..k], f);
      assert (a + b)[..|a| + k] == a + b[..k] && (a + b)[|a| + k] == b[k];
    }
  }

  lemma FirstOfOne<T>(ev: Event, f: Event -> Option<T>)
    ensures First([ev], f) == f(ev) == Last([ev], f)
  {
    assert [ev][..0] == [];
  }

  /** The stamp of a delivery of the block. */
  function StampOf(key: string): Event -> Option<int> {
    (ev: Event) => if ev.payload.Block? && ev.payload.key == key then Some(ev.t) else None
  }

  /** The stamp of the first block event with this key. */
  function FirstDelivery(h: seq<Event>, key: string): Option<int> {
    First(h, StampOf(key))
  }

  /** A block's arrival at a source is the stamp of that source's first delivery of it; duplicates never move it. */
  lemma {:induction false} FirstDeliveryWins(cfg: Config, h: seq<Event>, s: nat, key: string)
    requires ValidHistory(cfg, h) && s < Size(cfg)
    ensures ArrivalOf(cfg, Run(cfg, h), key, s) == FirstDelivery(Stream(h, s), key)
    decreases |h|
  {
    hide Step, ArrivalOf, OwnOf, TxArrivalOf;
    if h == [] {
      NothingArrived(cfg, key, s);
    } else {
      var front, ev := h[..|h| - 1], h[|h| - 1];
      FirstDeliveryWins(cfg, front, s, key);
      ArrivalStep(cfg, Run(cfg, front), ev, s, key);
      if ev.source == s {
        assert Stream(h, s)[..|Stream(front, s)|] == Stream(front, s);
      } else {
        assert Stream(h, s) == Stream(front, s);
      }
    }
  }

  lemma ArrivalStep(cfg: Config, st: State, ev: Event, s: nat, key: string)
    requires Sized(cfg, st) && ev.source < Size(cfg) && s < Size(cfg)
    ensures ArrivalOf(cfg, Step(cfg, st, ev), key, s) ==
            OrElse(ArrivalOf(cfg, st, key, s),
                   if ev.source == s && ev.payload.Block? && ev.payload.key == key then Some(ev.t) else None)
  {
    if ev.source != s {
      hide Step, ArrivalOf;
      OthersUntouched(cfg, st, ev, s, key, []);
    } else if ev.payload.Block? {
      hide Step, ArrivalOf;
      OwnEventBlock(cfg, st, ev, key, []);
    } else {
      hide Latest, Deliver, Connect, Disconnect, DeliverTx;
    }
  }

  /** Wire lengths of the block events in a history. */
  function WireSum(h: seq<Event>): nat {
    if h == [] then 0
    else WireSum(h[..|h| - 1]) + if h[|h| - 1].payload.Block? then h[|h| - 1].payload.wireLen else 0
  }

  lemma {:induction false} WireSumConcat(a: seq<Event>, b: seq<Event>)
    ensures WireSum(a + b) == WireSum(a) + WireSum(b)
    decreases |b|
  {
    if b == [] {
      assert a + b == a;
    } else {
      var k := |b| - 1;
      WireSumConcat(a, b[..k]);
      assert (a + b)[..|a| + k] == a + b[..k] && (a + b)[|a| + k] == b[k];
    }
  }

  /** The byte counter of a source adds the wire length of a message once for each of its block events. */
  lemma {:induction false} WireBytesCounted(cfg: Config, h: seq<Event>, s: nat)
    requires ValidHistory(cfg, h) && s < Size(cfg)
    ensures OwnOf(cfg, Run(cfg, h), s).wireBytes == WireSum(Stream(h, s))
    decreases |h|
  {
    hide Step, OwnOf;
    if h == [] {
      NothingCounted(cfg, s);
    } else {
      var front, ev := h[..|h| - 1], h[|h| - 1];
      WireBytesCounted(cfg, front, s);
      WireStep(cfg, Run(cfg, front), ev, s);
      if ev.source == s {
        assert Stream(h, s)[..|Stream(front, s)|] == Stream(front, s);
      } else {
        assert Stream(h, s) == Stream(front, s);
      }
    }
  }

  lemma NothingCounted(cfg: Config, s: nat)
    requires s < Size(cfg)
    ensures OwnOf(cfg, Run(cfg, []), s).wireBytes == 0
  {
  }

  lemma WireStep(cfg: Config, st: State, ev: Event, s: nat)
    requires Sized(cfg, st) && ev.source < Size(cfg) && s < Size(cfg)
    ensures OwnOf(cfg, Step(cfg, st, ev), s).wireBytes ==
            OwnOf(cfg, st, s).wireBytes + if ev.source == s && ev.payload.Block? then ev.payload.wireLen else 0
  {
    if ev.source != s {
      hide Step, OwnOf;
      OthersUntouched(cfg, st, ev, s, "", []);
    } else if ev.payload.Block? {
      hide Step, OwnOf;
      OwnEventBlock(cfg, st, ev, "", []);
    } else if ev.payload.Tx? {
      hide Step, OwnOf;
      OwnEventTx(cfg, st, ev, "", []);
    } else {
      hide Step;
      OwnEventStep(cfg, st, ev);
    }
  }

  lemma NothingArrived(cfg: Config, key: string, s: nat)
    requires s < Size(cfg)
    ensures ArrivalOf(cfg, Run(cfg, []), key, s).None?
  {
  }

  // ----- what a block and a transaction keep -----

  /** A block record exists as soon as one source has delivered the block. */
  lemma RecordedWhenDelivered(cfg: Config, st: State, key: string, tx: Hash)
    requires ValidConfig(cfg) && Inv(cfg, st)
    ensures key in st.blocks <==> exists s :: 0 <= s < Size(cfg) && ArrivalOf(cfg, st, key, s).Some?
    ensures tx in st.txs <==> exists s :: 0 <= s < Size(cfg) && TxArrivalOf(cfg, st, tx, s).Some?
  {
    if key in st.blocks {
      var r := st.blocks[key];
      assert ArrivalOf(cfg, st, key, r.firstSrc).Some?;
    }
    if tx in st.txs {
      var r := st.txs[tx];
      var s :| 0 <= s < |r.arrivals| && r.arrivals[s] == Some(r.first);
      assert TxArrivalOf(cfg, st, tx, s).Some?;
    }
  }

  /** What two records of the same block must share, whatever the interleaving. When every source must deliver, they
      complete together and at the same instant; when one source alone has the earliest stamp, it is first in both. What
      the deliveries say about the block (number, hash and count) is not compared here. */
  ghost predicate SameBlock(cfg: Config, r: BlockRec, r': BlockRec) {
    && r.arrivals == r'.arrivals && r.seen == r'.seen && r.first == r'.first
    && (r.completedAt.Some? <==> r'.completedAt.Some?)
    && (cfg.minSources == Size(cfg) ==> r.completedAt == r'.completedAt)
    && (SoleEarliest(r.arrivals) ==> r.firstSrc == r'.firstSrc)
  }

  /** No two sources share the earliest stamp. */
  ghost predicate SoleEarliest(arrivals: seq<Option<int>>) {
    forall i, j :: 0 <= i < j < |arrivals| && arrivals[i].Some? && arrivals[i] == arrivals[j] ==>
        !IsFirst(arrivals, arrivals[i].value)
  }

  /** Consistent records with the same arrivals share all of this. */
  lemma ArrivalsDecideBlock(cfg: Config, r: BlockRec, r': BlockRec)
    requires ValidConfig(cfg) && BlockOk(cfg, r) && BlockOk(cfg, r') && r.arrivals == r'.arrivals
    ensures SameBlock(cfg, r, r')
  {
    hide Seen;
    SeenBounds(r.arrivals);
    assert r.first == r'.first;
    if r.firstSrc != r'.firstSrc { assert r.arrivals[r.firstSrc] == r.arrivals[r'.firstSrc] == Some(r.first); }
    if cfg.minSources == Size(cfg) && r.completedAt.Some? {
      assert r.completedAt.value == r'.completedAt.value;
    }
  }

  /** Confluence: two interleavings of the same streams, duplicates and replays included, lead to the same per-source
      state, the same blocks and the same transactions. */
  lemma Confluent(cfg: Config, h: seq<Event>, h': seq<Event>)
    requires ValidConfig(cfg) && ValidHistory(cfg, h) && ValidHistory(cfg, h') && SameStreams(cfg, h, h')
    ensures var st, st' := Run(cfg, h), Run(cfg, h');
            && (forall s :: 0 <= s < Size(cfg) ==> OwnOf(cfg, st, s) == OwnOf(cfg, st', s))
            && st.blocks.Keys == st'.blocks.Keys
            && (forall key :: key in st.blocks ==> SameBlock(cfg, st.blocks[key], st'.blocks[key]))
            && st.txs.Keys == st'.txs.Keys
            && (forall tx :: tx in st.txs ==> SameTx(st.txs[tx], st'.txs[tx]))
  {
    hide OwnOf, Inv, SameBlock, SameTx, Run;
    var st, st' := Run(cfg, h), Run(cfg, h');
    forall s | 0 <= s < Size(cfg) ensures OwnOf(cfg, st, s) == OwnOf(cfg, st', s) {
      AgreeOn(cfg, h, h', s, "", []);
    }
    forall key ensures key in st.blocks <==> key in st'.blocks
      ensures key in st.blocks ==> SameBlock(cfg, st.blocks[key], st'.blocks[key])
    {
      AgreeOnRecords(cfg, h, h', key, []);
    }
    forall tx ensures tx in st.txs <==> tx in st'.txs
      ensures tx in st.txs ==> SameTx(st.txs[tx], st'.txs[tx])
    {
      AgreeOnRecords(cfg, h, h', "", tx);
    }
  }

  lemma AgreeOn(cfg: Config, h: seq<Event>, h': seq<Event>, s: nat, key: string, tx: Hash)
    requires ValidHistory(cfg, h) && ValidHistory(cfg, h') && s < Size(cfg) && Stream(h, s) == Stream(h', s)
    ensures var st, st' := Run(cfg, h), Run(cfg, h');
            && OwnOf(cfg, st, s) == OwnOf(cfg, st', s)
            && ArrivalOf(cfg, st, key, s) == ArrivalOf(cfg, st', key, s)
            && TxArrivalOf(cfg, st, tx, s) == TxArrivalOf(cfg, st', tx, s)
  {
    hide *;
    StreamValid(cfg, h, s);
    OwnStreamDecides(cfg, h, s, key, tx);
    OwnStreamDecides(cfg, h', s, key, tx);
  }

  // ----- the synthetic-swap flag -----

  /** Did source s ever flag the transaction? */
  function Flagged(h: seq<Event>, tx: Hash, s: nat): bool {
    h != [] &&
    (Flagged(h[..|h| - 1], tx, s)
     || (var ev := h[|h| - 1]; ev.source == s && ev.payload.Tx? && ev.payload.tx == tx && ev.payload.swap))
  }

  lemma {:induction false} FlaggedInStream(h: seq<Event>, tx: Hash, s: nat)
    ensures Flagged(h, tx, s) == Flagged(Stream(h, s), tx, s)
  {
    if h != [] {
      var front := h[..|h| - 1];
      FlaggedInStream(front, tx, s);
      if h[|h| - 1].source == s {
        assert Stream(h, s)[..|Stream(front, s)|] == Stream(front, s);
      } else {
        assert Stream(h, s) == Stream(front, s);
      }
    }
  }

  /** The flag is set exactly when some source flagged the transaction, in a first delivery or in a duplicate. */
  lemma {:induction false} SwapIffFlagged(cfg: Config, h: seq<Event>, tx: Hash)
    requires ValidHistory(cfg, h)
    ensures var st := Run(cfg, h);
            (tx in st.txs && st.txs[tx].swap) <==> FlaggedByAny(cfg, h, tx)
    decreases |h|
  {
    hide Step;
    if h != [] {
      var front, ev := h[..|h| - 1], h[|h| - 1];
      SwapIffFlagged(cfg, front, tx);
      SwapStep(cfg, Run(cfg, front), ev, tx);
      FlaggedStep(cfg, h, tx);
    }
  }

  ghost predicate FlaggedByAny(cfg: Config, h: seq<Event>, tx: Hash) {
    exists s :: 0 <= s < Size(cfg) && Flagged(h, tx, s)
  }

  lemma FlaggedStep(cfg: Config, h: seq<Event>, tx: Hash)
    requires ValidHistory(cfg, h) && h != []
    ensures var ev := h[|h| - 1];
            FlaggedByAny(cfg, h, tx) <==>
            FlaggedByAny(cfg, h[..|h| - 1], tx) || (ev.payload.Tx? && ev.payload.tx == tx && ev.payload.swap)
  {
    var front, ev := h[..|h| - 1], h[|h| - 1];
    if FlaggedByAny(cfg, front, tx) {
      var s :| 0 <= s < Size(cfg) && Flagged(front, tx, s);
      assert Flagged(h, tx, s);
    }
    if FlaggedByAny(cfg, h, tx) {
      var s :| 0 <= s < Size(cfg) && Flagged(h, tx, s);
      if Flagged(front, tx, s) { assert FlaggedByAny(cfg, front, tx); }
    }
    if ev.payload.Tx? && ev.payload.tx == tx && ev.payload.swap { assert Flagged(h, tx, ev.source); }
  }

  lemma FlagsAgree(cfg: Config, h: seq<Event>, h': seq<Event>, tx: Hash)
    requires SameStreams(cfg, h, h')
    ensures FlaggedByAny(cfg, h, tx) <==> FlaggedByAny(cfg, h', tx)
  {
    hide Flagged, Stream;
    forall s | 0 <= s < Size(cfg) ensures Flagged(h, tx, s) == Flagged(h', tx, s) {
      FlaggedInStream(h, tx, s);
      FlaggedInStream(h', tx, s);
    }
  }

  lemma SwapStep(cfg: Config, st: State, ev: Event, tx: Hash)
    requires Sized(cfg, st) && ev.source < Size(cfg)
    ensures var st' := Step(cfg, st, ev);
            (tx in st'.txs && st'.txs[tx].swap) <==>
            (tx in st.txs && st.txs[tx].swap) || (ev.payload.Tx? && ev.payload.tx == tx && ev.payload.swap)
  {
    hide Latest, Deliver, Connect, Disconnect;
  }

  ghost predicate SameTx(r: TxRec, r': TxRec) {
    r.arrivals == r'.arrivals && r.seen == r'.seen && r.first == r'.first && r.swap == r'.swap
  }

  lemma AgreeOnRecords(cfg: Config, h: seq<Event>, h': seq<Event>, key: string, tx: Hash)
    requires ValidConfig(cfg) && ValidHistory(cfg, h) && ValidHistory(cfg, h') && SameStreams(cfg, h, h')
    ensures var st, st' := Run(cfg, h), Run(cfg, h');
            && (key in st.blocks <==> key in st'.blocks)
            && (key in st.blocks ==> SameBlock(cfg, st.blocks[key], st'.blocks[key]))
            && (tx in st.txs <==> tx in st'.txs)
            && (tx in st.txs ==> SameTx(st.txs[tx], st'.txs[tx]))
  {
    hide Run, OwnOf, SameBlock, BlockOk, TxOk, LinksOk, FlaggedByAny, Stream;
    var st, st' := Run(cfg, h), Run(cfg, h');
    RunKeeps(cfg, h);
    RunKeeps(cfg, h');
    forall s | 0 <= s < Size(cfg)
      ensures ArrivalOf(cfg, st, key, s) == ArrivalOf(cfg, st', key, s)
      ensures TxArrivalOf(cfg, st, tx, s) == TxArrivalOf(cfg, st', tx, s)
    {
      AgreeOn(cfg, h, h', s, key, tx);
    }
    RecordedWhenDelivered(cfg, st, key, tx);
    RecordedWhenDelivered(cfg, st', key, tx);
    if key in st.blocks {
      var r, r' := st.blocks[key], st'.blocks[key];
      assert forall s :: 0 <= s < Size(cfg) ==> r.arrivals[s] == ArrivalOf(cfg, st, key, s);
      assert forall s :: 0 <= s < Size(cfg) ==> r'.arrivals[s] == ArrivalOf(cfg, st', key, s);
      assert |r.arrivals| == |r'.arrivals| == Size(cfg);
      assert r.arrivals == r'.arrivals;
      ArrivalsDecideBlock(cfg, r, r');
    }
    SwapIffFlagged(cfg, h, tx);
    SwapIffFlagged(cfg, h', tx);
    FlagsAgree(cfg, h, h', tx);
    if tx in st.txs {
      var r, r' := st.txs[tx], st'.txs[tx];
      assert forall s :: 0 <= s < Size(cfg) ==> r.arrivals[s] == TxArrivalOf(cfg, st, tx, s);
      assert forall s :: 0 <= s < Size(cfg) ==> r'.arrivals[s] == TxArrivalOf(cfg, st', tx, s);
      assert |r.arrivals| == |r'.arrivals| == Size(cfg);
      assert r.arrivals == r'.arrivals;
      ArrivalsDecideTx(cfg, r, r');
    }
  }

  lemma ArrivalsDecideTx(cfg: Config, r: TxRec, r': TxRec)
    requires TxOk(cfg, r) && TxOk(cfg, r') && r.arrivals == r'.arrivals
    ensures r.seen == r'.seen && r.first == r'.first
  {
    hide Seen;
  }
}
