/** Where the interleaving does show, continued: who wins a tie. */
module Winner {
  import opened Bytes
  import opened Records
  import opened Confluence
  import opened Interleaving

  /** Where in the history source s first delivers the block. */
  function FirstAt(h: seq<Event>, key: string, s: nat): Option<nat> {
    if h == [] then None
    else
      var ev := h[|h| - 1];
      OrElse(FirstAt(h[..|h| - 1], key, s),
             if ev.source == s && ev.payload.Block? && ev.payload.key == key then Some(|h| - 1) else None)
  }

  /** The winner has the earliest stamp, and of the sources with that stamp its first delivery was processed first. */
  ghost predicate WonBy(h: seq<Event>, key: string, r: BlockRec) {
    && r.firstSrc < |r.arrivals| && r.arrivals[r.firstSrc] == Some(r.first)
    && (forall s :: 0 <= s < |r.arrivals| ==> (r.arrivals[s].Some? <==> FirstAt(h, key, s).Some?))
    && (forall s :: 0 <= s < |r.arrivals| && s != r.firstSrc && r.arrivals[s] == Some(r.first) ==>
          FirstAt(h, key, r.firstSrc).value < FirstAt(h, key, s).value)
  }

  lemma {:induction false} FirstAtIs(h: seq<Event>, key: string, s: nat)
    ensures var at := FirstAt(h, key, s);
            at.Some? ==> at.value < |h| && h[at.value].source == s
    decreases |h|
  {
    if h != [] { FirstAtIs(h[..|h| - 1], key, s); }
  }

  /** In every run, ties included: among the sources that bear the earliest stamp, the winner is the one whose first
      delivery comes earliest in the history. */
  lemma {:induction false} TiesGoToTheFirstProcessed(cfg: Config, h: seq<Event>, key: string)
    requires ValidConfig(cfg) && ValidHistory(cfg, h)
    ensures key in Run(cfg, h).blocks ==> WonBy(h, key, Run(cfg, h).blocks[key])
    ensures key !in Run(cfg, h).blocks ==> forall s: nat :: FirstAt(h, key, s).None?
    decreases |h|
  {
    hide Step, Inv, WonBy;
    if h == [] {
      NoBlocksYet(cfg, key);
    } else {
      var front, ev := h[..|h| - 1], h[|h| - 1];
      assert h == front + [ev];
      TiesGoToTheFirstProcessed(cfg, front, key);
      RunKeeps(cfg, front);
      if ev.payload.Block? && ev.payload.key == key {
        WinnerStep(cfg, Run(cfg, front), front, ev);
      } else {
        OthersLeaveBlock(cfg, Run(cfg, front), ev, key);
        if key in Run(cfg, front).blocks { WonStill(front, ev, key, Run(cfg, front).blocks[key]); }
      }
    }
  }

  lemma NoBlocksYet(cfg: Config, key: string)
    ensures key !in Run(cfg, []).blocks
  {
  }

  lemma WonStill(front: seq<Event>, ev: Event, key: string, r: BlockRec)
    requires WonBy(front, key, r) && !(ev.payload.Block? && ev.payload.key == key)
    ensures WonBy(front + [ev], key, r)
  {
    assert (front + [ev])[..|front|] == front;
    assert forall s: nat :: FirstAt(front + [ev], key, s) == FirstAt(front, key, s);
  }

  lemma WinnerStep(cfg: Config, st: State, front: seq<Event>, ev: Event)
    requires ValidConfig(cfg) && Inv(cfg, st) && ev.source < Size(cfg) && ev.payload.Block?
    requires ev.payload.key in st.blocks ==> WonBy(front, ev.payload.key, st.blocks[ev.payload.key])
    requires ev.payload.key !in st.blocks ==> forall s: nat :: FirstAt(front, ev.payload.key, s).None?
    ensures var st' := Step(cfg, st, ev);
            ev.payload.key in st'.blocks && WonBy(front + [ev], ev.payload.key, st'.blocks[ev.payload.key])
  {
    hide Step, BlockOk, TxOk, LinksOk, FirstAt, WonBy, Deliver;
    var key, s := ev.payload.key, ev.source;
    var r := if key in st.blocks then st.blocks[key] else FreshBlock(Size(cfg), s, ev.t, ev.payload.number);
    BlockDelivered(cfg, st, ev, r);
    forall i: nat ensures FirstAt(front + [ev], key, i) ==
        OrElse(FirstAt(front, key, i), if i == s then Some(|front|) else None)
      ensures FirstAt(front, key, i).Some? ==> FirstAt(front, key, i).value < |front|
    {
      FirstAtSnoc(front, ev, i);
      FirstAtIs(front, key, i);
    }
    if key in st.blocks {
      LaterDelivery(cfg, r, front, ev);
    } else {
      FirstDeliveryEver(cfg, front, ev);
    }
  }

  lemma FirstAtSnoc(front: seq<Event>, ev: Event, i: nat)
    requires ev.payload.Block?
    ensures FirstAt(front + [ev], ev.payload.key, i) ==
            OrElse(FirstAt(front, ev.payload.key, i), if i == ev.source then Some(|front|) else None)
  {
    assert (front + [ev])[..|front|] == front;
  }

  /** How the positions of the first deliveries of a block go on with another delivery of it. */
  ghost predicate Continues(front: seq<Event>, ev: Event)
    requires ev.payload.Block?
  {
    forall i: nat ::
      && FirstAt(front + [ev], ev.payload.key, i) ==
         OrElse(FirstAt(front, ev.payload.key, i), if i == ev.source then Some(|front|) else None)
      && (FirstAt(front, ev.payload.key, i).Some? ==> FirstAt(front, ev.payload.key, i).value < |front|)
  }

  lemma LaterDelivery(cfg: Config, r: BlockRec, front: seq<Event>, ev: Event)
    requires ev.payload.Block? && ev.source < Size(cfg) && BlockOk(cfg, r) && WonBy(front, ev.payload.key, r)
    requires Continues(front, ev)
    ensures WonBy(front + [ev], ev.payload.key, Deliver(cfg.minSources, r, ev.source, ev.t, ev.payload))
  {
    hide Latest, Seen, FirstAt;
  }

  lemma FirstDeliveryEver(cfg: Config, front: seq<Event>, ev: Event)
    requires ev.payload.Block? && ev.source < Size(cfg) && Continues(front, ev)
    requires forall i: nat :: FirstAt(front, ev.payload.key, i).None?
    ensures var r := FreshBlock(Size(cfg), ev.source, ev.t, ev.payload.number);
            WonBy(front + [ev], ev.payload.key, Deliver(cfg.minSources, r, ev.source, ev.t, ev.payload))
  {
    hide Latest, FirstAt;
  }

  ghost predicate WinnerFixed(cfg: Config, h: seq<Event>, key: string)
    requires ValidHistory(cfg, h) && key in Run(cfg, h).blocks
  {
    forall h' :: ValidHistory(cfg, h') && SameStreams(cfg, h, h') ==>
      key in Run(cfg, h').blocks && Run(cfg, h').blocks[key].firstSrc == Run(cfg, h).blocks[key].firstSrc
  }

  /** Over all interleavings of the same streams, the winner of a block is determined exactly when one source alone has
      the earliest stamp. */
  lemma WinnerDetermined(cfg: Config, h: seq<Event>, key: string)
    requires ValidConfig(cfg) && ValidHistory(cfg, h) && key in Run(cfg, h).blocks
    ensures WinnerFixed(cfg, h, key) <==> SoleEarliest(Run(cfg, h).blocks[key].arrivals)
  {
    hide Run, SameStreams, ValidHistory, OwnOf, SameTx, SoleEarliest;
    var r := Run(cfg, h).blocks[key];
    forall h' | ValidHistory(cfg, h') && SameStreams(cfg, h, h')
      ensures key in Run(cfg, h').blocks && SameBlock(cfg, r, Run(cfg, h').blocks[key])
    {
      Confluent(cfg, h, h');
    }
    if !SoleEarliest(r.arrivals) {
      var i, j := TwoEarliest(cfg, h, key);
      AheadWins(cfg, h, key, i);
      AheadWins(cfg, h, key, j);
    }
  }

  /** Two sources that deliver a block with the same stamp: either wins, depending on which is processed first. */
  lemma EitherWins(cfg: Config, key: string, t: int)
    requires ValidConfig(cfg) && Size(cfg) >= 2
    ensures var a, b := Event(0, t, Block(key, None, None, None, 0)), Event(1, t, Block(key, None, None, None, 0));
            && ValidHistory(cfg, [a, b]) && ValidHistory(cfg, [b, a]) && SameStreams(cfg, [a, b], [b, a])
            && key in Run(cfg, [a, b]).blocks && Run(cfg, [a, b]).blocks[key].firstSrc == 0
            && key in Run(cfg, [b, a]).blocks && Run(cfg, [b, a]).blocks[key].firstSrc == 1
  {
    var a, b := Event(0, t, Block(key, None, None, None, 0)), Event(1, t, Block(key, None, None, None, 0));
    FirstOfTwoWins(cfg, a, b);
    FirstOfTwoWins(cfg, b, a);
    hide Run, Step;
    SwappedPair(cfg, a, b);
  }

  lemma FirstOfTwoWins(cfg: Config, a: Event, b: Event)
    requires a.source < Size(cfg) && b.source < Size(cfg) && a.source != b.source && a.t == b.t
    requires a.payload.Block? && b.payload.Block? && a.payload.key == b.payload.key
    ensures ValidHistory(cfg, [a, b])
    ensures var st := Run(cfg, [a, b]);
            a.payload.key in st.blocks && st.blocks[a.payload.key].firstSrc == a.source
  {
    hide Latest, Connect, Disconnect, DeliverTx;
    assert [a, b][..1] == [a] && [a][..0] == [];
    assert Run(cfg, [a]) == Step(cfg, Run(cfg, []), a);
    assert Run(cfg, [a, b]) == Step(cfg, Run(cfg, [a]), b);
  }

  lemma TwoEarliest(cfg: Config, h: seq<Event>, key: string) returns (i: nat, j: nat)
    requires ValidConfig(cfg) && ValidHistory(cfg, h) && key in Run(cfg, h).blocks
    requires !SoleEarliest(Run(cfg, h).blocks[key].arrivals)
    ensures var r := Run(cfg, h).blocks[key];
            i < j < |r.arrivals| == Size(cfg) && r.arrivals[i] == r.arrivals[j] == Some(r.first)
  {
    hide Run, Seen;
    RunKeeps(cfg, h);
    var r := Run(cfg, h).blocks[key];
    i, j :| 0 <= i < j < |r.arrivals| && r.arrivals[i].Some? && r.arrivals[i] == r.arrivals[j]
      && IsFirst(r.arrivals, r.arrivals[i].value);
  }

  /** A source with the earliest stamp wins when its stream is processed first. */
  lemma AheadWins(cfg: Config, h: seq<Event>, key: string, i: nat)
    requires ValidConfig(cfg) && ValidHistory(cfg, h) && key in Run(cfg, h).blocks && i < Size(cfg)
    requires |Run(cfg, h).blocks[key].arrivals| == Size(cfg)
    requires Run(cfg, h).blocks[key].arrivals[i] == Some(Run(cfg, h).blocks[key].first)
    ensures var h' := Ahead(h, i);
            && ValidHistory(cfg, h') && SameStreams(cfg, h, h')
            && key in Run(cfg, h').blocks && Run(cfg, h').blocks[key].firstSrc == i
  {
    hide Run, SameStreams, OwnOf, SameTx, Stream, Others, FirstAt;
    var h' := Ahead(h, i);
    Extremes(cfg, h, i);
    Confluent(cfg, h, h');
    TiesGoToTheFirstProcessed(cfg, h', key);
    var r' := Run(cfg, h').blocks[key];
    var w := r'.firstSrc;
    if w != i {
      OthersNotOwn(h, i);
      FirstAtIs(h', key, w);
      FirstAtIs(h', key, i);
      AheadAt(h, key, i);
      var k := FirstAt(h', key, w).value;
      assert h'[k].source == w;
      StreamSource(h, i);
      assert false;
    }
  }

  lemma {:induction false} StreamSource(h: seq<Event>, i: nat)
    ensures forall k :: 0 <= k < |Stream(h, i)| ==> Stream(h, i)[k].source == i
  {
    if h != [] { StreamSource(h[..|h| - 1], i); }
  }

  lemma {:induction false} FirstAtConcat(a: seq<Event>, b: seq<Event>, key: string, s: nat)
    ensures FirstAt(a, key, s).Some? ==> FirstAt(a + b, key, s) == FirstAt(a, key, s)
    ensures (forall k :: 0 <= k < |b| ==> b[k].source != s) ==> FirstAt(a + b, key, s) == FirstAt(a, key, s)
    decreases |b|
  {
    if b == [] {
      assert a + b == a;
    } else {
      var k := |b| - 1;
      FirstAtConcat(a, b[..k], key, s);
      assert (a + b)[..|a| + k] == a + b[..k] && (a + b)[|a| + k] == b[k];
    }
  }

  /** With its stream first, source i delivers within the length of that stream. */
  lemma AheadAt(h: seq<Event>, key: string, i: nat)
    ensures FirstAt(Ahead(h, i), key, i).Some? ==> FirstAt(Ahead(h, i), key, i).value < |Stream(h, i)|
  {
    hide FirstAt, Stream, Others;
    OthersNotOwn(h, i);
    FirstAtConcat(Stream(h, i), Others(h, i), key, i);
    FirstAtIs(Stream(h, i), key, i);
  }

  lemma {:induction false} OthersNotOwn(h: seq<Event>, i: nat)
    ensures forall k :: 0 <= k < |Others(h, i)| ==> Others(h, i)[k].source != i
  {
    if h != [] { OthersNotOwn(h[..|h| - 1], i); }
  }
}
