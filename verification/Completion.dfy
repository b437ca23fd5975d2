/** When the instant at which a block completed is decided by the streams alone, block by block. */
module Completion {
  import opened Bytes
  import opened Records
  import opened Confluence
  import opened Interleaving

  /** How many sources delivered by instant x. */
  function Count(arrivals: seq<Option<int>>, x: int): nat {
    if arrivals == [] then 0
    else
      var k := |arrivals| - 1;
      Count(arrivals[..k], x) + if arrivals[k].Some? && arrivals[k].value <= x then 1 else 0
  }

  lemma {:induction false} CountUpdate(arrivals: seq<Option<int>>, s: nat, t: int, x: int)
    requires s < |arrivals| && arrivals[s].None?
    ensures Count(arrivals[s := Some(t)], x) >= Count(arrivals, x)
  {
    var k := |arrivals| - 1;
    if s < k {
      CountUpdate(arrivals[..k], s, t, x);
      assert arrivals[s := Some(t)][..k] == arrivals[..k][s := Some(t)];
    } else {
      assert arrivals[s := Some(t)][..k] == arrivals[..k];
    }
  }

  lemma {:induction false} CountAll(arrivals: seq<Option<int>>, x: int)
    requires forall i :: 0 <= i < |arrivals| && arrivals[i].Some? ==> arrivals[i].value <= x
    ensures Count(arrivals, x) == Seen(arrivals)
  {
    if arrivals != [] { CountAll(arrivals[..|arrivals| - 1], x); }
  }

  lemma {:induction false} CountGrows(arrivals: seq<Option<int>>, x: int, y: int)
    requires x <= y
    ensures Count(arrivals, x) <= Count(arrivals, y) <= Seen(arrivals)
  {
    if arrivals != [] { CountGrows(arrivals[..|arrivals| - 1], x, y); }
  }

  /** Of two lists, one keeps exactly the arrivals of the other up to x. */
  lemma {:induction false} CountKept(arrivals: seq<Option<int>>, kept: seq<Option<int>>, x: int)
    requires |kept| == |arrivals|
    requires forall i :: 0 <= i < |kept| ==>
               kept[i] == if arrivals[i].Some? && arrivals[i].value <= x then arrivals[i] else None
    ensures Seen(kept) == Count(arrivals, x)
  {
    if arrivals != [] {
      var k := |arrivals| - 1;
      CountKept(arrivals[..k], kept[..k], x);
    }
  }

  // ----- what holds of every completion instant -----

  /** By the instant of completion as many sources as needed had delivered. */
  ghost predicate CompletedInTime(cfg: Config, st: State, key: string) {
    key in st.blocks && st.blocks[key].completedAt.Some? ==>
      Count(st.blocks[key].arrivals, st.blocks[key].completedAt.value) >= cfg.minSources
  }

  lemma {:induction false} CompletionInTime(cfg: Config, h: seq<Event>, key: string)
    requires ValidConfig(cfg) && ValidHistory(cfg, h)
    ensures CompletedInTime(cfg, Run(cfg, h), key)
    decreases |h|
  {
    hide Step, Inv, CompletedInTime;
    if h == [] {
      NothingCompleted(cfg, key);
    } else {
      var front, ev := h[..|h| - 1], h[|h| - 1];
      CompletionInTime(cfg, front, key);
      RunKeeps(cfg, front);
      InTimeStep(cfg, Run(cfg, front), ev, key);
    }
  }

  lemma NothingCompleted(cfg: Config, key: string)
    ensures key !in Run(cfg, []).blocks
    ensures CompletedInTime(cfg, Run(cfg, []), key)
  {
  }

  lemma InTimeStep(cfg: Config, st: State, ev: Event, key: string)
    requires ValidConfig(cfg) && Inv(cfg, st) && ev.source < Size(cfg) && CompletedInTime(cfg, st, key)
    ensures CompletedInTime(cfg, Step(cfg, st, ev), key)
  {
    hide Step, BlockOk, TxOk, LinksOk, Deliver, Count;
    if ev.payload.Block? && ev.payload.key == key {
      var r := if key in st.blocks then st.blocks[key] else FreshBlock(Size(cfg), ev.source, ev.t, ev.payload.number);
      BlockDelivered(cfg, st, ev, r);
      if key in st.blocks { InTimeDeliver(cfg, r, ev); } else { InTimeFirst(cfg, r, ev); }
    } else {
      OthersLeaveBlock(cfg, st, ev, key);
    }
  }

  lemma InTimeDeliver(cfg: Config, r: BlockRec, ev: Event)
    requires ValidConfig(cfg) && BlockOk(cfg, r) && ev.payload.Block? && ev.source < Size(cfg)
    requires r.completedAt.Some? ==> Count(r.arrivals, r.completedAt.value) >= cfg.minSources
    ensures var r' := Deliver(cfg.minSources, r, ev.source, ev.t, ev.payload);
            r'.completedAt.Some? ==> Count(r'.arrivals, r'.completedAt.value) >= cfg.minSources
  {
    hide Latest, Seen, Count;
    if r.arrivals[ev.source].None? {
      var arrivals := r.arrivals[ev.source := Some(ev.t)];
      SeenUpdate(r.arrivals, ev.source, ev.t);
      if r.completedAt.Some? { CountUpdate(r.arrivals, ev.source, ev.t, r.completedAt.value); }
      assert arrivals[ev.source].Some?;
      LatestIsLast(arrivals, ev.t);
      CountAll(arrivals, Latest(arrivals, ev.t));
    }
  }

  lemma InTimeFirst(cfg: Config, r: BlockRec, ev: Event)
    requires ValidConfig(cfg) && ev.payload.Block? && ev.source < Size(cfg)
    requires r == FreshBlock(Size(cfg), ev.source, ev.t, ev.payload.number)
    ensures var r' := Deliver(cfg.minSources, r, ev.source, ev.t, ev.payload);
            r'.completedAt.Some? ==> Count(r'.arrivals, r'.completedAt.value) >= cfg.minSources
  {
    hide Latest, Seen, Count;
    var arrivals := r.arrivals[ev.source := Some(ev.t)];
    SeenNone(r.arrivals);
    SeenUpdate(r.arrivals, ev.source, ev.t);
    assert arrivals[ev.source].Some?;
    LatestIsLast(arrivals, ev.t);
    CountAll(arrivals, Latest(arrivals, ev.t));
  }

  // ----- two interleavings that complete as early and as late as possible -----

  /** The events of the sources in a set, and those of the others. */
  function Of(h: seq<Event>, who: set<nat>): seq<Event> {
    if h == [] then []
    else Of(h[..|h| - 1], who) + if h[|h| - 1].source in who then [h[|h| - 1]] else []
  }

  function NotOf(h: seq<Event>, who: set<nat>): seq<Event> {
    if h == [] then []
    else NotOf(h[..|h| - 1], who) + if h[|h| - 1].source in who then [] else [h[|h| - 1]]
  }

  lemma {:induction false} StreamsOf(h: seq<Event>, who: set<nat>, s: nat)
    ensures Stream(Of(h, who), s) == if s in who then Stream(h, s) else []
    ensures Stream(NotOf(h, who), s) == if s in who then [] else Stream(h, s)
    decreases |h|
  {
    if h != [] {
      var front, ev := h[..|h| - 1], h[|h| - 1];
      StreamsOf(front, who, s);
      StreamSnoc(Of(front, who), ev, s);
      StreamSnoc(NotOf(front, who), ev, s);
      KeepAll(Of(front, who));
      KeepAll(NotOf(front, who));
      KeepAll(Stream(front, s));
    }
  }

  lemma {:induction false} PartsValid(cfg: Config, h: seq<Event>, who: set<nat>)
    requires ValidHistory(cfg, h)
    ensures ValidHistory(cfg, Of(h, who)) && ValidHistory(cfg, NotOf(h, who))
  {
    if h != [] { PartsValid(cfg, h[..|h| - 1], who); }
  }

  lemma Rearranged(cfg: Config, h: seq<Event>, who: set<nat>)
    requires ValidHistory(cfg, h)
    ensures var h' := Of(h, who) + NotOf(h, who); ValidHistory(cfg, h') && SameStreams(cfg, h, h')
  {
    hide Stream, Of, NotOf;
    PartsValid(cfg, h, who);
    forall s | 0 <= s < Size(cfg) ensures Stream(h, s) == Stream(Of(h, who) + NotOf(h, who), s) {
      StreamConcat(Of(h, who), NotOf(h, who), s);
      StreamsOf(h, who, s);
      KeepAll(Stream(h, s));
    }
  }

  /** A completed block stays as completed as it is. */
  lemma {:induction false} CompletionStays(cfg: Config, a: seq<Event>, b: seq<Event>, key: string)
    requires ValidConfig(cfg) && ValidHistory(cfg, a) && ValidHistory(cfg, b)
    requires key in Run(cfg, a).blocks && Run(cfg, a).blocks[key].completedAt.Some?
    ensures ValidHistory(cfg, a + b) && key in Run(cfg, a + b).blocks
    ensures Run(cfg, a + b).blocks[key].completedAt == Run(cfg, a).blocks[key].completedAt
    decreases |b|
  {
    hide Run, Step, Inv;
    if b == [] {
      KeepAll(a);
    } else {
      var front, ev := a + b[..|b| - 1], b[|b| - 1];
      CompletionStays(cfg, a, b[..|b| - 1], key);
      assert a + b == front + [ev];
      RunSnoc(cfg, front, ev);
      RunKeeps(cfg, front);
      CompletionKept(cfg, Run(cfg, front), ev, key);
    }
  }

  lemma CompletionKept(cfg: Config, st: State, ev: Event, key: string)
    requires ValidConfig(cfg) && Inv(cfg, st) && ev.source < Size(cfg)
    requires key in st.blocks && st.blocks[key].completedAt.Some?
    ensures var st' := Step(cfg, st, ev);
            key in st'.blocks && st'.blocks[key].completedAt == st.blocks[key].completedAt
  {
    hide Step, TxOk, LinksOk, Latest, Seen;
    if ev.payload.Block? && ev.payload.key == key {
      BlockDelivered(cfg, st, ev, st.blocks[key]);
    } else {
      OthersLeaveBlock(cfg, st, ev, key);
    }
  }

  /** Source g has delivered at instant t, and the block is not complete or was completed at t or later. */
  ghost predicate NotBefore(cfg: Config, st: State, key: string, g: nat, t: int) {
    && key in st.blocks && g < |st.blocks[key].arrivals| && st.blocks[key].arrivals[g] == Some(t)
    && (st.blocks[key].completedAt.Some? ==> st.blocks[key].completedAt.value >= t)
  }

  lemma {:induction false} StaysNotBefore(cfg: Config, a: seq<Event>, b: seq<Event>, key: string, g: nat, t: int)
    requires ValidConfig(cfg) && ValidHistory(cfg, a) && ValidHistory(cfg, b) && NotBefore(cfg, Run(cfg, a), key, g, t)
    ensures ValidHistory(cfg, a + b) && NotBefore(cfg, Run(cfg, a + b), key, g, t)
    decreases |b|
  {
    hide Run, Step, Inv, NotBefore;
    if b == [] {
      KeepAll(a);
    } else {
      var front, ev := a + b[..|b| - 1], b[|b| - 1];
      StaysNotBefore(cfg, a, b[..|b| - 1], key, g, t);
      assert a + b == front + [ev];
      RunSnoc(cfg, front, ev);
      RunKeeps(cfg, front);
      NotBeforeStep(cfg, Run(cfg, front), ev, key, g, t);
    }
  }

  lemma NotBeforeStep(cfg: Config, st: State, ev: Event, key: string, g: nat, t: int)
    requires ValidConfig(cfg) && Inv(cfg, st) && ev.source < Size(cfg) && NotBefore(cfg, st, key, g, t)
    ensures NotBefore(cfg, Step(cfg, st, ev), key, g, t)
  {
    hide Step, TxOk, LinksOk, Latest, Seen;
    if ev.payload.Block? && ev.payload.key == key {
      var r := st.blocks[key];
      BlockDelivered(cfg, st, ev, r);
      if r.arrivals[ev.source].None? {
        var arrivals := r.arrivals[ev.source := Some(ev.t)];
        assert arrivals[g] == Some(t);
        LatestIsLast(arrivals, ev.t);
      }
    } else {
      OthersLeaveBlock(cfg, st, ev, key);
    }
  }

  // ----- the condition -----

  ghost predicate CompletionFixed(cfg: Config, h: seq<Event>, key: string)
    requires ValidHistory(cfg, h) && key in Run(cfg, h).blocks
  {
    forall h' :: ValidHistory(cfg, h') && SameStreams(cfg, h, h') ==>
      key in Run(cfg, h').blocks && Run(cfg, h').blocks[key].completedAt == Run(cfg, h).blocks[key].completedAt
  }

  /** Fewer sources than needed delivered before the last one did. */
  predicate Settled(cfg: Config, arrivals: seq<Option<int>>) {
    Count(arrivals, Latest(arrivals, 0) - 1) < cfg.minSources
  }

  lemma SettledCompletes(cfg: Config, r: BlockRec)
    requires ValidConfig(cfg) && BlockOk(cfg, r) && Settled(cfg, r.arrivals) && r.completedAt.Some?
    requires Count(r.arrivals, r.completedAt.value) >= cfg.minSources
    ensures r.completedAt.value == Latest(r.arrivals, 0)
  {
    hide Latest, Seen, Count;
    assert r.arrivals[r.firstSrc].Some?;
    LatestIsLast(r.arrivals, 0);
    var x := r.completedAt.value;
    if x < Latest(r.arrivals, 0) { CountGrows(r.arrivals, x, Latest(r.arrivals, 0) - 1); }
  }

  /** A settled block completes at the same instant in every interleaving: that of the last delivery. */
  lemma SettledAgrees(cfg: Config, h: seq<Event>, h': seq<Event>, key: string)
    requires ValidConfig(cfg) && ValidHistory(cfg, h) && ValidHistory(cfg, h') && SameStreams(cfg, h, h')
    requires key in Run(cfg, h).blocks && Settled(cfg, Run(cfg, h).blocks[key].arrivals)
    ensures key in Run(cfg, h').blocks && Run(cfg, h').blocks[key].completedAt == Run(cfg, h).blocks[key].completedAt
  {
    hide Run, SameStreams, OwnOf, SameTx, BlockOk, TxOk, LinksOk, Settled;
    Confluent(cfg, h, h');
    RunKeeps(cfg, h);
    RunKeeps(cfg, h');
    CompletionInTime(cfg, h, key);
    CompletionInTime(cfg, h', key);
    var r, r' := Run(cfg, h).blocks[key], Run(cfg, h').blocks[key];
    if r.completedAt.Some? {
      SettledCompletes(cfg, r);
      SettledCompletes(cfg, r');
    }
  }

  /** With the sources that delivered before the last one first, the block completes before that. */
  lemma CompletesEarly(cfg: Config, h: seq<Event>, key: string)
    requires ValidConfig(cfg) && ValidHistory(cfg, h) && key in Run(cfg, h).blocks
    requires !Settled(cfg, Run(cfg, h).blocks[key].arrivals)
    ensures exists h' :: ValidHistory(cfg, h') && SameStreams(cfg, h, h') && key in Run(cfg, h').blocks
                         && Run(cfg, h').blocks[key].completedAt.Some?
                         && Run(cfg, h').blocks[key].completedAt.value < Latest(Run(cfg, h).blocks[key].arrivals, 0)
  {
    hide Run, SameStreams, Stream, Of, NotOf, Count, Latest, BlockOk, TxOk, LinksOk, ArrivalOf;
    var arrivals := Run(cfg, h).blocks[key].arrivals;
    RunKeeps(cfg, h);
    SizedBlock(cfg, Run(cfg, h), key);
    var last := Latest(arrivals, 0);
    var who: set<nat> := set i: nat | i < |arrivals| && arrivals[i].Some? && arrivals[i].value < last;
    var a, b := Of(h, who), NotOf(h, who);
    Rearranged(cfg, h, who);
    PartsValid(cfg, h, who);
    RunKeeps(cfg, a);
    forall i: nat | i < Size(cfg)
      ensures ArrivalOf(cfg, Run(cfg, a), key, i) == if i in who then arrivals[i] else None
    {
      ArrivalsOfPart(cfg, h, who, key, i);
    }
    EarlyPart(cfg, Run(cfg, a), key, arrivals, last);
    CompletionStays(cfg, a, b, key);
  }

  lemma SizedBlock(cfg: Config, st: State, key: string)
    requires Sized(cfg, st) && key in st.blocks
    ensures |st.blocks[key].arrivals| == Size(cfg)
    ensures forall i: nat :: i < Size(cfg) ==> ArrivalOf(cfg, st, key, i) == st.blocks[key].arrivals[i]
  {
  }

  lemma ArrivalsOfPart(cfg: Config, h: seq<Event>, who: set<nat>, key: string, i: nat)
    requires ValidHistory(cfg, h) && i < Size(cfg)
    ensures ValidHistory(cfg, Of(h, who))
    ensures ArrivalOf(cfg, Run(cfg, Of(h, who)), key, i) ==
              if i in who then ArrivalOf(cfg, Run(cfg, h), key, i) else None
  {
    hide Run, ArrivalOf, Stream, Of, NotOf;
    PartsValid(cfg, h, who);
    FirstDeliveryWins(cfg, h, i, key);
    FirstDeliveryWins(cfg, Of(h, who), i, key);
    StreamsOf(h, who, i);
  }

  /** A state that has exactly the arrivals before `last`, of which there are enough. */
  lemma EarlyPart(cfg: Config, st: State, key: string, arrivals: seq<Option<int>>, last: int)
    requires ValidConfig(cfg) && Inv(cfg, st) && |arrivals| == Size(cfg) && Count(arrivals, last - 1) >= cfg.minSources
    requires forall i: nat :: i < Size(cfg) ==>
               ArrivalOf(cfg, st, key, i) == if arrivals[i].Some? && arrivals[i].value < last then arrivals[i] else None
    ensures key in st.blocks && st.blocks[key].completedAt.Some? && st.blocks[key].completedAt.value < last
  {
    hide Count, Seen, TxOk, LinksOk;
    if key !in st.blocks {
      var none := Repeat(Size(cfg), None);
      forall i: nat | i < Size(cfg) ensures !(arrivals[i].Some? && arrivals[i].value < last) {
        assert ArrivalOf(cfg, st, key, i).None?;
      }
      CountKept(arrivals, none, last - 1);
      SeenNone(none);
    } else {
      var r := st.blocks[key];
      forall i: nat | i < Size(cfg)
        ensures r.arrivals[i] == if arrivals[i].Some? && arrivals[i].value <= last - 1 then arrivals[i] else None
      {
        assert ArrivalOf(cfg, st, key, i) == r.arrivals[i];
      }
      CountKept(arrivals, r.arrivals, last - 1);
      var i :| 0 <= i < |r.arrivals| && r.arrivals[i] == r.completedAt;
    }
  }

  /** With the stream of a source that delivered last at the front, the block does not complete before that. */
  lemma CompletesLate(cfg: Config, h: seq<Event>, key: string, g: nat)
    requires ValidConfig(cfg) && ValidHistory(cfg, h) && key in Run(cfg, h).blocks && g < Size(cfg)
    requires |Run(cfg, h).blocks[key].arrivals| == Size(cfg) && Run(cfg, h).blocks[key].arrivals[g].Some?
    ensures var h' := Ahead(h, g);
            && ValidHistory(cfg, h') && SameStreams(cfg, h, h')
            && NotBefore(cfg, Run(cfg, h'), key, g, Run(cfg, h).blocks[key].arrivals[g].value)
  {
    hide Run, SameStreams, Stream, Others, ArrivalOf, NotBefore, OwnOf;
    var t := Run(cfg, h).blocks[key].arrivals[g].value;
    Extremes(cfg, h, g);
    StreamValid(cfg, h, g);
    OthersValid(cfg, h, g);
    RunKeeps(cfg, Stream(h, g));
    RunKeeps(cfg, h);
    SizedBlock(cfg, Run(cfg, h), key);
    forall i: nat | i < Size(cfg)
      ensures ArrivalOf(cfg, Run(cfg, Stream(h, g)), key, i) == if i == g then Some(t) else None
    {
      FirstDeliveryWins(cfg, h, i, key);
      FirstDeliveryWins(cfg, Stream(h, g), i, key);
      StreamOfStream(h, g, i);
    }
    OnlyOne(cfg, Run(cfg, Stream(h, g)), key, g, t);
    StaysNotBefore(cfg, Stream(h, g), Others(h, g), key, g, t);
  }

  lemma OnlyOne(cfg: Config, st: State, key: string, g: nat, t: int)
    requires ValidConfig(cfg) && Inv(cfg, st) && g < Size(cfg)
    requires forall i: nat :: i < Size(cfg) ==> ArrivalOf(cfg, st, key, i) == if i == g then Some(t) else None
    ensures NotBefore(cfg, st, key, g, t)
  {
    hide Seen, TxOk, LinksOk;
    assert ArrivalOf(cfg, st, key, g) == Some(t);
    var r := st.blocks[key];
    if r.completedAt.Some? {
      var i :| 0 <= i < |r.arrivals| && r.arrivals[i] == r.completedAt;
      assert ArrivalOf(cfg, st, key, i) == r.arrivals[i];
    }
  }

  /** The instant at which a block completed, if it did, is the same over all interleavings of the same streams if and
      only if fewer sources than needed delivered it before the last one did. */
  lemma CompletionFixedExactly(cfg: Config, h: seq<Event>, key: string)
    requires ValidConfig(cfg) && ValidHistory(cfg, h) && key in Run(cfg, h).blocks
    ensures CompletionFixed(cfg, h, key) <==> Settled(cfg, Run(cfg, h).blocks[key].arrivals)
  {
    hide Run, SameStreams, ValidHistory, Settled, Latest, BlockOk, TxOk, LinksOk;
    var r := Run(cfg, h).blocks[key];
    if Settled(cfg, r.arrivals) {
      forall h' | ValidHistory(cfg, h') && SameStreams(cfg, h, h')
        ensures key in Run(cfg, h').blocks && Run(cfg, h').blocks[key].completedAt == r.completedAt
      {
        SettledAgrees(cfg, h, h', key);
      }
    } else {
      CompletesEarly(cfg, h, key);
      RunKeeps(cfg, h);
      var g := LastSource(cfg, r);
      CompletesLate(cfg, h, key, g);
    }
  }

  lemma LastSource(cfg: Config, r: BlockRec) returns (g: nat)
    requires BlockOk(cfg, r)
    ensures g < Size(cfg) == |r.arrivals| && r.arrivals[g] == Some(Latest(r.arrivals, 0))
  {
    hide Latest, Seen;
    assert r.arrivals[r.firstSrc].Some?;
    LatestIsLast(r.arrivals, 0);
    g :| 0 <= g < |r.arrivals| && r.arrivals[g] == Some(Latest(r.arrivals, 0));
  }
}
