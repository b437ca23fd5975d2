/** Where the interleaving does show: the instant a block completed, when fewer than all sources suffice. */
module Order {
  import opened Bytes
  import opened Records
  import opened Confluence

  const KEY := "seq:1"

  function Delivery(s: nat, t: int): Event {
    Event(s, t, Block(KEY, Some(1), None, None, 0))
  }

  /** Sources 0 to k - 1 deliver the block, all at instant 1. */
  function Early(k: nat): (h: seq<Event>)
    ensures |h| == k
  {
    seq(k, i requires 0 <= i < k => Delivery(i, 1))
  }

  /** What the run has recorded after `pre`, which is nothing or a delivery by source `late` at instant 2, and k early
      deliveries. */
  ghost predicate Progress(cfg: Config, st: State, late: nat, pre: bool, k: nat)
    requires Sized(cfg, st)
  {
    (KEY in st.blocks <==> pre || k > 0) &&
    (KEY in st.blocks ==>
       var r := st.blocks[KEY];
       && (forall i :: 0 <= i < Size(cfg) ==>
             r.arrivals[i] == if i < k then Some(1) else if pre && i == late then Some(2) else None)
       && r.seen == k + (if pre then 1 else 0)
       && (r.completedAt.Some? ==> r.completedAt == Some(if pre then 2 else 1)))
  }

  lemma {:induction false} EarlyProgress(cfg: Config, pre: bool, k: nat)
    requires ValidConfig(cfg) && cfg.minSources < Size(cfg) && k <= cfg.minSources
    ensures var late := cfg.minSources;
            var h := (if pre then [Delivery(late, 2)] else []) + Early(k);
            ValidHistory(cfg, h) && Progress(cfg, Run(cfg, h), late, pre, k)
    decreases k
  {
    hide Run, Step, Progress;
    var late := cfg.minSources;
    var start := if pre then [Delivery(late, 2)] else [];
    if k == 0 {
      assert start + Early(0) == start;
      Nothing(cfg);
      if pre {
        StartProgress(cfg);
        RunSnoc(cfg, [], Delivery(late, 2));
        assert [] + [Delivery(late, 2)] == start;
      }
    } else {
      EarlyProgress(cfg, pre, k - 1);
      EarlySnoc(start, k - 1);
      RunSnoc(cfg, start + Early(k - 1), Delivery(k - 1, 1));
      EarlyStep(cfg, Run(cfg, start + Early(k - 1)), pre, k - 1);
    }
  }

  lemma EarlySnoc(start: seq<Event>, k: nat)
    ensures start + Early(k + 1) == start + Early(k) + [Delivery(k, 1)]
  {
  }

  lemma Nothing(cfg: Config)
    requires ValidConfig(cfg)
    ensures ValidHistory(cfg, []) && Run(cfg, []) == Init(cfg) && Progress(cfg, Run(cfg, []), cfg.minSources, false, 0)
  {
  }

  lemma StartProgress(cfg: Config)
    requires ValidConfig(cfg) && cfg.minSources < Size(cfg)
    ensures Progress(cfg, Step(cfg, Init(cfg), Delivery(cfg.minSources, 2)), cfg.minSources, true, 0)
  {
    hide Seen;
    var r := FreshBlock(Size(cfg), cfg.minSources, 2, Some(1));
    var r' := Deliver(cfg.minSources, r, cfg.minSources, 2, Delivery(cfg.minSources, 2).payload);
    if r'.completedAt.Some? {
      assert r'.arrivals[cfg.minSources].Some?;
      LatestIsLast(r'.arrivals, 2);
    }
  }

  lemma EarlyStep(cfg: Config, st: State, pre: bool, k: nat)
    requires ValidConfig(cfg) && Sized(cfg, st) && k < cfg.minSources < Size(cfg)
    requires Progress(cfg, st, cfg.minSources, pre, k)
    ensures Progress(cfg, Step(cfg, st, Delivery(k, 1)), cfg.minSources, pre, k + 1)
  {
    hide Seen;
    var late := cfg.minSources;
    var r := if KEY in st.blocks then st.blocks[KEY] else FreshBlock(Size(cfg), k, 1, Some(1));
    var r' := Deliver(late, r, k, 1, Delivery(k, 1).payload);
    if r.seen + 1 == late {
      assert r'.arrivals[k] == Some(1);
      LatestIsLast(r'.arrivals, 1);
      if pre { assert r'.arrivals[late] == Some(2); }
    }
  }

  lemma {:induction false} StreamOfEarly(k: nat, s: nat)
    requires s >= k
    ensures Stream(Early(k), s) == []
  {
    if k > 0 {
      StreamOfEarly(k - 1, s);
      assert Early(k)[..k - 1] == Early(k - 1);
    }
  }

  lemma StreamOfOne(e: Event, s: nat)
    ensures Stream([e], s) == if e.source == s then [e] else []
  {
    assert [e][..0] == [];
  }

  /** The late delivery last and the late delivery first: the same streams. */
  lemma TwoOrders(cfg: Config)
    requires ValidConfig(cfg) && cfg.minSources < Size(cfg)
    ensures var e, hs := Delivery(cfg.minSources, 2), Early(cfg.minSources);
            SameStreams(cfg, hs + [e], [e] + hs)
  {
    var k := cfg.minSources;
    var e, hs := Delivery(k, 2), Early(k);
    forall s | 0 <= s < Size(cfg) ensures Stream(hs + [e], s) == Stream([e] + hs, s) {
      StreamConcat(hs, [e], s);
      StreamConcat([e], hs, s);
      StreamOfOne(e, s);
      if s == k { StreamOfEarly(k, s); }
    }
  }

  /** With fewer than all sources needed, the instant a block completed can depend on the interleaving. */
  lemma CompletionDepends(cfg: Config)
    requires ValidConfig(cfg) && cfg.minSources < Size(cfg)
    ensures exists h, h' :: ValidHistory(cfg, h) && ValidHistory(cfg, h') && SameStreams(cfg, h, h')
                            && CompletionDiffers(cfg, h, h')
  {
    hide Run, Step, Progress, Early, Stream, Inv, CompletionDiffers;
    var k := cfg.minSources;
    var e, hs := Delivery(k, 2), Early(k);
    TwoOrders(cfg);
    EarlyProgress(cfg, false, k);
    EarlyProgress(cfg, true, k);
    assert [] + hs == hs;
    RunSnoc(cfg, hs, e);
    RunKeeps(cfg, hs);
    RunKeeps(cfg, [e] + hs);
    Differ(cfg, Run(cfg, hs), Run(cfg, [e] + hs));
    DifferHere(cfg, hs + [e], [e] + hs);
  }

  lemma Differ(cfg: Config, st: State, st': State)
    requires ValidConfig(cfg) && cfg.minSources < Size(cfg) && Inv(cfg, st) && Inv(cfg, st')
    requires Progress(cfg, st, cfg.minSources, false, cfg.minSources)
    requires Progress(cfg, st', cfg.minSources, true, cfg.minSources)
    ensures var last := Step(cfg, st, Delivery(cfg.minSources, 2));
            && KEY in last.blocks && last.blocks[KEY].completedAt == Some(1)
            && KEY in st'.blocks && st'.blocks[KEY].completedAt == Some(2)
  {
    hide Step, BlockOk, TxOk, LinksOk;
    Completes(cfg, st);
    Completes(cfg, st');
    LateStep(cfg, st);
  }

  lemma DifferHere(cfg: Config, h: seq<Event>, h': seq<Event>)
    requires ValidHistory(cfg, h) && ValidHistory(cfg, h') && KEY in Run(cfg, h).blocks && KEY in Run(cfg, h').blocks
    requires Run(cfg, h).blocks[KEY].completedAt != Run(cfg, h').blocks[KEY].completedAt
    ensures CompletionDiffers(cfg, h, h')
  {
    hide Run;
  }

  ghost predicate CompletionDiffers(cfg: Config, h: seq<Event>, h': seq<Event>)
    requires ValidHistory(cfg, h) && ValidHistory(cfg, h')
  {
    var st, st' := Run(cfg, h), Run(cfg, h');
    exists key :: key in st.blocks && key in st'.blocks && st.blocks[key].completedAt != st'.blocks[key].completedAt
  }

  lemma LateStep(cfg: Config, st: State)
    requires ValidConfig(cfg) && Sized(cfg, st) && cfg.minSources < Size(cfg) && KEY in st.blocks
    requires st.blocks[KEY].seen == cfg.minSources
    ensures var st' := Step(cfg, st, Delivery(cfg.minSources, 2));
            KEY in st'.blocks && st'.blocks[KEY].completedAt == st.blocks[KEY].completedAt
  {
    hide Latest;
  }

  lemma Completes(cfg: Config, st: State)
    requires ValidConfig(cfg) && Inv(cfg, st) && KEY in st.blocks && st.blocks[KEY].seen >= cfg.minSources
    ensures st.blocks[KEY].completedAt.Some?
  {
  }

  /** Exactly when the completion instants are determined by the streams: when every source must deliver. */
  lemma CompletionDetermined(cfg: Config)
    requires ValidConfig(cfg)
    ensures cfg.minSources == Size(cfg) <==>
            forall h, h' :: ValidHistory(cfg, h) && ValidHistory(cfg, h') && SameStreams(cfg, h, h') ==>
                              !CompletionDiffers(cfg, h, h')
  {
    hide Run, Stream;
    if cfg.minSources < Size(cfg) {
      CompletionDepends(cfg);
    } else {
      forall h, h' | ValidHistory(cfg, h) && ValidHistory(cfg, h') && SameStreams(cfg, h, h')
        ensures !CompletionDiffers(cfg, h, h')
      {
        Confluent(cfg, h, h');
      }
    }
  }
}
