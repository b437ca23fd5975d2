/** What the window makes of stamps that are out of order across sources, while each source keeps its own in order. */
module Skew {
  import opened Bytes
  import opened Records
  import opened Confluence
  import opened Window

  /** Each source's own effective stamps increase, as its clock does. */
  ghost predicate OwnOrder(cfg: Config, h: seq<Event>)
    requires ValidHistory(cfg, h)
  {
    forall s :: 0 <= s < Size(cfg) ==> ValidHistory(cfg, Stream(h, s)) && Increasing(cfg, Stream(h, s))
  }

  lemma DropLasts(cfg: Config, h: seq<Event>, t: int)
    requires ValidHistory(cfg, h) && OwnOrder(cfg, h) && DropsAt(cfg, h, t)
    ensures !AllUpAt(cfg, h, t)
  {
    hide UpAt, DropsBy, Stream, Increasing;
    var s :| 0 <= s < Size(cfg) && DropsBy(cfg, h, s, t);
    OwnStreamUp(cfg, h, s, t);
    DropStays(cfg, Stream(h, s), s, t);
  }

  lemma NoDropNoLoss(cfg: Config, h: seq<Event>, t: int)
    requires ValidHistory(cfg, h) && AllUpAt(cfg, h, t - 1) && !DropsAt(cfg, h, t)
    ensures AllUpAt(cfg, h, t)
  {
    hide UpAt, DropsBy;
    forall s | 0 <= s < Size(cfg) ensures UpAt(cfg, h, s, t) {
      if !UpAt(cfg, h, s, t) { DownMeansDrop(cfg, h, s, t); }
    }
  }

  // ----- ticks that are in the window by mistake -----

  /** The stretch opens at a tick at which all sources are up, and no source drops while it lasts. */
  ghost predicate Earned(cfg: Config, h: seq<Event>, v: Interval)
    requires ValidHistory(cfg, h)
  {
    AllUpAt(cfg, h, v.a) && forall u: int :: v.a < u && Covers(v, 0, u) ==> !DropsAt(cfg, h, u)
  }

  lemma {:induction false} UpThroughout(cfg: Config, h: seq<Event>, v: Interval, u: int)
    requires ValidHistory(cfg, h) && Earned(cfg, h, v) && Covers(v, 0, u)
    ensures AllUpAt(cfg, h, u)
    decreases u - v.a
  {
    hide AllUpAt, DropsAt;
    if u > v.a {
      UpThroughout(cfg, h, v, u - 1);
      NoDropNoLoss(cfg, h, u);
    }
  }

  /** In every run whose sources keep their own stamps in order: at every instant of the window all sources were up
      throughout the warm-up, if and only if every stretch that outlasts the warm-up is earned. */
  lemma NothingExtra(cfg: Config, h: seq<Event>, warmup: nat)
    requires ValidHistory(cfg, h) && OwnOrder(cfg, h)
    ensures var ups := LinksAfter(cfg, h).allUp;
            (forall t: int :: InWindow(ups, warmup, t) ==> WarmAt(cfg, h, warmup, t))
            <==> forall i :: 0 <= i < |ups| && Covers(ups[i], warmup, ups[i].a + warmup) ==> Earned(cfg, h, ups[i])
  {
    hide LinksAfter, AllUpAt, DropsAt, OwnOrder;
    var ups := LinksAfter(cfg, h).allUp;
    if forall t: int :: InWindow(ups, warmup, t) ==> WarmAt(cfg, h, warmup, t) {
      forall i | 0 <= i < |ups| && Covers(ups[i], warmup, ups[i].a + warmup) ensures Earned(cfg, h, ups[i]) {
        EarnedIfWarm(cfg, h, ups, i, warmup);
      }
    } else {
      var t: int :| InWindow(ups, warmup, t) && !WarmAt(cfg, h, warmup, t);
      var i :| 0 <= i < |ups| && Covers(ups[i], warmup, t);
      if Earned(cfg, h, ups[i]) {
        forall u: int | t - warmup <= u <= t ensures AllUpAt(cfg, h, u) { UpThroughout(cfg, h, ups[i], u); }
        assert false;
      }
      assert Covers(ups[i], warmup, ups[i].a + warmup);
    }
  }

  lemma EarnedIfWarm(cfg: Config, h: seq<Event>, ups: seq<Interval>, i: nat, warmup: nat)
    requires ValidHistory(cfg, h) && OwnOrder(cfg, h) && i < |ups| && Covers(ups[i], warmup, ups[i].a + warmup)
    requires forall t: int :: InWindow(ups, warmup, t) ==> WarmAt(cfg, h, warmup, t)
    ensures Earned(cfg, h, ups[i])
  {
    hide AllUpAt, DropsAt, OwnOrder;
    var v := ups[i];
    assert InWindow(ups, warmup, v.a + warmup);
    forall u: int | v.a < u && Covers(v, 0, u) ensures !DropsAt(cfg, h, u) {
      var t := if u < v.a + warmup then v.a + warmup else u;
      assert Covers(v, warmup, t);
      assert InWindow(ups, warmup, t);
      if DropsAt(cfg, h, u) { DropLasts(cfg, h, u); }
    }
  }

  // ----- ticks that are missed -----

  /** The first tick by which the sources have all been up throughout the warm-up is in the window, and at the end of
      each stretch either they no longer have, or the next one goes on. */
  ghost predicate GoesOn(cfg: Config, h: seq<Event>, warmup: nat)
    requires ValidHistory(cfg, h)
  {
    var ups := LinksAfter(cfg, h).allUp;
    && (forall t: int :: WarmAt(cfg, h, warmup, t) && !AllUpAt(cfg, h, t - warmup - 1) ==> InWindow(ups, warmup, t))
    && (forall i :: 0 <= i < |ups| && ups[i].b.Some? && Covers(ups[i], warmup, ups[i].b.value - 1) ==>
          (WarmAt(cfg, h, warmup, ups[i].b.value) ==> InWindow(ups, warmup, ups[i].b.value)))
  }

  /** In every run: every instant before which all sources were up throughout the warm-up is in the window, if and
      only if it is so at the first such tick and at the end of each stretch. */
  lemma NothingMissed(cfg: Config, h: seq<Event>, warmup: nat)
    requires ValidConfig(cfg) && ValidHistory(cfg, h)
    ensures (forall t: int :: WarmAt(cfg, h, warmup, t) ==> InWindow(LinksAfter(cfg, h).allUp, warmup, t))
            <==> GoesOn(cfg, h, warmup)
  {
    hide LinksAfter, AllUpAt, WarmAt, InWindow;
    if GoesOn(cfg, h, warmup) {
      var lo := NothingUpBefore(cfg, h);
      forall t: int | WarmAt(cfg, h, warmup, t) ensures InWindow(LinksAfter(cfg, h).allUp, warmup, t) {
        ReachedFrom(cfg, h, warmup, lo, t);
      }
    }
  }

  lemma {:induction false} NothingUpBefore(cfg: Config, h: seq<Event>) returns (lo: int)
    requires ValidConfig(cfg) && ValidHistory(cfg, h)
    ensures forall t: int :: t < lo ==> !AllUpAt(cfg, h, t)
    decreases |h|
  {
    lo := SourceDownBefore(cfg, h, 0);
    forall t: int | t < lo ensures !AllUpAt(cfg, h, t) { assert !UpAt(cfg, h, 0, t); }
  }

  lemma {:induction false} SourceDownBefore(cfg: Config, h: seq<Event>, s: nat) returns (lo: int)
    requires ValidHistory(cfg, h)
    ensures forall t: int :: t < lo ==> !UpAt(cfg, h, s, t)
    decreases |h|
  {
    hide LinksAfter;
    lo := 0;
    if h != [] {
      lo := SourceDownBefore(cfg, h[..|h| - 1], s);
      if h[|h| - 1].t < lo { lo := h[|h| - 1].t; }
    }
  }

  lemma {:induction false} ReachedFrom(cfg: Config, h: seq<Event>, warmup: nat, lo: int, t: int)
    requires ValidHistory(cfg, h) && GoesOn(cfg, h, warmup) && WarmAt(cfg, h, warmup, t)
    requires forall u: int :: u < lo ==> !AllUpAt(cfg, h, u)
    ensures InWindow(LinksAfter(cfg, h).allUp, warmup, t)
    decreases t - lo
  {
    hide LinksAfter, AllUpAt;
    var ups := LinksAfter(cfg, h).allUp;
    assert AllUpAt(cfg, h, t);
    if AllUpAt(cfg, h, t - warmup - 1) {
      WarmBefore(cfg, h, warmup, t);
      ReachedFrom(cfg, h, warmup, lo, t - 1);
      var i :| 0 <= i < |ups| && Covers(ups[i], warmup, t - 1);
      if !Covers(ups[i], warmup, t) {
        assert ups[i].b == Some(t);
      }
    }
  }

  lemma WarmBefore(cfg: Config, h: seq<Event>, warmup: nat, t: int)
    requires ValidHistory(cfg, h) && WarmAt(cfg, h, warmup, t) && AllUpAt(cfg, h, t - warmup - 1)
    ensures WarmAt(cfg, h, warmup, t - 1)
  {
    hide AllUpAt;
  }

  // ----- runs in which it goes wrong -----

  lemma StreamOfThree(a: Event, b: Event, c: Event, s: nat)
    ensures Stream([a, b, c], s) ==
            (if a.source == s then [a] else []) + (if b.source == s then [b] else [])
              + (if c.source == s then [c] else [])
  {
    StreamSnoc([a, b], c, s);
    StreamSnoc([a], b, s);
    StreamSnoc([], a, s);
    assert [a, b] + [c] == [a, b, c] && [a] + [b] == [a, b] && [] + [a] == [a];
  }

  lemma ConnectThenDrop(cfg: Config, own: seq<Event>)
    requires |own| == 2 && ValidHistory(cfg, own) && own[0].t < own[1].t
    ensures Increasing(cfg, own)
  {
    hide LinksAfter;
    assert own[..1][..0] == [];
    assert Increasing(cfg, []) && EffectiveBefore(cfg, [], own[1].t);
    assert EffectiveBefore(cfg, own[..1], own[1].t) && Increasing(cfg, own[..1]);
  }

  lemma OneEvent(cfg: Config, own: seq<Event>)
    requires |own| == 1 && ValidHistory(cfg, own)
    ensures Increasing(cfg, own)
  {
    hide LinksAfter;
    assert own[..0] == [];
    assert Increasing(cfg, []) && EffectiveBefore(cfg, [], own[0].t);
  }

  /** Two drops, the later one processed first: tick 5 is in the window, although source 1 was down. */
  lemma ClosedLate(cfg: Config, h: seq<Event>)
    requires cfg == Config([true, true], 0, 1, 0, 0)
    requires h == [Event(0, 1, Connected("")), Event(1, 2, Connected("")),
                   Event(0, 10, Disconnected("")), Event(1, 4, Disconnected(""))]
    ensures ValidHistory(cfg, h) && OwnOrder(cfg, h) && LinksAfter(cfg, h).allUp == [Interval(2, Some(10))]
    ensures AllUpAt(cfg, h, 2) && InWindow(LinksAfter(cfg, h).allUp, cfg.warmup, 5) && !AllUpAt(cfg, h, 5)
  {
    ClosedLateLinks(cfg, h);
    ClosedLateUps(cfg, h);
    hide LinksAfter, UpAt;
    assert Covers(LinksAfter(cfg, h).allUp[0], 0, 5);
    forall s | 0 <= s < 2 ensures ValidHistory(cfg, Stream(h, s)) && Increasing(cfg, Stream(h, s)) {
      StreamOfThree(h[0], h[1], h[2], s);
      StreamSnoc([h[0], h[1], h[2]], h[3], s);
      assert h == [h[0], h[1], h[2]] + [h[3]];
      ConnectThenDrop(cfg, Stream(h, s));
    }
  }

  lemma ClosedLateLinks(cfg: Config, h: seq<Event>)
    requires cfg == Config([true, true], 0, 1, 0, 0)
    requires h == [Event(0, 1, Connected("")), Event(1, 2, Connected("")),
                   Event(0, 10, Disconnected("")), Event(1, 4, Disconnected(""))]
    ensures ValidHistory(cfg, h) && LinksAfter(cfg, h).allUp == [Interval(2, Some(10))]
    ensures LinksAfter(cfg, h[..1]).connected == [true, false] && LinksAfter(cfg, h[..2]).connected == [true, true]
    ensures LinksAfter(cfg, h[..3]).connected == [false, true]
  {
    var h1, h2, h3 := h[..1], h[..2], h[..3];
    assert h1[..0] == [] && h2[..1] == h1 && h3[..2] == h2;
    NoLinks(cfg);
    LinksSnoc(cfg, h1);
    LinksSnoc(cfg, h2);
    LinksSnoc(cfg, h3);
    LinksSnoc(cfg, h);
    hide LinksAfter;
    assert LinksAfter(cfg, h1).connected == [true, false] && LinksAfter(cfg, h1).allUp == [];
    assert LinksAfter(cfg, h2).connected == [true, true] && LinksAfter(cfg, h2).allUp == [Interval(2, None)];
    assert LinksAfter(cfg, h3).connected == [false, true] && LinksAfter(cfg, h3).allUp == [Interval(2, Some(10))];
  }

  lemma ClosedLateUps(cfg: Config, h: seq<Event>)
    requires cfg == Config([true, true], 0, 1, 0, 0)
    requires h == [Event(0, 1, Connected("")), Event(1, 2, Connected("")),
                   Event(0, 10, Disconnected("")), Event(1, 4, Disconnected(""))]
    ensures ValidHistory(cfg, h) && AllUpAt(cfg, h, 2) && !AllUpAt(cfg, h, 5)
  {
    ClosedLateLinks(cfg, h);
    NoLinks(cfg);
    hide LinksAfter;
    var h1, h2, h3 := h[..1], h[..2], h[..3];
    assert h1[..0] == [] && h2[..1] == h1 && h3[..2] == h2;
    assert !UpAt(cfg, h, 1, 5);
    assert UpAt(cfg, h1, 0, 2) && UpAt(cfg, h2, 1, 2);
    assert UpAt(cfg, h2, 0, 2) && UpAt(cfg, h3, 0, 2) && UpAt(cfg, h3, 1, 2);
  }

  /** A source that connects after a later drop of another was processed: no stretch begins, although both were up at
      7. */
  lemma NeverOpened(cfg: Config, h: seq<Event>)
    requires cfg == Config([true, true], 0, 1, 0, 0)
    requires h == [Event(0, 1, Connected("")), Event(0, 10, Disconnected("")), Event(1, 5, Connected(""))]
    ensures ValidHistory(cfg, h) && OwnOrder(cfg, h) && LinksAfter(cfg, h).allUp == [] && AllUpAt(cfg, h, 7)
  {
    NeverOpenedLinks(cfg, h);
    NeverOpenedUps(cfg, h);
    hide LinksAfter, UpAt;
    forall s | 0 <= s < 2 ensures ValidHistory(cfg, Stream(h, s)) && Increasing(cfg, Stream(h, s)) {
      StreamOfThree(h[0], h[1], h[2], s);
      if s == 0 { ConnectThenDrop(cfg, Stream(h, 0)); } else { OneEvent(cfg, Stream(h, 1)); }
    }
  }

  lemma NeverOpenedLinks(cfg: Config, h: seq<Event>)
    requires cfg == Config([true, true], 0, 1, 0, 0)
    requires h == [Event(0, 1, Connected("")), Event(0, 10, Disconnected("")), Event(1, 5, Connected(""))]
    ensures ValidHistory(cfg, h) && LinksAfter(cfg, h).allUp == []
    ensures LinksAfter(cfg, h[..1]).connected == [true, false] && LinksAfter(cfg, h[..2]).connected == [false, false]
  {
    var h1, h2 := h[..1], h[..2];
    assert h1[..0] == [] && h2[..1] == h1;
    NoLinks(cfg);
    LinksSnoc(cfg, h1);
    LinksSnoc(cfg, h2);
    LinksSnoc(cfg, h);
    hide LinksAfter;
    assert LinksAfter(cfg, h1).connected == [true, false] && LinksAfter(cfg, h1).allUp == [];
    assert LinksAfter(cfg, h2).connected == [false, false] && LinksAfter(cfg, h2).allUp == [];
    assert !LinksAfter(cfg, h).connected[0];
  }

  lemma NeverOpenedUps(cfg: Config, h: seq<Event>)
    requires cfg == Config([true, true], 0, 1, 0, 0)
    requires h == [Event(0, 1, Connected("")), Event(0, 10, Disconnected("")), Event(1, 5, Connected(""))]
    ensures ValidHistory(cfg, h) && AllUpAt(cfg, h, 7)
  {
    NeverOpenedLinks(cfg, h);
    NoLinks(cfg);
    hide LinksAfter;
    var h1, h2 := h[..1], h[..2];
    assert h1[..0] == [] && h2[..1] == h1;
    assert UpAt(cfg, h1, 0, 7);
    assert UpAt(cfg, h2, 0, 7);
    assert UpAt(cfg, h, 0, 7);
    assert UpAt(cfg, h, 1, 7);
  }
}
