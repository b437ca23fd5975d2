/** The measured window: `in_window` and `window_seconds` against what was connected when. */
module Window {
  import opened Bytes
  import opened Records
  import opened Confluence

  // ----- the program -----

  function Covers(v: Interval, warmup: nat, t: int): bool {
    t >= v.a + warmup && (v.b.None? || t < v.b.value)
  }

  /** `in_window` */
  predicate InWindow(ups: seq<Interval>, warmup: nat, t: int) {
    exists i :: 0 <= i < |ups| && Covers(ups[i], warmup, t)
  }

  function Length(v: Interval, warmup: nat, now: int): int {
    var end := if v.b.Some? then v.b.value else now;
    if end > v.a + warmup then end - (v.a + warmup) else 0
  }

  /** `window_seconds`, in ticks. */
  function WindowTicks(ups: seq<Interval>, warmup: nat, now: int): int {
    if ups == [] then 0 else WindowTicks(ups[..|ups| - 1], warmup, now) + Length(ups[|ups| - 1], warmup, now)
  }

  // ----- when a source was connected, from the events alone -----

  /** Does the event change the connection state of its source? */
  predicate Effective(l: Links, ev: Event)
    requires ev.source < |l.connected|
  {
    (ev.payload.Connected? && !l.connected[ev.source]) || (ev.payload.Disconnected? && l.connected[ev.source])
  }

  ghost function LinksAfter(cfg: Config, h: seq<Event>): (l: Links)
    requires ValidHistory(cfg, h)
    ensures LinksSized(l, Size(cfg))
  {
    Run(cfg, h).links
  }

  /** Was source s connected at tick t? Its last effective event up to t was a connect. */
  ghost predicate UpAt(cfg: Config, h: seq<Event>, s: nat, t: int)
    requires ValidHistory(cfg, h)
  {
    h != [] &&
    var front, ev := h[..|h| - 1], h[|h| - 1];
    if ev.source == s && Effective(LinksAfter(cfg, front), ev) && ev.t <= t then ev.payload.Connected?
    else UpAt(cfg, front, s, t)
  }

  ghost predicate AllUpAt(cfg: Config, h: seq<Event>, t: int)
    requires ValidHistory(cfg, h)
  {
    forall s :: 0 <= s < Size(cfg) ==> UpAt(cfg, h, s, t)
  }

  /** All effective events of the history have stamps before t. */
  ghost predicate EffectiveBefore(cfg: Config, h: seq<Event>, t: int)
    requires ValidHistory(cfg, h)
  {
    h != [] ==>
      var front, ev := h[..|h| - 1], h[|h| - 1];
      (Effective(LinksAfter(cfg, front), ev) ==> ev.t < t) && EffectiveBefore(cfg, front, t)
  }

  /** Effective events carry stamps that never decrease. */
  ghost predicate InOrder(cfg: Config, h: seq<Event>)
    requires ValidHistory(cfg, h)
  {
    h != [] ==>
      var front, ev := h[..|h| - 1], h[|h| - 1];
      (Effective(LinksAfter(cfg, front), ev) ==> EffectiveBefore(cfg, front, ev.t + 1)) && InOrder(cfg, front)
  }

  /** Effective events carry strictly increasing stamps. */
  ghost predicate Increasing(cfg: Config, h: seq<Event>)
    requires ValidHistory(cfg, h)
  {
    h != [] ==>
      var front, ev := h[..|h| - 1], h[|h| - 1];
      (Effective(LinksAfter(cfg, front), ev) ==> EffectiveBefore(cfg, front, ev.t)) && Increasing(cfg, front)
  }

  /** Did source s disconnect at tick t? */
  ghost predicate DropsBy(cfg: Config, h: seq<Event>, s: nat, t: int)
    requires ValidHistory(cfg, h)
  {
    h != [] &&
    var front, ev := h[..|h| - 1], h[|h| - 1];
    (ev.source == s && Effective(LinksAfter(cfg, front), ev) && ev.payload.Disconnected? && ev.t == t)
      || DropsBy(cfg, front, s, t)
  }

  ghost predicate DropsAt(cfg: Config, h: seq<Event>, t: int)
    requires ValidHistory(cfg, h)
  {
    exists s :: 0 <= s < Size(cfg) && DropsBy(cfg, h, s, t)
  }

  /** Every source is up at every tick of [t - warmup, t]: what the window is meant to be. */
  ghost predicate WarmAt(cfg: Config, h: seq<Event>, warmup: nat, t: int)
    requires ValidHistory(cfg, h)
  {
    forall u: int :: t - warmup <= u <= t ==> AllUpAt(cfg, h, u)
  }

  /** And no source dropped, if only for an instant, since the first of these ticks: what the window is. */
  ghost predicate Unbroken(cfg: Config, h: seq<Event>, warmup: nat, t: int)
    requires ValidHistory(cfg, h)
  {
    WarmAt(cfg, h, warmup, t) && forall u: int :: t - warmup < u <= t ==> !DropsAt(cfg, h, u)
  }

  /** A source drops at a tick at which every source is up again, and was at the tick before. */
  ghost predicate Blinks(cfg: Config, h: seq<Event>)
    requires ValidHistory(cfg, h)
  {
    exists t: int :: DropsAt(cfg, h, t) && AllUpAt(cfg, h, t - 1) && AllUpAt(cfg, h, t)
  }

  // ----- the list of stretches -----

  /** The stretches follow each other. */
  ghost predicate Ordered(ups: seq<Interval>) {
    && (forall i :: 0 <= i < |ups| && ups[i].b.Some? ==> ups[i].a <= ups[i].b.value)
    && (forall i, j :: 0 <= i < j < |ups| ==> ups[i].b.Some? && ups[i].b.value <= ups[j].a)
  }

  /** Closed stretches are nonempty and lie apart from each other, in order. */
  ghost predicate Apart(ups: seq<Interval>) {
    && (forall i :: 0 <= i < |ups| && ups[i].b.Some? ==> ups[i].a < ups[i].b.value)
    && (forall i, j :: 0 <= i < j < |ups| ==> ups[i].b.Some? && ups[i].b.value < ups[j].a)
  }

  /** Every stamp in the list is before t. */
  ghost predicate StampsBefore(ups: seq<Interval>, t: int) {
    forall i :: 0 <= i < |ups| ==> ups[i].a < t && (ups[i].b.Some? ==> ups[i].b.value < t)
  }

  lemma StampsLater(ups: seq<Interval>, t: int, t': int)
    requires StampsBefore(ups, t) && t <= t'
    ensures StampsBefore(ups, t')
  {
  }

  /** The step of the connection state that an event makes. */
  function LinkStep(l: Links, ev: Event): Links
    requires ev.source < |l.connected| && LinksSized(l, |l.connected|)
  {
    match ev.payload
    case Connected(detail) => Connect(l, ev.source, ev.t, detail)
    case Disconnected(_) => Disconnect(l, ev.source, ev.t)
    case Block(_, _, _, _, _) => l
    case Tx(_, _, _, _, _) => l
  }

  lemma LinksSnoc(cfg: Config, h: seq<Event>)
    requires ValidHistory(cfg, h) && h != []
    ensures LinksAfter(cfg, h) == LinkStep(LinksAfter(cfg, h[..|h| - 1]), h[|h| - 1])
  {
    hide Connect, Disconnect, Deliver, DeliverTx;
  }

  lemma Ineffective(l: Links, ev: Event)
    requires ev.source < |l.connected| && LinksSized(l, |l.connected|) && !Effective(l, ev)
    ensures LinkStep(l, ev).connected == l.connected && LinkStep(l, ev).allUp == l.allUp
  {
  }

  /** Once all effective stamps have passed, being up is being connected. */
  lemma {:induction false} UpAtEnd(cfg: Config, h: seq<Event>, s: nat, t: int)
    requires ValidHistory(cfg, h) && s < Size(cfg) && EffectiveBefore(cfg, h, t + 1)
    ensures UpAt(cfg, h, s, t) == LinksAfter(cfg, h).connected[s]
    decreases |h|
  {
    hide LinksAfter;
    if h == [] {
      NoLinks(cfg);
    } else {
      var front, ev := h[..|h| - 1], h[|h| - 1];
      UpAtEnd(cfg, front, s, t);
      LinksSnoc(cfg, h);
    }
  }

  lemma NoLinks(cfg: Config)
    ensures ValidHistory(cfg, []) && LinksAfter(cfg, []) == Init(cfg).links
  {
  }

  lemma {:induction false} BeforeLater(cfg: Config, h: seq<Event>, t: int, t': int)
    requires ValidHistory(cfg, h) && EffectiveBefore(cfg, h, t) && t <= t'
    ensures EffectiveBefore(cfg, h, t')
    decreases |h|
  {
    hide LinksAfter;
    if h != [] { BeforeLater(cfg, h[..|h| - 1], t, t'); }
  }

  /** For every warm-up, the window holds the ticks up to which the sources have been up without a break. */
  ghost predicate Matches(cfg: Config, h: seq<Event>)
    requires ValidHistory(cfg, h)
  {
    var ups := LinksAfter(cfg, h).allUp;
    Ordered(ups) && forall w: nat, t: int :: InWindow(ups, w, t) <==> Unbroken(cfg, h, w, t)
  }

  lemma {:induction false} HistoryMatches(cfg: Config, h: seq<Event>, end: int)
    requires ValidConfig(cfg) && ValidHistory(cfg, h) && InOrder(cfg, h) && EffectiveBefore(cfg, h, end)
    ensures Matches(cfg, h) && StampsBefore(LinksAfter(cfg, h).allUp, end)
    decreases |h|
  {
    hide LinksAfter, Ordered, Unbroken;
    if h == [] {
      NoLinks(cfg);
      NothingUp(cfg);
    } else {
      var front, ev := h[..|h| - 1], h[|h| - 1];
      LinksSnoc(cfg, h);
      var l := LinksAfter(cfg, front);
      LinksStayOk(cfg, front);
      if Effective(l, ev) {
        HistoryMatches(cfg, front, ev.t + 1);
        EffectiveMatches(cfg, h);
        StampsLater(LinksAfter(cfg, h).allUp, ev.t + 1, end);
      } else {
        HistoryMatches(cfg, front, end);
        Ineffective(l, ev);
        forall w: nat, t: int
          ensures Unbroken(cfg, h, w, t) == Unbroken(cfg, front, w, t) { SameUnbroken(cfg, h, w, t); }
      }
    }
  }

  lemma LinksStayOk(cfg: Config, h: seq<Event>)
    requires ValidConfig(cfg) && ValidHistory(cfg, h)
    ensures LinksOk(LinksAfter(cfg, h))
  {
    hide LinksOk, Run;
    RunKeeps(cfg, h);
  }

  lemma NothingUp(cfg: Config)
    requires ValidConfig(cfg)
    ensures ValidHistory(cfg, []) && Ordered([])
    ensures forall w: nat, t: int :: !Unbroken(cfg, [], w, t) && !InWindow([], w, t)
  {
    forall w: nat, t: int ensures !Unbroken(cfg, [], w, t) {
      assert !UpAt(cfg, [], 0, t);
      assert !AllUpAt(cfg, [], t);
    }
  }

  /** An event without effect leaves every source as it was at every tick. */
  lemma SameUp(cfg: Config, h: seq<Event>, t: int)
    requires ValidHistory(cfg, h) && h != [] && !Effective(LinksAfter(cfg, h[..|h| - 1]), h[|h| - 1])
    ensures AllUpAt(cfg, h, t) <==> AllUpAt(cfg, h[..|h| - 1], t)
    ensures DropsAt(cfg, h, t) <==> DropsAt(cfg, h[..|h| - 1], t)
  {
    hide LinksAfter;
    var front := h[..|h| - 1];
    assert forall s: nat :: UpAt(cfg, h, s, t) == UpAt(cfg, front, s, t);
    assert forall s: nat :: DropsBy(cfg, h, s, t) == DropsBy(cfg, front, s, t);
  }

  lemma SameUnbroken(cfg: Config, h: seq<Event>, w: nat, t: int)
    requires ValidHistory(cfg, h) && h != [] && !Effective(LinksAfter(cfg, h[..|h| - 1]), h[|h| - 1])
    ensures Unbroken(cfg, h, w, t) <==> Unbroken(cfg, h[..|h| - 1], w, t)
  {
    hide LinksAfter, AllUpAt, DropsAt;
    var front := h[..|h| - 1];
    forall u: int
      ensures AllUpAt(cfg, h, u) <==> AllUpAt(cfg, front, u)
      ensures DropsAt(cfg, h, u) <==> DropsAt(cfg, front, u)
    {
      SameUp(cfg, h, u);
    }
  }

  /** An effective event at t changes nothing before t; from t on, what counts is who is connected after it. */
  lemma UpAround(cfg: Config, h: seq<Event>, t: int)
    requires ValidConfig(cfg) && ValidHistory(cfg, h) && h != []
    requires var front, ev := h[..|h| - 1], h[|h| - 1];
             Effective(LinksAfter(cfg, front), ev) && EffectiveBefore(cfg, front, ev.t + 1)
    ensures t < h[|h| - 1].t ==> (AllUpAt(cfg, h, t) <==> AllUpAt(cfg, h[..|h| - 1], t))
    ensures t >= h[|h| - 1].t ==> (AllUpAt(cfg, h, t) <==> AllUp(LinksAfter(cfg, h).connected))
  {
    hide LinksAfter;
    var front, ev := h[..|h| - 1], h[|h| - 1];
    if t < ev.t {
      assert forall s: nat :: UpAt(cfg, h, s, t) == UpAt(cfg, front, s, t);
    } else {
      BeforeLater(cfg, front, ev.t + 1, t + 1);
      forall s | 0 <= s < Size(cfg) ensures UpAt(cfg, h, s, t) == LinksAfter(cfg, h).connected[s] {
        UpAtEnd(cfg, h, s, t);
      }
    }
  }

  /** The same for drops: none after t, and before t none but the earlier ones. */
  lemma DropsAround(cfg: Config, h: seq<Event>, t: int)
    requires ValidHistory(cfg, h) && h != []
    requires var front, ev := h[..|h| - 1], h[|h| - 1];
             Effective(LinksAfter(cfg, front), ev) && EffectiveBefore(cfg, front, ev.t + 1)
    ensures t < h[|h| - 1].t ==> (DropsAt(cfg, h, t) <==> DropsAt(cfg, h[..|h| - 1], t))
    ensures t > h[|h| - 1].t ==> !DropsAt(cfg, h, t)
    ensures DropsAt(cfg, h[..|h| - 1], t) ==> DropsAt(cfg, h, t)
  {
    hide LinksAfter;
    var front, ev := h[..|h| - 1], h[|h| - 1];
    assert forall s: nat :: DropsBy(cfg, front, s, t) ==> DropsBy(cfg, h, s, t);
    if t < ev.t {
      assert forall s: nat :: DropsBy(cfg, h, s, t) ==> DropsBy(cfg, front, s, t);
    } else if t > ev.t {
      forall s: nat ensures !DropsBy(cfg, h, s, t) { NoDropAfter(cfg, h, s, t, ev.t + 1); }
    }
  }

  lemma {:induction false} NoDropAfter(cfg: Config, h: seq<Event>, s: nat, t: int, end: int)
    requires ValidHistory(cfg, h) && EffectiveBefore(cfg, h, end) && end <= t
    ensures !DropsBy(cfg, h, s, t)
    decreases |h|
  {
    hide LinksAfter;
    if h != [] { NoDropAfter(cfg, h[..|h| - 1], s, t, end); }
  }

  /** A source that was up at the tick before t and is not at t dropped at t. */
  lemma {:induction false} DownMeansDrop(cfg: Config, h: seq<Event>, s: nat, t: int)
    requires ValidHistory(cfg, h) && UpAt(cfg, h, s, t - 1) && !UpAt(cfg, h, s, t)
    ensures DropsBy(cfg, h, s, t)
    decreases |h|
  {
    hide LinksAfter;
    var front, ev := h[..|h| - 1], h[|h| - 1];
    if !(ev.source == s && Effective(LinksAfter(cfg, front), ev) && ev.t <= t) { DownMeansDrop(cfg, front, s, t); }
  }

  /** When an event at t completes the connections, and all were up just before t, then one dropped at t. */
  lemma DroppedBefore(cfg: Config, h: seq<Event>)
    requires ValidConfig(cfg) && ValidHistory(cfg, h) && h != []
    requires var front, ev := h[..|h| - 1], h[|h| - 1];
             Effective(LinksAfter(cfg, front), ev) && EffectiveBefore(cfg, front, ev.t + 1)
    requires AllUp(LinksAfter(cfg, h).connected) && AllUpAt(cfg, h, h[|h| - 1].t - 1)
    ensures DropsAt(cfg, h, h[|h| - 1].t)
  {
    hide LinksAfter, EffectiveBefore;
    var front, ev := h[..|h| - 1], h[|h| - 1];
    LinksSnoc(cfg, h);
    UpAround(cfg, h, ev.t - 1);
    Completing(LinksAfter(cfg, front), ev);
    var s := ev.source;
    assert UpAt(cfg, front, s, ev.t - 1);
    UpAtEnd(cfg, front, s, ev.t);
    DownMeansDrop(cfg, front, s, ev.t);
    DropsAround(cfg, h, ev.t);
  }

  lemma Completing(l: Links, ev: Event)
    requires ev.source < |l.connected| && LinksSized(l, |l.connected|) && Effective(l, ev)
             && AllUp(LinkStep(l, ev).connected)
    ensures ev.payload.Connected? && !l.connected[ev.source]
  {
    LeavesOneDown(l, ev.source, ev.t);
  }

  lemma LeavesOneDown(l: Links, s: nat, t: int)
    requires s < |l.connected| && LinksSized(l, |l.connected|)
    ensures l.connected[s] ==> !AllUp(Disconnect(l, s, t).connected)
  {
    if l.connected[s] { assert !Disconnect(l, s, t).connected[s]; }
  }

  lemma EffectiveMatches(cfg: Config, h: seq<Event>)
    requires ValidConfig(cfg) && ValidHistory(cfg, h) && h != []
    requires var front, ev := h[..|h| - 1], h[|h| - 1];
             && Effective(LinksAfter(cfg, front), ev) && EffectiveBefore(cfg, front, ev.t + 1)
             && Matches(cfg, front) && StampsBefore(LinksAfter(cfg, front).allUp, ev.t + 1)
             && LinksOk(LinksAfter(cfg, front))
    ensures Matches(cfg, h) && StampsBefore(LinksAfter(cfg, h).allUp, h[|h| - 1].t + 1)
  {
    hide LinksAfter, EffectiveBefore, Unbroken, LinksOk, StampsBefore, Ordered;
    var front, ev := h[..|h| - 1], h[|h| - 1];
    var l, l' := LinksAfter(cfg, front), LinksAfter(cfg, h);
    LinksSnoc(cfg, h);
    forall w: nat, t: int ensures InWindow(l'.allUp, w, t) <==> Unbroken(cfg, h, w, t) {
      StretchStep(l, ev, w, t);
      assert InWindow(l.allUp, w, t) <==> Unbroken(cfg, front, w, t);
      UnbrokenStep(cfg, h, w, t);
    }
    StretchStep(l, ev, 0, 0);
  }

  /** Before the stamp of an effective event nothing changes; from then on, only a completed set of connections counts,
      and from that stamp. */
  lemma UnbrokenStep(cfg: Config, h: seq<Event>, w: nat, t: int)
    requires ValidConfig(cfg) && ValidHistory(cfg, h) && h != []
    requires var front, ev := h[..|h| - 1], h[|h| - 1];
             Effective(LinksAfter(cfg, front), ev) && EffectiveBefore(cfg, front, ev.t + 1)
    ensures t < h[|h| - 1].t ==> (Unbroken(cfg, h, w, t) <==> Unbroken(cfg, h[..|h| - 1], w, t))
    ensures t >= h[|h| - 1].t ==>
              (Unbroken(cfg, h, w, t) <==> AllUp(LinksAfter(cfg, h).connected) && t >= h[|h| - 1].t + w)
  {
    hide LinksAfter, EffectiveBefore, AllUpAt, DropsAt, AllUp;
    var front, ev := h[..|h| - 1], h[|h| - 1];
    if t < ev.t {
      forall u: int | u <= t
        ensures AllUpAt(cfg, h, u) <==> AllUpAt(cfg, front, u)
        ensures DropsAt(cfg, h, u) <==> DropsAt(cfg, front, u)
      {
        UpAround(cfg, h, u);
        DropsAround(cfg, h, u);
      }
    } else if !AllUp(LinksAfter(cfg, h).connected) {
      UpAround(cfg, h, t);
    } else if t >= ev.t + w {
      forall u: int | t - w <= u <= t ensures AllUpAt(cfg, h, u) && (u > t - w ==> !DropsAt(cfg, h, u)) {
        UpAround(cfg, h, u);
        DropsAround(cfg, h, u);
      }
    } else if AllUpAt(cfg, h, ev.t - 1) {
      DroppedBefore(cfg, h);
    }
  }

  /** What an effective event does to the stretches, tick by tick. */
  lemma StretchStep(l: Links, ev: Event, w: nat, t: int)
    requires LinksSized(l, |l.connected|) && ev.source < |l.connected| && LinksOk(l) && Effective(l, ev)
    requires Ordered(l.allUp) && StampsBefore(l.allUp, ev.t + 1)
    ensures var l' := LinkStep(l, ev);
            && Ordered(l'.allUp) && StampsBefore(l'.allUp, ev.t + 1)
            && (t < ev.t ==> (InWindow(l'.allUp, w, t) <==> InWindow(l.allUp, w, t)))
            && (t >= ev.t ==> (InWindow(l'.allUp, w, t) <==> AllUp(l'.connected) && t >= ev.t + w))
  {
    hide Ordered, StampsBefore, InWindow, Connect, Disconnect, AllUp;
    var ups, k := l.allUp, |l.allUp| - 1;
    StepShape(l, ev);
    if ev.payload.Connected? {
      AllClosed(ups, ev.t, w, t);
      if AllUp(LinkStep(l, ev).connected) { StretchOpens(ups, ev.t, w, t); }
    } else if k >= 0 && ups[k].b.None? {
      assert ups == ups[..k] + [ups[k]];
      StretchCloses(ups[..k], ups[k].a, ev.t, w, t);
    } else {
      AllClosed(ups, ev.t, w, t);
    }
  }

  /** Which stretch an effective event opens or closes. */
  lemma StepShape(l: Links, ev: Event)
    requires LinksSized(l, |l.connected|) && ev.source < |l.connected| && LinksOk(l) && Effective(l, ev)
    ensures var l', ups, k := LinkStep(l, ev), l.allUp, |l.allUp| - 1;
            && (ev.payload.Connected? ==>
                  && (forall i :: 0 <= i <= k ==> ups[i].b.Some?)
                  && l'.allUp == if AllUp(l'.connected) then ups + [Interval(ev.t, None)] else ups)
            && (ev.payload.Disconnected? ==>
                  && !AllUp(l'.connected) && (forall i :: 0 <= i < k ==> ups[i].b.Some?)
                  && l'.allUp == if k >= 0 && ups[k].b.None? then ups[..k] + [Interval(ups[k].a, Some(ev.t))] else ups)
  {
    if ev.payload.Connected? {
      assert !AllUp(l.connected);
    } else {
      assert !LinkStep(l, ev).connected[ev.source];
    }
  }

  lemma AllClosed(ups: seq<Interval>, s: int, w: nat, t: int)
    requires StampsBefore(ups, s + 1) && forall i :: 0 <= i < |ups| ==> ups[i].b.Some?
    ensures t >= s ==> !InWindow(ups, w, t)
  {
  }

  lemma StretchOpens(ups: seq<Interval>, s: int, w: nat, t: int)
    requires Ordered(ups) && StampsBefore(ups, s + 1) && forall i :: 0 <= i < |ups| ==> ups[i].b.Some?
    ensures Ordered(ups + [Interval(s, None)]) && StampsBefore(ups + [Interval(s, None)], s + 1)
    ensures InWindow(ups + [Interval(s, None)], w, t) <==> InWindow(ups, w, t) || t >= s + w
  {
    LastStretch(ups, Interval(s, None), w, t);
  }

  lemma StretchCloses(front: seq<Interval>, a: int, s: int, w: nat, t: int)
    requires Ordered(front + [Interval(a, None)]) && StampsBefore(front + [Interval(a, None)], s + 1)
    ensures Ordered(front + [Interval(a, Some(s))]) && StampsBefore(front + [Interval(a, Some(s))], s + 1)
    ensures InWindow(front + [Interval(a, Some(s))], w, t) <==> InWindow(front + [Interval(a, None)], w, t) && t < s
  {
    var open, closed := front + [Interval(a, None)], front + [Interval(a, Some(s))];
    assert open[|front|] == Interval(a, None) && closed[|front|] == Interval(a, Some(s));
    assert forall i :: 0 <= i < |front| ==> open[i] == front[i] == closed[i];
    LastStretch(front, Interval(a, None), w, t);
    LastStretch(front, Interval(a, Some(s)), w, t);
    if t >= s { assert !InWindow(front, w, t); }
  }

  lemma LastStretch(ups: seq<Interval>, v: Interval, warmup: nat, t: int)
    ensures InWindow(ups + [v], warmup, t) <==> InWindow(ups, warmup, t) || Covers(v, warmup, t)
  {
    var all := ups + [v];
    assert all[|ups|] == v;
    assert forall i :: 0 <= i < |ups| ==> all[i] == ups[i];
  }

  // ----- in_window -----

  /** A source drops within the warm-up before a tick, and yet all sources are up at every tick of it. */
  ghost predicate BlinksWithin(cfg: Config, h: seq<Event>, warmup: nat)
    requires ValidHistory(cfg, h)
  {
    exists t: int, u: int :: t - warmup < u <= t && DropsAt(cfg, h, u) && WarmAt(cfg, h, warmup, t)
  }

  /** With stamps that never decrease, and for the warm-up that a run has: an instant is in the window exactly when
      every source was connected at every tick of the warm-up before it and at the instant itself, at all instants, if
      and only if no source drops and returns within one tick of such a warm-up. */
  lemma WindowRight(cfg: Config, h: seq<Event>, warmup: nat)
    requires ValidConfig(cfg) && ValidHistory(cfg, h) && InOrder(cfg, h)
    ensures (forall t: int :: InWindow(LinksAfter(cfg, h).allUp, warmup, t) <==> WarmAt(cfg, h, warmup, t))
            <==> !BlinksWithin(cfg, h, warmup)
  {
    hide LinksAfter, DropsAt, WarmAt, EffectiveBefore, InOrder, Ordered, StampsBefore, InWindow;
    var end := AfterAll(cfg, h);
    HistoryMatches(cfg, h, end);
    var ups := LinksAfter(cfg, h).allUp;
    if BlinksWithin(cfg, h, warmup) {
      var t: int, u: int :| t - warmup < u <= t && DropsAt(cfg, h, u) && WarmAt(cfg, h, warmup, t);
      assert !Unbroken(cfg, h, warmup, t);
      assert !InWindow(ups, warmup, t);
    } else {
      forall t: int ensures InWindow(ups, warmup, t) <==> WarmAt(cfg, h, warmup, t) {
        assert InWindow(ups, warmup, t) <==> Unbroken(cfg, h, warmup, t);
      }
    }
  }

  /** With stamps that never decrease, the window is right for every warm-up and at every tick, so that an instant is
      in it exactly when every source was connected at every tick of the warm-up before it and at the instant itself,
      if and only if no source drops and returns within one tick between two ticks at which all are up. */
  lemma WindowRightExactly(cfg: Config, h: seq<Event>)
    requires ValidConfig(cfg) && ValidHistory(cfg, h) && InOrder(cfg, h)
    ensures (forall w: nat, t: int :: InWindow(LinksAfter(cfg, h).allUp, w, t) <==> WarmAt(cfg, h, w, t))
            <==> !Blinks(cfg, h)
  {
    hide LinksAfter, AllUpAt, DropsAt, EffectiveBefore, InOrder, Ordered, StampsBefore, InWindow;
    var end := AfterAll(cfg, h);
    HistoryMatches(cfg, h, end);
    var ups := LinksAfter(cfg, h).allUp;
    if Blinks(cfg, h) {
      var t: int :| DropsAt(cfg, h, t) && AllUpAt(cfg, h, t - 1) && AllUpAt(cfg, h, t);
      assert WarmAt(cfg, h, 1, t);
      assert !Unbroken(cfg, h, 1, t);
      assert !InWindow(ups, 1, t);
    } else {
      forall w: nat, t: int ensures InWindow(ups, w, t) <==> WarmAt(cfg, h, w, t) {
        if WarmAt(cfg, h, w, t) {
          forall u: int | t - w < u <= t ensures !DropsAt(cfg, h, u) {
            assert AllUpAt(cfg, h, u - 1) && AllUpAt(cfg, h, u);
          }
        }
        assert InWindow(ups, w, t) <==> Unbroken(cfg, h, w, t);
      }
    }
  }

  lemma {:induction false} AfterAll(cfg: Config, h: seq<Event>) returns (end: int)
    requires ValidHistory(cfg, h)
    ensures EffectiveBefore(cfg, h, end)
    decreases |h|
  {
    hide LinksAfter;
    end := 0;
    if h != [] {
      var front, t := h[..|h| - 1], h[|h| - 1].t;
      var before := AfterAll(cfg, front);
      end := if before <= t then t + 1 else before;
      BeforeLater(cfg, front, before, end);
    }
  }

  /** Strictly increasing stamps are one way to exclude this. */
  lemma {:induction false} IncreasingIsInOrder(cfg: Config, h: seq<Event>)
    requires ValidHistory(cfg, h) && Increasing(cfg, h)
    ensures InOrder(cfg, h)
    decreases |h|
  {
    hide LinksAfter, EffectiveBefore;
    if h != [] {
      var front, ev := h[..|h| - 1], h[|h| - 1];
      IncreasingIsInOrder(cfg, front);
      if Effective(LinksAfter(cfg, front), ev) { BeforeLater(cfg, front, ev.t, ev.t + 1); }
    }
  }

  lemma {:induction false} DropStays(cfg: Config, h: seq<Event>, s: nat, t: int)
    requires ValidHistory(cfg, h) && Increasing(cfg, h) && DropsBy(cfg, h, s, t)
    ensures !UpAt(cfg, h, s, t)
    decreases |h|
  {
    hide LinksAfter;
    var front, ev := h[..|h| - 1], h[|h| - 1];
    if DropsBy(cfg, front, s, t) {
      DropStays(cfg, front, s, t);
      if Effective(LinksAfter(cfg, front), ev) && ev.t <= t { NoDropAfter(cfg, front, s, t, ev.t); }
    }
  }

  lemma IncreasingNeverBlinks(cfg: Config, h: seq<Event>)
    requires ValidHistory(cfg, h) && Increasing(cfg, h)
    ensures !Blinks(cfg, h)
  {
    hide LinksAfter, Increasing, UpAt, DropsBy;
    if Blinks(cfg, h) {
      var t: int :| DropsAt(cfg, h, t) && AllUpAt(cfg, h, t - 1) && AllUpAt(cfg, h, t);
      var s :| 0 <= s < Size(cfg) && DropsBy(cfg, h, s, t);
      DropStays(cfg, h, s, t);
    }
  }

  /** With strictly increasing stamps, an instant is in the window exactly when every source was connected at every
      tick of the warm-up before it and at the instant itself. */
  lemma InWindowIsWarm(cfg: Config, h: seq<Event>, t: int)
    requires ValidConfig(cfg) && ValidHistory(cfg, h) && Increasing(cfg, h)
    ensures InWindow(LinksAfter(cfg, h).allUp, cfg.warmup, t) <==>
            forall u: int :: t - cfg.warmup <= u <= t ==> AllUpAt(cfg, h, u)
  {
    hide LinksAfter, AllUpAt, EffectiveBefore, Increasing, InOrder, InWindow, Blinks;
    IncreasingIsInOrder(cfg, h);
    IncreasingNeverBlinks(cfg, h);
    WindowRightExactly(cfg, h);
    assert InWindow(LinksAfter(cfg, h).allUp, cfg.warmup, t) <==> WarmAt(cfg, h, cfg.warmup, t);
  }

  /** Stamps that are out of order: the connection that completes the set opens the window at its own stamp, which is
      right exactly when every other source was up at that stamp. */
  lemma CompletedEarly(cfg: Config, h: seq<Event>, ev: Event)
    requires ValidConfig(cfg) && ValidHistory(cfg, h) && ev.source < Size(cfg)
    requires Effective(LinksAfter(cfg, h), ev) && AllUp(LinkStep(LinksAfter(cfg, h), ev).connected)
    ensures ValidHistory(cfg, h + [ev]) && InWindow(LinksAfter(cfg, h + [ev]).allUp, 0, ev.t)
    ensures AllUpAt(cfg, h + [ev], ev.t) <==> forall s :: 0 <= s < Size(cfg) && s != ev.source ==> UpAt(cfg, h, s, ev.t)
  {
    hide LinksAfter, UpAt;
    var h' := h + [ev];
    assert h'[..|h|] == h;
    LinksSnoc(cfg, h');
    LinksStayOk(cfg, h);
    var l := LinksAfter(cfg, h);
    Completing(l, ev);
    LastStretch(l.allUp, Interval(ev.t, None), 0, ev.t);
    assert !AllUp(l.connected);
    assert LinkStep(l, ev).allUp == l.allUp + [Interval(ev.t, None)];
    forall s: nat ensures UpAt(cfg, h', s, ev.t)
        <==> s == ev.source || UpAt(cfg, h, s, ev.t) { UpAtSnoc(cfg, h, ev, s); }
    if AllUpAt(cfg, h', ev.t) {
      forall s | 0 <= s < Size(cfg) && s != ev.source ensures UpAt(cfg, h, s, ev.t) { assert UpAt(cfg, h', s, ev.t); }
    } else {
      var s :| 0 <= s < Size(cfg) && !UpAt(cfg, h', s, ev.t);
      assert !UpAt(cfg, h, s, ev.t);
    }
  }

  lemma UpAtSnoc(cfg: Config, h: seq<Event>, ev: Event, s: nat)
    requires ValidHistory(cfg, h) && ev.source < Size(cfg) && Effective(LinksAfter(cfg, h), ev) && ev.payload.Connected?
    ensures ValidHistory(cfg, h + [ev]) && (UpAt(cfg, h + [ev], s, ev.t) <==> s == ev.source || UpAt(cfg, h, s, ev.t))
  {
    hide LinksAfter;
    assert (h + [ev])[..|h|] == h;
  }

  // ----- window_seconds -----

  /** Ticks from lo on, before hi, that are in the window. */
  ghost function CountTicks(ups: seq<Interval>, warmup: nat, lo: int, hi: int): nat
    decreases hi - lo
  {
    if hi <= lo then 0 else CountTicks(ups, warmup, lo, hi - 1) + if InWindow(ups, warmup, hi - 1) then 1 else 0
  }

  function Overlap(v: Interval, warmup: nat, lo: int, hi: int): nat {
    var begin := if v.a + warmup > lo then v.a + warmup else lo;
    var end := if v.b.Some? && v.b.value < hi then v.b.value else hi;
    if end > begin then end - begin else 0
  }

  lemma {:induction false} CountSplits(ups: seq<Interval>, v: Interval, warmup: nat, lo: int, hi: int)
    requires Ordered(ups + [v]) && lo <= hi
    ensures CountTicks(ups + [v], warmup, lo, hi) == CountTicks(ups, warmup, lo, hi) + Overlap(v, warmup, lo, hi)
    decreases hi - lo
  {
    if lo < hi {
      CountSplits(ups, v, warmup, lo, hi - 1);
      LastStretch(ups, v, warmup, hi - 1);
      NotBoth(ups, v, warmup, hi - 1);
    }
  }

  lemma NotBoth(ups: seq<Interval>, v: Interval, warmup: nat, t: int)
    requires Ordered(ups + [v])
    ensures InWindow(ups, warmup, t) ==> !Covers(v, warmup, t)
  {
    assert (ups + [v])[|ups|] == v;
    assert forall i :: 0 <= i < |ups| ==> (ups + [v])[i] == ups[i];
  }

  lemma {:induction false} CountNone(warmup: nat, lo: int, hi: int)
    ensures CountTicks([], warmup, lo, hi) == 0
    decreases hi - lo
  {
    if lo < hi { CountNone(warmup, lo, hi - 1); }
  }

  lemma FrontOrdered(front: seq<Interval>, v: Interval, t: int)
    requires Ordered(front + [v]) && StampsBefore(front + [v], t)
    ensures Ordered(front) && StampsBefore(front, t) && (v.b.Some? ==> v.b.value < t) && v.a < t
  {
    assert (front + [v])[|front|] == v;
    assert forall i :: 0 <= i < |front| ==> (front + [v])[i] == front[i];
  }

  lemma {:induction false} TicksCounted(ups: seq<Interval>, warmup: nat, lo: int, now: int)
    requires Ordered(ups) && StampsBefore(ups, now + 1) && lo <= now && forall i :: 0 <= i < |ups| ==> lo <= ups[i].a
    ensures WindowTicks(ups, warmup, now) == CountTicks(ups, warmup, lo, now)
    decreases |ups|
  {
    if ups == [] {
      CountNone(warmup, lo, now);
    } else {
      var front, v := ups[..|ups| - 1], ups[|ups| - 1];
      assert ups == front + [v];
      FrontOrdered(front, v, now + 1);
      hide Ordered, StampsBefore, CountTicks;
      TicksCounted(front, warmup, lo, now);
      CountSplits(front, v, warmup, lo, now);
    }
  }

  /** The reported window length is the number of ticks before now that are in the window. */
  lemma WindowTicksCount(cfg: Config, h: seq<Event>, lo: int, now: int)
    requires ValidConfig(cfg) && ValidHistory(cfg, h) && InOrder(cfg, h) && EffectiveBefore(cfg, h, now + 1)
    requires lo <= now && forall i :: 0 <= i < |LinksAfter(cfg, h).allUp| ==> lo <= LinksAfter(cfg, h).allUp[i].a
    ensures WindowTicks(LinksAfter(cfg, h).allUp, cfg.warmup, now) ==
            CountTicks(LinksAfter(cfg, h).allUp, cfg.warmup, lo, now)
  {
    hide LinksAfter, InOrder, EffectiveBefore, CountTicks, WindowTicks, Unbroken;
    HistoryMatches(cfg, h, now + 1);
    TicksCounted(LinksAfter(cfg, h).allUp, cfg.warmup, lo, now);
  }

  /** A source that drops and returns within one tick is up at every tick, and yet its warm-up starts again. */
  lemma TiedStampsRestartWarmup(cfg: Config, h: seq<Event>)
    requires cfg == Config([true], 0, 1, 10, 0)
    requires h == [Event(0, 1, Connected("")), Event(0, 5, Disconnected("")), Event(0, 5, Connected(""))]
    ensures ValidHistory(cfg, h) && InOrder(cfg, h) && Blinks(cfg, h) && BlinksWithin(cfg, h, cfg.warmup)
    ensures WarmAt(cfg, h, cfg.warmup, 12) && !InWindow(LinksAfter(cfg, h).allUp, cfg.warmup, 12)
  {
    var h1, h2 := h[..1], h[..2];
    assert h2[..1] == h1 && h1[..0] == [];
    NoLinks(cfg);
    LinksSnoc(cfg, h1);
    LinksSnoc(cfg, h2);
    LinksSnoc(cfg, h);
    hide LinksAfter;
    assert LinksAfter(cfg, h1).connected == [true] && LinksAfter(cfg, h1).allUp == [Interval(1, None)];
    assert LinksAfter(cfg, h2).connected == [false] && LinksAfter(cfg, h2).allUp == [Interval(1, Some(5))];
    assert LinksAfter(cfg, h).allUp == [Interval(1, Some(5)), Interval(5, None)];
    assert EffectiveBefore(cfg, [], 6) && InOrder(cfg, []);
    assert EffectiveBefore(cfg, h1, 6) && InOrder(cfg, h1);
    assert EffectiveBefore(cfg, h2, 6) && InOrder(cfg, h2);
    forall u: int | 1 <= u <= 12 ensures UpAt(cfg, h, 0, u) {
      assert UpAt(cfg, h1, 0, u);
      assert u < 5 ==> UpAt(cfg, h2, 0, u);
    }
    assert DropsBy(cfg, h2, 0, 5) && DropsBy(cfg, h, 0, 5);
    assert DropsAt(cfg, h, 5) && AllUpAt(cfg, h, 5 - 1) && AllUpAt(cfg, h, 5);
    hide UpAt, DropsBy;
    assert WarmAt(cfg, h, cfg.warmup, 12);
    assert 12 - cfg.warmup < 5 <= 12 && DropsAt(cfg, h, 5);
  }

  /** A connection stamped before one that was processed earlier puts ticks in the window at which not all were up. */
  lemma OutOfOrderStamps(cfg: Config, h: seq<Event>)
    requires cfg == Config([true, true], 0, 1, 0, 0)
    requires h == [Event(0, 5, Connected("")), Event(1, 3, Connected(""))]
    ensures ValidHistory(cfg, h) && !InOrder(cfg, h)
    ensures InWindow(LinksAfter(cfg, h).allUp, cfg.warmup, 3) && !AllUpAt(cfg, h, 3)
  {
    var h1, ev := h[..1], h[1];
    assert h1[..0] == [] && h == h1 + [ev];
    NoLinks(cfg);
    LinksSnoc(cfg, h1);
    hide LinksAfter;
    assert LinksAfter(cfg, h1).connected == [true, false];
    assert !EffectiveBefore(cfg, h1, 4);
    CompletedEarly(cfg, h1, ev);
    assert !UpAt(cfg, h1, 0, 3);
  }

  // ----- interleavings -----

  /** When a source was up and when it dropped is decided by its own stream. */
  lemma {:induction false} OwnStreamUp(cfg: Config, h: seq<Event>, s: nat, t: int)
    requires ValidHistory(cfg, h) && s < Size(cfg) && ValidHistory(cfg, Stream(h, s))
    ensures UpAt(cfg, h, s, t) == UpAt(cfg, Stream(h, s), s, t)
    ensures DropsBy(cfg, h, s, t) == DropsBy(cfg, Stream(h, s), s, t)
    decreases |h|
  {
    hide LinksAfter, Stream;
    StreamStep(h, s);
    if h != [] {
      var front, ev := h[..|h| - 1], h[|h| - 1];
      var own := Stream(front, s);
      StreamValid(cfg, front, s);
      OwnStreamUp(cfg, front, s, t);
      if ev.source == s {
        ConnectedByStream(cfg, front, s);
        assert (own + [ev])[..|own|] == own;
      }
    }
  }

  lemma StreamStep(h: seq<Event>, s: nat)
    ensures h == [] ==> Stream(h, s) == []
    ensures h != [] ==>
              var front, ev := h[..|h| - 1], h[|h| - 1];
              Stream(h, s) == if ev.source == s then Stream(front, s) + [ev] else Stream(front, s)
  {
  }

  lemma ConnectedByStream(cfg: Config, h: seq<Event>, s: nat)
    requires ValidHistory(cfg, h) && s < Size(cfg) && ValidHistory(cfg, Stream(h, s))
    ensures LinksAfter(cfg, h).connected[s] == LinksAfter(cfg, Stream(h, s)).connected[s]
  {
    hide Run, Stream;
    OwnStreamDecides(cfg, h, s, "", []);
  }

  lemma SameUps(cfg: Config, h: seq<Event>, h': seq<Event>, t: int)
    requires ValidHistory(cfg, h) && ValidHistory(cfg, h') && SameStreams(cfg, h, h')
    ensures AllUpAt(cfg, h, t) <==> AllUpAt(cfg, h', t)
    ensures DropsAt(cfg, h, t) <==> DropsAt(cfg, h', t)
  {
    hide UpAt, DropsBy, Stream;
    forall s | 0 <= s < Size(cfg)
      ensures UpAt(cfg, h, s, t) == UpAt(cfg, h', s, t)
      ensures DropsBy(cfg, h, s, t) == DropsBy(cfg, h', s, t)
    {
      StreamValid(cfg, h, s);
      OwnStreamUp(cfg, h, s, t);
      OwnStreamUp(cfg, h', s, t);
    }
  }

  /** Two interleavings of the same streams, neither of which puts connection stamps out of order, have the same
      window for every warm-up, and of the same length. */
  lemma SameWindow(cfg: Config, h: seq<Event>, h': seq<Event>, now: int)
    requires ValidConfig(cfg) && ValidHistory(cfg, h) && ValidHistory(cfg, h') && SameStreams(cfg, h, h')
    requires InOrder(cfg, h) && InOrder(cfg, h') && EffectiveBefore(cfg, h, now + 1)
             && EffectiveBefore(cfg, h', now + 1)
    ensures forall w: nat, t: int ::
              InWindow(LinksAfter(cfg, h).allUp, w, t) <==> InWindow(LinksAfter(cfg, h').allUp, w, t)
    ensures WindowTicks(LinksAfter(cfg, h).allUp, cfg.warmup, now) ==
              WindowTicks(LinksAfter(cfg, h').allUp, cfg.warmup, now)
  {
    hide LinksAfter, InOrder, EffectiveBefore, InWindow, AllUpAt;
    hide DropsAt, SameStreams, WindowTicks, CountTicks, StampsBefore, Ordered;
    HistoryMatches(cfg, h, now + 1);
    HistoryMatches(cfg, h', now + 1);
    forall t: int
      ensures AllUpAt(cfg, h, t) <==> AllUpAt(cfg, h', t)
      ensures DropsAt(cfg, h, t) <==> DropsAt(cfg, h', t)
    {
      SameUps(cfg, h, h', t);
    }
    var ups, ups' := LinksAfter(cfg, h).allUp, LinksAfter(cfg, h').allUp;
    forall w: nat, t: int ensures InWindow(ups, w, t) <==> InWindow(ups', w, t) {
      assert Unbroken(cfg, h, w, t) <==> Unbroken(cfg, h', w, t);
    }
    var lo := EarlierThan(ups, now);
    var lo' := EarlierThan(ups', lo);
    TicksCounted(ups, cfg.warmup, lo', now);
    TicksCounted(ups', cfg.warmup, lo', now);
    SameCount(ups, ups', cfg.warmup, lo', now);
  }

  /** A tick from which on all stretches start. */
  lemma {:induction false} EarlierThan(ups: seq<Interval>, now: int) returns (lo: int)
    ensures lo <= now && forall i :: 0 <= i < |ups| ==> lo <= ups[i].a
  {
    lo := now;
    if ups != [] {
      lo := EarlierThan(ups[1..], if ups[0].a < now then ups[0].a else now);
      assert forall i :: 1 <= i < |ups| ==> ups[i] == ups[1..][i - 1];
    }
  }

  lemma {:induction false} SameCount(ups: seq<Interval>, ups': seq<Interval>, warmup: nat, lo: int, hi: int)
    requires forall t: int :: InWindow(ups, warmup, t) <==> InWindow(ups', warmup, t)
    ensures CountTicks(ups, warmup, lo, hi) == CountTicks(ups', warmup, lo, hi)
    decreases hi - lo
  {
    hide InWindow;
    if lo < hi { SameCount(ups, ups', warmup, lo, hi - 1); }
  }

  // ----- the list itself -----

  /** With strictly increasing stamps the stretches lie apart. */
  lemma {:induction false} StretchesApart(cfg: Config, h: seq<Event>, end: int)
    requires ValidConfig(cfg) && ValidHistory(cfg, h) && Increasing(cfg, h) && EffectiveBefore(cfg, h, end)
    ensures Apart(LinksAfter(cfg, h).allUp) && StampsBefore(LinksAfter(cfg, h).allUp, end)
    decreases |h|
  {
    hide LinksAfter, Apart;
    if h == [] {
      NoLinks(cfg);
      NoStretches();
    } else {
      var front, ev := h[..|h| - 1], h[|h| - 1];
      LinksSnoc(cfg, h);
      LinksStayOk(cfg, front);
      var l := LinksAfter(cfg, front);
      if Effective(l, ev) {
        StretchesApart(cfg, front, ev.t);
        ApartStep(l, ev);
        StampsLater(LinksAfter(cfg, h).allUp, ev.t + 1, end);
      } else {
        StretchesApart(cfg, front, end);
        Ineffective(l, ev);
      }
    }
  }

  lemma NoStretches()
    ensures Apart([])
  {
  }

  lemma ApartStep(l: Links, ev: Event)
    requires LinksSized(l, |l.connected|) && ev.source < |l.connected| && LinksOk(l) && Effective(l, ev)
    requires Apart(l.allUp) && StampsBefore(l.allUp, ev.t)
    ensures Apart(LinkStep(l, ev).allUp) && StampsBefore(LinkStep(l, ev).allUp, ev.t + 1)
  {
    if ev.payload.Connected? { assert !AllUp(l.connected); }
  }

  /** From the start of x on, u contains the ticks of x and no others. */
  ghost predicate EndsWith(u: seq<Interval>, x: Interval) {
    && (forall t: int :: t >= x.a ==> (InWindow(u, 0, t) <==> x.b.None? || t < x.b.value))
    && !InWindow(u, 0, x.a - 1) && (x.b.Some? ==> x.a < x.b.value)
  }

  /** Where the last of several stretches that lie apart begins and ends shows in the ticks they contain. */
  lemma LastShows(front: seq<Interval>, v: Interval)
    requires Apart(front + [v])
    ensures Apart(front) && EndsWith(front + [v], v)
    ensures forall t: int :: InWindow(front, 0, t) <==> InWindow(front + [v], 0, t) && t < v.a
  {
    assert (front + [v])[|front|] == v;
    assert forall i :: 0 <= i < |front| ==> (front + [v])[i] == front[i];
    forall t: int ensures InWindow(front + [v], 0, t) <==> InWindow(front, 0, t) || Covers(v, 0, t) {
      LastStretch(front, v, 0, t);
    }
  }

  lemma FirstShows(u: seq<Interval>)
    requires Apart(u)
    ensures if u == [] then forall t: int :: !InWindow(u, 0, t) else InWindow(u, 0, u[0].a)
  {
    if u != [] { assert Covers(u[0], 0, u[0].a); }
  }

  /** Stretches that lie apart are determined by the ticks they contain. */
  lemma {:induction false} ApartUnique(u: seq<Interval>, v: seq<Interval>)
    requires Apart(u) && Apart(v) && forall t: int :: InWindow(u, 0, t) <==> InWindow(v, 0, t)
    ensures u == v
    decreases |u|
  {
    hide InWindow, Apart, EndsWith;
    FirstShows(u);
    FirstShows(v);
    if u != [] && v != [] {
      var k, l := |u| - 1, |v| - 1;
      assert u == u[..k] + [u[k]] && v == v[..l] + [v[l]];
      LastShows(u[..k], u[k]);
      LastShows(v[..l], v[l]);
      SameLast(u, v, u[k], v[l]);
      ApartUnique(u[..k], v[..l]);
    }
  }

  lemma EndsAt(u: seq<Interval>, x: Interval, t: int)
    requires EndsWith(u, x)
    ensures t >= x.a ==> (InWindow(u, 0, t) <==> x.b.None? || t < x.b.value)
    ensures !InWindow(u, 0, x.a - 1) && (x.b.Some? ==> x.a < x.b.value)
  {
  }

  lemma SameLast(u: seq<Interval>, v: seq<Interval>, x: Interval, y: Interval)
    requires forall t: int :: InWindow(u, 0, t) <==> InWindow(v, 0, t)
    requires EndsWith(u, x) && EndsWith(v, y)
    ensures x == y
  {
    hide InWindow, EndsWith;
    var later := if x.a < y.a then y.a else x.a;
    var xb, yb := if x.b.Some? then x.b.value else later, if y.b.Some? then y.b.value else later;
    var last := if xb < yb then yb else xb;
    EndsAt(u, x, if later < last then last else later);
    EndsAt(v, y, if later < last then last else later);
    EndsAt(u, x, xb - 1);
    EndsAt(u, x, xb);
    EndsAt(u, x, yb - 1);
    EndsAt(u, x, yb);
    EndsAt(v, y, xb - 1);
    EndsAt(v, y, xb);
    EndsAt(v, y, yb - 1);
    EndsAt(v, y, yb);
    EndsAt(u, x, y.a - 1);
    EndsAt(v, y, x.a - 1);
  }

  /** If in both interleavings the stamps strictly increase, even the list of stretches is the same. */
  lemma SameStretches(cfg: Config, h: seq<Event>, h': seq<Event>, end: int)
    requires ValidConfig(cfg) && ValidHistory(cfg, h) && ValidHistory(cfg, h') && SameStreams(cfg, h, h')
    requires Increasing(cfg, h) && Increasing(cfg, h') && EffectiveBefore(cfg, h, end) && EffectiveBefore(cfg, h', end)
    ensures LinksAfter(cfg, h).allUp == LinksAfter(cfg, h').allUp
  {
    hide LinksAfter, InOrder, Increasing, EffectiveBefore, InWindow, SameStreams, WindowTicks, StampsBefore, Apart;
    IncreasingIsInOrder(cfg, h);
    IncreasingIsInOrder(cfg, h');
    BeforeLater(cfg, h, end, end + 1);
    BeforeLater(cfg, h', end, end + 1);
    SameWindow(cfg, h, h', end);
    StretchesApart(cfg, h, end);
    StretchesApart(cfg, h', end);
    ApartUnique(LinksAfter(cfg, h).allUp, LinksAfter(cfg, h').allUp);
  }
}
