/** The collector: matching of the same block and the same transaction across sources, and the connection state that
    defines the measured window. Instants and durations are integer nanoseconds. */
module Records {
  import opened Bytes

  type Hash = seq<Byte>

  datatype Payload =
    | Connected(detail: string)
    | Disconnected(reason: string)
    | Block(key: string, number: Option<nat>, hash: Option<string>, txCount: Option<nat>, wireLen: nat)
    | Tx(tx: Hash, blockKey: Option<string>, inBlock: Option<nat>, swap: bool, rawLen: nat)

  datatype Event = Event(source: nat, t: int, payload: Payload)

  /** What a run fixes: which sources are Nitro feeds, the reference source, how many sources complete a block, the
      warm-up and the start of the run. */
  datatype Config = Config(nitro: seq<bool>, reference: nat, minSources: nat, warmup: nat, start: int)

  function Size(cfg: Config): nat {
    |cfg.nitro|
  }

  /** At least one source, and a threshold already clamped into 1..n by `Collector::new`. */
  predicate ValidConfig(cfg: Config) {
    1 <= cfg.minSources <= Size(cfg) && cfg.reference < Size(cfg)
  }

  datatype BlockRec = BlockRec(number: Option<nat>, hash: Option<string>, txCount: Option<nat>,
                               arrivals: seq<Option<int>>, first: int, firstSrc: nat, seen: nat,
                                   completedAt: Option<int>)

  datatype TxRec = TxRec(arrivals: seq<Option<int>>, first: int, seen: nat, blockKey: Option<string>,
                         fromNitro: bool, txCount: Option<nat>, swap: bool)

  /** A stretch during which every source was connected; open while it lasts. */
  datatype Interval = Interval(a: int, b: Option<int>)

  /** Connection state. */
  datatype Links = Links(connected: seq<bool>, ever: seq<bool>, reconnects: seq<nat>, details: seq<string>,
                         allUp: seq<Interval>)

  /** Event and byte counters, one of each per source. */
  datatype Counts = Counts(txEvents: seq<nat>, blockEvents: seq<nat>, wireBytes: seq<nat>, rawTxBytes: seq<nat>)

  datatype State = State(links: Links, counts: Counts, blocks: map<string, BlockRec>, txs: map<Hash, TxRec>)

  function Repeat<T>(n: nat, x: T): (s: seq<T>)
    ensures |s| == n && forall i :: 0 <= i < n ==> s[i] == x
  {
    seq(n, _ => x)
  }

  function Init(cfg: Config): State {
    var n := Size(cfg);
    State(Links(Repeat(n, false), Repeat(n, false), Repeat(n, 0), Repeat(n, ""), []),
          Counts(Repeat(n, 0), Repeat(n, 0), Repeat(n, 0), Repeat(n, 0)), map[], map[])
  }

  // ----- one event -----

  predicate AllUp(connected: seq<bool>) {
    forall i :: 0 <= i < |connected| ==> connected[i]
  }

  predicate LinksSized(l: Links, n: nat) {
    |l.connected| == |l.ever| == |l.reconnects| == |l.details| == n
  }

  predicate CountsSized(c: Counts, n: nat) {
    |c.txEvents| == |c.blockEvents| == |c.wireBytes| == |c.rawTxBytes| == n
  }

  function Connect(l: Links, s: nat, t: int, detail: string): Links
    requires s < |l.connected| && LinksSized(l, |l.connected|)
  {
    if l.connected[s] then l.(details := l.details[s := detail])
    else
      var up := l.connected[s := true];
      Links(up, l.ever[s := true], if l.ever[s] then l.reconnects[s := l.reconnects[s] + 1] else l.reconnects,
            l.details[s := detail],
            if AllUp(up) && (l.allUp == [] || l.allUp[|l.allUp| - 1].b.Some?) then l.allUp + [Interval(t, None)]
            else l.allUp)
  }

  function Disconnect(l: Links, s: nat, t: int): Links
    requires s < |l.connected|
  {
    if !l.connected[s] then l
    else
      var k := |l.allUp| - 1;
      l.(connected := l.connected[s := false],
         allUp := if k >= 0 && l.allUp[k].b.None? then l.allUp[k := Interval(l.allUp[k].a, Some(t))] else l.allUp)
  }

  /** The latest of the arrivals, `none` if there is none. */
  function Latest(arrivals: seq<Option<int>>, none: int): int {
    if arrivals == [] then none
    else
      var k := |arrivals| - 1;
      var rest := Latest(arrivals[..k], none);
      if arrivals[k].None? then rest
      else if (forall i :: 0 <= i < k ==> arrivals[i].None?) || rest < arrivals[k].value then arrivals[k].value
      else rest
  }

  function OrElse<T>(x: Option<T>, y: Option<T>): Option<T> {
    if x.Some? then x else y
  }

  /** The record of a block before its first delivery is counted. */
  function FreshBlock(n: nat, s: nat, t: int, number: Option<nat>): BlockRec {
    BlockRec(number, None, None, Repeat(n, None), t, s, 0, None)
  }

  /** A delivery of the block `p` by source s. */
  function Deliver(min: nat, r: BlockRec, s: nat, t: int, p: Payload): BlockRec
    requires p.Block? && s < |r.arrivals|
  {
    var r := r.(number := OrElse(r.number, p.number), hash := OrElse(r.hash, p.hash),
                txCount := OrElse(r.txCount, p.txCount));
    if r.arrivals[s].Some? then r
    else
      var arrivals := r.arrivals[s := Some(t)];
      r.(arrivals := arrivals, seen := r.seen + 1,
         first := if t < r.first then t else r.first,
         firstSrc := if t < r.first then s else r.firstSrc,
         completedAt := if r.seen + 1 == min then Some(Latest(arrivals, t)) else r.completedAt)
  }

  function FreshTx(n: nat, t: int): TxRec {
    TxRec(Repeat(n, None), t, 0, None, false, None, false)
  }

  /** A delivery of the transaction `p` by source s. */
  function DeliverTx(nitro: bool, r: TxRec, s: nat, t: int, p: Payload): TxRec
    requires p.Tx? && s < |r.arrivals|
  {
    var rekey := p.blockKey.Some? && (r.blockKey.None? || (nitro && !r.fromNitro));
    var r := r.(blockKey := if rekey then p.blockKey else r.blockKey,
                fromNitro := if rekey then nitro else r.fromNitro,
                txCount := if nitro && p.inBlock.Some? then p.inBlock else r.txCount,
                swap := r.swap || p.swap);
    if r.arrivals[s].Some? then r
    else r.(arrivals := r.arrivals[s := Some(t)], seen := r.seen + 1, first := if t < r.first then t else r.first)
  }

  function Bump(s: seq<nat>, i: nat, k: nat): seq<nat>
    requires i < |s|
  {
    s[i := s[i] + k]
  }

  ghost predicate Sized(cfg: Config, st: State) {
    var n := Size(cfg);
    && LinksSized(st.links, n) && CountsSized(st.counts, n)
    && (forall k :: k in st.blocks ==> |st.blocks[k].arrivals| == n)
    && (forall h :: h in st.txs ==> |st.txs[h].arrivals| == n)
  }

  /** `on_event` */
  ghost function Step(cfg: Config, st: State, ev: Event): (r: State)
    requires Sized(cfg, st) && ev.source < Size(cfg)
    ensures Sized(cfg, r)
  {
    var n, s, p := Size(cfg), ev.source, ev.payload;
    match p
    case Connected(detail) => st.(links := Connect(st.links, s, ev.t, detail))
    case Disconnected(_) => st.(links := Disconnect(st.links, s, ev.t))
    case Block(key, number, _, _, wireLen) =>
      var rec := if key in st.blocks then st.blocks[key] else FreshBlock(n, s, ev.t, number);
      st.(counts := st.counts.(blockEvents := Bump(st.counts.blockEvents, s, 1),
                               wireBytes := Bump(st.counts.wireBytes, s, wireLen)),
          blocks := st.blocks[key := Deliver(cfg.minSources, rec, s, ev.t, p)])
    case Tx(h, _, _, _, rawLen) =>
      var rec := if h in st.txs then st.txs[h] else FreshTx(n, ev.t);
      st.(counts := st.counts.(txEvents := Bump(st.counts.txEvents, s, 1),
                               rawTxBytes := Bump(st.counts.rawTxBytes, s, rawLen)),
          txs := st.txs[h := DeliverTx(cfg.nitro[s], rec, s, ev.t, p)])
  }

  ghost predicate ValidHistory(cfg: Config, h: seq<Event>) {
    forall i :: 0 <= i < |h| ==> h[i].source < Size(cfg)
  }

  /** The state after a history of events, taken in the order in which the channel delivered them. */
  ghost function Run(cfg: Config, h: seq<Event>): (st: State)
    requires ValidHistory(cfg, h)
    ensures Sized(cfg, st)
  {
    if h == [] then Init(cfg) else Step(cfg, Run(cfg, h[..|h| - 1]), h[|h| - 1])
  }

  lemma RunSnoc(cfg: Config, h: seq<Event>, ev: Event)
    requires ValidHistory(cfg, h) && ev.source < Size(cfg)
    ensures ValidHistory(cfg, h + [ev]) && Run(cfg, h + [ev]) == Step(cfg, Run(cfg, h), ev)
  {
    hide Step;
    assert (h + [ev])[..|h|] == h;
  }

  // ----- what every step keeps -----

  function Seen(arrivals: seq<Option<int>>): nat {
    if arrivals == [] then 0 else Seen(arrivals[..|arrivals| - 1]) + if arrivals[|arrivals| - 1].Some? then 1 else 0
  }

  ghost predicate IsFirst(arrivals: seq<Option<int>>, t: int) {
    && Some(t) in arrivals
    && forall i :: 0 <= i < |arrivals| && arrivals[i].Some? ==> t <= arrivals[i].value
  }

  ghost predicate IsLast(arrivals: seq<Option<int>>, t: int) {
    && Some(t) in arrivals
    && forall i :: 0 <= i < |arrivals| && arrivals[i].Some? ==> arrivals[i].value <= t
  }

  /** A block record: how often it was seen, its first arrival and who made it, and when it completed. */
  ghost predicate BlockOk(cfg: Config, r: BlockRec) {
    && |r.arrivals| == Size(cfg) && r.seen == Seen(r.arrivals) >= 1
    && IsFirst(r.arrivals, r.first) && r.firstSrc < Size(cfg) && r.arrivals[r.firstSrc] == Some(r.first)
    && (r.completedAt.Some? <==> r.seen >= cfg.minSources)
    && (r.completedAt.Some? ==> Some(r.completedAt.value) in r.arrivals)
    && (r.seen == cfg.minSources ==> IsLast(r.arrivals, r.completedAt.value))
  }

  ghost predicate TxOk(cfg: Config, r: TxRec) {
    |r.arrivals| == Size(cfg) && r.seen == Seen(r.arrivals) >= 1 && IsFirst(r.arrivals, r.first)
  }

  /** Only the last stretch can be open, and it is open exactly while every source is connected. */
  ghost predicate LinksOk(l: Links) {
    && (forall i :: 0 <= i < |l.allUp| - 1 ==> l.allUp[i].b.Some?)
    && (AllUp(l.connected) <==> l.allUp != [] && l.allUp[|l.allUp| - 1].b.None?)
    && (forall s :: 0 <= s < |l.connected| && s < |l.ever| && l.connected[s] ==> l.ever[s])
  }

  ghost predicate Inv(cfg: Config, st: State) {
    && Sized(cfg, st) && LinksOk(st.links)
    && (forall k :: k in st.blocks ==> BlockOk(cfg, st.blocks[k]))
    && (forall h :: h in st.txs ==> TxOk(cfg, st.txs[h]))
  }

  lemma {:induction false} SeenNone(arrivals: seq<Option<int>>)
    requires forall i :: 0 <= i < |arrivals| ==> arrivals[i].None?
    ensures Seen(arrivals) == 0
  {
    if arrivals != [] { SeenNone(arrivals[..|arrivals| - 1]); }
  }

  lemma {:induction false} SeenUpdate(arrivals: seq<Option<int>>, s: nat, t: int)
    requires s < |arrivals| && arrivals[s].None?
    ensures Seen(arrivals[s := Some(t)]) == Seen(arrivals) + 1
  {
    var k := |arrivals| - 1;
    if s < k {
      SeenUpdate(arrivals[..k], s, t);
      assert arrivals[s := Some(t)][..k] == arrivals[..k][s := Some(t)];
    } else {
      assert arrivals[s := Some(t)][..k] == arrivals[..k];
    }
  }

  lemma {:induction false} SeenBounds(arrivals: seq<Option<int>>)
    ensures Seen(arrivals) <= |arrivals|
    ensures Seen(arrivals) == |arrivals| <==> forall i :: 0 <= i < |arrivals| ==> arrivals[i].Some?
    ensures Seen(arrivals) == 0 <==> forall i :: 0 <= i < |arrivals| ==> arrivals[i].None?
  {
    if arrivals != [] {
      var k := |arrivals| - 1;
      SeenBounds(arrivals[..k]);
      assert forall i :: 0 <= i < k ==> arrivals[..k][i] == arrivals[i];
    }
  }

  lemma {:induction false} LatestIsLast(arrivals: seq<Option<int>>, none: int)
    requires exists i :: 0 <= i < |arrivals| && arrivals[i].Some?
    ensures IsLast(arrivals, Latest(arrivals, none))
  {
    var k := |arrivals| - 1;
    var rest := arrivals[..k];
    assert forall i :: 0 <= i < k ==> rest[i] == arrivals[i];
    if exists i :: 0 <= i < k && arrivals[i].Some? {
      assert exists i :: 0 <= i < |rest| && rest[i].Some?;
      LatestIsLast(rest, none);
      assert Some(Latest(rest, none)) in arrivals;
    }
    assert arrivals[k] in arrivals;
  }

  /** A delivery keeps the record consistent; the first one makes it so. */
  lemma DeliverKeeps(cfg: Config, r: BlockRec, s: nat, t: int, p: Payload)
    requires ValidConfig(cfg) && p.Block? && s < Size(cfg)
    requires BlockOk(cfg, r) || r == FreshBlock(Size(cfg), s, t, p.number)
    ensures BlockOk(cfg, Deliver(cfg.minSources, r, s, t, p))
  {
    hide Latest, Seen;
    var r' := Deliver(cfg.minSources, r, s, t, p);
    if r.arrivals[s].None? {
      SeenUpdate(r.arrivals, s, t);
      if !BlockOk(cfg, r) { SeenNone(r.arrivals); }
      assert r'.arrivals[s] == Some(t);
      forall x | x in r.arrivals && x.Some? ensures x in r'.arrivals {
        var i :| 0 <= i < |r.arrivals| && r.arrivals[i] == x;
        assert r'.arrivals[i] == x;
      }
      LatestIsLast(r'.arrivals, t);
    }
  }

  lemma DeliverTxKeeps(cfg: Config, r: TxRec, nitro: bool, s: nat, t: int, p: Payload)
    requires p.Tx? && s < Size(cfg)
    requires TxOk(cfg, r) || r == FreshTx(Size(cfg), t)
    ensures TxOk(cfg, DeliverTx(nitro, r, s, t, p))
  {
    hide Seen;
    var r' := DeliverTx(nitro, r, s, t, p);
    if r.arrivals[s].None? {
      SeenUpdate(r.arrivals, s, t);
      if !TxOk(cfg, r) { SeenNone(r.arrivals); }
      assert r'.arrivals[s] == Some(t);
      forall x | x in r.arrivals && x.Some? ensures x in r'.arrivals {
        var i :| 0 <= i < |r.arrivals| && r.arrivals[i] == x;
        assert r'.arrivals[i] == x;
      }
    }
  }

  lemma LinksKept(l: Links, s: nat, t: int, detail: string)
    requires s < |l.connected| && LinksSized(l, |l.connected|) && LinksOk(l)
    ensures LinksOk(Connect(l, s, t, detail)) && LinksOk(Disconnect(l, s, t))
  {
    if l.connected[s] {
      assert !Disconnect(l, s, t).connected[s];
    } else {
      assert !AllUp(l.connected);
    }
  }

  lemma StepKeeps(cfg: Config, st: State, ev: Event)
    requires ValidConfig(cfg) && Inv(cfg, st) && ev.source < Size(cfg)
    ensures Inv(cfg, Step(cfg, st, ev))
  {
    hide BlockOk, TxOk, LinksOk, Connect, Disconnect, Deliver, DeliverTx;
    var s, p := ev.source, ev.payload;
    match p
    case Connected(detail) => LinksKept(st.links, s, ev.t, detail);
    case Disconnected(_) => LinksKept(st.links, s, ev.t, "");
    case Block(key, number, _, _, _) =>
      var r := if key in st.blocks then st.blocks[key] else FreshBlock(Size(cfg), s, ev.t, number);
      DeliverKeeps(cfg, r, s, ev.t, p);
    case Tx(h, _, _, _, _) =>
      DeliverTxKeeps(cfg, if h in st.txs then st.txs[h] else FreshTx(Size(cfg), ev.t), cfg.nitro[s], s, ev.t, p);
  }

  /** Every run keeps the records and the connection state consistent. */
  lemma {:induction false} RunKeeps(cfg: Config, h: seq<Event>)
    requires ValidConfig(cfg) && ValidHistory(cfg, h)
    ensures Inv(cfg, Run(cfg, h))
    decreases |h|
  {
    hide BlockOk, TxOk, Step;
    if h == [] {
      assert !Init(cfg).links.connected[0];
    } else {
      RunKeeps(cfg, h[..|h| - 1]);
      StepKeeps(cfg, Run(cfg, h[..|h| - 1]), h[|h| - 1]);
    }
  }
}
