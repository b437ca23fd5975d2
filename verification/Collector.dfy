/** The collector as the program runs it: an object that every event updates in place. */
module Collector {
  import opened Bytes
  import opened Records

  /** What `on_event` hands back for printing. */
  datatype Notice =
    | NowConnected(source: nat, detail: string, reconnect: bool)
    | NowDisconnected(source: nat, reason: string)
    | BlockLine(key: string, number: Option<nat>, shown: string, delays: seq<Option<int>>, winner: nat)

  /** The line of a block that has just completed: each source's delay behind the winner. */
  function LineOf(key: string, r: BlockRec): Notice
    requires r.firstSrc < |r.arrivals|
  {
    BlockLine(key, r.number, if r.hash.Some? then r.hash.value else key,
              seq(|r.arrivals|, i requires 0 <= i < |r.arrivals| =>
                if r.arrivals[i].Some? then Some(r.arrivals[i].value - r.first) else None),
              r.firstSrc)
  }

  ghost function BlockBefore(cfg: Config, st: State, ev: Event): BlockRec
    requires ev.payload.Block?
  {
    if ev.payload.key in st.blocks then st.blocks[ev.payload.key]
    else FreshBlock(Size(cfg), ev.source, ev.t, ev.payload.number)
  }

  /** The notice that an event causes in a state. */
  ghost function NoticeOf(cfg: Config, st: State, ev: Event): Option<Notice>
    requires ValidConfig(cfg) && Inv(cfg, st) && ev.source < Size(cfg)
  {
    var s := ev.source;
    match ev.payload
    case Connected(detail) =>
      if st.links.connected[s] then None else Some(NowConnected(s, detail, st.links.ever[s]))
    case Disconnected(reason) =>
      if st.links.connected[s] then Some(NowDisconnected(s, reason)) else None
    case Tx(_, _, _, _, _) => None
    case Block(key, _, _, _, _) =>
      var r := BlockBefore(cfg, st, ev);
      if r.arrivals[s].Some? || r.seen + 1 != cfg.minSources then None
      else
        DeliverKeeps(cfg, r, s, ev.t, ev.payload);
        Some(LineOf(key, Deliver(cfg.minSources, r, s, ev.t, ev.payload)))
  }

  class Collector {
    const cfg: Config
    var blocks: map<string, BlockRec>
    var txs: map<Hash, TxRec>
    var connected: seq<bool>
    var ever: seq<bool>
    var reconnects: seq<nat>
    var details: seq<string>
    var txEvents: seq<nat>
    var blockEvents: seq<nat>
    var wireBytes: seq<nat>
    var rawTxBytes: seq<nat>
    var allUp: seq<Interval>

    ghost function View(): State
      reads this
    {
      State(Links(connected, ever, reconnects, details, allUp), Counts(txEvents, blockEvents, wireBytes, rawTxBytes),
            blocks, txs)
    }

    ghost predicate Valid()
      reads this
    {
      ValidConfig(cfg) && Inv(cfg, View())
    }

    /** `Collector::new`, which clamps the threshold. */
    constructor (nitro: seq<bool>, reference: nat, minSources: nat, warmup: nat, start: int)
      requires reference < |nitro|
      ensures Valid() && View() == Init(cfg)
      ensures cfg == Config(nitro, reference, cfg.minSources, warmup, start)
      ensures cfg.minSources == if minSources < 1 then 1 else if minSources > |nitro| then |nitro| else minSources
    {
      var n := |nitro|;
      cfg := Config(nitro, reference,
                    if minSources < 1 then 1 else if minSources > n then n else minSources, warmup, start);
      blocks, txs, allUp := map[], map[], [];
      connected, ever := Repeat(n, false), Repeat(n, false);
      reconnects, details := Repeat(n, 0), Repeat(n, "");
      txEvents, blockEvents := Repeat(n, 0), Repeat(n, 0);
      wireBytes, rawTxBytes := Repeat(n, 0), Repeat(n, 0);
      new;
      RunKeeps(cfg, []);
    }

    /** `on_event` */
    method OnEvent(ev: Event) returns (notice: Option<Notice>)
      requires Valid() && ev.source < Size(cfg)
      modifies this
      ensures Valid() && View() == Step(cfg, old(View()), ev)
      ensures notice == NoticeOf(cfg, old(View()), ev)
    {
      StepKeeps(cfg, View(), ev);
      match ev.payload
      case Connected(detail) => notice := OnConnected(ev.source, ev.t, detail);
      case Disconnected(reason) => notice := OnDisconnected(ev.source, ev.t, reason);
      case Block(_, _, _, _, _) => notice := OnBlock(ev);
      case Tx(_, _, _, _, _) => OnTx(ev); notice := None;
    }

    method OnConnected(s: nat, t: int, detail: string) returns (notice: Option<Notice>)
      requires Valid() && s < Size(cfg)
      modifies this
      ensures View() == old(View()).(links := Connect(old(View()).links, s, t, detail))
      ensures notice == if old(connected[s]) then None else Some(NowConnected(s, detail, old(ever[s])))
    {
      hide BlockOk, TxOk, LinksOk, AllUp;
      if connected[s] {
        details := details[s := detail];
        return None;
      }
      var reconnect := ever[s];
      if reconnect { reconnects := reconnects[s := reconnects[s] + 1]; }
      connected := connected[s := true];
      ever := ever[s := true];
      details := details[s := detail];
      if AllUp(connected) && (allUp == [] || allUp[|allUp| - 1].b.Some?) {
        allUp := allUp + [Interval(t, None)];
      }
      return Some(NowConnected(s, detail, reconnect));
    }

    method OnDisconnected(s: nat, t: int, reason: string) returns (notice: Option<Notice>)
      requires Valid() && s < Size(cfg)
      modifies this
      ensures View() == old(View()).(links := Disconnect(old(View()).links, s, t))
      ensures notice == if old(connected[s]) then Some(NowDisconnected(s, reason)) else None
    {
      if !connected[s] { return None; }
      connected := connected[s := false];
      var k := |allUp| - 1;
      if k >= 0 && allUp[k].b.None? { allUp := allUp[k := Interval(allUp[k].a, Some(t))]; }
      return Some(NowDisconnected(s, reason));
    }

    /** A block delivery applied to its record; says whether it completed the block. */
    method CountBlock(r: BlockRec, s: nat, t: int, p: Payload) returns (rec: BlockRec, done: bool)
      requires p.Block? && s < |r.arrivals|
      ensures rec == Deliver(cfg.minSources, r, s, t, p)
      ensures done <==> r.arrivals[s].None? && r.seen + 1 == cfg.minSources
    {
      hide Latest;
      rec := r;
      if rec.number.None? { rec := rec.(number := p.number); }
      if rec.hash.None? { rec := rec.(hash := p.hash); }
      if rec.txCount.None? { rec := rec.(txCount := p.txCount); }
      if rec.arrivals[s].Some? { return rec, false; }
      rec := rec.(arrivals := rec.arrivals[s := Some(t)], seen := rec.seen + 1);
      if t < rec.first { rec := rec.(first := t, firstSrc := s); }
      done := rec.seen == cfg.minSources;
      if done { rec := rec.(completedAt := Some(Latest(rec.arrivals, t))); }
    }

    method OnBlock(ev: Event) returns (notice: Option<Notice>)
      requires Valid() && ev.source < Size(cfg) && ev.payload.Block?
      modifies this
      ensures View() == Step(cfg, old(View()), ev)
      ensures notice == NoticeOf(cfg, old(View()), ev)
    {
      hide Deliver, TxOk, LinksOk, LineOf, IsFirst, IsLast, Seen;
      var s, key := ev.source, ev.payload.key;
      blockEvents := Bump(blockEvents, s, 1);
      wireBytes := Bump(wireBytes, s, ev.payload.wireLen);
      var rec := if key in blocks then blocks[key] else FreshBlock(Size(cfg), s, ev.t, ev.payload.number);
      DeliverKeeps(cfg, rec, s, ev.t, ev.payload);
      var done;
      rec, done := CountBlock(rec, s, ev.t, ev.payload);
      blocks := blocks[key := rec];
      notice := if done then Some(LineOf(key, rec)) else None;
    }

    /** A transaction delivery applied to its record. */
    method CountTx(r: TxRec, s: nat, t: int, p: Payload) returns (rec: TxRec)
      requires p.Tx? && s < |r.arrivals| && s < Size(cfg)
      ensures rec == DeliverTx(cfg.nitro[s], r, s, t, p)
    {
      var fromNitro := cfg.nitro[s];
      rec := r;
      if p.blockKey.Some? && (rec.blockKey.None? || (fromNitro && !rec.fromNitro)) {
        rec := rec.(blockKey := p.blockKey, fromNitro := fromNitro);
      }
      if fromNitro && p.inBlock.Some? { rec := rec.(txCount := p.inBlock); }
      rec := rec.(swap := rec.swap || p.swap);
      if rec.arrivals[s].Some? { return; }
      rec := rec.(arrivals := rec.arrivals[s := Some(t)], seen := rec.seen + 1);
      if t < rec.first { rec := rec.(first := t); }
    }

    method OnTx(ev: Event)
      requires Valid() && ev.source < Size(cfg) && ev.payload.Tx?
      modifies this
      ensures View() == Step(cfg, old(View()), ev)
    {
      hide DeliverTx, BlockOk, TxOk, LinksOk;
      var s, h := ev.source, ev.payload.tx;
      txEvents := Bump(txEvents, s, 1);
      rawTxBytes := Bump(rawTxBytes, s, ev.payload.rawLen);
      var rec := if h in txs then txs[h] else FreshTx(Size(cfg), ev.t);
      rec := CountTx(rec, s, ev.t, ev.payload);
      txs := txs[h := rec];
    }
  }

  // ----- one line per completed block -----

  /** Lines printed for block `key` over a history. */
  ghost function Lines(cfg: Config, h: seq<Event>, key: string): nat
    requires ValidConfig(cfg) && ValidHistory(cfg, h)
  {
    if h == [] then 0
    else
      var front, ev := h[..|h| - 1], h[|h| - 1];
      RunKeeps(cfg, front);
      var notice := NoticeOf(cfg, Run(cfg, front), ev);
      Lines(cfg, front, key) + if notice.Some? && notice.value.BlockLine? && notice.value.key == key then 1 else 0
  }

  /** The collector's loop: events in the order in which the channel delivers them. */
  method Consume(c: Collector, h: seq<Event>)
    requires c.Valid() && c.View() == Init(c.cfg) && ValidHistory(c.cfg, h)
    modifies c
    ensures c.Valid() && c.View() == Run(c.cfg, h)
  {
    hide Step, Init;
    NothingYet(c.cfg);
    for k := 0 to |h|
      invariant c.Valid() && ValidHistory(c.cfg, h[..k]) && c.View() == Run(c.cfg, h[..k])
    {
      var notice := c.OnEvent(h[k]);
      RunSnoc(c.cfg, h[..k], h[k]);
      assert h[..k + 1] == h[..k] + [h[k]];
    }
    assert h[..|h|] == h;
  }

  lemma NothingYet(cfg: Config)
    ensures ValidHistory(cfg, []) && Run(cfg, []) == Init(cfg)
  {
  }

  /** In every run, a block that completed was announced exactly once, and no other block was. */
  lemma {:induction false} OneLinePerBlock(cfg: Config, h: seq<Event>, key: string)
    requires ValidConfig(cfg) && ValidHistory(cfg, h)
    ensures var st := Run(cfg, h);
            Lines(cfg, h, key) == if key in st.blocks && st.blocks[key].completedAt.Some? then 1 else 0
    decreases |h|
  {
    if h != [] {
      var front, ev := h[..|h| - 1], h[|h| - 1];
      OneLinePerBlock(cfg, front, key);
      RunKeeps(cfg, front);
      LineWhenCompleting(cfg, Run(cfg, front), ev, key);
    }
  }

  ghost predicate Complete(st: State, key: string) {
    key in st.blocks && st.blocks[key].completedAt.Some?
  }

  lemma LineWhenCompleting(cfg: Config, st: State, ev: Event, key: string)
    requires ValidConfig(cfg) && Inv(cfg, st) && ev.source < Size(cfg)
    ensures var notice := NoticeOf(cfg, st, ev);
            && (Complete(st, key) ==> Complete(Step(cfg, st, ev), key))
            && (notice.Some? && notice.value.BlockLine? && notice.value.key == key
                <==> !Complete(st, key) && Complete(Step(cfg, st, ev), key))
  {
    hide Latest, Seen, Connect, Disconnect, DeliverTx, TxOk, LinksOk;
    if ev.payload.Block? {
      var r := BlockBefore(cfg, st, ev);
      DeliverKeeps(cfg, r, ev.source, ev.t, ev.payload);
    }
  }

  /** In a printed line no delay is negative, and the winner's is zero. */
  lemma LineDelays(cfg: Config, key: string, r: BlockRec)
    requires BlockOk(cfg, r)
    ensures var line := LineOf(key, r);
            && |line.delays| == Size(cfg) && line.delays[line.winner] == Some(0)
            && forall i :: 0 <= i < |line.delays| && line.delays[i].Some? ==> line.delays[i].value >= 0
  {
  }
}
