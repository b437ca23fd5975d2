/** What the collector prints, read off the history: the line of a block that completes, connects and disconnects. */
module Notices {
  import opened Bytes
  import opened Records
  import opened Confluence
  import opened Interleaving
  import opened PerSource
  import opened Collector

  /** What `on_event` answers to an event after a history. */
  ghost function Answer(cfg: Config, h: seq<Event>, ev: Event): Option<Notice>
    requires ValidConfig(cfg) && ValidHistory(cfg, h) && ev.source < Size(cfg)
  {
    RunKeeps(cfg, h);
    NoticeOf(cfg, Run(cfg, h), ev)
  }

  /** The sources that have delivered the block. */
  ghost function DeliveredBy(cfg: Config, h: seq<Event>, key: string): set<nat> {
    set i: nat | i < Size(cfg) && FirstDelivery(Stream(h, i), key).Some?
  }

  /** `t` is the stamp at which source i first delivered the block, and no source delivered it earlier. */
  ghost predicate Earliest(cfg: Config, h: seq<Event>, key: string, i: nat, t: int) {
    && i < Size(cfg) && FirstDelivery(Stream(h, i), key) == Some(t)
    && forall j: nat :: j in DeliveredBy(cfg, h, key) ==> t <= FirstDelivery(Stream(h, j), key).value
  }

  /** The line says what the history does: the first number and hash that any delivery named, the key if there is no
      hash; for each source the delay of its first delivery behind the earliest one of all, if it delivered the block;
      and a source whose delivery is the earliest. */
  ghost predicate LineTells(cfg: Config, h: seq<Event>, key: string, line: Notice) {
    && line.BlockLine? && line.key == key && line.number == First(h, NumberIn(key))
    && line.shown == (if First(h, HashIn(key)).Some? then First(h, HashIn(key)).value else key)
    && |line.delays| == Size(cfg)
    && exists first :: Earliest(cfg, h, key, line.winner, first)
         && forall i: nat :: i < Size(cfg) ==>
              line.delays[i] == if i !in DeliveredBy(cfg, h, key) then None
                                else Some(FirstDelivery(Stream(h, i), key).value - first)
  }

  lemma {:induction false} SeenIs(arrivals: seq<Option<int>>)
    ensures Seen(arrivals) == |set i: nat | i < |arrivals| && arrivals[i].Some?|
  {
    if arrivals != [] {
      var k := |arrivals| - 1;
      var a, b := set i: nat | i < k && arrivals[..k][i].Some?, set i: nat | i < |arrivals| && arrivals[i].Some?;
      SeenIs(arrivals[..k]);
      assert b == if arrivals[k].Some? then a + {k} else a;
    }
  }

  lemma ArrivalsAre(cfg: Config, h: seq<Event>, key: string)
    requires ValidConfig(cfg) && ValidHistory(cfg, h) && key in Run(cfg, h).blocks
    ensures var r := Run(cfg, h).blocks[key];
            && |r.arrivals| == Size(cfg) && r.seen == |DeliveredBy(cfg, h, key)|
            && (forall i: nat :: i < Size(cfg) ==> r.arrivals[i] == FirstDelivery(Stream(h, i), key))
            && Earliest(cfg, h, key, r.firstSrc, r.first)
  {
    hide Run, Stream, FirstDelivery, Seen, TxOk, LinksOk;
    RunKeeps(cfg, h);
    var r := Run(cfg, h).blocks[key];
    assert BlockOk(cfg, r);
    forall i: nat | i < Size(cfg) ensures r.arrivals[i] == FirstDelivery(Stream(h, i), key) {
      FirstDeliveryWins(cfg, h, i, key);
    }
    SeenIs(r.arrivals);
    assert DeliveredBy(cfg, h, key) == set i: nat | i < |r.arrivals| && r.arrivals[i].Some?;
  }

  /** Over every run: an event is answered with a block line exactly when it is its source's first delivery of a block
      and the sources that have delivered the block are then as many as complete it; and the line tells what
      the history does. */
  lemma BlockLines(cfg: Config, h: seq<Event>, ev: Event)
    requires ValidConfig(cfg) && ValidHistory(cfg, h) && ev.source < Size(cfg) && ev.payload.Block?
    ensures ValidHistory(cfg, h + [ev])
    ensures var key, notice := ev.payload.key, Answer(cfg, h, ev);
            && (notice.Some? <==>
                  && FirstDelivery(Stream(h, ev.source), key).None?
                  && |DeliveredBy(cfg, h + [ev], key)| == cfg.minSources)
            && (notice.Some? ==> LineTells(cfg, h + [ev], key, notice.value))
  {
    hide Run, Stream, FirstDelivery, First, Inv, Latest, Deliver, Earliest, LineTells, NumberIn, HashIn, CountIn;
    RunKeeps(cfg, h);
    RunSnoc(cfg, h, ev);
    var key, st, all := ev.payload.key, Run(cfg, h), h + [ev];
    var before := BlockBefore(cfg, st, ev);
    BlockDelivered(cfg, st, ev, before);
    FirstDeliveryWins(cfg, h, ev.source, key);
    ArrivalsAre(cfg, all, key);
    DeliveredSizes(cfg, st, ev);
    LineOfRecord(cfg, all, key);
  }

  /** The line made from a block's record tells the history. */
  lemma LineOfRecord(cfg: Config, h: seq<Event>, key: string)
    requires ValidConfig(cfg) && ValidHistory(cfg, h) && key in Run(cfg, h).blocks
    ensures var r := Run(cfg, h).blocks[key];
            r.firstSrc < |r.arrivals| && LineTells(cfg, h, key, LineOf(key, r))
  {
    hide Run, Stream, FirstDelivery, First, Earliest, NumberIn, HashIn, CountIn;
    var r := Run(cfg, h).blocks[key];
    ArrivalsAre(cfg, h, key);
    BlockTakesFirst(cfg, h, key);
    assert r.firstSrc < Size(cfg) by { EarliestIsSource(cfg, h, key, r.firstSrc, r.first); }
    var line := LineOf(key, r);
    forall i: nat | i < Size(cfg)
      ensures line.delays[i] == if i !in DeliveredBy(cfg, h, key) then None
                                else Some(FirstDelivery(Stream(h, i), key).value - r.first)
    {
      assert r.arrivals[i] == FirstDelivery(Stream(h, i), key);
    }
  }

  lemma EarliestIsSource(cfg: Config, h: seq<Event>, key: string, i: nat, t: int)
    requires Earliest(cfg, h, key, i, t)
    ensures i < Size(cfg)
  {
  }

  lemma DeliveredSizes(cfg: Config, st: State, ev: Event)
    requires ValidConfig(cfg) && Inv(cfg, st) && ev.source < Size(cfg) && ev.payload.Block?
    ensures var r := BlockBefore(cfg, st, ev);
            && |r.arrivals| == Size(cfg) && r.arrivals[ev.source] == ArrivalOf(cfg, st, ev.payload.key, ev.source)
            && (r.arrivals[ev.source].None? ==>
                  Deliver(cfg.minSources, r, ev.source, ev.t, ev.payload).seen == r.seen + 1)
            && Deliver(cfg.minSources, r, ev.source, ev.t, ev.payload).firstSrc < Size(cfg)
  {
    DeliverKeeps(cfg, BlockBefore(cfg, st, ev), ev.source, ev.t, ev.payload);
  }

  /** A connect is reported when the source was not connected, as a reconnect if it had been before; a disconnect when
      it was connected; a transaction never. */
  lemma LinkNotices(cfg: Config, h: seq<Event>, ev: Event)
    requires ValidConfig(cfg) && ValidHistory(cfg, h) && ev.source < Size(cfg) && !ev.payload.Block?
    ensures var own := Stream(h, ev.source);
            Answer(cfg, h, ev) ==
              if ev.payload.Connected? && Last(own, LinkIn) != Some(true) then
                Some(NowConnected(ev.source, ev.payload.detail, First(own, DetailIn).Some?))
              else if ev.payload.Disconnected? && Last(own, LinkIn) == Some(true) then
                Some(NowDisconnected(ev.source, ev.payload.reason))
              else None
  {
    hide Run, Stream, First, Last, Inv, Reconnects, Sum;
    RunKeeps(cfg, h);
    StreamTells(cfg, h, ev.source);
  }
}
