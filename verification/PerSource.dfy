/** What the collector keeps about a source, read off that source's stream: its connection, its reconnects, its counters
    and its deliveries. */
module PerSource {
  import opened Bytes
  import opened Records
  import opened Confluence

  /** Up or down, for the events that say so; the detail that a connect brings. */
  function LinkIn(ev: Event): Option<bool> {
    if ev.payload.Connected? then Some(true) else if ev.payload.Disconnected? then Some(false) else None
  }

  function DetailIn(ev: Event): Option<string> {
    if ev.payload.Connected? then Some(ev.payload.detail) else None
  }

  /** Connects that follow a disconnect, not counting the first connect of all. */
  function Reconnects(own: seq<Event>): nat {
    if own == [] then 0
    else
      var front, ev := own[..|own| - 1], own[|own| - 1];
      Reconnects(front) +
        if ev.payload.Connected? && Last(front, LinkIn) == Some(false) && First(front, DetailIn).Some? then 1 else 0
  }

  function Sum(own: seq<Event>, f: Event -> nat): nat {
    if own == [] then 0 else Sum(own[..|own| - 1], f) + f(own[|own| - 1])
  }

  function OneBlock(ev: Event): nat { if ev.payload.Block? then 1 else 0 }
  function OneTx(ev: Event): nat { if ev.payload.Tx? then 1 else 0 }
  function WireLen(ev: Event): nat { if ev.payload.Block? then ev.payload.wireLen else 0 }
  function RawLen(ev: Event): nat { if ev.payload.Tx? then ev.payload.rawLen else 0 }

  ghost predicate Tells(own: seq<Event>, o: Own) {
    && o.connected == (Last(own, LinkIn) == Some(true)) && o.ever == First(own, DetailIn).Some?
    && o.detail == (if Last(own, DetailIn).Some? then Last(own, DetailIn).value else "")
    && o.reconnects == Reconnects(own)
    && o.blockEvents == Sum(own, OneBlock) && o.txEvents == Sum(own, OneTx)
    && o.wireBytes == Sum(own, WireLen) && o.rawTxBytes == Sum(own, RawLen)
  }

  /** In every run a source is connected exactly when the last connect or disconnect of its stream is a connect; its
      detail is that of its last connect; its reconnects are the connects of its stream that follow a disconnect, but
      for the first connect; and its counters count the events and bytes of its stream, duplicates included. */
  lemma {:induction false} StreamTells(cfg: Config, h: seq<Event>, s: nat)
    requires ValidHistory(cfg, h) && s < Size(cfg)
    ensures Tells(Stream(h, s), OwnOf(cfg, Run(cfg, h), s))
    decreases |h|
  {
    hide Step, OwnOf, Tells;
    if h == [] {
      NothingTold(cfg, s);
    } else {
      var front, ev := h[..|h| - 1], h[|h| - 1];
      StreamTells(cfg, front, s);
      if ev.source == s {
        TellStep(cfg, Run(cfg, front), Stream(front, s), ev);
      } else {
        OthersUntouched(cfg, Run(cfg, front), ev, s, "", []);
        assert Stream(h, s) == Stream(front, s);
      }
    }
  }

  lemma NothingTold(cfg: Config, s: nat)
    requires s < Size(cfg)
    ensures Tells([], OwnOf(cfg, Run(cfg, []), s))
  {
  }

  lemma TellStep(cfg: Config, st: State, own: seq<Event>, ev: Event)
    requires Sized(cfg, st) && ev.source < Size(cfg) && Tells(own, OwnOf(cfg, st, ev.source))
    ensures Tells(own + [ev], OwnOf(cfg, Step(cfg, st, ev), ev.source))
  {
    hide Step, Sum, OwnOf, Last, First, Reconnects;
    SumNext(own, ev);
    LinksNext(own, ev);
    if ev.payload.Block? {
      OwnEventBlock(cfg, st, ev, "", []);
    } else if ev.payload.Tx? {
      OwnEventTx(cfg, st, ev, "", []);
    } else {
      LinkStep(cfg, st, ev);
      UpOnceConnected(own);
      var link := Last(own, LinkIn);
      assert link.Some? ==> link.value == true || link.value == false;
    }
  }

  lemma {:induction false} UpOnceConnected(own: seq<Event>)
    ensures Last(own, LinkIn) == Some(true) ==> First(own, DetailIn).Some?
    ensures Last(own, LinkIn).None? ==> First(own, DetailIn).None?
  {
    if own != [] { UpOnceConnected(own[..|own| - 1]); }
  }

  /** What a connect or a disconnect does to the part of its source. */
  lemma LinkStep(cfg: Config, st: State, ev: Event)
    requires Sized(cfg, st) && ev.source < Size(cfg) && (ev.payload.Connected? || ev.payload.Disconnected?)
    ensures var o := OwnOf(cfg, st, ev.source);
            OwnOf(cfg, Step(cfg, st, ev), ev.source) ==
              if ev.payload.Disconnected? then o.(connected := false)
              else
                o.(connected := true, ever := !o.connected || o.ever, detail := ev.payload.detail,
                   reconnects := o.reconnects + if !o.connected && o.ever then 1 else 0)
  {
  }

  lemma LinksNext(own: seq<Event>, ev: Event)
    ensures Last(own + [ev], LinkIn) == OrElse(LinkIn(ev), Last(own, LinkIn))
    ensures First(own + [ev], DetailIn) == OrElse(First(own, DetailIn), DetailIn(ev))
    ensures Last(own + [ev], DetailIn) == OrElse(DetailIn(ev), Last(own, DetailIn))
    ensures Reconnects(own + [ev]) == Reconnects(own) +
              if ev.payload.Connected? && Last(own, LinkIn) == Some(false) && First(own, DetailIn).Some? then 1 else 0
  {
    assert (own + [ev])[..|own|] == own;
  }

  lemma SumNext(own: seq<Event>, ev: Event)
    ensures Sum(own + [ev], OneBlock) == Sum(own, OneBlock) + OneBlock(ev)
    ensures Sum(own + [ev], OneTx) == Sum(own, OneTx) + OneTx(ev)
    ensures Sum(own + [ev], WireLen) == Sum(own, WireLen) + WireLen(ev)
    ensures Sum(own + [ev], RawLen) == Sum(own, RawLen) + RawLen(ev)
  {
    assert (own + [ev])[..|own|] == own;
  }

  // ----- transactions -----

  function TxStampOf(tx: Hash): Event -> Option<int> {
    (ev: Event) => if ev.payload.Tx? && ev.payload.tx == tx then Some(ev.t) else None
  }

  /** A transaction's arrival at a source is the stamp of that source's first delivery of it. */
  lemma {:induction false} TxFirstDeliveryWins(cfg: Config, h: seq<Event>, s: nat, tx: Hash)
    requires ValidHistory(cfg, h) && s < Size(cfg)
    ensures TxArrivalOf(cfg, Run(cfg, h), tx, s) == First(Stream(h, s), TxStampOf(tx))
    decreases |h|
  {
    hide Step, ArrivalOf, OwnOf, TxArrivalOf;
    if h == [] {
      NoTxArrived(cfg, tx, s);
    } else {
      var front, ev := h[..|h| - 1], h[|h| - 1];
      TxFirstDeliveryWins(cfg, front, s, tx);
      TxArrivalStep(cfg, Run(cfg, front), ev, s, tx);
      if ev.source == s {
        assert Stream(h, s)[..|Stream(front, s)|] == Stream(front, s);
      } else {
        assert Stream(h, s) == Stream(front, s);
      }
    }
  }

  lemma NoTxArrived(cfg: Config, tx: Hash, s: nat)
    requires s < Size(cfg)
    ensures TxArrivalOf(cfg, Run(cfg, []), tx, s).None?
  {
  }

  lemma TxArrivalStep(cfg: Config, st: State, ev: Event, s: nat, tx: Hash)
    requires Sized(cfg, st) && ev.source < Size(cfg) && s < Size(cfg)
    ensures TxArrivalOf(cfg, Step(cfg, st, ev), tx, s) ==
            OrElse(TxArrivalOf(cfg, st, tx, s),
                   if ev.source == s && ev.payload.Tx? && ev.payload.tx == tx then Some(ev.t) else None)
  {
    if ev.source != s {
      hide Step, TxArrivalOf;
      OthersUntouched(cfg, st, ev, s, "", tx);
    } else if ev.payload.Tx? {
      hide Step, TxArrivalOf;
      OwnEventTx(cfg, st, ev, "", tx);
    } else {
      hide Latest, Deliver, Connect, Disconnect, DeliverTx;
    }
  }
}
