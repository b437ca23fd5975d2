/** The Eira adapter: its bounded set of blocks already announced, and why forgetting it never matters. */
module Eira {
  import opened Bytes
  import opened Text
  import opened Records
  import opened Confluence

  const MAX_SEEN := 100_000

  datatype Update =
    | Ack(filters: nat)
    | SourceStatus(commitment: int, up: bool, epoch: nat)
    | Transaction(hash: Hash, commitment: int, feedSequence: nat, blockNumber: nat, swap: bool, rawLen: nat)
    | Other

  /** What the adapter meets: an update with the stamp of its bytes, or the end of a session. */
  datatype Input = Got(t: int, update: Update) | Broken(t: int)

  datatype Session = Session(announced: bool, seen: set<string>)

  /** The number of a block on the feed when it is known, and the key that all sources share. */
  function BlockKey(u: Update): string
    requires u.Transaction?
  {
    if u.feedSequence > 0 then KeyOf("seq:", u.feedSequence) else KeyOf("num:", u.blockNumber)
  }

  function Number(u: Update): Option<nat>
    requires u.Transaction?
  {
    if u.feedSequence > 0 then Some(u.feedSequence) else None
  }

  predicate Accepted(u: Update, wanted: int) {
    u.Transaction? && |u.hash| == 32 && u.commitment == wanted
  }

  function BlockEvent(index: nat, t: int, u: Update): Event
    requires u.Transaction?
  {
    Event(index, t, Block(BlockKey(u), Number(u), None, None, 0))
  }

  function TxEvent(index: nat, t: int, u: Update): Event
    requires u.Transaction?
  {
    Event(index, t, Tx(u.hash, Some(BlockKey(u)), None, u.swap, u.rawLen))
  }

  /** The source behind the server came back or went away. */
  function Upstream(up: bool): Payload {
    if up then Connected("upstream reconnected") else Disconnected("upstream disconnected")
  }

  /** One input: the events sent and the session after it. Without `bounded`, the set of announced blocks is neither
      cleared when it grows nor forgotten with the session: the reference the program is measured against. */
  function Turn(index: nat, wanted: int, s: Session, i: Input, bounded: bool): (seq<Event>, Session) {
    match i
    case Broken(t) => ([Event(index, t, Disconnected("session ended"))], Session(false, if bounded then {} else s.seen))
    case Got(t, Ack(n)) =>
      if s.announced then ([], s) else ([Event(index, t, Connected("filters"))], s.(announced := true))
    case Got(t, SourceStatus(c, up, _)) =>
      if c != wanted || !s.announced then ([], s)
      else ([Event(index, t, Upstream(up))], s)
    case Got(t, Other) => ([], s)
    case Got(t, Transaction(_, _, _, _, _, _)) =>
      var u := i.update;
      if !Accepted(u, wanted) then ([], s)
      else
        var seen := if bounded && |s.seen| > MAX_SEEN then {} else s.seen;
        var key := BlockKey(u);
        ((if key in seen then [] else [BlockEvent(index, t, u)]) + [TxEvent(index, t, u)], s.(seen := seen + {key}))
  }

  function Emitted(index: nat, wanted: int, inputs: seq<Input>, bounded: bool): (seq<Event>, Session)
    decreases |inputs|
  {
    if inputs == [] then ([], Session(false, {}))
    else
      var (evs, s) := Emitted(index, wanted, inputs[..|inputs| - 1], bounded);
      var (more, s') := Turn(index, wanted, s, inputs[|inputs| - 1], bounded);
      (evs + more, s')
  }

  /** The adapter as it runs. */
  class Adapter {
    const index: nat
    const wanted: int
    var announced: bool
    var seenBlocks: set<string>
    var sent: seq<Event>

    constructor (index: nat, wanted: int)
      ensures sent == [] && View() == Session(false, {}) && this.index == index && this.wanted == wanted
    {
      this.index, this.wanted, announced, seenBlocks, sent := index, wanted, false, {}, [];
    }

    ghost function View(): Session
      reads this
    {
      Session(announced, seenBlocks)
    }

    method OnInput(i: Input)
      modifies this
      ensures sent == old(sent) + Turn(index, wanted, old(View()), i, true).0
      ensures View() == Turn(index, wanted, old(View()), i, true).1
      ensures |old(seenBlocks)| <= MAX_SEEN + 1 ==> |seenBlocks| <= MAX_SEEN + 1
    {
      assert sent + [] == sent;
      match i
      case Broken(t) =>
        sent := sent + [Event(index, t, Disconnected("session ended"))];
        announced, seenBlocks := false, {};
      case Got(t, Ack(n)) =>
        if !announced {
          announced := true;
          sent := sent + [Event(index, t, Connected("filters"))];
        }
      case Got(t, SourceStatus(c, up, _)) =>
        if c == wanted && announced {
          sent := sent + [Event(index, t, Upstream(up))];
        }
      case Got(t, Other) =>
      case Got(t, Transaction(_, _, _, _, _, _)) =>
        if Accepted(i.update, wanted) { OnTransaction(t, i.update); }
    }

    /** A transaction, with its block when that has not been announced. */
    method OnTransaction(t: int, u: Update)
      requires Accepted(u, wanted)
      modifies this
      ensures sent == old(sent) + Turn(index, wanted, old(View()), Got(t, u), true).0
      ensures View() == Turn(index, wanted, old(View()), Got(t, u), true).1
      ensures |old(seenBlocks)| <= MAX_SEEN + 1 ==> |seenBlocks| <= MAX_SEEN + 1
    {
      hide BlockKey;
      var key := BlockKey(u);
      if |seenBlocks| > MAX_SEEN { seenBlocks := {}; }
      if key !in seenBlocks {
        seenBlocks := seenBlocks + {key};
        sent := sent + [BlockEvent(index, t, u)];
      } else {
        assert seenBlocks + {key} == seenBlocks;
      }
      sent := sent + [TxEvent(index, t, u)];
    }
  }

  /** The adapter over all of its sessions. */
  method Consume(a: Adapter, inputs: seq<Input>)
    requires a.sent == [] && a.View() == Session(false, {})
    modifies a
    ensures (a.sent, a.View()) == Emitted(a.index, a.wanted, inputs, true)
  {
    hide Turn;
    for k := 0 to |inputs|
      invariant (a.sent, a.View()) == Emitted(a.index, a.wanted, inputs[..k], true)
    {
      a.OnInput(inputs[k]);
      assert inputs[..k + 1][..k] == inputs[..k];
    }
    assert inputs[..|inputs|] == inputs;
  }

  /** The set of announced blocks never exceeds 100001 entries. */
  lemma {:induction false} SeenBounded(index: nat, wanted: int, inputs: seq<Input>)
    ensures |Emitted(index, wanted, inputs, true).1.seen| <= 100_001
    decreases |inputs|
  {
    hide Turn;
    if inputs != [] {
      var s := Emitted(index, wanted, inputs[..|inputs| - 1], true).1;
      SeenBounded(index, wanted, inputs[..|inputs| - 1]);
      TurnBounded(index, wanted, s, inputs[|inputs| - 1]);
    }
  }

  lemma TurnBounded(index: nat, wanted: int, s: Session, i: Input)
    requires |s.seen| <= MAX_SEEN + 1
    ensures |Turn(index, wanted, s, i, true).1.seen| <= MAX_SEEN + 1
  {
    hide BlockKey, BlockEvent, TxEvent;
    if i.Got? && Accepted(i.update, wanted) {
      Adding(s.seen, BlockKey(i.update));
      Adding({}, BlockKey(i.update));
    }
  }

  lemma Adding(seen: set<string>, key: string)
    ensures |seen + {key}| == if key in seen then |seen| else |seen| + 1
  {
    if key in seen { assert seen + {key} == seen; }
  }

  /** Within a session of at most 100000 blocks nothing is forgotten: each block is announced once. */
  lemma {:induction false} FewBlocksKept(index: nat, wanted: int, inputs: seq<Input>)
    requires forall k :: 0 <= k < |inputs| ==> inputs[k].Got?
    requires |Emitted(index, wanted, inputs, false).1.seen| <= 100_000
    ensures Emitted(index, wanted, inputs, true) == Emitted(index, wanted, inputs, false)
    decreases |inputs|
  {
    hide Turn;
    if inputs != [] {
      var front, i := inputs[..|inputs| - 1], inputs[|inputs| - 1];
      var s := Emitted(index, wanted, front, false).1;
      TurnKept(index, wanted, s, i);
      FewBlocksKept(index, wanted, front);
    }
  }

  lemma TurnKept(index: nat, wanted: int, s: Session, i: Input)
    requires i.Got? && |Turn(index, wanted, s, i, false).1.seen| <= 100_000
    ensures |s.seen| <= 100_000 && Turn(index, wanted, s, i, true) == Turn(index, wanted, s, i, false)
  {
    hide BlockKey, BlockEvent, TxEvent;
    if Accepted(i.update, wanted) { Adding(s.seen, BlockKey(i.update)); }
  }

  // ----- redundant block events -----

  /** Has source s already sent a block event with this key and the same description? */
  ghost predicate Announced(h: seq<Event>, ev: Event) {
    exists i :: 0 <= i < |h| && SameBlockEvent(h[i], ev)
  }

  predicate SameBlockEvent(a: Event, b: Event) {
    a.source == b.source && a.payload.Block? && b.payload.Block? && a.payload.key == b.payload.key
    && a.payload.number == b.payload.number && a.payload.hash == b.payload.hash
      && a.payload.txCount == b.payload.txCount
  }

  /** The history without the block events of source s that repeat an earlier one. */
  ghost function Dedupe(h: seq<Event>, s: nat): seq<Event> {
    if h == [] then []
    else
      var front, ev := h[..|h| - 1], h[|h| - 1];
      Dedupe(front, s) + if ev.source == s && Announced(front, ev) then [] else [ev]
  }

  /** What an announced block leaves in its record for good. */
  ghost predicate Absorbed(st: State, ev: Event)
    requires ev.payload.Block?
  {
    var p := ev.payload;
    p.key in st.blocks &&
    var r := st.blocks[p.key];
    && ev.source < |r.arrivals| && r.arrivals[ev.source].Some?
    && (p.number.Some? ==> r.number.Some?) && (p.hash.Some? ==> r.hash.Some?) && (p.txCount.Some? ==> r.txCount.Some?)
  }

  lemma AbsorbStep(cfg: Config, st: State, ev: Event, b: Event)
    requires Sized(cfg, st) && ev.source < Size(cfg) && b.payload.Block?
    requires Absorbed(st, b) || SameBlockEvent(ev, b)
    ensures Absorbed(Step(cfg, st, ev), b)
  {
    hide Latest, Connect, Disconnect, DeliverTx;
  }

  lemma {:induction false} AnnouncedAbsorbed(cfg: Config, h: seq<Event>, b: Event)
    requires ValidHistory(cfg, h) && b.payload.Block? && Announced(h, b)
    ensures Absorbed(Run(cfg, h), b)
    decreases |h|
  {
    hide Step, Absorbed;
    var i :| 0 <= i < |h| && SameBlockEvent(h[i], b);
    var front := h[..|h| - 1];
    if i < |h| - 1 {
      assert SameBlockEvent(front[i], b);
      AnnouncedAbsorbed(cfg, front, b);
    }
    AbsorbStep(cfg, Run(cfg, front), h[|h| - 1], b);
  }

  /** Equal but for the counters of source s. */
  ghost predicate SameRecords(cfg: Config, st: State, st': State, s: nat)
    requires Sized(cfg, st) && Sized(cfg, st') && s < Size(cfg)
  {
    && st.links == st'.links && st.blocks == st'.blocks && st.txs == st'.txs
    && st.counts.txEvents == st'.counts.txEvents && st.counts.rawTxBytes == st'.counts.rawTxBytes
    && (forall i :: 0 <= i < Size(cfg) && i != s ==>
          st.counts.blockEvents[i] == st'.counts.blockEvents[i] && st.counts.wireBytes[i] == st'.counts.wireBytes[i])
  }

  /** A repeated block event changes nothing but its source's counters. */
  lemma RepeatIgnored(cfg: Config, st: State, ev: Event)
    requires Sized(cfg, st) && ev.source < Size(cfg) && ev.payload.Block? && Absorbed(st, ev)
    ensures SameRecords(cfg, Step(cfg, st, ev), st, ev.source)
  {
    hide Latest;
  }

  lemma StepsAlike(cfg: Config, st: State, st': State, s: nat, ev: Event)
    requires Sized(cfg, st) && Sized(cfg, st') && s < Size(cfg) && ev.source < Size(cfg) && SameRecords(cfg, st, st', s)
    ensures SameRecords(cfg, Step(cfg, st, ev), Step(cfg, st', ev), s)
  {
    hide Latest, Connect, Disconnect, Deliver, DeliverTx;
  }

  lemma {:induction false} DedupeValid(cfg: Config, h: seq<Event>, s: nat)
    requires ValidHistory(cfg, h)
    ensures ValidHistory(cfg, Dedupe(h, s))
    decreases |h|
  {
    if h != [] { DedupeValid(cfg, h[..|h| - 1], s); }
  }

  /** Repeated block events of a source change no record, whatever the other sources send in between. */
  lemma {:induction false} RepeatsIgnored(cfg: Config, h: seq<Event>, s: nat)
    requires ValidHistory(cfg, h) && s < Size(cfg) && ValidHistory(cfg, Dedupe(h, s))
    ensures SameRecords(cfg, Run(cfg, h), Run(cfg, Dedupe(h, s)), s)
    decreases |h|
  {
    hide Step, SameRecords, Announced, Absorbed;
    if h == [] {
      Reflexive(cfg, Run(cfg, []), s);
    } else {
      var front, ev := h[..|h| - 1], h[|h| - 1];
      DedupeValid(cfg, front, s);
      RepeatsIgnored(cfg, front, s);
      if ev.source == s && Announced(front, ev) {
        IsBlock(front, ev);
        AnnouncedAbsorbed(cfg, front, ev);
        RepeatIgnored(cfg, Run(cfg, front), ev);
        assert Dedupe(h, s) == Dedupe(front, s);
        Transitive(cfg, Run(cfg, h), Run(cfg, front), Run(cfg, Dedupe(front, s)), s);
      } else {
        StepsAlike(cfg, Run(cfg, front), Run(cfg, Dedupe(front, s)), s, ev);
        RunSnoc(cfg, Dedupe(front, s), ev);
      }
    }
  }

  lemma IsBlock(h: seq<Event>, ev: Event)
    requires Announced(h, ev)
    ensures ev.payload.Block?
  {
  }

  lemma Reflexive(cfg: Config, st: State, s: nat)
    requires Sized(cfg, st) && s < Size(cfg)
    ensures SameRecords(cfg, st, st, s)
  {
  }

  lemma Transitive(cfg: Config, a: State, b: State, c: State, s: nat)
    requires Sized(cfg, a) && Sized(cfg, b) && Sized(cfg, c) && s < Size(cfg)
    requires SameRecords(cfg, a, b, s) && SameRecords(cfg, b, c, s)
    ensures SameRecords(cfg, a, c, s)
  {
  }

  // ----- the bounded set against the unbounded one -----

  /** An event the adapter makes of a transaction's block. */
  ghost predicate Described(ev: Event) {
    exists u: Update :: u.Transaction? && ev == BlockEvent(ev.source, ev.t, u)
  }

  /** Its block events are told apart by their keys. */
  lemma SameKeySameEvent(a: Event, b: Event)
    requires Described(a) && Described(b) && a.source == b.source && a.payload.key == b.payload.key
    ensures SameBlockEvent(a, b)
  {
    var u: Update :| u.Transaction? && a == BlockEvent(a.source, a.t, u);
    var v: Update :| v.Transaction? && b == BlockEvent(b.source, b.t, v);
    KeyInjective(if u.feedSequence > 0 then "seq:" else "num:",
                 if u.feedSequence > 0 then u.feedSequence else u.blockNumber,
                 if v.feedSequence > 0 then "seq:" else "num:",
                 if v.feedSequence > 0 then v.feedSequence else v.blockNumber);
  }

  ghost predicate KeyAnnounced(evs: seq<Event>, key: string) {
    exists i :: 0 <= i < |evs| && evs[i].payload.Block? && evs[i].payload.key == key
  }

  /** The adapter's own events, with what they describe. */
  ghost predicate Own(index: nat, evs: seq<Event>) {
    forall i :: 0 <= i < |evs| ==> evs[i].source == index && (evs[i].payload.Block? ==> Described(evs[i]))
  }

  lemma AnnouncedByKey(index: nat, evs: seq<Event>, ev: Event)
    requires Own(index, evs) && Described(ev) && ev.source == index && ev.payload.Block?
    ensures Announced(evs, ev) <==> KeyAnnounced(evs, ev.payload.key)
  {
    hide Described;
    if KeyAnnounced(evs, ev.payload.key) {
      var i :| 0 <= i < |evs| && evs[i].payload.Block? && evs[i].payload.key == ev.payload.key;
      SameKeySameEvent(evs[i], ev);
    }
  }

  /** How the bounded adapter and the reference stand to each other after the same inputs: the reference has sent what
      the bounded one has sent without its repetitions, and knows exactly the keys that were announced. */
  ghost predicate Related(index: nat, evs: seq<Event>, s: Session, evs': seq<Event>, s': Session) {
    && Own(index, evs) && Dedupe(evs, index) == evs'
    && s.announced == s'.announced && s.seen <= s'.seen
    && forall key :: key in s'.seen <==> KeyAnnounced(evs, key)
  }

  lemma DedupeSnoc(h: seq<Event>, ev: Event, s: nat)
    ensures Dedupe(h + [ev], s) == Dedupe(h, s) + if ev.source == s && Announced(h, ev) then [] else [ev]
  {
    assert (h + [ev])[..|h|] == h;
  }

  lemma OwnSnoc(index: nat, evs: seq<Event>, ev: Event)
    requires Own(index, evs) && ev.source == index && (ev.payload.Block? ==> Described(ev))
    ensures Own(index, evs + [ev])
    ensures forall key ::
              KeyAnnounced(evs + [ev], key) <==>
              KeyAnnounced(evs, key) || (ev.payload.Block? && key == ev.payload.key)
  {
    hide Described;
    forall key
      ensures KeyAnnounced(evs + [ev], key) <==>
              KeyAnnounced(evs, key) || (ev.payload.Block? && key == ev.payload.key)
    {
      assert (evs + [ev])[|evs|] == ev;
      assert forall i :: 0 <= i < |evs| ==> (evs + [ev])[i] == evs[i];
    }
  }

  /** An event that is no block event. */
  lemma RelatedOther(index: nat, evs: seq<Event>, s: Session, evs': seq<Event>, s': Session, ev: Event)
    requires Related(index, evs, s, evs', s') && ev.source == index && !ev.payload.Block?
    ensures Related(index, evs + [ev], s, evs' + [ev], s')
  {
    hide Dedupe, KeyAnnounced, Own;
    OwnSnoc(index, evs, ev);
    DedupeSnoc(evs, ev, index);
    if Announced(evs, ev) { IsBlock(evs, ev); }
  }

  /** A block event of the bounded adapter: sent by the reference too when it is new. */
  lemma RelatedBlock(index: nat, evs: seq<Event>, s: Session, evs': seq<Event>, s': Session, t: int, u: Update,
                     seen: set<string>)
    requires Related(index, evs, s, evs', s') && u.Transaction? && seen <= s'.seen + {BlockKey(u)}
    ensures var b, key := BlockEvent(index, t, u), BlockKey(u);
            Related(index, evs + [b], s.(seen := seen),
                    evs' + (if key in s'.seen then [] else [b]), s'.(seen := s'.seen + {key}))
  {
    hide Dedupe, KeyAnnounced, Own, Announced;
    var b := BlockEvent(index, t, u);
    assert Described(b);
    OwnSnoc(index, evs, b);
    DedupeSnoc(evs, b, index);
    AnnouncedByKey(index, evs, b);
  }

  lemma {:induction false} EmittedRelated(index: nat, wanted: int, inputs: seq<Input>)
    ensures var (evs, s) := Emitted(index, wanted, inputs, true);
            var (evs', s') := Emitted(index, wanted, inputs, false);
            Related(index, evs, s, evs', s')
    decreases |inputs|
  {
    hide Related, BlockKey;
    if inputs == [] {
      NothingSent(index);
    } else {
      var front, i := inputs[..|inputs| - 1], inputs[|inputs| - 1];
      EmittedRelated(index, wanted, front);
      var (evs, s) := Emitted(index, wanted, front, true);
      var (evs', s') := Emitted(index, wanted, front, false);
      TurnRelated(index, wanted, evs, s, evs', s', i);
    }
  }

  lemma NothingSent(index: nat)
    ensures Related(index, [], Session(false, {}), [], Session(false, {}))
  {
  }

  lemma TurnRelated(index: nat, wanted: int, evs: seq<Event>, s: Session, evs': seq<Event>, s': Session, i: Input)
    requires Related(index, evs, s, evs', s')
    ensures var (more, t) := Turn(index, wanted, s, i, true);
            var (more', t') := Turn(index, wanted, s', i, false);
            Related(index, evs + more, t, evs' + more', t')
  {
    hide Dedupe, KeyAnnounced, Own, BlockKey;
    var (more, t) := Turn(index, wanted, s, i, true);
    var (more', t') := Turn(index, wanted, s', i, false);
    if i.Got? && Accepted(i.update, wanted) {
      var u, key := i.update, BlockKey(i.update);
      var kept := if |s.seen| > MAX_SEEN then {} else s.seen;
      var b, x := BlockEvent(index, i.t, u), TxEvent(index, i.t, u);
      if key in kept {
        assert more == [x] == more' && kept + {key} == kept && s'.seen + {key} == s'.seen;
        RelatedOther(index, evs, s, evs', s', x);
      } else {
        assert evs + more == evs + [b] + [x];
        var mid := evs' + if key in s'.seen then [] else [b];
        assert evs' + more' == mid + [x];
        RelatedBlock(index, evs, s, evs', s', i.t, u, kept + {key});
        RelatedOther(index, evs + [b], t, mid, t', x);
      }
    } else if more == [] {
      assert evs + more == evs && evs' + more' == evs';
    } else {
      RelatedOther(index, evs, s, evs', s', more[0]);
      assert more == [more[0]] == more';
    }
  }

  lemma {:induction false} AnnouncedInStream(h: seq<Event>, ev: Event)
    ensures Announced(h, ev) <==> Announced(Stream(h, ev.source), ev)
    decreases |h|
  {
    hide Announced, Stream;
    if h == [] { NoStream(ev.source); }
    if h != [] {
      var front, last := h[..|h| - 1], h[|h| - 1];
      AnnouncedInStream(front, ev);
      assert h == front + [last];
      AnnouncedSnoc(front, last, ev);
      StreamSnoc(front, last, ev.source);
      if last.source == ev.source {
        AnnouncedSnoc(Stream(front, ev.source), last, ev);
      } else {
        assert Stream(front, ev.source) + [] == Stream(front, ev.source);
      }
    }
  }

  lemma NoStream(s: nat)
    ensures Stream([], s) == []
  {
  }

  lemma AnnouncedSnoc(h: seq<Event>, last: Event, ev: Event)
    ensures Announced(h + [last], ev) <==> Announced(h, ev) || SameBlockEvent(last, ev)
  {
    assert (h + [last])[|h|] == last;
    assert forall i :: 0 <= i < |h| ==> (h + [last])[i] == h[i];
  }

  lemma {:induction false} StreamsOfDedupe(h: seq<Event>, s: nat, i: nat)
    ensures Stream(Dedupe(h, s), i) == if i == s then Dedupe(Stream(h, s), s) else Stream(h, i)
    decreases |h|
  {
    hide Announced;
    if h != [] {
      var front, ev := h[..|h| - 1], h[|h| - 1];
      assert h == front + [ev];
      StreamSnoc(front, ev, i);
      StreamsOfDedupe(front, s, i);
      StreamSnoc(Dedupe(front, s), ev, i);
      assert Dedupe(front, s) + [] == Dedupe(front, s) && Stream(front, i) + [] == Stream(front, i);
      if ev.source == s {
        AnnouncedInStream(front, ev);
        DedupeSnoc(Stream(front, s), ev, s);
      }
    }
  }

  /** Its block events carry no bytes. */
  lemma {:induction false} NoBytes(index: nat, wanted: int, inputs: seq<Input>, bounded: bool)
    ensures WireSum(Emitted(index, wanted, inputs, bounded).0) == 0
    decreases |inputs|
  {
    hide Turn;
    if inputs != [] {
      var front, i := inputs[..|inputs| - 1], inputs[|inputs| - 1];
      NoBytes(index, wanted, front, bounded);
      var (evs, s) := Emitted(index, wanted, front, bounded);
      TurnNoBytes(index, wanted, s, i, bounded);
      WireSumConcat(evs, Turn(index, wanted, s, i, bounded).0);
    }
  }

  lemma TurnNoBytes(index: nat, wanted: int, s: Session, i: Input, bounded: bool)
    ensures WireSum(Turn(index, wanted, s, i, bounded).0) == 0
  {
    hide BlockKey;
    var evs := Turn(index, wanted, s, i, bounded).0;
    assert |evs| <= 2 && forall k :: 0 <= k < |evs| ==> evs[k].payload.Block? ==> evs[k].payload.wireLen == 0;
    Weightless(evs);
  }

  lemma {:induction false} Weightless(evs: seq<Event>)
    requires forall k :: 0 <= k < |evs| ==> evs[k].payload.Block? ==> evs[k].payload.wireLen == 0
    ensures WireSum(evs) == 0
  {
    if evs != [] { Weightless(evs[..|evs| - 1]); }
  }

  /** Main result: in any interleaving with the other sources, the program's adapter leaves the collector with the
      same records as one that never forgets a block it has announced, and with the same counters but for the number
      of its own block events. */
  lemma ForgettingIsHarmless(cfg: Config, index: nat, wanted: int, inputs: seq<Input>, h: seq<Event>)
    requires ValidHistory(cfg, h) && index < Size(cfg) && Stream(h, index) == Emitted(index, wanted, inputs, true).0
    ensures var h' := Dedupe(h, index);
            && ValidHistory(cfg, h')
            && Stream(h', index) == Emitted(index, wanted, inputs, false).0
            && (forall i: nat :: i != index ==> Stream(h', i) == Stream(h, i))
            && SameRecords(cfg, Run(cfg, h), Run(cfg, h'), index)
            && Run(cfg, h).counts.wireBytes == Run(cfg, h').counts.wireBytes
  {
    hide SameRecords, Run, Dedupe, Stream, Emitted;
    DedupeValid(cfg, h, index);
    RepeatsIgnored(cfg, h, index);
    EmittedRelated(index, wanted, inputs);
    StreamsOfDedupe(h, index, index);
    forall i: nat | i != index ensures Stream(Dedupe(h, index), i) == Stream(h, i) { StreamsOfDedupe(h, index, i); }
    WireBytesCounted(cfg, h, index);
    WireBytesCounted(cfg, Dedupe(h, index), index);
    NoBytes(index, wanted, inputs, true);
    NoBytes(index, wanted, inputs, false);
    SameBytes(cfg, Run(cfg, h), Run(cfg, Dedupe(h, index)), index);
  }

  lemma SameBytes(cfg: Config, st: State, st': State, s: nat)
    requires Sized(cfg, st) && Sized(cfg, st') && s < Size(cfg) && SameRecords(cfg, st, st', s)
    requires OwnOf(cfg, st, s).wireBytes == OwnOf(cfg, st', s).wireBytes
    ensures st.counts.wireBytes == st'.counts.wireBytes
  {
    var a, b := st.counts.wireBytes, st'.counts.wireBytes;
    assert |a| == |b| == Size(cfg);
    forall i | 0 <= i < |a| ensures a[i] == b[i] {
      if i == s { assert a[i] == OwnOf(cfg, st, s).wireBytes; }
    }
  }
}
