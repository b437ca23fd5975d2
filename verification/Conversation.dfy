/** Whole sessions: any conversation a server sends, cut into reads in any way, arrives as it was meant, and every
    byte received is accounted for once. */
module Conversation {
  import opened Bytes
  import opened Frames
  import opened Receive
  import opened Reassembly

  /** The messages a server sends one after the other. */
  function Stream(ts: seq<Train>): seq<Byte> {
    if ts == [] then [] else EncodeAll(ts[0]) + Stream(ts[1..])
  }

  ghost predicate GoodMessage<C>(s: Setup<C>, c: Conn<C>, t: Train) {
    && OneMessage(t, false) && ControlsFit(t, s.max)
    && |Payload(t)| <= s.max && (Compressed(t) ==> c.ctx.Some?)
  }

  /** What the caller and the server are owed for a conversation: for each message the pongs and then the payload,
      inflated if compressed, with the inflater's context carried from message to message. */
  function Transcript<C>(s: Setup<C>, ctx: Option<C>, ts: seq<Train>): (seq<Output>, End<C>)
    decreases |ts|
  {
    if ts == [] then ([], Waiting(Conn(None, ctx), []))
    else if Compressed(ts[0]) && ctx.None? then ([], Failed(NotNegotiated))
    else
      var (ctx', data) :=
        if Compressed(ts[0]) then Inflated(s, ctx.value, Payload(ts[0])) else (ctx, Some(Payload(ts[0])));
      if data.None? then (Pongs(ts[0]), Failed(InflateFailed))
      else
        var (outs, end) := Transcript(s, ctx', ts[1..]);
        (Pongs(ts[0]) + [Deliver(data.value, DataLen(ts[0]))] + outs, end)
  }

  function Inflated<C>(s: Setup<C>, ctx: C, payload: seq<Byte>): (Option<C>, Option<seq<Byte>>) {
    var (ctx', data) := s.inflate(ctx, payload);
    (Some(ctx'), data)
  }

  lemma {:induction false} Conversed<C>(s: Setup<C>, c: Conn<C>, ts: seq<Train>, at: nat)
    requires c.open.None? && forall i :: 0 <= i < |ts| ==> GoodMessage(s, c, ts[i])
    ensures var d := Drain(s, c, Stream(ts), at);
            (Outs(d.outs), d.end) == Transcript(s, c.ctx, ts)
    decreases |ts|
  {
    hide Take, OnFrame, EncodeAll, Drain, Payload, Pongs, DataLen, Compressed, OneMessage, ControlsFit;
    if ts == [] {
      DrainNothing(s, c, at);
    } else {
      var t, tail := ts[0], Stream(ts[1..]);
      assert GoodMessage(s, c, t);
      assert [] + Payload(t) == Payload(t) && c.(open := None) == c;
      var c' := c;
      if Compressed(t) {
        InflatedDelivered(s, c, t, tail, at);
        c' := Conn(None, Inflated(s, c.ctx.value, Payload(t)).0);
      } else {
        PlainDelivered(s, c, t, tail, at);
      }
      forall i | 0 <= i < |ts[1..]| ensures GoodMessage(s, c', ts[1..][i]) {
        assert GoodMessage(s, c, ts[i + 1]);
      }
      Conversed(s, c', ts[1..], at + |EncodeAll(t)|);
    }
  }

  lemma DrainNothing<C>(s: Setup<C>, c: Conn<C>, at: nat)
    ensures Drain(s, c, [], at) == Drained([], Waiting(c, []))
  {
  }

  /** Round trip over whole sessions: however the conversation is cut into reads, the session delivers exactly its
      transcript, and ends waiting with nothing left over unless the inflater fails. */
  lemma SessionRoundTrip<C>(s: Setup<C>, c: Conn<C>, ts: seq<Train>, last: int, chunks: seq<Read>)
    requires c.open.None? && forall i :: 0 <= i < |ts| ==> GoodMessage(s, c, ts[i])
    requires NonEmpty(chunks) && Flat(chunks) == Stream(ts)
    ensures var f := Feed(s, c, [], last, chunks);
            (Outputs(f.outs), f.end) == Transcript(s, c.ctx, ts)
  {
    hide Drain, Feed, Transcript;
    assert [] + Flat(chunks) == Flat(chunks);
    ChunkingIndependence(s, c, [], last, chunks);
    Conversed(s, c, ts, 0);
    var f, d := Feed(s, c, [], last, chunks), Drain(s, c, Stream(ts), 0);
    assert Outputs(f.outs) == Outs(d.outs);
  }

  /** The messages among the outputs. */
  function Delivered(outs: seq<Output>): seq<Output> {
    if outs == [] then []
    else (if outs[0].Deliver? then [outs[0]] else []) + Delivered(outs[1..])
  }

  /** Without compression, the messages of a session are the payloads of the conversation, one for one and in order,
      however it is cut into reads; and nothing is left over. */
  lemma PlainSession<C>(s: Setup<C>, c: Conn<C>, ts: seq<Train>, last: int, chunks: seq<Read>)
    requires c.open.None? && forall i :: 0 <= i < |ts| ==> GoodMessage(s, c, ts[i]) && !Compressed(ts[i])
    requires NonEmpty(chunks) && Flat(chunks) == Stream(ts)
    ensures var f := Feed(s, c, [], last, chunks);
            && f.end == Waiting(c, [])
            && Delivered(Outputs(f.outs))
               == seq(|ts|, i requires 0 <= i < |ts| => Deliver(Payload(ts[i]), DataLen(ts[i])))
  {
    hide Drain, Feed, Payload, DataLen, Compressed, Transcript, Delivered, Flat;
    SessionRoundTrip(s, c, ts, last, chunks);
    PlainTranscript(s, c.ctx, ts);
    assert Conn(None, c.ctx) == c;
  }

  lemma {:induction false} PlainTranscript<C>(s: Setup<C>, ctx: Option<C>, ts: seq<Train>)
    requires forall i :: 0 <= i < |ts| ==> !Compressed(ts[i])
    ensures var (outs, end) := Transcript(s, ctx, ts);
            && end == Waiting(Conn(None, ctx), [])
            && Delivered(outs) == seq(|ts|, i requires 0 <= i < |ts| => Deliver(Payload(ts[i]), DataLen(ts[i])))
    decreases |ts|
  {
    hide Payload, DataLen, Compressed, Pongs;
    if ts != [] {
      var (outs, end) := Transcript(s, ctx, ts[1..]);
      var one := [Deliver(Payload(ts[0]), DataLen(ts[0]))];
      PlainTranscript(s, ctx, ts[1..]);
      PongsOnly(ts[0], one + outs);
      Assoc(Pongs(ts[0]), one, outs);
      assert (one + outs)[1..] == outs;
    }
  }

  lemma {:induction false} PongsOnly(t: Train, outs: seq<Output>)
    ensures Delivered(Pongs(t) + outs) == Delivered(outs)
    decreases t
  {
    hide Encode;
    assert [] + outs == outs;
    if t.More? {
      PongsOnly(t.next, outs);
      if t.head.opcode == OP_PING {
        var pong := [Reply(OP_PONG, t.head.payload)];
        Assoc(pong, Pongs(t.next), outs);
        assert (pong + (Pongs(t.next) + outs))[1..] == Pongs(t.next) + outs;
      } else {
        assert [] + Pongs(t.next) == Pongs(t.next);
      }
    }
  }

  /** An uncompressed message that is too long, or a compressed one without negotiation, is never delivered. */
  lemma OnlyGoodMessagesArrive<C>(s: Setup<C>, c: Conn<C>, t: Train, tail: seq<Byte>, last: int, chunks: seq<Read>)
    requires c.open.None? && OneMessage(t, false) && ControlsFit(t, s.max) && !GoodMessage(s, c, t)
    requires NonEmpty(chunks) && Flat(chunks) == EncodeAll(t) + tail
    ensures var f := Feed(s, c, [], last, chunks);
            f.end.Failed? && Outputs(f.outs) <= Pongs(t)
  {
    hide Drain, Feed, EncodeAll, Continues;
    assert [] + Flat(chunks) == Flat(chunks) && [] + Payload(t) == Payload(t);
    ChunkingIndependence(s, c, [], last, chunks);
    Reassembled(s, c, t, tail, 0);
    var f, d := Feed(s, c, [], last, chunks), Drain(s, c, EncodeAll(t) + tail, 0);
    assert Outputs(f.outs) == Outs(d.outs);
  }

  // ----- conservation of bytes -----

  /** Bytes of the delivered messages. */
  function DeliveredLen(outs: seq<Placed>): nat {
    if outs == [] then 0 else (if outs[0].out.Deliver? then outs[0].out.wireLen else 0) + DeliveredLen(outs[1..])
  }

  /** Bytes of the ping and pong frames among the complete frames of `buf`. */
  function ControlLen<C>(s: Setup<C>, c: Conn<C>, buf: seq<Byte>): nat
    decreases |buf|
  {
    match Take(buf, s.max)
    case NeedMore => 0
    case Malformed(_) => 0
    case Took(f, rest) =>
      TakeConsumes(buf, s.max);
      var (c', out, err) := OnFrame(s, c, f);
      (if f.opcode == OP_PING || f.opcode == OP_PONG then f.wireLen else 0)
      + if err.Some? then 0 else ControlLen(s, c', rest)
  }

  /** The same account for one frame. */
  lemma TurnConserves<C>(s: Setup<C>, c: Conn<C>, f: Frame, at: nat)
    requires OnFrame(s, c, f).2.None?
    ensures var (c', out, _) := OnFrame(s, c, f);
            AccLen(c) + f.wireLen == AccLen(c') + DeliveredLen(Place(out, at))
                                     + (if f.opcode == OP_PING || f.opcode == OP_PONG then f.wireLen else 0)
  {
  }

  lemma DeliveredFirst(out: Option<Output>, at: nat, outs: seq<Placed>)
    ensures DeliveredLen(Place(out, at) + outs) == DeliveredLen(Place(out, at)) + DeliveredLen(outs)
  {
    assert (Place(out, at) + outs)[|Place(out, at)|..] == outs;
  }

  /** For every byte stream that does not break the session: the bytes fed are exactly those of the delivered
      messages, of the message still open, of the pings and pongs, and the leftover. */
  lemma {:induction false} BytesConserved<C>(s: Setup<C>, c: Conn<C>, buf: seq<Byte>, at: nat)
    requires Drain(s, c, buf, at).end.Waiting?
    ensures var d := Drain(s, c, buf, at);
            AccLen(c) + |buf| == DeliveredLen(d.outs) + AccLen(d.end.conn) + ControlLen(s, c, buf) + |d.end.rest|
    decreases |buf|
  {
    hide Take, OnFrame, DeliveredLen, AccLen;
    var t := Take(buf, s.max);
    if t.Took? {
      TakeConsumes(buf, s.max);
      var (c', out, err) := OnFrame(s, c, t.frame);
      var at' := at + t.frame.wireLen;
      TurnConserves(s, c, t.frame, at');
      BytesConserved(s, c', t.rest, at');
      DeliveredFirst(out, at', Drain(s, c', t.rest, at').outs);
    } else {
      NothingDelivered();
    }
  }

  lemma NothingDelivered()
    ensures DeliveredLen([]) == 0
  {
  }
}
