/** What a server lays out on the wire is what the client's caller gets: reassembly of fragmented messages with
    control frames between the fragments (RFC 6455 sections 5.4 and 5.5). */
module Reassembly {
  import opened Bytes
  import opened Frames
  import opened Receive

  /** The frames a server sends up to the end of one message. */
  datatype Train = Last(head: Wire) | More(head: Wire, next: Train)

  predicate IsControl(w: Wire) {
    w.opcode == OP_PING || w.opcode == OP_PONG
  }

  /** One message: a text or binary frame, continuations up to a final one, and pings and pongs before and between
      them. `open` says that the first fragment has already gone out. */
  predicate OneMessage(t: Train, open: bool) {
    match t
    case Last(w) => StartsOrContinues(w, open) && w.fin
    case More(w, next) =>
      if IsControl(w) then OneMessage(next, open)
      else StartsOrContinues(w, open) && !w.fin && OneMessage(next, true)
  }

  predicate StartsOrContinues(w: Wire, open: bool) {
    if open then w.opcode == OP_CONT else w.opcode == OP_TEXT || w.opcode == OP_BINARY
  }

  function EncodeAll(t: Train): seq<Byte> {
    match t
    case Last(w) => Encode(w)
    case More(w, next) => Encode(w) + EncodeAll(next)
  }

  /** The payload the server meant: its data fragments, in order. */
  function Payload(t: Train): seq<Byte> {
    match t
    case Last(w) => w.payload
    case More(w, next) => if IsControl(w) then Payload(next) else w.payload + Payload(next)
  }

  /** Bytes of the data frames alone. */
  function DataLen(t: Train): nat {
    match t
    case Last(w) => |Encode(w)|
    case More(w, next) => if IsControl(w) then DataLen(next) else |Encode(w)| + DataLen(next)
  }

  /** The pongs owed: one for each ping, with its payload, in order. */
  function Pongs(t: Train): seq<Output> {
    match t
    case Last(w) => []
    case More(w, next) => (if w.opcode == OP_PING then [Reply(OP_PONG, w.payload)] else []) + Pongs(next)
  }

  /** Whether the message is marked compressed: RSV1 on its first data frame. */
  predicate Compressed(t: Train) {
    match t
    case Last(w) => w.rsv1
    case More(w, next) => if IsControl(w) then Compressed(next) else w.rsv1
  }

  /** Each control frame by itself is within the frame limit. */
  predicate ControlsFit(t: Train, max: nat) {
    t.More? ==> (IsControl(t.head) ==> |t.head.payload| <= max) && ControlsFit(t.next, max)
  }

  function Outs(d: seq<Placed>): (r: seq<Output>)
    ensures |r| == |d| && forall i :: 0 <= i < |d| ==> r[i] == d[i].out
  {
    Outputs(StampAll(d, 0))
  }

  function Optional(out: Option<Output>): seq<Output> {
    if out.None? then [] else [out.value]
  }

  /** The drain `d` first puts out `before`, then does what `turn` says, then drains `tail` from there. */
  ghost predicate Continues<C>(s: Setup<C>, d: Drained<C>, before: seq<Output>,
                               turn: (Conn<C>, Option<Output>, Option<Error>), tail: seq<Byte>, at: nat)
  {
    if turn.2.Some? then Outs(d.outs) == before + Optional(turn.1) && d.end == Failed(turn.2.value)
    else
      var d' := Drain(s, turn.0, tail, at);
      Outs(d.outs) == before + Optional(turn.1) + Outs(d'.outs) && d.end == d'.end
  }

  function Acc<C>(c: Conn<C>): seq<Byte> {
    if c.open.None? then [] else c.open.value.acc
  }

  function AccLen<C>(c: Conn<C>): nat {
    if c.open.None? then 0 else c.open.value.wireLen
  }

  /** Is the message in progress, or else the one about to start with `t`, a compressed one? */
  predicate IsCompressed<C>(c: Conn<C>, t: Train) {
    if c.open.Some? then c.open.value.compressed else Compressed(t)
  }

  /** The client accepts the message exactly when its payload is within the limit and compression, if the message
      uses it, was negotiated. */
  predicate Acceptable<C>(s: Setup<C>, c: Conn<C>, t: Train) {
    |Acc(c) + Payload(t)| <= s.max && (IsCompressed(c, t) ==> c.ctx.Some?)
  }

  /** `t` is the rest of a message of which the client `c` has the beginning, if there is one. */
  ghost predicate Midway<C>(s: Setup<C>, c: Conn<C>, t: Train) {
    && OneMessage(t, c.open.Some?) && ControlsFit(t, s.max)
    && |Acc(c)| <= s.max && (c.open.Some? && c.open.value.compressed ==> c.ctx.Some?)
  }

  /** The message, finished. */
  function Finished<C>(s: Setup<C>, c: Conn<C>, t: Train): (Conn<C>, Option<Output>, Option<Error>) {
    Finish(s, c.(open := None), IsCompressed(c, t), Acc(c) + Payload(t), AccLen(c) + DataLen(t))
  }

  /** What draining the rest of a message must do: if it is acceptable, put out the pongs, then finish the message,
      then go on with the tail; otherwise fail without delivering anything. */
  ghost predicate Reassembles<C>(s: Setup<C>, c: Conn<C>, t: Train, tail: seq<Byte>, at: nat) {
    var d := Drain(s, c, EncodeAll(t) + tail, at);
    if Acceptable(s, c, t) then Continues(s, d, Pongs(t), Finished(s, c, t), tail, at + |EncodeAll(t)|)
    else d.end.Failed? && Outs(d.outs) <= Pongs(t)
  }

  /** Reassembly from any point inside a message, whatever follows it on the wire. */
  lemma {:induction false} Reassembled<C>(s: Setup<C>, c: Conn<C>, t: Train, tail: seq<Byte>, at: nat)
    requires Midway(s, c, t)
    ensures Reassembles(s, c, t, tail, at)
    decreases t
  {
    hide Encode, Drain, Reassembles;
    var w, at' := t.head, at + |Encode(t.head)|;
    if IsControl(w) {
      Reassembled(s, c, t.next, tail, at');
      ControlCase(s, c, t, tail, at);
    } else if t.More? && !Refused(s, c, w) {
      Reassembled(s, Grown(c, w), t.next, tail, at');
      FragmentCase(s, c, t, tail, at);
    } else {
      LastCase(s, c, t, tail, at);
    }
  }

  lemma ReassembledAs<C>(s: Setup<C>, c: Conn<C>, t: Train, tail: seq<Byte>, at: nat)
    requires Midway(s, c, t)
    ensures var d := Drain(s, c, EncodeAll(t) + tail, at);
            if |Acc(c) + Payload(t)| <= s.max && (IsCompressed(c, t) ==> c.ctx.Some?) then
              Continues(s, d, Pongs(t), Finished(s, c, t), tail, at + |EncodeAll(t)|)
            else d.end.Failed? && Outs(d.outs) <= Pongs(t)
  {
    hide Drain, EncodeAll, Continues, Midway, Finished, IsCompressed, Payload, Pongs, Acc;
    Reassembled(s, c, t, tail, at);
  }

  /** An uncompressed message: the pongs, then one message whose data are the fragments received before and those of
      `t`, in order, and then whatever the tail causes. */
  lemma PlainDelivered<C>(s: Setup<C>, c: Conn<C>, t: Train, tail: seq<Byte>, at: nat)
    requires Midway(s, c, t) && |Acc(c) + Payload(t)| <= s.max && !IsCompressed(c, t)
    ensures var d := Drain(s, c, EncodeAll(t) + tail, at);
            var d' := Drain(s, c.(open := None), tail, at + |EncodeAll(t)|);
            && Outs(d.outs) == Pongs(t) + [Deliver(Acc(c) + Payload(t), AccLen(c) + DataLen(t))] + Outs(d'.outs)
            && d.end == d'.end
  {
    hide Drain, Encode, EncodeAll, Payload, Pongs, DataLen, Outs, Acc, AccLen, IsCompressed, OneMessage, ControlsFit;
    ReassembledAs(s, c, t, tail, at);
  }

  /** A compressed message: what the inflater makes of it, and its new context for the tail; or the end of the
      session, if the inflater fails. */
  lemma InflatedDelivered<C>(s: Setup<C>, c: Conn<C>, t: Train, tail: seq<Byte>, at: nat)
    requires Midway(s, c, t) && |Acc(c) + Payload(t)| <= s.max && IsCompressed(c, t) && c.ctx.Some?
    ensures var d := Drain(s, c, EncodeAll(t) + tail, at);
            var (ctx, data) := s.inflate(c.ctx.value, Acc(c) + Payload(t));
            var d' := Drain(s, Conn(None, Some(ctx)), tail, at + |EncodeAll(t)|);
            if data.None? then Outs(d.outs) == Pongs(t) && d.end == Failed(InflateFailed)
            else
              && Outs(d.outs) == Pongs(t) + [Deliver(data.value, AccLen(c) + DataLen(t))] + Outs(d'.outs)
              && d.end == d'.end
  {
    hide Drain, Encode, EncodeAll, Payload, Pongs, DataLen, Outs, Acc, AccLen, IsCompressed, OneMessage, ControlsFit;
    ReassembledAs(s, c, t, tail, at);
    assert Pongs(t) + [] == Pongs(t);
  }

  /** A message beyond the limit, or compressed without negotiation, delivers nothing and ends the session. */
  lemma RefusedUndelivered<C>(s: Setup<C>, c: Conn<C>, t: Train, tail: seq<Byte>, at: nat)
    requires Midway(s, c, t)
    requires |Acc(c) + Payload(t)| > s.max || (IsCompressed(c, t) && c.ctx.None?)
    ensures var d := Drain(s, c, EncodeAll(t) + tail, at);
            d.end.Failed? && Outs(d.outs) <= Pongs(t)
  {
    hide Drain, EncodeAll, Midway, IsCompressed, Payload, Pongs, Acc;
    ReassembledAs(s, c, t, tail, at);
  }

  lemma ControlCase<C>(s: Setup<C>, c: Conn<C>, t: Train, tail: seq<Byte>, at: nat)
    requires Midway(s, c, t) && IsControl(t.head)
    ensures Reassembles(s, c, t.next, tail, at + |Encode(t.head)|) ==> Reassembles(s, c, t, tail, at)
  {
    hide Encode, Finish, Drain, Take, OnFrame, Continues;
    var w, k := t.head, |Encode(t.head)|;
    assert EncodeAll(t) + tail == Encode(w) + (EncodeAll(t.next) + tail);
    DrainFrame(s, c, w, EncodeAll(t.next) + tail, at);
    ControlTurn(s, c, w);
    PrependTurn(s, Drain(s, c, EncodeAll(t) + tail, at), Drain(s, c, EncodeAll(t.next) + tail, at + k),
                OnFrame(s, c, Decoded(w)).1, at + k, Pongs(t.next), Finished(s, c, t), tail, at + |EncodeAll(t)|);
  }

  lemma FragmentCase<C>(s: Setup<C>, c: Conn<C>, t: Train, tail: seq<Byte>, at: nat)
    requires Midway(s, c, t) && !IsControl(t.head) && t.More? && !Refused(s, c, t.head)
    ensures Reassembles(s, Grown(c, t.head), t.next, tail, at + |Encode(t.head)|) ==> Reassembles(s, c, t, tail, at)
  {
    hide Encode, Finish, Drain, Take, OnFrame, Continues, Outs;
    var w, c' := t.head, Grown(c, t.head);
    Assoc(Encode(w), EncodeAll(t.next), tail);
    DrainFrame(s, c, w, EncodeAll(t.next) + tail, at);
    DataTurn(s, c, w);
    assert Acc(c') + Payload(t.next) == Acc(c) + Payload(t);
    var d' := Drain(s, c', EncodeAll(t.next) + tail, at + |Encode(w)|);
    assert [] + d'.outs == d'.outs && [] + Pongs(t.next) == Pongs(t.next);
    assert Drain(s, c, EncodeAll(t) + tail, at) == d';
  }

  lemma LastCase<C>(s: Setup<C>, c: Conn<C>, t: Train, tail: seq<Byte>, at: nat)
    requires Midway(s, c, t) && !IsControl(t.head) && (t.Last? || Refused(s, c, t.head))
    ensures Reassembles(s, c, t, tail, at)
  {
    hide Encode, Finish, Drain, Take, OnFrame, Continues;
    var w, rest := t.head, if t.Last? then tail else EncodeAll(t.next) + tail;
    assert EncodeAll(t) + tail == Encode(w) + rest;
    DrainFrame(s, c, w, rest, at);
    if |w.payload| <= s.max {
      DataTurn(s, c, w);
      if Refused(s, c, w) {
        OutsOfPlace(None, at + |Encode(w)|, []);
      } else {
        LastTurn(s, c, w, tail, at);
      }
    }
  }

  /** The client after one more fragment of a message. */
  function Grown<C>(c: Conn<C>, w: Wire): Conn<C> {
    c.(open := Some(OpenMessage(if c.open.Some? then c.open.value.compressed else w.rsv1,
                                Acc(c) + w.payload, AccLen(c) + |Encode(w)|)))
  }

  /** The fragments on which the client gives up. */
  predicate Refused<C>(s: Setup<C>, c: Conn<C>, w: Wire) {
    || |w.payload| > s.max
    || |Acc(Grown(c, w))| > s.max
    || (Grown(c, w).open.value.compressed && c.ctx.None?)
  }

  /** One frame of the encoded stream is one turn of the frame loop. */
  lemma DrainFrame<C>(s: Setup<C>, c: Conn<C>, w: Wire, tail: seq<Byte>, at: nat)
    ensures var d := Drain(s, c, Encode(w) + tail, at);
            if |w.payload| > s.max then d == Drained([], Failed(BadFrame(FrameTooLong(|w.payload|))))
            else
              var (c', out, err) := OnFrame(s, c, Decoded(w));
              var here, k := Place(out, at + |Encode(w)|), |Encode(w)|;
              if err.Some? then d == Drained(here, Failed(err.value))
              else d == Drained(here + Drain(s, c', tail, at + k).outs, Drain(s, c', tail, at + k).end)
  {
    hide Take, OnFrame, Encode;
    TakeEncode(w, tail, s.max);
  }

  lemma ControlTurn<C>(s: Setup<C>, c: Conn<C>, w: Wire)
    requires IsControl(w)
    ensures OnFrame(s, c, Decoded(w)) ==
            (c, if w.opcode == OP_PING then Some(Reply(OP_PONG, w.payload)) else None, None)
  {
  }

  lemma DataTurn<C>(s: Setup<C>, c: Conn<C>, w: Wire)
    requires StartsOrContinues(w, c.open.Some?)
    requires |w.payload| <= s.max && (c.open.Some? && c.open.value.compressed ==> c.ctx.Some?)
    ensures var turn, o := OnFrame(s, c, Decoded(w)), Grown(c, w).open.value;
            if Refused(s, c, w) then turn.1.None? && turn.2.Some?
            else if w.fin then turn == Finish(s, c.(open := None), o.compressed, o.acc, o.wireLen)
            else turn == (Grown(c, w), None, None)
  {
    hide Encode, Finish;
    if c.open.None? {
      assert Acc(c) + w.payload == w.payload;
      assert c.(open := None) == c;
    }
  }

  lemma LastTurn<C>(s: Setup<C>, c: Conn<C>, w: Wire, tail: seq<Byte>, at: nat)
    requires |w.payload| <= s.max
    ensures Continues(s, Drain(s, c, Encode(w) + tail, at), [], OnFrame(s, c, Decoded(w)), tail, at + |Encode(w)|)
  {
    hide Encode, Drain, Take, OnFrame;
    DrainFrame(s, c, w, tail, at);
    var (c', out, err) := OnFrame(s, c, Decoded(w));
    OutsOfPlace(out, at + |Encode(w)|, Drain(s, c', tail, at + |Encode(w)|).outs);
    assert [] + Optional(out) == Optional(out);
  }

  // ----- frames that end a session -----

  /** A close frame is answered with its status code alone, its first two payload bytes, and ends the session with that
      code, most significant byte first, and the text after it. */
  lemma CloseFrame<C>(s: Setup<C>, c: Conn<C>, w: Wire, tail: seq<Byte>, at: nat)
    requires w.opcode == 0x8 && |w.payload| <= s.max
    ensures var d, p := Drain(s, c, Encode(w) + tail, at), w.payload;
            if |p| < 2 then Outs(d.outs) == [Reply(0x8, p)] && d.end == Failed(ClosedByServer(None, []))
            else
              && Outs(d.outs) == [Reply(0x8, [p[0], p[1]])]
              && d.end == Failed(ClosedByServer(Some(256 * p[0] as nat + p[1] as nat), p[2..]))
  {
    hide Drain, Encode;
    DrainFrame(s, c, w, tail, at);
    var k := if |w.payload| < 2 then |w.payload| else 2;
    OutsOfPlace(Some(Reply(OP_CLOSE, w.payload[..k])), at + |Encode(w)|, []);
    if |w.payload| < 2 {
      assert w.payload[..k] == w.payload && w.payload[k..] == [];
    } else {
      var code := w.payload[..2];
      assert code == [w.payload[0], w.payload[1]];
      MostSignificantFirst(code);
      assert code[1..] == [w.payload[1]] && FromBe([]) == 0;
      assert Pow256(1) == 256 && FromBe(code[1..]) == w.payload[1] as nat;
    }
  }

  /** The frames a session does not survive, and the error of each. */
  function Refusal<C>(s: Setup<C>, c: Conn<C>, w: Wire): Option<Error> {
    if |w.payload| > s.max then Some(BadFrame(FrameTooLong(|w.payload|)))
    else if w.opcode in {0x3, 0x4, 0x5, 0x6, 0x7} || w.opcode > 0xA then Some(UnknownOpcode(w.opcode))
    else if w.opcode in {0x1, 0x2} && c.open.Some? then Some(NestedData)
    else if w.opcode in {0x1, 0x2} && w.rsv1 && c.ctx.None? then Some(NotNegotiated)
    else if w.opcode == 0x0 && c.open.None? then Some(StrayContinuation)
    else if w.opcode == 0x0 && |c.open.value.acc| + |w.payload| > s.max then Some(MessageTooLong)
    else None
  }

  lemma RefusedFrame<C>(s: Setup<C>, c: Conn<C>, w: Wire, tail: seq<Byte>, at: nat)
    ensures Refusal(s, c, w).Some? ==>
              Drain(s, c, Encode(w) + tail, at) == Drained([], Failed(Refusal(s, c, w).value))
  {
    hide Drain, Encode;
    DrainFrame(s, c, w, tail, at);
  }

  /** The two bits that no extension uses. */
  lemma ReservedBitsRefused<C>(s: Setup<C>, c: Conn<C>, buf: seq<Byte>, at: nat)
    requires |buf| >= 2 && (Bit(buf[0], 4) || Bit(buf[0], 5))
    ensures Drain(s, c, buf, at) == Drained([], Failed(BadFrame(ReservedBits)))
  {
    hide FromBe, Masked, OnFrame;
    assert Pow2(4) == 16 && Pow2(5) == 32;
    hide Pow2;
  }

  lemma PrependTurn<C>(s: Setup<C>, d: Drained<C>, d': Drained<C>, out: Option<Output>, p: nat, before: seq<Output>,
                       turn: (Conn<C>, Option<Output>, Option<Error>), tail: seq<Byte>, at: nat)
    requires d == Drained(Place(out, p) + d'.outs, d'.end)
    ensures Continues(s, d', before, turn, tail, at) ==> Continues(s, d, Optional(out) + before, turn, tail, at)
    ensures Outs(d'.outs) <= before ==> Outs(d.outs) <= Optional(out) + before
  {
    hide Drain;
    OutsOfPlace(out, p, d'.outs);
    assert Optional(out) + (before + Optional(turn.1)) == Optional(out) + before + Optional(turn.1);
    if turn.2.None? {
      var rest := Outs(Drain(s, turn.0, tail, at).outs);
      assert Optional(out) + (before + Optional(turn.1) + rest) == Optional(out) + before + Optional(turn.1) + rest;
    }
  }

  lemma OutsOfPlace(out: Option<Output>, at: nat, outs: seq<Placed>)
    ensures Outs(Place(out, at) + outs) == Optional(out) + Outs(outs)
    ensures Outs(Place(out, at)) == Optional(out)
  {
  }
}
