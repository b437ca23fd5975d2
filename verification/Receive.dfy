/** What the receive path does with the bytes of a connection, as a function of those bytes: the frame loop of
    `next_message`, reassembly in `data_frame`, and the effect of cutting the stream into reads. */
module Receive {
  import opened Bytes
  import opened Frames

  datatype Error =
    | BadFrame(error: FrameError)
    | UnknownOpcode(opcode: Byte)
    | NestedData
    | NotNegotiated
    | StrayContinuation
    | MessageTooLong
    | InflateFailed
    | ClosedByServer(code: Option<nat>, reason: seq<Byte>)
    | ConnectionClosed
    | WriteFailed

  /** A fragmented message in progress. */
  datatype OpenMessage = OpenMessage(compressed: bool, acc: seq<Byte>, wireLen: nat)

  /** The limit on a message, and the inflater as a step on its context `C`. */
  datatype Setup<!C> = Setup(max: nat, inflate: (C, seq<Byte>) -> (C, Option<seq<Byte>>))

  /** The part of a client that survives from frame to frame; `ctx` is there when compression was negotiated. */
  datatype Conn<C> = Conn(open: Option<OpenMessage>, ctx: Option<C>)

  /** A message handed to the caller, or a control frame written back to the server. */
  datatype Output =
    | Deliver(data: seq<Byte>, wireLen: nat)
    | Reply(opcode: Byte, payload: seq<Byte>)

  /** `finish`: the payload, inflated when the message was compressed. */
  function Finish<C>(s: Setup<C>, c: Conn<C>, compressed: bool, payload: seq<Byte>, wireLen: nat)
    : (r: (Conn<C>, Option<Output>, Option<Error>))
  {
    if !compressed then (c, Some(Deliver(payload, wireLen)), None)
    else if c.ctx.None? then (c, None, Some(NotNegotiated))
    else
      var (ctx, data) := s.inflate(c.ctx.value, payload);
      if data.None? then (c.(ctx := Some(ctx)), None, Some(InflateFailed))
      else (c.(ctx := Some(ctx)), Some(Deliver(data.value, wireLen)), None)
  }

  /** `data_frame`: reassembly of text, binary and continuation frames. */
  function DataFrame<C>(s: Setup<C>, c: Conn<C>, f: Frame): (Conn<C>, Option<Output>, Option<Error>) {
    if f.opcode == OP_TEXT || f.opcode == OP_BINARY then
      if c.open.Some? then (c, None, Some(NestedData))
      else if f.rsv1 && c.ctx.None? then (c, None, Some(NotNegotiated))
      else if f.fin then Finish(s, c, f.rsv1, f.payload, f.wireLen)
      else (c.(open := Some(OpenMessage(f.rsv1, f.payload, f.wireLen))), None, None)
    else if c.open.None? then (c, None, Some(StrayContinuation))
    else
      var o := c.open.value;
      var o' := OpenMessage(o.compressed, o.acc + f.payload, o.wireLen + f.wireLen);
      if |o'.acc| > s.max then (c.(open := None), None, Some(MessageTooLong))
      else if f.fin then Finish(s, c.(open := None), o'.compressed, o'.acc, o'.wireLen)
      else (c.(open := Some(o')), None, None)
  }

  /** One turn of the frame loop: what a frame does, what comes out, and the error that ends the session. */
  function OnFrame<C>(s: Setup<C>, c: Conn<C>, f: Frame): (Conn<C>, Option<Output>, Option<Error>) {
    if f.opcode in {OP_TEXT, OP_BINARY, OP_CONT} then DataFrame(s, c, f)
    else if f.opcode == OP_PING then (c, Some(Reply(OP_PONG, f.payload)), None)
    else if f.opcode == OP_PONG then (c, None, None)
    else if f.opcode == OP_CLOSE then
      var k := if |f.payload| < 2 then |f.payload| else 2;
      var code := if |f.payload| >= 2 then Some(FromBe(f.payload[..2])) else None;
      (c, Some(Reply(OP_CLOSE, f.payload[..k])), Some(ClosedByServer(code, f.payload[k..])))
    else (c, None, Some(UnknownOpcode(f.opcode)))
  }

  /** An output together with the offset in the stream of the byte after the frame that caused it. */
  datatype Placed = Placed(out: Output, at: nat)

  datatype End<C> = Waiting(conn: Conn<C>, rest: seq<Byte>) | Failed(error: Error)

  datatype Drained<C> = Drained(outs: seq<Placed>, end: End<C>)

  function Place(out: Option<Output>, at: nat): seq<Placed> {
    if out.None? then [] else [Placed(out.value, at)]
  }

  /** Everything the bytes in `buf` cause, when its first byte is number `at` of the stream. */
  function Drain<C>(s: Setup<C>, c: Conn<C>, buf: seq<Byte>, at: nat): Drained<C>
    decreases |buf|
  {
    match Take(buf, s.max)
    case NeedMore => Drained([], Waiting(c, buf))
    case Malformed(e) => Drained([], Failed(BadFrame(e)))
    case Took(f, rest) =>
      TakeConsumes(buf, s.max);
      var (c', out, err) := OnFrame(s, c, f);
      var here := Place(out, at + f.wireLen);
      if err.Some? then Drained(here, Failed(err.value))
      else
        var d := Drain(s, c', rest, at + f.wireLen);
        Drained(here + d.outs, d.end)
  }

  /** A successful read: at least one byte, and the instant right after it. */
  datatype Read = Read(bytes: seq<Byte>, t: int)

  function Flat(chunks: seq<Read>): seq<Byte> {
    if chunks == [] then [] else chunks[0].bytes + Flat(chunks[1..])
  }

  /** An output with the stamp the program gives it. */
  datatype Stamped = Stamped(out: Output, t: int)

  datatype Session<C> = Session(outs: seq<Stamped>, end: End<C>)

  function StampAll(outs: seq<Placed>, t: int): (r: seq<Stamped>) {
    seq(|outs|, i requires 0 <= i < |outs| => Stamped(outs[i].out, t))
  }

  /** Reads are consumed one at a time, each only when the bytes so far hold no complete frame; a read of zero
      bytes, or the end of `chunks`, is the server closing the connection, and then `end` is `Waiting`. */
  function Feed<C>(s: Setup<C>, c: Conn<C>, buf: seq<Byte>, last: int, chunks: seq<Read>): Session<C>
    decreases |chunks|
  {
    var d := Drain(s, c, buf, 0);
    var now := StampAll(d.outs, last);
    if d.end.Failed? || chunks == [] || chunks[0].bytes == [] then Session(now, d.end)
    else
      var f := Feed(s, d.end.conn, d.end.rest + chunks[0].bytes, chunks[0].t, chunks[1..]);
      Session(now + f.outs, f.end)
  }

  // ----- chunking independence -----

  ghost predicate NonEmpty(chunks: seq<Read>) {
    forall i :: 0 <= i < |chunks| ==> chunks[i].bytes != []
  }

  /** The read that brought byte number x (counting from 1) of the stream: its stamp. The first `have` bytes
      came with the read stamped `last`. */
  function StampOfByte(have: nat, last: int, chunks: seq<Read>, x: nat): int
    decreases |chunks|
  {
    if x <= have || chunks == [] then last
    else StampOfByte(have + |chunks[0].bytes|, chunks[0].t, chunks[1..], x)
  }

  function StampEach(outs: seq<Placed>, have: nat, last: int, chunks: seq<Read>): (r: seq<Stamped>) {
    seq(|outs|, i requires 0 <= i < |outs| => Stamped(outs[i].out, StampOfByte(have, last, chunks, outs[i].at)))
  }

  function Shift(outs: seq<Placed>, k: nat): (r: seq<Placed>) {
    seq(|outs|, i requires 0 <= i < |outs| => outs[i].(at := outs[i].at + k))
  }

  lemma ShiftParts(out: Option<Output>, p: nat, outs: seq<Placed>, k: nat)
    ensures Shift(Place(out, p) + outs, k) == Place(out, p + k) + Shift(outs, k)
    ensures Shift(Place(out, p), k) == Place(out, p + k) && Shift([], k) == []
  {
  }

  /** Offsets are relative to where draining starts. */
  lemma {:induction false} DrainShift<C>(s: Setup<C>, c: Conn<C>, buf: seq<Byte>, at: nat, k: nat)
    ensures Drain(s, c, buf, at + k) == Drained(Shift(Drain(s, c, buf, at).outs, k), Drain(s, c, buf, at).end)
    decreases |buf|
  {
    hide Take, OnFrame, Shift, Place;
    var t := Take(buf, s.max);
    ShiftParts(None, 0, [], k);
    if t.Took? {
      TakeConsumes(buf, s.max);
      var (c', out, err) := OnFrame(s, c, t.frame);
      var p := at + t.frame.wireLen;
      ShiftParts(out, p, [], k);
      if err.None? {
        DrainShift(s, c', t.rest, p, k);
        ShiftParts(out, p, Drain(s, c', t.rest, p).outs, k);
      }
    }
  }

  /** More bytes only continue what the first bytes left waiting; a failure is final. */
  lemma {:induction false} DrainExtend<C>(s: Setup<C>, c: Conn<C>, buf: seq<Byte>, more: seq<Byte>, at: nat)
    ensures var d := Drain(s, c, buf, at);
            && (d.end.Failed? ==> Drain(s, c, buf + more, at) == d)
            && (d.end.Waiting? ==>
                  && |d.end.rest| <= |buf|
                  && var d' := Drain(s, d.end.conn, d.end.rest + more, at + |buf| - |d.end.rest|);
                     Drain(s, c, buf + more, at) == Drained(d.outs + d'.outs, d'.end))
    decreases |buf|
  {
    hide Take, OnFrame, Place;
    TakeStable(buf, more, s.max);
    var t := Take(buf, s.max);
    if t.Took? {
      TakeConsumes(buf, s.max);
      var (c', out, err) := OnFrame(s, c, t.frame);
      if err.None? {
        var here, d := Place(out, at + t.frame.wireLen), Drain(s, c', t.rest, at + t.frame.wireLen);
        DrainExtend(s, c', t.rest, more, at + t.frame.wireLen);
        if d.end.Waiting? {
          var d' := Drain(s, d.end.conn, d.end.rest + more, at + |buf| - |d.end.rest|);
          Assoc(here, d.outs, d'.outs);
        }
      }
    } else if t.NeedMore? {
      var d' := Drain(s, c, buf + more, at);
      assert [] + d'.outs == d'.outs;
    }
  }

  /** Every output lies within the bytes drained. */
  lemma {:induction false} DrainBounds<C>(s: Setup<C>, c: Conn<C>, buf: seq<Byte>, at: nat)
    ensures var d := Drain(s, c, buf, at);
            && (forall i :: 0 <= i < |d.outs| ==> at < d.outs[i].at <= at + |buf|)
            && (d.end.Waiting? ==> |d.end.rest| <= |buf| && Take(d.end.rest, s.max).NeedMore?)
    decreases |buf|
  {
    hide Take, OnFrame;
    var t := Take(buf, s.max);
    if t.Took? {
      TakeConsumes(buf, s.max);
      var (c', out, err) := OnFrame(s, c, t.frame);
      if err.None? {
        DrainBounds(s, c', t.rest, at + t.frame.wireLen);
      }
    }
  }

  /** What an incomplete frame causes once completed lies beyond the bytes that were there before. */
  lemma DrainBeyond<C>(s: Setup<C>, c: Conn<C>, rest: seq<Byte>, more: seq<Byte>, at: nat)
    requires Take(rest, s.max).NeedMore?
    ensures var d := Drain(s, c, rest + more, at);
            forall i :: 0 <= i < |d.outs| ==> at + |rest| < d.outs[i].at
  {
    hide Take, OnFrame;
    var t := Take(rest + more, s.max);
    if t.Took? {
      TakePrompt(rest, more, s.max);
      TakeConsumes(rest + more, s.max);
      var (c', out, err) := OnFrame(s, c, t.frame);
      if err.None? {
        DrainBounds(s, c', t.rest, at + t.frame.wireLen);
      }
    }
  }

  /** Main theorem of the receive path. However the stream is cut into reads, the session produces what draining
      the whole stream at once produces, in the same order and with the same end; and every output carries the
      stamp of the read that brought the last byte of the frame that caused it. */
  lemma {:induction false} ChunkingIndependence<C>(s: Setup<C>, c: Conn<C>, buf: seq<Byte>, last: int,
                                                   chunks: seq<Read>)
    requires NonEmpty(chunks)
    ensures var d := Drain(s, c, buf + Flat(chunks), 0);
            && Feed(s, c, buf, last, chunks).end == d.end
            && Feed(s, c, buf, last, chunks).outs == StampEach(d.outs, |buf|, last, chunks)
    decreases |chunks|
  {
    hide Take, OnFrame, Drain;
    var d := Drain(s, c, buf, 0);
    DrainBounds(s, c, buf, 0);
    DrainExtend(s, c, buf, Flat(chunks), 0);
    assert StampAll(d.outs, last) == StampEach(d.outs, |buf|, last, chunks);
    if chunks == [] {
      assert buf + Flat(chunks) == buf;
    } else if d.end.Waiting? {
      var r, rest := chunks[0], d.end.rest;
      var used := |buf| - |rest|;
      ChunkingIndependence(s, d.end.conn, rest + r.bytes, r.t, chunks[1..]);
      assert rest + r.bytes + Flat(chunks[1..]) == rest + Flat(chunks);
      var d' := Drain(s, d.end.conn, rest + Flat(chunks), 0);
      DrainShift(s, d.end.conn, rest + Flat(chunks), 0, used);
      DrainBeyond(s, d.end.conn, rest, Flat(chunks), 0);
      StampsOfLater(d'.outs, |rest|, used, last, chunks);
      StampEachConcat(d.outs, Shift(d'.outs, used), |buf|, last, chunks);
    }
  }

  lemma StampEachConcat(a: seq<Placed>, b: seq<Placed>, have: nat, last: int, chunks: seq<Read>)
    ensures StampEach(a + b, have, last, chunks) == StampEach(a, have, last, chunks) + StampEach(b, have, last, chunks)
  {
  }

  lemma StampsOfLater(outs: seq<Placed>, rest: nat, used: nat, last: int, chunks: seq<Read>)
    requires chunks != [] && forall i :: 0 <= i < |outs| ==> rest < outs[i].at
    ensures StampEach(outs, rest + |chunks[0].bytes|, chunks[0].t, chunks[1..])
            == StampEach(Shift(outs, used), rest + used, last, chunks)
  {
    var a := StampEach(outs, rest + |chunks[0].bytes|, chunks[0].t, chunks[1..]);
    var b := StampEach(Shift(outs, used), rest + used, last, chunks);
    forall i | 0 <= i < |a| ensures a[i] == b[i] {
      StampShift(rest + |chunks[0].bytes|, chunks[0].t, chunks[1..], outs[i].at, used);
    }
  }

  lemma {:induction false} StampShift(have: nat, last: int, chunks: seq<Read>, x: nat, k: nat)
    ensures StampOfByte(have + k, last, chunks, x + k) == StampOfByte(have, last, chunks, x)
    decreases |chunks|
  {
    if x > have && chunks != [] {
      StampShift(have + |chunks[0].bytes|, chunks[0].t, chunks[1..], x, k);
    }
  }

  function Outputs(outs: seq<Stamped>): (r: seq<Output>) {
    seq(|outs|, i requires 0 <= i < |outs| => outs[i].out)
  }

  /** Two ways of cutting the same bytes: same messages, same replies, same outcome. */
  lemma CutsAgree<C>(s: Setup<C>, c: Conn<C>, last1: int, cut1: seq<Read>, last2: int, cut2: seq<Read>)
    requires NonEmpty(cut1) && NonEmpty(cut2) && Flat(cut1) == Flat(cut2)
    ensures var f1, f2 := Feed(s, c, [], last1, cut1), Feed(s, c, [], last2, cut2);
            f1.end == f2.end && Outputs(f1.outs) == Outputs(f2.outs)
  {
    ChunkingIndependence(s, c, [], last1, cut1);
    ChunkingIndependence(s, c, [], last2, cut2);
  }
}
