/** The receiving side of `Client` as the program runs it: a buffer, an open message, an inflater context and the
    instant of the last read, updated step by step. */
module Client {
  import opened Bytes
  import opened Frames
  import opened Receive

  datatype Outcome =
    | Got(data: seq<Byte>, arrival: int, wireLen: nat)
    | Ended(error: Error)

  /** `frame` is the reply `out` as the client writes it: masked with some key. */
  ghost predicate Says(frame: seq<Byte>, out: Output) {
    && out.Reply? && out.opcode < 0x10 && |out.payload| < 0x1_0000_0000_0000_0000
    && exists mask: Mask :: frame == Encode(ClientWire(out.payload, out.opcode, mask))
  }

  // ----- one step of `Feed` -----

  function StampOne(out: Option<Output>, t: int): seq<Stamped> {
    if out.None? then [] else [Stamped(out.value, t)]
  }

  /** Taking one frame off the buffer. */
  lemma FeedTurn<C>(s: Setup<C>, c: Conn<C>, buf: seq<Byte>, last: int, chunks: seq<Read>)
    requires Take(buf, s.max).Took?
    ensures var t := Take(buf, s.max);
            var (c', out, err) := OnFrame(s, c, t.frame);
            var f, f' := Feed(s, c, buf, last, chunks), Feed(s, c', t.rest, last, chunks);
            if err.Some? then f == Session(StampOne(out, last), Failed(err.value))
            else f == Session(StampOne(out, last) + f'.outs, f'.end)
  {
    hide Take, OnFrame, StampAll, StampOne, Place, Shift;
    TakeConsumes(buf, s.max);
    var t := Take(buf, s.max);
    var (c', out, err) := OnFrame(s, c, t.frame);
    var at := t.frame.wireLen;
    StampTurn(out, at, Drain(s, c', t.rest, at).outs, last);
    if err.None? {
      DrainShift(s, c', t.rest, 0, at);
      var d' := Drain(s, c', t.rest, 0);
      StampShifted(d'.outs, at, last);
      if d'.end.Waiting? && chunks != [] && chunks[0].bytes != [] {
        var f := Feed(s, d'.end.conn, d'.end.rest + chunks[0].bytes, chunks[0].t, chunks[1..]);
        assert StampOne(out, last) + StampAll(d'.outs, last) + f.outs
            == StampOne(out, last) + (StampAll(d'.outs, last) + f.outs);
      }
    }
  }

  lemma StampShifted(outs: seq<Placed>, k: nat, t: int)
    ensures StampAll(Shift(outs, k), t) == StampAll(outs, t)
  {
  }

  lemma StampTurn(out: Option<Output>, at: nat, outs: seq<Placed>, t: int)
    ensures StampAll(Place(out, at) + outs, t) == StampOne(out, t) + StampAll(outs, t)
    ensures StampAll(Place(out, at), t) == StampOne(out, t)
  {
  }

  lemma FeedBroken<C>(s: Setup<C>, c: Conn<C>, buf: seq<Byte>, last: int, chunks: seq<Read>)
    requires Take(buf, s.max).Malformed?
    ensures Feed(s, c, buf, last, chunks) == Session([], Failed(BadFrame(Take(buf, s.max).error)))
  {
    hide Take;
  }

  /** Reading more, when there is no complete frame. */
  lemma FeedRead<C>(s: Setup<C>, c: Conn<C>, buf: seq<Byte>, last: int, chunks: seq<Read>)
    requires Take(buf, s.max).NeedMore?
    ensures Feed(s, c, buf, last, chunks) ==
            if chunks == [] || chunks[0].bytes == [] then Session([], Waiting(c, buf))
            else Feed(s, c, buf + chunks[0].bytes, chunks[0].t, chunks[1..])
  {
    hide Take, OnFrame;
    assert Drain(s, c, buf, 0) == Drained([], Waiting(c, buf));
    if chunks != [] {
      var f := Feed(s, c, buf + chunks[0].bytes, chunks[0].t, chunks[1..]);
      assert [] + f.outs == f.outs;
    }
  }

  // ----- writes that fail -----

  /** A session over a connection that takes `writes` more frames: a pong that cannot be written ends it, a close
      frame that cannot be written is given up. */
  function Cut<C>(f: Session<C>, writes: nat): Session<C>
    decreases |f.outs|
  {
    if f.outs == [] then f
    else
      var out, rest := f.outs[0], Session(f.outs[1..], f.end);
      if out.out.Reply? && writes == 0 then
        if out.out.opcode == OP_PONG then Session([], Failed(WriteFailed)) else Cut(rest, 0)
      else
        var g := Cut(rest, if out.out.Reply? then writes - 1 else writes);
        Session([out] + g.outs, g.end)
  }

  lemma CutTurn<C>(out: Option<Output>, t: int, f: Session<C>, writes: nat)
    ensures var g := Cut(Session(StampOne(out, t) + f.outs, f.end), writes);
            if out.None? then g == Cut(f, writes)
            else if out.value.Reply? && writes == 0 then
              g == if out.value.opcode == OP_PONG then Session([], Failed(WriteFailed)) else Cut(f, 0)
            else
              var f' := Cut(f, if out.value.Reply? then writes - 1 else writes);
              g == Session(StampOne(out, t) + f'.outs, f'.end)
  {
    var one := StampOne(out, t);
    if out.None? {
      assert one + f.outs == f.outs;
    } else {
      assert (one + f.outs)[0] == one[0] && (one + f.outs)[1..] == f.outs;
      assert Session(f.outs, f.end) == f;
    }
  }

  lemma CutNothing<C>(end: End<C>, writes: nat)
    ensures Cut(Session([], end), writes) == Session([], end)
  {
  }

  predicate Lost(out: Option<Output>, writes: nat) {
    out.Some? && out.value.Reply? && writes == 0
  }

  /** What of an output gets through, and the error that ends the session then. */
  function Shown(out: Option<Output>, t: int, writes: nat): seq<Stamped> {
    if Lost(out, writes) then [] else StampOne(out, t)
  }

  function ErrorShown(out: Option<Output>, err: Option<Error>, writes: nat): Option<Error> {
    if Lost(out, writes) && out.value.opcode == OP_PONG then Some(WriteFailed) else err
  }

  function WritesAfter(out: Option<Output>, writes: nat): nat {
    if out.Some? && out.value.Reply? && writes > 0 then writes - 1 else writes
  }

  /** Taking one frame off the buffer, when writes may fail. */
  lemma CutFeedTurn<C>(s: Setup<C>, c: Conn<C>, buf: seq<Byte>, last: int, chunks: seq<Read>, writes: nat)
    requires Take(buf, s.max).Took?
    ensures var t := Take(buf, s.max);
            var (c', out, err) := OnFrame(s, c, t.frame);
            var f, g := Cut(Feed(s, c, buf, last, chunks), writes),
                Cut(Feed(s, c', t.rest, last, chunks), WritesAfter(out, writes));
            var error := ErrorShown(out, err, writes);
            if error.Some? then f == Session(Shown(out, last, writes), Failed(error.value))
            else f == Session(Shown(out, last, writes) + g.outs, g.end)
  {
    hide Take, OnFrame, Feed, Cut, StampOne;
    var t := Take(buf, s.max);
    var (c', out, err) := OnFrame(s, c, t.frame);
    FeedTurn(s, c, buf, last, chunks);
    var one := StampOne(out, last);
    var after := if err.Some? then Session([], Failed(err.value)) else Feed(s, c', t.rest, last, chunks);
    assert one + [] == one;
    CutTurn(out, last, after, writes);
    if err.Some? {
      CutNothing<C>(Failed(err.value), writes);
      CutNothing<C>(Failed(err.value), WritesAfter(out, writes));
    }
    assert [] + Cut(after, writes).outs == Cut(after, writes).outs;
    NoneStamped(out, last);
  }

  lemma NoneStamped(out: Option<Output>, t: int)
    ensures out.None? ==> StampOne(out, t) == []
  {
  }

  /** A frame that ends the session delivers nothing, and is not the end of the connection itself. */
  lemma FailingFrame<C>(s: Setup<C>, c: Conn<C>, f: Frame, writes: nat)
    requires ErrorShown(OnFrame(s, c, f).1, OnFrame(s, c, f).2, writes).Some?
    ensures ErrorShown(OnFrame(s, c, f).1, OnFrame(s, c, f).2, writes) != Some(ConnectionClosed)
    ensures OnFrame(s, c, f).1.None? || OnFrame(s, c, f).1.value.Reply?
  {
  }

  lemma ShownParts(out: Option<Output>, t: int, writes: nat)
    ensures var shown := Shown(out, t, writes);
            && Replies(shown) == (if out.Some? && out.value.Reply? && writes > 0 then [out.value] else [])
            && Messages(shown) == (if out.Some? && out.value.Deliver? then shown else [])
            && (out.Some? && out.value.Deliver? ==> shown == [Stamped(out.value, t)])
  {
    NoOutputs();
    OneOutput(out, t);
  }

  /** Failing writes cost nothing but what comes after the first pong that fails: the messages are a prefix of those
      of the session, all of them with the session's own end if there are enough writes. */
  lemma {:induction false} CutShort<C>(f: Session<C>, writes: nat)
    ensures Messages(Cut(f, writes).outs) <= Messages(f.outs)
    ensures Cut(f, writes).end != Failed(WriteFailed) ==>
              Messages(Cut(f, writes).outs) == Messages(f.outs) && Cut(f, writes).end == f.end
    ensures |Replies(f.outs)| <= writes ==> Cut(f, writes) == f
    decreases |f.outs|
  {
    hide Cut, Messages, Replies, StampOne, Shown;
    NoOutputs();
    if f.outs == [] {
      CutNothing(f.end, writes);
      assert f == Session([], f.end);
    } else {
      var out, t, rest := f.outs[0].out, f.outs[0].t, Session(f.outs[1..], f.end);
      var one := StampOne(Some(out), t);
      OneOutput(Some(out), t);
      assert f.outs == one + rest.outs;
      Concat(one, rest.outs);
      CutTurn(Some(out), t, rest, writes);
      var left := if out.Reply? && writes > 0 then writes - 1 else writes;
      CutShort(rest, left);
      Concat(one, Cut(rest, left).outs);
      assert [] + Messages(rest.outs) == Messages(rest.outs);
      assert [] + Messages(Cut(rest, left).outs) == Messages(Cut(rest, left).outs);
    }
  }

  /** Is output i a pong with which the connection is already full? */
  predicate LostPong<C>(f: Session<C>, writes: nat, i: nat)
    requires i < |f.outs|
  {
    f.outs[i].out.Reply? && f.outs[i].out.opcode == OP_PONG && |Replies(f.outs[..i])| >= writes
  }

  /** The first pong that cannot be written ends the session there, with the messages before it; if there is none, the
      session ends as it would have, even when a close frame could not be written. The replies that get through are the
      first ones. */
  lemma {:induction false} CutExactly<C>(f: Session<C>, writes: nat, i: nat)
    requires i <= |f.outs| && forall j :: 0 <= j < i ==> !LostPong(f, writes, j)
    requires i < |f.outs| ==> LostPong(f, writes, i)
    ensures var g, replies := Cut(f, writes), Replies(f.outs[..i]);
            && g.end == (if i < |f.outs| then Failed(WriteFailed) else f.end)
            && Messages(g.outs) == Messages(f.outs[..i])
            && Replies(g.outs) == if |replies| <= writes then replies else replies[..writes]
    decreases |f.outs|
  {
    hide Cut, Messages, Replies, StampOne;
    NoOutputs();
    if f.outs == [] {
      CutNothing(f.end, writes);
      assert f == Session([], f.end) && f.outs[..i] == [];
    } else {
      var out, t, rest := f.outs[0].out, f.outs[0].t, Session(f.outs[1..], f.end);
      var one := StampOne(Some(out), t);
      OneOutput(Some(out), t);
      assert f.outs == one + rest.outs;
      CutTurn(Some(out), t, rest, writes);
      if i == 0 {
        assert f.outs[..0] == [];
      } else {
        assert f.outs[..0] == [];
        assert !LostPong(f, writes, 0);
        var left := if out.Reply? && writes > 0 then writes - 1 else writes;
        forall j | 0 <= j <= i - 1
          ensures Replies(f.outs[..j + 1]) == Replies(one) + Replies(rest.outs[..j])
          ensures Messages(f.outs[..j + 1]) == Messages(one) + Messages(rest.outs[..j])
        {
          assert f.outs[..j + 1] == one + rest.outs[..j];
          Concat(one, rest.outs[..j]);
        }
        forall j | 0 <= j < |rest.outs| && j <= i - 1
          ensures LostPong(rest, left, j) <==> LostPong(f, writes, j + 1)
        {
          assert rest.outs[j] == f.outs[j + 1];
        }
        CutExactly(rest, left, i - 1);
        Concat(one, Cut(rest, left).outs);
      }
    }
  }

  /** The replies among the outputs, and the messages with their stamps. */
  function Replies(outs: seq<Stamped>): seq<Output> {
    if outs == [] then []
    else Replies(outs[..|outs| - 1]) + if outs[|outs| - 1].out.Reply? then [outs[|outs| - 1].out] else []
  }

  function Messages(outs: seq<Stamped>): seq<Stamped> {
    if outs == [] then []
    else Messages(outs[..|outs| - 1]) + if outs[|outs| - 1].out.Deliver? then [outs[|outs| - 1]] else []
  }

  lemma {:induction false} Concat(a: seq<Stamped>, b: seq<Stamped>)
    ensures Replies(a + b) == Replies(a) + Replies(b) && Messages(a + b) == Messages(a) + Messages(b)
  {
    if b == [] {
      assert a + b == a;
      NoOutputs();
      assert Replies(a) + [] == Replies(a) && Messages(a) + [] == Messages(a);
    } else {
      var front, last := b[..|b| - 1], b[|b| - 1];
      Concat(a, front);
      assert a + b == a + front + [last] && b == front + [last];
      OutputsSnoc(a + front, last);
      OutputsSnoc(front, last);
      hide Replies, Messages;
      Assoc(Replies(a), Replies(front), if last.out.Reply? then [last.out] else []);
      Assoc(Messages(a), Messages(front), if last.out.Deliver? then [last] else []);
    }
  }

  lemma OutputsSnoc(a: seq<Stamped>, last: Stamped)
    ensures Replies(a + [last]) == Replies(a) + if last.out.Reply? then [last.out] else []
    ensures Messages(a + [last]) == Messages(a) + if last.out.Deliver? then [last] else []
  {
    assert (a + [last])[..|a|] == a;
  }

  lemma NoOutputs()
    ensures Replies([]) == [] && Messages([]) == []
  {
  }

  lemma OneOutput(out: Option<Output>, t: int)
    ensures |StampOne(out, t)| == (if out.Some? then 1 else 0)
    ensures out.Some? ==> StampOne(out, t)[0] == Stamped(out.value, t)
    ensures Replies(StampOne(out, t)) == if out.Some? && out.value.Reply? then [out.value] else []
    ensures Messages(StampOne(out, t)) == if out.Some? && out.value.Deliver? then StampOne(out, t) else []
  {
    if out.Some? {
      assert StampOne(out, t)[..0] == [];
    }
  }

  class Client<!C> {
    const setup: Setup<C>
    var buf: seq<Byte>
    var open: Option<OpenMessage>
    var ctx: Option<C>
    /** When the newest bytes came in; the stamp of whatever they complete. */
    var lastRead: int
    /** What the network will still bring: the reads to come. */
    var incoming: seq<Read>
    /** How many frames the connection will still take before a write fails. */
    var writesLeft: nat
    /** The control frames written back, and what they say. */
    var written: seq<seq<Byte>>
    ghost var replies: seq<Output>

    /** A usize limit, and a faithful record of what was written. */
    ghost predicate Valid()
      reads this
    {
      && setup.max < 0x1_0000_0000_0000_0000
      && |written| == |replies|
      && forall i :: 0 <= i < |written| ==> Says(written[i], replies[i])
    }

    ghost function Conn(): Conn<C>
      reads this
    {
      Receive.Conn(open, ctx)
    }

    /** All that this client will still put out, were it left to run. */
    ghost function Future(): Session<C>
      reads this
    {
      Cut(Feed(setup, Conn(), buf, lastRead, incoming), writesLeft)
    }

    /** `left` is what the handshake had read beyond the response head. */
    constructor (setup: Setup<C>, ctx: Option<C>, left: seq<Byte>, now: int, incoming: seq<Read>, writes: nat)
      requires setup.max < 0x1_0000_0000_0000_0000
      ensures Valid() && replies == []
      ensures Future() == Cut(Feed(setup, Receive.Conn(None, ctx), left, now, incoming), writes)
    {
      this.setup, this.buf, this.open, this.ctx := setup, left, None, ctx;
      this.lastRead, this.incoming, this.writesLeft, this.written, this.replies := now, incoming, writes, [], [];
    }

    /** `parse_frame`, on the buffer in place. */
    method ParseFrame() returns (frame: Option<Frame>, error: Option<FrameError>)
      modifies `buf
      ensures match Take(old(buf), setup.max)
              case NeedMore => frame.None? && error.None? && buf == old(buf)
              case Malformed(e) => frame.None? && error == Some(e) && buf == old(buf)
              case Took(f, rest) => frame == Some(f) && error.None? && buf == rest
    {
      hide FromBe, Masked;
      frame, error := None, None;
      if |buf| < 2 { return; }
      var b0, b1 := buf[0], buf[1];
      if b0 / 0x10 % 4 != 0 { return None, Some(ReservedBits); }
      var masked := b1 >= 0x80;
      var len: nat := (b1 % 0x80) as nat;
      var hl := 2;
      if len == 126 {
        if |buf| < 4 { return; }
        len := FromBe(buf[2..4]);
        hl := 4;
      } else if len == 127 {
        if |buf| < 10 { return; }
        len := FromBe(buf[2..10]);
        hl := 10;
      }
      if masked { hl := hl + 4; }
      if len > setup.max { return None, Some(FrameTooLong(len)); }
      if |buf| < hl + len { return; }
      var payload := CopyPayload(buf[hl..hl + len], if masked then Some(buf[hl - 4..hl]) else None);
      buf := buf[hl + len..];
      frame := Some(Frame(b0 >= 0x80, b0 / 0x40 % 2 == 1, b0 % 0x10, payload, hl + len));
    }

    /** `finish` */
    method Finish(compressed: bool, payload: seq<Byte>, wireLen: nat) returns (m: Option<Output>, error: Option<Error>)
      modifies `ctx
      ensures (Conn(), m, error) == Receive.Finish(setup, old(Conn()), compressed, payload, wireLen)
    {
      if !compressed { return Some(Deliver(payload, wireLen)), None; }
      if ctx.None? { return None, Some(NotNegotiated); }
      var (ctx', data) := setup.inflate(ctx.value, payload);
      ctx := Some(ctx');
      if data.None? { return None, Some(InflateFailed); }
      return Some(Deliver(data.value, wireLen)), None;
    }

    /** `data_frame` */
    method DataFrame(f: Frame) returns (m: Option<Output>, error: Option<Error>)
      modifies `open, `ctx
      ensures (Conn(), m, error) == Receive.DataFrame(setup, old(Conn()), f)
    {
      if f.opcode == OP_TEXT || f.opcode == OP_BINARY {
        if open.Some? { return None, Some(NestedData); }
        if f.rsv1 && ctx.None? { return None, Some(NotNegotiated); }
        if f.fin {
          m, error := Finish(f.rsv1, f.payload, f.wireLen);
          return;
        }
        open := Some(OpenMessage(f.rsv1, f.payload, f.wireLen));
        return None, None;
      }
      if open.None? { return None, Some(StrayContinuation); }
      var o := open.value;
      open := None;
      o := OpenMessage(o.compressed, o.acc + f.payload, o.wireLen + f.wireLen);
      if |o.acc| > setup.max { return None, Some(MessageTooLong); }
      if f.fin {
        m, error := Finish(o.compressed, o.acc, o.wireLen);
        return;
      }
      open := Some(o);
      return None, None;
    }

    /** Write a control frame under a fresh masking key, if the connection takes it. */
    method Write(opcode: Byte, payload: seq<Byte>) returns (ok: bool)
      requires Valid() && opcode < 0x10 && |payload| <= setup.max
      modifies `written, `replies, `writesLeft
      ensures Valid() && ok == (old(writesLeft) > 0)
      ensures writesLeft == if ok then old(writesLeft) - 1 else 0
      ensures replies == old(replies) + if ok then [Reply(opcode, payload)] else []
    {
      if writesLeft == 0 { return false; }
      writesLeft := writesLeft - 1;
      ok := true;
      var mask: Mask := *;
      var frame := ClientFrame(payload, opcode, mask);
      written := written + [frame];
      replies := replies + [Reply(opcode, payload)];
    }

    /** The body of the frame loop: data frames to reassembly, control frames answered at once. */
    method HandleFrame(f: Frame) returns (m: Option<Output>, error: Option<Error>)
      requires Valid() && |f.payload| <= setup.max
      modifies `open, `ctx, `written, `replies, `writesLeft
      ensures Valid() && Conn() == OnFrame(setup, old(Conn()), f).0
      ensures var (c', out, err) := OnFrame(setup, old(Conn()), f);
              && m == (if out.Some? && out.value.Deliver? then out else None)
              && replies == old(replies)
                + (if out.Some? && out.value.Reply? && old(writesLeft) > 0 then [out.value] else [])
              && writesLeft == WritesAfter(out, old(writesLeft))
              && error == ErrorShown(out, err, old(writesLeft))
    {
      m, error := None, None;
      if f.opcode in {OP_TEXT, OP_BINARY, OP_CONT} {
        m, error := DataFrame(f);
      } else if f.opcode == OP_PING {
        var ok := Write(OP_PONG, f.payload);
        if !ok { error := Some(WriteFailed); }
      } else if f.opcode == OP_PONG {
      } else if f.opcode == OP_CLOSE {
        var k := if |f.payload| < 2 then |f.payload| else 2;
        var code := if |f.payload| >= 2 then Some(FromBe(f.payload[..2])) else None;
        var _ := Write(OP_CLOSE, f.payload[..k]);
        error := Some(ClosedByServer(code, f.payload[k..]));
      } else {
        error := Some(UnknownOpcode(f.opcode));
      }
    }

    /** One turn of the frame loop: the frame at the front of the buffer, if it is complete, with what it causes.
        `shown` is what it puts out; it delivers a message, ends the session, or neither. */
    method Turn() returns (took: bool, m: Option<Output>, error: Option<Error>, ghost shown: seq<Stamped>)
      requires Valid()
      modifies `buf, `open, `ctx, `written, `replies, `writesLeft
      ensures Valid() && replies == old(replies) + Replies(shown)
      ensures Messages(shown) == if m.Some? then shown else []
      ensures m.Some? ==> m.value.Deliver? && shown == [Stamped(m.value, lastRead)]
      ensures error.Some? ==>
                m.None? && !error.value.ConnectionClosed? && old(Future()) == Session(shown, Failed(error.value))
      ensures error.None? && took ==>
                old(Future()) == Session(shown + Future().outs, Future().end) && |buf| < |old(buf)|
      ensures error.None? && !took ==>
                && shown == [] && m.None? && Take(buf, setup.max).NeedMore?
                && buf == old(buf) && Conn() == old(Conn()) && writesLeft == old(writesLeft)
    {
      hide Take, Feed, Cut, OnFrame, Receive.DataFrame, Receive.Finish, Replies, Messages, Says, StampOne, Shown;
      hide ErrorShown, WritesAfter;
      took, m, error, shown := false, None, None, [];
      NoOutputs();
      ghost var c0, buf0, room := Conn(), buf, writesLeft;
      var frame, failure := ParseFrame();
      if failure.Some? {
        FeedBroken(setup, c0, buf0, lastRead, incoming);
        CutNothing<C>(Failed(BadFrame(failure.value)), room);
        error := Some(BadFrame(failure.value));
        return;
      }
      if frame.None? { return; }
      TakeConsumes(buf0, setup.max);
      CutFeedTurn(setup, c0, buf0, lastRead, incoming, room);
      ghost var out := OnFrame(setup, c0, frame.value).1;
      shown := Shown(out, lastRead, room);
      ShownParts(out, lastRead, room);
      took := true;
      m, error := HandleFrame(frame.value);
      if error.Some? { FailingFrame(setup, c0, frame.value, room); }
    }

    /** The next read, when the buffer holds no complete frame; none when the connection is closed. */
    method Read() returns (closed: bool)
      requires Valid() && Take(buf, setup.max).NeedMore?
      modifies `buf, `lastRead, `incoming
      ensures Valid()
      ensures closed ==> buf == old(buf) && old(Future()) == Session([], Waiting(Conn(), buf))
      ensures !closed ==> Future() == old(Future()) && Unread() == old(Unread()) && |incoming| < |old(incoming)|
    {
      hide Take, Feed, Cut, Says;
      FeedRead(setup, Conn(), buf, lastRead, incoming);
      closed := incoming == [] || incoming[0].bytes == [];
      if closed {
        CutNothing<C>(Waiting(Conn(), buf), writesLeft);
      } else {
        buf, lastRead, incoming := buf + incoming[0].bytes, incoming[0].t, incoming[1..];
      }
    }

    /** `next_message`: the next data message, its arrival stamp, or the error that ends the session. `outs` is what
        it puts out. Together with what the client will still put out, that is all it would have put out before. */
    method NextMessage() returns (r: Outcome, ghost outs: seq<Stamped>)
      requires Valid()
      modifies this
      ensures Valid() && replies == old(replies) + Replies(outs)
      ensures r.Got? ==>
                && outs != []
                && outs[|outs| - 1] == Stamped(Deliver(r.data, r.wireLen), r.arrival)
                && Messages(outs[..|outs| - 1]) == []
                && old(Future()) == Session(outs + Future().outs, Future().end)
      ensures r.Ended? ==>
                && Messages(outs) == []
                && old(Future()).outs == outs
                && old(Future()).end == (if r.error.ConnectionClosed? then Waiting(Conn(), buf) else Failed(r.error))
      ensures r.Got? ==> Unread() < old(Unread())
    {
      hide Take, Feed, Cut, Replies, Messages, Says, Flat;
      outs := [];
      NoOutputs();
      ghost var all := Future();
      assert all == Session(outs + all.outs, all.end);
      while true
        invariant Valid() && replies == old(replies) + Replies(outs) && Messages(outs) == []
        invariant all == Session(outs + Future().outs, Future().end)
        invariant Unread() <= old(Unread())
        decreases Unread(), |incoming|
      {
        ghost var before := outs;
        var took, m, error, shown := Turn();
        Concat(before, shown);
        outs := before + shown;
        assert outs[..|before|] == before;
        if error.Some? { return Ended(error.value), outs; }
        if took {
          Assoc(before, shown, Future().outs);
          if m.Some? { return Got(m.value.data, lastRead, m.value.wireLen), outs; }
        } else {
          assert outs == before;
          var closed := Read();
          assert outs + [] == outs;
          if closed { return Ended(ConnectionClosed), outs; }
        }
      }
    }

    ghost function Unread(): nat
      reads this
    {
      |buf| + |Flat(incoming)|
    }

    /** The loop every source runs: take messages until the session ends. */
    method RunSession() returns (messages: seq<Stamped>, error: Error)
      requires Valid()
      modifies this
      ensures Valid()
      ensures messages == Messages(old(Future()).outs)
      ensures replies == old(replies) + Replies(old(Future()).outs)
      ensures old(Future()).end == (if error.ConnectionClosed? then Waiting(Conn(), buf) else Failed(error))
    {
      hide Feed, Cut, Take, Replies, Messages, Says;
      messages := [];
      NoOutputs();
      ghost var past: seq<Stamped>, all := [], Future();
      assert all == Session(past + all.outs, all.end);
      while true
        invariant Valid() && messages == Messages(past) && replies == old(replies) + Replies(past)
        invariant all == Session(past + Future().outs, Future().end)
        decreases Unread()
      {
        var r, outs := NextMessage();
        Concat(past, outs);
        if r.Ended? { return messages, r.error; }
        assert past + (outs + Future().outs) == past + outs + Future().outs;
        LastMessage(outs);
        messages := messages + [Stamped(Deliver(r.data, r.wireLen), r.arrival)];
        past := past + outs;
      }
    }
  }

  lemma LastMessage(outs: seq<Stamped>)
    requires outs != [] && Messages(outs[..|outs| - 1]) == [] && outs[|outs| - 1].out.Deliver?
    ensures Messages(outs) == [outs[|outs| - 1]]
  {
  }
}
