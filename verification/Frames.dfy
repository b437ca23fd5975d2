/** The WebSocket frame layer: `parse_frame` and `client_frame`, against the base framing protocol of
    RFC 6455 section 5.2. */
module Frames {
  import opened Bytes

  type Mask = m: seq<Byte> | |m| == 4 witness [0, 0, 0, 0]

  const OP_CONT: Byte := 0x0
  const OP_TEXT: Byte := 0x1
  const OP_BINARY: Byte := 0x2
  const OP_CLOSE: Byte := 0x8
  const OP_PING: Byte := 0x9
  const OP_PONG: Byte := 0xA

  datatype Frame = Frame(fin: bool, rsv1: bool, opcode: Byte, payload: seq<Byte>, wireLen: nat)

  datatype FrameError = ReservedBits | FrameTooLong(len: nat)

  datatype Taken =
    | NeedMore
    | Malformed(error: FrameError)
    | Took(frame: Frame, rest: seq<Byte>)

  /** XOR with the masking key; its own inverse. */
  function Masked(p: seq<Byte>, m: Mask): (q: seq<Byte>)
    ensures |q| == |p|
  {
    seq(|p|, i requires 0 <= i < |p| => Xor(p[i], m[i % 4]))
  }

  /** Bytes of extended length that the second header byte announces. */
  function ExtLen(b1: Byte): nat {
    if b1 % 0x80 == 126 then 2 else if b1 % 0x80 == 127 then 8 else 0
  }

  function MaskLen(b1: Byte): nat {
    if b1 >= 0x80 then 4 else 0
  }

  function PayloadLen(buf: seq<Byte>): nat
    requires |buf| >= 2 && |buf| >= 2 + ExtLen(buf[1])
  {
    if ExtLen(buf[1]) == 0 then (buf[1] % 0x80) as int else FromBe(buf[2..2 + ExtLen(buf[1])])
  }

  /** The frame at the front of a buffer and what remains, or why there is none. */
  function Take(buf: seq<Byte>, max: nat): Taken {
    if |buf| < 2 then NeedMore
    else if buf[0] / 0x10 % 4 != 0 then Malformed(ReservedBits)
    else if |buf| < 2 + ExtLen(buf[1]) then NeedMore
    else
      var len := PayloadLen(buf);
      var hl := 2 + ExtLen(buf[1]) + MaskLen(buf[1]);
      if len > max then Malformed(FrameTooLong(len))
      else if |buf| < hl + len then NeedMore
      else
        var raw := buf[hl..hl + len];
        var payload := if MaskLen(buf[1]) == 4 then Masked(raw, buf[hl - 4..hl]) else raw;
        Took(Frame(buf[0] >= 0x80, buf[0] / 0x40 % 2 == 1, buf[0] % 0x10, payload, hl + len), buf[hl + len..])
  }

  // ----- growing the buffer -----

  /** What `Take` decided on a buffer it still decides after more bytes arrive. */
  lemma TakeStable(buf: seq<Byte>, more: seq<Byte>, max: nat)
    ensures Take(buf, max).Malformed? ==> Take(buf + more, max) == Take(buf, max)
    ensures Take(buf, max).Took? ==>
              Take(buf + more, max) == Took(Take(buf, max).frame, Take(buf, max).rest + more)
  {
    hide Masked, FromBe;
    if |buf| >= 2 && |buf| >= 2 + ExtLen(buf[1]) {
      var e := 2 + ExtLen(buf[1]);
      assert (buf + more)[2..e] == buf[2..e];
      var hl, len := e + MaskLen(buf[1]), PayloadLen(buf);
      if |buf| >= hl + len {
        assert (buf + more)[hl..hl + len] == buf[hl..hl + len];
        assert (buf + more)[e..hl] == buf[e..hl];
        assert (buf + more)[hl + len..] == buf[hl + len..] + more;
      }
    }
  }

  /** A frame is taken as soon as its last byte is in the buffer. */
  lemma TakePrompt(buf: seq<Byte>, more: seq<Byte>, max: nat)
    requires Take(buf, max).NeedMore? && Take(buf + more, max).Took?
    ensures Take(buf + more, max).frame.wireLen > |buf|
  {
    var all := buf + more;
    if |buf| >= 2 && |buf| >= 2 + ExtLen(buf[1]) {
      var e := 2 + ExtLen(buf[1]);
      assert all[2..e] == buf[2..e];
    }
  }

  lemma TakeConsumes(buf: seq<Byte>, max: nat)
    requires Take(buf, max).Took?
    ensures var t := Take(buf, max);
            && 2 <= t.frame.wireLen <= |buf|
            && t.rest == buf[t.frame.wireLen..]
            && |t.frame.payload| <= max
  {
  }

  // ----- the encoder side -----

  /** The three length encodings of the second header byte. */
  datatype Form = Short | Long16 | Long64

  /** A frame as an endpoint lays it out on the wire. */
  datatype Layout = Layout(fin: bool, rsv1: bool, opcode: Byte, form: Form, mask: Option<Mask>, payload: seq<Byte>)

  predicate Fits(w: Layout) {
    && w.opcode < 0x10
    && match w.form
       case Short => |w.payload| < 126
       case Long16 => |w.payload| < 0x1_0000
       case Long64 => |w.payload| < 0x1_0000_0000_0000_0000
  }

  type Wire = w: Layout | Fits(w) witness Layout(true, false, OP_PING, Short, None, [])

  function HeadByte(w: Wire): Byte
  {
    (if w.fin then 0x80 else 0) + (if w.rsv1 then 0x40 else 0) + w.opcode
  }

  function LenByte(w: Wire): Byte
  {
    (if w.mask.Some? then 0x80 else 0) +
    match w.form
    case Short => |w.payload| as Byte
    case Long16 => 126
    case Long64 => 127
  }

  function Extended(w: Wire): (s: seq<Byte>)
  {
    match w.form
    case Short => []
    case Long16 => ToBe(|w.payload|, 2)
    case Long64 => ToBe(|w.payload|, 8)
  }

  function Encode(w: Wire): (s: seq<Byte>)
  {
    [HeadByte(w), LenByte(w)] + Extended(w) + (MaskBytes(w) + Scrambled(w))
  }

  function MaskBytes(w: Layout): seq<Byte> {
    if w.mask.Some? then w.mask.value else []
  }

  function Scrambled(w: Layout): (s: seq<Byte>)
    ensures |s| == |w.payload|
  {
    if w.mask.Some? then Masked(w.payload, w.mask.value) else w.payload
  }

  function Decoded(w: Wire): Frame
  {
    Frame(w.fin, w.rsv1, w.opcode, w.payload, |Encode(w)|)
  }

  lemma MaskedTwice(p: seq<Byte>, m: Mask)
    ensures Masked(Masked(p, m), m) == p
  {
    forall i | 0 <= i < |p| ensures Masked(Masked(p, m), m)[i] == p[i] {
      XorTwice(p[i], m[i % 4]);
    }
  }

  lemma EncodedLength(w: Wire)
    ensures FromBe(Extended(w)) == if w.form.Short? then 0 else |w.payload|
  {
    Pow256Values();
    match w.form
    case Short =>
    case Long16 => FromToBe(|w.payload|, 2);
    case Long64 => FromToBe(|w.payload|, 8);
  }

  lemma Slices(h: seq<Byte>, x: seq<Byte>, m: seq<Byte>, p: seq<Byte>, rest: seq<Byte>)
    ensures var buf, e := h + x + (m + p) + rest, |h| + |x|;
            && buf[..|h|] == h && buf[|h|..e] == x && buf[e..e + |m|] == m
            && buf[e + |m|..e + |m| + |p|] == p && buf[e + |m| + |p|..] == rest
  {
  }

  /** Where the parts of an encoded frame lie. */
  lemma EncodedParts(w: Wire, rest: seq<Byte>)
    ensures var buf, e := Encode(w) + rest, 2 + |Extended(w)|;
            var hl := e + |MaskBytes(w)|;
            && |Encode(w)| == hl + |w.payload|
            && buf[0] == HeadByte(w) && buf[1] == LenByte(w)
            && buf[2..e] == Extended(w)
            && buf[e..hl] == MaskBytes(w)
            && buf[hl..hl + |w.payload|] == Scrambled(w)
            && buf[hl + |w.payload|..] == rest
  {
    hide HeadByte, LenByte, Extended, MaskBytes, Scrambled;
    Slices([HeadByte(w), LenByte(w)], Extended(w), MaskBytes(w), Scrambled(w), rest);
  }

  lemma HeaderBits(w: Wire)
    ensures var b0, b1 := HeadByte(w), LenByte(w);
            && b0 / 0x10 % 4 == 0 && (b0 >= 0x80) == w.fin && (b0 / 0x40 % 2 == 1) == w.rsv1 && b0 % 0x10 == w.opcode
            && ExtLen(b1) == |Extended(w)| && MaskLen(b1) == |MaskBytes(w)|
            && (w.form.Short? ==> (b1 % 0x80) as int == |w.payload|)
  {
    hide ToBe, Masked;
  }

  /** Round trip, in all three length forms, masked or not, whatever follows the frame. */
  lemma TakeEncode(w: Wire, rest: seq<Byte>, max: nat)
    ensures Take(Encode(w) + rest, max) ==
            if |w.payload| <= max then Took(Decoded(w), rest) else Malformed(FrameTooLong(|w.payload|))
  {
    hide HeadByte, LenByte, FromBe, ToBe, Encode, Masked;
    EncodedParts(w, rest);
    HeaderBits(w);
    EncodedLength(w);
    if w.mask.Some? {
      MaskedTwice(w.payload, w.mask.value);
    }
    assert PayloadLen(Encode(w) + rest) == |w.payload|;
  }

  /** The wire layout of the frame at the front of a buffer. */
  function WireOf(buf: seq<Byte>, max: nat): Layout
    requires Take(buf, max).Took?
  {
    hide Masked, FromBe;
    var f := Take(buf, max).frame;
    var e := 2 + ExtLen(buf[1]);
    Layout(f.fin, f.rsv1, f.opcode,
         if e == 2 then Short else if e == 4 then Long16 else Long64,
         if MaskLen(buf[1]) == 4 then Some(buf[e..e + 4]) else None,
         f.payload)
  }

  lemma RebuiltLength(buf: seq<Byte>, max: nat)
    requires Take(buf, max).Took?
    ensures var w := WireOf(buf, max);
            && Fits(w) && LenByte(w) == buf[1]
            && Extended(w) == buf[2..2 + ExtLen(buf[1])]
  {
    hide Masked, FromBe, ToBe;
    Pow256Values();
    var x := buf[2..2 + ExtLen(buf[1])];
    ToFromBe(x);
    assert FromBe(x) < Pow256(|x|);
    assert |Take(buf, max).frame.payload| == PayloadLen(buf);
  }

  lemma RebuiltHead(buf: seq<Byte>, max: nat)
    requires Take(buf, max).Took? && Fits(WireOf(buf, max))
    ensures HeadByte(WireOf(buf, max)) == buf[0]
  {
    hide Masked, FromBe;
  }

  lemma RebuiltBody(buf: seq<Byte>, max: nat)
    requires Take(buf, max).Took?
    ensures var w, e := WireOf(buf, max), 2 + ExtLen(buf[1]);
            && e + MaskLen(buf[1]) <= Take(buf, max).frame.wireLen <= |buf|
            && MaskBytes(w) == buf[e..e + MaskLen(buf[1])]
            && Scrambled(w) == buf[e + MaskLen(buf[1])..Take(buf, max).frame.wireLen]
  {
    hide FromBe, Masked;
    var f, hl := Take(buf, max).frame, 2 + ExtLen(buf[1]) + MaskLen(buf[1]);
    if MaskLen(buf[1]) == 4 {
      MaskedTwice(buf[hl..hl + |f.payload|], buf[hl - 4..hl]);
    }
  }

  /** The converse round trip: the bytes taken are exactly the encoding of the frame taken, so parsing and
      encoding are inverse to each other and a byte stream has at most one reading. */
  lemma EncodeTake(buf: seq<Byte>, max: nat)
    requires Take(buf, max).Took?
    ensures var w := WireOf(buf, max);
            && Fits(w)
            && Encode(w) == buf[..Take(buf, max).frame.wireLen]
            && Decoded(w) == Take(buf, max).frame
  {
    hide Take, HeadByte, LenByte, Extended, MaskBytes, Scrambled, ExtLen, MaskLen, Encode;
    RebuiltLength(buf, max);
    RebuiltHead(buf, max);
    RebuiltBody(buf, max);
    TakeConsumes(buf, max);
    var e, hl, k := 2 + ExtLen(buf[1]), 2 + ExtLen(buf[1]) + MaskLen(buf[1]), Take(buf, max).frame.wireLen;
    Rejoined(buf, e, hl, k, WireOf(buf, max));
  }

  lemma Rejoined(buf: seq<Byte>, e: nat, hl: nat, k: nat, w: Wire)
    requires 2 <= e <= hl <= k <= |buf|
    requires HeadByte(w) == buf[0] && LenByte(w) == buf[1] && Extended(w) == buf[2..e]
    requires MaskBytes(w) == buf[e..hl] && Scrambled(w) == buf[hl..k]
    ensures Encode(w) == buf[..k]
  {
    hide HeadByte, LenByte, Extended, MaskBytes, Scrambled;
    assert buf[..k] == [buf[0], buf[1]] + buf[2..e] + (buf[e..hl] + buf[hl..k]);
  }

  // ----- client_frame -----

  function MinimalForm(n: nat): Form {
    if n < 126 then Short else if n < 65536 then Long16 else Long64
  }

  /** What a client must send: one final, masked frame with the shortest length form. */
  function ClientWire(payload: seq<Byte>, opcode: Byte, mask: Mask): Wire
    requires opcode < 0x10 && |payload| < 0x1_0000_0000_0000_0000
  {
    Layout(true, false, opcode, MinimalForm(|payload|), Some(mask), payload)
  }

  /** The frame ends in the masking key and the payload under it: a bit of byte j on the wire differs from that of the
      payload exactly where it is set in byte j modulo 4 of the key. */
  ghost predicate Keyed(out: seq<Byte>, payload: seq<Byte>, mask: Mask) {
    var hl := |out| - |payload|;
    && hl >= 6 && out[hl - 4..hl] == mask
    && forall j, i :: 0 <= j < |payload| && 0 <= i < 8 ==>
         (Bit(out[hl + j], i) != Bit(payload[j], i) <==> Bit(mask[j % 4], i))
  }

  lemma ClientKeyed(payload: seq<Byte>, opcode: Byte, mask: Mask)
    requires opcode < 0x10 && |payload| < 0x1_0000_0000_0000_0000
    ensures Keyed(Encode(ClientWire(payload, opcode, mask)), payload, mask)
  {
    hide Encode, HeadByte, LenByte, Extended, Xor, Bit;
    var w := ClientWire(payload, opcode, mask);
    var out := Encode(w);
    EncodedParts(w, []);
    assert out + [] == out;
    var hl := |out| - |payload|;
    forall j, i | 0 <= j < |payload| && 0 <= i < 8
      ensures Bit(out[hl + j], i) != Bit(payload[j], i) <==> Bit(mask[j % 4], i)
    {
      assert out[hl + j] == out[hl..hl + |payload|][j] == Xor(payload[j], mask[j % 4]);
      XorBitwise(payload[j], mask[j % 4], i);
    }
  }

  /** `client_frame`, with the random masking key as a parameter. */
  method ClientFrame(payload: seq<Byte>, opcode: Byte, mask: Mask) returns (out: seq<Byte>)
    requires opcode < 0x10 && |payload| < 0x1_0000_0000_0000_0000
    ensures out == Encode(ClientWire(payload, opcode, mask)) && Keyed(out, payload, mask)
  {
    hide Keyed, Encode, Xor, Bit, ToBe;
    var n := |payload|;
    ghost var w := ClientWire(payload, opcode, mask);
    out := [0x80 + opcode];
    if n < 126 {
      out := out + [0x80 + n as Byte];
    } else if n < 65536 {
      out := out + [0x80 + 126] + ToBe(n, 2);
    } else {
      out := out + [0x80 + 127] + ToBe(n, 8);
    }
    ghost var header := [HeadByte(w), LenByte(w)] + Extended(w);
    assert out == header;
    hide HeadByte, LenByte, Extended;
    out := out + mask;
    var i := 0;
    while i < n
      invariant 0 <= i <= n
      invariant out == header + (mask + Masked(payload, mask)[..i])
    {
      assert Masked(payload, mask)[..i + 1] == Masked(payload, mask)[..i] + [Xor(payload[i], mask[i % 4])];
      out := out + [Xor(payload[i], mask[i % 4])];
      i := i + 1;
    }
    assert Masked(payload, mask)[..n] == Masked(payload, mask);
    ClientParts(payload, opcode, mask);
    ClientKeyed(payload, opcode, mask);
  }

  lemma ClientParts(payload: seq<Byte>, opcode: Byte, mask: Mask)
    requires opcode < 0x10 && |payload| < 0x1_0000_0000_0000_0000
    ensures var w := ClientWire(payload, opcode, mask);
            Encode(w) == [HeadByte(w), LenByte(w)] + Extended(w) + (mask + Masked(payload, mask))
  {
    hide HeadByte, LenByte, Extended, Masked;
  }

  /** Whatever the masking key, the peer reads back the opcode and payload the client meant, in as few bytes as
      the protocol allows. */
  lemma ClientFrameRead(payload: seq<Byte>, opcode: Byte, mask: Mask, rest: seq<Byte>, max: nat)
    requires opcode < 0x10 && |payload| <= max && |payload| < 0x1_0000_0000_0000_0000
    ensures var out := Encode(ClientWire(payload, opcode, mask));
            && Take(out + rest, max) == Took(Frame(true, false, opcode, payload, |out|), rest)
            && forall w: Wire :: w.mask.Some? && w.payload == payload ==> |out| <= |Encode(w)|
  {
    TakeEncode(ClientWire(payload, opcode, mask), rest, max);
  }

  /** The examples of RFC 6455 section 5.7: "Hello" in one frame, masked, in two fragments, and as a ping and a masked
      pong. */
  lemma ProtocolExamples()
    ensures var hello: seq<Byte>, key: Mask := [0x48, 0x65, 0x6c, 0x6c, 0x6f], [0x37, 0xfa, 0x21, 0x3d];
            && Encode(Layout(true, false, 0x1, Short, None, hello)) == [0x81, 0x05, 0x48, 0x65, 0x6c, 0x6c, 0x6f]
            && Encode(Layout(true, false, 0x1, Short, Some(key), hello)) == [0x81, 0x85] + key + Masked(hello, key)
            && Encode(ClientWire(hello, 0xA, key)) == [0x8a, 0x85] + key + Masked(hello, key)
            && Encode(Layout(false, false, 0x1, Short, None, hello[..3])) == [0x01, 0x03, 0x48, 0x65, 0x6c]
            && Encode(Layout(true, false, 0x0, Short, None, hello[3..])) == [0x80, 0x02, 0x6c, 0x6f]
            && Encode(Layout(true, false, 0x9, Short, None, hello)) == [0x89, 0x05, 0x48, 0x65, 0x6c, 0x6c, 0x6f]
  {
    hide Masked;
  }

  /** The longer headers: 126 announces a length in two bytes, 127 one in eight. */
  lemma LongHeaders(w: Wire)
    requires !w.form.Short?
    ensures var out, k := Encode(w), if w.form.Long16? then 4 else 10;
            && out[1] % 0x80 == (if w.form.Long16? then 126 else 127)
            && |out| >= k && FromBe(out[2..k]) == |w.payload|
  {
    hide Encode, HeadByte, FromBe, ToBe;
    EncodedParts(w, []);
    EncodedLength(w);
    assert Encode(w) + [] == Encode(w);
  }

  /** `*b ^= m[i & 3]` over the payload, in place. */
  method Unmask(payload: array<Byte>, m: Mask)
    modifies payload
    ensures payload[..] == Masked(old(payload[..]), m)
  {
    for i := 0 to payload.Length
      invariant forall k :: 0 <= k < i ==> payload[k] == Xor(old(payload[k]), m[k % 4])
      invariant forall k :: i <= k < payload.Length ==> payload[k] == old(payload[k])
    {
      payload[i] := Xor(payload[i], m[i % 4]);
    }
  }

  /** The payload of a frame, copied out of the buffer and unmasked. */
  method CopyPayload(raw: seq<Byte>, mask: Option<Mask>) returns (p: seq<Byte>)
    ensures p == if mask.Some? then Masked(raw, mask.value) else raw
  {
    var payload := new Byte[|raw|](i requires 0 <= i < |raw| => raw[i]);
    assert payload[..] == raw;
    if mask.Some? { Unmask(payload, mask.value); }
    p := payload[..];
  }
}
