/** Splitting a binary frame into signed transactions: self-delimiting RLP (Yellow Paper, Appendix B) and typed
    envelopes (EIP-2718), bare or each behind a 4- or 8-byte big-endian length. */
module Rlp {
  import opened Bytes

  /** `be` */
  function Be(b: seq<Byte>): Option<nat> {
    if b == [] || |b| > 8 then None else Some(FromBe(b))
  }

  /** Bytes of length after the first byte of an RLP item, for the two long forms. */
  function LengthOfLength(b0: Byte): nat {
    if 0xb8 <= b0 <= 0xbf then (b0 - 0xb7) as nat else if b0 >= 0xf8 then (b0 - 0xf7) as nat else 0
  }

  /** What the header of the item at the start of `b` declares, before any wrap-around. */
  function Declared(b: seq<Byte>): Option<nat> {
    if b == [] then None
    else if b[0] <= 0x7f then Some(1)
    else if b[0] <= 0xb7 then Some(1 + (b[0] - 0x80) as nat)
    else if 0xc0 <= b[0] <= 0xf7 then Some(1 + (b[0] - 0xc0) as nat)
    else
      var ll := LengthOfLength(b[0]);
      if |b| < 1 + ll then None else Some(1 + ll + FromBe(b[1..1 + ll]))
  }

  /** `rlp_item_len`; its additions wrap, as they do in the release build. */
  function RlpItemLen(b: seq<Byte>): Option<nat> {
    var d := Declared(b);
    if d.None? then None else Some(d.value % USIZE)
  }

  /** `tx_len` */
  function TxLen(b: seq<Byte>): Option<nat> {
    if b == [] then None
    else if b[0] < 0x80 then
      if |b| < 2 || b[1] < 0xc0 then None
      else
        var n := RlpItemLen(b[1..]);
        if n.None? then None else Some((1 + n.value) % USIZE)
    else if b[0] >= 0xc0 then RlpItemLen(b)
    else None
  }

  datatype Span = Span(lo: nat, hi: nat)

  /** One framing guess: the transactions from `pos` on, if the rest of the frame is a run of them. */
  function Attempt(frame: seq<Byte>, prefix: nat, pos: nat): Option<seq<Span>>
    requires pos <= |frame|
    decreases |frame| - pos
  {
    if pos == |frame| then Some([])
    else if pos + prefix > |frame| then None
    else
      var n := TxLen(frame[pos + prefix..]);
      if n.None? || (prefix > 0 && Be(frame[pos..pos + prefix]) != n) then None
      else if n.value > |frame| - pos - prefix || n.value < 8 then None
      else
        var more := Attempt(frame, prefix, pos + prefix + n.value);
        if more.None? then None else Some([Span(pos + prefix, pos + prefix + n.value)] + more.value)
  }

  function Found(a: Option<seq<Span>>): bool {
    a.Some? && a.value != []
  }

  /** The first of the three guesses that works. */
  function Split(frame: seq<Byte>): seq<Span> {
    if Found(Attempt(frame, 0, 0)) then Attempt(frame, 0, 0).value
    else if Found(Attempt(frame, 4, 0)) then Attempt(frame, 4, 0).value
    else if Found(Attempt(frame, 8, 0)) then Attempt(frame, 8, 0).value
    else []
  }

  /** The inner loop of `split_txs`: one framing guess. */
  method TryPrefix(frame: seq<Byte>, prefix: nat) returns (r: Option<seq<Span>>)
    ensures r == Attempt(frame, prefix, 0)
  {
    hide *;
    var out: seq<Span>, pos: nat := [], 0;
    PrependNothing([], Attempt(frame, prefix, 0));
    while pos < |frame|
      invariant pos <= |frame|
      invariant Attempt(frame, prefix, 0) == Prepend(out, Attempt(frame, prefix, pos))
    {
      AttemptUnfolds(frame, prefix, pos);
      PrependNothing(out, None);
      if pos + prefix > |frame| { return None; }
      var n := TxLen(frame[pos + prefix..]);
      if n.None? { return None; }
      if prefix > 0 && Be(frame[pos..pos + prefix]) != n { return None; }
      if n.value > |frame| - pos - prefix { return None; }
      if n.value < 8 { return None; }
      PrependOne(out, Span(pos + prefix, pos + prefix + n.value), Attempt(frame, prefix, pos + prefix + n.value));
      out := out + [Span(pos + prefix, pos + prefix + n.value)];
      pos := pos + prefix + n.value;
    }
    AttemptUnfolds(frame, prefix, pos);
    PrependNothing(out, None);
    return Some(out);
  }

  /** `split_txs` */
  method SplitTxs(frame: seq<Byte>) returns (r: seq<Span>)
    ensures r == Split(frame)
  {
    hide Attempt;
    var prefixes: seq<nat> := [0, 4, 8];
    for k := 0 to 3
      invariant k >= 1 ==> !Found(Attempt(frame, 0, 0))
      invariant k >= 2 ==> !Found(Attempt(frame, 4, 0))
      invariant k >= 3 ==> !Found(Attempt(frame, 8, 0))
    {
      var out := TryPrefix(frame, prefixes[k]);
      if out.Some? && out.value != [] { return out.value; }
    }
    return [];
  }

  lemma AttemptUnfolds(frame: seq<Byte>, prefix: nat, pos: nat)
    requires pos <= |frame|
    ensures Attempt(frame, prefix, pos) ==
            if pos == |frame| then Some([])
            else if pos + prefix > |frame| then None
            else
              var n := TxLen(frame[pos + prefix..]);
              if n.None? || (prefix > 0 && Be(frame[pos..pos + prefix]) != n) then None
              else if n.value > |frame| - pos - prefix || n.value < 8 then None
              else Prepend([Span(pos + prefix, pos + prefix + n.value)],
                           Attempt(frame, prefix, pos + prefix + n.value))
  {
  }

  lemma PrependNothing(out: seq<Span>, a: Option<seq<Span>>)
    ensures Prepend([], a) == a && Prepend(out, Some([])) == Some(out) && Prepend(out, None) == None
  {
    assert out + [] == out;
    if a.Some? {
      assert [] + a.value == a.value;
    }
  }

  function Prepend(out: seq<Span>, a: Option<seq<Span>>): Option<seq<Span>> {
    if a.None? then None else Some(out + a.value)
  }

  lemma PrependOne(out: seq<Span>, s: Span, a: Option<seq<Span>>)
    ensures Prepend(out, Prepend([s], a)) == Prepend(out + [s], a)
  {
    if a.Some? {
      assert out + ([s] + a.value) == out + [s] + a.value;
    }
  }

  // ----- what a transaction declares -----

  /** Bytes up to the end of the RLP header. */
  function HeaderLen(b: seq<Byte>): nat
    requires TxLen(b).Some?
  {
    if b[0] < 0x80 then 2 + LengthOfLength(b[1]) else 1 + LengthOfLength(b[0])
  }

  /** The declared length of the whole transaction, before any wrap-around. */
  function DeclaredTx(b: seq<Byte>): nat
    requires TxLen(b).Some?
  {
    if b[0] < 0x80 then 1 + Declared(b[1..]).value else Declared(b).value
  }

  lemma DeclaredBounds(b: seq<Byte>)
    requires TxLen(b).Some?
    ensures HeaderLen(b) <= |b| && HeaderLen(b) <= DeclaredTx(b) < USIZE + HeaderLen(b)
    ensures TxLen(b).value == if DeclaredTx(b) < USIZE then DeclaredTx(b) else DeclaredTx(b) - USIZE
  {
    ItemBounds(if b[0] < 0x80 then b[1..] else b);
    hide Declared, LengthOfLength;
    Wraps(DeclaredTx(b));
  }

  lemma Wraps(d: nat)
    requires d < USIZE + 10
    ensures d % USIZE == (if d < USIZE then d else d - USIZE)
    ensures d > 0 ==> (1 + (d - 1) % USIZE) % USIZE == d % USIZE
  {
  }

  lemma ItemBounds(b: seq<Byte>)
    requires Declared(b).Some?
    ensures var h := 1 + LengthOfLength(b[0]);
            h <= 9 && h <= |b| && h <= Declared(b).value < USIZE + h
  {
    hide FromBe;
    var ll := LengthOfLength(b[0]);
    if ll > 0 {
      LongLength(b[1..1 + ll]);
    }
  }

  lemma LongLength(s: seq<Byte>)
    requires |s| <= 8
    ensures FromBe(s) < USIZE
  {
    Pow256Values();
    PowMonotone(|s|, 8);
    hide FromBe;
  }

  lemma {:induction false} PowMonotone(i: nat, j: nat)
    requires i <= j
    ensures Pow256(i) <= Pow256(j)
    decreases j
  {
    if i < j { PowMonotone(i, j - 1); }
  }

  lemma DeclaredLocal(b: seq<Byte>, c: seq<Byte>)
    requires Declared(b).Some? && 1 + LengthOfLength(b[0]) <= |c|
    requires b[..1 + LengthOfLength(b[0])] == c[..1 + LengthOfLength(b[0])]
    ensures Declared(c) == Declared(b) && c[0] == b[0]
  {
    hide FromBe;
    var h := 1 + LengthOfLength(b[0]);
    assert b[0] == b[..h][0] == c[..h][0] == c[0];
    assert b[1..h] == b[..h][1..] == c[..h][1..] == c[1..h];
  }

  /** `tx_len` reads the header and nothing else. */
  lemma TxLenLocal(b: seq<Byte>, c: seq<Byte>)
    requires TxLen(b).Some? && HeaderLen(b) <= |c| && b[..HeaderLen(b)] == c[..HeaderLen(b)]
    ensures TxLen(c) == TxLen(b) && HeaderLen(c) == HeaderLen(b) && DeclaredTx(c) == DeclaredTx(b)
  {
    DeclaredBounds(b);
    hide Declared, LengthOfLength;
    var h := HeaderLen(b);
    assert b[0] == b[..h][0] == c[..h][0] == c[0];
    if b[0] < 0x80 {
      assert b[1] == b[..h][1] == c[..h][1] == c[1];
      assert b[1..][..h - 1] == b[..h][1..] == c[..h][1..] == c[1..][..h - 1];
      DeclaredLocal(b[1..], c[1..]);
    } else {
      DeclaredLocal(b, c);
    }
  }

  /** A transaction cut out of a frame declares its own length exactly when the declared length did not wrap. */
  lemma CutOutDeclaresItself(b: seq<Byte>)
    requires TxLen(b).Some? && TxLen(b).value <= |b|
    ensures TxLen(b[..TxLen(b).value]) == TxLen(b) <==> DeclaredTx(b) < USIZE
  {
    DeclaredBounds(b);
    var n, h := TxLen(b).value, HeaderLen(b);
    if DeclaredTx(b) < USIZE {
      assert b[..n][..h] == b[..h];
      TxLenLocal(b, b[..n]);
    } else {
      ShortOfHeader(b, n);
    }
  }

  lemma ShortOfHeader(b: seq<Byte>, n: nat)
    requires TxLen(b).Some? && n < HeaderLen(b) && n <= |b|
    ensures TxLen(b[..n]).None?
  {
    hide FromBe;
    var c := b[..n];
    if n > 1 || (n == 1 && b[0] >= 0x80) {
      assert c[0] == b[0] && (n > 1 ==> c[1] == b[1]);
    }
  }

  // ----- framing and its inverse -----

  /** A transaction that declares its own length, long enough and short enough to be accepted. */
  predicate WellFormed(tx: seq<Byte>) {
    TxLen(tx) == Some(|tx|) && 8 <= |tx| < USIZE
  }

  /** The server's side: each transaction behind its big-endian length in `prefix` bytes. */
  function Framed(txs: seq<seq<Byte>>, prefix: nat): seq<Byte> {
    if txs == [] then [] else ToBe(|txs[0]|, prefix) + txs[0] + Framed(txs[1..], prefix)
  }

  ghost predicate Fits(txs: seq<seq<Byte>>, prefix: nat) {
    forall i :: 0 <= i < |txs| ==> WellFormed(txs[i]) && (prefix > 0 ==> |txs[i]| < Pow256(prefix))
  }

  function Contents(frame: seq<Byte>, r: seq<Span>): (c: seq<seq<Byte>>)
    requires forall i :: 0 <= i < |r| ==> r[i].lo <= r[i].hi <= |frame|
  {
    seq(|r|, i requires 0 <= i < |r| => frame[r[i].lo..r[i].hi])
  }

  ghost predicate Within(r: seq<Span>, len: nat) {
    forall i :: 0 <= i < |r| ==> r[i].lo + 8 <= r[i].hi <= len
  }

  lemma WellFormedExtends(tx: seq<Byte>, more: seq<Byte>)
    requires WellFormed(tx)
    ensures TxLen(tx + more) == Some(|tx|)
  {
    DeclaredBounds(tx);
    if DeclaredTx(tx) < USIZE {
      assert (tx + more)[..HeaderLen(tx)] == tx[..HeaderLen(tx)];
      TxLenLocal(tx, tx + more);
    }
  }

  /** Completeness: a run of well-formed transactions is recovered by the framing it was written with. */
  lemma {:induction false} AttemptFramed(txs: seq<seq<Byte>>, prefix: nat, frame: seq<Byte>, pos: nat)
    requires Fits(txs, prefix) && prefix <= 8 && pos <= |frame| && frame[pos..] == Framed(txs, prefix)
    ensures var a := Attempt(frame, prefix, pos);
            a.Some? && Within(a.value, |frame|) && Contents(frame, a.value) == txs
    decreases |txs|
  {
    hide TxLen, Attempt, FromBe, ToBe, Pow256, Be, Contents;
    AttemptUnfolds(frame, prefix, pos);
    if txs == [] {
      NoContents(frame);
    } else {
      var tx, rest := txs[0], Framed(txs[1..], prefix);
      var lo, hi := pos + prefix, pos + prefix + |tx|;
      assert WellFormed(tx);
      TxAt(tx, rest, prefix, frame, pos);
      assert Fits(txs[1..], prefix);
      AttemptFramed(txs[1..], prefix, frame, hi);
      var more := Attempt(frame, prefix, hi).value;
      ContentsCons(frame, Span(lo, hi), more, txs);
    }
  }

  lemma NoContents(frame: seq<Byte>)
    ensures Contents(frame, []) == []
  {
  }

  lemma ContentsCons(frame: seq<Byte>, s: Span, more: seq<Span>, txs: seq<seq<Byte>>)
    requires txs != [] && s.lo + 8 <= s.hi <= |frame| && Within(more, |frame|)
    requires frame[s.lo..s.hi] == txs[0] && Contents(frame, more) == txs[1..]
    ensures Within([s] + more, |frame|) && Contents(frame, [s] + more) == txs
  {
    assert txs == [txs[0]] + txs[1..];
    var c := Contents(frame, [s] + more);
    assert c == [txs[0]] + Contents(frame, more);
  }

  lemma BeOfLength(n: nat, prefix: nat)
    requires prefix > 0 ==> n < Pow256(prefix) && prefix <= 8
    ensures prefix > 0 ==> Be(ToBe(n, prefix)) == Some(n)
  {
    if prefix > 0 { FromToBe(n, prefix); }
  }

  lemma TxAt(tx: seq<Byte>, rest: seq<Byte>, prefix: nat, frame: seq<Byte>, pos: nat)
    requires WellFormed(tx) && (prefix > 0 ==> |tx| < Pow256(prefix)) && prefix <= 8
    requires pos <= |frame| && frame[pos..] == ToBe(|tx|, prefix) + tx + rest
    ensures pos + prefix + |tx| <= |frame|
    ensures frame[pos + prefix..pos + prefix + |tx|] == tx && frame[pos + prefix + |tx|..] == rest
    ensures TxLen(frame[pos + prefix..]) == Some(|tx|)
    ensures prefix > 0 ==> Be(frame[pos..pos + prefix]) == Some(|tx|)
  {
    hide *;
    BeOfLength(|tx|, prefix);
    WellFormedExtends(tx, rest);
    TxSlices(ToBe(|tx|, prefix), tx, rest, frame, pos);
  }

  lemma TxSlices(head: seq<Byte>, tx: seq<Byte>, rest: seq<Byte>, frame: seq<Byte>, pos: nat)
    requires pos <= |frame| && frame[pos..] == head + tx + rest
    ensures var lo := pos + |head|;
            && lo + |tx| <= |frame| && frame[pos..lo] == head
            && frame[lo..lo + |tx|] == tx && frame[lo + |tx|..] == rest && frame[lo..] == tx + rest
  {
    assert head + tx + rest == head + (tx + rest);
    assert frame[pos..|frame|] == head + (tx + rest);
    SplitSlice(frame, pos, |frame|, head, tx + rest);
    SplitSlice(frame, pos + |head|, |frame|, tx, rest);
  }

  /** Every piece is as long as `tx_len` says where it starts. */
  ghost predicate Measured(frame: seq<Byte>, r: seq<Span>) {
    forall i :: 0 <= i < |r| ==> r[i].lo <= |frame| && TxLen(frame[r[i].lo..]) == Some(r[i].hi - r[i].lo)
  }

  /** Soundness: what an attempt finds, framed again, is the whole frame, and each piece has the length it declares. */
  lemma {:induction false} AttemptSound(frame: seq<Byte>, prefix: nat, pos: nat)
    requires pos <= |frame| && Attempt(frame, prefix, pos).Some?
    ensures var r := Attempt(frame, prefix, pos).value;
            Within(r, |frame|) && Measured(frame, r) && frame[pos..] == Framed(Contents(frame, r), prefix)
    decreases |frame| - pos
  {
    hide TxLen, Attempt, FromBe, ToBe, Measured;
    AttemptUnfolds(frame, prefix, pos);
    MeasuredCons(frame, []);
    if pos < |frame| {
      var lo := pos + prefix;
      var hi := lo + TxLen(frame[lo..]).value;
      AttemptSound(frame, prefix, hi);
      var more := Attempt(frame, prefix, hi).value;
      var tx := frame[lo..hi];
      if prefix > 0 { ToFromBe(frame[pos..lo]); }
      PrefixBytes(frame, pos, prefix, |tx|);
      MeasuredCons(frame, [Span(lo, hi)] + more);
      ContentsCons(frame, Span(lo, hi), more, [tx] + Contents(frame, more));
      assert ([tx] + Contents(frame, more))[1..] == Contents(frame, more);
      assert frame[pos..] == frame[pos..lo] + tx + frame[hi..];
    }
  }

  lemma MeasuredCons(frame: seq<Byte>, r: seq<Span>)
    ensures Measured(frame, r) <==>
            r == [] || (r[0].lo <= |frame| && TxLen(frame[r[0].lo..]) == Some(r[0].hi - r[0].lo)
                        && Measured(frame, r[1..]))
  {
    hide TxLen;
    forall i | 0 < i < |r| ensures r[1..][i - 1] == r[i] {
    }
  }

  lemma PrefixBytes(frame: seq<Byte>, pos: nat, prefix: nat, n: nat)
    requires pos + prefix <= |frame| && (prefix > 0 ==> Be(frame[pos..pos + prefix]) == Some(n))
    ensures frame[pos..pos + prefix] == ToBe(n, prefix)
  {
    if prefix > 0 { ToFromBe(frame[pos..pos + prefix]); }
  }

  /** Whatever the frame, a nonempty result is the whole of it under one of the three framings, and `tx_len` of each
      piece is its size. */
  lemma SplitSound(frame: seq<Byte>)
    requires Split(frame) != []
    ensures Within(Split(frame), |frame|) && Measured(frame, Split(frame))
    ensures exists prefix :: prefix in {0, 4, 8} && frame == Framed(Contents(frame, Split(frame)), prefix)
  {
    hide Attempt, Contents, Framed;
    var prefix: nat := if Found(Attempt(frame, 0, 0)) then 0 else if Found(Attempt(frame, 4, 0)) then 4 else 8;
    AttemptSound(frame, prefix, 0);
    assert frame[0..] == frame;
  }

  /** The pieces of a result, taken by themselves, are transactions if and only if no declared length wrapped. */
  lemma PiecesWellFormed(frame: seq<Byte>)
    requires Split(frame) != []
    ensures Within(Split(frame), |frame|) && Measured(frame, Split(frame))
    ensures (forall i :: 0 <= i < |Split(frame)| ==> WellFormed(Contents(frame, Split(frame))[i]))
            <==> forall i :: 0 <= i < |Split(frame)| ==> DeclaredTx(frame[Split(frame)[i].lo..]) < USIZE
  {
    hide Split, TxLen, DeclaredTx;
    SplitSound(frame);
    var r := Split(frame);
    forall i | 0 <= i < |r| ensures WellFormed(Contents(frame, r)[i]) <==> DeclaredTx(frame[r[i].lo..]) < USIZE {
      var rest, n := frame[r[i].lo..], r[i].hi - r[i].lo;
      assert Contents(frame, r)[i] == rest[..n];
      CutOutDeclaresItself(rest);
      TxLenSmall(rest);
    }
  }

  lemma TxLenSmall(b: seq<Byte>)
    requires TxLen(b).Some?
    ensures TxLen(b).value < USIZE
  {
    hide Declared;
  }

  /** For each framing there is at most one way to read a frame. */
  lemma UniquelyDecodable(txs: seq<seq<Byte>>, txs': seq<seq<Byte>>, prefix: nat)
    requires Fits(txs, prefix) && Fits(txs', prefix) && prefix <= 8 && Framed(txs, prefix) == Framed(txs', prefix)
    ensures txs == txs'
  {
    hide *;
    var frame := Framed(txs, prefix);
    assert frame[0..] == frame;
    AttemptFramed(txs, prefix, frame, 0);
    AttemptFramed(txs', prefix, frame, 0);
  }

  /** Bare transactions are always recovered. */
  lemma BareRoundTrip(txs: seq<seq<Byte>>)
    requires txs != [] && Fits(txs, 0)
    ensures Within(Split(Framed(txs, 0)), |Framed(txs, 0)|)
    ensures Contents(Framed(txs, 0), Split(Framed(txs, 0))) == txs
  {
    hide Attempt, Framed;
    var frame := Framed(txs, 0);
    assert frame[0..] == frame;
    AttemptFramed(txs, 0, frame, 0);
  }

  /** Transactions behind 4-byte lengths are recovered exactly when the bare reading of the frame fails. */
  lemma Prefix4RoundTrip(txs: seq<seq<Byte>>)
    requires txs != [] && Fits(txs, 4)
    ensures var frame := Framed(txs, 4);
            && Within(Split(frame), |frame|)
            && (Contents(frame, Split(frame)) == txs <==> Attempt(frame, 0, 0).None?)
  {
    hide Attempt, Framed, TxLen;
    var frame := Framed(txs, 4);
    assert frame[0..] == frame;
    AttemptFramed(txs, 4, frame, 0);
    if Attempt(frame, 0, 0).Some? {
      AttemptSound(frame, 0, 0);
      FramedLongest(txs, 4);
      FramedLongest(Contents(frame, Attempt(frame, 0, 0).value), 0);
    }
  }

  function TotalLen(txs: seq<seq<Byte>>): nat {
    if txs == [] then 0 else |txs[0]| + TotalLen(txs[1..])
  }

  lemma {:induction false} FramedLongest(txs: seq<seq<Byte>>, prefix: nat)
    ensures |Framed(txs, prefix)| == TotalLen(txs) + prefix * |txs|
  {
    hide ToBe;
    OneMore(prefix, |txs|);
    if txs != [] { FramedLongest(txs[1..], prefix); }
  }

  lemma OneMore(k: nat, n: nat)
    ensures n > 0 ==> k * n == k * (n - 1) + k
    ensures k * 0 == 0
  {
  }

  /** With a first length below 0xC60000 the bare reading fails at the first transaction. */
  lemma SmallFirstLength(txs: seq<seq<Byte>>)
    requires txs != [] && Fits(txs, 4) && |txs[0]| < 0xC6_0000
    ensures Attempt(Framed(txs, 4), 0, 0).None?
  {
    hide Framed, ToBe, FromBe, TxLen, Attempt, WellFormed;
    var frame := Framed(txs, 4);
    Pow256Values();
    assert WellFormed(txs[0]);
    LengthBytes(|txs[0]|);
    FramedHead(txs);
    TinyTx(frame);
    hide *;
    AttemptUnfolds(frame, 0, 0);
    assert frame[0..] == frame;
  }

  lemma FramedHead(txs: seq<seq<Byte>>)
    requires txs != []
    ensures |Framed(txs, 4)| >= 4
    ensures forall i :: 0 <= i < 4 ==> Framed(txs, 4)[i] == ToBe(|txs[0]|, 4)[i]
  {
    hide ToBe;
  }

  lemma TinyTx(b: seq<Byte>)
    requires |b| >= 2 && b[0] == 0 && b[1] < 0xc6
    ensures TxLen(b).None? || TxLen(b).value < 8
  {
    hide FromBe;
  }

  lemma LengthBytes(n: nat)
    requires n < 0x1_0000_0000
    ensures var s := ToBe(n, 4);
            && s[0] as nat == n / 0x100_0000 && s[1] as nat == n / 0x1_0000 % 256
            && s[2] as nat == n / 0x100 % 256 && s[3] as nat == n % 256
  {
    hide ToBe;
    var a, b, c := n / 256, n / 256 / 256, n / 256 / 256 / 256;
    LowByte(n, 4);
    LowByte(a, 3);
    LowByte(b, 2);
    LowByte(c, 1);
    QuotientsOf(n);
  }

  lemma LowByte(n: nat, k: nat)
    requires k > 0
    ensures ToBe(n, k) == ToBe(n / 256, k - 1) + [(n % 256) as Byte]
  {
  }

  lemma QuotientsOf(n: nat)
    ensures n / 256 / 256 == n / 0x1_0000 && n / 256 / 256 / 256 == n / 0x100_0000
    ensures n < 0x1_0000_0000 ==> n / 0x100_0000 % 256 == n / 0x100_0000
  {
  }

  /** The bound is sharp: a well-formed transaction of 0xC60000 bytes behind its 4-byte length that the program takes
      for something else. */
  lemma LargeFirstLength()
    ensures exists tx: seq<Byte> ::
              && WellFormed(tx) && |tx| == 0xC6_0000
              && Within(Split(Framed([tx], 4)), 0xC6_0004)
              && Contents(Framed([tx], 4), Split(Framed([tx], 4))) != [tx]
  {
    hide TxLen, Attempt, Split, Framed, FromBe, ToBe, Fits, Contents, Within, WellFormed, ListHeader, EncodeTx, Pow256;
    var body := seq(0xC6_0000 - 8, _ => 0 as Byte);
    var inner := EncodeTx(Legacy(body));
    LongHeader(body);
    var tx := EncodeTx(Legacy(inner));
    LongHeader(inner);
    EncodedIsWellFormed(Legacy(body));
    EncodedIsWellFormed(Legacy(inner));
    Pow256Values();
    FramedOne(tx, 4);
    var frame, odd := Framed([tx], 4), ToBe(0xC6_0000, 4) + tx[..4];
    LengthBytes(0xC6_0000);
    TinyLegacy(odd);
    assert odd[..4] == ToBe(0xC6_0000, 4);
    assert frame == odd + inner;
    FramedTwo(odd, inner);
    assert Framed([odd, inner], 0) == frame;
    FitsTwo(odd, inner);
    AttemptFramed([odd, inner], 0, frame, 0);
    FitsOne(tx, 4);
    Prefix4RoundTrip([tx]);
  }

  lemma FramedOne(tx: seq<Byte>, prefix: nat)
    ensures Framed([tx], prefix) == ToBe(|tx|, prefix) + tx
  {
    hide ToBe;
    assert [tx][1..] == [];
  }

  lemma FramedTwo(x: seq<Byte>, y: seq<Byte>)
    ensures Framed([x, y], 0) == x + y
  {
    assert [x, y][1..] == [y];
    FramedOne(y, 0);
  }

  lemma FitsOne(tx: seq<Byte>, prefix: nat)
    requires WellFormed(tx) && |tx| < Pow256(prefix)
    ensures Fits([tx], prefix)
  {
  }

  lemma FitsTwo(x: seq<Byte>, y: seq<Byte>)
    requires WellFormed(x) && WellFormed(y)
    ensures Fits([x, y], 0)
  {
  }

  lemma TinyLegacy(b: seq<Byte>)
    requires |b| == 8 && b[0] == 0 && b[1] == 0xc6
    ensures WellFormed(b)
  {
    hide FromBe;
  }

  /** Transactions behind 8-byte lengths are recovered whenever the first length fits in four bytes, as it does in
      every frame the program accepts. */
  lemma Prefix8RoundTrip(txs: seq<seq<Byte>>)
    requires txs != [] && Fits(txs, 8) && |txs[0]| < 0x1_0000_0000
    ensures Within(Split(Framed(txs, 8)), |Framed(txs, 8)|)
    ensures Contents(Framed(txs, 8), Split(Framed(txs, 8))) == txs
  {
    hide Attempt, Framed, ToBe, FromBe, TxLen, Be, Contents;
    var frame := Framed(txs, 8);
    assert frame[0..] == frame;
    AttemptFramed(txs, 8, frame, 0);
    HighZeros(txs);
    AttemptUnfolds(frame, 0, 0);
    TinyTx(frame);
    AttemptUnfolds(frame, 4, 0);
  }

  /** With no bound on the lengths, behind 8-byte lengths they are recovered exactly when both earlier readings fail. */
  lemma Prefix8Exactly(txs: seq<seq<Byte>>)
    requires txs != [] && Fits(txs, 8)
    ensures var frame := Framed(txs, 8);
            && Within(Split(frame), |frame|)
            && (Contents(frame, Split(frame)) == txs <==> Attempt(frame, 0, 0).None? && Attempt(frame, 4, 0).None?)
  {
    hide Attempt, Framed, TxLen;
    var frame := Framed(txs, 8);
    assert frame[0..] == frame;
    AttemptFramed(txs, 8, frame, 0);
    FramedLongest(txs, 8);
    if Attempt(frame, 0, 0).Some? {
      AttemptSound(frame, 0, 0);
      FramedLongest(Contents(frame, Attempt(frame, 0, 0).value), 0);
    } else if Attempt(frame, 4, 0).Some? {
      AttemptSound(frame, 4, 0);
      FramedLongest(Contents(frame, Attempt(frame, 4, 0).value), 4);
    }
  }

  lemma HighZeros(txs: seq<seq<Byte>>)
    requires txs != [] && |txs[0]| < 0x1_0000_0000
    ensures |Framed(txs, 8)| >= 8 && Framed(txs, 8)[0] == 0 == Framed(txs, 8)[1]
    ensures Be(Framed(txs, 8)[0..4]) == Some(0)
  {
    var n, s := |txs[0]|, Framed(txs, 8);
    ToBeLow(n, 4);
    ToBeZero(4);
    hide ToBe;
    assert s[..8] == ToBe(n, 8);
    assert s[0..4] == ToBe(0, 4);
    LengthBytes(0);
    assert s[0] == s[0..4][0] && s[1] == s[0..4][1];
  }

  lemma ToBeLow(n: nat, k: nat)
    requires n < 0x1_0000_0000 && k == 4
    ensures ToBe(n, 8)[..4] == ToBe(0, 4)
  {
    assert ToBe(n, 8) == ToBe(n / 256, 7) + [(n % 256) as Byte];
    assert ToBe(n / 256, 7) == ToBe(n / 256 / 256, 6) + [(n / 256 % 256) as Byte];
    assert ToBe(n / 256 / 256, 6) == ToBe(n / 256 / 256 / 256, 5) + [(n / 256 / 256 % 256) as Byte];
    assert ToBe(n / 256 / 256 / 256, 5) == ToBe(0, 4) + [(n / 256 / 256 / 256 % 256) as Byte];
  }

  lemma ToBeZero(k: nat)
    requires k == 4
    ensures FromBe(ToBe(0, k)) == 0
  {
    FromToBe(0, k);
  }

  // ----- the encodings of the standards -----

  /** A legacy transaction is an RLP list; a typed one is a type below 0x80 and an RLP list. `body` is the
      concatenation of the encoded items. */
  datatype Tx = Legacy(body: seq<Byte>) | Typed(kind: Byte, body: seq<Byte>)

  /** The least number of bytes that hold n. */
  function ByteLen(n: nat): (k: nat)
    ensures n < Pow256(k) && (k > 0 ==> Pow256(k - 1) <= n)
  {
    if n == 0 then 0 else 1 + ByteLen(n / 256)
  }

  function ListHeader(n: nat): seq<Byte>
    requires n < USIZE
  {
    if n < 56 then [0xc0 + n as Byte]
    else
      ByteLenAtMost8(n);
      [0xf7 + ByteLen(n) as Byte] + ToBe(n, ByteLen(n))
  }

  lemma ByteLenAtMost8(n: nat)
    requires n < USIZE
    ensures ByteLen(n) <= 8
  {
    Pow256Values();
    if ByteLen(n) > 8 { PowMonotone(8, ByteLen(n) - 1); }
  }

  function EncodeTx(t: Tx): seq<Byte>
    requires |t.body| < USIZE
  {
    match t
    case Legacy(body) => ListHeader(|body|) + body
    case Typed(kind, body) => [kind] + ListHeader(|body|) + body
  }

  lemma ListDeclares(body: seq<Byte>)
    requires |body| < USIZE
    ensures var e := ListHeader(|body|) + body;
            Declared(e) == Some(|e|) && e[0] >= 0xc0 && |ListHeader(|body|)| <= 9
  {
    hide Declared, FromBe, ToBe, ByteLen, Pow256;
    var n := |body|;
    if n < 56 {
      ShortDeclares(body);
    } else {
      ByteLenAtMost8(n);
      FromToBe(n, ByteLen(n));
      NotEmpty(n);
      LongDeclares(body, ByteLen(n), ToBe(n, ByteLen(n)));
    }
  }

  lemma NotEmpty(n: nat)
    requires n > 0
    ensures ByteLen(n) >= 1
  {
  }

  lemma ShortDeclares(body: seq<Byte>)
    requires |body| < 56
    ensures var e := [0xc0 + |body| as Byte] + body; Declared(e) == Some(|e|) && e[0] >= 0xc0
  {
    hide FromBe;
  }

  lemma LongDeclares(body: seq<Byte>, ll: nat, length: seq<Byte>)
    requires 1 <= ll <= 8 && |length| == ll && FromBe(length) == |body|
    ensures var e := [0xf7 + ll as Byte] + length + body; Declared(e) == Some(|e|) && e[0] >= 0xc0
  {
    hide FromBe;
    var e := [0xf7 + ll as Byte] + length + body;
    assert e[1..1 + ll] == length;
  }

  /** Every encoded transaction of at least 8 bytes is one the splitter accepts. */
  lemma EncodedIsWellFormed(t: Tx)
    requires |t.body| < USIZE - 10 && (t.Typed? ==> t.kind < 0x80) && |EncodeTx(t)| >= 8
    ensures WellFormed(EncodeTx(t))
  {
    hide Declared, ListHeader, WellFormed, ToBe, ByteLen, Pow256, TxLen, FromBe;
    ListDeclares(t.body);
    var e := ListHeader(|t.body|) + t.body;
    if t.Typed? {
      assert EncodeTx(t) == [t.kind] + e;
      EnvelopeWellFormed(t.kind, e);
    } else {
      ListWellFormed(e);
    }
  }

  lemma ListWellFormed(e: seq<Byte>)
    requires 8 <= |e| < USIZE && Declared(e) == Some(|e|) && e[0] >= 0xc0
    ensures WellFormed(e)
  {
    hide Declared;
  }

  lemma EnvelopeWellFormed(kind: Byte, e: seq<Byte>)
    requires 7 <= |e| < USIZE - 1 && Declared(e) == Some(|e|) && e[0] >= 0xc0 && kind < 0x80
    ensures WellFormed([kind] + e)
  {
    hide Declared;
    assert ([kind] + e)[1..] == e;
  }

  lemma LongHeader(body: seq<Byte>)
    requires 0x1_0000 <= |body| < 0x100_0000
    ensures var e := EncodeTx(Legacy(body)); |e| == 4 + |body| && e[4..] == body
  {
    Pow256Values();
    var k := ByteLen(|body|);
    if k > 3 { PowMonotone(3, k - 1); }
    if k < 3 { PowMonotone(k, 2); }
    hide ByteLen, ToBe;
  }

  // ----- nothing else is accepted -----

  /** An RLP list, whose items are not looked at: up to 55 bytes behind one byte of header, or behind a big-endian
      length of up to 8 bytes, which need not be the shortest one. */
  predicate IsList(l: seq<Byte>) {
    && l != [] && l[0] >= 0xc0
    && if l[0] <= 0xf7 then |l| == 1 + (l[0] - 0xc0) as nat
       else
         var k := (l[0] - 0xf7) as nat;
         |l| >= 1 + k && |l| == 1 + k + FromBe(l[1..1 + k])
  }

  /** What passes for a transaction is exactly an RLP list, or one behind a type below 0x80, of at least 8 bytes. */
  lemma WellFormedExactly(tx: seq<Byte>)
    ensures WellFormed(tx) <==>
            && 8 <= |tx| < USIZE
            && (IsList(tx) || (tx[0] < 0x80 && IsList(tx[1..])))
  {
    hide FromBe;
    if 8 <= |tx| < USIZE {
      var l := if tx[0] < 0x80 then tx[1..] else tx;
      if TxLen(tx).Some? {
        DeclaredBounds(tx);
        if DeclaredTx(tx) < USIZE {
          ListExactly(l);
        } else {
          ListTooLong(l);
        }
      } else if l[0] >= 0xc0 {
        ListExactly(l);
      }
    }
  }

  lemma ListExactly(l: seq<Byte>)
    requires l != [] && l[0] >= 0xc0
    ensures Declared(l) == Some(|l|) <==> IsList(l)
  {
    hide FromBe;
  }

  lemma ListTooLong(l: seq<Byte>)
    requires l != [] && l[0] >= 0xc0 && Declared(l).Some? && Declared(l).value != |l|
    ensures !IsList(l)
  {
    ListExactly(l);
  }

  /** `tx_len` gives up exactly on bytes that start neither a list nor a type and a list, or whose header is cut off. */
  lemma NoLengthExactly(b: seq<Byte>)
    ensures TxLen(b).None? <==>
            || b == [] || 0x80 <= b[0] <= 0xbf
            || (b[0] >= 0xf8 && |b| < 1 + (b[0] - 0xf7) as nat)
            || (b[0] < 0x80 && (|b| == 1 || b[1] < 0xc0 || (b[1] >= 0xf8 && |b| < 2 + (b[1] - 0xf7) as nat)))
  {
    hide FromBe;
  }

  // ----- wrap-around -----

  /** What wrap-around costs: a frame the program accepts, although its first piece is no transaction at all. The piece
      declares 2^64 + 8 bytes. */
  lemma WrappedPiece()
    ensures exists frame: seq<Byte> ::
              && |frame| == 27 && Split(frame) == [Span(0, 8), Span(8, 27)]
              && TxLen(frame) == Some(8) && TxLen(frame[0..8]).None? && DeclaredTx(frame) == USIZE + 8
  {
    hide *;
    var ones, zeros := seq(8, _ => 0xff as Byte), seq(10, _ => 0 as Byte);
    var second := [0xff as Byte] + ToBe(10, 8) + zeros;
    var frame := ones + second;
    OnesDeclare(frame, second);
    SecondDeclares(second, zeros);
    assert frame[8..] == second && frame[0..] == frame && frame[0..8] == frame[..8];
    AttemptUnfolds(frame, 0, 0);
    AttemptUnfolds(frame, 0, 8);
    AttemptUnfolds(frame, 0, 27);
    PrependNothing([Span(8, 27)], None);
    PrependPair(Span(0, 8), Span(8, 27));
    SplitBare(frame, [Span(0, 8), Span(8, 27)]);
    CutOutDeclaresItself(frame);
    ShortOfHeader(frame, 8);
  }

  lemma PrependPair(x: Span, y: Span)
    ensures Prepend([x], Some([y])) == Some([x, y])
  {
    assert [x] + [y] == [x, y];
  }

  lemma SplitBare(frame: seq<Byte>, r: seq<Span>)
    requires Attempt(frame, 0, 0) == Some(r) && r != []
    ensures Split(frame) == r
  {
    hide Attempt;
  }

  lemma OnesDeclare(frame: seq<Byte>, second: seq<Byte>)
    requires |frame| >= 9 && forall i :: 0 <= i < 9 ==> frame[i] == 0xff
    ensures TxLen(frame) == Some(8) && DeclaredTx(frame) == USIZE + 8 && HeaderLen(frame) == 9
  {
    Pow256Values();
    AllOnes(frame[1..9]);
    hide FromBe;
  }

  lemma {:induction false} AllOnes(s: seq<Byte>)
    requires forall i :: 0 <= i < |s| ==> s[i] == 0xff
    ensures FromBe(s) == Pow256(|s|) - 1
  {
    if s != [] { AllOnes(s[..|s| - 1]); }
  }

  lemma SecondDeclares(second: seq<Byte>, zeros: seq<Byte>)
    requires |zeros| == 10 && second == [0xff as Byte] + ToBe(10, 8) + zeros
    ensures TxLen(second) == Some(19) && |second| == 19 && second[0] == 0xff
  {
    Pow256Values();
    FromToBe(10, 8);
    hide FromBe, ToBe;
    assert second[1..9] == ToBe(10, 8);
  }
}
