/** The Nitro L2 message walker: every signed transaction carried by a message, nested batches included. */
module Batch {
  import opened Bytes

  const KIND_BATCH: Byte := 3
  const KIND_SIGNED_TX: Byte := 4
  const MAX_ENTRY := 0x100_0000

  /** A sub-slice of the message, by its bounds. */
  datatype Span = Span(lo: nat, hi: nat)

  /** Transactions of the message that lies at lo..hi of `b`, under `depth` enclosing batches. */
  function Walk(b: seq<Byte>, lo: nat, hi: nat, depth: nat): seq<Span>
    requires lo <= hi <= |b|
    decreases hi - lo, 1
  {
    if lo == hi then []
    else if b[lo] == KIND_SIGNED_TX then (if hi - lo > 1 then [Span(lo + 1, hi)] else [])
    else if b[lo] == KIND_BATCH && depth <= 4 then Entries(b, lo + 1, hi, depth)
    else []
  }

  /** Transactions of the batch entries that lie at pos..hi; a truncated or oversized one ends this batch only. */
  function Entries(b: seq<Byte>, pos: nat, hi: nat, depth: nat): seq<Span>
    requires pos <= hi <= |b|
    decreases hi - pos, 0
  {
    if pos + 8 > hi then []
    else
      var n := FromBe(b[pos..pos + 8]);
      if n > MAX_ENTRY || pos + 8 + n > hi then []
      else Walk(b, pos + 8, pos + 8 + n, depth + 1) + Entries(b, pos + 8 + n, hi, depth)
  }

  function SignedTxs(l2: seq<Byte>): seq<Span> {
    Walk(l2, 0, |l2|, 0)
  }

  /** The program's walk, which pushes what it finds into one vector. */
  class Walker {
    const l2: seq<Byte>
    var out: seq<Span>

    constructor (l2: seq<Byte>)
      ensures this.l2 == l2 && out == []
    {
      this.l2, this.out := l2, [];
    }

    /** `walk` on the sub-slice lo..hi. */
    method WalkSlice(lo: nat, hi: nat, depth: nat)
      requires lo <= hi <= |l2|
      modifies this
      ensures out == old(out) + Walk(l2, lo, hi, depth)
      decreases hi - lo
    {
      hide *;
      WalkUnfolds(l2, lo, hi, depth);
      if lo == hi { return; }
      if l2[lo] == KIND_SIGNED_TX {
        if hi - lo > 1 { out := out + [Span(lo + 1, hi)]; }
      } else if l2[lo] == KIND_BATCH {
        if depth > 4 { return; }
        var pos := lo + 1;
        ghost var todo := Entries(l2, pos, hi, depth);
        while pos + 8 <= hi
          invariant lo < pos <= hi
          invariant out + Entries(l2, pos, hi, depth) == old(out) + todo
        {
          EntriesUnfold(l2, pos, hi, depth);
          ghost var before := out;
          var n := FromBe(l2[pos..pos + 8]);
          pos := pos + 8;
          if n > MAX_ENTRY || pos + n > hi { return; }
          WalkSlice(pos, pos + n, depth + 1);
          Assoc(before, Walk(l2, pos, pos + n, depth + 1), Entries(l2, pos + n, hi, depth));
          pos := pos + n;
        }
        EntriesUnfold(l2, pos, hi, depth);
      }
    }
  }

  lemma WalkUnfolds(b: seq<Byte>, lo: nat, hi: nat, depth: nat)
    requires lo <= hi <= |b|
    ensures Walk(b, lo, hi, depth) ==
            if lo == hi then []
            else if b[lo] == KIND_SIGNED_TX then (if hi - lo > 1 then [Span(lo + 1, hi)] else [])
            else if b[lo] == KIND_BATCH && depth <= 4 then Entries(b, lo + 1, hi, depth)
            else []
  {
  }

  lemma EntriesUnfold(b: seq<Byte>, pos: nat, hi: nat, depth: nat)
    requires pos <= hi <= |b|
    ensures Entries(b, pos, hi, depth) ==
            if pos + 8 > hi then []
            else
              var n := FromBe(b[pos..pos + 8]);
              if n > MAX_ENTRY || pos + 8 + n > hi then []
              else Walk(b, pos + 8, pos + 8 + n, depth + 1) + Entries(b, pos + 8 + n, hi, depth)
  {
  }

  // ----- arbitrary bytes -----

  function TotalLen(ss: seq<Span>): int {
    if ss == [] then 0 else ss[0].hi - ss[0].lo + TotalLen(ss[1..])
  }

  lemma {:induction false} TotalOfConcat(a: seq<Span>, b: seq<Span>)
    ensures TotalLen(a + b) == TotalLen(a) + TotalLen(b)
  {
    if a == [] {
      assert a + b == b;
    } else {
      TotalOfConcat(a[1..], b);
      assert (a + b)[1..] == a[1..] + b;
    }
  }

  /** Nonempty sub-slices of from..to, in order, each at least 9 bytes after the one before it. */
  ghost predicate InOrder(ss: seq<Span>, from: nat, to: nat) {
    && (forall i :: 0 <= i < |ss| ==> from <= ss[i].lo < ss[i].hi <= to)
    && (forall i, j :: 0 <= i < j < |ss| ==> ss[i].hi + 9 <= ss[j].lo)
  }

  /** On any bytes: transactions are disjoint sub-slices in order, and the input pays for each of them with its
      bytes, a kind byte and, inside a batch, a length. */
  lemma {:induction false} WalkInOrder(b: seq<Byte>, lo: nat, hi: nat, depth: nat)
    requires lo <= hi <= |b|
    ensures InOrder(Walk(b, lo, hi, depth), lo + 1, hi)
    ensures lo < hi && b[lo] == KIND_BATCH ==>
              TotalLen(Walk(b, lo, hi, depth)) + 9 * |Walk(b, lo, hi, depth)| + 1 <= hi - lo
    ensures lo < hi ==> TotalLen(Walk(b, lo, hi, depth)) + 9 * |Walk(b, lo, hi, depth)| <= hi - lo + 8
    ensures lo == hi ==> Walk(b, lo, hi, depth) == []
    decreases hi - lo, 1
  {
    if lo < hi && b[lo] == KIND_BATCH && depth <= 4 {
      EntriesInOrder(b, lo + 1, hi, depth);
    }
  }

  lemma InOrderConcat(a: seq<Span>, b: seq<Span>, from: nat, mid: nat, to: nat)
    requires InOrder(a, from, mid) && InOrder(b, mid + 9, to) && mid <= to && from <= mid + 9
    ensures InOrder(a + b, from, to)
  {
  }

  lemma {:induction false} EntriesInOrder(b: seq<Byte>, pos: nat, hi: nat, depth: nat)
    requires pos <= hi <= |b|
    ensures InOrder(Entries(b, pos, hi, depth), pos + 9, hi)
    ensures TotalLen(Entries(b, pos, hi, depth)) + 9 * |Entries(b, pos, hi, depth)| <= hi - pos
    decreases hi - pos, 0
  {
    hide FromBe;
    if pos + 8 <= hi {
      var n := FromBe(b[pos..pos + 8]);
      if n <= MAX_ENTRY && pos + 8 + n <= hi {
        var mid := pos + 8 + n;
        WalkInOrder(b, pos + 8, mid, depth + 1);
        EntriesInOrder(b, mid, hi, depth);
        hide Walk, InOrder, TotalLen;
        InOrderConcat(Walk(b, pos + 8, mid, depth + 1), Entries(b, mid, hi, depth), pos + 9, mid, hi);
        TotalOfConcat(Walk(b, pos + 8, mid, depth + 1), Entries(b, mid, hi, depth));
      }
    }
  }

  lemma SubSlice(b: seq<Byte>, b': seq<Byte>, lo: nat, hi: nat, i: nat, j: nat)
    requires lo <= i <= j <= hi <= |b| && hi <= |b'| && b[lo..hi] == b'[lo..hi]
    ensures b[i..j] == b'[i..j]
  {
    Resliced(b, lo, hi, i - lo, j - lo);
    Resliced(b', lo, hi, i - lo, j - lo);
  }

  /** The walk reads nothing outside the slice it is given. */
  lemma {:induction false} WalkLocal(b: seq<Byte>, b': seq<Byte>, lo: nat, hi: nat, depth: nat)
    requires lo <= hi <= |b| && hi <= |b'| && b[lo..hi] == b'[lo..hi]
    ensures Walk(b, lo, hi, depth) == Walk(b', lo, hi, depth)
    decreases hi - lo, 1
  {
    if lo < hi {
      assert b[lo] == b[lo..hi][0] == b'[lo];
      SubSlice(b, b', lo, hi, lo + 1, hi);
      EntriesLocal(b, b', lo + 1, hi, depth);
    }
  }

  lemma {:induction false} EntriesLocal(b: seq<Byte>, b': seq<Byte>, pos: nat, hi: nat, depth: nat)
    requires pos <= hi <= |b| && hi <= |b'| && b[pos..hi] == b'[pos..hi]
    ensures Entries(b, pos, hi, depth) == Entries(b', pos, hi, depth)
    decreases hi - pos, 0
  {
    if pos + 8 <= hi {
      SubSlice(b, b', pos, hi, pos, pos + 8);
      var n := FromBe(b[pos..pos + 8]);
      if n <= MAX_ENTRY && pos + 8 + n <= hi {
        var mid := pos + 8 + n;
        SubSlice(b, b', pos, hi, pos + 8, mid);
        SubSlice(b, b', pos, hi, mid, hi);
        WalkLocal(b, b', pos + 8, mid, depth + 1);
        EntriesLocal(b, b', mid, hi, depth);
      }
    }
  }

  lemma {:induction false} EntriesCut(b: seq<Byte>, pos: nat, cut: nat, hi: nat, depth: nat)
    requires pos <= cut <= hi <= |b|
    ensures Entries(b, pos, cut, depth) <= Entries(b, pos, hi, depth)
    decreases hi - pos
  {
    if pos + 8 <= cut {
      var n := FromBe(b[pos..pos + 8]);
      if n <= MAX_ENTRY && pos + 8 + n <= cut {
        EntriesCut(b, pos + 8 + n, cut, hi, depth);
      }
    }
  }

  /** A batch cut at any byte yields a prefix of what the whole batch yields. */
  lemma CutIsPrefix(l2: seq<Byte>, cut: nat)
    requires cut <= |l2| && l2 != [] && l2[0] == KIND_BATCH
    ensures SignedTxs(l2[..cut]) <= SignedTxs(l2)
  {
    assert l2[..cut][0..cut] == l2[0..cut];
    WalkLocal(l2[..cut], l2, 0, cut, 0);
    if cut > 0 {
      EntriesCut(l2, 1, cut, |l2|, 0);
    }
  }

  // ----- round trip -----

  /** A tree of messages: a signed transaction, a batch of sub-messages that ends in some bytes, or a message of a kind
      the walker skips. */
  datatype Msg = Signed(tx: seq<Byte>) | Nested(subs: Msgs) | Other(raw: seq<Byte>)
  datatype Msgs = End(rest: seq<Byte>) | Cons(head: Msg, tail: Msgs)

  function Encode(m: Msg): seq<Byte> {
    match m
    case Signed(tx) => [4] + tx
    case Nested(subs) => [3] + EncodeSubs(subs)
    case Other(raw) => raw
  }

  function EncodeSubs(ms: Msgs): seq<Byte> {
    match ms
    case End(rest) => rest
    case Cons(m, tail) => ToBe(|Encode(m)|, 8) + Encode(m) + EncodeSubs(tail)
  }

  /** Bytes that hold no complete entry of at most 16 MiB at their start. */
  predicate NoEntry(rest: seq<Byte>) {
    |rest| < 8 || FromBe(rest[..8]) > 0x100_0000 || 8 + FromBe(rest[..8]) > |rest|
  }

  /** Skipped messages do not pass for a transaction or a batch, no sub-message exceeds 16 MiB, and what ends a batch
      does not pass for one more entry. */
  predicate WellFormed(m: Msg) {
    match m
    case Signed(_) => true
    case Nested(subs) => WellFormedSubs(subs)
    case Other(raw) => raw != [] ==> raw[0] != 4 && raw[0] != 3
  }

  predicate WellFormedSubs(ms: Msgs) {
    match ms
    case End(rest) => NoEntry(rest)
    case Cons(m, tail) => WellFormed(m) && |Encode(m)| <= 0x100_0000 && WellFormedSubs(tail)
  }

  /** A signed-transaction leaf and the number of batches around it. */
  datatype Leaf = Leaf(tx: seq<Byte>, enclosing: nat)

  function Leaves(m: Msg, enclosing: nat): seq<Leaf> {
    match m
    case Signed(tx) => [Leaf(tx, enclosing)]
    case Nested(subs) => LeavesOfSubs(subs, enclosing + 1)
    case Other(_) => []
  }

  function LeavesOfSubs(ms: Msgs, enclosing: nat): seq<Leaf> {
    match ms
    case End(_) => []
    case Cons(m, tail) => Leaves(m, enclosing) + LeavesOfSubs(tail, enclosing)
  }

  /** The nonempty leaves with at most five batches around them. */
  function Kept(ls: seq<Leaf>): seq<seq<Byte>> {
    if ls == [] then []
    else (if ls[0].tx != [] && ls[0].enclosing <= 5 then [ls[0].tx] else []) + Kept(ls[1..])
  }

  function Contents(b: seq<Byte>, ss: seq<Span>): (r: seq<seq<Byte>>)
    requires forall i :: 0 <= i < |ss| ==> ss[i].lo <= ss[i].hi <= |b|
  {
    seq(|ss|, i requires 0 <= i < |ss| => b[ss[i].lo..ss[i].hi])
  }

  lemma {:induction false} KeptOfConcat(a: seq<Leaf>, b: seq<Leaf>)
    ensures Kept(a + b) == Kept(a) + Kept(b)
  {
    if a == [] {
      assert a + b == b;
    } else {
      KeptOfConcat(a[1..], b);
      ConsConcat(a, b);
      Assoc(if a[0].tx != [] && a[0].enclosing <= 5 then [a[0].tx] else [], Kept(a[1..]), Kept(b));
    }
  }

  /** Nothing under six batches is kept. */
  lemma {:induction false} TooDeep(ms: Msgs, enclosing: nat)
    requires enclosing > 5
    ensures Kept(LeavesOfSubs(ms, enclosing)) == []
    decreases ms
  {
    if ms.Cons? {
      if ms.head.Nested? {
        TooDeep(ms.head.subs, enclosing + 1);
      }
      TooDeep(ms.tail, enclosing);
      KeptOfConcat(Leaves(ms.head, enclosing), LeavesOfSubs(ms.tail, enclosing));
    }
  }

  lemma {:induction false} WalkEncoded(m: Msg, b: seq<Byte>, lo: nat, hi: nat, depth: nat)
    requires WellFormed(m) && lo <= hi <= |b| && b[lo..hi] == Encode(m) && depth <= 5
    ensures InOrder(Walk(b, lo, hi, depth), lo + 1, hi)
    ensures Contents(b, Walk(b, lo, hi, depth)) == Kept(Leaves(m, depth))
    decreases m
  {
    hide FromBe, InOrder, Entries, EncodeSubs, WellFormedSubs, TotalLen, Kept, LeavesOfSubs;
    WalkInOrder(b, lo, hi, depth);
    match m
    case Signed(tx) =>
      KeptLeaf(Leaf(tx, depth));
      SplitSlice(b, lo, hi, [KIND_SIGNED_TX], tx);
    case Other(raw) =>
      KeptLeaf(Leaf([], 0));
      if lo < hi {
        assert b[lo] == b[lo..hi][0];
      }
    case Nested(subs) =>
      SplitSlice(b, lo, hi, [KIND_BATCH], EncodeSubs(subs));
      if depth <= 4 {
        EntriesEncoded(subs, b, lo + 1, hi, depth);
      } else {
        TooDeep(subs, depth + 1);
      }
  }

  lemma KeptLeaf(l: Leaf)
    ensures Kept([]) == []
    ensures Kept([l]) == if l.tx != [] && l.enclosing <= 5 then [l.tx] else []
  {
  }

  lemma {:induction false} EntriesEncoded(ms: Msgs, b: seq<Byte>, pos: nat, hi: nat, depth: nat)
    requires WellFormedSubs(ms) && pos <= hi <= |b| && b[pos..hi] == EncodeSubs(ms) && depth <= 4
    ensures InOrder(Entries(b, pos, hi, depth), pos + 9, hi)
    ensures Contents(b, Entries(b, pos, hi, depth)) == Kept(LeavesOfSubs(ms, depth + 1))
    decreases ms
  {
    hide FromBe, Walk, Encode, WellFormed, Leaves, Kept;
    EntriesInOrder(b, pos, hi, depth);
    if ms.Cons? {
      var e := Encode(ms.head);
      var mid := pos + 8 + |e|;
      EntryParts(e, EncodeSubs(ms.tail), b, pos, hi);
      WalkEncoded(ms.head, b, pos + 8, mid, depth + 1);
      EntriesEncoded(ms.tail, b, mid, hi, depth);
      KeptOfConcat(Leaves(ms.head, depth + 1), LeavesOfSubs(ms.tail, depth + 1));
      ContentsOfConcat(b, Walk(b, pos + 8, mid, depth + 1), Entries(b, mid, hi, depth));
    } else {
      NoneKept();
      NoEntries(ms.rest, b, pos, hi, depth);
    }
  }

  lemma NoEntries(rest: seq<Byte>, b: seq<Byte>, pos: nat, hi: nat, depth: nat)
    requires NoEntry(rest) && pos <= hi <= |b| && b[pos..hi] == rest
    ensures Entries(b, pos, hi, depth) == []
  {
    hide FromBe;
    if |rest| >= 8 { assert b[pos..pos + 8] == rest[..8]; }
  }

  lemma NoneKept()
    ensures Kept([]) == []
  {
  }

  lemma ContentsOfConcat(b: seq<Byte>, s: seq<Span>, t: seq<Span>)
    requires forall i :: 0 <= i < |s| ==> s[i].lo <= s[i].hi <= |b|
    requires forall i :: 0 <= i < |t| ==> t[i].lo <= t[i].hi <= |b|
    ensures Contents(b, s + t) == Contents(b, s) + Contents(b, t)
  {
  }

  lemma LengthRead(n: nat)
    requires n <= MAX_ENTRY
    ensures FromBe(ToBe(n, 8)) == n
  {
    Pow256Values();
    FromToBe(n, 8);
  }

  /** One encoded entry, read back. */
  lemma EntryParts(e: seq<Byte>, rest: seq<Byte>, b: seq<Byte>, pos: nat, hi: nat)
    requires pos <= hi <= |b| && b[pos..hi] == ToBe(|e|, 8) + e + rest && |e| <= MAX_ENTRY
    ensures pos + 8 + |e| <= hi && FromBe(b[pos..pos + 8]) == |e|
    ensures b[pos + 8..pos + 8 + |e|] == e && b[pos + 8 + |e|..hi] == rest
  {
    hide *;
    LengthRead(|e|);
    ThreeParts(ToBe(|e|, 8), e, rest, b, pos, hi);
  }

  lemma ThreeParts(h: seq<Byte>, e: seq<Byte>, rest: seq<Byte>, b: seq<Byte>, pos: nat, hi: nat)
    requires pos <= hi <= |b| && b[pos..hi] == h + e + rest && |h| == 8
    ensures pos + 8 + |e| <= hi && b[pos..pos + 8] == h
    ensures b[pos + 8..pos + 8 + |e|] == e && b[pos + 8 + |e|..hi] == rest
  {
    assert h + e + rest == h + (e + rest);
    SplitSlice(b, pos, hi, h, e + rest);
    SplitSlice(b, pos + 8, hi, e, rest);
  }

  /** Round trip: on the encoding of any tree, the walk yields exactly the nonempty signed transactions under at most
      five batches, in order. */
  lemma WalkRoundTrip(m: Msg)
    requires WellFormed(m)
    ensures InOrder(SignedTxs(Encode(m)), 1, |Encode(m)|)
    ensures Contents(Encode(m), SignedTxs(Encode(m))) == Kept(Leaves(m, 0))
  {
    assert Encode(m)[0..|Encode(m)|] == Encode(m);
    WalkEncoded(m, Encode(m), 0, |Encode(m)|, 0);
  }

  // ----- every message is the encoding of a tree -----

  /** The tree that a message is, whatever its bytes. */
  function Tree(b: seq<Byte>): (m: Msg)
    ensures WellFormed(m) && Encode(m) == b
    decreases |b|, 1
  {
    if b != [] && b[0] == 4 then
      assert [4] + b[1..] == b;
      Signed(b[1..])
    else if b != [] && b[0] == 3 then
      assert [3] + b[1..] == b;
      Nested(TreesOf(b[1..]))
    else Other(b)
  }

  function TreesOf(b: seq<Byte>): (ms: Msgs)
    ensures WellFormedSubs(ms) && EncodeSubs(ms) == b
    decreases |b|, 0
  {
    if NoEntry(b) then End(b)
    else
      var n := FromBe(b[..8]);
      FirstEntry(b, n);
      Cons(Tree(b[8..8 + n]), TreesOf(b[8 + n..]))
  }

  lemma FirstEntry(b: seq<Byte>, n: nat)
    requires |b| >= 8 + n && FromBe(b[..8]) == n
    ensures ToBe(n, 8) + b[8..8 + n] + b[8 + n..] == b
  {
    hide ToBe, FromBe;
    ToFromBe(b[..8]);
    assert b[..8] + b[8..8 + n] + b[8 + n..] == b;
  }

  /** So for every byte string the walk yields exactly the nonempty signed transactions of its tree under at most five
      batches, in order. */
  lemma WalkOfAnyBytes(b: seq<Byte>)
    ensures InOrder(SignedTxs(b), 1, |b|)
    ensures Contents(b, SignedTxs(b)) == Kept(Leaves(Tree(b), 0))
  {
    hide Tree, Kept, Leaves;
    WalkRoundTrip(Tree(b));
  }
}
