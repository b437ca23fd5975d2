/** The Nitro feed adapter: blocks and transactions of each feed message, and the cursor from which a session
    resumes. */
module Nitro {
  import opened Bytes
  import opened Text
  import opened Records
  import opened Confluence
  import Batch

  const U64_MAX := 0xFFFF_FFFF_FFFF_FFFF

  type U64 = n: nat | n <= U64_MAX

  /** A feed message after JSON and base64: `l2` is what its payload decodes to. */
  datatype L2 = Absent | NotBase64 | Decoded(bytes: seq<Byte>)
  datatype FeedMessage = FeedMessage(number: U64, blockHash: Option<string>, l2: L2)

  datatype ParsedTx = ParsedTx(hash: Hash, rawLen: nat)
  datatype ParsedBlock = ParsedBlock(number: U64, hash: Option<string>, txs: seq<ParsedTx>)

  /** Unicode white space */
  predicate Blank(c: char) {
    var n := c as int;
    0x09 <= n <= 0x0D || n == 0x20 || n == 0x85 || n == 0xA0 || n == 0x1680 || 0x2000 <= n <= 0x200A
    || n == 0x2028 || n == 0x2029 || n == 0x202F || n == 0x205F || n == 0x3000
  }

  function Hashed(keccak: seq<Byte> -> Hash, raws: seq<seq<Byte>>): seq<ParsedTx> {
    seq(|raws|, i requires 0 <= i < |raws| => ParsedTx(keccak(raws[i]), |raws[i]|))
  }

  function TxsOf(keccak: seq<Byte> -> Hash, l2: seq<Byte>): seq<ParsedTx> {
    Batch.WalkInOrder(l2, 0, |l2|, 0);
    Hashed(keccak, Batch.Contents(l2, Batch.SignedTxs(l2)))
  }

  function BlockOf(keccak: seq<Byte> -> Hash, m: FeedMessage): ParsedBlock {
    ParsedBlock(m.number,
                if m.blockHash.Some? && (forall c <- m.blockHash.value :: Blank(c)) then None else m.blockHash,
                if m.l2.Decoded? then TxsOf(keccak, m.l2.bytes) else [])
  }

  /** One undecodable payload spoils the whole frame. */
  function Parsed(keccak: seq<Byte> -> Hash, frame: seq<FeedMessage>): (r: Option<seq<ParsedBlock>>)
    ensures r.None? <==> exists i :: 0 <= i < |frame| && frame[i].l2.NotBase64?
    ensures r.Some? ==> |r.value| == |frame| && forall i :: 0 <= i < |frame| ==> r.value[i] == BlockOf(keccak, frame[i])
  {
    if exists i :: 0 <= i < |frame| && frame[i].l2.NotBase64? then None
    else Some(seq(|frame|, i requires 0 <= i < |frame| => BlockOf(keccak, frame[i])))
  }

  /** `parse_frame` */
  method ParseFrame(keccak: seq<Byte> -> Hash, frame: seq<FeedMessage>) returns (r: Option<seq<ParsedBlock>>)
    ensures r == Parsed(keccak, frame)
  {
    hide BlockOf, Parsed, Batch.InOrder;
    var blocks: seq<ParsedBlock> := [];
    for k := 0 to |frame|
      invariant |blocks| == k && forall i :: 0 <= i < k ==>
                  !frame[i].l2.NotBase64? && blocks[i] == BlockOf(keccak, frame[i])
    {
      var m := frame[k];
      var txs: seq<ParsedTx> := [];
      if m.l2.NotBase64? { return None; }
      if m.l2.Decoded? { txs := CollectTxs(keccak, m.l2.bytes); }
      var hash := if m.blockHash.Some? && (forall c <- m.blockHash.value :: Blank(c)) then None else m.blockHash;
      BlockUnfolds(keccak, m);
      blocks := blocks + [ParsedBlock(m.number, hash, txs)];
    }
    r := Some(blocks);
    assert Parsed(keccak, frame).value == blocks;
  }

  lemma BlockUnfolds(keccak: seq<Byte> -> Hash, m: FeedMessage)
    ensures var b := BlockOf(keccak, m);
            && b.number == m.number && b.txs == (if m.l2.Decoded? then TxsOf(keccak, m.l2.bytes) else [])
            && b.hash == if m.blockHash.Some? && (forall c <- m.blockHash.value :: Blank(c)) then None else m.blockHash
  {
  }

  method CollectTxs(keccak: seq<Byte> -> Hash, l2: seq<Byte>) returns (txs: seq<ParsedTx>)
    ensures txs == TxsOf(keccak, l2)
  {
    hide *;
    var walker := new Batch.Walker(l2);
    walker.WalkSlice(0, |l2|, 0);
    var out := walker.out;
    TxsUnfold(keccak, l2, out);
    txs := [];
    for k := 0 to |out|
      invariant txs == TxsOf(keccak, l2)[..k]
    {
      var raw := l2[out[k].lo..out[k].hi];
      txs := txs + [ParsedTx(keccak(raw), |raw|)];
    }
  }

  lemma TxsUnfold(keccak: seq<Byte> -> Hash, l2: seq<Byte>, out: seq<Batch.Span>)
    requires out == [] + Batch.Walk(l2, 0, |l2|, 0)
    ensures |TxsOf(keccak, l2)| == |out|
    ensures forall i :: 0 <= i < |out| ==>
              out[i].lo <= out[i].hi <= |l2|
              && TxsOf(keccak, l2)[i] == ParsedTx(keccak(l2[out[i].lo..out[i].hi]), out[i].hi - out[i].lo)
  {
    hide Batch.Walk, Batch.TotalLen;
    Batch.WalkInOrder(l2, 0, |l2|, 0);
    assert out == Batch.Walk(l2, 0, |l2|, 0);
  }

  /** What is reported for a payload: for each kept leaf of its tree of batches, in order, the hash and the length. */
  lemma TxsOfTree(keccak: seq<Byte> -> Hash, l2: seq<Byte>)
    ensures var txs, kept := TxsOf(keccak, l2), Batch.Kept(Batch.Leaves(Batch.Tree(l2), 0));
            && |txs| == |kept|
            && forall i :: 0 <= i < |kept| ==> txs[i].hash == keccak(kept[i]) && txs[i].rawLen == |kept[i]|
  {
    hide Batch.SignedTxs, Batch.Tree, Batch.Leaves, Batch.Kept;
    Batch.WalkOfAnyBytes(l2);
  }

  /** What a message of a feed frame becomes: the block with its number, the hash unless it is missing or all blank, and
      no transactions unless there is a payload. */
  lemma BlockOfMessage(keccak: seq<Byte> -> Hash, m: FeedMessage)
    ensures var b := BlockOf(keccak, m);
            && b.number == m.number
            && (b.hash.Some? <==>
                  m.blockHash.Some? && exists i :: 0 <= i < |m.blockHash.value| && !Blank(m.blockHash.value[i]))
            && (b.hash.Some? ==> b.hash == m.blockHash)
            && (m.l2.Absent? ==> b.txs == [])
            && (m.l2.Decoded? ==> b.txs == TxsOf(keccak, m.l2.bytes))
  {
    hide Blank, TxsOf;
  }

  // ----- the adapter -----

  /** What happens to the adapter, one block at a time; a spoiled one was sent by the server in a frame that could not
      be parsed, and leaves no trace. */
  datatype Item =
    | Opened(t: int, detail: string)
    | Delivered(t: int, block: ParsedBlock, wireLen: nat)
    | Spoiled(number: U64)
    | Closed(t: int, reason: string)

  function TxEvents(index: nat, t: int, b: ParsedBlock, k: nat): (evs: seq<Event>)
    requires k <= |b.txs|
    ensures |evs| == k && forall i :: 0 <= i < k ==> evs[i].payload.Tx?
  {
    seq(k, i requires 0 <= i < k =>
      Event(index, t, Tx(b.txs[i].hash, Some(KeyOf("seq:", b.number)), Some(|b.txs|), false, b.txs[i].rawLen)))
  }

  function BlockEvent(index: nat, t: int, b: ParsedBlock, wireLen: nat): Event {
    Event(index, t, Block(KeyOf("seq:", b.number), Some(b.number), b.hash, Some(|b.txs|), wireLen))
  }

  /** Events sent for one item. */
  function Emit(index: nat, item: Item): seq<Event> {
    match item
    case Opened(t, detail) => [Event(index, t, Connected(detail))]
    case Closed(t, reason) => [Event(index, t, Disconnected(reason))]
    case Spoiled(_) => []
    case Delivered(t, b, wireLen) => [BlockEvent(index, t, b, wireLen)] + TxEvents(index, t, b, |b.txs|)
  }

  function SentBy(index: nat, log: seq<Item>): seq<Event> {
    if log == [] then [] else SentBy(index, log[..|log| - 1]) + Emit(index, log[|log| - 1])
  }

  function Advance(cursor: Option<U64>, number: U64): Option<U64> {
    if number == U64_MAX then cursor
    else if cursor.None? || cursor.value < number + 1 then Some(number + 1)
    else cursor
  }

  function Cursor(log: seq<Item>): Option<U64> {
    if log == [] then None
    else
      var front, item := log[..|log| - 1], log[|log| - 1];
      if item.Delivered? then Advance(Cursor(front), item.block.number) else Cursor(front)
  }

  lemma Snoc(index: nat, log: seq<Item>, item: Item)
    ensures SentBy(index, log + [item]) == SentBy(index, log) + Emit(index, item)
    ensures Cursor(log + [item]) == if item.Delivered? then Advance(Cursor(log), item.block.number) else Cursor(log)
  {
    assert (log + [item])[..|log|] == log;
  }

  /** The blocks of one message, as items. */
  function Items(t: int, wireLen: nat, blocks: seq<ParsedBlock>): seq<Item> {
    seq(|blocks|, i requires 0 <= i < |blocks| => Delivered(t, blocks[i], wireLen))
  }

  /** The blocks of a frame that could not be parsed. */
  function Lost(numbers: seq<U64>): seq<Item> {
    seq(|numbers|, i requires 0 <= i < |numbers| => Spoiled(numbers[i]))
  }

  function Numbers(frame: seq<FeedMessage>): seq<U64> {
    seq(|frame|, i requires 0 <= i < |frame| => frame[i].number)
  }

  datatype Stamp = Arrival | Decoding

  class Adapter {
    const index: nat
    const stamp: Stamp
    var nextSeq: Option<U64>
    var sent: seq<Event>
    ghost var log: seq<Item>

    ghost predicate Valid()
      reads this
    {
      nextSeq == Cursor(log) && sent == SentBy(index, log)
    }

    constructor (index: nat, stamp: Stamp)
      ensures Valid() && log == [] && this.index == index && this.stamp == stamp
    {
      this.index, this.stamp, nextSeq, sent, log := index, stamp, None, [], [];
    }

    /** A session opens; the header asks for `requested`, or is left out. */
    method Open(t: int, detail: string) returns (requested: Option<U64>)
      requires Valid()
      modifies this
      ensures Valid() && log == old(log) + [Opened(t, detail)] && requested == old(nextSeq) == nextSeq
    {
      hide SentBy, Cursor;
      requested := nextSeq;
      Snoc(index, log, Opened(t, detail));
      sent := sent + [Event(index, t, Connected(detail))];
      log := log + [Opened(t, detail)];
    }

    method Close(t: int, reason: string)
      requires Valid()
      modifies this
      ensures Valid() && log == old(log) + [Closed(t, reason)] && nextSeq == old(nextSeq)
    {
      hide SentBy, Cursor;
      Snoc(index, log, Closed(t, reason));
      sent := sent + [Event(index, t, Disconnected(reason))];
      log := log + [Closed(t, reason)];
    }

    /** One message; `frame` is what its JSON says, if that is a feed frame at all. If not, `meant` are the blocks
        that the server put into it. */
    method OnMessage(keccak: seq<Byte> -> Hash, arrival: int, decoded: int, wireLen: nat,
                     frame: Option<seq<FeedMessage>>,
                     ghost meant: seq<U64>)
      requires Valid()
      modifies this
      ensures Valid()
      ensures var parsed := if frame.Some? then Parsed(keccak, frame.value) else None;
              var t := if stamp == Arrival then arrival else decoded;
              log == old(log) + if parsed.Some? then Items(t, wireLen, parsed.value)
                                else Lost(if frame.Some? then Numbers(frame.value) else meant)
    {
      hide SentBy, Cursor, Parsed, Items;
      var t := if stamp == Arrival then arrival else decoded;
      if frame.None? {
        LostLeavesNoTrace(index, log, meant);
        log := log + Lost(meant);
        return;
      }
      var parsed := ParseFrame(keccak, frame.value);
      if parsed.None? {
        LostLeavesNoTrace(index, log, Numbers(frame.value));
        log := log + Lost(Numbers(frame.value));
        return;
      }
      NoItems(t, wireLen);
      for k := 0 to |parsed.value|
        invariant Valid() && log == old(log) + Items(t, wireLen, parsed.value[..k])
      {
        OnBlock(t, wireLen, parsed.value[k]);
        ItemsSnoc(t, wireLen, parsed.value, k);
      }
      assert parsed.value[..|parsed.value|] == parsed.value;
    }

    method OnBlock(t: int, wireLen: nat, b: ParsedBlock)
      requires Valid()
      modifies this
      ensures Valid() && log == old(log) + [Delivered(t, b, wireLen)]
    {
      hide SentBy, Cursor, KeyOf;
      if b.number != U64_MAX {
        nextSeq := Some(if nextSeq.None? || nextSeq.value < b.number + 1 then b.number + 1 else nextSeq.value);
      }
      var key := KeyOf("seq:", b.number);
      var n := |b.txs|;
      ghost var block := BlockEvent(index, t, b, wireLen);
      sent := sent + [Event(index, t, Block(key, Some(b.number), b.hash, Some(n), wireLen))];
      assert sent == old(sent) + [block] + TxEvents(index, t, b, 0);
      for k := 0 to n
        invariant log == old(log) && nextSeq == Advance(old(nextSeq), b.number)
        invariant sent == old(sent) + [block] + TxEvents(index, t, b, k)
      {
        sent := sent + [Event(index, t, Tx(b.txs[k].hash, Some(key), Some(n), false, b.txs[k].rawLen))];
        TxEventsSnoc(index, t, b, k, old(sent) + [block]);
      }
      hide TxEvents;
      Snoc(index, log, Delivered(t, b, wireLen));
      Assoc(old(sent), [block], TxEvents(index, t, b, n));
      log := log + [Delivered(t, b, wireLen)];
    }
  }

  lemma TxEventsSnoc(index: nat, t: int, b: ParsedBlock, k: nat, before: seq<Event>)
    requires k < |b.txs|
    ensures before + TxEvents(index, t, b, k + 1) ==
            before + TxEvents(index, t, b, k)
            + [Event(index, t, Tx(b.txs[k].hash, Some(KeyOf("seq:", b.number)), Some(|b.txs|), false, b.txs[k].rawLen))]
  {
    hide KeyOf;
  }

  lemma {:induction false} LostLeavesNoTrace(index: nat, log: seq<Item>, numbers: seq<U64>)
    ensures SentBy(index, log + Lost(numbers)) == SentBy(index, log) && Cursor(log + Lost(numbers)) == Cursor(log)
    decreases |numbers|
  {
    hide SentBy, Cursor;
    if numbers == [] {
      assert log + Lost(numbers) == log;
    } else {
      var k := |numbers| - 1;
      LostLeavesNoTrace(index, log, numbers[..k]);
      Snoc(index, log + Lost(numbers[..k]), Spoiled(numbers[k]));
      assert log + Lost(numbers) == log + Lost(numbers[..k]) + [Spoiled(numbers[k])];
      assert SentBy(index, log) + [] == SentBy(index, log);
    }
  }

  lemma NoItems(t: int, wireLen: nat)
    ensures Items(t, wireLen, []) == []
  {
  }

  lemma ItemsSnoc(t: int, wireLen: nat, blocks: seq<ParsedBlock>, k: nat)
    requires k < |blocks|
    ensures Items(t, wireLen, blocks[..k + 1]) == Items(t, wireLen, blocks[..k]) + [Delivered(t, blocks[k], wireLen)]
  {
  }

  // ----- the cursor -----

  /** Was block n delivered? */
  ghost predicate Has(log: seq<Item>, n: nat) {
    exists i :: 0 <= i < |log| && log[i].Delivered? && log[i].block.number == n
  }

  lemma HasSnoc(log: seq<Item>, item: Item, n: nat)
    ensures Has(log + [item], n) <==> Has(log, n) || (item.Delivered? && item.block.number == n)
  {
    assert (log + [item])[|log|] == item;
    assert forall i :: 0 <= i < |log| ==> (log + [item])[i] == log[i];
  }

  /** The cursor over any run: none as long as no block but 2^64 - 1 was delivered, then one plus the highest. */
  lemma {:induction false} CursorIsNext(log: seq<Item>)
    ensures Cursor(log).None? <==> forall n: nat :: Has(log, n) ==> n == U64_MAX
    ensures Cursor(log).Some? ==>
              var next := Cursor(log).value;
              next >= 1 && Has(log, next - 1) && forall n: nat :: Has(log, n) && n != U64_MAX ==> n < next
    decreases |log|
  {
    if log == [] {
      assert forall n: nat :: !Has(log, n);
    } else {
      var front, item := log[..|log| - 1], log[|log| - 1];
      CursorIsNext(front);
      assert log == front + [item];
      forall n: nat ensures Has(log, n) <==> Has(front, n) || (item.Delivered? && item.block.number == n) {
        HasSnoc(front, item, n);
      }
      CursorStep(front, item);
    }
  }

  lemma CursorStep(front: seq<Item>, item: Item)
    requires var log := front + [item];
             forall n: nat :: Has(log, n) <==> Has(front, n) || (item.Delivered? && item.block.number == n)
    requires Cursor(front).None? <==> forall n: nat :: Has(front, n) ==> n == U64_MAX
    requires Cursor(front).Some? ==>
               var next := Cursor(front).value;
               next >= 1 && Has(front, next - 1) && forall n: nat :: Has(front, n) && n != U64_MAX ==> n < next
    ensures var log := front + [item];
            && (Cursor(log).None? <==> forall n: nat :: Has(log, n) ==> n == U64_MAX)
            && (Cursor(log).Some? ==>
                  var next := Cursor(log).value;
                  next >= 1 && Has(log, next - 1) && forall n: nat :: Has(log, n) && n != U64_MAX ==> n < next)
  {
    var log, c := front + [item], Cursor(front);
    Snoc(0, front, item);
    hide Cursor, Has;
    var c' := Cursor(log);
    forall n: nat | Has(log, n) && n != U64_MAX ensures c'.Some? && n < c'.value {
      if Has(front, n) { assert c.Some? && n < c.value; }
    }
    if c'.Some? {
      if c' == c { assert Has(log, c.value - 1); } else { assert Has(log, item.block.number); }
    }
  }

  /** It never goes back. */
  lemma {:induction false} CursorGrows(log: seq<Item>, k: nat)
    requires k <= |log| && Cursor(log[..k]).Some?
    ensures Cursor(log).Some? && Cursor(log[..k]).value <= Cursor(log).value
    decreases |log|
  {
    if k == |log| {
      assert log[..k] == log;
    } else {
      var front := log[..|log| - 1];
      assert front[..k] == log[..k];
      CursorGrows(front, k);
    }
  }

  // ----- resumption against a server that does as asked -----

  function Sent(item: Item): Option<U64> {
    match item
    case Delivered(_, b, _) => Some(b.number)
    case Spoiled(number) => Some(number)
    case Opened(_, _) => None
    case Closed(_, _) => None
  }

  /** A server's side: the number it sends next in its session, and the block from which on it has left none out. Both
      are None before the first block of a session without a request, which may start anywhere. */
  datatype Server = Server(base: Option<U64>, next: Option<U64>)

  function Sends(s: Server, n: U64): Server {
    if n == U64_MAX then s
    else if s.next.None? then Server(Some(n), Some(n + 1))
    else if n == s.next.value then s.(next := Some(n + 1))
    else s
  }

  function ServerAfter(log: seq<Item>): Server {
    if log == [] then Server(None, None)
    else
      ServerStep(ServerAfter(log[..|log| - 1]), Cursor(log[..|log| - 1]), log[|log| - 1])
  }

  function ServerStep(s: Server, cursor: Option<U64>, item: Item): Server {
    if item.Opened? then (if cursor.None? then Server(None, None) else s.(next := cursor))
    else if Sent(item).Some? then Sends(s, Sent(item).value)
    else s
  }

  /** What the server sends is the next block or a replay of an earlier one. */
  predicate Legal(s: Server, item: Item) {
    var sent := Sent(item);
    sent.Some? && sent.value != U64_MAX && s.next.Some? ==>
      sent.value == s.next.value || (s.base.Some? && s.base.value <= sent.value < s.next.value)
  }

  /** Every block that the server sends, readable or not, is the next one or a replay of an earlier one. */
  ghost predicate Serves(log: seq<Item>) {
    log != [] ==>
      Serves(log[..|log| - 1]) && Legal(ServerAfter(log[..|log| - 1]), log[|log| - 1])
  }

  /** Was block n sent in a frame that could not be parsed? */
  ghost predicate Spoils(log: seq<Item>, n: nat) {
    exists i :: 0 <= i < |log| && log[i].Spoiled? && log[i].number == n
  }

  lemma SpoilsSnoc(log: seq<Item>, item: Item, n: nat)
    ensures Spoils(log + [item], n) <==> Spoils(log, n) || (item.Spoiled? && item.number == n)
  {
    assert (log + [item])[|log|] == item;
    assert forall i :: 0 <= i < |log| ==> (log + [item])[i] == log[i];
  }

  /** The lowest block delivered, 2^64 - 1 apart. */
  function Lowest(log: seq<Item>): nat {
    if log == [] then 0
    else
      var front, item := log[..|log| - 1], log[|log| - 1];
      if item.Delivered? && item.block.number != U64_MAX && (Cursor(front).None? || item.block.number < Lowest(front))
      then item.block.number
      else Lowest(front)
  }

  lemma {:induction false} LowestIs(log: seq<Item>)
    ensures Cursor(log).Some? ==> Has(log, Lowest(log)) && Lowest(log) < U64_MAX
    ensures forall n: nat :: Has(log, n) && n != U64_MAX ==> Lowest(log) <= n
    decreases |log|
  {
    if log == [] {
      assert forall n: nat :: !Has(log, n);
    } else {
      var front, item := log[..|log| - 1], log[|log| - 1];
      LowestIs(front);
      CursorIsNext(front);
      assert log == front + [item];
      forall n: nat ensures Has(log, n) <==> Has(front, n) || (item.Delivered? && item.block.number == n) {
        HasSnoc(front, item, n);
      }
      hide Has;
    }
  }

  /** How the server stands to what has been delivered: it has left out nothing since its base, which is at or below
      everything delivered, and it is at or beyond the cursor. */
  ghost predicate Kept(log: seq<Item>, s: Server) {
    && (s.base.Some? <==> s.next.Some?)
    && (s.base.Some? ==> s.base.value <= s.next.value
                         && forall n: nat :: s.base.value <= n < s.next.value ==> Has(log, n) || Spoils(log, n))
    && (forall n: nat :: Has(log, n) && n != U64_MAX ==> s.base.Some? && s.base.value <= n)
    && (Cursor(log).Some? ==> s.next.Some? && Cursor(log).value <= s.next.value)
  }

  lemma {:induction false} ServerKept(log: seq<Item>)
    requires Serves(log)
    ensures Kept(log, ServerAfter(log))
    decreases |log|
  {
    if log == [] {
      assert forall n: nat :: !Has(log, n);
    } else {
      var front, item := log[..|log| - 1], log[|log| - 1];
      ServerKept(front);
      assert log == front + [item];
      assert ServerAfter(log) == ServerStep(ServerAfter(front), Cursor(front), item);
      ServerKeptStep(front, item, ServerAfter(front));
    }
  }

  lemma ServerKeptStep(front: seq<Item>, item: Item, s: Server)
    requires Kept(front, s) && Legal(s, item)
    ensures Kept(front + [item], ServerStep(s, Cursor(front), item))
  {
    hide Has, Spoils, Kept, SentBy, Emit, Legal, ServerStep;
    CursorIsNext(front);
    Snoc(0, front, item);
    hide Cursor;
    OneMore(front, item);
    if Sent(item).Some? {
      KeptSending(front, item, s);
    } else {
      KeptIdle(front, item, s);
    }
  }

  ghost predicate SameBut(front: seq<Item>, item: Item) {
    forall n: nat ::
      && (Has(front + [item], n) <==> Has(front, n) || (item.Delivered? && item.block.number == n))
      && (Spoils(front + [item], n) <==> Spoils(front, n) || (item.Spoiled? && item.number == n))
  }

  lemma OneMore(front: seq<Item>, item: Item)
    ensures SameBut(front, item)
  {
    hide Has, Spoils;
    forall n: nat
      ensures Has(front + [item], n) <==> Has(front, n) || (item.Delivered? && item.block.number == n)
      ensures Spoils(front + [item], n) <==> Spoils(front, n) || (item.Spoiled? && item.number == n)
    {
      HasSnoc(front, item, n);
      SpoilsSnoc(front, item, n);
    }
  }

  lemma KeptSending(front: seq<Item>, item: Item, s: Server)
    requires Kept(front, s) && Legal(s, item) && SameBut(front, item) && Sent(item).Some?
    requires Cursor(front + [item]) ==
               if item.Delivered? then Advance(Cursor(front), item.block.number) else Cursor(front)
    ensures Kept(front + [item], ServerStep(s, Cursor(front), item))
  {
    hide Has, Spoils, Cursor;
  }

  lemma KeptIdle(front: seq<Item>, item: Item, s: Server)
    requires Kept(front, s) && SameBut(front, item) && Sent(item).None? && Cursor(front + [item]) == Cursor(front)
    requires Cursor(front).None? <==> forall n: nat :: Has(front, n) ==> n == U64_MAX
    requires Cursor(front).Some? ==>
               var next := Cursor(front).value;
               next >= 1 && Has(front, next - 1) && forall n: nat :: Has(front, n) && n != U64_MAX ==> n < next
    ensures Kept(front + [item], ServerStep(s, Cursor(front), item))
  {
    hide Has, Spoils, Cursor;
  }

  /** Through replays, spoiled frames and reconnections the cursor is at most the server's position, and equal to it
      exactly when the last new block could be read; always, if no block was spoiled. */
  lemma PositionIsCursor(log: seq<Item>)
    requires Serves(log)
    ensures var next := ServerAfter(log).next;
            && (Cursor(log).Some? ==> next.Some? && Cursor(log).value <= next.value)
            && (next.Some? ==> (Cursor(log) == next <==> next.value >= 1 && Has(log, next.value - 1)))
            && ((forall n: nat :: !Spoils(log, n)) ==> Cursor(log) == next)
  {
    hide Has, Spoils, Cursor, Serves, ServerAfter;
    ServerKept(log);
    CursorIsNext(log);
    if forall n: nat :: !Spoils(log, n) { UnspoiledPosition(log); }
  }

  lemma {:induction false} UnspoiledPosition(log: seq<Item>)
    requires Serves(log) && forall n: nat :: !Spoils(log, n)
    ensures ServerAfter(log).next == Cursor(log)
    decreases |log|
  {
    if log != [] {
      var front, item := log[..|log| - 1], log[|log| - 1];
      assert log == front + [item];
      if item.Spoiled? {
        SpoilsSnoc(front, item, item.number);
        assert false;
      }
      forall n: nat ensures !Spoils(front, n) { SpoilsSnoc(front, item, n); }
      hide Spoils;
      UnspoiledPosition(front);
      CursorIsNext(front);
    }
  }

  /** Every block between the lowest one delivered and the cursor that was in a frame that could not be parsed was
      delivered after all, before that or by a replay. */
  ghost predicate SpoiledMadeGood(log: seq<Item>) {
    forall n: nat :: Spoils(log, n) && Cursor(log).Some? && Lowest(log) <= n < Cursor(log).value ==> Has(log, n)
  }

  /** What was delivered is a gap-free interval, from the lowest block to the cursor with nothing missing, if and only
      if no block between them was only ever sent in a frame that could not be parsed. */
  lemma NoGaps(log: seq<Item>)
    requires Serves(log)
    ensures (forall n: nat :: n != U64_MAX ==>
             (Has(log, n) <==> Cursor(log).Some? && Lowest(log) <= n < Cursor(log).value))
            <==> SpoiledMadeGood(log)
  {
    hide Has, Spoils, Cursor, Serves, ServerAfter, Lowest;
    ServerKept(log);
    CursorIsNext(log);
    LowestIs(log);
  }

  /** A spoiled frame leaves its block out for good: the next block moves the cursor past it. */
  lemma SpoiledBlockSkipped(t: int, first: ParsedBlock, third: ParsedBlock)
    requires first.number == 1 && third.number == 3
    ensures var log := [Opened(t, ""), Delivered(t, first, 9), Spoiled(2), Delivered(t, third, 9)];
            Serves(log) && Cursor(log) == Some(4) && !Has(log, 2)
  {
    var log := [Opened(t, ""), Delivered(t, first, 9), Spoiled(2), Delivered(t, third, 9)];
    var l1, l2, l3 := log[..1], log[..2], log[..3];
    assert l1[..0] == [] && l2[..1] == l1 && l3[..2] == l2;
    assert Cursor(l1) == None && ServerAfter(l1) == Server(None, None) && Serves(l1);
    assert Cursor(l2) == Some(2) && ServerAfter(l2) == Server(Some(1), Some(2)) && Serves(l2);
    assert Cursor(l3) == Some(2) && ServerAfter(l3) == Server(Some(1), Some(3)) && Serves(l3);
  }

  // ----- first delivery wins -----

  /** The stamp of the first delivery of block n. */
  function FirstStamp(log: seq<Item>, n: nat): Option<int> {
    if log == [] then None
    else
      var item := log[|log| - 1];
      OrElse(FirstStamp(log[..|log| - 1], n), if item.Delivered? && item.block.number == n then Some(item.t) else None)
  }

  lemma {:induction false} StampedIffDelivered(log: seq<Item>, n: nat)
    ensures FirstStamp(log, n).Some? <==> Has(log, n)
    decreases |log|
  {
    if log != [] {
      var front, item := log[..|log| - 1], log[|log| - 1];
      StampedIffDelivered(front, n);
      HasSnoc(front, item, n);
      assert log == front + [item];
    }
  }

  lemma {:induction false} NoBlocksNoDelivery(evs: seq<Event>, key: string)
    requires forall i :: 0 <= i < |evs| ==> evs[i].payload.Tx?
    ensures FirstDelivery(evs, key).None?
  {
    if evs != [] { NoBlocksNoDelivery(evs[..|evs| - 1], key); }
  }

  lemma FirstEmitted(index: nat, item: Item, n: nat)
    ensures FirstDelivery(Emit(index, item), KeyOf("seq:", n)) ==
            if item.Delivered? && item.block.number == n then Some(item.t) else None
  {
    hide KeyOf, Decimal, TxEvents;
    if item.Delivered? {
      var b := item.block;
      var key, block, txs := KeyOf("seq:", n), BlockEvent(index, item.t, b, item.wireLen),
          TxEvents(index, item.t, b, |b.txs|);
      FirstConcat([block], txs, StampOf(key));
      NoBlocksNoDelivery(txs, key);
      if KeyOf("seq:", b.number) == key { KeyInjective("seq:", b.number, "seq:", n); }
      FirstOfOne(block, StampOf(key));
    } else if !item.Spoiled? {
      FirstOfOne(Emit(index, item)[0], StampOf(KeyOf("seq:", n)));
    }
  }

  lemma {:induction false} FirstSent(index: nat, log: seq<Item>, n: nat)
    ensures FirstDelivery(SentBy(index, log), KeyOf("seq:", n)) == FirstStamp(log, n)
    decreases |log|
  {
    hide KeyOf, Emit, First, StampOf;
    if log == [] {
      NoBlocksNoDelivery([], KeyOf("seq:", n));
    } else {
      var front, item := log[..|log| - 1], log[|log| - 1];
      FirstSent(index, front, n);
      FirstEmitted(index, item, n);
      FirstConcat(SentBy(index, front), Emit(index, item), StampOf(KeyOf("seq:", n)));
    }
  }

  /** Main result: whatever the other sources send in between, the collector keeps for each block the stamp of the
      adapter's first delivery of it; replays after a reconnection change nothing. It has a stamp for exactly the
      blocks delivered: with a server that does as asked and nothing lost in spoiled frames, a gap-free interval that
      ends at the cursor. */
  lemma ResumedRun(cfg: Config, h: seq<Event>, index: nat, log: seq<Item>, n: nat)
    requires ValidHistory(cfg, h) && index < Size(cfg) && Stream(h, index) == SentBy(index, log)
    ensures ArrivalOf(cfg, Run(cfg, h), KeyOf("seq:", n), index) == FirstStamp(log, n)
    ensures ArrivalOf(cfg, Run(cfg, h), KeyOf("seq:", n), index).Some? <==> Has(log, n)
    ensures Serves(log) && SpoiledMadeGood(log) && n != U64_MAX ==>
              (ArrivalOf(cfg, Run(cfg, h), KeyOf("seq:", n), index).Some?
               <==> Cursor(log).Some? && Lowest(log) <= n < Cursor(log).value)
  {
    hide *;
    FirstDeliveryWins(cfg, h, index, KeyOf("seq:", n));
    FirstSent(index, log, n);
    StampedIffDelivered(log, n);
    if Serves(log) { NoGaps(log); }
  }

  // ----- bytes -----

  /** Wire lengths of the delivered blocks: a message that carries several counts as often. */
  function WireOf(log: seq<Item>): nat {
    if log == [] then 0
    else WireOf(log[..|log| - 1]) + if log[|log| - 1].Delivered? then log[|log| - 1].wireLen else 0
  }

  lemma {:induction false} TxsWeighNothing(evs: seq<Event>)
    requires forall i :: 0 <= i < |evs| ==> evs[i].payload.Tx?
    ensures WireSum(evs) == 0
  {
    if evs != [] { TxsWeighNothing(evs[..|evs| - 1]); }
  }

  lemma WireEmitted(index: nat, item: Item)
    ensures WireSum(Emit(index, item)) == if item.Delivered? then item.wireLen else 0
  {
    hide KeyOf, TxEvents;
    if item.Delivered? {
      var b := item.block;
      var block, txs := BlockEvent(index, item.t, b, item.wireLen), TxEvents(index, item.t, b, |b.txs|);
      WireSumConcat([block], txs);
      TxsWeighNothing(txs);
      assert WireSum([]) == 0;
    }
  }

  lemma {:induction false} WireSent(index: nat, log: seq<Item>)
    ensures WireSum(SentBy(index, log)) == WireOf(log)
    decreases |log|
  {
    hide Emit;
    if log != [] {
      var front, item := log[..|log| - 1], log[|log| - 1];
      WireSent(index, front);
      WireEmitted(index, item);
      WireSumConcat(SentBy(index, front), Emit(index, item));
    }
  }

  /** One message adds its length once per block. */
  lemma {:induction false} MessageWeight(log: seq<Item>, t: int, wireLen: nat, blocks: seq<ParsedBlock>)
    ensures WireOf(log + Items(t, wireLen, blocks)) == WireOf(log) + wireLen * |blocks|
    decreases |blocks|
  {
    if blocks == [] {
      assert log + Items(t, wireLen, blocks) == log;
    } else {
      var k := |blocks| - 1;
      MessageWeight(log, t, wireLen, blocks[..k]);
      var last := Delivered(t, blocks[k], wireLen);
      var before := log + Items(t, wireLen, blocks[..k]);
      assert log + Items(t, wireLen, blocks) == before + [last];
      assert (before + [last])[..|before|] == before;
      MulNext(wireLen, k);
    }
  }

  lemma MulNext(w: nat, k: nat)
    ensures w * (k + 1) == w * k + w
  {
  }

  /** The collector's byte counter is not the number of bytes received: it grows by the length of a message exactly when
      the message carries one block, or no bytes. */
  lemma CountedIsReceived(cfg: Config, h: seq<Event>, h': seq<Event>, index: nat, log: seq<Item>,
                          t: int, wireLen: nat, blocks: seq<ParsedBlock>)
    requires ValidHistory(cfg, h) && ValidHistory(cfg, h') && index < Size(cfg)
    requires Stream(h, index) == SentBy(index, log)
    requires Stream(h', index) == SentBy(index, log + Items(t, wireLen, blocks))
    ensures OwnOf(cfg, Run(cfg, h'), index).wireBytes == OwnOf(cfg, Run(cfg, h), index).wireBytes + wireLen
            <==> wireLen == 0 || |blocks| == 1
  {
    hide *;
    WireBytesCounted(cfg, h, index);
    WireBytesCounted(cfg, h', index);
    WireSent(index, log);
    WireSent(index, log + Items(t, wireLen, blocks));
    MessageWeight(log, t, wireLen, blocks);
    OneFactor(wireLen, |blocks|);
  }

  lemma OneFactor(w: nat, k: nat)
    ensures w * k == w <==> w == 0 || k == 1
  {
    if w > 0 && k > 1 { assert w * k == w + w * (k - 1) && w * (k - 1) > 0; }
  }

  // ----- a message of two blocks -----

  /** Two blocks in a message of 100 bytes: the collector counts 200. */
  lemma TwoBlocksCountTwice(cfg: Config, t: int, a: ParsedBlock, b: ParsedBlock)
    requires ValidConfig(cfg)
    ensures var h := SentBy(0, Items(t, 100, [a, b]));
            ValidHistory(cfg, h) && OwnOf(cfg, Run(cfg, h), 0).wireBytes == 200
  {
    hide Run, OwnOf, SentBy, Stream, Items, WireOf;
    var log := Items(t, 100, [a, b]);
    SentIsOwn(0, log);
    WireBytesCounted(cfg, SentBy(0, log), 0);
    WireSent(0, log);
    MessageWeight([], t, 100, [a, b]);
    NothingWeighed();
    assert [] + log == log;
  }

  lemma NothingWeighed()
    ensures WireOf([]) == 0
  {
  }

  lemma SentIsOwn(index: nat, log: seq<Item>)
    ensures Stream(SentBy(index, log), index) == SentBy(index, log)
    ensures forall i :: 0 <= i < |SentBy(index, log)| ==> SentBy(index, log)[i].source == index
  {
    hide SentBy, Stream;
    SentSource(index, log);
    AllOwn(SentBy(index, log), index);
  }

  lemma {:induction false} SentSource(index: nat, log: seq<Item>)
    ensures forall i :: 0 <= i < |SentBy(index, log)| ==> SentBy(index, log)[i].source == index
    decreases |log|
  {
    hide Emit;
    if log != [] {
      SentSource(index, log[..|log| - 1]);
      EmitSource(index, log[|log| - 1]);
    }
  }

  lemma EmitSource(index: nat, item: Item)
    ensures forall i :: 0 <= i < |Emit(index, item)| ==> Emit(index, item)[i].source == index
  {
    hide KeyOf;
  }

  lemma {:induction false} AllOwn(h: seq<Event>, s: nat)
    requires forall i :: 0 <= i < |h| ==> h[i].source == s
    ensures Stream(h, s) == h
  {
    if h != [] {
      AllOwn(h[..|h| - 1], s);
      assert h == h[..|h| - 1] + [h[|h| - 1]];
    }
  }
}
