/** Where the interleaving does show, continued: what a record takes over from the first or the last delivery that
    offers it, which the streams decide exactly when the sources that compete for it agree. */
module Interleaving {
  import opened Bytes
  import opened Records
  import opened Confluence

  // ----- two extreme interleavings -----

  /** The events of all sources but i. */
  function Others(h: seq<Event>, i: nat): seq<Event> {
    if h == [] then []
    else Others(h[..|h| - 1], i) + if h[|h| - 1].source == i then [] else [h[|h| - 1]]
  }

  /** The same streams with source i first, or last. */
  function Ahead(h: seq<Event>, i: nat): seq<Event> {
    Stream(h, i) + Others(h, i)
  }

  function Behind(h: seq<Event>, i: nat): seq<Event> {
    Others(h, i) + Stream(h, i)
  }

  /** Two events of different sources can be swapped. */
  lemma SwappedPair(cfg: Config, a: Event, b: Event)
    requires a.source != b.source
    ensures SameStreams(cfg, [a, b], [b, a])
  {
    forall s | 0 <= s < Size(cfg) ensures Stream([a, b], s) == Stream([b, a], s) {
      StreamSnoc([a], b, s);
      StreamSnoc([b], a, s);
      StreamSnoc([], a, s);
      StreamSnoc([], b, s);
      assert [a] + [b] == [a, b] && [b] + [a] == [b, a] && [] + [a] == [a] && [] + [b] == [b];
    }
  }

  lemma {:induction false} StreamOfStream(h: seq<Event>, i: nat, s: nat)
    ensures Stream(Stream(h, i), s) == if s == i then Stream(h, i) else []
    ensures Stream(Others(h, i), s) == if s == i then [] else Stream(h, s)
    decreases |h|
  {
    if h != [] {
      var front, ev := h[..|h| - 1], h[|h| - 1];
      StreamOfStream(front, i, s);
      StreamSnoc(Stream(front, i), ev, s);
      StreamSnoc(Others(front, i), ev, s);
      KeepAll(Stream(front, i));
      KeepAll(Others(front, i));
      KeepAll(Stream(front, s));
    }
  }

  lemma KeepAll<T>(a: seq<T>)
    ensures a + [] == a == [] + a
  {
  }

  lemma {:induction false} OthersValid(cfg: Config, h: seq<Event>, i: nat)
    requires ValidHistory(cfg, h)
    ensures ValidHistory(cfg, Others(h, i))
  {
    if h != [] { OthersValid(cfg, h[..|h| - 1], i); }
  }

  lemma Extremes(cfg: Config, h: seq<Event>, i: nat)
    requires ValidHistory(cfg, h)
    ensures ValidHistory(cfg, Ahead(h, i)) && SameStreams(cfg, h, Ahead(h, i))
    ensures ValidHistory(cfg, Behind(h, i)) && SameStreams(cfg, h, Behind(h, i))
  {
    StreamValid(cfg, h, i);
    OthersValid(cfg, h, i);
    hide Stream, Others;
    forall s | 0 <= s < Size(cfg)
      ensures Stream(Ahead(h, i), s) == Stream(h, s) == Stream(Behind(h, i), s)
    {
      StreamConcat(Stream(h, i), Others(h, i), s);
      StreamConcat(Others(h, i), Stream(h, i), s);
      StreamOfStream(h, i, s);
      KeepAll(Stream(h, s));
    }
  }

  // ----- the first and the last to offer a value -----

  lemma {:induction false} OfferInStream<T>(h: seq<Event>, f: Event -> Option<T>, i: nat)
    ensures First(Stream(h, i), f).Some? ==> First(h, f).Some?
    ensures Last(Stream(h, i), f).Some? ==> Last(h, f).Some?
    decreases |h|
  {
    if h != [] {
      var front := h[..|h| - 1];
      OfferInStream(front, f, i);
      if h[|h| - 1].source == i {
        assert Stream(h, i)[..|Stream(front, i)|] == Stream(front, i);
      } else {
        KeepAll(Stream(front, i));
      }
    }
  }

  /** The first to offer a value offers it as the first of its own stream; likewise the last. */
  lemma {:induction false} FirstOwner<T>(cfg: Config, h: seq<Event>, f: Event -> Option<T>) returns (i: nat)
    requires ValidHistory(cfg, h) && First(h, f).Some?
    ensures i < Size(cfg) && First(Stream(h, i), f) == First(h, f)
    decreases |h|
  {
    var front, ev := h[..|h| - 1], h[|h| - 1];
    if First(front, f).Some? {
      i := FirstOwner(cfg, front, f);
    } else {
      i := ev.source;
      OfferInStream(front, f, i);
    }
    if ev.source == i {
      assert Stream(h, i)[..|Stream(front, i)|] == Stream(front, i);
    } else {
      KeepAll(Stream(front, i));
    }
  }

  lemma {:induction false} LastOwner<T>(cfg: Config, h: seq<Event>, f: Event -> Option<T>) returns (i: nat)
    requires ValidHistory(cfg, h) && Last(h, f).Some?
    ensures i < Size(cfg) && Last(Stream(h, i), f) == Last(h, f)
    decreases |h|
  {
    var front, ev := h[..|h| - 1], h[|h| - 1];
    i := ev.source;
    if f(ev).None? { i := LastOwner(cfg, front, f); }
    if ev.source == i {
      assert Stream(h, i)[..|Stream(front, i)|] == Stream(front, i);
    } else {
      KeepAll(Stream(front, i));
    }
  }

  ghost predicate FirstsAgree<T>(cfg: Config, h: seq<Event>, f: Event -> Option<T>) {
    forall i: nat, j: nat ::
      i < Size(cfg) && j < Size(cfg) && First(Stream(h, i), f).Some? && First(Stream(h, j), f).Some? ==>
        First(Stream(h, i), f) == First(Stream(h, j), f)
  }

  ghost predicate LastsAgree<T>(cfg: Config, h: seq<Event>, f: Event -> Option<T>) {
    forall i: nat, j: nat ::
      i < Size(cfg) && j < Size(cfg) && Last(Stream(h, i), f).Some? && Last(Stream(h, j), f).Some? ==>
        Last(Stream(h, i), f) == Last(Stream(h, j), f)
  }

  lemma FirstsSame<T>(cfg: Config, h: seq<Event>, h': seq<Event>, f: Event -> Option<T>)
    requires ValidHistory(cfg, h) && ValidHistory(cfg, h') && SameStreams(cfg, h, h')
    ensures First(h, f).Some? <==> First(h', f).Some?
    ensures FirstsAgree(cfg, h, f) ==> First(h, f) == First(h', f)
  {
    hide First, Stream;
    if First(h, f).Some? {
      var i := FirstOwner(cfg, h, f);
      OfferInStream(h', f, i);
    }
    if First(h', f).Some? {
      var j := FirstOwner(cfg, h', f);
      OfferInStream(h, f, j);
    }
  }

  lemma LastsSame<T>(cfg: Config, h: seq<Event>, h': seq<Event>, f: Event -> Option<T>)
    requires ValidHistory(cfg, h) && ValidHistory(cfg, h') && SameStreams(cfg, h, h')
    ensures Last(h, f).Some? <==> Last(h', f).Some?
    ensures LastsAgree(cfg, h, f) ==> Last(h, f) == Last(h', f)
  {
    hide Last, Stream;
    if Last(h, f).Some? {
      var i := LastOwner(cfg, h, f);
      OfferInStream(h', f, i);
    }
    if Last(h', f).Some? {
      var j := LastOwner(cfg, h', f);
      OfferInStream(h, f, j);
    }
  }

  /** The first value offered is decided by the streams exactly when all sources that offer one offer the same first. */
  lemma FirstDetermined<T>(cfg: Config, h: seq<Event>, f: Event -> Option<T>)
    requires ValidHistory(cfg, h)
    ensures (forall h' :: ValidHistory(cfg, h') && SameStreams(cfg, h, h') ==> First(h', f) == First(h, f))
            <==> FirstsAgree(cfg, h, f)
  {
    hide First, Stream, SameStreams, ValidHistory;
    if FirstsAgree(cfg, h, f) {
      forall h' | ValidHistory(cfg, h') && SameStreams(cfg, h, h') ensures First(h', f) == First(h, f) {
        FirstsSame(cfg, h, h', f);
      }
    } else {
      forall i: nat | First(Stream(h, i), f).Some?
        ensures ValidHistory(cfg, Ahead(h, i)) && SameStreams(cfg, h, Ahead(h, i))
        ensures First(Ahead(h, i), f) == First(Stream(h, i), f)
      {
        Extremes(cfg, h, i);
        FirstConcat(Stream(h, i), Others(h, i), f);
      }
    }
  }

  /** Likewise the last one. */
  lemma LastDetermined<T>(cfg: Config, h: seq<Event>, f: Event -> Option<T>)
    requires ValidHistory(cfg, h)
    ensures (forall h' :: ValidHistory(cfg, h') && SameStreams(cfg, h, h') ==> Last(h', f) == Last(h, f))
            <==> LastsAgree(cfg, h, f)
  {
    hide Last, Stream, SameStreams, ValidHistory;
    if LastsAgree(cfg, h, f) {
      forall h' | ValidHistory(cfg, h') && SameStreams(cfg, h, h') ensures Last(h', f) == Last(h, f) {
        LastsSame(cfg, h, h', f);
      }
    } else {
      forall i: nat | Last(Stream(h, i), f).Some?
        ensures ValidHistory(cfg, Behind(h, i)) && SameStreams(cfg, h, Behind(h, i))
        ensures Last(Behind(h, i), f) == Last(Stream(h, i), f)
      {
        Extremes(cfg, h, i);
        FirstConcat(Others(h, i), Stream(h, i), f);
      }
    }
  }

  // ----- what a block takes from which delivery -----

  function NumberIn(key: string): Event -> Option<nat> {
    (ev: Event) => if ev.payload.Block? && ev.payload.key == key then ev.payload.number else None
  }

  function HashIn(key: string): Event -> Option<string> {
    (ev: Event) => if ev.payload.Block? && ev.payload.key == key then ev.payload.hash else None
  }

  function CountIn(key: string): Event -> Option<nat> {
    (ev: Event) => if ev.payload.Block? && ev.payload.key == key then ev.payload.txCount else None
  }

  ghost predicate Describes(st: State, key: string, number: Option<nat>, hash: Option<string>, count: Option<nat>) {
    if key in st.blocks then
      var r := st.blocks[key];
      r.number == number && r.hash == hash && r.txCount == count
    else number.None? && hash.None? && count.None?
  }

  /** In every run, a block has the first number, the first hash and the first count that any of its deliveries names,
      duplicates included. */
  lemma {:induction false} BlockTakesFirst(cfg: Config, h: seq<Event>, key: string)
    requires ValidHistory(cfg, h)
    ensures Describes(Run(cfg, h), key, First(h, NumberIn(key)), First(h, HashIn(key)), First(h, CountIn(key)))
    decreases |h|
  {
    hide Step, Describes, NumberIn, HashIn, CountIn;
    if h == [] {
      Undescribed(cfg, key);
    } else {
      var front, ev := h[..|h| - 1], h[|h| - 1];
      BlockTakesFirst(cfg, front, key);
      DescribeStep(cfg, Run(cfg, front), ev, key, First(front, NumberIn(key)), First(front, HashIn(key)),
                   First(front, CountIn(key)));
    }
  }

  lemma Undescribed(cfg: Config, key: string)
    ensures Describes(Run(cfg, []), key, None, None, None)
  {
  }

  lemma DescribeStep(cfg: Config, st: State, ev: Event, key: string, number: Option<nat>, hash: Option<string>,
                     count: Option<nat>)
    requires Sized(cfg, st) && ev.source < Size(cfg) && Describes(st, key, number, hash, count)
    ensures Describes(Step(cfg, st, ev), key, OrElse(number, NumberIn(key)(ev)), OrElse(hash, HashIn(key)(ev)),
                      OrElse(count, CountIn(key)(ev)))
  {
    hide Latest, Connect, Disconnect, DeliverTx;
  }

  // ----- what a transaction takes from which delivery -----

  /** The block key that a delivery of the transaction names; from Nitro sources only if `onlyNitro`. */
  function KeyIn(cfg: Config, tx: Hash, onlyNitro: bool): Event -> Option<string> {
    (ev: Event) =>
      if ev.payload.Tx? && ev.payload.tx == tx && (onlyNitro ==> IsNitro(cfg, ev.source)) then ev.payload.blockKey
      else None
  }

  function TxCountIn(cfg: Config, tx: Hash): Event -> Option<nat> {
    (ev: Event) => if ev.payload.Tx? && ev.payload.tx == tx && IsNitro(cfg, ev.source) then ev.payload.inBlock else None
  }

  predicate IsNitro(cfg: Config, s: nat) {
    s < |cfg.nitro| && cfg.nitro[s]
  }

  ghost predicate TakenFrom(st: State, tx: Hash, nitroKey: Option<string>, anyKey: Option<string>, count: Option<nat>) {
    if tx in st.txs then
      var r := st.txs[tx];
      r.blockKey == OrElse(nitroKey, anyKey) && (r.fromNitro <==> nitroKey.Some?) && r.txCount == count
    else nitroKey.None? && anyKey.None? && count.None?
  }

  /** In every run, a transaction's block key is that of the first Nitro delivery to name one, of any delivery failing
      that, while its count comes from the last Nitro delivery. */
  lemma {:induction false} KeyFirstCountLast(cfg: Config, h: seq<Event>, tx: Hash)
    requires ValidHistory(cfg, h)
    ensures TakenFrom(Run(cfg, h), tx, First(h, KeyIn(cfg, tx, true)), First(h, KeyIn(cfg, tx, false)),
                      Last(h, TxCountIn(cfg, tx)))
    ensures First(h, KeyIn(cfg, tx, true)).Some? ==> First(h, KeyIn(cfg, tx, false)).Some?
    decreases |h|
  {
    hide Step, TakenFrom;
    if h == [] {
      NothingTaken(cfg, tx);
    } else {
      var front, ev := h[..|h| - 1], h[|h| - 1];
      KeyFirstCountLast(cfg, front, tx);
      TakenStep(cfg, Run(cfg, front), ev, tx, First(front, KeyIn(cfg, tx, true)), First(front, KeyIn(cfg, tx, false)),
                Last(front, TxCountIn(cfg, tx)));
    }
  }

  lemma NothingTaken(cfg: Config, tx: Hash)
    ensures TakenFrom(Run(cfg, []), tx, None, None, None)
  {
  }

  lemma TakenStep(cfg: Config, st: State, ev: Event, tx: Hash, nitroKey: Option<string>, anyKey: Option<string>,
                  count: Option<nat>)
    requires Sized(cfg, st) && ev.source < Size(cfg) && TakenFrom(st, tx, nitroKey, anyKey, count)
    requires nitroKey.Some? ==> anyKey.Some?
    ensures TakenFrom(Step(cfg, st, ev), tx,
                      OrElse(nitroKey, KeyIn(cfg, tx, true)(ev)), OrElse(anyKey, KeyIn(cfg, tx, false)(ev)),
                      OrElse(TxCountIn(cfg, tx)(ev), count))
  {
    hide Latest, Connect, Disconnect, Deliver;
  }

  // ----- when the streams decide -----

  /** What the interleavings of the same streams can disagree on about a block. */
  ghost predicate BlockFieldsFixed(cfg: Config, h: seq<Event>, key: string)
    requires ValidHistory(cfg, h) && key in Run(cfg, h).blocks
  {
    var r := Run(cfg, h).blocks[key];
    forall h' :: ValidHistory(cfg, h') && SameStreams(cfg, h, h') ==>
      key in Run(cfg, h').blocks &&
      var r' := Run(cfg, h').blocks[key];
      r'.number == r.number && r'.hash == r.hash && r'.txCount == r.txCount
  }

  /** Number, hash and count of a block are decided by the streams exactly when the sources' first ones agree. */
  lemma BlockFieldsDetermined(cfg: Config, h: seq<Event>, key: string)
    requires ValidConfig(cfg) && ValidHistory(cfg, h) && key in Run(cfg, h).blocks
    ensures BlockFieldsFixed(cfg, h, key) <==>
            FirstsAgree(cfg, h, NumberIn(key)) && FirstsAgree(cfg, h, HashIn(key)) && FirstsAgree(cfg, h, CountIn(key))
  {
    hide Run, First, SameStreams, ValidHistory, FirstsAgree, SameBlock, OwnOf, SameTx;
    BlockTakesFirst(cfg, h, key);
    forall h' | ValidHistory(cfg, h') && SameStreams(cfg, h, h')
      ensures key in Run(cfg, h').blocks
      ensures Describes(Run(cfg, h'), key, First(h', NumberIn(key)), First(h', HashIn(key)), First(h', CountIn(key)))
    {
      Confluent(cfg, h, h');
      BlockTakesFirst(cfg, h', key);
    }
    FirstDetermined(cfg, h, NumberIn(key));
    FirstDetermined(cfg, h, HashIn(key));
    FirstDetermined(cfg, h, CountIn(key));
  }

  /** Two sources that name different hashes for a block: the first one processed is kept. */
  lemma HashesDiffer(cfg: Config, key: string)
    requires ValidConfig(cfg) && Size(cfg) >= 2
    ensures var a, b := Event(0, 1, Block(key, None, Some("x"), None, 0)),
              Event(1, 1, Block(key, None, Some("y"), None, 0));
            && ValidHistory(cfg, [a, b]) && ValidHistory(cfg, [b, a]) && SameStreams(cfg, [a, b], [b, a])
            && key in Run(cfg, [a, b]).blocks && Run(cfg, [a, b]).blocks[key].hash == Some("x")
            && key in Run(cfg, [b, a]).blocks && Run(cfg, [b, a]).blocks[key].hash == Some("y")
  {
    hide Run;
    var a, b := Event(0, 1, Block(key, None, Some("x"), None, 0)), Event(1, 1, Block(key, None, Some("y"), None, 0));
    SwappedPair(cfg, a, b);
    BlockTakesFirst(cfg, [a, b], key);
    BlockTakesFirst(cfg, [b, a], key);
    OfTwo(a, b, HashIn(key));
    OfTwo(b, a, HashIn(key));
  }

  lemma OfTwo<T>(a: Event, b: Event, f: Event -> Option<T>)
    ensures First([a, b], f) == OrElse(f(a), f(b)) && Last([a, b], f) == OrElse(f(b), f(a))
  {
    FirstOfOne(a, f);
    assert [a, b][..1] == [a];
  }

  /** Two Nitro sources that name different blocks and counts for a transaction: the block is that of the first one
      processed, the count that of the last one. */
  lemma TxFieldsDiffer(cfg: Config, tx: Hash)
    requires ValidConfig(cfg) && Size(cfg) >= 2 && cfg.nitro[0] && cfg.nitro[1]
    ensures var a, b := Event(0, 1, Tx(tx, Some("x"), Some(5), false, 0)),
              Event(1, 1, Tx(tx, Some("y"), Some(60), false, 0));
            && ValidHistory(cfg, [a, b]) && ValidHistory(cfg, [b, a]) && SameStreams(cfg, [a, b], [b, a])
            && tx in Run(cfg, [a, b]).txs && tx in Run(cfg, [b, a]).txs
            && Run(cfg, [a, b]).txs[tx].blockKey == Some("x") && Run(cfg, [a, b]).txs[tx].txCount == Some(60)
            && Run(cfg, [b, a]).txs[tx].blockKey == Some("y") && Run(cfg, [b, a]).txs[tx].txCount == Some(5)
  {
    hide Run;
    var a, b := Event(0, 1, Tx(tx, Some("x"), Some(5), false, 0)), Event(1, 1, Tx(tx, Some("y"), Some(60), false, 0));
    SwappedPair(cfg, a, b);
    KeyFirstCountLast(cfg, [a, b], tx);
    KeyFirstCountLast(cfg, [b, a], tx);
    OfTwo(a, b, KeyIn(cfg, tx, true));
    OfTwo(b, a, KeyIn(cfg, tx, true));
    OfTwo(a, b, TxCountIn(cfg, tx));
    OfTwo(b, a, TxCountIn(cfg, tx));
  }

  ghost predicate TxKeyFixed(cfg: Config, h: seq<Event>, tx: Hash)
    requires ValidHistory(cfg, h) && tx in Run(cfg, h).txs
  {
    forall h' :: ValidHistory(cfg, h') && SameStreams(cfg, h, h') ==>
      tx in Run(cfg, h').txs && Run(cfg, h').txs[tx].blockKey == Run(cfg, h).txs[tx].blockKey
  }

  ghost predicate TxCountFixed(cfg: Config, h: seq<Event>, tx: Hash)
    requires ValidHistory(cfg, h) && tx in Run(cfg, h).txs
  {
    forall h' :: ValidHistory(cfg, h') && SameStreams(cfg, h, h') ==>
      tx in Run(cfg, h').txs && Run(cfg, h').txs[tx].txCount == Run(cfg, h).txs[tx].txCount
  }

  /** Whether some Nitro source names a block for the transaction. */
  ghost predicate NitroNames(cfg: Config, h: seq<Event>, tx: Hash) {
    exists i: nat :: i < Size(cfg) && First(Stream(h, i), KeyIn(cfg, tx, true)).Some?
  }

  lemma NitroNamesFirst(cfg: Config, h: seq<Event>, tx: Hash)
    requires ValidHistory(cfg, h)
    ensures NitroNames(cfg, h, tx) <==> First(h, KeyIn(cfg, tx, true)).Some?
  {
    hide First, Stream, KeyIn;
    if First(h, KeyIn(cfg, tx, true)).Some? {
      var i := FirstOwner(cfg, h, KeyIn(cfg, tx, true));
    }
    if NitroNames(cfg, h, tx) {
      var i: nat :| i < Size(cfg) && First(Stream(h, i), KeyIn(cfg, tx, true)).Some?;
      OfferInStream(h, KeyIn(cfg, tx, true), i);
    }
  }

  /** A transaction's block key is decided by the streams exactly when the first keys agree that its Nitro sources name,
      or all of its sources if no Nitro source names one; its count exactly when the last counts of its Nitro sources
      agree. */
  lemma TxFieldsDetermined(cfg: Config, h: seq<Event>, tx: Hash)
    requires ValidConfig(cfg) && ValidHistory(cfg, h) && tx in Run(cfg, h).txs
    ensures TxKeyFixed(cfg, h, tx) <==> FirstsAgree(cfg, h, KeyIn(cfg, tx, NitroNames(cfg, h, tx)))
    ensures TxCountFixed(cfg, h, tx) <==> LastsAgree(cfg, h, TxCountIn(cfg, tx))
  {
    hide Run, First, Last, SameStreams, ValidHistory, FirstsAgree, LastsAgree, SameBlock, OwnOf, SameTx, NitroNames;
    KeyFirstCountLast(cfg, h, tx);
    NitroNamesFirst(cfg, h, tx);
    var names := NitroNames(cfg, h, tx);
    forall h' | ValidHistory(cfg, h') && SameStreams(cfg, h, h')
      ensures tx in Run(cfg, h').txs
      ensures Run(cfg, h').txs[tx].blockKey == First(h', KeyIn(cfg, tx, names))
      ensures Run(cfg, h').txs[tx].txCount == Last(h', TxCountIn(cfg, tx))
    {
      Confluent(cfg, h, h');
      KeyFirstCountLast(cfg, h', tx);
      FirstsSame(cfg, h, h', KeyIn(cfg, tx, true));
    }
    FirstDetermined(cfg, h, KeyIn(cfg, tx, names));
    LastDetermined(cfg, h, TxCountIn(cfg, tx));
  }
}
