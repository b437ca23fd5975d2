/** The dotted JSON path of the generic WebSocket source: `extract` as a query that composes. */
module JsonPath {
  import opened Bytes
  import opened Text

  /** A parsed JSON value; numbers keep their text. */
  datatype Json =
    | Null
    | Bool(b: bool)
    | Number(text: string)
    | Str(s: string)
    | Arr(items: seq<Json>)
    | Obj(fields: map<string, Json>)

  // ----- the string functions of the standard library that the path uses -----

  /** `s.split(c)` */
  function Split(s: string, c: char): (parts: seq<string>)
    ensures parts != []
  {
    if s == [] then [""]
    else
      var rest := Split(s[1..], c);
      if s[0] == c then [""] + rest else [[s[0]] + rest[0]] + rest[1..]
  }

  /** `s.find('[')`, or the length of s. */
  function BracketAt(s: string): (i: nat)
    ensures i <= |s|
  {
    if s == [] || s[0] == '[' then 0 else 1 + BracketAt(s[1..])
  }

  /** `s.trim_start_matches('[')` */
  function TrimStart(s: string): string {
    if s != [] && s[0] == '[' then TrimStart(s[1..]) else s
  }

  function NonEmpty(parts: seq<string>): seq<string> {
    if parts == [] then [] else (if parts[0] == "" then [] else [parts[0]]) + NonEmpty(parts[1..])
  }

  /** `s.parse::<usize>()`: decimal digits after an optional plus sign, without overflow. */
  function ParseUsize(s: string): Option<nat> {
    var t := if s != [] && s[0] == '+' then s[1..] else s;
    if t == [] then None
    else
      var n := Digits(t);
      if n.Some? && n.value < USIZE then n else None
  }

  // ----- extract -----

  /** `x.get(name)` and `x.get(i)` */
  function Field(x: Json, name: string): seq<Json> {
    if x.Obj? && name in x.fields then [x.fields[name]] else []
  }

  function Element(x: Json, i: nat): seq<Json> {
    if x.Arr? && i < |x.items| then [x.items[i]] else []
  }

  function Items(x: Json): seq<Json> {
    if x.Arr? then x.items else []
  }

  function Fields(cur: seq<Json>, name: string): seq<Json> {
    if cur == [] then [] else Field(cur[0], name) + Fields(cur[1..], name)
  }

  function Elements(cur: seq<Json>, i: nat): seq<Json> {
    if cur == [] then [] else Element(cur[0], i) + Elements(cur[1..], i)
  }

  function AllItems(cur: seq<Json>): seq<Json> {
    if cur == [] then [] else Items(cur[0]) + AllItems(cur[1..])
  }

  /** One piece between closing brackets; None when it is neither empty nor an index. */
  function Bracket(cur: seq<Json>, b: string): Option<seq<Json>> {
    var inner := TrimStart(b);
    if inner == "" then Some(AllItems(cur))
    else
      var i := ParseUsize(inner);
      if i.Some? then Some(Elements(cur, i.value)) else None
  }

  function Brackets(cur: seq<Json>, bs: seq<string>): Option<seq<Json>>
    decreases |bs|
  {
    if bs == [] then Some(cur)
    else
      var next := Bracket(cur, bs[0]);
      if next.None? then None else Brackets(next.value, bs[1..])
  }

  function Segment(cur: seq<Json>, seg: string): Option<seq<Json>> {
    var i := BracketAt(seg);
    Brackets(if i == 0 then cur else Fields(cur, seg[..i]), NonEmpty(Split(seg[i..], ']')))
  }

  function Path(cur: seq<Json>, segs: seq<string>): Option<seq<Json>>
    decreases |segs|
  {
    if segs == [] then Some(cur)
    else
      var next := Segment(cur, segs[0]);
      if next.None? then None else Path(next.value, segs[1..])
  }

  function OrEmpty(r: Option<seq<Json>>): seq<Json> {
    if r.None? then [] else r.value
  }

  /** The values at a path. */
  function Extract(v: Json, path: string): seq<Json> {
    OrEmpty(Path([v], Split(path, '.')))
  }

  /** `extract`, the program's nested loops. */
  method ExtractLoop(v: Json, path: string) returns (r: seq<Json>)
    ensures r == Extract(v, path)
  {
    hide *;
    PathNil([v]);
    var cur, segs := [v], Split(path, '.');
    ghost var goal := Path(cur, segs);
    ExtractIs(v, path);
    var k := 0;
    while k < |segs|
      invariant 0 <= k <= |segs|
      invariant goal == Path(cur, segs[k..])
    {
      PathCons(cur, segs[k..]);
      assert segs[k..][1..] == segs[k + 1..];
      var seg := segs[k];
      EmptySegment(cur);
      if seg != [] {
        var i := BracketAt(seg);
        ghost var after := Segment(cur, seg);
        SegmentIs(cur, seg);
        if i != 0 { cur := Fields(cur, seg[..i]); }
        var bs := NonEmpty(Split(seg[i..], ']'));
        var j := 0;
        while j < |bs|
          invariant 0 <= j <= |bs|
          invariant after == Brackets(cur, bs[j..])
        {
          BracketsCons(cur, bs[j..]);
          assert bs[j..][1..] == bs[j + 1..];
          BracketIs(cur, bs[j]);
          var inner := TrimStart(bs[j]);
          if inner == "" {
            cur := AllItems(cur);
          } else {
            var n := ParseUsize(inner);
            if n.None? { return []; }
            cur := Elements(cur, n.value);
          }
          j := j + 1;
        }
        BracketsCons(cur, bs[j..]);
      }
      k := k + 1;
    }
    assert segs[k..] == [];
    PathNil(cur);
    assert goal == Some(cur);
    return cur;
  }

  lemma ExtractIs(v: Json, path: string)
    ensures var r := Path([v], Split(path, '.')); Extract(v, path) == if r.None? then [] else r.value
  {
    hide Path;
  }

  lemma PathNil(cur: seq<Json>)
    ensures Path(cur, []) == Some(cur)
  {
  }

  lemma PathCons(cur: seq<Json>, segs: seq<string>)
    requires segs != []
    ensures var next := Segment(cur, segs[0]);
            Path(cur, segs) == if next.None? then None else Path(next.value, segs[1..])
  {
    hide Segment;
  }

  lemma EmptySegment(cur: seq<Json>)
    ensures Segment(cur, "") == Some(cur)
  {
    assert Split("", ']') == [""];
    assert NonEmpty([""]) == [];
  }

  lemma SegmentIs(cur: seq<Json>, seg: string)
    ensures var i := BracketAt(seg);
            Segment(cur, seg) == Brackets(if i == 0 then cur else Fields(cur, seg[..i]), NonEmpty(Split(seg[i..], ']')))
  {
  }

  lemma BracketsCons(cur: seq<Json>, bs: seq<string>)
    ensures Brackets(cur, bs) ==
            if bs == [] then Some(cur)
            else var next := Bracket(cur, bs[0]); if next.None? then None else Brackets(next.value, bs[1..])
  {
  }

  lemma BracketIs(cur: seq<Json>, b: string)
    ensures var inner := TrimStart(b);
            Bracket(cur, b) ==
            if inner == "" then Some(AllItems(cur))
            else if ParseUsize(inner).Some? then Some(Elements(cur, ParseUsize(inner).value))
            else None
  {
  }

  // ----- every step works value by value -----

  /** Two results side by side. */
  function Both(r: Option<seq<Json>>, s: Option<seq<Json>>): Option<seq<Json>> {
    if r.None? || s.None? then None else Some(r.value + s.value)
  }

  lemma {:induction false} FieldsConcat(a: seq<Json>, b: seq<Json>, name: string)
    ensures Fields(a + b, name) == Fields(a, name) + Fields(b, name)
  {
    hide Field;
    if a == [] {
      assert a + b == b;
    } else {
      FieldsConcat(a[1..], b, name);
      ConsConcat(a, b);
      Assoc(Field(a[0], name), Fields(a[1..], name), Fields(b, name));
    }
  }

  lemma {:induction false} ElementsConcat(a: seq<Json>, b: seq<Json>, i: nat)
    ensures Elements(a + b, i) == Elements(a, i) + Elements(b, i)
  {
    hide Element;
    if a == [] {
      assert a + b == b;
    } else {
      ElementsConcat(a[1..], b, i);
      ConsConcat(a, b);
      Assoc(Element(a[0], i), Elements(a[1..], i), Elements(b, i));
    }
  }

  lemma {:induction false} ItemsConcat(a: seq<Json>, b: seq<Json>)
    ensures AllItems(a + b) == AllItems(a) + AllItems(b)
  {
    hide Items;
    if a == [] {
      assert a + b == b;
    } else {
      ItemsConcat(a[1..], b);
      ConsConcat(a, b);
      Assoc(Items(a[0]), AllItems(a[1..]), AllItems(b));
    }
  }

  lemma BracketConcat(a: seq<Json>, b: seq<Json>, t: string)
    ensures Bracket(a + b, t) == Both(Bracket(a, t), Bracket(b, t))
  {
    hide AllItems, Elements, ParseUsize, TrimStart;
    BracketIs(a + b, t);
    ItemsConcat(a, b);
    if ParseUsize(TrimStart(t)).Some? { ElementsConcat(a, b, ParseUsize(TrimStart(t)).value); }
  }

  lemma {:induction false} BracketsConcat(a: seq<Json>, b: seq<Json>, bs: seq<string>)
    ensures Brackets(a + b, bs) == Both(Brackets(a, bs), Brackets(b, bs))
    decreases |bs|
  {
    hide Bracket;
    if bs != [] {
      BracketConcat(a, b, bs[0]);
      BracketsAlike(a, b, bs);
      if Bracket(a, bs[0]).Some? && Bracket(b, bs[0]).Some? {
        BracketsConcat(Bracket(a, bs[0]).value, Bracket(b, bs[0]).value, bs[1..]);
      }
    }
  }

  /** Whether a path is malformed does not depend on the values. */
  lemma {:induction false} BracketsAlike(a: seq<Json>, b: seq<Json>, bs: seq<string>)
    ensures Brackets(a, bs).None? <==> Brackets(b, bs).None?
    decreases |bs|
  {
    hide Bracket;
    if bs != [] {
      BracketIs(a, bs[0]);
      BracketIs(b, bs[0]);
      if Bracket(a, bs[0]).Some? && Bracket(b, bs[0]).Some? {
        BracketsAlike(Bracket(a, bs[0]).value, Bracket(b, bs[0]).value, bs[1..]);
      }
    }
  }

  lemma SegmentConcat(a: seq<Json>, b: seq<Json>, seg: string)
    ensures Segment(a + b, seg) == Both(Segment(a, seg), Segment(b, seg))
    ensures Segment(a, seg).None? <==> Segment(b, seg).None?
  {
    hide Brackets, Fields, NonEmpty, Split, BracketAt;
    var i := BracketAt(seg);
    var bs := NonEmpty(Split(seg[i..], ']'));
    if i == 0 {
      BracketsConcat(a, b, bs);
      BracketsAlike(a, b, bs);
    } else {
      FieldsConcat(a, b, seg[..i]);
      BracketsConcat(Fields(a, seg[..i]), Fields(b, seg[..i]), bs);
      BracketsAlike(Fields(a, seg[..i]), Fields(b, seg[..i]), bs);
    }
  }

  lemma {:induction false} PathConcat(a: seq<Json>, b: seq<Json>, segs: seq<string>)
    ensures Path(a + b, segs) == Both(Path(a, segs), Path(b, segs))
    ensures Path(a, segs).None? <==> Path(b, segs).None?
    decreases |segs|
  {
    hide Segment;
    if segs != [] {
      SegmentConcat(a, b, segs[0]);
      if Segment(a, segs[0]).Some? && Segment(b, segs[0]).Some? {
        PathConcat(Segment(a, segs[0]).value, Segment(b, segs[0]).value, segs[1..]);
      }
    }
  }

  lemma {:induction false} PathThen(cur: seq<Json>, ps: seq<string>, qs: seq<string>)
    ensures Path(cur, ps + qs) == (var r := Path(cur, ps); if r.None? then None else Path(r.value, qs))
    decreases |ps|
  {
    hide Segment;
    if ps == [] {
      assert ps + qs == qs;
    } else {
      assert (ps + qs)[1..] == ps[1..] + qs && (ps + qs)[0] == ps[0];
      if Segment(cur, ps[0]).Some? { PathThen(Segment(cur, ps[0]).value, ps[1..], qs); }
    }
  }

  /** `extract(x, q)` for each x, one after the other. */
  function Each(xs: seq<Json>, q: string): seq<Json> {
    if xs == [] then [] else Extract(xs[0], q) + Each(xs[1..], q)
  }

  lemma {:induction false} PathEach(xs: seq<Json>, q: string)
    ensures OrEmpty(Path(xs, Split(q, '.'))) == Each(xs, q)
  {
    hide Path, Split;
    if xs == [] {
      PathOfNone(Split(q, '.'));
    } else {
      PathEach(xs[1..], q);
      PathConcat([xs[0]], xs[1..], Split(q, '.'));
      assert xs == [xs[0]] + xs[1..];
    }
  }

  lemma {:induction false} PathOfNone(segs: seq<string>)
    ensures OrEmpty(Path([], segs)) == []
    decreases |segs|
  {
    hide Segment;
    if segs != [] {
      SegmentConcat([], [], segs[0]);
      var none: seq<Json> := [];
      assert none + none == none;
      var s := Segment([], segs[0]);
      if s.Some? {
        assert |s.value| == |s.value| + |s.value|;
        PathOfNone(segs[1..]);
      }
    }
  }

  lemma {:induction false} SplitConcat(p: string, q: string, c: char)
    ensures Split(p + [c] + q, c) == Split(p, c) + Split(q, c)
  {
    if p == [] {
      assert p + [c] + q == [c] + q;
      assert ([c] + q)[1..] == q;
    } else {
      SplitConcat(p[1..], q, c);
      Assoc(p, [c], q);
      ConsConcat(p, [c] + q);
      Assoc(p[1..], [c], q);
      var ps, qs := Split(p[1..], c), Split(q, c);
      ConsConcat(ps, qs);
      Assoc([""], ps, qs);
      Assoc([[p[0]] + ps[0]], ps[1..], qs);
    }
  }

  /** Composition: for all values and all path strings, malformed ones included, following p and then q is following
      q from every value at p. */
  lemma ExtractComposes(v: Json, p: string, q: string)
    ensures Extract(v, p + "." + q) == Each(Extract(v, p), q)
  {
    hide Path, Split;
    SplitConcat(p, q, '.');
    assert [ '.' ] == ".";
    PathThen([v], Split(p, '.'), Split(q, '.'));
    var r := Path([v], Split(p, '.'));
    if r.Some? { PathEach(r.value, q); }
  }

  // ----- brackets at the end of a path -----

  predicate Free(t: string, c: char) {
    forall i :: 0 <= i < |t| ==> t[i] != c
  }

  function Last(parts: seq<string>): string
    requires parts != []
  {
    parts[|parts| - 1]
  }

  /** The last segment of p is not in the middle of a bracket. */
  predicate Closed(p: string) {
    var seg := Last(Split(p, '.'));
    Free(seg, '[') || seg[|seg| - 1] == ']'
  }

  /** A string without the separator only extends the last piece. */
  lemma {:induction false} SplitExtend(p: string, t: string, c: char)
    requires Free(t, c)
    ensures Split(p + t, c) == Extended(Split(p, c), t)
  {
    if p == [] {
      SplitFree(t, c);
      assert p + t == t;
    } else {
      SplitExtend(p[1..], t, c);
      ConsConcat(p, t);
      var rest := Split(p[1..], c);
      ExtendedCons("", rest, t);
      ExtendedHead(p[0], rest, t);
    }
  }

  function Extended(parts: seq<string>, t: string): (r: seq<string>)
    requires parts != []
    ensures |r| == |parts|
  {
    parts[..|parts| - 1] + [Last(parts) + t]
  }

  lemma ExtendedCons(x: string, parts: seq<string>, t: string)
    requires parts != []
    ensures Extended([x] + parts, t) == [x] + Extended(parts, t)
  {
  }

  lemma ExtendedHead(x: char, parts: seq<string>, t: string)
    requires parts != []
    ensures Extended([[x] + parts[0]] + parts[1..], t) == [[x] + Extended(parts, t)[0]] + Extended(parts, t)[1..]
  {
    if |parts| == 1 {
      Assoc([x], parts[0], t);
    }
  }

  lemma {:induction false} SplitFree(t: string, c: char)
    requires Free(t, c)
    ensures Split(t, c) == [t]
  {
    if t != [] {
      SplitFree(t[1..], c);
      assert [t[0]] + t[1..] == t;
    }
  }

  lemma {:induction false} NonEmptyConcat(a: seq<string>, b: seq<string>)
    ensures NonEmpty(a + b) == NonEmpty(a) + NonEmpty(b)
  {
    if a == [] {
      assert a + b == b;
    } else {
      NonEmptyConcat(a[1..], b);
      ConsConcat(a, b);
      Assoc(if a[0] == "" then [] else [a[0]], NonEmpty(a[1..]), NonEmpty(b));
    }
  }

  lemma {:induction false} BracketAtFree(s: string, t: string)
    ensures Free(s, '[') ==> BracketAt(s) == |s| && BracketAt(s + ['['] + t) == |s|
    ensures !Free(s, '[') ==> BracketAt(s) < |s| && BracketAt(s + t) == BracketAt(s)
  {
    if s != [] {
      assert (s + t)[1..] == s[1..] + t && (s + ['['] + t)[1..] == s[1..] + ['['] + t;
      BracketAtFree(s[1..], t);
      if s[0] != '[' && Free(s[1..], '[') {
        assert Free(s, '[');
      }
    }
  }

  lemma OnePiece(piece: string)
    requires Free(piece, ']') && piece != ""
    ensures NonEmpty(Split(piece + [']'] + "", ']')) == [piece]
  {
    SplitConcat(piece, "", ']');
    SplitFree(piece, ']');
    SplitFree("", ']');
    NonEmptyConcat([piece], [""]);
    assert [piece] + [""] == [piece, ""];
  }

  /** Text up to a closing bracket, then one more piece. */
  lemma MorePieces(x: string, piece: string)
    requires Free(piece, ']') && piece != ""
    ensures NonEmpty(Split(x + [']'] + (piece + [']'] + ""), ']')) == NonEmpty(Split(x + [']'] + "", ']')) + [piece]
  {
    hide Split, NonEmpty;
    SplitConcat(x, "", ']');
    SplitConcat(x, piece + [']'] + "", ']');
    OnePiece(piece);
    NonEmptyConcat(Split(x, ']'), Split("", ']'));
    NonEmptyConcat(Split(x, ']'), Split(piece + [']'] + "", ']'));
    SplitFree("", ']');
    NonEmptyOfEmpty();
    var none: seq<string> := [];
    assert NonEmpty(Split(x, ']')) + none == NonEmpty(Split(x, ']'));
  }

  lemma NonEmptyOfEmpty()
    ensures NonEmpty([""]) == []
  {
  }

  /** One more bracket piece `[t]` after a closed segment. */
  lemma PiecesExtend(seg: string, t: string)
    requires Free(t, ']') && (Free(seg, '[') || seg[|seg| - 1] == ']')
    ensures var i, longer := BracketAt(seg), seg + "[" + t + "]";
            && BracketAt(longer) == i && longer[..i] == seg[..i]
            && NonEmpty(Split(longer[i..], ']')) == NonEmpty(Split(seg[i..], ']')) + ["[" + t]
  {
    hide *;
    var i, longer := BracketAt(seg), seg + "[" + t + "]";
    LongerTail(seg, t);
    SuffixPieces(seg, t, longer[i..]);
  }

  lemma SuffixPieces(seg: string, t: string, longer: string)
    requires Free(t, ']') && (Free(seg, '[') || seg[|seg| - 1] == ']')
    requires longer == seg[BracketAt(seg)..] + ("[" + t + "]")
    ensures NonEmpty(Split(longer, ']')) == NonEmpty(Split(seg[BracketAt(seg)..], ']')) + ["[" + t]
  {
    hide *;
    TailEnds(seg);
    PiecesOfSuffix(seg[BracketAt(seg)..], t);
  }

  lemma LongerTail(seg: string, t: string)
    ensures var i, longer := BracketAt(seg), seg + "[" + t + "]";
            && BracketAt(longer) == i && longer[..i] == seg[..i] && longer[i..] == seg[i..] + ("[" + t + "]")
  {
    hide *;
    Bracketed(seg, t);
    BracketInLonger(seg, t);
    CutConcat(seg, "[" + t + "]", BracketAt(seg));
  }

  lemma Bracketed(seg: string, t: string)
    ensures seg + "[" + t + "]" == seg + ("[" + t + "]")
  {
  }

  lemma TailEnds(seg: string)
    requires Free(seg, '[') || seg[|seg| - 1] == ']'
    ensures var tail := seg[BracketAt(seg)..]; tail == "" || tail[|tail| - 1] == ']'
  {
    hide BracketAt, Free;
    TailFree(seg);
  }

  lemma CutConcat(s: string, t: string, i: nat)
    requires i <= |s|
    ensures (s + t)[..i] == s[..i] && (s + t)[i..] == s[i..] + t
  {
  }

  lemma BracketInLonger(seg: string, t: string)
    ensures BracketAt(seg + ("[" + t + "]")) == BracketAt(seg)
    ensures Free(seg[BracketAt(seg)..], '[') <==> Free(seg, '[')
    ensures Free(seg, '[') <==> BracketAt(seg) == |seg|
  {
    hide BracketAt, Free;
    BracketAtFree(seg, "[" + t + "]");
    BracketAtFree(seg, t + "]");
    assert ['['] + (t + "]") == "[" + t + "]";
    Assoc(seg, ['['], t + "]");
    TailFree(seg);
  }

  lemma TailFree(seg: string)
    ensures BracketAt(seg) < |seg| ==> !Free(seg[BracketAt(seg)..], '[') && !Free(seg, '[')
    ensures BracketAt(seg) == |seg| ==> Free(seg[BracketAt(seg)..], '[') && Free(seg, '[')
  {
    hide BracketAt;
    BracketFound(seg);
    BracketAtFree(seg, []);
    if BracketAt(seg) < |seg| { assert seg[BracketAt(seg)..][0] == '['; }
  }

  lemma {:induction false} BracketFound(s: string)
    ensures BracketAt(s) < |s| ==> s[BracketAt(s)] == '['
  {
    if s != [] && s[0] != '[' { BracketFound(s[1..]); }
  }

  lemma TailSplit(tail: string, x: string, piece: string)
    requires tail == x + [']']
    ensures tail == x + [']'] + "" && tail + (piece + "]") == x + [']'] + (piece + [']'] + "")
  {
    assert piece + "]" == piece + [']'] + "";
  }

  lemma PiecesOfSuffix(tail: string, t: string)
    requires Free(t, ']') && (tail == "" || tail[|tail| - 1] == ']')
    ensures NonEmpty(Split(tail + ("[" + t + "]"), ']')) == NonEmpty(Split(tail, ']')) + ["[" + t]
  {
    hide Split, NonEmpty;
    var piece := "[" + t;
    if tail == "" {
      OnePiece(piece);
      SplitFree("", ']');
      NonEmptyOfEmpty();
      assert tail + ("[" + t + "]") == piece + [']'] + "";
      assert [] + [piece] == [piece];
    } else {
      var x := tail[..|tail| - 1];
      TailSplit(tail, x, piece);
      MorePieces(x, piece);
    }
  }

  lemma {:induction false} BracketsThen(cur: seq<Json>, bs: seq<string>, b: string)
    ensures Brackets(cur, bs + [b]) == (var r := Brackets(cur, bs); if r.None? then None else Bracket(r.value, b))
    decreases |bs|
  {
    hide Bracket;
    if bs == [] {
      assert bs + [b] == [b] && [b][1..] == [];
    } else {
      assert (bs + [b])[1..] == bs[1..] + [b] && (bs + [b])[0] == bs[0];
      if Bracket(cur, bs[0]).Some? { BracketsThen(Bracket(cur, bs[0]).value, bs[1..], b); }
    }
  }

  /** What a trailing `[t]` does to the values at p. */
  lemma TrailingBracket(v: Json, p: string, t: string)
    requires Closed(p) && Free(t, ']') && Free(t, '.')
    ensures Extract(v, p + "[" + t + "]") == OrEmpty(Bracket(Extract(v, p), "[" + t)) || Path([v], Split(p, '.')).None?
    ensures Path([v], Split(p, '.')).None? ==> Extract(v, p + "[" + t + "]") == [] == Extract(v, p)
  {
    hide Segment, Bracket, Split, Path;
    var parts, suffix := Split(p, '.'), "[" + t + "]";
    var front, seg := parts[..|parts| - 1], Last(parts);
    SplitExtend(p, suffix, '.');
    Assoc(p, "[", t);
    Assoc(p, "[" + t, "]");
    Assoc(seg, "[", t);
    Assoc(seg, "[" + t, "]");
    assert parts == front + [seg];
    PathThen([v], front, [seg]);
    PathThen([v], front, [seg + suffix]);
    var r := Path([v], front);
    if r.Some? {
      LongerSegment(r.value, seg, t);
      PathOne(r.value, seg);
      PathOne(r.value, seg + suffix);
    }
  }

  lemma PathOne(cur: seq<Json>, seg: string)
    ensures Path(cur, [seg]) == Segment(cur, seg)
  {
    hide Segment;
    assert [seg][1..] == [];
  }

  lemma LongerSegment(cur: seq<Json>, seg: string, t: string)
    requires Free(t, ']') && (Free(seg, '[') || seg[|seg| - 1] == ']')
    ensures var r := Segment(cur, seg);
            Segment(cur, seg + "[" + t + "]") == if r.None? then None else Bracket(r.value, "[" + t)
  {
    hide *;
    PiecesExtend(seg, t);
    SegmentIs(cur, seg);
    SegmentIs(cur, seg + "[" + t + "]");
    var i := BracketAt(seg);
    BracketsThen(if i == 0 then cur else Fields(cur, seg[..i]), NonEmpty(Split(seg[i..], ']')), "[" + t);
  }

  lemma IndexBracket(cur: seq<Json>, i: nat)
    requires i < USIZE
    ensures Bracket(cur, "[" + Decimal(i)) == Some(Elements(cur, i))
  {
    var s := Decimal(i);
    DigitsOfDecimal(i);
    assert ("[" + s)[1..] == s && s[0] != '[' && s[0] != '+';
    assert TrimStart("[" + s) == s;
  }

  lemma FanOutBracket(cur: seq<Json>)
    ensures Bracket(cur, "[" + "") == Some(AllItems(cur))
  {
    assert TrimStart("[") == "";
  }

  /** A trailing `[]` after a closed path fans out over the arrays at p, and `[i]` picks element i of each. */
  lemma TrailingFanOut(v: Json, p: string)
    requires Closed(p)
    ensures Extract(v, p + "[]") == AllItems(Extract(v, p))
    ensures forall i: nat :: i < USIZE ==> Extract(v, p + "[" + Decimal(i) + "]") == Elements(Extract(v, p), i)
  {
    hide Path, Split, Bracket, Closed, Decimal;
    TrailingBracket(v, p, "");
    FanOutBracket(Extract(v, p));
    assert p + "[" + "" + "]" == p + "[]";
    forall i: nat | i < USIZE
      ensures Extract(v, p + "[" + Decimal(i) + "]") == Elements(Extract(v, p), i)
    {
      TrailingBracket(v, p, Decimal(i));
      IndexBracket(Extract(v, p), i);
    }
  }

  /** The picks of elements 0 to k, one after the other. */
  function Picks(v: Json, p: string, k: nat): seq<Json> {
    if k == 0 then [] else Picks(v, p, k - 1) + Extract(v, p + "[" + Decimal(k - 1) + "]")
  }

  /** Where p is one array, fanning out is picking every element in turn. */
  lemma FanOutIsAllPicks(v: Json, p: string, a: seq<Json>)
    requires Closed(p) && Extract(v, p) == [Arr(a)] && |a| <= USIZE
    ensures Extract(v, p + "[]") == Picks(v, p, |a|) == a
  {
    hide Extract, Closed, Decimal;
    TrailingFanOut(v, p);
    assert AllItems([Arr(a)]) == a + AllItems([]) == a;
    PicksAre(v, p, a, |a|);
    assert a[..|a|] == a;
  }

  lemma {:induction false} PicksAre(v: Json, p: string, a: seq<Json>, k: nat)
    requires Closed(p) && Extract(v, p) == [Arr(a)] && k <= |a| <= USIZE
    ensures Picks(v, p, k) == a[..k]
  {
    hide Extract, Closed, Decimal;
    if k > 0 {
      PicksAre(v, p, a, k - 1);
      TrailingFanOut(v, p);
      assert Elements([Arr(a)], k - 1) == [a[k - 1]] + Elements([], k - 1) == [a[k - 1]];
    }
  }

  // ----- after an open bracket -----

  /** Some bracket of the path holds neither nothing nor an index; whether it does is independent of the value. */
  predicate Malformed(p: string) {
    Path([Null], Split(p, '.')).None?
  }

  lemma MalformedForAll(v: Json, p: string)
    ensures Malformed(p) <==> Path([v], Split(p, '.')).None?
  {
    hide Path, Split;
    PathConcat([v], [Null], Split(p, '.'));
  }

  /** The last piece is empty only at the start and after a separator. */
  lemma {:induction false} LastPiece(s: string, c: char)
    ensures Last(Split(s, c)) == "" <==> s == "" || s[|s| - 1] == c
    ensures s != "" && s[|s| - 1] != c ==> Last(Split(s, c))[|Last(Split(s, c))| - 1] == s[|s| - 1]
  {
    if s != "" {
      LastPiece(s[1..], c);
    }
  }

  /** A bracket piece in the middle of which one more bracket is opened. */
  lemma ReopenedBracket(cur: seq<Json>, q: string)
    requires q != ""
    ensures Bracket(cur, q + "[") == if TrimStart(q) == "" then Some(AllItems(cur)) else None
    ensures TrimStart(q) == "" ==> q[|q| - 1] == '[' && Bracket(cur, q) == Some(AllItems(cur))
    ensures TrimStart(q) != "" && q[|q| - 1] == '[' ==> Bracket(cur, q).None?
  {
    hide AllItems, Elements;
    TrimReopened(q);
    NoNumber(TrimStart(q));
    var inner := TrimStart(q);
    if inner != "" && q[|q| - 1] == '[' {
      assert inner == inner[..|inner| - 1] + "[";
      NoNumber(inner[..|inner| - 1]);
    }
  }

  lemma {:induction false} TrimReopened(q: string)
    ensures TrimStart(q + "[") == if TrimStart(q) == "" then "" else TrimStart(q) + "["
    ensures TrimStart(q) == "" && q != "" ==> q[|q| - 1] == '['
    ensures TrimStart(q) != "" ==> TrimStart(q)[|TrimStart(q)| - 1] == q[|q| - 1]
  {
    if q == "" {
      assert q + "[" == "[" && "["[1..] == "";
    } else {
      assert (q + "[")[1..] == q[1..] + "[";
      TrimReopened(q[1..]);
    }
  }

  lemma NoNumber(s: string)
    ensures ParseUsize(s + "[").None?
  {
    var t := s + "[";
    var u := if t[0] == '+' then t[1..] else t;
    assert u == [] || u[|u| - 1] == '[';
  }

  /** The bracket pieces of an open segment, before and after one more `[]`: the last one is reopened. */
  lemma PiecesReopen(tail: string) returns (front: seq<string>, q: string)
    requires tail != "" && tail[|tail| - 1] != ']'
    ensures q != "" && q[|q| - 1] == tail[|tail| - 1]
    ensures NonEmpty(Split(tail, ']')) == front + [q]
    ensures NonEmpty(Split(tail + "[]", ']')) == front + [q + "["]
  {
    hide Split, NonEmpty;
    var parts := Split(tail, ']');
    LastPiece(tail, ']');
    q := Last(parts);
    front := NonEmpty(parts[..|parts| - 1]);
    OneNonEmpty(q);
    OneNonEmpty(q + "[");
    NonEmptyConcat(parts[..|parts| - 1], [q]);
    assert parts == parts[..|parts| - 1] + [q];
    SplitExtend(tail, "[", ']');
    SplitConcat(tail + "[", "", ']');
    SplitFree("", ']');
    NonEmptyOfEmpty();
    NonEmptyConcat(parts[..|parts| - 1], [q + "["]);
    NonEmptyConcat(parts[..|parts| - 1] + [q + "["], [""]);
    assert tail + "[]" == tail + "[" + [']'] + "";
  }

  lemma OneNonEmpty(q: string)
    requires q != ""
    ensures NonEmpty([q]) == [q]
  {
    assert [q][1..] == [];
  }

  /** One more `[]` after an open segment: absorbed when the segment ends in `[`, and otherwise the segment is
      spoiled. */
  lemma ReopenedSegment(cur: seq<Json>, seg: string)
    requires !Free(seg, '[') && seg[|seg| - 1] != ']'
    ensures Segment(cur, seg + "[]") == if seg[|seg| - 1] == '[' then Segment(cur, seg) else None
  {
    hide *;
    var i := BracketAt(seg);
    OpenTail(seg);
    SegmentIs(cur, seg);
    SegmentIs(cur, seg + "[]");
    var front, q := PiecesReopen(seg[i..]);
    var start := if i == 0 then cur else Fields(cur, seg[..i]);
    BracketsThen(start, front, q);
    BracketsThen(start, front, q + "[");
    var r := Brackets(start, front);
    if r.Some? { ReopenedBracket(r.value, q); }
  }

  lemma OpenTail(seg: string)
    requires !Free(seg, '[')
    ensures var i := BracketAt(seg);
            && i < |seg| && BracketAt(seg + "[]") == i && (seg + "[]")[..i] == seg[..i]
            && (seg + "[]")[i..] == seg[i..] + "[]" && seg[i..][|seg[i..]| - 1] == seg[|seg| - 1]
  {
    BracketAtFree(seg, "[]");
  }

  /** What one more `[]` does to a path that ends inside an open bracket: it is absorbed when the path ends in `[`, and
      otherwise there is nothing at the longer path. */
  lemma OpenBracketMerges(v: Json, p: string)
    requires !Closed(p)
    ensures p != "" && Extract(v, p + "[]") == if p[|p| - 1] == '[' then Extract(v, p) else []
  {
    hide Segment, Split, Path;
    var parts := Split(p, '.');
    var front, seg := parts[..|parts| - 1], Last(parts);
    SplitExtend(p, "[]", '.');
    LastPiece(p, '.');
    assert parts == front + [seg];
    PathThen([v], front, [seg]);
    PathThen([v], front, [seg + "[]"]);
    var r := Path([v], front);
    if r.Some? {
      ReopenedSegment(r.value, seg);
      PathOne(r.value, seg);
      PathOne(r.value, seg + "[]");
    }
  }

  // ----- a value for every path -----

  /** Some value whose only value at the bracket piece, pieces, segment or path is x. */
  lemma BracketBack(b: string, x: Json) returns (y: Json)
    requires Bracket([Null], b).Some?
    ensures Bracket([y], b) == Some([x])
  {
    hide *;
    var inner := TrimStart(b);
    BracketIs([Null], b);
    if inner == "" {
      y := Arr([x]);
      ItemsOf([x]);
    } else {
      var i := ParseUsize(inner).value;
      y := Arr(seq(i, _ => Null) + [x]);
      LastElement(i, x);
    }
    BracketIs([y], b);
  }

  lemma LastElement(i: nat, x: Json)
    ensures Elements([Arr(seq(i, _ => Null) + [x])], i) == [x]
  {
    assert Elements([], i) == [];
  }

  lemma {:induction false} BracketsBack(bs: seq<string>, x: Json) returns (y: Json)
    requires Brackets([Null], bs).Some?
    ensures Brackets([y], bs) == Some([x])
    decreases |bs|
  {
    hide Bracket;
    if bs == [] {
      y := x;
    } else {
      BracketsAlike(Bracket([Null], bs[0]).value, [Null], bs[1..]);
      var z := BracketsBack(bs[1..], x);
      y := BracketBack(bs[0], z);
    }
  }

  lemma SegmentBack(seg: string, x: Json) returns (y: Json)
    requires Segment([Null], seg).Some?
    ensures Segment([y], seg) == Some([x])
  {
    hide Brackets, Split, NonEmpty;
    var i := BracketAt(seg);
    var bs := NonEmpty(Split(seg[i..], ']'));
    BracketsAlike(if i == 0 then [Null] else Fields([Null], seg[..i]), [Null], bs);
    var z := BracketsBack(bs, x);
    if i == 0 {
      y := z;
    } else {
      y := Obj(map[seg[..i] := z]);
      assert Fields([y], seg[..i]) == [z] + Fields([], seg[..i]) == [z];
    }
  }

  lemma {:induction false} PathBack(segs: seq<string>, x: Json) returns (y: Json)
    requires Path([Null], segs).Some?
    ensures Path([y], segs) == Some([x])
    decreases |segs|
  {
    hide Segment;
    if segs == [] {
      y := x;
    } else {
      PathConcat(Segment([Null], segs[0]).value, [Null], segs[1..]);
      var z := PathBack(segs[1..], x);
      y := SegmentBack(segs[0], z);
    }
  }

  /** A trailing `[]` fans out over the arrays at a path, for every value, exactly when the path is closed or
      malformed. */
  lemma FansOutExactly(p: string)
    ensures (forall v :: Extract(v, p + "[]") == AllItems(Extract(v, p))) <==> Closed(p) || Malformed(p)
  {
    hide Path, Split, Closed, AllItems;
    if Closed(p) {
      forall v ensures Extract(v, p + "[]") == AllItems(Extract(v, p)) { TrailingFanOut(v, p); }
    } else if Malformed(p) {
      forall v ensures Extract(v, p + "[]") == AllItems(Extract(v, p)) {
        OpenBracketMerges(v, p);
        MalformedForAll(v, p);
        NoItems();
      }
    } else {
      var v := PathBack(Split(p, '.'), Arr([Null]));
      OpenBracketMerges(v, p);
      OneItem();
      assert Extract(v, p) == [Arr([Null])];
      assert Extract(v, p + "[]") != AllItems(Extract(v, p));
    }
  }

  lemma NoItems()
    ensures AllItems([]) == []
  {
  }

  lemma OneItem()
    ensures AllItems([Arr([Null])]) == [Null]
  {
    assert AllItems([Arr([Null])]) == [Null] + AllItems([]);
  }

  /** A path that ends inside an open bracket and is not malformed: the `[]` is absorbed instead of fanning out. */
  lemma BracketAbsorbed()
    ensures var v := Arr([Arr([Null])]);
            && !Closed("[") && !Malformed("[")
            && Extract(v, "[" + "[]") == [Arr([Null])] && AllItems(Extract(v, "[")) == [Null]
  {
    var v := Arr([Arr([Null])]);
    SplitFree("[", '.');
    SplitFree("[", ']');
    OneNonEmpty("[");
    assert !Free("[", '[') by { assert "["[0] == '['; }
    assert !Closed("[");
    OpenBracketMerges(v, "[");
    OneItem();
    hide *;
    PathOne([v], "[");
    PathOne([Null], "[");
    SegmentAtBracket([v]);
    SegmentAtBracket([Null]);
    ExtractIs(v, "[");
    ItemsOf([Arr([Null])]);
    MalformedIs("[");
  }

  lemma MalformedIs(p: string)
    ensures Malformed(p) <==> Path([Null], Split(p, '.')).None?
  {
  }

  lemma ItemsOf(a: seq<Json>)
    ensures AllItems([Arr(a)]) == a
  {
    assert AllItems([Arr(a)]) == a + AllItems([]);
  }

  lemma SegmentAtBracket(cur: seq<Json>)
    ensures Segment(cur, "[") == Some(AllItems(cur))
  {
    hide AllItems;
    SplitFree("[", ']');
    OneNonEmpty("[");
    FanOutBracket(cur);
    SegmentIs(cur, "[");
    assert "["[0..] == "[" && BracketAt("[") == 0;
    BracketsThen(cur, [], "[");
    assert [] + ["["] == ["["] && "[" + "" == "[";
    BracketsCons(cur, []);
  }
}
