/** What a path means: the values one reaches from a value step by step. `extract` follows a path string over all
    values at once, level by level; the reference here follows the steps from one value at a time. */
module JsonSteps {
  import opened Bytes
  import opened Text
  import opened JsonPath

  /** A member of an object, one element of an array, or all of them. */
  datatype Step = Name(s: string) | Pick(i: nat) | All

  /** The values reached from v: nothing where there is no such member or element. */
  function At(v: Json, steps: seq<Step>): seq<Json>
    decreases |steps|, 0
  {
    if steps == [] then [v]
    else
      match steps[0]
      case Name(s) => if v.Obj? && s in v.fields then At(v.fields[s], steps[1..]) else []
      case Pick(i) => if v.Arr? && i < |v.items| then At(v.items[i], steps[1..]) else []
      case All => if v.Arr? then Over(v.items, steps[1..]) else []
  }

  /** From each of several values, one after the other. */
  function Over(xs: seq<Json>, steps: seq<Step>): seq<Json>
    decreases |steps|, |xs| + 1
  {
    if xs == [] then [] else At(xs[0], steps) + Over(xs[1..], steps)
  }

  /** How one writes the steps down: members after a dot, elements in brackets. */
  function Written(steps: seq<Step>): string {
    if steps == [] then ""
    else
      var front := Written(steps[..|steps| - 1]);
      match steps[|steps| - 1]
      case Name(s) => if |steps| == 1 then s else front + "." + s
      case Pick(i) => front + "[" + Decimal(i) + "]"
      case All => front + "[]"
  }

  /** Names that can be written so, and indices that fit a usize. */
  predicate Writable(steps: seq<Step>) {
    forall k :: 0 <= k < |steps| ==>
      match steps[k]
      case Name(s) => s != "" && Free(s, '.') && Free(s, '[')
      case Pick(i) => i < USIZE
      case All => true
  }

  // ----- one step more -----

  lemma {:induction false} OverConcat(xs: seq<Json>, ys: seq<Json>, steps: seq<Step>)
    ensures Over(xs + ys, steps) == Over(xs, steps) + Over(ys, steps)
  {
    hide At;
    if xs == [] {
      assert xs + ys == ys;
    } else {
      OverConcat(xs[1..], ys, steps);
      ConsConcat(xs, ys);
      Assoc(At(xs[0], steps), Over(xs[1..], steps), Over(ys, steps));
    }
  }

  lemma OverOne(x: Json, steps: seq<Step>)
    ensures Over([x], steps) == At(x, steps) && Over([], steps) == []
  {
    hide At;
    assert At(x, steps) + [] == At(x, steps);
  }

  lemma {:induction false} AtThen(v: Json, steps: seq<Step>, last: Step)
    ensures At(v, steps + [last]) == Over(At(v, steps), [last])
    decreases |steps|, 0
  {
    hide At, Over;
    OverOne(v, [last]);
    AtUnfolds(v, steps);
    AtUnfolds(v, steps + [last]);
    if steps == [] {
      assert steps + [last] == [last];
    } else {
      ConsConcat(steps, [last]);
      match steps[0]
      case Name(s) => if v.Obj? && s in v.fields { AtThen(v.fields[s], steps[1..], last); }
      case Pick(i) => if v.Arr? && i < |v.items| { AtThen(v.items[i], steps[1..], last); }
      case All => if v.Arr? { OverThen(v.items, steps[1..], last); }
    }
  }

  lemma AtUnfolds(v: Json, steps: seq<Step>)
    ensures At(v, steps) ==
            if steps == [] then [v]
            else match steps[0]
                 case Name(s) => if v.Obj? && s in v.fields then At(v.fields[s], steps[1..]) else []
                 case Pick(i) => if v.Arr? && i < |v.items| then At(v.items[i], steps[1..]) else []
                 case All => if v.Arr? then Over(v.items, steps[1..]) else []
  {
    hide Over;
  }

  lemma OverUnfolds(xs: seq<Json>, steps: seq<Step>)
    ensures Over(xs, steps) == if xs == [] then [] else At(xs[0], steps) + Over(xs[1..], steps)
  {
    hide At;
  }

  lemma {:induction false} OverThen(xs: seq<Json>, steps: seq<Step>, last: Step)
    ensures Over(xs, steps + [last]) == Over(Over(xs, steps), [last])
    decreases |steps|, |xs| + 1
  {
    hide At, Over;
    OverUnfolds(xs, steps);
    OverUnfolds(xs, steps + [last]);
    OverUnfolds([], [last]);
    if xs != [] {
      AtThen(xs[0], steps, last);
      OverThen(xs[1..], steps, last);
      OverConcat(At(xs[0], steps), Over(xs[1..], steps), [last]);
    }
  }

  // ----- the string functions -----

  lemma {:induction false} WrittenClosed(steps: seq<Step>)
    requires Writable(steps)
    ensures Closed(Written(steps))
  {
    hide Split, Decimal, Writable;
    var p := Written(steps);
    LastPiece(p, '.');
    if steps == [] {
    } else {
      match steps[|steps| - 1]
      case Name(s) => NameLast(steps, s);
      case Pick(i) => assert p[|p| - 1] == ']';
      case All => assert p[|p| - 1] == ']';
    }
  }

  lemma NameLast(steps: seq<Step>, s: string)
    requires Writable(steps) && steps != [] && steps[|steps| - 1] == Name(s)
    ensures Last(Split(Written(steps), '.')) == s && Free(s, '[')
  {
    hide Split;
    SplitFree(s, '.');
    if |steps| > 1 {
      var front := Written(steps[..|steps| - 1]);
      SplitConcat(front, s, '.');
      assert front + ['.'] + s == front + "." + s;
    }
  }

  /** A name by itself is that member. */
  lemma ExtractName(x: Json, s: string)
    requires s != "" && Free(s, '.') && Free(s, '[')
    ensures Extract(x, s) == if x.Obj? && s in x.fields then [x.fields[s]] else []
  {
    hide Split, Brackets, Path;
    SplitFree(s, '.');
    BracketAtFree(s, "");
    SplitFree("", ']');
    NonEmptyOfEmpty();
    PathOne([x], s);
    assert s[..|s|] == s && s[|s|..] == "";
    BracketsCons(Fields([x], s), []);
    OneField(x, s);
    SegmentIs([x], s);
  }

  lemma OneField(x: Json, s: string)
    ensures Fields([x], s) == if x.Obj? && s in x.fields then [x.fields[s]] else []
  {
    assert Fields([x], s) == Field(x, s) + Fields([], s);
  }

  lemma {:induction false} EachName(xs: seq<Json>, s: string)
    requires s != "" && Free(s, '.') && Free(s, '[')
    ensures Each(xs, s) == Over(xs, [Name(s)])
  {
    hide Extract, At, Free;
    if xs != [] {
      EachName(xs[1..], s);
      ExtractName(xs[0], s);
      NameAt(xs[0], s);
    }
  }

  lemma NameAt(x: Json, s: string)
    ensures At(x, [Name(s)]) == if x.Obj? && s in x.fields then [x.fields[s]] else []
  {
    assert [Name(s)][1..] == [];
  }

  lemma {:induction false} PickEach(xs: seq<Json>, i: nat)
    ensures Elements(xs, i) == Over(xs, [Pick(i)])
  {
    hide At, Over;
    OverUnfolds(xs, [Pick(i)]);
    if xs != [] {
      PickEach(xs[1..], i);
      AtUnfolds(xs[0], [Pick(i)]);
      assert [Pick(i)][0] == Pick(i) && [Pick(i)][1..] == [];
      if xs[0].Arr? && i < |xs[0].items| { AtUnfolds(xs[0].items[i], []); }
    }
  }

  lemma {:induction false} AllEach(xs: seq<Json>)
    ensures AllItems(xs) == Over(xs, [All])
  {
    hide At, Over;
    OverUnfolds(xs, [All]);
    if xs != [] {
      AllEach(xs[1..]);
      AllAt(xs[0]);
    }
  }

  lemma AllAt(x: Json)
    ensures At(x, [All]) == if x.Arr? then x.items else []
  {
    hide At, Over;
    AtUnfolds(x, [All]);
    assert [All][0] == All && [All][1..] == [];
    if x.Arr? { OverNothing(x.items); }
  }

  lemma {:induction false} OverNothing(xs: seq<Json>)
    ensures Over(xs, []) == xs
  {
    if xs != [] { OverNothing(xs[1..]); }
  }

  /** Main result: `extract` on a written path yields the values that its steps reach, in order; a value that is no
      object, or no array, or too short, contributes nothing. */
  lemma {:induction false} ExtractFollows(v: Json, steps: seq<Step>)
    requires Writable(steps)
    ensures Extract(v, Written(steps)) == At(v, steps)
    decreases |steps|
  {
    hide Extract, At, Over, Decimal, Closed;
    AtUnfolds(v, steps);
    if steps == [] {
      ExtractNothing(v);
    } else {
      var front, last := steps[..|steps| - 1], steps[|steps| - 1];
      ExtractFollows(v, front);
      assert steps == front + [last];
      AtThen(v, front, last);
      WrittenClosed(front);
      TrailingFanOut(v, Written(front));
      match last
      case Pick(i) => PickEach(At(v, front), i);
      case All => AllEach(At(v, front));
      case Name(s) =>
        EachName(At(v, front), s);
        ExtractComposes(v, Written(front), s);
        if front == [] {
          ExtractName(v, s);
          NameAt(v, s);
          OverOne(v, [Name(s)]);
          AtUnfolds(v, []);
        }
    }
  }

  lemma ExtractNothing(v: Json)
    ensures Extract(v, "") == [v]
  {
    hide Path;
    SplitFree("", '.');
    EmptySegment([v]);
    PathOne([v], "");
  }

  /** A bracket that holds neither nothing nor an index: there is nothing at the path. */
  lemma BadBracket(v: Json, steps: seq<Step>, t: string)
    requires Writable(steps) && t != "" && t[0] !in {'[', '+'} && exists k :: 0 <= k < |t| && !('0' <= t[k] <= '9')
    requires Free(t, ']') && Free(t, '.')
    ensures Extract(v, Written(steps) + "[" + t + "]") == []
  {
    hide Path, Split, Bracket, Closed;
    WrittenClosed(steps);
    TrailingBracket(v, Written(steps), t);
    BadPiece(Extract(v, Written(steps)), t);
  }

  /** An index may carry a plus sign; one that does not fit a usize is as bad as none. */
  lemma IndexForms(v: Json, steps: seq<Step>, i: nat)
    requires Writable(steps)
    ensures i < USIZE ==>
              Extract(v, Written(steps) + "[" + ("+" + Decimal(i)) + "]") == Over(At(v, steps), [Pick(i)])
    ensures i >= USIZE ==> Extract(v, Written(steps) + "[" + Decimal(i) + "]") == []
  {
    hide Path, Split, Bracket, Closed, Extract, At, Over, Decimal;
    var p := Written(steps);
    WrittenClosed(steps);
    ExtractFollows(v, steps);
    IndexPieces(Extract(v, p), i);
    if i < USIZE {
      TrailingBracket(v, p, "+" + Decimal(i));
      PickEach(At(v, steps), i);
      PathFound(v, p);
    } else {
      TrailingBracket(v, p, Decimal(i));
    }
  }

  lemma IndexPieces(cur: seq<Json>, i: nat)
    ensures i < USIZE ==> Bracket(cur, "[" + ("+" + Decimal(i))) == Some(Elements(cur, i))
    ensures i >= USIZE ==> Bracket(cur, "[" + Decimal(i)).None?
  {
    hide AllItems, Elements, Digits, TrimStart, Decimal, ParseUsize;
    var s := Decimal(i);
    DigitsOfDecimal(i);
    Trimmed(s);
    Trimmed("+" + s);
    Parsed(s, i);
  }

  lemma Trimmed(s: string)
    requires s != "" && s[0] != '['
    ensures TrimStart("[" + s) == s
  {
    assert ("[" + s)[1..] == s;
  }

  lemma Parsed(s: string, i: nat)
    requires s != "" && s[0] != '+' && Digits(s) == Some(i)
    ensures ParseUsize(s) == ParseUsize("+" + s) == if i < USIZE then Some(i) else None
  {
    hide Digits;
    assert ("+" + s)[1..] == s;
  }

  lemma PathFound(v: Json, p: string)
    ensures Path([v], Split(p, '.')).None? ==> Extract(v, p) == []
  {
    hide Path, Split;
  }

  lemma BadPiece(cur: seq<Json>, t: string)
    requires t != "" && t[0] !in {'[', '+'} && exists k :: 0 <= k < |t| && !('0' <= t[k] <= '9')
    ensures Bracket(cur, "[" + t).None?
  {
    hide AllItems, Elements;
    assert ("[" + t)[1..] == t;
    assert TrimStart("[" + t) == t;
    NoDigits(t);
  }

  lemma {:induction false} NoDigits(t: string)
    requires exists k :: 0 <= k < |t| && !('0' <= t[k] <= '9')
    ensures Digits(t).None?
  {
    var k :| 0 <= k < |t| && !('0' <= t[k] <= '9');
    if k < |t| - 1 {
      assert t[..|t| - 1][k] == t[k];
      NoDigits(t[..|t| - 1]);
    }
  }
}
