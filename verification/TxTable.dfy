/** The transaction-level summary: coverage, firsts, clear leads and lags over the transactions first seen inside the
    window. */
module TxTable {
  import opened Bytes
  import opened Ranks
  import opened Records
  import opened Tally
  import opened Window

  /** The earliest arrival at a source other than i. */
  function EarliestOther(arrivals: seq<Option<int>>, i: nat): Option<int> {
    if arrivals == [] then None
    else
      var k := |arrivals| - 1;
      var rest := EarliestOther(arrivals[..k], i);
      if k == i || arrivals[k].None? then rest
      else if rest.Some? && rest.value <= arrivals[k].value then rest
      else arrivals[k]
  }

  /** Source i leads every other source that has the transaction, of which there is one, by at least 1 ms. */
  predicate Leads(r: TxRec, i: nat) {
    && i < |r.arrivals| && r.arrivals[i].Some?
    && EarliestOther(r.arrivals, i).Some? && r.arrivals[i].value + MS <= EarliestOther(r.arrivals, i).value
  }

  /** What the summary asks of a transaction. */
  datatype Query = Any | Swap | Delivers(i: nat) | Earliest(i: nat) | Clear(i: nat) | Lag(i: nat, d: int)

  predicate Hit(r: TxRec, q: Query) {
    match q
    case Any => true
    case Swap => r.swap
    case Delivers(i) => i < |r.arrivals| && r.arrivals[i].Some?
    case Earliest(i) => i < |r.arrivals| && r.arrivals[i] == Some(r.first)
    case Clear(i) => Leads(r, i)
    case Lag(i, d) => i < |r.arrivals| && r.arrivals[i] == Some(r.first + d)
  }

  /** Per source; of the lags the program prints p50, p90, p95, p99 and the greatest. */
  datatype Line = Line(seen: nat, first: nat, clear: nat, lag: Percentiles)
  datatype Summary = Summary(total: nat, matched: nat, swaps: nat, lines: seq<Line>)

  ghost function WindowKeys(cfg: Config, st: State): set<Hash> {
    set h | h in st.txs && InWindow(st.links.allUp, cfg.warmup, st.txs[h].first)
  }

  ghost function MatchedKeys(cfg: Config, st: State): set<Hash> {
    set h | h in WindowKeys(cfg, st) && st.txs[h].seen >= cfg.minSources
  }

  /** What the accumulators hold: `all` are the transactions visited so far, `ks` the matched ones among them. */
  ghost predicate Tallied(m: map<Hash, TxRec>, all: set<Hash>, ks: set<Hash>, s: Summary, lags: seq<seq<int>>) {
    && s.total == |all| && s.matched == |ks| && s.swaps == Hits(m, ks, Hit, Swap) && |s.lines| == |lags|
    && (forall i :: 0 <= i < |lags| ==>
          && s.lines[i].seen == Hits(m, all, Hit, Delivers(i))
          && s.lines[i].first == Hits(m, ks, Hit, Earliest(i))
          && s.lines[i].clear == Hits(m, ks, Hit, Clear(i)))
    && (forall i, d: int :: 0 <= i < |lags| ==> multiset(lags[i])[d] == Hits(m, ks, Hit, Lag(i, d)))
  }

  ghost predicate IsSummary(cfg: Config, st: State, s: Summary, lags: seq<seq<int>>) {
    && |s.lines| == |lags| == Size(cfg)
    && Tallied(st.txs, WindowKeys(cfg, st), MatchedKeys(cfg, st), s, lags)
    && forall i :: 0 <= i < Size(cfg) ==> s.lines[i].lag == Of(lags[i])
  }

  /** The effect of one transaction on the accumulators of a source. */
  function AddLine(l: Line, r: TxRec, i: nat, matched: bool): Line
    requires i < |r.arrivals|
  {
    l.(seen := l.seen + (if r.arrivals[i].Some? then 1 else 0),
       first := l.first + (if matched && r.arrivals[i] == Some(r.first) then 1 else 0),
       clear := l.clear + (if matched && Leads(r, i) then 1 else 0))
  }

  function AddLag(lags: seq<int>, r: TxRec, i: nat, matched: bool): seq<int>
    requires i < |r.arrivals|
  {
    lags + if matched && r.arrivals[i].Some? then [r.arrivals[i].value - r.first] else []
  }

  /** The inner loops of `tx_summary`. */
  method AddTx(lines: seq<Line>, lags: seq<seq<int>>, r: TxRec, matched: bool)
    returns (lines': seq<Line>, lags': seq<seq<int>>)
    requires |lines| == |lags| == |r.arrivals|
    ensures |lines'| == |lags'| == |lines|
    ensures forall i :: 0 <= i < |lines| ==>
              lines'[i] == AddLine(lines[i], r, i, matched) && lags'[i] == AddLag(lags[i], r, i, matched)
  {
    hide Leads;
    lines', lags' := lines, lags;
    for i := 0 to |lines|
      invariant |lines'| == |lags'| == |lines|
      invariant forall j :: 0 <= j < i ==>
                  lines'[j] == AddLine(lines[j], r, j, matched) && lags'[j] == AddLag(lags[j], r, j, matched)
      invariant forall j :: i <= j < |lines| ==> lines'[j] == lines[j] && lags'[j] == lags[j]
    {
      lines', lags' := lines'[i := AddLine(lines'[i], r, i, matched)], lags'[i := AddLag(lags'[i], r, i, matched)];
    }
  }

  lemma TallyOne(m: map<Hash, TxRec>, all: set<Hash>, ks: set<Hash>, k: Hash, s: Summary, lags: seq<seq<int>>,
                 matched: bool, s': Summary, lags': seq<seq<int>>)
    requires Tallied(m, all, ks, s, lags) && k !in all && k !in ks && k in m
    requires |s'.lines| == |s.lines| == |lags'| == |m[k].arrivals|
    requires s'.total == s.total + 1 && s'.matched == s.matched + (if matched then 1 else 0)
    requires s'.swaps == s.swaps + (if matched && m[k].swap then 1 else 0)
    requires forall i :: 0 <= i < |lags| ==>
               s'.lines[i] == AddLine(s.lines[i], m[k], i, matched) && lags'[i] == AddLag(lags[i], m[k], i, matched)
    ensures Tallied(m, all + {k}, if matched then ks + {k} else ks, s', lags')
  {
    hide Hits, Leads, Hit;
    HitsAdd(m, ks, k, Hit, Swap);
    SwapAnswered(m[k]);
    forall i | 0 <= i < |lags|
      ensures s'.lines[i].seen == Hits(m, all + {k}, Hit, Delivers(i))
      ensures s'.lines[i].first == Hits(m, if matched then ks + {k} else ks, Hit, Earliest(i))
      ensures s'.lines[i].clear == Hits(m, if matched then ks + {k} else ks, Hit, Clear(i))
    {
      HitsAdd(m, all, k, Hit, Delivers(i));
      HitsAdd(m, ks, k, Hit, Earliest(i));
      HitsAdd(m, ks, k, Hit, Clear(i));
      Answered(m[k], i, 0);
    }
    forall i, d: int | 0 <= i < |lags|
      ensures multiset(lags'[i])[d] == Hits(m, if matched then ks + {k} else ks, Hit, Lag(i, d))
    {
      HitsAdd(m, ks, k, Hit, Lag(i, d));
      Answered(m[k], i, d);
    }
  }

  lemma SwapAnswered(r: TxRec)
    ensures Hit(r, Swap) <==> r.swap
  {
  }

  /** What one transaction answers about source i. */
  lemma Answered(r: TxRec, i: nat, d: int)
    requires i < |r.arrivals|
    ensures Hit(r, Delivers(i)) <==> r.arrivals[i].Some?
    ensures Hit(r, Earliest(i)) <==> r.arrivals[i] == Some(r.first)
    ensures Hit(r, Clear(i)) <==> Leads(r, i)
    ensures Hit(r, Lag(i, d)) <==> r.arrivals[i].Some? && r.arrivals[i].value - r.first == d
  {
    hide Leads;
  }

  lemma TallyNone(m: map<Hash, TxRec>, s: Summary, lags: seq<seq<int>>)
    requires s.total == s.matched == s.swaps == 0 && |s.lines| == |lags|
    requires forall i :: 0 <= i < |lags| ==>
               s.lines[i].seen == s.lines[i].first == s.lines[i].clear == 0 && lags[i] == []
    ensures Tallied(m, {}, {}, s, lags)
  {
    hide Hits;
    var none: set<Hash> := {};
    HitsAtMost(m, none, Hit, Swap);
    forall i | 0 <= i < |lags|
      ensures Hits(m, none, Hit, Delivers(i)) == 0
      ensures Hits(m, none, Hit, Earliest(i)) == 0
      ensures Hits(m, none, Hit, Clear(i)) == 0
    {
      HitsAtMost(m, none, Hit, Delivers(i));
      HitsAtMost(m, none, Hit, Earliest(i));
      HitsAtMost(m, none, Hit, Clear(i));
    }
    forall i, d: int | 0 <= i < |lags| ensures multiset(lags[i])[d] == Hits(m, none, Hit, Lag(i, d)) {
      HitsAtMost(m, none, Hit, Lag(i, d));
      assert lags[i] == [];
    }
    assert Tallied(m, none, none, s, lags);
  }

  /** `tx_summary`: one pass over the map in an arbitrary order. */
  method TxSummary(cfg: Config, txs: map<Hash, TxRec>, ups: seq<Interval>, ghost st: State)
    returns (s: Summary)
    requires ValidConfig(cfg) && Inv(cfg, st) && txs == st.txs && ups == st.links.allUp
    ensures exists lags :: IsSummary(cfg, st, s, lags)
  {
    hide Hits, Of, Tallied, AddLine, AddLag, Inv;
    RecordsSized(cfg, st);
    var n := Size(cfg);
    var acc: seq<seq<int>> := Repeat(n, []);
    s := Summary(0, 0, 0, Repeat(n, Line(0, 0, 0, Percentiles(0, 0, 0, 0, 0, 0, 0, 0, 0))));
    var todo := txs.Keys;
    ghost var all: set<Hash>, ks: set<Hash> := {}, {};
    TallyNone(txs, s, acc);
    assert forall k :: k in txs ==> k in todo;
    while todo != {}
      invariant todo <= txs.Keys
      invariant all == set k | k in txs && k !in todo && InWindow(ups, cfg.warmup, txs[k].first)
      invariant ks == set k | k in all && txs[k].seen >= cfg.minSources
      invariant |s.lines| == |acc| == n && Tallied(txs, all, ks, s, acc)
    {
      var k :| k in todo;
      todo := todo - {k};
      var rec := txs[k];
      if InWindow(ups, cfg.warmup, rec.first) {
        ghost var s0, acc0 := s, acc;
        var matched := rec.seen >= cfg.minSources;
        var lines, acc' := AddTx(s.lines, acc, rec, matched);
        s := Summary(s.total + 1, s.matched + (if matched then 1 else 0),
                     s.swaps + (if matched && rec.swap then 1 else 0), lines);
        acc := acc';
        TallyOne(txs, all, ks, k, s0, acc0, matched, s, acc);
        all, ks := all + {k}, if matched then ks + {k} else ks;
      }
    }
    assert all == WindowKeys(cfg, st) && ks == MatchedKeys(cfg, st);
    ghost var s1 := s;
    s := s.(lines := seq(n, i requires 0 <= i < n => s.lines[i].(lag := Of(acc[i]))));
    LagsSet(txs, all, ks, s1, s, acc);
    assert IsSummary(cfg, st, s, acc);
  }

  lemma RecordsSized(cfg: Config, st: State)
    requires Inv(cfg, st)
    ensures forall h :: h in st.txs ==> |st.txs[h].arrivals| == Size(cfg)
  {
  }

  lemma LagsSet(m: map<Hash, TxRec>, all: set<Hash>, ks: set<Hash>, s: Summary, s': Summary, lags: seq<seq<int>>)
    requires Tallied(m, all, ks, s, lags) && |s'.lines| == |s.lines|
    requires s'.total == s.total && s'.matched == s.matched && s'.swaps == s.swaps
    requires forall i :: 0 <= i < |lags| ==> s'.lines[i] == s.lines[i].(lag := s'.lines[i].lag)
    ensures Tallied(m, all, ks, s', lags)
  {
    hide Hits;
  }

  // ----- what the table says -----

  /** The order of iteration does not show in the result. */
  lemma SummaryUnique(cfg: Config, st: State, s: Summary, lags: seq<seq<int>>, s': Summary, lags': seq<seq<int>>)
    requires IsSummary(cfg, st, s, lags) && IsSummary(cfg, st, s', lags')
    ensures s == s'
  {
    hide Hits, Of, WindowKeys, MatchedKeys;
    forall i | 0 <= i < Size(cfg) ensures s.lines[i] == s'.lines[i] {
      forall d: int ensures multiset(lags[i])[d] == multiset(lags'[i])[d] {}
      assert multiset(lags[i]) == multiset(lags'[i]);
      SameOf(lags[i], lags'[i]);
    }
  }

  lemma {:induction false} EarliestOtherIs(arrivals: seq<Option<int>>, i: nat)
    ensures var o := EarliestOther(arrivals, i);
            && (o.Some? ==> exists j :: 0 <= j < |arrivals| && j != i && arrivals[j] == o)
            && forall j :: 0 <= j < |arrivals| && j != i && arrivals[j].Some? ==>
              o.Some? && o.value <= arrivals[j].value
  {
    if arrivals != [] {
      var k := |arrivals| - 1;
      EarliestOtherIs(arrivals[..k], i);
      assert forall j :: 0 <= j < k ==> arrivals[..k][j] == arrivals[j];
    }
  }

  /** A source that leads by 1 ms is the earliest, and no other source leads or even ties. */
  lemma LeaderIsEarliest(cfg: Config, r: TxRec, i: nat, j: nat)
    requires TxOk(cfg, r) && Leads(r, i)
    ensures r.arrivals[i] == Some(r.first)
    ensures j != i ==> !Leads(r, j) && !Hit(r, Earliest(j))
  {
    EarliestOtherIs(r.arrivals, i);
    EarliestOtherIs(r.arrivals, j);
  }

  function EarliestQueries(n: nat): (qs: seq<Query>)
    ensures |qs| == n
  {
    if n == 0 then [] else EarliestQueries(n - 1) + [Earliest(n - 1)]
  }

  function ClearQueries(n: nat): (qs: seq<Query>)
    ensures |qs| == n
  {
    if n == 0 then [] else ClearQueries(n - 1) + [Clear(n - 1)]
  }

  lemma {:induction false} ClearAnswers(cfg: Config, r: TxRec, n: nat)
    requires TxOk(cfg, r)
    ensures Answers(r, Hit, ClearQueries(n)) <= 1
    ensures Answers(r, Hit, ClearQueries(n)) == 0 <==> forall i :: 0 <= i < n ==> !Leads(r, i)
  {
    hide Leads;
    if n > 0 {
      ClearAnswers(cfg, r, n - 1);
      assert ClearQueries(n)[..n - 1] == ClearQueries(n - 1);
      if Leads(r, n - 1) {
        forall i | 0 <= i < n - 1 ensures !Leads(r, i) { LeaderIsEarliest(cfg, r, n - 1, i); }
      }
    }
  }

  /** Do two of the first n sources, or does one of them, bear the earliest stamp? */
  ghost predicate TwoAmong(r: TxRec, n: nat)
    requires n <= |r.arrivals|
  {
    exists i, j :: 0 <= i < j < n && r.arrivals[i] == Some(r.first) == r.arrivals[j]
  }

  /** Do two sources share the earliest stamp? */
  ghost predicate Tied(r: TxRec) {
    TwoAmong(r, |r.arrivals|)
  }

  ghost predicate OneAmong(r: TxRec, n: nat)
    requires n <= |r.arrivals|
  {
    exists i :: 0 <= i < n && r.arrivals[i] == Some(r.first)
  }

  lemma AmongNext(r: TxRec, n: nat)
    requires n < |r.arrivals|
    ensures OneAmong(r, n + 1) <==> OneAmong(r, n) || r.arrivals[n] == Some(r.first)
    ensures TwoAmong(r, n + 1) <==> TwoAmong(r, n) || (OneAmong(r, n) && r.arrivals[n] == Some(r.first))
  {
  }

  lemma {:induction false} EarliestAnswers(r: TxRec, n: nat)
    requires n <= |r.arrivals|
    ensures var a := Answers(r, Hit, EarliestQueries(n)); (a > 0 <==> OneAmong(r, n)) && (a >= 2 <==> TwoAmong(r, n))
  {
    if n > 0 {
      EarliestAnswers(r, n - 1);
      AmongNext(r, n - 1);
      hide OneAmong, TwoAmong;
      assert EarliestQueries(n)[..n - 1] == EarliestQueries(n - 1);
    }
  }

  function Firsts(s: Summary): (c: seq<nat>)
    ensures |c| == |s.lines|
  {
    seq(|s.lines|, i requires 0 <= i < |s.lines| => s.lines[i].first)
  }

  function Clears(s: Summary): (c: seq<nat>)
    ensures |c| == |s.lines|
  {
    seq(|s.lines|, i requires 0 <= i < |s.lines| => s.lines[i].clear)
  }

  lemma {:induction false} SumsAre(m: map<Hash, TxRec>, ks: set<Hash>, n: nat, firsts: seq<nat>, clears: seq<nat>)
    requires |firsts| == |clears| == n
    requires forall i :: 0 <= i < n ==>
               firsts[i] == Hits(m, ks, Hit, Earliest(i)) && clears[i] == Hits(m, ks, Hit, Clear(i))
    ensures SumOf(firsts) == SumHits(m, ks, Hit, EarliestQueries(n))
            && SumOf(clears) == SumHits(m, ks, Hit, ClearQueries(n))
    decreases n
  {
    hide Hits;
    if n > 0 {
      SumsAre(m, ks, n - 1, firsts[..n - 1], clears[..n - 1]);
      assert EarliestQueries(n)[..n - 1] == EarliestQueries(n - 1);
      assert ClearQueries(n)[..n - 1] == ClearQueries(n - 1);
    }
  }

  /** Matched transactions are among all, no source has seen more than all; the clear leads sum to at most the matched
      transactions, the firsts to at least that many, and to exactly that many when no matched transaction is tied. */
  lemma SummaryBounds(cfg: Config, st: State, s: Summary, lags: seq<seq<int>>)
    requires ValidConfig(cfg) && Inv(cfg, st) && IsSummary(cfg, st, s, lags)
    ensures s.matched <= s.total && s.swaps <= s.matched
    ensures forall i :: 0 <= i < Size(cfg) ==>
              s.lines[i].seen <= s.total && s.lines[i].clear <= s.lines[i].first <= s.matched
    ensures SumOf(Clears(s)) <= s.matched <= SumOf(Firsts(s))
    ensures SumOf(Firsts(s)) == s.matched <==> forall h :: h in MatchedKeys(cfg, st) ==> !Tied(st.txs[h])
  {
    hide Hits, Of, Leads, LinksOk, BlockOk, Tied;
    var n, m, all, ks := Size(cfg), st.txs, WindowKeys(cfg, st), MatchedKeys(cfg, st);
    Subset(ks, all);
    HitsAtMost(m, ks, Hit, Swap);
    forall i | 0 <= i < n
      ensures s.lines[i].seen <= s.total && s.lines[i].clear <= s.lines[i].first <= s.matched
    {
      HitsAtMost(m, all, Hit, Delivers(i));
      HitsAtMost(m, ks, Hit, Earliest(i));
      forall k | k in ks && Hit(m[k], Clear(i)) ensures Hit(m[k], Earliest(i)) { LeaderIsEarliest(cfg, m[k], i, i); }
      HitsMonotone(m, ks, Hit, Clear(i), Earliest(i));
    }
    SumsAre(m, ks, n, Firsts(s), Clears(s));
    forall k | k in ks
      ensures Answers(m[k], Hit, ClearQueries(n)) <= 1
      ensures Answers(m[k], Hit, EarliestQueries(n)) >= 1
      ensures Tied(m[k]) <==> Answers(m[k], Hit, EarliestQueries(n)) >= 2
    {
      ClearAnswers(cfg, m[k], n);
      MatchedAnswers(cfg, m[k]);
    }
    SumHitsMost(m, ks, Hit, ClearQueries(n), 1);
    SumHitsLeast(m, ks, Hit, EarliestQueries(n), 1);
    if k :| k in ks && Tied(m[k]) {
      SumHitsAbove(m, ks, Hit, EarliestQueries(n), 1, k);
    } else {
      SumHitsMost(m, ks, Hit, EarliestQueries(n), 1);
    }
  }

  lemma MatchedAnswers(cfg: Config, r: TxRec)
    requires TxOk(cfg, r)
    ensures Answers(r, Hit, EarliestQueries(Size(cfg))) >= 1
    ensures Tied(r) <==> Answers(r, Hit, EarliestQueries(Size(cfg))) >= 2
  {
    EarliestAnswers(r, Size(cfg));
    var i :| 0 <= i < |r.arrivals| && r.arrivals[i] == Some(r.first);
  }
}
