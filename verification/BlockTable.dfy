/** The block-level summary: wins and delays of the completed blocks of a period. */
module BlockTable {
  import opened Bytes
  import opened Ranks
  import opened Records
  import opened Tally
  import opened Window

  /** What the summary asks of a block: who won it, who delivered it, who delivered it with a given delay. */
  datatype Query = Wins(i: nat) | Delivers(i: nat) | Delays(i: nat, d: int)

  predicate Hit(r: BlockRec, q: Query) {
    match q
    case Wins(i) => r.firstSrc == i
    case Delivers(i) => i < |r.arrivals| && r.arrivals[i].Some?
    case Delays(i, d) => i < |r.arrivals| && r.arrivals[i] == Some(r.first + d)
  }

  datatype Line = Line(wins: nat, delay: Percentiles)
  datatype Summary = Summary(completed: nat, lines: seq<Line>)

  /** Completed in (since, until], and first seen inside the window. */
  predicate Counted(r: BlockRec, ups: seq<Interval>, warmup: nat, since: Option<int>, until: int) {
    r.completedAt.Some? && r.completedAt.value <= until && (since.Some? ==> since.value < r.completedAt.value)
    && InWindow(ups, warmup, r.first)
  }

  ghost function CountedKeys(cfg: Config, st: State, since: Option<int>, until: int): set<string> {
    set k | k in st.blocks && Counted(st.blocks[k], st.links.allUp, cfg.warmup, since, until)
  }

  /** What the accumulators hold once the blocks `ks` have been visited, in whatever order. */
  ghost predicate Tallied(m: map<string, BlockRec>, ks: set<string>, n: nat, completed: nat, wins: seq<nat>,
                          samples: seq<seq<int>>) {
    && completed == |ks| && |wins| == |samples| == n
    && (forall i :: 0 <= i < n ==> wins[i] == Hits(m, ks, Hit, Wins(i)))
    && (forall i :: 0 <= i < n ==> |samples[i]| == Hits(m, ks, Hit, Delivers(i)))
    && (forall i, d: int :: 0 <= i < n ==> multiset(samples[i])[d] == Hits(m, ks, Hit, Delays(i, d)))
  }

  function WinsOf(r: Summary): (w: seq<nat>)
    ensures |w| == |r.lines|
  {
    seq(|r.lines|, i requires 0 <= i < |r.lines| => r.lines[i].wins)
  }

  ghost predicate IsSummary(cfg: Config, st: State, since: Option<int>, until: int, r: Summary,
                            samples: seq<seq<int>>) {
    && |r.lines| == |samples| == Size(cfg)
    && Tallied(st.blocks, CountedKeys(cfg, st, since, until), Size(cfg), r.completed, WinsOf(r), samples)
    && forall i :: 0 <= i < Size(cfg) ==> r.lines[i].delay == Of(samples[i])
  }

  /** One more delay sample for each source that delivered the block. */
  method AddDelays(samples: seq<seq<int>>, r: BlockRec) returns (s: seq<seq<int>>)
    requires |samples| == |r.arrivals|
    ensures |s| == |samples|
    ensures forall i :: 0 <= i < |s| ==>
              s[i] == samples[i] + if r.arrivals[i].Some? then [r.arrivals[i].value - r.first] else []
  {
    s := samples;
    for i := 0 to |samples|
      invariant |s| == |samples|
      invariant forall j :: 0 <= j < i ==>
                  s[j] == samples[j] + if r.arrivals[j].Some? then [r.arrivals[j].value - r.first] else []
      invariant forall j :: i <= j < |s| ==> s[j] == samples[j]
    {
      if r.arrivals[i].Some? { s := s[i := s[i] + [r.arrivals[i].value - r.first]]; }
    }
  }

  lemma TallyOne(m: map<string, BlockRec>, ks: set<string>, k: string, n: nat, completed: nat, wins: seq<nat>,
                 samples: seq<seq<int>>, wins': seq<nat>, samples': seq<seq<int>>)
    requires Tallied(m, ks, n, completed, wins, samples) && k !in ks && k in m && |m[k].arrivals| == n
             && m[k].firstSrc < n
    requires wins' == wins[m[k].firstSrc := wins[m[k].firstSrc] + 1] && |samples'| == n
    requires forall i :: 0 <= i < n ==>
               samples'[i] == samples[i] + if m[k].arrivals[i].Some? then [m[k].arrivals[i].value - m[k].first] else []
    ensures Tallied(m, ks + {k}, n, completed + 1, wins', samples')
  {
    hide Hits, Hit;
    forall i | 0 <= i < n
      ensures wins'[i] == Hits(m, ks + {k}, Hit, Wins(i))
      ensures |samples'[i]| == Hits(m, ks + {k}, Hit, Delivers(i))
    {
      HitsAdd(m, ks, k, Hit, Wins(i));
      HitsAdd(m, ks, k, Hit, Delivers(i));
      Answered(m[k], i, 0);
    }
    forall i, d: int | 0 <= i < n
      ensures multiset(samples'[i])[d] == Hits(m, ks + {k}, Hit, Delays(i, d))
    {
      HitsAdd(m, ks, k, Hit, Delays(i, d));
      Answered(m[k], i, d);
    }
  }

  /** What one block answers about source i. */
  lemma Answered(r: BlockRec, i: nat, d: int)
    requires i < |r.arrivals|
    ensures Hit(r, Wins(i)) <==> r.firstSrc == i
    ensures Hit(r, Delivers(i)) <==> r.arrivals[i].Some?
    ensures Hit(r, Delays(i, d)) <==> r.arrivals[i].Some? && r.arrivals[i].value - r.first == d
  {
  }

  lemma TallyNone(m: map<string, BlockRec>, n: nat, wins: seq<nat>, samples: seq<seq<int>>)
    requires |wins| == |samples| == n && forall i :: 0 <= i < n ==> wins[i] == 0 && samples[i] == []
    ensures Tallied(m, {}, n, 0, wins, samples)
  {
    hide Hits;
    forall i | 0 <= i < n
      ensures Hits(m, {}, Hit, Wins(i)) == 0
      ensures Hits(m, {}, Hit, Delivers(i)) == 0
    {
      HitsAtMost(m, {}, Hit, Wins(i));
      HitsAtMost(m, {}, Hit, Delivers(i));
    }
    forall i, d: int | 0 <= i < n ensures multiset(samples[i])[d] == Hits(m, {}, Hit, Delays(i, d)) {
      HitsAtMost(m, {}, Hit, Delays(i, d));
      assert samples[i] == [];
    }
    assert Tallied(m, {}, n, 0, wins, samples) by {
      var e: set<string> := {};
      assert |e| == 0;
      assert forall i :: 0 <= i < n ==> wins[i] == Hits(m, e, Hit, Wins(i));
      assert forall i :: 0 <= i < n ==> |samples[i]| == Hits(m, e, Hit, Delivers(i));
      assert forall i, d: int :: 0 <= i < n ==> multiset(samples[i])[d] == Hits(m, e, Hit, Delays(i, d));
    }
  }

  /** `block_summary`: one pass over the map in an arbitrary order. */
  method BlockSummary(cfg: Config, blocks: map<string, BlockRec>, ups: seq<Interval>, ghost st: State,
                      since: Option<int>, until: int) returns (r: Summary)
    requires ValidConfig(cfg) && Inv(cfg, st) && blocks == st.blocks && ups == st.links.allUp
    ensures exists samples :: IsSummary(cfg, st, since, until, r, samples)
  {
    hide Hits, Of, Inv, Counted, Tallied;
    RecordsConsistent(cfg, st);
    var n := Size(cfg);
    var wins: seq<nat>, acc: seq<seq<int>>, completed := Repeat(n, 0), Repeat(n, []), 0;
    var todo := blocks.Keys;
    ghost var ks: set<string> := {};
    TallyNone(blocks, n, wins, acc);
    assert forall k :: k in blocks ==> k in todo;
    while todo != {}
      invariant todo <= blocks.Keys
      invariant ks == set k | k in blocks && k !in todo && Counted(blocks[k], ups, cfg.warmup, since, until)
      invariant |wins| == |acc| == n && Tallied(blocks, ks, n, completed, wins, acc)
    {
      var k :| k in todo;
      todo := todo - {k};
      var rec := blocks[k];
      if Counted(rec, ups, cfg.warmup, since, until) {
        ghost var wins0, acc0, completed0 := wins, acc, completed;
        completed := completed + 1;
        wins := wins[rec.firstSrc := wins[rec.firstSrc] + 1];
        acc := AddDelays(acc, rec);
        TallyOne(blocks, ks, k, n, completed0, wins0, acc0, wins, acc);
        ks := ks + {k};
      }
    }
    assert ks == CountedKeys(cfg, st, since, until);
    r := Summary(completed, seq(n, i requires 0 <= i < n => Line(wins[i], Of(acc[i]))));
    assert WinsOf(r) == wins;
    assert IsSummary(cfg, st, since, until, r, acc);
  }

  lemma RecordsConsistent(cfg: Config, st: State)
    requires Inv(cfg, st)
    ensures forall k :: k in st.blocks ==> |st.blocks[k].arrivals| == Size(cfg) && st.blocks[k].firstSrc < Size(cfg)
  {
  }

  // ----- what the table says -----

  /** The order of iteration does not show in the result. */
  lemma SummaryUnique(cfg: Config, st: State, since: Option<int>, until: int,
                      r: Summary, samples: seq<seq<int>>, r': Summary, samples': seq<seq<int>>)
    requires IsSummary(cfg, st, since, until, r, samples) && IsSummary(cfg, st, since, until, r', samples')
    ensures r == r'
  {
    hide Hits, Of, CountedKeys;
    forall i | 0 <= i < Size(cfg) ensures r.lines[i] == r'.lines[i] {
      forall d: int ensures multiset(samples[i])[d] == multiset(samples'[i])[d] {}
      assert multiset(samples[i]) == multiset(samples'[i]);
      SameOf(samples[i], samples'[i]);
      assert WinsOf(r)[i] == r.lines[i].wins && WinsOf(r')[i] == r'.lines[i].wins;
    }
  }

  function WinQueries(n: nat): (qs: seq<Query>)
    ensures |qs| == n
  {
    if n == 0 then [] else WinQueries(n - 1) + [Wins(n - 1)]
  }

  function DeliverQueries(n: nat): (qs: seq<Query>)
    ensures |qs| == n
  {
    if n == 0 then [] else DeliverQueries(n - 1) + [Delivers(n - 1)]
  }

  /** A block is won by one source. */
  lemma {:induction false} WinAnswers(r: BlockRec, n: nat)
    ensures Answers(r, Hit, WinQueries(n)) == (if r.firstSrc < n then 1 else 0)
  {
    if n > 0 {
      WinAnswers(r, n - 1);
      assert WinQueries(n)[..n - 1] == WinQueries(n - 1);
    }
  }

  /** It is delivered by those that have seen it. */
  lemma {:induction false} DeliverAnswers(r: BlockRec, n: nat)
    requires n <= |r.arrivals|
    ensures Answers(r, Hit, DeliverQueries(n)) == Seen(r.arrivals[..n])
  {
    if n > 0 {
      DeliverAnswers(r, n - 1);
      assert DeliverQueries(n)[..n - 1] == DeliverQueries(n - 1);
      assert r.arrivals[..n][..n - 1] == r.arrivals[..n - 1];
    }
  }

  lemma {:induction false} SumsAre(m: map<string, BlockRec>, ks: set<string>, n: nat, wins: seq<nat>, counts: seq<nat>)
    requires |wins| == |counts| == n
    requires forall i :: 0 <= i < n ==>
               wins[i] == Hits(m, ks, Hit, Wins(i)) && counts[i] == Hits(m, ks, Hit, Delivers(i))
    ensures SumOf(wins) == SumHits(m, ks, Hit, WinQueries(n)) && SumOf(counts) == SumHits(m, ks, Hit, DeliverQueries(n))
    decreases n
  {
    hide Hits;
    if n > 0 {
      SumsAre(m, ks, n - 1, wins[..n - 1], counts[..n - 1]);
      assert WinQueries(n)[..n - 1] == WinQueries(n - 1);
      assert DeliverQueries(n)[..n - 1] == DeliverQueries(n - 1);
    }
  }

  function SampleCounts(samples: seq<seq<int>>): (c: seq<nat>)
    ensures |c| == |samples|
  {
    seq(|samples|, i requires 0 <= i < |samples| => |samples[i]|)
  }

  /** Every completed block is won once, and yields a sample for at least `minSources` sources; in every sample the
      delay is not negative, and each win is a sample of delay zero. */
  lemma SummaryAdds(cfg: Config, st: State, since: Option<int>, until: int, r: Summary, samples: seq<seq<int>>)
    requires ValidConfig(cfg) && Inv(cfg, st) && IsSummary(cfg, st, since, until, r, samples)
    ensures SumOf(WinsOf(r)) == r.completed
    ensures SumOf(SampleCounts(samples)) >= cfg.minSources * r.completed
    ensures forall i :: 0 <= i < Size(cfg) ==> r.lines[i].wins <= multiset(samples[i])[0]
    ensures forall i, d :: 0 <= i < Size(cfg) && d in samples[i] ==> d >= 0
  {
    hide Hits, Of, Inv, CountedKeys, Hit, BlockOk;
    var n, ks := Size(cfg), CountedKeys(cfg, st, since, until);
    SumsAre(st.blocks, ks, n, WinsOf(r), SampleCounts(samples));
    forall k | k in ks
      ensures k in st.blocks
      ensures Answers(st.blocks[k], Hit, WinQueries(n)) == 1
      ensures Answers(st.blocks[k], Hit, DeliverQueries(n)) >= cfg.minSources
    {
      CountedIsOk(cfg, st, since, until, k);
      CountedAnswers(cfg, st.blocks[k]);
    }
    SumHitsLeast(st.blocks, ks, Hit, WinQueries(n), 1);
    SumHitsMost(st.blocks, ks, Hit, WinQueries(n), 1);
    SumHitsLeast(st.blocks, ks, Hit, DeliverQueries(n), cfg.minSources);
    forall i | 0 <= i < n ensures r.lines[i].wins <= multiset(samples[i])[0] {
      WinsAreZeros(cfg, st, since, until, i);
      assert WinsOf(r)[i] == r.lines[i].wins;
    }
    forall i, d | 0 <= i < n && d in samples[i] ensures d >= 0 {
      assert multiset(samples[i])[d] > 0;
      CountedWithin(cfg, st, since, until);
      NoNegativeDelay(cfg, st, ks, i, d);
    }
  }

  lemma CountedWithin(cfg: Config, st: State, since: Option<int>, until: int)
    ensures CountedKeys(cfg, st, since, until) <= st.blocks.Keys
  {
  }

  lemma CountedIsOk(cfg: Config, st: State, since: Option<int>, until: int, k: string)
    requires Inv(cfg, st) && k in CountedKeys(cfg, st, since, until)
    ensures k in st.blocks && BlockOk(cfg, st.blocks[k]) && st.blocks[k].completedAt.Some?
  {
    hide BlockOk;
  }

  /** Each win is a delay of zero. */
  lemma WinsAreZeros(cfg: Config, st: State, since: Option<int>, until: int, i: nat)
    requires Inv(cfg, st) && i < Size(cfg)
    ensures Hits(st.blocks, CountedKeys(cfg, st, since, until), Hit, Wins(i))
         <= Hits(st.blocks, CountedKeys(cfg, st, since, until), Hit, Delays(i, 0))
  {
    hide Hits;
    var ks := CountedKeys(cfg, st, since, until);
    forall k | k in ks && Hit(st.blocks[k], Wins(i)) ensures Hit(st.blocks[k], Delays(i, 0)) {
      assert BlockOk(cfg, st.blocks[k]);
    }
    HitsMonotone(st.blocks, ks, Hit, Wins(i), Delays(i, 0));
  }

  lemma CountedAnswers(cfg: Config, r: BlockRec)
    requires BlockOk(cfg, r) && r.completedAt.Some?
    ensures Answers(r, Hit, WinQueries(Size(cfg))) == 1
    ensures Answers(r, Hit, DeliverQueries(Size(cfg))) >= cfg.minSources
  {
    WinAnswers(r, Size(cfg));
    DeliverAnswers(r, Size(cfg));
    assert r.arrivals[..Size(cfg)] == r.arrivals;
  }

  lemma NoNegativeDelay(cfg: Config, st: State, ks: set<string>, i: nat, d: int)
    requires Inv(cfg, st) && ks <= st.blocks.Keys && Hits(st.blocks, ks, Hit, Delays(i, d)) > 0
    ensures d >= 0
  {
    var k := HitsWitness(st.blocks, ks, Hit, Delays(i, d));
    assert BlockOk(cfg, st.blocks[k]);
  }

  /** Periods add up: over (a, b] and (b, c] the counts, the wins and the delay samples are those over (a, c]. */
  lemma PeriodsAdd(cfg: Config, st: State, a: Option<int>, b: int, c: int,
                   r1: Summary, s1: seq<seq<int>>, r2: Summary, s2: seq<seq<int>>, r: Summary, s: seq<seq<int>>)
    requires (a.Some? ==> a.value <= b) && b <= c
    requires IsSummary(cfg, st, a, b, r1, s1) && IsSummary(cfg, st, Some(b), c, r2, s2)
             && IsSummary(cfg, st, a, c, r, s)
    ensures r.completed == r1.completed + r2.completed
    ensures forall i :: 0 <= i < Size(cfg) ==> r.lines[i].wins == r1.lines[i].wins + r2.lines[i].wins
    ensures forall i :: 0 <= i < Size(cfg) ==> multiset(s[i]) == multiset(s1[i]) + multiset(s2[i])
  {
    hide Hits, Of;
    var k1, k2, ks := CountedKeys(cfg, st, a, b), CountedKeys(cfg, st, Some(b), c), CountedKeys(cfg, st, a, c);
    assert ks == k1 + k2 && k1 !! k2;
    forall i | 0 <= i < Size(cfg)
      ensures r.lines[i].wins == r1.lines[i].wins + r2.lines[i].wins
      ensures multiset(s[i]) == multiset(s1[i]) + multiset(s2[i])
    {
      HitsUnion(st.blocks, k1, k2, Hit, Wins(i));
      assert WinsOf(r)[i] == r.lines[i].wins && WinsOf(r1)[i] == r1.lines[i].wins && WinsOf(r2)[i] == r2.lines[i].wins;
      forall d: int ensures multiset(s[i])[d] == multiset(s1[i])[d] + multiset(s2[i])[d] {
        HitsUnion(st.blocks, k1, k2, Hit, Delays(i, d));
      }
    }
  }
}
