/** The figures of the tables, stated from the records of a run: which blocks and transactions they count, and what
    their medians and percentiles are medians and percentiles of. */
module Figures {
  import opened Bytes
  import opened Ranks
  import opened Records
  import opened Samples
  import opened Tally
  import opened Window
  import BlockTable
  import TxTable

  /** Is the instant inside the measured window at the end of the run? */
  ghost predicate Inside(cfg: Config, h: seq<Event>, t: int)
    requires ValidHistory(cfg, h)
  {
    InWindow(Run(cfg, h).links.allUp, cfg.warmup, t)
  }

  /** What that means in terms of the history, when connection stamps never decrease: every source was up, and none
      dropped, from the warm-up before on. */
  lemma InsideByHistory(cfg: Config, h: seq<Event>, t: int)
    requires ValidConfig(cfg) && ValidHistory(cfg, h) && InOrder(cfg, h)
    ensures Inside(cfg, h, t) <==> Unbroken(cfg, h, cfg.warmup, t)
  {
    hide InWindow, Unbroken, Ordered, StampsBefore, InOrder, EffectiveBefore;
    var end := AfterAll(cfg, h);
    HistoryMatches(cfg, h, end);
    assert InWindow(LinksAfter(cfg, h).allUp, cfg.warmup, t) <==> Unbroken(cfg, h, cfg.warmup, t);
  }

  // ----- blocks -----

  /** The blocks that completed in (since, until] and were first seen inside the window. */
  ghost function BlocksOf(cfg: Config, h: seq<Event>, since: Option<int>, until: int): set<string>
    requires ValidHistory(cfg, h)
  {
    var bs := Run(cfg, h).blocks;
    set k | k in bs && bs[k].completedAt.Some? && bs[k].completedAt.value <= until
      && (since.Some? ==> bs[k].completedAt.value > since.value) && Inside(cfg, h, bs[k].first)
  }

  lemma BlocksCounted(cfg: Config, h: seq<Event>, since: Option<int>, until: int)
    requires ValidConfig(cfg) && ValidHistory(cfg, h)
    ensures BlockTable.CountedKeys(cfg, Run(cfg, h), since, until) == BlocksOf(cfg, h, since, until)
  {
    hide Run, InWindow;
  }

  /** How far behind the first delivery source i delivered each of these blocks, as far as it did. */
  function DelaysOf(bs: map<string, BlockRec>, ks: set<string>, i: nat): map<string, int> {
    map k | k in ks && k in bs && i < |bs[k].arrivals| && bs[k].arrivals[i].Some? ::
      bs[k].arrivals[i].value - bs[k].first
  }

  lemma DelaysHit(bs: map<string, BlockRec>, ks: set<string>, i: nat, d: int)
    ensures Hits(bs, ks, BlockTable.Hit, BlockTable.Delays(i, d)) == Times(DelaysOf(bs, ks, i), d)
  {
    var m := DelaysOf(bs, ks, i);
    HitsAre(bs, ks, BlockTable.Hit, BlockTable.Delays(i, d), set k | k in m && m[k] == d);
  }

  /** The block summary of a period, over all runs. */
  lemma BlockFigures(cfg: Config, h: seq<Event>, since: Option<int>, until: int, r: BlockTable.Summary,
                     samples: seq<seq<int>>)
    requires ValidConfig(cfg) && ValidHistory(cfg, h)
    requires BlockTable.IsSummary(cfg, Run(cfg, h), since, until, r, samples)
    ensures var bs, ks := Run(cfg, h).blocks, BlocksOf(cfg, h, since, until);
            && r.completed == |ks| && |r.lines| == Size(cfg)
            && forall i :: 0 <= i < Size(cfg) ==>
                 && r.lines[i].wins == |set k | k in ks && k in bs && bs[k].firstSrc == i|
                 && ColumnsOf(x => UpTo(DelaysOf(bs, ks, i), x), |DelaysOf(bs, ks, i)|, r.lines[i].delay)
  {
    hide Run, Hits, Of, BlocksOf, UpTo, Times, DelaysOf, ColumnsOf, AtMost, BlockTable.CountedKeys;
    hide BlockTable.Hit;
    var bs, ks := Run(cfg, h).blocks, BlocksOf(cfg, h, since, until);
    BlocksCounted(cfg, h, since, until);
    forall i | 0 <= i < Size(cfg)
      ensures r.lines[i].wins == |set k | k in ks && k in bs && bs[k].firstSrc == i|
      ensures ColumnsOf(x => UpTo(DelaysOf(bs, ks, i), x), |DelaysOf(bs, ks, i)|, r.lines[i].delay)
    {
      assert BlockTable.WinsOf(r)[i] == r.lines[i].wins;
      WinsHit(bs, ks, i);
      var m, v := DelaysOf(bs, ks, i), samples[i];
      forall d: int ensures multiset(v)[d] == Times(m, d) { DelaysHit(bs, ks, i, d); }
      forall x: int ensures AtMost(v, x) == UpTo(m, x) && |v| == |m| { OccurrencesDecide(m, v, x); }
      OccurrencesDecide(m, v, 0);
      ColumnsAre(v, x => UpTo(m, x));
    }
  }

  lemma WinsHit(bs: map<string, BlockRec>, ks: set<string>, i: nat)
    ensures Hits(bs, ks, BlockTable.Hit, BlockTable.Wins(i)) == |set k | k in ks && k in bs && bs[k].firstSrc == i|
  {
    HitsAre(bs, ks, BlockTable.Hit, BlockTable.Wins(i), set k | k in ks && k in bs && bs[k].firstSrc == i);
  }

  // ----- transactions -----

  /** The transactions first seen inside the window; and those of them that enough sources delivered. */
  ghost function TxsOf(cfg: Config, h: seq<Event>): set<Hash>
    requires ValidHistory(cfg, h)
  {
    var ts := Run(cfg, h).txs;
    set t | t in ts && Inside(cfg, h, ts[t].first)
  }

  ghost function MatchedOf(cfg: Config, h: seq<Event>): set<Hash>
    requires ValidHistory(cfg, h)
  {
    var ts := Run(cfg, h).txs;
    set t | t in TxsOf(cfg, h) && t in ts && Seen(ts[t].arrivals) >= cfg.minSources
  }

  lemma TxsCounted(cfg: Config, h: seq<Event>)
    requires ValidConfig(cfg) && ValidHistory(cfg, h)
    ensures TxTable.WindowKeys(cfg, Run(cfg, h)) == TxsOf(cfg, h)
    ensures TxTable.MatchedKeys(cfg, Run(cfg, h)) == MatchedOf(cfg, h)
  {
    hide Run, InWindow, LinksOk, BlockOk, IsFirst, Seen;
    RunKeeps(cfg, h);
    var ts := Run(cfg, h).txs;
    forall t | t in ts ensures ts[t].seen == Seen(ts[t].arrivals) { assert TxOk(cfg, ts[t]); }
  }

  /** Source i has it, so has some other source, and each other one that does got it at least 1 ms later. */
  ghost predicate LeadsBy1Ms(arrivals: seq<Option<int>>, i: nat) {
    && i < |arrivals| && arrivals[i].Some?
    && (exists j :: 0 <= j < |arrivals| && j != i && arrivals[j].Some?)
    && forall j :: 0 <= j < |arrivals| && j != i && arrivals[j].Some? ==>
         arrivals[i].value + 1_000_000 <= arrivals[j].value
  }

  lemma LeadsExactly(r: TxRec, i: nat)
    ensures TxTable.Leads(r, i) <==> LeadsBy1Ms(r.arrivals, i)
  {
    hide TxTable.EarliestOther;
    TxTable.EarliestOtherIs(r.arrivals, i);
  }

  function LagsOf(ts: map<Hash, TxRec>, ks: set<Hash>, i: nat): map<Hash, int> {
    map t | t in ks && t in ts && i < |ts[t].arrivals| && ts[t].arrivals[i].Some? ::
      ts[t].arrivals[i].value - ts[t].first
  }

  lemma LagsHit(ts: map<Hash, TxRec>, ks: set<Hash>, i: nat, d: int)
    ensures Hits(ts, ks, TxTable.Hit, TxTable.Lag(i, d)) == Times(LagsOf(ts, ks, i), d)
  {
    hide TxTable.Leads;
    var m := LagsOf(ts, ks, i);
    HitsAre(ts, ks, TxTable.Hit, TxTable.Lag(i, d), set t | t in m && m[t] == d);
  }

  lemma TxHits(ts: map<Hash, TxRec>, ks: set<Hash>, i: nat)
    ensures Hits(ts, ks, TxTable.Hit, TxTable.Swap) == |set t | t in ks && t in ts && ts[t].swap|
    ensures Hits(ts, ks, TxTable.Hit, TxTable.Delivers(i))
         == |set t | t in ks && t in ts && i < |ts[t].arrivals| && ts[t].arrivals[i].Some?|
    ensures Hits(ts, ks, TxTable.Hit, TxTable.Earliest(i))
         == |set t | t in ks && t in ts && i < |ts[t].arrivals| && ts[t].arrivals[i] == Some(ts[t].first)|
    ensures Hits(ts, ks, TxTable.Hit, TxTable.Clear(i))
         == |set t | t in ks && t in ts && LeadsBy1Ms(ts[t].arrivals, i)|
  {
    hide TxTable.Leads, LeadsBy1Ms;
    HitsAre(ts, ks, TxTable.Hit, TxTable.Swap, set t | t in ks && t in ts && ts[t].swap);
    HitsAre(ts, ks, TxTable.Hit, TxTable.Delivers(i),
            set t | t in ks && t in ts && i < |ts[t].arrivals| && ts[t].arrivals[i].Some?);
    HitsAre(ts, ks, TxTable.Hit, TxTable.Earliest(i),
            set t | t in ks && t in ts && i < |ts[t].arrivals| && ts[t].arrivals[i] == Some(ts[t].first));
    forall r: TxRec ensures TxTable.Leads(r, i) <==> LeadsBy1Ms(r.arrivals, i) { LeadsExactly(r, i); }
    HitsAre(ts, ks, TxTable.Hit, TxTable.Clear(i), set t | t in ks && t in ts && LeadsBy1Ms(ts[t].arrivals, i));
  }

  /** The transaction summary, over all runs. */
  lemma TxFigures(cfg: Config, h: seq<Event>, s: TxTable.Summary, lags: seq<seq<int>>)
    requires ValidConfig(cfg) && ValidHistory(cfg, h)
    requires TxTable.IsSummary(cfg, Run(cfg, h), s, lags)
    ensures var ts, all, ks := Run(cfg, h).txs, TxsOf(cfg, h), MatchedOf(cfg, h);
            && s.total == |all| && s.matched == |ks| && s.swaps == |set t | t in ks && t in ts && ts[t].swap|
            && |s.lines| == Size(cfg)
            && forall i :: 0 <= i < Size(cfg) ==>
                 && s.lines[i].seen
                    == |set t | t in all && t in ts && i < |ts[t].arrivals| && ts[t].arrivals[i].Some?|
                 && s.lines[i].first
                    == |set t | t in ks && t in ts && i < |ts[t].arrivals| && ts[t].arrivals[i] == Some(ts[t].first)|
                 && s.lines[i].clear == |set t | t in ks && t in ts && LeadsBy1Ms(ts[t].arrivals, i)|
                 && ColumnsOf(x => UpTo(LagsOf(ts, ks, i), x), |LagsOf(ts, ks, i)|, s.lines[i].lag)
  {
    hide Run, Hits, Of, TxsOf, MatchedOf, UpTo, Times, LagsOf, ColumnsOf, AtMost, LeadsBy1Ms, Seen;
    hide TxTable.WindowKeys, TxTable.MatchedKeys, TxTable.Hit;
    var ts, all, ks := Run(cfg, h).txs, TxsOf(cfg, h), MatchedOf(cfg, h);
    TxsCounted(cfg, h);
    TxHits(ts, ks, 0);
    forall i | 0 <= i < Size(cfg)
      ensures s.lines[i].seen == |set t | t in all && t in ts && i < |ts[t].arrivals| && ts[t].arrivals[i].Some?|
      ensures s.lines[i].first
           == |set t | t in ks && t in ts && i < |ts[t].arrivals| && ts[t].arrivals[i] == Some(ts[t].first)|
      ensures s.lines[i].clear == |set t | t in ks && t in ts && LeadsBy1Ms(ts[t].arrivals, i)|
      ensures ColumnsOf(x => UpTo(LagsOf(ts, ks, i), x), |LagsOf(ts, ks, i)|, s.lines[i].lag)
    {
      TxHits(ts, all, i);
      TxHits(ts, ks, i);
      var m, v := LagsOf(ts, ks, i), lags[i];
      forall d: int ensures multiset(v)[d] == Times(m, d) { LagsHit(ts, ks, i, d); }
      forall x: int ensures AtMost(v, x) == UpTo(m, x) && |v| == |m| { OccurrencesDecide(m, v, x); }
      OccurrencesDecide(m, v, 0);
      ColumnsAre(v, x => UpTo(m, x));
    }
  }
}
