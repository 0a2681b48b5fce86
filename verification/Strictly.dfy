/** An improvement without a self-merge raises the diagram, by the gain of the top set, at the feerate of the chunk that
    was split. */
module Strictly {
  import opened Clusters
  import opened Forests
  import opened Diagrams
  import opened Merging
  import opened Improving

  /** Merging two chunks on the same side of a threshold does not change the diagram there. */
  lemma MergeOneSide(g: Cluster, f: Forest, d: Dep, lam: real)
    requires Fits(g, f) && f.Valid(g) && f.CanActivate(g, d)
    requires var p, c := ChunkRate(g, f, f.chunk[d.parent]), ChunkRate(g, f, f.chunk[d.child]);
             (p >= lam && c >= lam) || (p <= lam && c <= lam)
    ensures Fits(g, f.Activated(d)) && Diagram(g, f.Activated(d), lam) == Diagram(g, f, lam)
  {
    hide Area, Gains, ChunkRate, Forest.Valid, Forest.Activated;
    var ip, ic := f.chunk[d.parent], f.chunk[d.child];
    GainsActivated(g, f, d, lam);
    AreaMerge(Gains(g, f, lam), ip, ic);
    GainsSign(g, f, ip, lam);
    GainsSign(g, f, ic, lam);
  }

  lemma {:induction false} UpRunDiagram(g: Cluster, run: seq<Spot>, n: nat, l: nat, r: real, base: real -> real,
                                        lowBase: real -> real)
    requires GreedyRun(g, false, run) && n < |run| && UpPhase(g, run[0], r, l, r, base, lowBase)
    ensures SpotOk(g, run[n]) && Diagram(g, run[n].f, r) == Diagram(g, run[0].f, r)
    decreases n
  {
    hide UpPhase, Diagram, ChunkRate, Forest.Valid, HighSide, LowSide, MergeReady;
    RunOk(g, false, run, n);
    if n > 0 {
      UpRunDiagram(g, run, n - 1, l, r, base, lowBase);
      var rho := UpPhaseRun(g, run, n - 1, l, r, base, lowBase);
      assert Stepped(g, false, run[n - 1], run[n - 1 + 1]);
      var from := run[n - 1];
      var d :| GreedyStep(g, false, from, run[n], d);
      GreedyStepOk(g, false, from, run[n], d);
      UpPhaseParts(g, from, rho, l, r, base, lowBase);
      SidesStep(g, from, run[n], d, rho, l, r);
      HighSideRate(g, from, r);
      MergeOneSide(g, from.f, d, r);
    }
  }

  lemma UpPhaseParts(g: Cluster, s: Spot, rho: real, l: nat, r: real, base: real -> real, lowBase: real -> real)
    requires UpPhase(g, s, rho, l, r, base, lowBase)
    ensures HighSide(g, s, r) && LowSide(g, s.f, l, r) && MergeReady(g, s.f, g.txns, false, s.k, rho, {l})
  {
    hide HighSide, LowSide, MergeReady, LooseBelow, AreaReady, LowArea, Forest.Valid;
  }

  lemma {:induction false} DownRunDiagram(g: Cluster, run: seq<Spot>, n: nat, r: real, base: real -> real)
    requires GreedyRun(g, true, run) && n < |run| && Keeps(g, run[0], g.txns, true, -r, {}, base)
    ensures SpotOk(g, run[n]) && Diagram(g, run[n].f, r) == Diagram(g, run[0].f, r)
    decreases n
  {
    hide Keeps, Diagram, ChunkRate, Forest.Valid, Covers, GreedyStep, SpotOk;
    RunOk(g, true, run, n);
    SpotFits(g, run[n]);
    if n > 0 {
      DownRunDiagram(g, run, n - 1, r, base);
      RunOk(g, true, run, 0);
      CoversAll(g, run[0], true);
      var rho := RunKeeps(g, run, n - 1, g.txns, true, -r, {}, base);
      assert Stepped(g, true, run[n - 1], run[n - 1 + 1]);
      var d :| GreedyStep(g, true, run[n - 1], run[n], d);
      DownStepDiagram(g, run[n - 1], run[n], d, rho, base, r);
    }
  }

  lemma SpotFits(g: Cluster, s: Spot)
    requires SpotOk(g, s)
    ensures Fits(g, s.f)
  {
    hide Forest.Valid;
  }

  lemma DownStepDiagram(g: Cluster, from: Spot, to: Spot, d: Dep, rho: real, base: real -> real, r: real)
    requires GreedyStep(g, true, from, to, d) && Keeps(g, from, g.txns, true, rho, {}, base) && rho >= -r
    ensures Fits(g, from.f) && Fits(g, to.f) && Diagram(g, to.f, r) == Diagram(g, from.f, r)
  {
    hide Keeps, Diagram, ChunkRate, Forest.Valid, Candidate, Forest.Activated;
    GreedyStepOk(g, true, from, to, d);
    CandidateRate(g, from, rho, base, d);
    MergeOneSide(g, from.f, d, r);
  }

  /** In a downward merge, both chunks are at most at the threshold. */
  lemma CandidateRate(g: Cluster, s: Spot, rho: real, base: real -> real, d: Dep)
    requires Keeps(g, s, g.txns, true, rho, {}, base) && Candidate(g, s.f, g.txns, true, s.k, d)
    ensures Fits(g, s.f) && Between(s.f, d)
    ensures ChunkRate(g, s.f, s.f.chunk[d.parent]) <= -rho && ChunkRate(g, s.f, s.f.chunk[d.child]) <= -rho
  {
    hide ChunkRate, Forest.Valid, AreaReady, LooseBelow;
  }

  lemma SplitGain(g: Cluster, f: Forest, d: Dep, ip: nat)
    requires Improvable(g, f, d) && f.CanDeactivate(d, ip)
    ensures var r := ChunkRate(g, f, f.chunk[d.parent]);
            Fits(g, f.Deactivated(d, ip))
            && Diagram(g, f.Deactivated(d, ip), r) == Diagram(g, f, r) + g.GainOf(f.top[d], r)
  {
    hide Area, Forest.Valid, Cluster.GainOf, ChunkRate;
    var f', ic, r := f.Deactivated(d, ip), f.chunk[d.parent], ChunkRate(g, f, f.chunk[d.parent]);
    SplitRates(g, f, d, ip);
    SplitGains(g, f, d, ip, r);
    DeactivatedParts(f, g, d, ip);
    GainsSign(g, f, ic, r);
    GainsSign(g, f', ip, r);
    GainsSign(g, f', ic, r);
  }

  /** The diagram is nowhere lower, and higher by the gain of the top set at the feerate of the chunk that was split. */
  ghost predicate StrictlyBetter(g: Cluster, f': Forest, f: Forest, d: Dep)
    requires Fits(g, f') && Fits(g, f)
  {
    && AtLeastAsGood(g, f', f) && Improvable(g, f, d)
    && var r := ChunkRate(g, f, f.chunk[d.parent]);
       Diagram(g, f', r) == Diagram(g, f, r) + g.GainOf(f.top[d], r) > Diagram(g, f, r)
  }

  /** Improving without a self-merge makes the diagram strictly better. */
  lemma ImproveStrictly(g: Cluster, f: Forest, d: Dep, ip: nat, up: seq<Spot>, down: seq<Spot>)
    requires Improvable(g, f, d) && f.CanDeactivate(d, ip) && Topological(g, f)
    requires !TopNeedsBottom(g, f.Deactivated(d, ip), ip, f.chunk[d.parent])
    requires GreedyRun(g, false, up) && up[0] == Spot(f.Deactivated(d, ip), ip)
    requires GreedyRun(g, true, down) && down[0] == Spot(up[|up| - 1].f, f.chunk[d.parent])
    requires SpotOk(g, up[|up| - 1]) && NoCandidate(g, up[|up| - 1], false)
    requires SpotOk(g, down[|down| - 1]) && NoCandidate(g, down[|down| - 1], true)
    ensures StrictlyBetter(g, down[|down| - 1].f, f, d)
  {
    hide ChunkRate, Forest.Valid, Forest.Deactivated, TopNeedsBottom, Topological, UpPhase, Keeps, NoCandidate, Stepped,
         Diagram, AtLeastAsGood, Cluster.GainOf;
    var l, r := f.chunk[d.parent], ChunkRate(g, f, f.chunk[d.parent]);
    ImproveMerged(g, f, d, ip, up, down);
    SplitUpPhase(g, f, d, ip);
    SplitGain(g, f, d, ip);
    UpRunDiagram(g, up, |up| - 1, l, r, DiagramOf(g, f), DeficitOf(g, f));
    var rho := UpPhaseRun(g, up, |up| - 1, l, r, DiagramOf(g, f), DeficitOf(g, f));
    DownPhaseStart(g, f, up[|up| - 1], rho, l, r);
    DownRunDiagram(g, down, |down| - 1, r, DeficitOf(g, f));
  }
}
