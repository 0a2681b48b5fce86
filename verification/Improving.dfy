/** Splitting a chunk and merging the halves back into a topological state never makes the
    diagram worse. */
module Improving {
  import opened FeeFracs
  import opened Clusters
  import opened Forests
  import opened Diagrams
  import opened Merging

  // ---- Greedy merge sequences

  /** A forest, and the chunk a merge sequence is working on. */
  datatype Spot = Spot(f: Forest, k: nat)

  ghost predicate SpotOk(g: Cluster, s: Spot) {
    Fits(g, s.f) && s.f.Valid(g) && s.k in s.f.chunk.Values
  }

  /** `to` results from merging the chunk with its best merge candidate, along `d`. */
  ghost predicate GreedyStep(g: Cluster, down: bool, from: Spot, to: Spot, d: Dep) {
    && SpotOk(g, from)
    && Candidate(g, from.f, g.txns, down, from.k, d)
    && d.parent in from.f.chunk && d.child in from.f.chunk
    && to == Spot(from.f.Activated(d), from.f.chunk[d.child])
  }

  ghost predicate Stepped(g: Cluster, down: bool, from: Spot, to: Spot) {
    exists d :: GreedyStep(g, down, from, to, d)
  }

  ghost predicate GreedyRun(g: Cluster, down: bool, run: seq<Spot>) {
    && |run| > 0
    && SpotOk(g, run[0])
    && forall i | 0 <= i < |run| - 1 :: Stepped(g, down, run[i], run[i + 1])
  }

  /** No chunk ahead of `k` is low enough to merge with. */
  ghost predicate NoCandidate(g: Cluster, s: Spot, down: bool)
    requires SpotOk(g, s)
  {
    forall d | d in g.deps && Leaves(s.f, g.txns, down, s.k, d) ::
      Value(g, s.f, down, s.f.chunk[Far(down, d)]) > Value(g, s.f, down, s.k)
  }

  lemma GreedyStepOk(g: Cluster, down: bool, from: Spot, to: Spot, d: Dep)
    requires GreedyStep(g, down, from, to, d)
    ensures from.f.CanActivate(g, d) && from.f.chunk[Near(down, d)] == from.k
    ensures SpotOk(g, to)
  {
    hide Forest.Valid, Value, Forest.Activated;
    MergedValues(g, from.f, down, d);
    ActivatedValid(from.f, g, d);
  }

  lemma {:induction false} RunOk(g: Cluster, down: bool, run: seq<Spot>, n: nat)
    requires GreedyRun(g, down, run) && n < |run|
    ensures SpotOk(g, run[n])
  {
    if n > 0 {
      RunOk(g, down, run, n - 1);
      assert Stepped(g, down, run[n - 1], run[n - 1 + 1]);
      var d :| GreedyStep(g, down, run[n - 1], run[n], d);
      GreedyStepOk(g, down, run[n - 1], run[n], d);
    }
  }

  /** What a merge sequence at `s` keeps: order apart from what leaves `s.k`, and the diagram. */
  ghost predicate Keeps(g: Cluster, s: Spot, scope: set<nat>, down: bool, rho: real, loose: set<nat>,
                        base: real -> real) {
    && SpotOk(g, s)
    && MergeReady(g, s.f, scope, down, s.k, rho, loose)
    && LooseBelow(g, s.f, scope, down, rho, loose)
    && AreaReady(g, s.f, down, s.k, rho, base)
  }

  /** `scope` is a union of chunks, with chunk `k` among them, and all that leaves it in the
      given direction stays in it. */
  ghost predicate Covers(g: Cluster, s: Spot, scope: set<nat>, down: bool) {
    && scope <= g.txns && s.f.Part(s.k) <= scope
    && (forall t, u | t in scope && t in s.f.chunk && u in s.f.chunk && s.f.chunk[u] == s.f.chunk[t] :: u in scope)
    && (forall d | d in g.deps && Near(down, d) in scope :: Far(down, d) in scope)
  }

  lemma StepKeeps(g: Cluster, from: Spot, to: Spot, scope: set<nat>, down: bool, d: Dep, rho: real, loose: set<nat>,
                  base: real -> real)
    returns (rho': real)
    requires GreedyStep(g, down, from, to, d) && Keeps(g, from, scope, down, rho, loose, base)
             && Covers(g, from, scope, down)
    ensures rho' >= rho && Keeps(g, to, scope, down, rho', loose, base) && Covers(g, to, scope, down)
  {
    hide Value, Forest.Valid, MergeReady, LooseBelow, AreaReady;
    GreedyStepOk(g, down, from, to, d);
    StepCovers(g, from, to, scope, down, d);
    rho' := Value(g, from.f, down, from.f.chunk[Far(down, d)]);
    MergeStepReady(g, from.f, scope, down, from.k, rho, loose, d);
    MergeStepArea(g, from.f, down, from.k, rho, d, base);
  }

  lemma StepCovers(g: Cluster, from: Spot, to: Spot, scope: set<nat>, down: bool, d: Dep)
    requires GreedyStep(g, down, from, to, d) && Covers(g, from, scope, down) && from.f.CanActivate(g, d)
    ensures Candidate(g, from.f, scope, down, from.k, d)
    ensures Covers(g, to, scope, down)
  {
    hide Value, Forest.Valid;
    assert Far(down, d) in scope by {
      assert Near(down, d) in from.f.Part(from.k);
    }
    forall t | t in to.f.chunk
      ensures to.f.chunk[t] ==
              if from.f.chunk[t] == from.f.chunk[d.parent] then from.f.chunk[d.child] else from.f.chunk[t]
    {
      MergedChunk(g, from.f, d, t);
    }
    assert from.f.Part(from.f.chunk[Far(down, d)]) <= scope;
  }

  // ---- The low half of a split waits while the high half merges upward

  /** Chunk `k` and everything ahead of it are above `r`. */
  ghost predicate HighSide(g: Cluster, s: Spot, r: real) {
    && SpotOk(g, s)
    && ChunkRate(g, s.f, s.k) > r
    && forall d | d in g.deps && Leaves(s.f, g.txns, false, s.k, d) :: ChunkRate(g, s.f, s.f.chunk[d.parent]) > r
  }

  /** Chunk `l` is below `r`, between parents above `r` and children below it. */
  ghost predicate LowSide(g: Cluster, f: Forest, l: nat, r: real) {
    && Fits(g, f) && l in f.chunk.Values
    && ChunkRate(g, f, l) < r
    && (forall d | d in g.deps && Between(f, d) && f.chunk[d.child] == l :: ChunkRate(g, f, f.chunk[d.parent]) > r)
    && (forall d | d in g.deps && Between(f, d) && f.chunk[d.parent] == l :: ChunkRate(g, f, f.chunk[d.child]) < r)
  }

  /** Up to `r`, the deficit is at least `base` even without chunk `l`. */
  ghost predicate LowArea(g: Cluster, f: Forest, l: nat, r: real, base: real -> real)
    requires Fits(g, f)
  {
    forall lam: real | lam <= r && l in Weights(g, f, true, lam) ::
      SignedArea(g, f, true, lam) - Pos(Weights(g, f, true, lam)[l]) >= base(lam)
  }

  lemma MergedDep(g: Cluster, f: Forest, d: Dep, e: Dep)
    requires Fits(g, f) && f.CanActivate(g, d) && e in g.deps && Between(f.Activated(d), e)
    ensures Between(f, e)
    ensures forall t | t == e.parent || t == e.child ::
              f.Activated(d).chunk[t] == if f.chunk[t] == f.chunk[d.parent] then f.chunk[d.child] else f.chunk[t]
  {
    MergedChunk(g, f, d, e.parent);
    MergedChunk(g, f, d, e.child);
  }

  lemma SidesStep(g: Cluster, from: Spot, to: Spot, d: Dep, rho: real, l: nat, r: real)
    requires GreedyStep(g, false, from, to, d) && HighSide(g, from, r) && LowSide(g, from.f, l, r)
    requires MergeReady(g, from.f, g.txns, false, from.k, rho, {l})
    ensures HighSide(g, to, r) && LowSide(g, to.f, l, r)
    ensures l != from.f.chunk[d.parent] && l != from.f.chunk[d.child]
    ensures ChunkRate(g, from.f, from.f.chunk[d.parent]) > r
  {
    hide ChunkRate, Forest.Valid;
    GreedyStepOk(g, false, from, to, d);
    MergedValues(g, from.f, false, d);
    hide Forest.Activated;
    var j := from.f.chunk[d.parent];
    assert ChunkRate(g, from.f, j) > r;
    assert Value(g, to.f, false, to.k) > r;
    forall e | e in g.deps && Between(to.f, e) && to.f.chunk[e.parent] == l
      ensures ChunkRate(g, to.f, to.f.chunk[e.child]) < r
    {
      MergedDep(g, from.f, d, e);
      var i := from.f.chunk[e.child];
      assert ChunkRate(g, from.f, i) < r;
      assert Value(g, to.f, false, i) == Value(g, from.f, false, i);
    }
    forall e | e in g.deps && Between(to.f, e)
      ensures to.f.chunk[e.child] == to.k || to.f.chunk[e.child] == l ==> ChunkRate(g, to.f, to.f.chunk[e.parent]) > r
    {
      MergedDep(g, from.f, d, e);
      assert from.f.chunk[e.child] == from.k ==> Leaves(from.f, g.txns, false, from.k, e);
      if from.f.chunk[e.child] == j && from.f.chunk[e.parent] != l {
        assert InOrder(g, from.f, e);
      }
      assert to.f.chunk[e.parent] != to.k ==>
        Value(g, to.f, false, to.f.chunk[e.parent]) == Value(g, from.f, false, to.f.chunk[e.parent]);
    }
  }

  lemma LowAreaStep(g: Cluster, f: Forest, d: Dep, l: nat, r: real, base: real -> real)
    requires Fits(g, f) && f.Valid(g) && f.CanActivate(g, d) && l in f.chunk.Values && LowArea(g, f, l, r, base)
    requires l != f.chunk[d.parent] && l != f.chunk[d.child]
    requires ChunkRate(g, f, f.chunk[d.parent]) > r && ChunkRate(g, f, f.chunk[d.child]) > r
    ensures Fits(g, f.Activated(d)) && LowArea(g, f.Activated(d), l, r, base)
  {
    hide Value, Area, Weights, Forest.Valid, Forest.Activated;
    MergedValues(g, f, true, d);
    var f', ip, ic := f.Activated(d), f.chunk[d.parent], f.chunk[d.child];
    forall lam: real | lam <= r && l in Weights(g, f', true, lam)
      ensures SignedArea(g, f', true, lam) - Pos(Weights(g, f', true, lam)[l]) >= base(lam)
    {
      WeightsActivated(g, f, true, d, lam);
      AreaMerge(Weights(g, f, true, lam), ip, ic);
      LowWeight(g, f, ip, lam);
      LowWeight(g, f, ic, lam);
    }
  }

  lemma LowWeight(g: Cluster, f: Forest, i: nat, lam: real)
    requires Fits(g, f) && i in f.chunk.Values && ChunkRate(g, f, i) > lam
    ensures i in Weights(g, f, true, lam) && Weights(g, f, true, lam)[i] <= 0.0
  {
    hide ChunkRate, ChunkGain;
    WeightSign(g, f, true, i, lam);
  }

  /** What holds while the high half of a split chunk merges upward. */
  ghost predicate UpPhase(g: Cluster, s: Spot, rho: real, l: nat, r: real, base: real -> real, lowBase: real -> real) {
    && rho >= r
    && Keeps(g, s, g.txns, false, rho, {l}, base)
    && HighSide(g, s, r) && LowSide(g, s.f, l, r)
    && LowArea(g, s.f, l, r, lowBase)
  }

  lemma CoversAll(g: Cluster, s: Spot, down: bool)
    requires SpotOk(g, s)
    ensures Covers(g, s, g.txns, down)
  {
    hide Forest.Valid;
  }

  lemma UpPhaseStep(g: Cluster, from: Spot, to: Spot, d: Dep, rho: real, l: nat, r: real, base: real -> real,
                    lowBase: real -> real)
    returns (rho': real)
    requires GreedyStep(g, false, from, to, d) && UpPhase(g, from, rho, l, r, base, lowBase)
    ensures UpPhase(g, to, rho', l, r, base, lowBase)
  {
    hide HighSide, Value, ChunkRate, Forest.Valid, MergeReady, LooseBelow, AreaReady, LowArea, Covers;
    CoversAll(g, from, false);
    GreedyStepOk(g, false, from, to, d);
    rho' := StepKeeps(g, from, to, g.txns, false, d, rho, {l}, base);
    SidesStep(g, from, to, d, rho, l, r);
    HighSideRate(g, from, r);
    LowAreaStep(g, from.f, d, l, r, lowBase);
  }

  lemma HighSideRate(g: Cluster, s: Spot, r: real)
    requires HighSide(g, s, r)
    ensures SpotOk(g, s) && ChunkRate(g, s.f, s.k) > r
  {
  }

  lemma {:induction false} UpPhaseRun(g: Cluster, run: seq<Spot>, n: nat, l: nat, r: real, base: real -> real,
                                      lowBase: real -> real)
    returns (rho': real)
    requires GreedyRun(g, false, run) && n < |run| && UpPhase(g, run[0], r, l, r, base, lowBase)
    ensures UpPhase(g, run[n], rho', l, r, base, lowBase)
    decreases n
  {
    hide UpPhase;
    rho' := r;
    if n > 0 {
      rho' := UpPhaseRun(g, run, n - 1, l, r, base, lowBase);
      assert Stepped(g, false, run[n - 1], run[n - 1 + 1]);
      var d :| GreedyStep(g, false, run[n - 1], run[n], d);
      rho' := UpPhaseStep(g, run[n - 1], run[n], d, rho', l, r, base, lowBase);
    }
  }

  lemma {:induction false} RunKeeps(g: Cluster, run: seq<Spot>, n: nat, scope: set<nat>, down: bool, rho: real,
                                    loose: set<nat>, base: real -> real)
    returns (rho': real)
    requires GreedyRun(g, down, run) && n < |run| && Keeps(g, run[0], scope, down, rho, loose, base)
             && Covers(g, run[0], scope, down)
    ensures rho' >= rho && Keeps(g, run[n], scope, down, rho', loose, base) && Covers(g, run[n], scope, down)
    decreases n
  {
    hide Keeps, Covers;
    rho' := rho;
    if n > 0 {
      rho' := RunKeeps(g, run, n - 1, scope, down, rho, loose, base);
      assert Stepped(g, down, run[n - 1], run[n - 1 + 1]);
      var d :| GreedyStep(g, down, run[n - 1], run[n], d);
      rho' := StepKeeps(g, run[n - 1], run[n], scope, down, d, rho', loose, base);
    }
  }

  // ---- Splitting

  /** The dependency's top set has higher feerate than its chunk. */
  ghost predicate Improvable(g: Cluster, f: Forest, d: Dep) {
    && Fits(g, f) && f.Valid(g) && d in f.top
    && g.GainOf(f.top[d], ChunkRate(g, f, f.chunk[d.parent])) > 0.0
  }

  /** Some transaction of the top depends on the bottom. */
  ghost predicate TopNeedsBottom(g: Cluster, f: Forest, ip: nat, ic: nat) {
    exists e :: e in g.deps && e.child in f.Part(ip) && e.parent in f.Part(ic)
  }

  lemma SplitRates(g: Cluster, f: Forest, d: Dep, ip: nat)
    requires Improvable(g, f, d) && f.CanDeactivate(d, ip)
    ensures var f', ic := f.Deactivated(d, ip), f.chunk[d.parent];
            && Fits(g, f') && f'.chunk.Values == f.chunk.Values + {ip}
            && ChunkRate(g, f', ip) > ChunkRate(g, f, ic) > ChunkRate(g, f', ic)
            && (forall i | i in f.chunk.Values && i != ic :: ChunkRate(g, f', i) == ChunkRate(g, f, i))
  {
    hide Cluster.FeeOf, Cluster.RateOf, Cluster.GainOf, Closed, Connected, IsTop;
    var f', ic := f.Deactivated(d, ip), f.chunk[d.parent];
    DeactivatedParts(f, g, d, ip);
    PartNonEmpty(f, ic);
    PartNonEmpty(f', ic);
    PartNonEmpty(f', ip);
    var t, b := f'.Part(ip), f'.Part(ic);
    assert t + b == f.Part(ic);
    g.RateOfUnion(t, b);
    g.GainOfSign(t, g.RateOf(f.Part(ic)));
  }

  lemma SplitChunk(g: Cluster, f: Forest, d: Dep, ip: nat, t: nat)
    requires Fits(g, f) && f.Valid(g) && f.CanDeactivate(d, ip) && t in f.chunk
    ensures var f', ic := f.Deactivated(d, ip), f.chunk[d.parent];
            && t in f'.chunk
            && f'.chunk[t] == (if t in f.top[d] then ip else f.chunk[t])
            && (f.chunk[t] == ic <==> f'.chunk[t] == ip || f'.chunk[t] == ic)
            && (f'.chunk[t] == ip <==> t in f'.Part(ip)) && (f'.chunk[t] == ic <==> t in f'.Part(ic))
  {
    hide Closed, Connected, IsTop;
    DeactivatedParts(f, g, d, ip);
  }

  /** How a single dependency looks after a split. */
  lemma SplitDep(g: Cluster, f: Forest, d: Dep, ip: nat, e: Dep)
    requires Improvable(g, f, d) && f.CanDeactivate(d, ip) && Topological(g, f) && e in g.deps
    requires !TopNeedsBottom(g, f.Deactivated(d, ip), ip, f.chunk[d.parent])
    requires Fits(g, f.Deactivated(d, ip)) && Between(f.Deactivated(d, ip), e)
    ensures var f', ic, r := f.Deactivated(d, ip), f.chunk[d.parent], ChunkRate(g, f, f.chunk[d.parent]);
            && (f'.chunk[e.child] != ip && f'.chunk[e.parent] != ic ==> InOrder(g, f', e))
            && (f'.chunk[e.child] == ip ==> ChunkRate(g, f', f'.chunk[e.parent]) > r)
            && (f'.chunk[e.parent] == ip ==> ChunkRate(g, f', f'.chunk[e.child]) < r)
            && (f'.chunk[e.child] == ic ==> ChunkRate(g, f', f'.chunk[e.parent]) > r)
            && (f'.chunk[e.parent] == ic ==> ChunkRate(g, f', f'.chunk[e.child]) < r)
  {
    hide ChunkRate, Forest.Valid, Cluster.GainOf;
    SplitRates(g, f, d, ip);
    SplitChunk(g, f, d, ip, e.parent);
    SplitChunk(g, f, d, ip, e.child);
    hide Forest.Deactivated;
    var f', ic := f.Deactivated(d, ip), f.chunk[d.parent];
    if Between(f, e) {
      assert InOrder(g, f, e);
    } else {
      assert f'.chunk[e.child] != ip;
    }
  }

  lemma SplitSides(g: Cluster, f: Forest, d: Dep, ip: nat)
    requires Improvable(g, f, d) && f.CanDeactivate(d, ip) && Topological(g, f)
    requires !TopNeedsBottom(g, f.Deactivated(d, ip), ip, f.chunk[d.parent])
    ensures var f', ic, r := f.Deactivated(d, ip), f.chunk[d.parent], ChunkRate(g, f, f.chunk[d.parent]);
            && SpotOk(g, Spot(f', ip))
            && HighSide(g, Spot(f', ip), r) && LowSide(g, f', ic, r)
  {
    hide ChunkRate, Forest.Valid, InOrder, Cluster.GainOf, Forest.Deactivated, TopNeedsBottom, Topological;
    DeactivatedValid(f, g, d, ip);
    SplitRates(g, f, d, ip);
    var f', ic, r := f.Deactivated(d, ip), f.chunk[d.parent], ChunkRate(g, f, f.chunk[d.parent]);
    forall e | e in g.deps && Between(f', e)
      ensures (f'.chunk[e.child] == ip ==> ChunkRate(g, f', f'.chunk[e.parent]) > r)
      ensures (f'.chunk[e.child] == ic ==> ChunkRate(g, f', f'.chunk[e.parent]) > r)
      ensures (f'.chunk[e.parent] == ic ==> ChunkRate(g, f', f'.chunk[e.child]) < r)
    {
      SplitDep(g, f, d, ip, e);
    }
  }

  lemma SplitReady(g: Cluster, f: Forest, d: Dep, ip: nat)
    requires Improvable(g, f, d) && f.CanDeactivate(d, ip) && Topological(g, f)
    requires !TopNeedsBottom(g, f.Deactivated(d, ip), ip, f.chunk[d.parent])
    ensures var f', ic, r := f.Deactivated(d, ip), f.chunk[d.parent], ChunkRate(g, f, f.chunk[d.parent]);
            && Fits(g, f')
            && MergeReady(g, f', g.txns, false, ip, r, {ic})
            && LooseBelow(g, f', g.txns, false, r, {ic})
  {
    hide ChunkRate, Forest.Valid, InOrder, Cluster.GainOf, Forest.Deactivated, TopNeedsBottom, Topological;
    SplitRates(g, f, d, ip);
    var f', ic, r := f.Deactivated(d, ip), f.chunk[d.parent], ChunkRate(g, f, f.chunk[d.parent]);
    forall e | e in g.deps && Between(f', e)
      ensures (f'.chunk[e.child] != ip && f'.chunk[e.parent] != ic ==> InOrder(g, f', e))
      ensures (f'.chunk[e.child] == ip ==> ChunkRate(g, f', f'.chunk[e.parent]) > r)
      ensures (f'.chunk[e.parent] == ip ==> ChunkRate(g, f', f'.chunk[e.child]) < r)
      ensures (f'.chunk[e.parent] == ic ==> ChunkRate(g, f', f'.chunk[e.child]) < r)
    {
      SplitDep(g, f, d, ip, e);
    }
  }

  lemma SplitGains(g: Cluster, f: Forest, d: Dep, ip: nat, lam: real)
    requires Improvable(g, f, d) && f.CanDeactivate(d, ip)
    ensures var f', ic := f.Deactivated(d, ip), f.chunk[d.parent];
            && Fits(g, f')
            && var m, m' := Gains(g, f, lam), Gains(g, f', lam);
            && ip in m' && ic in m' && ic in m && m[ic] == m'[ip] + m'[ic]
            && Area(m') == Area(m) - Pos(m[ic]) + Pos(m'[ip]) + Pos(m'[ic])
            && Total(m') == Total(m)
  {
    hide Area, Total, Forest.Valid, Forest.Deactivated, Cluster.GainOf;
    GainsDeactivated(g, f, d, ip, lam);
    AreaSplit(Gains(g, f, lam), ip, f.chunk[d.parent], g.GainOf(f.top[d], lam));
  }

  lemma GainsSign(g: Cluster, f: Forest, i: nat, lam: real)
    requires Fits(g, f) && i in f.chunk.Values
    ensures i in Gains(g, f, lam)
    ensures Gains(g, f, lam)[i] > 0.0 <==> ChunkRate(g, f, i) > lam
    ensures Gains(g, f, lam)[i] == 0.0 <==> ChunkRate(g, f, i) == lam
  {
    hide ChunkRate, ChunkGain;
    ChunkGainSign(g, f, i, lam);
  }

  lemma SplitAreaAt(g: Cluster, f: Forest, d: Dep, ip: nat, lam: real)
    requires Improvable(g, f, d) && f.CanDeactivate(d, ip)
    ensures var f', ic, r := f.Deactivated(d, ip), f.chunk[d.parent], ChunkRate(g, f, f.chunk[d.parent]);
            && Fits(g, f') && ip in Gains(g, f', lam) && ic in Gains(g, f', lam)
            && Diagram(g, f', lam) >= Diagram(g, f, lam)
            && (lam >= r ==> Diagram(g, f', lam) - Pos(Gains(g, f', lam)[ip]) >= Diagram(g, f, lam))
            && (lam <= r ==> Deficit(g, f', lam) - Pos(-Gains(g, f', lam)[ic]) >= Deficit(g, f, lam))
  {
    hide Area, Total, Forest.Valid, Forest.Deactivated, Gains, ChunkRate, Negated, Cluster.GainOf;
    var f', ic := f.Deactivated(d, ip), f.chunk[d.parent];
    SplitRates(g, f, d, ip);
    SplitGains(g, f, d, ip, lam);
    GainsSign(g, f, ic, lam);
    GainsSign(g, f', ip, lam);
    GainsSign(g, f', ic, lam);
    AreaNegated(Gains(g, f, lam));
    AreaNegated(Gains(g, f', lam));
  }

  lemma SplitArea(g: Cluster, f: Forest, d: Dep, ip: nat)
    requires Improvable(g, f, d) && f.CanDeactivate(d, ip)
    ensures var f', ic, r := f.Deactivated(d, ip), f.chunk[d.parent], ChunkRate(g, f, f.chunk[d.parent]);
            && Fits(g, f') && ip in f'.chunk.Values
            && AreaReady(g, f', false, ip, r, lam => if Fits(g, f) then Diagram(g, f, lam) else 0.0)
            && LowArea(g, f', ic, r, lam => if Fits(g, f) then Deficit(g, f, lam) else 0.0)
  {
    hide Area, Forest.Valid, Forest.Deactivated, Gains, ChunkRate, Cluster.GainOf;
    SplitRates(g, f, d, ip);
    var f', ic, r := f.Deactivated(d, ip), f.chunk[d.parent], ChunkRate(g, f, f.chunk[d.parent]);
    var base := lam => if Fits(g, f) then Diagram(g, f, lam) else 0.0;
    forall lam: real
      ensures SignedArea(g, f', false, lam) >= base(lam)
      ensures lam >= r && ip in Weights(g, f', false, lam) ==>
                SignedArea(g, f', false, lam) - Pos(Weights(g, f', false, lam)[ip]) >= base(lam)
      ensures lam <= r && ic in Weights(g, f', true, lam) ==>
                SignedArea(g, f', true, lam) - Pos(Weights(g, f', true, lam)[ic]) >= Deficit(g, f, lam)
    {
      SplitAreaAt(g, f, d, ip, lam);
    }
  }

  ghost function DiagramOf(g: Cluster, f: Forest): real -> real {
    lam => if Fits(g, f) then Diagram(g, f, lam) else 0.0
  }

  ghost function DeficitOf(g: Cluster, f: Forest): real -> real {
    lam => if Fits(g, f) then Deficit(g, f, lam) else 0.0
  }

  /** `f'` is nowhere worse than `f`. */
  ghost predicate AtLeastAsGood(g: Cluster, f': Forest, f: Forest)
    requires Fits(g, f') && Fits(g, f)
  {
    forall lam: real :: Diagram(g, f', lam) >= Diagram(g, f, lam)
  }

  lemma SameIsGood(g: Cluster, f': Forest, f: Forest)
    requires Fits(g, f') && Fits(g, f) && forall lam: real :: Diagram(g, f', lam) == Diagram(g, f, lam)
    ensures AtLeastAsGood(g, f', f)
  {
  }

  // ---- Both merge sequences together

  /** Once the high half is done merging up, the low half may start merging down. */
  lemma DownPhaseStart(g: Cluster, f: Forest, s: Spot, rho: real, l: nat, r: real)
    requires Fits(g, f) && UpPhase(g, s, rho, l, r, DiagramOf(g, f), DeficitOf(g, f)) && NoCandidate(g, s, false)
    ensures Keeps(g, Spot(s.f, l), g.txns, true, -r, {}, DeficitOf(g, f))
  {
    hide Forest.Valid, NoCandidate, MergeReady, LooseBelow, HighSide, AreaReady, LowArea;
    DownReady(g, s, rho, l, r);
    DownArea(g, f, s.f, s.k, rho, l, r);
  }

  lemma DownArea(g: Cluster, f: Forest, f': Forest, k: nat, rho: real, l: nat, r: real)
    requires Fits(g, f) && Fits(g, f') && k in f'.chunk.Values && l in f'.chunk.Values
    requires AreaReady(g, f', false, k, rho, DiagramOf(g, f)) && LowArea(g, f', l, r, DeficitOf(g, f))
    ensures AreaReady(g, f', true, l, -r, DeficitOf(g, f))
  {
    hide SignedArea, Weights, Diagram, Deficit;
    forall lam: real
      ensures SignedArea(g, f', true, lam) >= Deficit(g, f, lam)
    {
      assert DiagramOf(g, f)(lam) == Diagram(g, f, lam);
      BothSides(g, f, f', lam);
    }
  }

  lemma BothSides(g: Cluster, f: Forest, f': Forest, lam: real)
    requires Fits(g, f) && Fits(g, f') && SignedArea(g, f', false, lam) >= Diagram(g, f, lam)
    ensures SignedArea(g, f', true, lam) >= Deficit(g, f, lam)
  {
    hide Area, Gains;
    DeficitDual(g, f, lam);
    DeficitDual(g, f', lam);
  }

  lemma DownReady(g: Cluster, s: Spot, rho: real, l: nat, r: real)
    requires SpotOk(g, s) && MergeReady(g, s.f, g.txns, false, s.k, rho, {l}) && LowSide(g, s.f, l, r)
             && NoCandidate(g, s, false)
    ensures MergeReady(g, s.f, g.txns, true, l, -r, {})
    ensures LooseBelow(g, s.f, g.txns, true, -r, {})
  {
    hide ChunkRate, Forest.Valid;
    forall d | d in g.deps && Between(s.f, d) && s.f.chunk[d.parent] != l
      ensures InOrder(g, s.f, d)
    {
      if s.f.chunk[d.child] == s.k {
        assert Leaves(s.f, g.txns, false, s.k, d);
      }
    }
  }

  lemma MergeDone(g: Cluster, s: Spot, rho: real, down: bool)
    requires SpotOk(g, s) && MergeReady(g, s.f, g.txns, down, s.k, rho, {}) && NoCandidate(g, s, down)
    ensures Topological(g, s.f)
  {
    hide ChunkRate, Forest.Valid;
    forall d | d in g.deps && Between(s.f, d)
      ensures InOrder(g, s.f, d)
    {
      if s.f.chunk[Near(down, d)] == s.k {
        assert Leaves(s.f, g.txns, down, s.k, d);
      }
    }
  }

  lemma SplitUpPhase(g: Cluster, f: Forest, d: Dep, ip: nat)
    requires Improvable(g, f, d) && f.CanDeactivate(d, ip) && Topological(g, f)
    requires !TopNeedsBottom(g, f.Deactivated(d, ip), ip, f.chunk[d.parent])
    ensures var r := ChunkRate(g, f, f.chunk[d.parent]);
            UpPhase(g, Spot(f.Deactivated(d, ip), ip), r, f.chunk[d.parent], r, DiagramOf(g, f), DeficitOf(g, f))
  {
    hide ChunkRate, Forest.Valid, Forest.Deactivated, TopNeedsBottom, Topological, MergeReady, LooseBelow, LowSide,
         HighSide, Area, Gains, SignedArea, Weights, Diagram, Deficit;
    SplitSides(g, f, d, ip);
    SplitReady(g, f, d, ip);
    SplitArea(g, f, d, ip);
  }

  /** Splitting a chunk at a dependency whose top set has higher feerate than the chunk, then
      merging the top upward and the bottom downward, restores a topological state whose diagram
      is nowhere below the one before. */
  lemma ImproveMerged(g: Cluster, f: Forest, d: Dep, ip: nat, up: seq<Spot>, down: seq<Spot>)
    requires Improvable(g, f, d) && f.CanDeactivate(d, ip) && Topological(g, f)
    requires !TopNeedsBottom(g, f.Deactivated(d, ip), ip, f.chunk[d.parent])
    requires GreedyRun(g, false, up) && up[0] == Spot(f.Deactivated(d, ip), ip)
    requires GreedyRun(g, true, down) && down[0] == Spot(up[|up| - 1].f, f.chunk[d.parent])
    requires SpotOk(g, up[|up| - 1]) && NoCandidate(g, up[|up| - 1], false)
    requires SpotOk(g, down[|down| - 1]) && NoCandidate(g, down[|down| - 1], true)
    ensures Topological(g, down[|down| - 1].f)
    ensures AtLeastAsGood(g, down[|down| - 1].f, f)
  {
    hide ChunkRate, Forest.Valid, Forest.Deactivated, TopNeedsBottom, Topological, MergeReady, LooseBelow, LowSide,
         HighSide, LowArea, Area, Gains, NoCandidate, Stepped;
    var l, r := f.chunk[d.parent], ChunkRate(g, f, f.chunk[d.parent]);
    SplitUpPhase(g, f, d, ip);
    var rho := UpPhaseRun(g, up, |up| - 1, l, r, DiagramOf(g, f), DeficitOf(g, f));
    DownPhaseStart(g, f, up[|up| - 1], rho, l, r);
    CoversAll(g, down[0], true);
    var rho' := RunKeeps(g, down, |down| - 1, g.txns, true, -r, {}, DeficitOf(g, f));
    var s := down[|down| - 1];
    MergeDone(g, s, rho', true);
    forall lam: real
      ensures Diagram(g, s.f, lam) >= Diagram(g, f, lam)
    {
      assert SignedArea(g, s.f, true, lam) >= Deficit(g, f, lam);
      DeficitDual(g, f, lam);
      DeficitDual(g, s.f, lam);
    }
  }

  // ---- Self-merge

  /** Splitting and merging back along another dependency only renames the chunk. */
  lemma SelfMergeParts(g: Cluster, f: Forest, d: Dep, ip: nat, e: Dep)
    requires Fits(g, f) && f.Valid(g) && f.CanDeactivate(d, ip) && e in g.deps
    requires e.child in f.Deactivated(d, ip).Part(ip) && e.parent in f.Deactivated(d, ip).Part(f.chunk[d.parent])
    ensures var f1, ic := f.Deactivated(d, ip), f.chunk[d.parent];
            && f1.Valid(g) && f1.CanActivate(g, e) && f1.chunk[e.child] == ip && f1.chunk[e.parent] == ic
            && f1.Activated(e).Valid(g)
            && f1.Activated(e).chunk.Keys == f.chunk.Keys
            && f1.Activated(e).Part(ip) == f.Part(ic)
            && (forall t | t in f.chunk :: f1.Activated(e).chunk[t] == if f.chunk[t] == ic then ip else f.chunk[t])
            && (forall i | i != ip && i != ic :: f1.Activated(e).Part(i) == f.Part(i))
            && f1.Activated(e).chunk.Values == f.chunk.Values + {ip} - {ic}
  {
    var f1, ic := f.Deactivated(d, ip), f.chunk[d.parent];
    DeactivatedParts(f, g, d, ip);
    DeactivatedValid(f, g, d, ip);
    SplitChunk(g, f, d, ip, e.child);
    SplitChunk(g, f, d, ip, e.parent);
    hide Forest.Deactivated, Forest.Activated, Forest.Valid;
    ActivatedValid(f1, g, e);
    ActivatedFresh(f1, g, e);
    forall t | t in f.chunk
      ensures f1.Activated(e).chunk[t] == if f.chunk[t] == ic then ip else f.chunk[t]
    {
      SplitChunk(g, f, d, ip, t);
      MergedChunk(g, f1, e, t);
    }
  }

  lemma SelfMergeGains(g: Cluster, f: Forest, d: Dep, ip: nat, e: Dep, lam: real)
    requires Fits(g, f) && f.Valid(g) && f.CanDeactivate(d, ip) && e in g.deps
    requires e.child in f.Deactivated(d, ip).Part(ip) && e.parent in f.Deactivated(d, ip).Part(f.chunk[d.parent])
    ensures var f2, ic, m := f.Deactivated(d, ip).Activated(e), f.chunk[d.parent], Gains(g, f, lam);
            Fits(g, f2) && ic in m && ip !in m && Gains(g, f2, lam) == (m - {ic})[ip := m[ic]]
  {
    hide Forest.Deactivated, Forest.Activated, Forest.Valid, Cluster.GainOf;
    SelfMergeParts(g, f, d, ip, e);
    var f2, ic, m := f.Deactivated(d, ip).Activated(e), f.chunk[d.parent], Gains(g, f, lam);
    assert Gains(g, f2, lam).Keys == m.Keys + {ip} - {ic};
  }

  /** A self-merge keeps the state topological and the diagram as it was. */
  lemma ImproveSelfMerge(g: Cluster, f: Forest, d: Dep, ip: nat, e: Dep)
    requires Fits(g, f) && f.Valid(g) && f.CanDeactivate(d, ip) && e in g.deps && Topological(g, f)
    requires e.child in f.Deactivated(d, ip).Part(ip) && e.parent in f.Deactivated(d, ip).Part(f.chunk[d.parent])
    ensures f.Deactivated(d, ip).CanActivate(g, e)
    ensures var f2 := f.Deactivated(d, ip).Activated(e);
            Fits(g, f2) && Topological(g, f2) && forall lam: real :: Diagram(g, f2, lam) == Diagram(g, f, lam)
  {
    hide Forest.Deactivated, Forest.Activated, Forest.Valid, Area, Gains, Cluster.RateOf;
    SelfMergeParts(g, f, d, ip, e);
    var f2, ic := f.Deactivated(d, ip).Activated(e), f.chunk[d.parent];
    forall lam: real
      ensures Diagram(g, f2, lam) == Diagram(g, f, lam)
    {
      SelfMergeGains(g, f, d, ip, e, lam);
      var m := Gains(g, f, lam);
      AreaRemove(m, ic);
      AreaUpdate(m - {ic}, ip, m[ic]);
    }
    forall h | h in g.deps && Between(f2, h)
      ensures InOrder(g, f2, h)
    {
      assert Between(f, h) && InOrder(g, f, h);
    }
  }
}
