/** Upward and downward merge sequences.

    Both directions share one statement. Going up, a chunk looks at the chunks it depends on, by
    feerate; going down, at the chunks depending on it, by negated feerate. In both, a dependency
    is in order when the value at its near end is below the value at its far end, and the chunk
    merges with the lowest far chunk whose value is not above its own. */
module Merging {
  import opened FeeFracs
  import opened Clusters
  import opened Forests
  import opened Diagrams

  ghost function Near(down: bool, d: Dep): nat {
    if down then d.parent else d.child
  }

  ghost function Far(down: bool, d: Dep): nat {
    if down then d.child else d.parent
  }

  ghost function Signed(down: bool, x: real): real {
    if down then -x else x
  }

  ghost function Value(g: Cluster, f: Forest, down: bool, i: nat): real
    requires Fits(g, f) && i in f.chunk.Values
  {
    Signed(down, ChunkRate(g, f, i))
  }

  /** A dependency between two different chunks. */
  ghost predicate Between(f: Forest, d: Dep) {
    d.parent in f.chunk && d.child in f.chunk && f.chunk[d.parent] != f.chunk[d.child]
  }

  /** The parent's chunk has strictly higher feerate than the child's. */
  ghost predicate InOrder(g: Cluster, f: Forest, d: Dep)
    requires Fits(g, f) && Between(f, d)
  {
    ChunkRate(g, f, f.chunk[d.child]) < ChunkRate(g, f, f.chunk[d.parent])
  }

  ghost predicate Topological(g: Cluster, f: Forest)
    requires Fits(g, f)
  {
    forall d | d in g.deps && Between(f, d) :: InOrder(g, f, d)
  }

  /** Dependency `d` lies in `scope` and leaves chunk `k` in the given direction. */
  ghost predicate Leaves(f: Forest, scope: set<nat>, down: bool, k: nat, d: Dep) {
    Between(f, d) && d.parent in scope && d.child in scope && f.chunk[Near(down, d)] == k
  }

  /** State of a merge sequence at chunk `k`. Dependencies within `scope` are in order, except
      those leaving `k`, and those arriving at a chunk in `loose`. The threshold `rho` separates
      what `k` sees ahead of it from what sees `k`. */
  ghost predicate MergeReady(g: Cluster, f: Forest, scope: set<nat>, down: bool, k: nat, rho: real, loose: set<nat>)
    requires Fits(g, f)
  {
    && k in f.chunk.Values && k !in loose
    && (forall d | d in g.deps && Between(f, d) && d.parent in scope && d.child in scope
                   && f.chunk[Near(down, d)] != k && f.chunk[Far(down, d)] !in loose :: InOrder(g, f, d))
    && (forall d | d in g.deps && Leaves(f, scope, down, k, d) :: Value(g, f, down, f.chunk[Far(down, d)]) >= rho)
    && (forall d | d in g.deps && Leaves(f, scope, !down, k, d) :: Value(g, f, down, f.chunk[Near(down, d)]) < rho)
    && Value(g, f, down, k) >= rho
  }

  /** Chunks in `loose` lie below `rho`, and so does all that arrives at them. */
  ghost predicate LooseBelow(g: Cluster, f: Forest, scope: set<nat>, down: bool, rho: real, loose: set<nat>)
    requires Fits(g, f)
  {
    && (forall l | l in loose && l in f.chunk.Values :: Value(g, f, down, l) < rho)
    && (forall d | d in g.deps && Between(f, d) && d.parent in scope && d.child in scope
                   && f.chunk[Far(down, d)] in loose :: Value(g, f, down, f.chunk[Near(down, d)]) < rho)
  }

  /** `d` leads to the lowest chunk ahead of `k`, which is not above `k`. */
  ghost predicate Candidate(g: Cluster, f: Forest, scope: set<nat>, down: bool, k: nat, d: Dep)
    requires Fits(g, f) && k in f.chunk.Values
  {
    && d in g.deps && Leaves(f, scope, down, k, d)
    && Value(g, f, down, f.chunk[Far(down, d)]) <= Value(g, f, down, k)
    && (forall e | e in g.deps && Leaves(f, scope, down, k, e) ::
          Value(g, f, down, f.chunk[Far(down, d)]) <= Value(g, f, down, f.chunk[Far(down, e)]))
  }

  /** Feerates after a merge: those of other chunks stay, that of the merged chunk lies between. */
  lemma MergedValues(g: Cluster, f: Forest, down: bool, d: Dep)
    requires Fits(g, f) && f.Valid(g) && f.CanActivate(g, d)
    ensures var f' := f.Activated(d);
            var ip, ic := f.chunk[d.parent], f.chunk[d.child];
            && Fits(g, f')
            && f'.chunk.Values == f.chunk.Values - {ip}
            && (forall i | i in f'.chunk.Values && i != ic :: Value(g, f', down, i) == Value(g, f, down, i))
            && (Value(g, f, down, ip) <= Value(g, f, down, ic) ==>
                  Value(g, f, down, ip) <= Value(g, f', down, ic) <= Value(g, f, down, ic))
            && (Value(g, f, down, ic) <= Value(g, f, down, ip) ==>
                  Value(g, f, down, ic) <= Value(g, f', down, ic) <= Value(g, f, down, ip))
  {
    hide Cluster.FeeOf, Cluster.RateOf, Closed, Connected, IsTop;
    var ip, ic := f.chunk[d.parent], f.chunk[d.child];
    ActivatedFresh(f, g, d);
    PartNonEmpty(f, ip);
    PartNonEmpty(f, ic);
    g.RateOfUnion(f.Part(ip), f.Part(ic));
  }

  /** Chunk membership after a merge. */
  lemma MergedChunk(g: Cluster, f: Forest, d: Dep, t: nat)
    requires f.CanActivate(g, d) && t in f.chunk
    ensures t in f.Activated(d).chunk
    ensures f.Activated(d).chunk[t] == if f.chunk[t] == f.chunk[d.parent] then f.chunk[d.child] else f.chunk[t]
  {
  }

  /** How a single dependency looks after one merge. */
  lemma MergeStepDep(g: Cluster, f: Forest, scope: set<nat>, down: bool, k: nat, rho: real, loose: set<nat>, d: Dep,
                     e: Dep)
    requires Fits(g, f) && f.Valid(g) && MergeReady(g, f, scope, down, k, rho, loose)
    requires LooseBelow(g, f, scope, down, rho, loose) && Candidate(g, f, scope, down, k, d)
    requires f.CanActivate(g, d) && Fits(g, f.Activated(d))
    requires e in g.deps && e.parent in scope && e.child in scope && Between(f.Activated(d), e)
    ensures var f', k', rho' := f.Activated(d), f.chunk[d.child], Value(g, f, down, f.chunk[Far(down, d)]);
            && (f'.chunk[Near(down, e)] != k' && f'.chunk[Far(down, e)] !in loose ==> InOrder(g, f', e))
            && (f'.chunk[Near(down, e)] == k' ==> Value(g, f', down, f'.chunk[Far(down, e)]) >= rho')
            && (f'.chunk[Far(down, e)] == k' ==> Value(g, f', down, f'.chunk[Near(down, e)]) < rho')
            && (f'.chunk[Far(down, e)] in loose ==> Value(g, f', down, f'.chunk[Near(down, e)]) < rho')
  {
    hide ChunkRate, Forest.Valid, Forest.Activated;
    MergedValues(g, f, down, d);
    MergedChunk(g, f, d, e.parent);
    MergedChunk(g, f, d, e.child);
    var j := f.chunk[Far(down, d)];
    assert Between(f, e);
    assert f.chunk[Near(down, e)] == k ==> Leaves(f, scope, down, k, e);
    assert f.chunk[Far(down, e)] == k ==> Leaves(f, scope, !down, k, e);
  }

  /** One merge keeps the merge sequence's state, with the absorbed chunk as new threshold. */
  lemma MergeStepReady(g: Cluster, f: Forest, scope: set<nat>, down: bool, k: nat, rho: real, loose: set<nat>, d: Dep)
    requires Fits(g, f) && f.Valid(g) && MergeReady(g, f, scope, down, k, rho, loose)
    requires LooseBelow(g, f, scope, down, rho, loose) && Candidate(g, f, scope, down, k, d)
    ensures f.CanActivate(g, d)
    ensures var f', rho' := f.Activated(d), Value(g, f, down, f.chunk[Far(down, d)]);
            && Fits(g, f') && rho <= rho'
            && MergeReady(g, f', scope, down, f.chunk[d.child], rho', loose)
            && LooseBelow(g, f', scope, down, rho', loose)
  {
    hide ChunkRate, Forest.Valid, Forest.Activated, InOrder;
    var f', rho' := f.Activated(d), Value(g, f, down, f.chunk[Far(down, d)]);
    MergedValues(g, f, down, d);
    forall e | e in g.deps && e.parent in scope && e.child in scope && Between(f', e)
      ensures (f'.chunk[Near(down, e)] != f.chunk[d.child] && f'.chunk[Far(down, e)] !in loose ==> InOrder(g, f', e))
      ensures (f'.chunk[Near(down, e)] == f.chunk[d.child] ==> Value(g, f', down, f'.chunk[Far(down, e)]) >= rho')
      ensures (f'.chunk[Far(down, e)] == f.chunk[d.child] ==> Value(g, f', down, f'.chunk[Near(down, e)]) < rho')
      ensures (f'.chunk[Far(down, e)] in loose ==> Value(g, f', down, f'.chunk[Near(down, e)]) < rho')
    {
      MergeStepDep(g, f, scope, down, k, rho, loose, d, e);
    }
  }

  // ---- Diagrams along a merge sequence

  ghost function Weights(g: Cluster, f: Forest, down: bool, lam: real): map<nat, real>
    requires Fits(g, f)
  {
    if down then Negated(Gains(g, f, lam)) else Gains(g, f, lam)
  }

  lemma WeightSign(g: Cluster, f: Forest, down: bool, i: nat, lam: real)
    requires Fits(g, f) && i in f.chunk.Values
    ensures i in Weights(g, f, down, lam)
    ensures Weights(g, f, down, lam)[i] > 0.0 <==> Value(g, f, down, i) > Signed(down, lam)
  {
    hide ChunkRate, ChunkGain;
    ChunkGainSign(g, f, i, lam);
  }

  lemma WeightsActivated(g: Cluster, f: Forest, down: bool, d: Dep, lam: real)
    requires Fits(g, f) && f.Valid(g) && f.CanActivate(g, d)
    ensures var ip, ic, m := f.chunk[d.parent], f.chunk[d.child], Weights(g, f, down, lam);
            && Fits(g, f.Activated(d))
            && ip in m && ic in m
            && Weights(g, f.Activated(d), down, lam) == (m - {ip})[ic := m[ip] + m[ic]]
  {
    hide ChunkGain, Forest.Valid, Forest.Activated;
    GainsActivated(g, f, d, lam);
  }

  ghost function SignedArea(g: Cluster, f: Forest, down: bool, lam: real): real
    requires Fits(g, f)
  {
    Area(Weights(g, f, down, lam))
  }

  /** The diagram is nowhere below `base`, and beyond the threshold not even without chunk `k`. */
  ghost predicate AreaReady(g: Cluster, f: Forest, down: bool, k: nat, rho: real, base: real -> real)
    requires Fits(g, f) && k in f.chunk.Values
  {
    forall lam: real ::
      && SignedArea(g, f, down, lam) >= base(lam)
      && (Signed(down, lam) >= rho && k in Weights(g, f, down, lam) ==>
            SignedArea(g, f, down, lam) - Pos(Weights(g, f, down, lam)[k]) >= base(lam))
  }

  /** One merge keeps the diagram at least as good: either both chunks are above `lam`, and
      merging them loses nothing, or nothing absorbed so far was. */
  lemma MergeStepAreaAt(g: Cluster, f: Forest, down: bool, k: nat, rho: real, d: Dep, base: real, lam: real)
    requires Fits(g, f) && f.Valid(g) && f.CanActivate(g, d) && f.chunk[Near(down, d)] == k
    requires k in Weights(g, f, down, lam)
    requires rho <= Value(g, f, down, f.chunk[Far(down, d)]) <= Value(g, f, down, k)
    requires SignedArea(g, f, down, lam) >= base
    requires Signed(down, lam) >= rho ==> SignedArea(g, f, down, lam) - Pos(Weights(g, f, down, lam)[k]) >= base
    ensures Fits(g, f.Activated(d)) && f.chunk[d.child] in Weights(g, f.Activated(d), down, lam)
    ensures SignedArea(g, f.Activated(d), down, lam) >= base
    ensures Signed(down, lam) >= Value(g, f, down, f.chunk[Far(down, d)]) ==>
              SignedArea(g, f.Activated(d), down, lam) - Pos(Weights(g, f.Activated(d), down, lam)[f.chunk[d.child]]) >=
                base
  {
    hide Value, Area, Weights, Forest.Valid, Forest.Activated;
    var m, ip, ic := Weights(g, f, down, lam), f.chunk[d.parent], f.chunk[d.child];
    WeightsActivated(g, f, down, d, lam);
    AreaMerge(m, ip, ic);
    WeightSign(g, f, down, ip, lam);
    WeightSign(g, f, down, ic, lam);
  }

  lemma MergeStepArea(g: Cluster, f: Forest, down: bool, k: nat, rho: real, d: Dep, base: real -> real)
    requires Fits(g, f) && f.Valid(g) && f.CanActivate(g, d) && f.chunk[Near(down, d)] == k && k in f.chunk.Values
    requires AreaReady(g, f, down, k, rho, base)
    requires rho <= Value(g, f, down, f.chunk[Far(down, d)]) <= Value(g, f, down, k)
    ensures Fits(g, f.Activated(d)) && f.chunk[d.child] in f.Activated(d).chunk.Values
    ensures AreaReady(g, f.Activated(d), down, f.chunk[d.child], Value(g, f, down, f.chunk[Far(down, d)]), base)
  {
    hide Value, Area, Weights, Forest.Valid, Forest.Activated;
    MergedValues(g, f, down, d);
    var f' := f.Activated(d);
    forall lam: real
      ensures SignedArea(g, f', down, lam) >= base(lam)
      ensures (Signed(down, lam) >= Value(g, f, down, f.chunk[Far(down, d)])
               && f.chunk[d.child] in Weights(g, f', down, lam) ==>
            SignedArea(g, f', down, lam) - Pos(Weights(g, f', down, lam)[f.chunk[d.child]]) >= base(lam))
    {
      WeightSign(g, f, down, k, lam);
      MergeStepAreaAt(g, f, down, k, rho, d, base(lam), lam);
    }
  }
}
