/** Finding or improving a linearization of a cluster. */
module Linearize {
  import opened Clusters
  import opened Forests
  import opened Diagrams
  import opened Merging
  import opened Improving
  import opened Linearizations
  import opened Optimality
  import opened Minimizing
  import opened MinimizeQueue
  import opened ForestQueries
  import opened ForestUpdates
  import opened SpanningForest
  import ForestCosts
  import ForestSteps
  import Emission
  import opened EmissionOrder
  import opened Chunking

  /** With nothing left to improve, no linearization beats the forest's diagram. */
  lemma DiagramIsBest(g: Cluster, f: Forest, l: seq<nat>, lam: real)
    requires Fits(g, f) && f.Valid(g) && NothingImprovable(g, f) && IsLinearization(g, l)
    ensures Peak(g, l, lam) <= Diagram(g, f, lam)
  {
    hide Cluster.GainOf, Peak, Forest.Valid, NothingImprovable, Area;
    forall k | 0 <= k <= |l| ensures g.GainOf(Elems(l[..k]), lam) <= Diagram(g, f, lam) {
      PrefixClosed(g, l, k);
      ClosedSetBound(g, f, Elems(l[..k]), lam);
    }
    AreaAtLeastTotal(Gains(g, f, lam));
    PeakAtMost(g, l, lam, Diagram(g, f, lam));
  }

  lemma OptimalFrom(g: Cluster, f: Forest, l: seq<nat>)
    requires Fits(g, f) && f.Valid(g) && NothingImprovable(g, f) && IsLinearization(g, l)
    requires forall lam: real :: Peak(g, l, lam) >= Diagram(g, f, lam)
    ensures Optimal(g, l)
  {
    hide Peak, Diagram, Forest.Valid, NothingImprovable, IsLinearization;
    LinearizationElems(g, l);
    forall other: seq<nat>, lam: real | IsLinearization(g, other) && Elems(other) <= g.feerate.Keys
      ensures Peak(g, other, lam) <= Peak(g, l, lam)
    {
      DiagramIsBest(g, f, other, lam);
    }
  }

  lemma LinearizationElems(g: Cluster, l: seq<nat>)
    requires g.Valid() && IsLinearization(g, l)
    ensures Elems(l) <= g.feerate.Keys
  {
  }

  /** `f` does not fall below the linearization it was loaded from. */
  ghost predicate Retains(g: Cluster, f: Forest, prior: seq<nat>)
    requires Fits(g, f)
  {
    prior != [] && IsLinearization(g, prior) && Elems(prior) <= g.feerate.Keys ==>
      forall lam: real :: Diagram(g, f, lam) >= Peak(g, prior, lam)
  }

  lemma RetainsMore(g: Cluster, f: Forest, f': Forest, prior: seq<nat>)
    requires Fits(g, f) && Fits(g, f') && Retains(g, f, prior) && AtLeastAsGood(g, f', f)
    ensures Retains(g, f', prior)
  {
    hide Peak, Diagram, IsLinearization;
    if prior != [] && IsLinearization(g, prior) && Elems(prior) <= g.feerate.Keys {
      forall lam: real ensures Diagram(g, f', lam) >= Peak(g, prior, lam) {
        assert Diagram(g, f, lam) >= Peak(g, prior, lam);
      }
    }
  }

  /** Set up a topological forest, from an existing linearization if there is one. */
  method Start(g: Cluster, prior: seq<nat>, isTopological: bool) returns (forest: SpanningForestState)
    requires g.Valid() && Elems(prior) <= g.txns && (isTopological && prior != [] ==> IsLinearization(g, prior))
    ensures fresh(forest) && forest.g == g && forest.Valid() && forest.QueueOk() && forest.suboptimalChunks == []
    ensures Fits(g, forest.State()) && Topological(g, forest.State()) && Retains(g, forest.State(), prior)
    ensures forest.begins == []
  {
    hide ForestData.RepOk, ForestData.View, ForestCosts.Performed, ForestCosts.Begins, IsLinearization, Topological,
         Peak, Diagram;
    forest := new SpanningForestState(g);
    if prior != [] {
      ghost var runs := forest.LoadLinearization(prior);
      if !isTopological {
        ghost var run := forest.MakeTopological();
      }
    } else {
      ghost var run := forest.MakeTopological();
    }
  }

  /** Improve the forest until nothing is left to improve, or the budget is used up. */
  method OptimizeAll(forest: SpanningForestState, maxCost: nat, ghost prior: seq<nat>) returns (finished: bool)
    requires forest.Valid() && forest.QueueOk() && forest.suboptimalChunks == []
    requires Fits(forest.g, forest.State()) && Topological(forest.g, forest.State())
             && Retains(forest.g, forest.State(), prior)
    requires forest.cost < maxCost && ForestCosts.WithinBudget(forest.begins, maxCost)
    modifies forest
    ensures ForestCosts.WithinBudget(forest.begins, maxCost)
    ensures forest.Valid()
    ensures Fits(forest.g, forest.State()) && Topological(forest.g, forest.State())
            && Retains(forest.g, forest.State(), prior)
    ensures finished ==> NothingImprovable(forest.g, forest.State())
    ensures !finished ==> forest.cost >= maxCost
  {
    hide ForestData.RepOk, ForestData.View, ForestCosts.Performed, ForestCosts.Begins, Topological, Retains,
         NothingImprovable, OptimalExcept, AtLeastAsGood, ForestCosts.WithinBudget, ForestCosts.Began,
         ForestSteps.Optimizes;
    ghost var g := forest.g;
    finished := false;
    ghost var begins := forest.begins;
    forest.StartOptimizing();
    ForestCosts.BeganInBudget(begins, forest.begins, old(forest.cost), ForestCosts.OptimizeFirst, maxCost);
    while true
      invariant forest.Valid() && forest.QueueOk()
      invariant Fits(g, forest.State()) && Topological(g, forest.State()) && Retains(g, forest.State(), prior)
      invariant OptimalExcept(g, forest.State(), forest.suboptimalIdxs)
      invariant ForestCosts.WithinBudget(forest.begins, maxCost)
      invariant ForestCosts.MayStep(forest.begins, forest.cost, maxCost, true)
      decreases maxCost - forest.cost
    {
      ghost var f, begun, cost := forest.State(), forest.begins, forest.cost;
      var more := forest.OptimizeStep();
      ForestCosts.SteppedInBudget(begun, forest.begins, cost, true, maxCost);
      RetainsMore(g, f, forest.State(), prior);
      if !more {
        return true;
      }
      if forest.cost >= maxCost {
        return false;
      }
    }
  }

  /** Split chunks until all are minimal, or the budget is used up. */
  method MinimizeAll(forest: SpanningForestState, maxCost: nat) returns (finished: bool)
    requires forest.Valid() && Fits(forest.g, forest.State())
    requires NothingImprovable(forest.g, forest.State()) && Topological(forest.g, forest.State())
    requires forest.cost < maxCost && ForestCosts.WithinBudget(forest.begins, maxCost)
    modifies forest
    ensures ForestCosts.WithinBudget(forest.begins, maxCost)
    ensures forest.Minimizing() && Fits(forest.g, old(forest.State()))
    ensures forall lam: real :: Diagram(forest.g, forest.State(), lam) == Diagram(forest.g, old(forest.State()), lam)
    ensures finished ==> AllMinimal(forest.g, forest.State())
    ensures !finished ==> forest.cost >= maxCost
  {
    hide ForestData.RepOk, ForestData.View, ForestCosts.Performed, ForestCosts.Begins, Topological, NothingImprovable,
         AllMinimal, Diagram, WeaklyTopological, QueueMinimal, ForestCosts.WithinBudget, ForestCosts.Began,
         ForestSteps.Minimizes;
    finished := false;
    ghost var begins := forest.begins;
    forest.StartMinimizing();
    ForestCosts.BeganInBudget(begins, forest.begins, old(forest.cost), ForestCosts.MinimizeFirst, maxCost);
    while true
      invariant forest.Minimizing()
      invariant forall lam: real ::
                Diagram(forest.g, forest.State(), lam) == Diagram(forest.g, old(forest.State()), lam)
      invariant ForestCosts.WithinBudget(forest.begins, maxCost)
      invariant ForestCosts.MayStep(forest.begins, forest.cost, maxCost, false)
      decreases maxCost - forest.cost
    {
      ghost var begun, cost := forest.begins, forest.cost;
      var more := forest.MinimizeStep();
      if !more {
        return true;
      }
      ForestCosts.SteppedInBudget(begun, forest.begins, cost, false, maxCost);
      if forest.cost >= maxCost {
        return false;
      }
    }
  }

  /** Find a linearization, starting from an existing one if there is one. The result is valid and never worse than a
      valid existing one. It consists of the chunks of a forest `f` in the prescribed order. If `optimal` is returned,
      it is at least as good as any linearization, and its chunks are those of the forest, none of them splittable;
      otherwise the cost, which is that of the `run` of events that made the forest, used up the budget. */
  method Linearize(g: Cluster, maxCost: nat, last: (nat, nat) -> bool, prior: seq<nat>, isTopological: bool)
    returns (l: seq<nat>, optimal: bool, cost: nat, ghost f: Forest, ghost chunks: seq<nat>, ghost segs: seq<seq<nat>>,
             ghost run: seq<ForestCosts.Moment>)
    requires g.Valid() && g.Acyclic() && Emission.StrictOrder(g.txns, last)
    requires Elems(prior) <= g.txns && (isTopological && prior != [] ==> IsLinearization(g, prior))
    ensures IsLinearization(g, l) && Elems(l) <= g.feerate.Keys
    ensures IsLinearization(g, prior) ==>
            Elems(prior) <= g.feerate.Keys && forall lam: real :: Peak(g, prior, lam) <= Peak(g, l, lam)
    ensures Fits(g, f) && f.Valid(g) && WeaklyTopological(g, f) && Emission.TxGreedy(g, f, last, l)
    ensures LaidOut(g, f, last, chunks, segs, l)
    ensures optimal ==> Optimal(g, l) && AllMinimal(g, f) && Chunked(g, segs, l) && |segs| == |f.chunk.Values|
    ensures (optimal || cost >= maxCost) && ForestCosts.Performed(g, run, f, cost)
    ensures ForestCosts.WithinBudget(ForestCosts.Begins(run), maxCost)
  {
    hide LaidOut, Chunked, ForestData.RepOk, ForestData.View, ForestCosts.Performed, ForestCosts.Begins, Topological,
         NothingImprovable, AllMinimal, Diagram, WeaklyTopological, QueueMinimal, Peak, IsLinearization, Retains,
         Optimal, Emission.TxGreedy, Emission.StrictOrder, Cluster.Acyclic;
    var forest := Start(g, prior, isTopological);
    var finished := false;
    if forest.cost < maxCost {
      finished := OptimizeAll(forest, maxCost, prior);
    }
    optimal := false;
    TopologicalIsWeak(g, forest.State());
    if forest.cost < maxCost {
      ghost var before := forest.State();
      optimal := MinimizeAll(forest, maxCost);
      SameIsGood(g, forest.State(), before);
      RetainsMore(g, before, forest.State(), prior);
    }
    ViewFits(g, forest.Snapshot());
    f := forest.State();
    l, chunks, segs := forest.GetLinearization(last);
    cost, run := forest.cost, forest.history;
    LinearizationElems(g, l);
    RetainedPeak(g, f, prior, l);
    if optimal {
      OptimalFrom(g, f, l);
      MinimalIsChunked(g, f, last, chunks, segs, l);
    }
  }

  lemma RetainedPeak(g: Cluster, f: Forest, prior: seq<nat>, l: seq<nat>)
    requires g.Valid() && Fits(g, f) && Retains(g, f, prior) && Elems(l) <= g.feerate.Keys && IsLinearization(g, l)
    requires forall lam: real :: Peak(g, l, lam) >= Diagram(g, f, lam)
    ensures IsLinearization(g, prior) ==>
            Elems(prior) <= g.feerate.Keys && forall lam: real :: Peak(g, prior, lam) <= Peak(g, l, lam)
  {
    hide Diagram, IsLinearization, Cluster.GainOf;
    if IsLinearization(g, prior) {
      LinearizationElems(g, prior);
      forall lam: real ensures Peak(g, prior, lam) <= Peak(g, l, lam) {
        assert Peak(g, l, lam) >= Diagram(g, f, lam);
        PeakAtLeast(g, l, 0, lam);
      }
    }
  }
}
