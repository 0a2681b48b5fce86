/** Linearizing a dependency graph: the direct dependencies are the reduced parents. */
module LinearizeGraph {
  import opened FeeFracs
  import opened Clusters
  import opened Linearizations
  import opened Ancestry
  import opened DepGraphs
  import Linearize
  import ForestCosts
  import Emission
  import opened EmissionOrder
  import opened Chunking
  import opened Diagrams
  import opened Forests
  import MinimizeQueue

  /** Read the cluster off the graph. */
  method ReadCluster(graph: DepGraph) returns (g: Cluster)
    requires graph.Valid() && IsAcyclic(graph.Up())
    ensures g == ClusterOf(graph.Up(), graph.Fees())
  {
    hide IsOrder, IsAcyclic, Reduced, DepsOf, Sound, UpMap, FeeMap, Generates;
    ghost var up := graph.Up();
    Positions(graph.entries, graph.used);
    var deps: set<Dep> := {};
    var fees: map<nat, FeeFrac> := map[];
    var todo := graph.used;
    assert graph.used - todo == {};
    NoDeps(graph.entries, up);
    while todo != {}
      invariant todo <= graph.used && fees == FeeMap(graph.entries, graph.used - todo)
      invariant deps == DepsOf(up, graph.used - todo)
      decreases |todo|
    {
      var t :| t in todo;
      var parents := graph.GetReducedParents(t);
      MoreDeps(graph.entries, up, graph.used - todo, t);
      assert graph.used - todo + {t} == graph.used - (todo - {t});
      deps := deps + set p | p in parents :: Dep(p, t);
      fees := fees[t := graph.entries[t].feerate];
      todo := todo - {t};
    }
    assert graph.used - todo == graph.used;
    g := Cluster(graph.used, deps, fees);
    AllDeps(up, graph.Fees());
  }

  lemma Positions(entries: seq<Entry>, used: set<nat>)
    requires Sound(entries, used)
    ensures UpMap(entries, used).Keys == used && forall t | t in used :: t < |entries|
  {
  }

  ghost function DepsOf(up: map<nat, set<nat>>, s: set<nat>): set<Dep>
    requires s <= up.Keys
  {
    set t, p | t in s && p in Reduced(up, t) :: Dep(p, t)
  }

  lemma MoreDeps(entries: seq<Entry>, up: map<nat, set<nat>>, s: set<nat>, t: nat)
    requires s <= up.Keys && t in up && t < |entries|
    ensures DepsOf(up, s + {t}) == DepsOf(up, s) + set p | p in Reduced(up, t) :: Dep(p, t)
    ensures FeeMap(entries, s + {t}) == FeeMap(entries, s)[t := entries[t].feerate]
  {
    hide Reduced;
  }

  lemma NoDeps(entries: seq<Entry>, up: map<nat, set<nat>>)
    ensures DepsOf(up, {}) == {} && FeeMap(entries, {}) == map[]
  {
  }

  lemma AllDeps(up: map<nat, set<nat>>, fees: map<nat, FeeFrac>)
    ensures DepsOf(up, up.Keys) == ClusterOf(up, fees).deps
  {
    hide Reduced;
  }

  /** Linearize a graph of transactions. Every transaction comes after its ancestors, the result is never worse than a
      valid old linearization, and it consists of the chunks of a forest in the prescribed order. If `optimal` is
      returned, it is at least as good as any, and its chunks are those of the forest, none of which can be split. */
  method LinearizeDepGraph(graph: DepGraph, maxCost: nat, last: (nat, nat) -> bool, prior: seq<nat>,
                           isTopological: bool)
    returns (l: seq<nat>, optimal: bool, cost: nat, ghost f: Forest, ghost chunks: seq<nat>, ghost segs: seq<seq<nat>>,
             ghost run: seq<ForestCosts.Moment>)
    requires graph.Valid() && IsAcyclic(graph.Up()) && (forall t | t in graph.used :: graph.entries[t].feerate.size > 0)
    requires Emission.StrictOrder(graph.used, last) && Elems(prior) <= graph.used
    requires isTopological && prior != [] ==>
             Distinct(prior) && Elems(prior) == graph.used && AncestorsFirst(graph.Up(), prior)
    ensures Distinct(l) && Elems(l) == graph.used && AncestorsFirst(graph.Up(), l)
    ensures var g := ClusterOf(graph.Up(), graph.Fees());
            && Elems(l) <= g.feerate.Keys
            && (Distinct(prior) && Elems(prior) == graph.used && AncestorsFirst(graph.Up(), prior) ==>
                  forall lam: real :: Peak(g, prior, lam) <= Peak(g, l, lam))
            && Fits(g, f) && f.Valid(g) && Emission.TxGreedy(g, f, last, l) && LaidOut(g, f, last, chunks, segs, l)
            && (optimal ==>
                Optimal(g, l) && MinimizeQueue.AllMinimal(g, f) && Chunked(g, segs, l) && |segs| == |f.chunk.Values|)
            && (optimal || cost >= maxCost) && ForestCosts.Performed(g, run, f, cost)
            && ForestCosts.WithinBudget(ForestCosts.Begins(run), maxCost)
  {
    hide ForestCosts.Performed, ForestCosts.WithinBudget, ForestCosts.Begins, IsOrder, IsAcyclic, IsReduced, Reduced,
         Cluster.Acyclic, Peak, Optimal, AncestorsFirst, ParentsFirst, Distinct, Elems, Emission.StrictOrder,
         Emission.TxGreedy, LaidOut, Chunked, MinimizeQueue.AllMinimal, Forest.Valid;
    ghost var up, fees := graph.Up(), graph.Fees();
    UpMapIs(graph.entries, graph.used);
    ClusterValid(up, fees);
    ClusterAcyclic(up, fees);
    var g := ReadCluster(graph);
    if Distinct(prior) && Elems(prior) == graph.used {
      LinearizationIff(up, fees, prior);
    }
    l, optimal, cost, f, chunks, segs, run := Linearize.Linearize(g, maxCost, last, prior, isTopological);
    LinearizationIff(up, fees, l);
  }
}
