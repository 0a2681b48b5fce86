/** Reading the data structure: feerates, neighbouring chunks and dependencies between chunks. */
module ForestQueries {
  import opened Options
  import opened FeeFracs
  import opened Clusters
  import opened Forests
  import opened ForestData
  import opened ForestUpdates
  import opened Diagrams
  import opened Merging
  import opened Improving
  import opened Optimality
  import opened Minimizing
  import opened MinimizeQueue
  import opened ForestSteps

  lemma ViewFits(g: Cluster, d: Data)
    requires RepOk(g, d)
    ensures Fits(g, View(g, d)) && View(g, d).Valid(g)
    ensures View(g, d).chunk.Values == d.chunkIdxs
    ensures forall i | i in d.chunkIdxs :: i < |d.sets| && View(g, d).Part(i) == d.sets[i].txns
    ensures forall t | t in g.txns :: t in d.tx && View(g, d).chunk[t] == d.tx[t].chunk
    ensures |d.reach| == |d.sets|
  {
    hide Cluster.FeeOf, View, TopsOk, ReachOf, Cluster.Parents, Cluster.Children, Forest.Valid, Forest.Part;
    ViewChunks(g, d);
  }

  /** The stored feerate of a set is its feerate. */
  lemma StoredRate(g: Cluster, d: Data, i: nat)
    requires RepOk(g, d) && i in d.chunkIdxs
    ensures i < |d.sets| && d.sets[i].feerate.size > 0
    ensures Fits(g, View(g, d)) && i in View(g, d).chunk.Values
    ensures Rate(d.sets[i].feerate) == ChunkRate(g, View(g, d), i)
  {
    hide Cluster.FeeOf, View, TopsOk, ReachOf, Cluster.Parents, Cluster.Children, Forest.Valid, Forest.Part;
    ViewChunks(g, d);
    PartNonEmpty(View(g, d), i);
    g.SizePositive(d.sets[i].txns);
  }

  /** Feerate comparison in the direction of a merge. */
  predicate NotAbove(down: bool, a: FeeFrac, b: FeeFrac) {
    if down then !a.Lower(b) else !b.Lower(a)
  }

  lemma NotAboveIsValue(g: Cluster, d: Data, down: bool, i: nat, j: nat)
    requires RepOk(g, d) && i in d.chunkIdxs && j in d.chunkIdxs
    ensures i < |d.sets| && j < |d.sets|
    ensures Fits(g, View(g, d)) && i in View(g, d).chunk.Values && j in View(g, d).chunk.Values
    ensures NotAbove(down, d.sets[i].feerate, d.sets[j].feerate) <==>
            Value(g, View(g, d), down, i) <= Value(g, View(g, d), down, j)
  {
    hide RepOk, View, ChunkRate, Rate;
    StoredRate(g, d, i);
    StoredRate(g, d, j);
    CompareIsRate(d.sets[i].feerate, d.sets[j].feerate);
    CompareIsRate(d.sets[j].feerate, d.sets[i].feerate);
  }

  function Ahead(down: bool, r: Reach): set<nat> {
    if down then r.down else r.up
  }

  /** The stored neighbours are the far ends of the dependencies leaving the chunk. */
  lemma ReachLeaves(g: Cluster, d: Data, down: bool, k: nat, t: nat)
    requires RepOk(g, d) && k in d.chunkIdxs
    ensures k < |d.reach|
    ensures t in Ahead(down, d.reach[k]) <==>
            exists e :: e in g.deps && Leaves(View(g, d), g.txns, down, k, e) && Far(down, e) == t
  {
    hide RepOk, View, Leaves;
    ReachExact(g, d, k);
    if t in Ahead(down, d.reach[k]) {
      var e :| e in g.deps && Far(down, e) == t && Near(down, e) in d.sets[k].txns && t !in d.sets[k].txns;
      LeavesIff(g, d, down, k, e);
    }
    if e :| e in g.deps && Leaves(View(g, d), g.txns, down, k, e) && Far(down, e) == t {
      LeavesIff(g, d, down, k, e);
      if down { assert e.child in Children(g, d.sets[k].txns); } else { assert e.parent in Parents(g, d.sets[k].txns); }
    }
  }

  lemma LeavesIff(g: Cluster, d: Data, down: bool, k: nat, e: Dep)
    requires RepOk(g, d) && k in d.chunkIdxs && e in g.deps
    ensures k < |d.sets|
    ensures Leaves(View(g, d), g.txns, down, k, e) <==>
            Near(down, e) in d.sets[k].txns && Far(down, e) !in d.sets[k].txns
  {
    hide View, TopsOk, TxOk, SetsOk, Forest.Valid, Forest.Part, ChunksOk;
    ViewChunks(g, d);
    PartMember(View(g, d), e.parent, k);
    PartMember(View(g, d), e.child, k);
  }

  lemma ReachExact(g: Cluster, d: Data, k: nat)
    requires RepOk(g, d) && k in d.chunkIdxs
    ensures k < |d.reach| && k < |d.sets| && d.reach[k] == ReachOf(g, d.sets[k].txns)
  {
  }

  /** `j` is the lowest chunk ahead of `k`, and not above it. */
  ghost predicate BestAhead(g: Cluster, s: Spot, down: bool, j: nat)
    requires SpotOk(g, s)
  {
    && j in s.f.chunk.Values
    && Value(g, s.f, down, j) <= Value(g, s.f, down, s.k)
    && (exists e :: e in g.deps && Leaves(s.f, g.txns, down, s.k, e) && s.f.chunk[Far(down, e)] == j)
    && (forall e | e in g.deps && Leaves(s.f, g.txns, down, s.k, e) ::
          Value(g, s.f, down, j) <= Value(g, s.f, down, s.f.chunk[Far(down, e)]))
  }

  /** State of the candidate search after the chunks of the transactions in `seen`. */
  ghost predicate BestOf(g: Cluster, s: Spot, down: bool, seen: set<nat>, best: Option<nat>)
    requires SpotOk(g, s) && seen <= g.txns
  {
    && (best.None? ==> forall t | t in seen :: Value(g, s.f, down, s.f.chunk[t]) > Value(g, s.f, down, s.k))
    && (best.Some? ==>
          && best.value in s.f.chunk.Values
          && Value(g, s.f, down, best.value) <= Value(g, s.f, down, s.k)
          && (exists t :: t in seen && s.f.chunk[t] == best.value)
          && (forall t | t in seen :: Value(g, s.f, down, best.value) <= Value(g, s.f, down, s.f.chunk[t])))
  }

  /** The best candidate so far, its feerate, and the random tie-break it was drawn with. */
  datatype Choice = Choice(best: Option<nat>, feerate: FeeFrac, tiebreak: nat)

  /** Keep the best candidate, or replace it by the chunk `reached`. */
  function Consider(down: bool, choice: Choice, reached: nat, feerate: FeeFrac, tiebreak: nat): Choice {
    if !NotAbove(down, feerate, choice.feerate) then choice
    else if !NotAbove(down, choice.feerate, feerate) || tiebreak >= choice.tiebreak then
      Choice(Some(reached), feerate, tiebreak)
    else choice
  }

  ghost predicate ChoiceOk(g: Cluster, d: Data, s: Spot, down: bool, seen: set<nat>, choice: Choice)
    requires SpotOk(g, s) && seen <= g.txns
  {
    && BestOf(g, s, down, seen, choice.best)
    && (choice.best.None? ==> choice.tiebreak == 0)
    && var i := if choice.best.None? then s.k else choice.best.value;
    && i in d.chunkIdxs && i < |d.sets| && choice.feerate == d.sets[i].feerate
  }

  lemma BestStep(g: Cluster, s: Spot, down: bool, seen: set<nat>, best: Option<nat>, t: nat, more: set<nat>,
                 best': Option<nat>)
    requires SpotOk(g, s) && seen <= g.txns && BestOf(g, s, down, seen, best) && t in more && more <= g.txns
             && seen <= more
    requires forall u | u in more - seen :: s.f.chunk[u] == s.f.chunk[t]
    requires var bound := if best.None? then s.k else best.value;
             var reached := s.f.chunk[t];
             if Value(g, s.f, down, reached) <= Value(g, s.f, down, bound) then
               || best' == Some(reached)
               || (best' == best && best.Some? && Value(g, s.f, down, reached) == Value(g, s.f, down, bound))
             else best' == best
    ensures BestOf(g, s, down, more, best')
  {
    hide Value, Forest.Valid;
    if best.Some? && best' == best {
      var u :| u in seen && s.f.chunk[u] == best.value;
      assert u in more;
    }
  }

  lemma ConsiderOk(g: Cluster, d: Data, k: nat, down: bool, seen: set<nat>, choice: Choice, t: nat, more: set<nat>,
                   tiebreak: nat)
    requires RepOk(g, d) && SpotOk(g, Spot(View(g, d), k)) && seen <= more <= g.txns && t in more
    requires ChoiceOk(g, d, Spot(View(g, d), k), down, seen, choice)
    requires forall u | u in more - seen :: View(g, d).chunk[u] == View(g, d).chunk[t]
    ensures t in d.tx && d.tx[t].chunk < |d.sets|
    ensures ChoiceOk(g, d, Spot(View(g, d), k), down, more,
                     Consider(down, choice, d.tx[t].chunk, d.sets[d.tx[t].chunk].feerate, tiebreak))
  {
    hide RepOk, View, Value, BestOf, NotAbove, Forest.Valid;
    ReachedChunk(g, d, t);
    var reached, i := d.tx[t].chunk, if choice.best.None? then k else choice.best.value;
    NotAboveIsValue(g, d, down, reached, i);
    NotAboveIsValue(g, d, down, i, reached);
    BestStep(g, Spot(View(g, d), k), down, seen, choice.best, t, more,
             Consider(down, choice, reached, d.sets[reached].feerate, tiebreak).best);
  }

  lemma BestDone(g: Cluster, d: Data, down: bool, k: nat, best: Option<nat>)
    requires RepOk(g, d) && k in d.chunkIdxs && k < |d.reach| && Ahead(down, d.reach[k]) <= g.txns
    requires SpotOk(g, Spot(View(g, d), k)) && BestOf(g, Spot(View(g, d), k), down, Ahead(down, d.reach[k]), best)
    ensures best.None? ==> NoCandidate(g, Spot(View(g, d), k), down)
    ensures best.Some? ==> BestAhead(g, Spot(View(g, d), k), down, best.value)
  {
    hide RepOk, Value, View;
    var f := View(g, d);
    forall e | e in g.deps && Leaves(f, g.txns, down, k, e)
      ensures Far(down, e) in Ahead(down, d.reach[k])
    {
      ReachLeaves(g, d, down, k, Far(down, e));
    }
    if best.Some? {
      var t :| t in Ahead(down, d.reach[k]) && f.chunk[t] == best.value;
      ReachLeaves(g, d, down, k, t);
    }
  }

  lemma AheadInRange(g: Cluster, d: Data, down: bool, k: nat)
    requires RepOk(g, d) && k in d.chunkIdxs
    ensures k < |d.reach| && Ahead(down, d.reach[k]) <= g.txns
  {
    hide RepOk, View;
    ReachExact(g, d, k);
    forall t | t in Ahead(down, d.reach[k]) ensures t in g.txns {
      ReachLeaves(g, d, down, k, t);
    }
  }

  // ---- Counting the dependencies between two chunks

  ghost function Count(tx: map<nat, TxData>, s: set<nat>, bottom: set<nat>): nat
    requires s <= tx.Keys
  {
    if s == {} then 0 else |tx[Pick(s)].children * bottom| + Count(tx, s - {Pick(s)}, bottom)
  }

  lemma {:induction false} CountRemove(tx: map<nat, TxData>, s: set<nat>, bottom: set<nat>, t: nat)
    requires s <= tx.Keys && t in s
    ensures Count(tx, s, bottom) == |tx[t].children * bottom| + Count(tx, s - {t}, bottom)
    decreases |s|
  {
    var p := Pick(s);
    if p != t {
      assert s - {p} - {t} == s - {t} - {p};
      CountRemove(tx, s - {p}, bottom, t);
      CountRemove(tx, s - {t}, bottom, p);
    }
  }

  lemma CountPositive(g: Cluster, d: Data, top: set<nat>, bottom: set<nat>, e: Dep)
    requires RepOk(g, d) && top <= d.tx.Keys && e in g.deps && e.parent in top && e.child in bottom
    ensures Count(d.tx, top, bottom) > 0
  {
    hide Count;
    CountRemove(d.tx, top, bottom, e.parent);
    ChildrenExact(g, d, e.parent);
    assert e.child in g.Children(e.parent);
    assert e.child in d.tx[e.parent].children * bottom;
  }

  lemma ChildrenExact(g: Cluster, d: Data, t: nat)
    requires RepOk(g, d) && t in d.tx
    ensures d.tx[t].children == g.Children(t) && d.tx[t].parents == g.Parents(t)
  {
  }

  /** A dependency between two chunks can be activated. */
  lemma CanActivateBetween(g: Cluster, d: Data, i: nat, j: nat, p: nat, c: nat)
    requires RepOk(g, d) && i in d.chunkIdxs && j in d.chunkIdxs && i != j
    requires i < |d.sets| && j < |d.sets| && p in d.sets[i].txns && c in d.sets[j].txns
    requires p in d.tx && c in d.tx[p].children
    ensures c in d.tx && CanActivate(d, Dep(p, c)) && d.tx[p].chunk == i && d.tx[c].chunk == j && Dep(p, c) in g.deps
  {
    hide Cluster.FeeOf, View, TopsOk, Forest.Valid, ReachOf;
    ChildrenExact(g, d, p);
  }

  /** Merging with the best chunk ahead, along any dependency, is a greedy step. */
  lemma MergeIsGreedy(g: Cluster, s: Spot, down: bool, j: nat, e: Dep)
    requires SpotOk(g, s) && BestAhead(g, s, down, j) && e in g.deps && Leaves(s.f, g.txns, down, s.k, e)
    requires s.f.chunk[Far(down, e)] == j
    ensures e.parent in s.f.chunk && e.child in s.f.chunk
    ensures GreedyStep(g, down, s, Spot(s.f.Activated(e), s.f.chunk[e.child]), e)
  {
    hide Value, Forest.Valid, Forest.Activated;
  }

  lemma CountNone(tx: map<nat, TxData>, s: set<nat>, bottom: set<nat>)
    requires s <= tx.Keys
    ensures s == {} ==> Count(tx, s, bottom) == 0
  {
  }

  lemma ChunkTxns(g: Cluster, d: Data, i: nat)
    requires RepOk(g, d) && i in d.chunkIdxs
    ensures i < |d.sets| && d.sets[i].txns <= d.tx.Keys
  {
    hide Cluster.FeeOf, View, TopsOk, Forest.Valid, ReachOf, Cluster.Parents, Cluster.Children;
  }

  lemma NoneSeen(g: Cluster, d: Data, k: nat, down: bool)
    requires SpotOk(g, Spot(View(g, d), k)) && k in d.chunkIdxs && k < |d.sets|
    ensures ChoiceOk(g, d, Spot(View(g, d), k), down, {}, Choice(None, d.sets[k].feerate, 0))
  {
  }

  lemma ChoiceIsBest(g: Cluster, d: Data, k: nat, down: bool, seen: set<nat>, choice: Choice)
    requires SpotOk(g, Spot(View(g, d), k)) && seen <= g.txns && ChoiceOk(g, d, Spot(View(g, d), k), down, seen, choice)
    ensures BestOf(g, Spot(View(g, d), k), down, seen, choice.best)
  {
  }

  lemma ReachedChunk(g: Cluster, d: Data, t: nat)
    requires RepOk(g, d) && t in g.txns
    ensures t in d.tx && d.tx[t].chunk in d.chunkIdxs && d.tx[t].chunk < |d.sets| && t in d.sets[d.tx[t].chunk].txns
    ensures t in View(g, d).chunk && View(g, d).chunk[t] == d.tx[t].chunk
  {
    hide Cluster.FeeOf, TopsOk, Forest.Valid, ReachOf, Cluster.Parents, Cluster.Children, HasTop;
  }

  /** What leaves `todo` with the chunk of `t` all lies in that chunk. */
  lemma SeenChunk(g: Cluster, d: Data, all: set<nat>, todo: set<nat>, seen: set<nat>, t: nat)
    requires RepOk(g, d) && t in g.txns && all <= g.txns && t in all && t in d.tx && d.tx[t].chunk < |d.sets|
    requires todo == (all - seen) - d.sets[d.tx[t].chunk].txns && seen <= all
    ensures t in all - todo && seen <= all - todo
    ensures forall u | u in (all - todo) - seen :: u in View(g, d).chunk && View(g, d).chunk[u] == View(g, d).chunk[t]
  {
    hide RepOk, View;
    ReachedChunk(g, d, t);
    forall u | u in (all - todo) - seen
      ensures u in View(g, d).chunk && View(g, d).chunk[u] == View(g, d).chunk[t]
    {
      ReachedChunk(g, d, u);
      SameChunk(g, d, u, d.tx[t].chunk);
    }
  }

  lemma SameChunk(g: Cluster, d: Data, u: nat, i: nat)
    requires RepOk(g, d) && i in d.chunkIdxs && u in d.tx && i < |d.sets|
    ensures u in d.sets[i].txns <==> d.tx[u].chunk == i
  {
  }

  lemma BestIsChunk(g: Cluster, d: Data, k: nat, down: bool, j: nat)
    requires RepOk(g, d) && k in d.chunkIdxs && SpotOk(g, Spot(View(g, d), k))
             && BestAhead(g, Spot(View(g, d), k), down, j)
    ensures j in d.chunkIdxs && j != k && j < |d.sets| && k < |d.sets|
    ensures if down then exists e :: e in g.deps && e.parent in d.sets[k].txns && e.child in d.sets[j].txns
            else exists e :: e in g.deps && e.parent in d.sets[j].txns && e.child in d.sets[k].txns
  {
    hide RepOk, View, Value, Forest.Part, Forest.Valid;
    var f := View(g, d);
    ViewFits(g, d);
    var e :| e in g.deps && Leaves(f, g.txns, down, k, e) && f.chunk[Far(down, e)] == j;
    PartMember(f, e.parent, f.chunk[e.parent]);
    PartMember(f, e.child, f.chunk[e.child]);
  }

  lemma MergedBest(g: Cluster, d: Data, k: nat, down: bool, j: nat, e: Dep)
    requires RepOk(g, d) && k in d.chunkIdxs && SpotOk(g, Spot(View(g, d), k))
             && BestAhead(g, Spot(View(g, d), k), down, j)
    requires e in g.deps && e.parent in d.tx && e.child in d.tx && j != k
    requires if down then d.tx[e.parent].chunk == k && d.tx[e.child].chunk == j
             else d.tx[e.parent].chunk == j && d.tx[e.child].chunk == k
    ensures e.parent in View(g, d).chunk && e.child in View(g, d).chunk
    ensures GreedyStep(g, down, Spot(View(g, d), k), Spot(View(g, d).Activated(e), d.tx[e.child].chunk), e)
  {
    hide RepOk, Value, Forest.Part, Forest.Valid, Forest.Activated, View, BestAhead;
    ViewChunk(g, d);
    ViewFits(g, d);
    MergeIsGreedy(g, Spot(View(g, d), k), down, j, e);
  }

  /** The neighbours of one chunk overlap another exactly if there is a dependency between them. */
  lemma OverlapIff(g: Cluster, d: Data, i: nat, j: nat)
    requires RepOk(g, d) && i in d.chunkIdxs && j in d.chunkIdxs && i != j
    ensures i < |d.sets| && j < |d.sets| && i < |d.reach|
    ensures d.reach[i].up * d.sets[j].txns != {} <==>
            exists e :: e in g.deps && e.parent in d.sets[j].txns && e.child in d.sets[i].txns
    ensures d.reach[i].up * d.sets[j].txns != {} <==> TopNeedsBottom(g, View(g, d), i, j)
  {
    hide RepOk, View, Forest.Part;
    ViewFits(g, d);
    ReachExact(g, d, i);
    ChunksApart(g, d, i, j);
    if d.reach[i].up * d.sets[j].txns != {} {
      var t :| t in d.reach[i].up * d.sets[j].txns;
      var e :| e in g.deps && e.child in d.sets[i].txns && e.parent == t;
    }
    if e :| e in g.deps && e.parent in d.sets[j].txns && e.child in d.sets[i].txns {
      assert e.parent in Parents(g, d.sets[i].txns);
      assert e.parent in d.reach[i].up * d.sets[j].txns;
    }
  }

  lemma ChunksApart(g: Cluster, d: Data, i: nat, j: nat)
    requires RepOk(g, d) && i in d.chunkIdxs && j in d.chunkIdxs && i != j
    ensures i < |d.sets| && j < |d.sets| && d.sets[i].txns !! d.sets[j].txns
  {
    hide Cluster.FeeOf, TopsOk, View, TxOk, ChunksOk;
    ChunkSetsDisjoint(g, d, i, j);
  }

  // ---- Looking for a dependency to split

  /** Comparing stored feerates decides whether a dependency is worth splitting. */
  lemma ImprovableIff(g: Cluster, d: Data, e: Dep)
    requires RepOk(g, d) && HasTop(d, e)
    ensures e.parent in d.tx && d.tx[e.parent].chunk < |d.sets|
    ensures e in View(g, d).top && e.parent in View(g, d).chunk && View(g, d).chunk[e.parent] == d.tx[e.parent].chunk
    ensures Improvable(g, View(g, d), e) <==> d.sets[d.tx[e.parent].chunk].feerate.Lower(d.sets[TopIdx(d, e)].feerate)
  {
    hide RepOk, View, Rate, ChunkRate, Cluster.FeeOf;
    ViewFits(g, d);
    DeactivateView(g, d, e);
    var f, ic, t := View(g, d), d.tx[e.parent].chunk, d.sets[TopIdx(d, e)];
    TopStored(g, d, e);
    ReachedChunk(g, d, e.parent);
    StoredRate(g, d, ic);
    CompareIsRate(d.sets[ic].feerate, t.feerate);
    GainSign(t.feerate, ChunkRate(g, f, ic));
  }

  lemma TopStored(g: Cluster, d: Data, e: Dep)
    requires RepOk(g, d) && HasTop(d, e)
    ensures d.sets[TopIdx(d, e)].feerate == g.FeeOf(d.sets[TopIdx(d, e)].txns)
    ensures e in g.deps && d.sets[TopIdx(d, e)].txns <= g.txns
    ensures d.sets[TopIdx(d, e)].feerate.size > 0
  {
    hide View, Forest.Valid, ChunksOk, TopsOk, Cluster.FeeOf, Forest.Part;
    DeactivateView(g, d, e);
    g.SizePositive(d.sets[TopIdx(d, e)].txns);
  }

  /** The active dependencies of the transactions in `s`. */
  ghost function DepsOf(tx: map<nat, TxData>, s: set<nat>): set<Dep>
    requires s <= tx.Keys
  {
    set t, c | t in s && c in tx[t].activeChildren :: Dep(t, c)
  }

  /** `candidate` is worth splitting; without one, nothing seen so far is. */
  ghost predicate SplitOk(g: Cluster, d: Data, k: nat, seen: set<Dep>, candidate: Option<Dep>) {
    && (candidate.Some? ==>
          && HasTop(d, candidate.value) && d.tx[candidate.value.parent].chunk == k
          && Improvable(g, View(g, d), candidate.value))
    && (candidate.None? ==> forall e | e in seen :: !Improvable(g, View(g, d), e))
  }

  lemma SplitOkStep(g: Cluster, d: Data, k: nat, seen: set<Dep>, candidate: Option<Dep>, e: Dep,
                    candidate': Option<Dep>)
    requires SplitOk(g, d, k, seen, candidate) && HasTop(d, e) && d.tx[e.parent].chunk == k
    requires if Improvable(g, View(g, d), e) then candidate' == Some(e) || (candidate.Some? && candidate' == candidate)
             else candidate' == candidate
    ensures SplitOk(g, d, k, seen + {e}, candidate')
  {
    hide View, Improvable;
  }

  lemma DepsOfMore(tx: map<nat, TxData>, s: set<nat>, t: nat)
    requires s <= tx.Keys && t in tx
    ensures DepsOf(tx, s + {t}) == DepsOf(tx, s) + ChildDeps(t, tx[t].activeChildren)
  {
  }

  ghost function ChildDeps(t: nat, cs: set<nat>): set<Dep> {
    set c | c in cs :: Dep(t, c)
  }

  lemma SplitCandidatesAll(g: Cluster, d: Data, k: nat)
    requires RepOk(g, d) && k in d.chunkIdxs && k < |d.sets| && d.sets[k].txns <= d.tx.Keys
    requires forall e | e in DepsOf(d.tx, d.sets[k].txns) :: !Improvable(g, View(g, d), e)
    ensures ChunkOptimal(g, View(g, d), k)
  {
    hide RepOk, View, Improvable;
    var f := View(g, d);
    forall e | e in f.top && e.parent in f.chunk && f.chunk[e.parent] == k
      ensures !Improvable(g, f, e)
    {
      ActiveInChunk(g, d, k, e);
    }
  }

  lemma ActiveInChunk(g: Cluster, d: Data, k: nat, e: Dep)
    requires RepOk(g, d) && k in d.chunkIdxs && k < |d.sets| && d.sets[k].txns <= d.tx.Keys
    requires e in View(g, d).top && e.parent in View(g, d).chunk && View(g, d).chunk[e.parent] == k
    ensures e in DepsOf(d.tx, d.sets[k].txns)
  {
    hide View, Forest.Valid, Cluster.FeeOf, Cluster.Parents, Cluster.Children, ReachOf, SetsOk, Forest.Part;
    ViewTops(g, d);
    ViewChunks(g, d);
    SameChunk(g, d, e.parent, k);
  }

  lemma OwnActive(g: Cluster, d: Data, t: nat, c: nat)
    requires RepOk(g, d) && t in d.tx && c in d.tx[t].activeChildren
    ensures HasTop(d, Dep(t, c))
  {
    hide View, Forest.Valid, Cluster.FeeOf, ReachOf, SetsOk, TxOk, ChunksOk;
    assert IsActive(d, Dep(t, c));
  }

  // ---- Looking for an equal-feerate dependency

  lemma EqualTopIff(g: Cluster, d: Data, e: Dep)
    requires RepOk(g, d) && HasTop(d, e) && NothingImprovable(g, View(g, d))
    ensures e.parent in d.tx && d.tx[e.parent].chunk < |d.sets| && e in View(g, d).top
    ensures EqualTop(g, View(g, d), e) <==> !d.sets[TopIdx(d, e)].feerate.Lower(d.sets[d.tx[e.parent].chunk].feerate)
    ensures View(g, d).top[e] == d.sets[TopIdx(d, e)].txns
  {
    hide RepOk, View, Rate, ChunkRate, Cluster.FeeOf;
    ViewFits(g, d);
    DeactivateView(g, d, e);
    var f, ic, t := View(g, d), d.tx[e.parent].chunk, d.sets[TopIdx(d, e)];
    assert !Improvable(g, f, e);
    TopStored(g, d, e);
    ReachedChunk(g, d, e.parent);
    StoredRate(g, d, ic);
    CompareIsRate(t.feerate, d.sets[ic].feerate);
    GainSign(t.feerate, ChunkRate(g, f, ic));
  }

  /** Outcome of the search so far: whether any dependency has an equal-feerate top set, and one
      with the pivot in the right place. */
  ghost predicate ScanOk(g: Cluster, d: Data, k: nat, pivot: nat, down: bool, seen: set<Dep>, haveAny: bool,
                         candidate: Option<Dep>) {
    && (candidate.Some? ==>
          && HasTop(d, candidate.value) && d.tx[candidate.value.parent].chunk == k
          && EqualTop(g, View(g, d), candidate.value)
          && (pivot in d.sets[TopIdx(d, candidate.value)].txns <==> !down)
          && haveAny)
    && (candidate.None? ==> forall e | e in seen && HasTop(d, e) && EqualTop(g, View(g, d), e) ::
          pivot in d.sets[TopIdx(d, e)].txns <==> down)
    && (!haveAny ==> forall e | e in seen :: !EqualTop(g, View(g, d), e))
    && (haveAny ==> exists e :: HasTop(d, e) && d.tx[e.parent].chunk == k && EqualTop(g, View(g, d), e))
  }

  lemma ScanStep(g: Cluster, d: Data, k: nat, pivot: nat, down: bool, seen: set<Dep>, haveAny: bool,
                 candidate: Option<Dep>,
                 e: Dep, haveAny': bool, candidate': Option<Dep>)
    requires ScanOk(g, d, k, pivot, down, seen, haveAny, candidate) && HasTop(d, e) && d.tx[e.parent].chunk == k
    requires haveAny' == (haveAny || EqualTop(g, View(g, d), e))
    requires if EqualTop(g, View(g, d), e) && (pivot in d.sets[TopIdx(d, e)].txns <==> !down)
             then candidate' == Some(e) || (candidate.Some? && candidate' == candidate)
             else candidate' == candidate
    ensures ScanOk(g, d, k, pivot, down, seen + {e}, haveAny', candidate')
  {
    hide View, EqualTop;
  }

  /** What the finished search says about splits of the chunk. */
  lemma ScanDone(g: Cluster, d: Data, k: nat, pivot: nat, down: bool, haveAny: bool)
    requires RepOk(g, d) && NothingImprovable(g, View(g, d)) && k in d.chunkIdxs && k < |d.sets|
    requires d.sets[k].txns <= d.tx.Keys && pivot in d.sets[k].txns
    requires ScanOk(g, d, k, pivot, down, DepsOf(d.tx, d.sets[k].txns), haveAny, None)
    ensures if down then NoneBelow(g, View(g, d).Part(k), pivot) else NoneAbove(g, View(g, d).Part(k), pivot)
    ensures !haveAny ==> MinimalChunk(g, View(g, d).Part(k))
  {
    hide RepOk, View, NothingImprovable, NoneAbove, NoneBelow, MinimalChunk, EqualTop, Forest.Part;
    var f := View(g, d);
    ViewFits(g, d);
    forall e | e in f.top && e.parent in f.Part(k)
      ensures EqualTop(g, f, e) ==> haveAny && (pivot in f.top[e] <==> down)
    {
      PartMember(f, e.parent, k);
      ActiveInChunk(g, d, k, e);
      TopView(g, d, e);
    }
    if down {
      SearchedBelow(g, f, k, pivot);
    } else {
      SearchedAbove(g, f, k, pivot);
    }
    if !haveAny {
      SearchedBelow(g, f, k, pivot);
      SearchedAbove(g, f, k, pivot);
      BothSearched(g, f.Part(k), pivot);
    }
  }

  /** The finished search has found what there is. */
  lemma ScanFound(g: Cluster, d: Data, k: nat, pivot: nat, down: bool, haveAny: bool, candidate: Option<Dep>)
    requires RepOk(g, d) && k in d.chunkIdxs && k < |d.sets| && d.sets[k].txns <= d.tx.Keys
    requires ScanOk(g, d, k, pivot, down, DepsOf(d.tx, d.sets[k].txns), haveAny, candidate)
    ensures haveAny <==> AnyEqual(g, View(g, d), k)
    ensures if candidate.Some? then EqualAt(g, View(g, d), k, pivot, down, candidate.value)
            else !AnyEqualAt(g, View(g, d), k, pivot, down)
  {
    hide RepOk, View, EqualTop, Forest.Part;
    var f := View(g, d);
    ViewFits(g, d);
    forall e | HasTop(d, e) && d.tx[e.parent].chunk == k && EqualTop(g, f, e)
      ensures EqualIn(g, f, k, e) && f.top[e] == d.sets[TopIdx(d, e)].txns
    {
      DeactivateView(g, d, e);
    }
    forall e | EqualIn(g, f, k, e)
      ensures haveAny && (candidate.None? ==> (pivot in f.top[e] <==> down))
    {
      ViewFits(g, d);
      PartMember(f, e.parent, k);
      ActiveInChunk(g, d, k, e);
      TopView(g, d, e);
    }
  }

  lemma TopView(g: Cluster, d: Data, e: Dep)
    requires RepOk(g, d) && e in View(g, d).top
    ensures HasTop(d, e) && View(g, d).top[e] == d.sets[TopIdx(d, e)].txns
    ensures e.parent in View(g, d).chunk
  {
    hide View, Forest.Valid, ChunksOk, SetsOk, Cluster.FeeOf;
    ViewTops(g, d);
    ViewChunk(g, d);
  }

  lemma HeadEntry(g: Cluster, d: Data, q: seq<Entry>)
    requires RepOk(g, d) && q != [] && QueueMinimal(g, View(g, d), q)
    ensures q[0].chunk in d.chunkIdxs && q[0].chunk < |d.sets| && q[0].pivot in d.sets[q[0].chunk].txns
  {
    hide RepOk, View, QueueMinimal, NoneAbove, NoneBelow;
    ViewFits(g, d);
    HeadOk(g, View(g, d), q);
  }

  lemma ChunkNonEmpty(g: Cluster, d: Data, i: nat)
    requires RepOk(g, d) && i in d.chunkIdxs
    ensures i < |d.sets| && d.sets[i].txns != {} && d.sets[i].txns <= g.txns
  {
    hide Cluster.FeeOf, View, TopsOk, Forest.Valid, ReachOf, Cluster.Parents, Cluster.Children;
  }

  /** All about one transaction. */
  lemma TxFacts(g: Cluster, d: Data, t: nat)
    requires RepOk(g, d) && t in g.txns
    ensures t in d.tx && d.tx[t].chunk in d.chunkIdxs && d.tx[t].chunk < |d.sets| && t in d.sets[d.tx[t].chunk].txns
    ensures t in View(g, d).chunk && View(g, d).chunk[t] == d.tx[t].chunk
    ensures View(g, d).Part(d.tx[t].chunk) == d.sets[d.tx[t].chunk].txns
    ensures d.tx[t].children == g.Children(t) && d.tx[t].parents == g.Parents(t)
  {
    hide RepOk, View, Forest.Part;
    ReachedChunk(g, d, t);
    ChildrenExact(g, d, t);
    ViewFits(g, d);
  }

  lemma FitsOnly(g: Cluster, d: Data)
    requires RepOk(g, d)
    ensures Fits(g, View(g, d)) && View(g, d).chunk.Values == d.chunkIdxs
  {
    hide RepOk, View, Forest.Part;
    ViewFits(g, d);
  }

  lemma ChunkFacts(g: Cluster, d: Data, i: nat)
    requires RepOk(g, d) && i in d.chunkIdxs
    ensures i < |d.sets| && i in View(g, d).chunk.Values && View(g, d).Part(i) == d.sets[i].txns
  {
    hide RepOk, View, Forest.Part;
    ViewFits(g, d);
  }
}
