/** The spanning-forest linearizer. */
module SpanningForest {
  import opened Options
  import opened FeeFracs
  import opened Clusters
  import opened Forests
  import opened ForestData
  import opened ForestUpdates
  import opened ForestQueries
  import opened Diagrams
  import opened Merging
  import opened Improving
  import opened Strictly
  import opened Linearizations
  import opened Optimality
  import opened Minimizing
  import opened PendingMerges
  import opened ForestStart
  import opened MinimizeQueue
  import Emission
  import opened EmissionOrder
  import opened Chunking
  import opened ForestShape
  import opened ForestSteps
  import ForestCosts

  /** A random draw: any value. */
  method Random() returns (r: nat)
  {
    var draw: int := *;
    r := if draw < 0 then -draw else draw;
  }

  class SpanningForestState {
    /** The cluster being linearized. */
    const g: Cluster
    /** Set indexes that are chunks. */
    var chunkIdxs: set<nat>
    var txData: map<nat, TxData>
    /** Chunks, and top sets of active dependencies. */
    var setInfo: seq<SetInfo>
    /** Out-of-chunk neighbours of each chunk. */
    var reachable: seq<Reach>
    /** Work done so far. */
    var cost: nat
    /** What it was done for. */
    ghost var history: seq<ForestCosts.Moment>
    /** What began, and at which cost. */
    ghost var begins: seq<ForestCosts.Begin>
    /** First-in first-out queue of chunks that may be improvable, and its elements. Entries may
        have stopped being chunks since they were added. */
    var suboptimalChunks: seq<nat>
    var suboptimalIdxs: set<nat>

    ghost function Snapshot(): Data
      reads this
    {
      Data(chunkIdxs, txData, setInfo, reachable)
    }

    ghost function State(): Forest
      reads this
    {
      View(g, Snapshot())
    }

    ghost predicate Valid()
      reads this
    {
      RepOk(g, Snapshot()) && ForestCosts.Performed(g, history, State(), cost) && begins == ForestCosts.Begins(history)
    }

    /** First-in first-out queue of chunks that may be split further. */
    var nonminimalChunks: seq<Entry>

    /** Every transaction in its own chunk. */
    constructor (g: Cluster)
      requires g.Valid()
      ensures this.g == g && Valid() && QueueOk() && suboptimalChunks == [] && begins == []
      ensures Singletons(State(), {})
    {
      hide Linked, AllAlone, RepOk, View, Singletons;
      var tx, sets, order := LinkAll(g);
      var reach := ReachAll(g, tx, order);
      this.g := g;
      chunkIdxs, txData, setInfo, reachable := Fill(|sets|), tx, sets, reach;
      suboptimalChunks, suboptimalIdxs, nonminimalChunks := [], {}, [];
      cost := (39 + 48) * |g.txns| + 4 * |g.deps|;
      LinkDone(g, Data(Fill(|sets|), tx, sets, reach), order);
      AloneRep(g, Data(Fill(|sets|), tx, sets, reach), order);
      AloneForest(g, Data(Fill(|sets|), tx, sets, reach), order);
      ghost var f := View(g, Data(Fill(|sets|), tx, sets, reach));
      history := [ForestCosts.Moment(ForestCosts.Initialize(f), f, (39 + 48) * |g.txns| + 4 * |g.deps|)];
      begins := [];
      ViewFits(g, Data(Fill(|sets|), tx, sets, reach));
    }

    ghost predicate QueueOk()
      reads this
    {
      Distinct(suboptimalChunks) && suboptimalIdxs == Elems(suboptimalChunks)
    }

    /** Charge for some work that leaves the forest alone. */
    method Spend(n: nat, ghost e: ForestCosts.Event)
      requires !ForestCosts.IsBegin(e) && Valid() && ForestCosts.Charges(g, State(), e, State(), n)
      modifies this`cost, this`history
      ensures Valid() && cost == old(cost) + n
    {
      hide RepOk, View, ForestCosts.Performed, ForestCosts.Charges, ForestCosts.Begins;
      ForestCosts.PerformedNext(g, history, State(), cost, e, State(), n);
      cost := cost + n;
      history := history + [ForestCosts.Moment(e, State(), cost)];
    }

    method SpendFirst(n: nat, ghost e: ForestCosts.Event)
      requires ForestCosts.IsBegin(e) && Valid() && ForestCosts.Charges(g, State(), e, State(), n)
      modifies this`cost, this`history, this`begins
      ensures Valid() && cost == old(cost) + n && begins == old(begins) + [ForestCosts.Begin(e, old(cost))]
    {
      hide RepOk, View, ForestCosts.Performed, ForestCosts.Charges, ForestCosts.Begins;
      ForestCosts.PerformedNext(g, history, State(), cost, e, State(), n);
      begins := begins + [ForestCosts.Begin(e, cost)];
      cost := cost + n;
      history := history + [ForestCosts.Moment(e, State(), cost)];
    }

    /** Add `other` to the top sets of the active dependencies of `t` that contain `end`. */
    method GrowTops(t: nat, end: nat, other: SetInfo)
      requires t in txData && OwnTops(txData[t], |setInfo|)
      modifies this`setInfo
      ensures ChangedAt(txData[t], old(setInfo), setInfo, info => Grown(info, end, other))
    {
      var x := txData[t];
      var todo := x.activeChildren;
      while todo != {}
        invariant todo <= x.activeChildren && |setInfo| == |old(setInfo)|
        invariant forall c | c in x.activeChildren ::
                    setInfo[x.depTop[c]] ==
                      if c in todo then old(setInfo)[x.depTop[c]] else Grown(old(setInfo)[x.depTop[c]], end, other)
        invariant forall k | 0 <= k < |setInfo| && (forall c | c in x.activeChildren :: x.depTop[c] != k) ::
                    setInfo[k] == old(setInfo)[k]
        decreases |todo|
      {
        var c :| c in todo;
        var k := x.depTop[c];
        if end in setInfo[k].txns {
          setInfo := setInfo[k := setInfo[k].Plus(other)];
        }
        todo := todo - {c};
      }
    }

    /** The same, as a step of the traversals in `Activate`. */
    method GrowTopsOf(t: nat, end: nat, other: SetInfo, ghost d: Data, ghost e: Dep, ghost done: set<nat>)
      requires TopsOk(d) && CanActivate(d, e) && SetsGrown(d, e, done, setInfo)
      requires t in d.tx && t !in done && t in txData && OwnTops(d.tx[t], |setInfo|)
      requires txData[t].depTop == d.tx[t].depTop && txData[t].activeChildren == d.tx[t].activeChildren
      requires forall h | HasTop(d, h) && h.parent == t :: GrownInfo(d, e, h) == Grown(d.sets[TopIdx(d, h)], end, other)
      modifies this`setInfo
      ensures SetsGrown(d, e, done + {t}, setInfo)
    {
      hide TopsOk, SetsGrown, GrownInfo;
      ghost var sets := setInfo;
      GrowTops(t, end, other);
      GrowStep(d, e, done, t, txData[t], end, other, sets, setInfo);
    }

    /** First traversal of an activation: the parent's chunk `top`. */
    method MoveTop(p: nat, ic: nat, top: SetInfo, bottom: SetInfo, ghost d: Data, ghost e: Dep)
      requires RepOk(g, d) && CanActivate(d, e) && txData == d.tx && setInfo == d.sets
      requires e.parent == p && ic == d.tx[e.child].chunk && top == d.sets[d.tx[p].chunk] && bottom == d.sets[ic]
      modifies this`txData, this`setInfo
      ensures TxsMoved(d, ic, top.txns, txData)
      ensures SetsGrown(d, e, top.txns, setInfo)
    {
      hide RepOk, GrownInfo, TopsOk, OwnTops, CanActivate, HasTop, SetsGrown;
      SetsUngrown(d, e);
      var todo := top.txns;
      ghost var done: set<nat> := {};
      while todo != {}
        invariant done !! todo && done + todo == top.txns
        invariant TxsMoved(d, ic, done, txData)
        invariant SetsGrown(d, e, done, setInfo)
        decreases |todo|
      {
        var t :| t in todo;
        TopTraversal(g, d, e, done, t, setInfo);
        txData := txData[t := txData[t].(chunk := ic)];
        GrowTopsOf(t, p, bottom, d, e, done);
        todo, done := todo - {t}, done + {t};
      }
    }

    /** Second traversal: the child's chunk `bottom`. */
    method GrowBottom(c: nat, top: SetInfo, bottom: SetInfo, ghost d: Data, ghost e: Dep)
      requires RepOk(g, d) && CanActivate(d, e)
      requires e.child == c && top == d.sets[d.tx[e.parent].chunk] && bottom == d.sets[d.tx[c].chunk]
      requires TxsMoved(d, d.tx[c].chunk, top.txns, txData) && SetsGrown(d, e, top.txns, setInfo)
      modifies this`setInfo
      ensures SetsGrown(d, e, top.txns + bottom.txns, setInfo)
    {
      hide RepOk, GrownInfo, TopsOk, OwnTops, HasTop, SetsGrown, TxsMoved;
      var todo := bottom.txns;
      ghost var done := top.txns;
      BottomApart(g, d, e);
      while todo != {}
        invariant todo <= bottom.txns && done !! todo && done + todo == top.txns + bottom.txns
        invariant SetsGrown(d, e, done, setInfo)
        decreases |todo|
      {
        var t :| t in todo;
        BottomTraversal(g, d, e, done, t, setInfo);
        NotMoved(d, d.tx[c].chunk, top.txns, txData, t);
        GrowTopsOf(t, c, top, d, e, done);
        todo, done := todo - {t}, done + {t};
      }
    }

    /** Make an inactive dependency between two chunks active, merging them. */
    method Activate(p: nat, c: nat) returns (merged: nat)
      requires Valid() && CanActivate(Snapshot(), Dep(p, c))
      modifies this`chunkIdxs, this`txData, this`setInfo, this`reachable, this`cost, this`history
      ensures Valid()
      ensures old(State()).CanActivate(g, Dep(p, c)) && State() == old(State()).Activated(Dep(p, c))
      ensures merged == old(txData[c].chunk) && merged in chunkIdxs && merged < |setInfo|
      ensures chunkIdxs == old(chunkIdxs) - {old(txData[p].chunk)} && old(txData[p].chunk) in old(chunkIdxs)
      ensures cost == old(cost) + 10 * (|setInfo[merged].txns| - 1) + 1 > old(cost)
    {
      hide RepOk, SetsGrown, View, ForestCosts.Performed, ForestCosts.Charges, ForestCosts.Begins, TxsMoved,
           IsActivated, Forest.CanActivate, Forest.Activated;
      ghost var d, e := Snapshot(), Dep(p, c);
      var ip, ic := txData[p].chunk, txData[c].chunk;
      var top, bottom := setInfo[ip], setInfo[ic];
      OwnChunks(g, d, e);
      MoveTop(p, ic, top, bottom, d, e);
      GrowBottom(c, top, bottom, d, e);
      ghost var tx, sets := txData, setInfo;
      GrownSizes(d, e, top.txns, bottom.txns, tx, sets);
      // The merged chunk takes over the child's index; the parent's becomes the new top set.
      setInfo := setInfo[ic := bottom.Plus(top)];
      var both := setInfo[ic].txns;
      reachable := reachable[ic := Reach(reachable[ic].up + reachable[ip].up - both,
                                         reachable[ic].down + reachable[ip].down - both)];
      txData := txData[p := txData[p].(depTop := txData[p].depTop[c := ip],
                                       activeChildren := txData[p].activeChildren + {c})];
      chunkIdxs := chunkIdxs - {ip};
      assert p in both;
      cost := cost + 10 * (|both| - 1) + 1;
      merged := ic;
      Traversed(g, d, e, tx, sets, Snapshot());
      ActivatedRep(g, d, e, Snapshot());
      ActivateCharge(g, d, e, Snapshot());
      ForestCosts.PerformedNext(g, history, View(g, d), old(cost), ForestCosts.Activate(e), State(), cost - old(cost));
      history := history + [ForestCosts.Moment(ForestCosts.Activate(e), State(), cost)];
    }

    /** Remove `other` from the top sets of the active dependencies of `t` that contain `end`. */
    method ShrinkTops(t: nat, end: nat, other: SetInfo)
      requires t in txData && OwnTops(txData[t], |setInfo|)
      modifies this`setInfo
      ensures ChangedAt(txData[t], old(setInfo), setInfo, info => Shrunk(info, end, other))
    {
      var x := txData[t];
      var todo := x.activeChildren;
      while todo != {}
        invariant todo <= x.activeChildren && |setInfo| == |old(setInfo)|
        invariant forall c | c in x.activeChildren ::
                    setInfo[x.depTop[c]] ==
                      if c in todo then old(setInfo)[x.depTop[c]] else Shrunk(old(setInfo)[x.depTop[c]], end, other)
        invariant forall k | 0 <= k < |setInfo| && (forall c | c in x.activeChildren :: x.depTop[c] != k) ::
                    setInfo[k] == old(setInfo)[k]
        decreases |todo|
      {
        var c :| c in todo;
        var k := x.depTop[c];
        if end in setInfo[k].txns {
          setInfo := setInfo[k := setInfo[k].Minus(other)];
        }
        todo := todo - {c};
      }
    }

    /** The same, as a step of the traversals in `Deactivate`. */
    method ShrinkTopsOf(t: nat, end: nat, other: SetInfo, ghost d: Data, ghost e: Dep, ghost done: set<nat>)
      requires TopsOk(d) && CanDeactivate(d, e) && SetsShrunk(d, e, done, setInfo)
      requires t in Cut(d, e).tx && t !in done && t in txData && OwnTops(Cut(d, e).tx[t], |setInfo|)
      requires txData[t].depTop == Cut(d, e).tx[t].depTop && txData[t].activeChildren == Cut(d, e).tx[t].activeChildren
      requires forall h | HasTop(d, h) && h != e && h.parent == t ::
               ShrunkInfo(d, e, h) == Shrunk(Cut(d, e).sets[TopIdx(d, h)], end, other)
      modifies this`setInfo
      ensures SetsShrunk(d, e, done + {t}, setInfo)
    {
      hide TopsOk, SetsShrunk, ShrunkInfo, Cut;
      ghost var sets := setInfo;
      ShrinkTops(t, end, other);
      ShrinkStep(d, e, done, t, txData[t], end, other, sets, setInfo);
    }

    /** First traversal of a deactivation: the top set, which becomes the parent's chunk. */
    method MoveOut(p: nat, ip: nat, top: SetInfo, bottom: SetInfo, ghost d: Data, ghost e: Dep)
      returns (parents: set<nat>, children: set<nat>)
      requires RepOk(g, d) && CanDeactivate(d, e) && txData == Cut(d, e).tx && setInfo == Cut(d, e).sets
      requires e.parent == p && ip == TopIdx(d, e) && top == d.sets[ip] && bottom == d.sets[d.tx[p].chunk].Minus(top)
      modifies this`txData, this`setInfo
      ensures TxsMoved(Cut(d, e), ip, top.txns, txData)
      ensures SetsShrunk(d, e, top.txns, setInfo)
      ensures parents == Parents(g, top.txns) && children == Children(g, top.txns)
    {
      hide RepOk, ShrunkInfo, TopsOk, OwnTops, SetsShrunk, Cut, Parents, Children;
      SetsUnshrunk(d, e);
      SplitRange(g, d, e);
      var todo := top.txns;
      ghost var done: set<nat> := {};
      parents, children := {}, {};
      NoParents(g);
      while todo != {}
        invariant done !! todo && done + todo == top.txns
        invariant TxsMoved(Cut(d, e), ip, done, txData)
        invariant SetsShrunk(d, e, done, setInfo)
        invariant parents == Parents(g, done) && children == Children(g, done)
        decreases |todo|
      {
        var t :| t in todo;
        SplitTraversal(g, d, e, done, t, setInfo);
        SplitNeighbours(g, d, e, t);
        Gathered(g, done, t);
        txData := txData[t := txData[t].(chunk := ip)];
        parents, children := parents + txData[t].parents, children + txData[t].children;
        ShrinkTopsOf(t, p, bottom, d, e, done);
        todo, done := todo - {t}, done + {t};
      }
    }

    /** Second traversal: what remains of the chunk. */
    method ShrinkBottom(c: nat, top: SetInfo, bottom: SetInfo, ghost d: Data, ghost e: Dep)
      returns (parents: set<nat>, children: set<nat>)
      requires RepOk(g, d) && CanDeactivate(d, e)
      requires e.child == c && top == d.sets[TopIdx(d, e)] && bottom == d.sets[d.tx[e.parent].chunk].Minus(top)
      requires TxsMoved(Cut(d, e), TopIdx(d, e), top.txns, txData) && SetsShrunk(d, e, top.txns, setInfo)
      modifies this`setInfo
      ensures SetsShrunk(d, e, top.txns + bottom.txns, setInfo)
      ensures parents == Parents(g, bottom.txns) && children == Children(g, bottom.txns)
    {
      hide RepOk, ShrunkInfo, TopsOk, OwnTops, SetsShrunk, Cut, Parents, Children, TxsMoved;
      SplitRange(g, d, e);
      var todo := bottom.txns;
      ghost var done: set<nat> := {};
      parents, children := {}, {};
      NoParents(g);
      assert top.txns + done == top.txns;
      while todo != {}
        invariant done !! todo && done + todo == bottom.txns
        invariant SetsShrunk(d, e, top.txns + done, setInfo)
        invariant parents == Parents(g, done) && children == Children(g, done)
        decreases |todo|
      {
        var t :| t in todo;
        SplitTraversal(g, d, e, top.txns + done, t, setInfo);
        SplitNeighbours(g, d, e, t);
        Gathered(g, done, t);
        NotMoved(Cut(d, e), TopIdx(d, e), top.txns, txData, t);
        parents, children := parents + txData[t].parents, children + txData[t].children;
        ShrinkTopsOf(t, c, top, d, e, top.txns + done);
        assert top.txns + done + {t} == top.txns + (done + {t});
        todo, done := todo - {t}, done + {t};
      }
    }

    /** Make an active dependency inactive, splitting its chunk. */
    method Deactivate(p: nat, c: nat) returns (parentChunk: nat, childChunk: nat)
      requires Valid() && HasTop(Snapshot(), Dep(p, c))
      modifies this`chunkIdxs, this`txData, this`setInfo, this`reachable, this`cost, this`history
      ensures Valid()
      ensures parentChunk == old(txData[p].depTop[c]) && childChunk == old(txData[p].chunk)
      ensures chunkIdxs == old(chunkIdxs) + {parentChunk} && parentChunk !in old(chunkIdxs)
              && childChunk in old(chunkIdxs)
      ensures parentChunk < |setInfo| && childChunk < |setInfo|
      ensures old(State()).CanDeactivate(Dep(p, c), parentChunk)
      ensures State() == old(State()).Deactivated(Dep(p, c), parentChunk)
      ensures cost == old(cost) + 11 * (|old(setInfo[txData[p].chunk].txns)| - 1) + 8 > old(cost)
    {
      hide RepOk, View, ForestCosts.Performed, ForestCosts.Charges, ForestCosts.Begins, IsDeactivated,
           Forest.CanDeactivate, Forest.Deactivated, SetsShrunk, TxsMoved, ReachOf;
      ghost var d, e := Snapshot(), Dep(p, c);
      DeactivateView(g, d, e);
      var ip, ic := txData[p].depTop[c], txData[p].chunk;
      SplitRange(g, d, e);
      var top := setInfo[ip];
      txData := txData[p := txData[p].(activeChildren := txData[p].activeChildren - {c})];
      chunkIdxs := chunkIdxs + {ip};
      var ntx := |setInfo[ic].txns|;
      assert p in setInfo[ic].txns;
      setInfo := setInfo[ic := setInfo[ic].Minus(top)];
      var bottom := setInfo[ic];
      var topParents, topChildren := MoveOut(p, ip, top, bottom, d, e);
      var bottomParents, bottomChildren := ShrinkBottom(c, top, bottom, d, e);
      reachable := reachable[ip := Reach(topParents - top.txns, topChildren - top.txns)]
                            [ic := Reach(bottomParents - bottom.txns, bottomChildren - bottom.txns)];
      cost := cost + 11 * (ntx - 1) + 8;
      assert top.txns + bottom.txns == d.sets[ic].txns;
      ReachIs(g, top.txns);
      ReachIs(g, bottom.txns);
      SplitTraversed(g, d, e, Snapshot());
      DeactivatedIdxs(g, d, e, Snapshot());
      DeactivatedRep(g, d, e, Snapshot());
      parentChunk, childChunk := ip, ic;
      ghost var event := ForestCosts.Deactivate(e, ip);
      DeactivateCharge(g, d, e, ip);
      ForestCosts.PerformedNext(g, history, View(g, d), old(cost), event, State(), cost - old(cost));
      history := history + [ForestCosts.Moment(event, State(), cost)];
    }

    /** The number of dependencies of `bottom` on `top`. */
    method CountDeps(top: set<nat>, bottom: set<nat>) returns (numDeps: nat)
      requires top <= txData.Keys
      ensures numDeps == Count(txData, top, bottom)
    {
      hide Count;
      numDeps := 0;
      var todo := top;
      while todo != {}
        invariant todo <= top && numDeps + Count(txData, todo, bottom) == Count(txData, top, bottom)
        decreases |todo|
      {
        var t :| t in todo;
        CountRemove(txData, todo, bottom, t);
        numDeps := numDeps + |txData[t].children * bottom|;
        todo := todo - {t};
      }
      CountNone(txData, todo, bottom);
    }

    /** The dependency reached after skipping `skip` of them. */
    method FindDep(top: set<nat>, bottom: set<nat>, skip: nat) returns (p: nat, c: nat, steps: nat)
      requires top <= txData.Keys && skip < Count(txData, top, bottom)
      ensures p in top && c in bottom && c in txData[p].children && steps <= |top|
    {
      hide Count;
      var pick: nat, todo := skip, top;
      steps := 0;
      while true
        invariant todo <= top && pick < Count(txData, todo, bottom) && steps + |todo| == |top|
        decreases |todo|
      {
        CountNone(txData, todo, bottom);
        p :| p in todo;
        steps := steps + 1;
        CountRemove(txData, todo, bottom, p);
        var both := txData[p].children * bottom;
        if pick < |both| {
          while pick > 0
            invariant pick < |both| && both <= txData[p].children * bottom
            decreases pick
          {
            var skipped :| skipped in both;
            both := both - {skipped};
            pick := pick - 1;
          }
          assert |both| > 0;
          c :| c in both;
          return;
        }
        pick := pick - |both|;
        todo := todo - {p};
      }
    }

    /** Activate a random dependency of chunk `bottomIdx` on chunk `topIdx`. */
    method MergeChunks(topIdx: nat, bottomIdx: nat) returns (merged: nat, ghost dep: Dep)
      requires Valid() && topIdx in chunkIdxs && bottomIdx in chunkIdxs && topIdx != bottomIdx
      requires topIdx < |setInfo| && bottomIdx < |setInfo|
      requires exists e :: e in g.deps && e.parent in setInfo[topIdx].txns && e.child in setInfo[bottomIdx].txns
      modifies this`chunkIdxs, this`txData, this`setInfo, this`reachable, this`cost, this`history
      ensures Valid() && cost > old(cost)
      ensures dep in g.deps && dep.parent in old(setInfo[topIdx].txns) && dep.child in old(setInfo[bottomIdx].txns)
      ensures dep.parent in old(txData) && dep.child in old(txData)
      ensures old(txData[dep.parent].chunk) == topIdx && old(txData[dep.child].chunk) == bottomIdx
      ensures old(State()).CanActivate(g, dep) && State() == old(State()).Activated(dep)
      ensures merged == bottomIdx && merged in chunkIdxs && merged < |setInfo|
      ensures chunkIdxs == old(chunkIdxs) - {topIdx}
    {
      hide RepOk, View, ForestCosts.Performed, ForestCosts.Charges, ForestCosts.Begins, Count, CanActivate,
           Forest.CanActivate, Forest.Activated;
      ghost var d := Snapshot();
      var top, bottom := setInfo[topIdx].txns, setInfo[bottomIdx].txns;
      ChunkTxns(g, d, topIdx);
      var numDeps := CountDeps(top, bottom);
      ghost var e :| e in g.deps && e.parent in top && e.child in bottom;
      CountPositive(g, d, top, bottom, e);
      var random := Random();
      var p, c, steps := FindDep(top, bottom, random % numDeps);
      CanActivateBetween(g, d, topIdx, bottomIdx, p, c);
      ChunkSize(g, d, topIdx);
      ForestCosts.MergeCharges(g, View(g, d), topIdx, steps, top);
      Spend(2 * |top| + 3 * steps + 5, ForestCosts.MergeChunks(topIdx, steps));
      merged := Activate(p, c);
      dep := Dep(p, c);
    }

    /** The best chunk for chunk `k` to merge with in the given direction, if any. */
    method PickMergeCandidate(down: bool, k: nat) returns (best: Option<nat>)
      requires Valid() && k in chunkIdxs && k < |setInfo|
      modifies this`cost, this`history
      ensures Valid() && State() == old(State()) && cost >= old(cost)
      ensures SpotOk(g, Spot(State(), k))
      ensures best.None? ==> NoCandidate(g, Spot(State(), k), down)
      ensures best.Some? ==> BestAhead(g, Spot(State(), k), down, best.value)
    {
      hide RepOk, View, ForestCosts.Performed, ForestCosts.Charges, ForestCosts.Begins, Value, BestOf, ChoiceOk,
           Consider, NotAbove, Forest.Valid;
      ghost var d, s := Snapshot(), Spot(State(), k);
      ViewFits(g, d);
      AheadInRange(g, d, down, k);
      var todo := Ahead(down, reachable[k]);
      ghost var all := todo;
      var choice := Choice(None, setInfo[k].feerate, 0);
      var steps := 0;
      assert all - todo == {};
      NoneSeen(g, d, k, down);
      while todo != {}
        invariant todo <= all && cost == old(cost) && history == old(history) && steps + |todo| <= |all|
        invariant ChoiceOk(g, d, s, down, all - todo, choice)
        decreases |todo|
      {
        steps := steps + 1;
        var t :| t in todo;
        ReachedChunk(g, d, t);
        var reached := txData[t].chunk;
        ghost var seen := all - todo;
        ForestCosts.FewerLeft(todo, setInfo[reached].txns, t);
        todo := todo - setInfo[reached].txns;
        SeenChunk(g, d, all, todo, seen, t);
        var tiebreak := Random();
        ConsiderOk(g, d, k, down, seen, choice, t, all - todo, tiebreak);
        choice := Consider(down, choice, reached, setInfo[reached].feerate, tiebreak);
      }
      assert all - {} == all;
      best := choice.best;
      ChoiceIsBest(g, d, k, down, all, choice);
      BestDone(g, d, down, k, best);
      ForestCosts.CandidateCharges(g, State(), steps, all);
      Spend(8 * steps, ForestCosts.PickMergeCandidate(steps));
    }

    /** Merge chunk `k` with the best chunk in the given direction, if there is one to merge with. */
    method MergeStep(down: bool, k: nat) returns (merged: Option<nat>)
      requires Valid() && k in chunkIdxs && k < |setInfo|
      modifies this`chunkIdxs, this`txData, this`setInfo, this`reachable, this`cost, this`history
      ensures Valid() && cost >= old(cost)
      ensures SpotOk(g, old(Spot(State(), k)))
      ensures merged.None? ==> Snapshot() == old(Snapshot()) && NoCandidate(g, old(Spot(State(), k)), down)
      ensures merged.Some? ==>
                && merged.value in chunkIdxs && merged.value < |setInfo|
                && chunkIdxs < old(chunkIdxs) && |chunkIdxs| < |old(chunkIdxs)|
                && Stepped(g, down, old(Spot(State(), k)), Spot(State(), merged.value))
    {
      hide RepOk, View, ForestCosts.Performed, ForestCosts.Charges, ForestCosts.Begins, NoCandidate, BestAhead,
           GreedyStep, Forest.Valid, Forest.CanActivate, Forest.Activated;
      ghost var s, d := Spot(State(), k), Snapshot();
      var best := PickMergeCandidate(down, k);
      if best.None? {
        return None;
      }
      var j := best.value;
      BestIsChunk(g, d, k, down, j);
      ghost var dep;
      var m: nat;
      if down {
        m, dep := MergeChunks(k, j);
      } else {
        m, dep := MergeChunks(j, k);
      }
      MergedBest(g, d, k, down, j, dep);
      assert Stepped(g, down, s, Spot(State(), m));
      merged := Some(m);
    }

    /** Merge in one direction until no more merges are possible. */
    method MergeAll(down: bool, k: nat) returns (merged: nat, ghost run: seq<Spot>)
      requires Valid() && k in chunkIdxs && k < |setInfo|
      modifies this`chunkIdxs, this`txData, this`setInfo, this`reachable, this`cost, this`history
      ensures Valid() && cost >= old(cost)
      ensures merged in chunkIdxs && merged < |setInfo| && chunkIdxs <= old(chunkIdxs)
      ensures GreedyRun(g, down, run) && run[0] == old(Spot(State(), k)) && run[|run| - 1] == Spot(State(), merged)
      ensures SpotOk(g, Spot(State(), merged)) && NoCandidate(g, Spot(State(), merged), down)
    {
      hide RepOk, View, ForestCosts.Performed, ForestCosts.Charges, ForestCosts.Begins, NoCandidate, Stepped,
           Forest.Valid;
      merged := k;
      run := [Spot(State(), k)];
      ViewFits(g, Snapshot());
      while true
        invariant Valid() && cost >= old(cost)
        invariant merged in chunkIdxs && merged < |setInfo| && chunkIdxs <= old(chunkIdxs)
        invariant GreedyRun(g, down, run) && run[0] == old(Spot(State(), k)) && run[|run| - 1] == Spot(State(), merged)
        decreases |chunkIdxs|
      {
        var next := MergeStep(down, merged);
        if next.None? {
          return;
        }
        merged := next.value;
        run := run + [Spot(State(), merged)];
      }
    }

    /** Queue a chunk, unless it is queued already. */
    method Enqueue(k: nat)
      requires QueueOk()
      modifies this`suboptimalChunks, this`suboptimalIdxs
      ensures QueueOk() && suboptimalIdxs == old(suboptimalIdxs) + {k}
      ensures suboptimalChunks ==
              if k in old(suboptimalIdxs) then old(suboptimalChunks) else old(suboptimalChunks) + [k]
    {
      if k !in suboptimalIdxs {
        suboptimalIdxs := suboptimalIdxs + {k};
        suboptimalChunks := suboptimalChunks + [k];
      }
    }

    /** Merge in one direction as far as possible, and queue the result for improvement. */
    method MergeSequence(down: bool, k: nat) returns (ghost run: seq<Spot>)
      requires Valid() && QueueOk() && k in chunkIdxs && k < |setInfo|
      modifies this
      ensures begins == old(begins)
      ensures Valid() && QueueOk() && cost >= old(cost) && chunkIdxs <= old(chunkIdxs)
      ensures GreedyRun(g, down, run) && run[0] == old(Spot(State(), k)) && run[|run| - 1].f == State()
      ensures SpotOk(g, run[|run| - 1]) && NoCandidate(g, run[|run| - 1], down)
      ensures suboptimalIdxs == old(suboptimalIdxs) + {run[|run| - 1].k}
      ensures old(suboptimalChunks) <= suboptimalChunks && |suboptimalChunks| <= |old(suboptimalChunks)| + 1
    {
      hide RepOk, View, ForestCosts.Performed, ForestCosts.Charges, ForestCosts.Begins, NoCandidate, GreedyRun, SpotOk;
      var merged;
      merged, run := MergeAll(down, k);
      Enqueue(merged);
    }

    /** The parent's half depends on the child's: merge them back together. */
    method MergeBack(ip: nat, ic: nat, ghost f: Forest, ghost e: Dep, ghost q: set<nat>)
      requires Valid() && QueueOk() && suboptimalIdxs == q
      requires ip in chunkIdxs && ic in chunkIdxs && ip != ic && ip < |setInfo| && ic < |setInfo|
      requires exists h :: h in g.deps && h.parent in setInfo[ic].txns && h.child in setInfo[ip].txns
      requires Fits(g, f) && f.Valid(g) && f.CanDeactivate(e, ip) && f.chunk[e.parent] == ic
               && State() == f.Deactivated(e, ip)
      requires Topological(g, f) && OptimalExcept(g, f, q + {ic})
      modifies this
      ensures begins == old(begins)
      ensures Valid() && QueueOk() && cost > old(cost)
      ensures Fits(g, State()) && Topological(g, State())
              && forall lam: real :: Diagram(g, State(), lam) == Diagram(g, f, lam)
      ensures OptimalExcept(g, State(), suboptimalIdxs) && Rejoined(g, f, State(), e, ip)
      ensures old(suboptimalChunks) <= suboptimalChunks && |suboptimalChunks| <= |old(suboptimalChunks)| + 1
    {
      hide RepOk, View, ForestCosts.Performed, ForestCosts.Charges, ForestCosts.Begins, Topological, OptimalExcept,
           Diagram, Forest.Deactivated, Forest.Activated, Forest.Valid, Forest.Part;
      ViewFits(g, Snapshot());
      ghost var dep;
      var merged;
      merged, dep := MergeChunks(ic, ip);
      assert IsBack(g, f.Deactivated(e, ip), ip, ic, dep);
      ImproveSelfMerge(g, f, e, ip, dep);
      SelfMergeQueue(g, f, e, ip, dep, q);
      Enqueue(merged);
    }

    /** Merge the parent's half upward and the child's half downward. */
    method MergeHalves(ip: nat, ic: nat, ghost f: Forest, ghost e: Dep, ghost q: set<nat>)
      requires Valid() && QueueOk() && suboptimalIdxs == q
      requires ip in chunkIdxs && ic in chunkIdxs && ip < |setInfo| && ic < |setInfo|
      requires Improvable(g, f, e) && f.CanDeactivate(e, ip) && f.chunk[e.parent] == ic
               && State() == f.Deactivated(e, ip)
      requires !TopNeedsBottom(g, f.Deactivated(e, ip), ip, ic)
      requires Topological(g, f) && OptimalExcept(g, f, q + {ic})
      modifies this
      ensures begins == old(begins)
      ensures Valid() && QueueOk() && cost >= old(cost)
      ensures Fits(g, State()) && Fits(g, f) && Topological(g, State()) && StrictlyBetter(g, State(), f, e)
      ensures OptimalExcept(g, State(), suboptimalIdxs)
      ensures old(suboptimalChunks) <= suboptimalChunks && |suboptimalChunks| <= |old(suboptimalChunks)| + 2
    {
      hide RepOk, View, ForestCosts.Performed, ForestCosts.Charges, ForestCosts.Begins, Topological, OptimalExcept,
           StrictlyBetter, AtLeastAsGood, GreedyRun, NoCandidate, SpotOk, Forest.Deactivated, TopNeedsBottom,
           Forest.Valid, ChunkRate;
      ghost var up := MergeSequence(false, ip);
      LowStays(g, f, e, ip, up);
      ViewFits(g, Snapshot());
      ghost var down := MergeSequence(true, ic);
      ImproveMerged(g, f, e, ip, up, down);
      ImproveStrictly(g, f, e, ip, up, down);
      ImproveQueue(g, f, e, ip, up, down, q);
      ViewFits(g, Snapshot());
    }

    /** Split a chunk at a dependency whose top set has higher feerate, then merge the halves so
        that the state is topological again. */
    method Improve(p: nat, c: nat) returns (ghost selfMerged: bool, ghost ip: nat)
      requires Valid() && QueueOk() && HasTop(Snapshot(), Dep(p, c))
      requires Improvable(g, State(), Dep(p, c)) && Topological(g, State())
      requires OptimalExcept(g, State(), suboptimalIdxs + {txData[p].chunk})
      modifies this
      ensures begins == old(begins)
      ensures Valid() && QueueOk() && cost > old(cost)
      ensures Fits(g, State()) && Fits(g, old(State()))
      ensures Topological(g, State())
      ensures selfMerged ==> forall lam: real :: Diagram(g, State(), lam) == Diagram(g, old(State()), lam)
      ensures !selfMerged ==> StrictlyBetter(g, State(), old(State()), Dep(p, c))
      ensures OptimalExcept(g, State(), suboptimalIdxs) && Divided(g, old(State()), State(), Dep(p, c), ip)
      ensures old(suboptimalChunks) <= suboptimalChunks && |suboptimalChunks| <= |old(suboptimalChunks)| + 2
    {
      hide RepOk, View, ForestCosts.Performed, ForestCosts.Charges, ForestCosts.Begins, Topological, OptimalExcept,
           StrictlyBetter, Diagram, Forest.Deactivated, Forest.Valid, TopNeedsBottom, ChunkRate;
      ghost var d, f, e, q := Snapshot(), State(), Dep(p, c), suboptimalIdxs;
      ViewFits(g, d);
      DeactivateView(g, d, e);
      var i, ic := Deactivate(p, c);
      ip := i;
      OverlapIff(g, Snapshot(), i, ic);
      ViewFits(g, Snapshot());
      if reachable[i].up * setInfo[ic].txns != {} {
        MergeBack(i, ic, f, e, q);
        selfMerged := true;
      } else {
        MergeHalves(i, ic, f, e, q);
        selfMerged := false;
      }
    }

    /** Queue all chunks, in random order. */
    method FillQueue()
      requires suboptimalChunks == []
      modifies this`suboptimalChunks, this`suboptimalIdxs
      ensures QueueOk() && suboptimalIdxs == chunkIdxs && |suboptimalChunks| == |chunkIdxs|
    {
      suboptimalIdxs := chunkIdxs;
      var todo := chunkIdxs;
      while todo != {}
        invariant todo <= chunkIdxs && suboptimalIdxs == chunkIdxs
        invariant Distinct(suboptimalChunks) && Elems(suboptimalChunks) == chunkIdxs - todo
        invariant |suboptimalChunks| + |todo| == |chunkIdxs|
        decreases |todo|
      {
        var k :| k in todo;
        AppendElems(suboptimalChunks, k);
        todo := todo - {k};
        suboptimalChunks := suboptimalChunks + [k];
        assert chunkIdxs - todo == Elems(suboptimalChunks);
        var random := Random();
        var j, last := random % |suboptimalChunks|, |suboptimalChunks| - 1;
        if j != last {
          SwapElems(suboptimalChunks, j, last);
          suboptimalChunks := suboptimalChunks[j := suboptimalChunks[last]][last := suboptimalChunks[j]];
        }
      }
    }

    /** Try to merge chunk `k` upward and downward, in random order. */
    method MergeEither(k: nat, tryUp: bool, tryDown: bool) returns (merged: Option<nat>, ghost down: bool)
      requires Valid() && k in chunkIdxs && k < |setInfo|
      modifies this`chunkIdxs, this`txData, this`setInfo, this`reachable, this`cost, this`history
      ensures Valid() && cost >= old(cost)
      ensures SpotOk(g, old(Spot(State(), k)))
      ensures merged.None? ==>
                && Snapshot() == old(Snapshot())
                && (tryUp ==> NoCandidate(g, Spot(State(), k), false))
                && (tryDown ==> NoCandidate(g, Spot(State(), k), true))
      ensures merged.Some? ==>
                && merged.value in chunkIdxs && merged.value < |setInfo| && |chunkIdxs| < |old(chunkIdxs)|
                && Stepped(g, down, old(Spot(State(), k)), Spot(State(), merged.value))
    {
      hide RepOk, View, ForestCosts.Performed, ForestCosts.Charges, ForestCosts.Begins, NoCandidate, Stepped, SpotOk;
      ViewFits(g, Snapshot());
      assert SpotOk(g, Spot(State(), k)) by { SpotIs(g, Spot(State(), k)); }
      var flip := Random();
      merged, down := None, false;
      var i := 0;
      while i < 2
        invariant 0 <= i <= 2 && merged.None?
        invariant Valid() && cost >= old(cost) && Snapshot() == old(Snapshot())
        invariant i >= 1 && tryUp && flip % 2 == 1 ==> NoCandidate(g, Spot(State(), k), false)
        invariant i >= 1 && tryDown && flip % 2 == 0 ==> NoCandidate(g, Spot(State(), k), true)
        invariant i == 2 && tryUp ==> NoCandidate(g, Spot(State(), k), false)
        invariant i == 2 && tryDown ==> NoCandidate(g, Spot(State(), k), true)
      {
        var up := (i == 1) != (flip % 2 == 1);
        if if up then tryUp else tryDown {
          merged := MergeStep(!up, k);
          if merged.Some? {
            down := !up;
            return;
          }
        }
        i := i + 1;
      }
    }

    /** Merge a chunk from the queue with its best candidate, in its direction, or in both once it was merged. */
    method MergePending(k: nat, mergedBefore: set<nat>, initDown: bool, ghost q: set<nat>)
      returns (mergedChunks: set<nat>, ghost stepped: bool)
      requires QueueOk() && k in q && suboptimalIdxs == q - {k} && Valid()
      requires Fits(g, State()) && Pending(g, State(), q, mergedBefore, initDown)
      modifies this
      ensures begins == old(begins)
      ensures Valid() && QueueOk() && cost >= old(cost) && Fits(g, State()) && Fits(g, old(State()))
      ensures Pending(g, State(), suboptimalIdxs, mergedChunks, initDown)
      ensures stepped ==>
                && MergesBest(g, old(State()), State()) && !Topological(g, old(State()))
                && |chunkIdxs| < |old(chunkIdxs)| && |suboptimalChunks| <= |old(suboptimalChunks)| + 1
      ensures !stepped ==>
              State() == old(State()) && chunkIdxs == old(chunkIdxs) && suboptimalChunks == old(suboptimalChunks)
    {
      hide RepOk, View, ForestCosts.Performed, ForestCosts.Charges, ForestCosts.Begins, NoCandidate, Stepped, Pending,
           Topological, Forest.Valid, GreedyStep;
      mergedChunks, stepped := mergedBefore, false;
      ghost var f := State();
      ViewFits(g, Snapshot());
      if k !in chunkIdxs {
        PendingStale(g, f, q, mergedChunks, initDown, k);
      } else {
        var both := k in mergedChunks;
        ghost var down;
        var result;
        result, down := MergeEither(k, both || !initDown, both || initDown);
        if result.None? {
          PendingTried(g, f, q, mergedChunks, initDown, k);
        } else {
          NothingToMerge(g, down, Spot(f, k), Spot(State(), result.value));
          PendingStepped(g, Spot(f, k), Spot(State(), result.value), down, q, mergedChunks, initDown);
          ViewFits(g, Snapshot());
          Enqueue(result.value);
          mergedChunks, stepped := mergedChunks + {result.value}, true;
        }
      }
    }

    /** Merge chunks until the state is topological. */
    method MakeTopological() returns (ghost run: seq<Forest>)
      requires Valid() && suboptimalChunks == []
      modifies this
      ensures begins == old(begins)
      ensures Valid() && suboptimalChunks == [] && QueueOk() && cost >= old(cost)
      ensures Fits(g, State()) && Topological(g, State())
      ensures Fits(g, old(State())) && (Topological(g, old(State())) ==> State() == old(State()))
      ensures MergeRun(g, run) && run[0] == old(State()) && run[|run| - 1] == State()
    {
      hide RepOk, View, ForestCosts.Performed, ForestCosts.Charges, ForestCosts.Begins, Topological, Forest.Valid,
           MergesBest;
      var chunks := |chunkIdxs|;
      ViewFits(g, Snapshot());
      ghost var f := State();
      var steps;
      steps, run := MergeAllPending();
      ForestCosts.TopologicalCharges(g, State(), f, steps);
      Spend(20 * chunks + 28 * steps, ForestCosts.MakeTopological(chunks, steps));
    }

    method MergeAllPending() returns (steps: nat, ghost run: seq<Forest>)
      requires Valid() && suboptimalChunks == []
      modifies this
      ensures begins == old(begins)
      ensures Valid() && suboptimalChunks == [] && QueueOk() && cost >= old(cost) && steps <= 2 * |old(chunkIdxs)|
      ensures Fits(g, State()) && Topological(g, State())
      ensures Fits(g, old(State())) && (Topological(g, old(State())) ==> State() == old(State()))
      ensures MergeRun(g, run) && run[0] == old(State()) && run[|run| - 1] == State()
    {
      hide RepOk, View, ForestCosts.Performed, ForestCosts.Charges, ForestCosts.Begins, NoCandidate, Stepped, Pending,
           Topological, Forest.Valid, GreedyStep, MergesBest;
      var random := Random();
      var initDown := random % 2 == 1;
      var mergedChunks: set<nat> := {};
      ViewFits(g, Snapshot());
      FillQueue();
      PendingStart(g, State(), initDown);
      ghost var chunks := |chunkIdxs|;
      steps, run := 0, [State()];
      while suboptimalChunks != []
        invariant Valid() && QueueOk() && cost >= old(cost) && begins == old(begins)
        invariant Fits(g, State()) && Pending(g, State(), suboptimalIdxs, mergedChunks, initDown)
        invariant Topological(g, old(State())) ==> State() == old(State())
        invariant steps + |suboptimalChunks| + |chunkIdxs| <= 2 * chunks
        invariant MergeRun(g, run) && run[0] == old(State()) && run[|run| - 1] == State()
        decreases |chunkIdxs|, |suboptimalChunks|
      {
        ghost var q := suboptimalIdxs;
        steps := steps + 1;
        var k := suboptimalChunks[0];
        PopFront(suboptimalChunks);
        suboptimalChunks := suboptimalChunks[1..];
        suboptimalIdxs := suboptimalIdxs - {k};
        ghost var stepped;
        mergedChunks, stepped := MergePending(k, mergedChunks, initDown, q);
        if stepped {
          MergeRunNext(g, run, State());
          run := run + [State()];
        }
      }
      assert suboptimalIdxs == {};
      PendingDone(g, State(), mergedChunks, initDown);
    }

    /** Load an existing linearization. If it is valid, the result is topological and at least as
        good. Must be called on a fresh state. */
    method LoadLinearization(oldLinearization: seq<nat>) returns (ghost runs: seq<seq<Spot>>)
      requires Valid() && Singletons(State(), {}) && Elems(oldLinearization) <= g.txns
      modifies this`chunkIdxs, this`txData, this`setInfo, this`reachable, this`cost, this`history
      ensures Valid() && cost >= old(cost)
      ensures Fits(g, State())
      ensures IsLinearization(g, oldLinearization) ==>
                && Topological(g, State())
                && forall lam: real :: Diagram(g, State(), lam) >= Peak(g, oldLinearization, lam)
      ensures |runs| == |oldLinearization| && Loads(g, old(State()), oldLinearization, runs)
              && After(old(State()), runs) == State()
    {
      hide RepOk, View, ForestCosts.Performed, ForestCosts.Charges, ForestCosts.Begins, NoCandidate, GreedyRun, SpotOk,
           Topological, Forest.Valid, Diagram, Loaded, IsLinearization, Loads, After;
      ViewFits(g, Snapshot());
      LoadStart(g, State(), oldLinearization);
      runs := [];
      LoadsNothing(g, State(), oldLinearization);
      var i := 0;
      while i < |oldLinearization|
        invariant 0 <= i <= |oldLinearization|
        invariant Valid() && cost >= old(cost)
        invariant IsLinearization(g, oldLinearization) ==> Loaded(g, State(), oldLinearization, i)
        invariant |runs| == i && Loads(g, old(State()), oldLinearization, runs) && After(old(State()), runs) == State()
      {
        var t := oldLinearization[i];
        assert t in Elems(oldLinearization);
        ReachedChunk(g, Snapshot(), t);
        ghost var f := State();
        ghost var run;
        var merged;
        merged, run := MergeAll(false, txData[t].chunk);
        if IsLinearization(g, oldLinearization) {
          LoadStep(g, f, oldLinearization, i, run);
        }
        LoadsNext(g, old(State()), oldLinearization, runs, run);
        runs := runs + [run];
        i := i + 1;
      }
      ViewFits(g, Snapshot());
      if IsLinearization(g, oldLinearization) {
        LoadDone(g, State(), oldLinearization);
      }
    }

    /** Take the next chunk off the queue, skipping entries that are no chunks any more. */
    method PickChunkToOptimize() returns (next: Option<nat>)
      requires Valid() && QueueOk()
      modifies this`suboptimalChunks, this`suboptimalIdxs, this`cost, this`history, this`begins
      ensures Valid() && QueueOk() && cost > old(cost)
      ensures next.None? ==>
                && suboptimalChunks == [] && old(suboptimalIdxs) !! chunkIdxs
                && forall i | 0 <= i < |old(suboptimalChunks)| :: old(suboptimalChunks)[i] !in chunkIdxs
      ensures next.Some? ==>
                && next.value in chunkIdxs && old(suboptimalIdxs) * chunkIdxs <= suboptimalIdxs + {next.value}
                && TakesFirst(old(suboptimalChunks), chunkIdxs, next.value, suboptimalChunks)
      ensures ForestCosts.Began(old(begins), begins, old(cost), ForestCosts.OptimizeOne)
    {
      hide RepOk, View, ForestCosts.Performed, ForestCosts.Charges, ForestCosts.Begins, TakesFirst;
      var steps;
      ghost var popped;
      next, steps, popped := PopChunks();
      ViewFits(g, Snapshot());
      ForestCosts.PickCharges(g, State(), popped, old(suboptimalChunks));
      SpendFirst(steps + 4, ForestCosts.PickChunk(popped));
    }

    /** Take chunks off the queue until one that still exists. */
    method PopChunks() returns (next: Option<nat>, steps: nat, ghost popped: seq<nat>)
      requires QueueOk()
      modifies this`suboptimalChunks, this`suboptimalIdxs
      ensures QueueOk() && |popped| == steps && popped + suboptimalChunks == old(suboptimalChunks)
      ensures forall i | 0 <= i < |popped| - 1 :: popped[i] !in chunkIdxs
      ensures next.None? ==>
                && suboptimalChunks == [] && old(suboptimalIdxs) !! chunkIdxs
                && forall i | 0 <= i < |old(suboptimalChunks)| :: old(suboptimalChunks)[i] !in chunkIdxs
      ensures next.Some? ==>
                && next.value in chunkIdxs && old(suboptimalIdxs) * chunkIdxs <= suboptimalIdxs + {next.value}
                && TakesFirst(old(suboptimalChunks), chunkIdxs, next.value, suboptimalChunks)
    {
      hide Distinct, Elems, TakesFirst;
      ghost var q := suboptimalChunks;
      steps, popped, next := 0, [], None;
      while suboptimalChunks != []
        invariant QueueOk() && steps <= |q| && suboptimalChunks == q[steps..] && popped == q[..steps]
        invariant forall i | 0 <= i < steps :: q[i] !in chunkIdxs
        decreases |suboptimalChunks|
      {
        var k := suboptimalChunks[0];
        PopFront(suboptimalChunks);
        steps, popped := steps + 1, popped + [k];
        suboptimalIdxs := suboptimalIdxs - {k};
        suboptimalChunks := suboptimalChunks[1..];
        if k in chunkIdxs {
          FirstTaken(q, chunkIdxs, steps - 1);
          next := Some(k);
          return;
        }
      }
      NoneTaken(q, chunkIdxs);
    }

    /** Look among the active dependencies of one transaction `t` of chunk `k`. */
    method PickDependencyOf(k: nat, t: nat, before: Option<Dep>, tiebreakBefore: nat, ghost seen: set<Dep>)
      returns (candidate: Option<Dep>, bestTiebreak: nat)
      requires Valid() && k in chunkIdxs && k < |setInfo| && t in txData && txData[t].chunk == k
      requires SplitOk(g, Snapshot(), k, seen, before) && (before.None? ==> tiebreakBefore == 0)
      ensures SplitOk(g, Snapshot(), k, seen + ChildDeps(t, txData[t].activeChildren), candidate)
      ensures candidate.None? ==> bestTiebreak == 0
    {
      hide RepOk, View, ForestCosts.Performed, ForestCosts.Charges, ForestCosts.Begins, Improvable, SplitOk;
      ghost var d := Snapshot();
      candidate, bestTiebreak := before, tiebreakBefore;
      assert seen + ChildDeps(t, {}) == seen;
      var todo := txData[t].activeChildren;
      ghost var done: set<nat> := {};
      while todo != {}
        invariant done + todo == txData[t].activeChildren
        invariant SplitOk(g, d, k, seen + ChildDeps(t, done), candidate)
        invariant candidate.None? ==> bestTiebreak == 0
        decreases |todo|
      {
        var c :| c in todo;
        OwnActive(g, d, t, c);
        ImprovableIff(g, d, Dep(t, c));
        ghost var prior := candidate;
        if setInfo[k].feerate.Lower(setInfo[txData[t].depTop[c]].feerate) {
          var tiebreak := Random();
          if tiebreak >= bestTiebreak {
            candidate, bestTiebreak := Some(Dep(t, c)), tiebreak;
          }
        }
        SplitOkStep(g, d, k, seen + ChildDeps(t, done), prior, Dep(t, c), candidate);
        assert seen + ChildDeps(t, done + {c}) == seen + ChildDeps(t, done) + {Dep(t, c)};
        todo, done := todo - {c}, done + {c};
      }
    }

    /** A random dependency of chunk `k` whose top set has higher feerate than the chunk, if any. */
    method PickDependencyToSplit(k: nat) returns (candidate: Option<Dep>)
      requires Valid() && k in chunkIdxs && k < |setInfo|
      modifies this`cost, this`history
      ensures Valid() && cost >= old(cost) && Snapshot() == old(Snapshot())
      ensures candidate.Some? ==>
                && HasTop(Snapshot(), candidate.value) && txData[candidate.value.parent].chunk == k
                && Improvable(g, State(), candidate.value)
      ensures candidate.None? ==> ChunkOptimal(g, State(), k)
    {
      hide RepOk, View, ForestCosts.Performed, ForestCosts.Charges, ForestCosts.Begins, Improvable, ChunkOptimal;
      candidate := FindDependency(k);
      ChunkSize(g, Snapshot(), k);
      ForestCosts.ScanCharges(g, State(), k, setInfo[k].txns);
      Spend(8 * |setInfo[k].txns| + 9, ForestCosts.PickDependency(k));
    }

    method FindDependency(k: nat) returns (candidate: Option<Dep>)
      requires Valid() && k in chunkIdxs && k < |setInfo|
      ensures candidate.Some? ==>
                && HasTop(Snapshot(), candidate.value) && txData[candidate.value.parent].chunk == k
                && Improvable(g, State(), candidate.value)
      ensures candidate.None? ==> ChunkOptimal(g, State(), k)
    {
      hide RepOk, View, ForestCosts.Performed, ForestCosts.Charges, ForestCosts.Begins, Improvable, ChunkOptimal;
      ghost var d := Snapshot();
      ChunkTxns(g, d, k);
      candidate := None;
      var bestTiebreak := 0;
      var todo := setInfo[k].txns;
      ghost var done: set<nat> := {};
      while todo != {}
        invariant done !! todo && done + todo == setInfo[k].txns
        invariant candidate.None? ==> bestTiebreak == 0
        invariant SplitOk(g, d, k, DepsOf(d.tx, done), candidate)
        decreases |todo|
      {
        hide SplitOk;
        var t :| t in todo;
        SameChunk(g, d, t, k);
        candidate, bestTiebreak := PickDependencyOf(k, t, candidate, bestTiebreak, DepsOf(d.tx, done));
        DepsOfMore(d.tx, done, t);
        todo, done := todo - {t}, done + {t};
      }
      assert done == setInfo[k].txns;
      if candidate.None? {
        SplitCandidatesAll(g, d, k);
      }
    }

    /** Prepare for optimizing; the state must be topological. */
    method StartOptimizing()
      requires Valid() && suboptimalChunks == []
      modifies this`suboptimalChunks, this`suboptimalIdxs, this`cost, this`history, this`begins
      ensures Valid() && QueueOk() && Snapshot() == old(Snapshot()) && cost >= old(cost)
      ensures OptimalExcept(g, State(), suboptimalIdxs)
      ensures suboptimalIdxs == chunkIdxs && |suboptimalChunks| == |chunkIdxs|
      ensures ForestCosts.Began(old(begins), begins, old(cost), ForestCosts.OptimizeFirst)
    {
      hide RepOk, View, ForestCosts.Performed, ForestCosts.Charges, ForestCosts.Begins, ChunkOptimal;
      ViewFits(g, Snapshot());
      FillQueue();
      ForestCosts.StartCharges(g, State());
      SpendFirst(13 * |suboptimalChunks|, ForestCosts.StartOptimizing);
    }

    /** Try to improve the state. When this returns false, no active dependency's top set has
        higher feerate than its chunk. */
    method OptimizeStep() returns (more: bool)
      requires Valid() && QueueOk() && Fits(g, State()) && Topological(g, State())
               && OptimalExcept(g, State(), suboptimalIdxs)
      modifies this
      ensures Valid() && QueueOk() && cost > old(cost)
      ensures Fits(g, State()) && Fits(g, old(State()))
      ensures Topological(g, State()) && AtLeastAsGood(g, State(), old(State()))
      ensures (forall lam: real :: Diagram(g, State(), lam) == Diagram(g, old(State()), lam)) ||
              exists e :: StrictlyBetter(g, State(), old(State()), e)
      ensures OptimalExcept(g, State(), suboptimalIdxs)
      ensures !more ==> suboptimalChunks == [] && NothingImprovable(g, State())
      ensures Optimizes(g, old(State()), old(suboptimalChunks), State(), suboptimalChunks, more)
      ensures ForestCosts.Began(old(begins), begins, old(cost), ForestCosts.OptimizeOne)
    {
      hide RepOk, View, ForestCosts.Performed, ForestCosts.Charges, ForestCosts.Begins, Topological, Improvable,
           OptimalExcept, NothingImprovable, ChunkOptimal, Forest.Valid, ChunkRate, Diagram, Cluster.GainOf, TakesFirst,
           Divided;
      ghost var d, f := Snapshot(), State();
      ViewFits(g, d);
      var next := PickChunkToOptimize();
      if next.None? {
        AllOptimal(g, f, old(suboptimalIdxs));
        NothingIsOptimal(g, f, suboptimalIdxs);
        return false;
      }
      var k := next.value;
      FewerOptimal(g, f, old(suboptimalIdxs), suboptimalIdxs, k);
      ghost var rest := suboptimalChunks;
      var dep := PickDependencyToSplit(k);
      if dep.None? {
        assert OptimizesOne(g, f, old(suboptimalChunks), f, rest, rest != [], k, rest);
        FewerOptimal(g, f, old(suboptimalIdxs), suboptimalIdxs, k);
        more := suboptimalChunks != [];
        if !more {
          assert suboptimalIdxs == {};
          AllOptimal(g, f, suboptimalIdxs);
        }
        return;
      }
      DeactivateView(g, Snapshot(), dep.value);
      NotOptimal(g, f, k, dep.value);
      ghost var selfMerged, ip := Improve(dep.value.parent, dep.value.child);
      assert OptimizesOne(g, f, old(suboptimalChunks), State(), suboptimalChunks, true, k, rest);
      if selfMerged { SameIsGood(g, State(), f); }
      return true;
    }

    /** What minimization maintains: nothing to improve, chunks in dependency order by feerate, and
        every chunk that is not queued minimal. */
    ghost predicate Minimizing()
      reads this
    {
      && Valid()
      && Fits(g, State()) && NothingImprovable(g, State()) && WeaklyTopological(g, State())
      && QueueMinimal(g, State(), nonminimalChunks)
    }

    /** A random member of a set. */
    method PickRandomTx(s: set<nat>) returns (t: nat)
      requires s != {}
      ensures t in s
    {
      var random := Random();
      var pos: nat, todo := random % |s|, s;
      t :| t in todo;
      while pos > 0
        invariant todo <= s && pos < |todo| && t in todo
        decreases pos
      {
        todo := todo - {t};
        pos := pos - 1;
        assert |todo| > 0;
        t :| t in todo;
      }
    }

    /** Prepare for minimizing; nothing must be left to improve. */
    method StartMinimizing()
      requires Valid() && Fits(g, State()) && NothingImprovable(g, State()) && Topological(g, State())
      modifies this`nonminimalChunks, this`cost, this`history, this`begins
      ensures Minimizing() && Snapshot() == old(Snapshot()) && cost >= old(cost)
      ensures |nonminimalChunks| == |chunkIdxs| && (forall i | i in chunkIdxs :: Queued(nonminimalChunks, i))
      ensures forall e | e in nonminimalChunks :: !e.second
      ensures ForestCosts.Began(old(begins), begins, old(cost), ForestCosts.MinimizeFirst)
    {
      hide RepOk, View, ForestCosts.Performed, ForestCosts.Charges, ForestCosts.Begins, NothingImprovable, Topological,
           WeaklyTopological, MinimalChunk, EntryOk;
      ghost var d, f := Snapshot(), State();
      ViewFits(g, d);
      TopologicalIsWeak(g, f);
      nonminimalChunks := [];
      var todo := chunkIdxs;
      while todo != {}
        invariant todo <= chunkIdxs && cost == old(cost) && history == old(history) && begins == old(begins)
        invariant |nonminimalChunks| + |todo| == |chunkIdxs|
        invariant DistinctChunks(nonminimalChunks)
        invariant forall e | e in nonminimalChunks :: EntryOk(g, f, e) && !e.second
        invariant forall i | i in chunkIdxs :: i in todo <==> !Queued(nonminimalChunks, i)
        decreases |todo|
      {
        var k :| k in todo;
        PartNonEmpty(f, k);
        var pivot := PickRandomTx(setInfo[k].txns);
        var random := Random();
        var e := Entry(k, pivot, random % 2 == 1, false);
        Appended(nonminimalChunks, e);
        FreshEntry(g, f, e);
        nonminimalChunks := nonminimalChunks + [e];
        todo := todo - {k};
        nonminimalChunks := RandomSwap(nonminimalChunks);
      }
      ForestCosts.StartCharges(g, State());
      SpendFirst(18 * |nonminimalChunks|, ForestCosts.StartMinimizing);
    }

    /** Swap the last entry with a random one. */
    method RandomSwap(q: seq<Entry>) returns (r: seq<Entry>)
      requires q != [] && DistinctChunks(q)
      ensures DistinctChunks(r) && |r| == |q|
      ensures forall e :: e in r <==> e in q
      ensures forall i :: Queued(r, i) <==> Queued(q, i)
    {
      r := q;
      var random := Random();
      var j, last := random % |q|, |q| - 1;
      if j != last {
        r := q[j := q[last]][last := q[j]];
        assert forall k | 0 <= k < |q| :: q[k] == r[if k == j then last else if k == last then j else k];
        assert forall e :: e in r <==> e in q;
      }
    }

    /** Look among the active dependencies of one transaction `t` of chunk `k`. */
    method ScanTx(k: nat, t: nat, pivot: nat, down: bool, anyBefore: bool, before: Option<Dep>, tiebreakBefore: nat,
                  ghost seen: set<Dep>)
      returns (haveAny: bool, candidate: Option<Dep>, bestTiebreak: nat)
      requires Valid() && NothingImprovable(g, State()) && k in chunkIdxs && k < |setInfo| && t in txData
               && txData[t].chunk == k
      requires ScanOk(g, Snapshot(), k, pivot, down, seen, anyBefore, before) && (before.None? <==> tiebreakBefore == 0)
      ensures ScanOk(g, Snapshot(), k, pivot, down, seen + ChildDeps(t, txData[t].activeChildren), haveAny, candidate)
      ensures candidate.None? <==> bestTiebreak == 0
    {
      hide RepOk, View, ForestCosts.Performed, ForestCosts.Charges, ForestCosts.Begins, EqualTop, ScanOk,
           NothingImprovable;
      ghost var d := Snapshot();
      haveAny, candidate, bestTiebreak := anyBefore, before, tiebreakBefore;
      assert seen + ChildDeps(t, {}) == seen;
      var todo := txData[t].activeChildren;
      ghost var done: set<nat> := {};
      while todo != {}
        invariant done + todo == txData[t].activeChildren
        invariant ScanOk(g, d, k, pivot, down, seen + ChildDeps(t, done), haveAny, candidate)
        invariant candidate.None? <==> bestTiebreak == 0
        decreases |todo|
      {
        var c :| c in todo;
        OwnActive(g, d, t, c);
        EqualTopIff(g, d, Dep(t, c));
        ghost var anyPrior, prior := haveAny, candidate;
        var top := setInfo[txData[t].depTop[c]];
        if !top.feerate.Lower(setInfo[k].feerate) {
          haveAny := true;
          if down != (pivot in top.txns) {
            var random := Random();
            var tiebreak := 2 * random + 1;
            if tiebreak > bestTiebreak {
              candidate, bestTiebreak := Some(Dep(t, c)), tiebreak;
            }
          }
        }
        ScanStep(g, d, k, pivot, down, seen + ChildDeps(t, done), anyPrior, prior, Dep(t, c), haveAny, candidate);
        assert seen + ChildDeps(t, done + {c}) == seen + ChildDeps(t, done) + {Dep(t, c)};
        todo, done := todo - {c}, done + {c};
      }
    }

    /** A random dependency of chunk `k` with an equal-feerate top set that has the pivot in it (or,
        moving down, out of it). */
    method ScanChunk(k: nat, pivot: nat, down: bool) returns (haveAny: bool, candidate: Option<Dep>)
      requires Valid() && NothingImprovable(g, State()) && k in chunkIdxs && k < |setInfo| && pivot in setInfo[k].txns
      ensures candidate.Some? ==>
                && haveAny
                && HasTop(Snapshot(), candidate.value) && txData[candidate.value.parent].chunk == k
                && EqualTop(g, State(), candidate.value)
                && (pivot in setInfo[TopIdx(Snapshot(), candidate.value)].txns <==> !down)
      ensures candidate.None? ==>
                if down then NoneBelow(g, State().Part(k), pivot) else NoneAbove(g, State().Part(k), pivot)
      ensures candidate.None? && !haveAny ==> MinimalChunk(g, State().Part(k))
      ensures haveAny <==> AnyEqual(g, State(), k)
      ensures if candidate.Some? then EqualAt(g, State(), k, pivot, down, candidate.value)
              else !AnyEqualAt(g, State(), k, pivot, down)
    {
      hide RepOk, View, ForestCosts.Performed, ForestCosts.Charges, ForestCosts.Begins, EqualTop, NothingImprovable,
           NoneAbove, NoneBelow, MinimalChunk;
      ghost var d := Snapshot();
      ChunkTxns(g, d, k);
      var bestTiebreak := 0;
      haveAny, candidate := false, None;
      var todo := setInfo[k].txns;
      ghost var done: set<nat> := {};
      while todo != {}
        invariant done !! todo && done + todo == setInfo[k].txns
        invariant candidate.None? <==> bestTiebreak == 0
        invariant ScanOk(g, d, k, pivot, down, DepsOf(d.tx, done), haveAny, candidate)
        decreases |todo|
      {
        hide ScanOk;
        var t :| t in todo;
        SameChunk(g, d, t, k);
        haveAny, candidate, bestTiebreak :=
          ScanTx(k, t, pivot, down, haveAny, candidate, bestTiebreak, DepsOf(d.tx, done));
        DepsOfMore(d.tx, done, t);
        todo, done := todo - {t}, done + {t};
      }
      assert done == setInfo[k].txns;
      ScanFound(g, d, k, pivot, down, haveAny, candidate);
      if candidate.None? {
        ScanDone(g, d, k, pivot, down, haveAny);
      }
    }

    /** The top half depends on the bottom half: merge them back and queue the chunk again. */
    method MergeEqual(ip: nat, ic: nat, e: Entry, rest: seq<Entry>, ghost f: Forest, ghost dep: Dep)
      requires Valid() && ip in chunkIdxs && ic in chunkIdxs && ip != ic && ip < |setInfo| && ic < |setInfo|
      requires exists h :: h in g.deps && h.parent in setInfo[ic].txns && h.child in setInfo[ip].txns
      requires EqualTop(g, f, dep) && f.CanDeactivate(dep, ip) && f.chunk[dep.parent] == ic
               && State() == f.Deactivated(dep, ip)
      requires NothingImprovable(g, f) && WeaklyTopological(g, f) && QueueMinimal(g, f, [e] + rest) && e.chunk == ic
      modifies this
      ensures begins == old(begins)
      ensures Minimizing() && cost > old(cost)
      ensures forall lam: real :: Diagram(g, State(), lam) == Diagram(g, f, lam)
      ensures Rejoined(g, f, State(), dep, ip) && nonminimalChunks == rest + [e.(chunk := ip)]
    {
      hide RepOk, View, ForestCosts.Performed, ForestCosts.Charges, ForestCosts.Begins, WeaklyTopological,
           NothingImprovable, QueueMinimal, Forest.Deactivated, Forest.Activated, Forest.Part, EqualTop, Diagram,
           Rejoined;
      ViewFits(g, Snapshot());
      ghost var h;
      var merged;
      merged, h := MergeChunks(ic, ip);
      EqualRejoined(g, f, dep, ip, h, e, rest);
      nonminimalChunks := rest + [e.(chunk := merged)];
      ForestCosts.EndCharges(g, State());
      Spend(7, ForestCosts.MinimizeEnd(false));
    }

    /** The split stands: queue both halves. */
    method QueueHalves(ip: nat, ic: nat, e: Entry, rest: seq<Entry>, ghost f: Forest, ghost dep: Dep)
      requires Valid() && ip in chunkIdxs && ic in chunkIdxs && ip != ic && ip < |setInfo| && ic < |setInfo|
      requires EqualTop(g, f, dep) && f.CanDeactivate(dep, ip) && f.chunk[dep.parent] == ic
               && State() == f.Deactivated(dep, ip)
      requires !TopNeedsBottom(g, f.Deactivated(dep, ip), ip, ic)
      requires NothingImprovable(g, f) && WeaklyTopological(g, f) && QueueMinimal(g, f, [e] + rest) && e.chunk == ic
      requires e.pivot in f.top[dep] <==> !e.down
      modifies this`nonminimalChunks, this`cost, this`history
      ensures Minimizing() && Snapshot() == old(Snapshot()) && cost > old(cost)
      ensures HalvesQueued(State(), e, rest, ip, nonminimalChunks)
    {
      hide RepOk, View, ForestCosts.Performed, ForestCosts.Charges, ForestCosts.Begins, WeaklyTopological,
           NothingImprovable, QueueMinimal, Forest.Deactivated, EqualTop, EntryOk, TopNeedsBottom, HalvesQueued;
      ghost var q := [e] + rest;
      EqualIsOk(g, f, dep);
      HeadOk(g, f, q);
      ViewFits(g, Snapshot());
      EqualSplitOptimal(g, f, dep, ip);
      EqualSplitWeak(g, f, dep, ip);
      SplitEntry(g, f, dep, ip, e);
      SplitSame(g, f, dep, ip);
      PartNonEmpty(State(), if e.down then ip else ic);
      var newPivot := PickRandomTx(setInfo[if e.down then ip else ic].txns);
      var random := Random();
      var kept := e.(chunk := if e.down then ic else ip);
      var other := Entry(if e.down then ip else ic, newPivot, random % 2 == 1, false);
      FreshEntry(g, State(), other);
      var a, b := if e.down then other else kept, if e.down then kept else other;
      assert q[1..] == rest;
      RequeueSplit(g, f, State(), q, ip, a, b);
      nonminimalChunks := rest + [a] + [b];
      var flip := Random();
      if flip % 2 == 1 {
        SwapLast(g, State(), rest, a, b);
        nonminimalChunks := rest + [b] + [a];
      }
      QueuedHalves(State(), e, rest, ip, kept, other, nonminimalChunks);
      ForestCosts.EndCharges(g, State());
      Spend(17 + 7, ForestCosts.MinimizeEnd(true));
    }

    /** Try to split a chunk in equal-feerate parts. When this returns false, no chunk can be. */
    method MinimizeStep() returns (more: bool)
      requires Minimizing()
      modifies this
      ensures Minimizing()
      ensures Fits(g, old(State())) && forall lam: real :: Diagram(g, State(), lam) == Diagram(g, old(State()), lam)
      ensures more ==> cost > old(cost)
      ensures !more ==> cost == old(cost) && State() == old(State()) && AllMinimal(g, State())
      ensures more <==> old(nonminimalChunks) != []
      ensures Minimizes(g, old(State()), old(nonminimalChunks), State(), nonminimalChunks)
      ensures if more then ForestCosts.Began(old(begins), begins, old(cost), ForestCosts.MinimizeOne)
              else begins == old(begins)
    {
      hide RepOk, View, ForestCosts.Performed, ForestCosts.Charges, ForestCosts.Begins, WeaklyTopological,
           NothingImprovable, QueueMinimal, AllMinimal, EntryOk, NoneAbove, NoneBelow, MinimalChunk;
      hide Forest.Deactivated, EqualTop, TopNeedsBottom, Diagram, EqualAt, HalvesQueued, Rejoined, DividesEqual,
           AnyEqual;
      ghost var d, f, q := Snapshot(), State(), nonminimalChunks;
      if nonminimalChunks == [] {
        EmptyQueue(g, f);
        return false;
      }
      more := true;
      var e, rest := nonminimalChunks[0], nonminimalChunks[1..];
      assert q == [e] + rest;
      HeadEntry(g, d, q);
      nonminimalChunks := rest;
      var k := e.chunk;
      var haveAny, candidate := ScanChunk(k, e.pivot, e.down);
      ChunkSize(g, d, k);
      ForestCosts.ScanCharges(g, f, k, setInfo[k].txns);
      SpendFirst(11 * |setInfo[k].txns| + 11, ForestCosts.MinimizeScan(k));
      if !haveAny {
        PopMinimal(g, f, q);
        return;
      }
      if candidate.None? {
        // All found dependencies have the pivot in the wrong place: try the other direction, unless
        // that was done already.
        SecondStage(g, f, q);
        if !e.second {
          nonminimalChunks := rest + [Entry(k, e.pivot, !e.down, true)];
        }
        return;
      }
      DivideEqual(e, rest, candidate.value);
    }

    /** Divide the chunk along the dependency, and queue the halves, or put them together again. */
    method DivideEqual(e: Entry, rest: seq<Entry>, dep: Dep)
      requires Valid() && HasTop(Snapshot(), dep) && EqualAt(g, State(), e.chunk, e.pivot, e.down, dep)
      requires NothingImprovable(g, State()) && WeaklyTopological(g, State()) && QueueMinimal(g, State(), [e] + rest)
      modifies this
      ensures begins == old(begins)
      ensures Minimizing() && Fits(g, old(State())) && cost > old(cost)
      ensures forall lam: real :: Diagram(g, State(), lam) == Diagram(g, old(State()), lam)
      ensures exists ip :: DividesEqual(g, old(State()), e, rest, State(), nonminimalChunks, dep, ip)
    {
      hide RepOk, View, ForestCosts.Performed, ForestCosts.Charges, ForestCosts.Begins, WeaklyTopological,
           NothingImprovable, QueueMinimal, EntryOk, HalvesQueued, Rejoined, Forest.Deactivated, EqualTop,
           TopNeedsBottom, Diagram;
      ghost var d, f := Snapshot(), State();
      DeactivateView(g, d, dep);
      ViewFits(g, d);
      var ip, ic := Deactivate(dep.parent, dep.child);
      OverlapIff(g, Snapshot(), ip, ic);
      ViewFits(g, Snapshot());
      forall lam: real ensures Diagram(g, f.Deactivated(dep, ip), lam) == Diagram(g, f, lam) {
        EqualSplitDiagram(g, f, dep, ip, lam);
      }
      if reachable[ip].up * setInfo[ic].txns != {} {
        MergeEqual(ip, ic, e, rest, f, dep);
      } else {
        QueueHalves(ip, ic, e, rest, f, dep);
      }
      assert DividesEqual(g, f, e, rest, State(), nonminimalChunks, dep, ip);
    }

    /** The last transaction of a chunk in the fallback order. */
    method LastOf(k: nat, last: (nat, nat) -> bool) returns (x: nat)
      requires Valid() && k in chunkIdxs && k < |setInfo| && Emission.StrictOrder(g.txns, last)
      ensures Emission.IsLast(setInfo[k].txns, last, x)
    {
      hide RepOk;
      ChunkNonEmpty(g, Snapshot(), k);
      x := Emission.Front(setInfo[k].txns, (a, b) => last(b, a));
    }

    /** Count the dependencies on an included transaction `t` of chunk `k` as met. */
    method MeetChildren(k: nat, t: nat, last: (nat, nat) -> bool, before: Emission.Progress, ghost e: set<nat>,
                        ghost done: set<nat>)
      returns (p: Emission.Progress)
      requires Valid() && Emission.StrictOrder(g.txns, last) && k in done && t in State().Part(k) && t in e
      requires Emission.ProgressOk(g, State(), last, done, k, e, Emission.Pending(g, e, t, g.Children(t)), before)
      requires forall c | c in g.Children(t) :: c !in e
      ensures Emission.ProgressOk(g, State(), last, done, k, e, Emission.Unmet(g, e), p)
    {
      hide RepOk, View, ForestCosts.Performed, ForestCosts.Charges, ForestCosts.Begins, Emission.ProgressOk,
           Emission.IsLast, Emission.Pending, Emission.Unmet, Emission.StrictOrder;
      ghost var d, f := Snapshot(), State();
      ViewFits(g, d);
      p := before;
      ChildrenExact(g, d, t);
      var todo := txData[t].children;
      while todo != {}
        invariant todo <= g.Children(t)
        invariant Emission.ProgressOk(g, f, last, done, k, e, Emission.Pending(g, e, t, todo), p)
        decreases |todo|
      {
        var c :| c in todo;
        Emission.PendingStep(g, e, t, todo, c);
        ReachedChunk(g, d, c);
        var i := txData[c].chunk;
        var x := LastOf(i, last);
        Emission.MeetOk(g, f, last, done, k, e, Emission.Pending(g, e, t, todo), p, Dep(t, c), x);
        p := Emission.Meet(p, k, c, i, x);
        todo := todo - {c};
      }
      Emission.PendingDone(g, e, t);
    }

    /** The transactions of chunk `k` without unmet dependencies. */
    method FirstReady(k: nat, txDeps: map<nat, nat>, chunkDeps: map<nat, nat>, ghost e: set<nat>, ghost u: set<Dep>)
      returns (ready: set<nat>)
      requires Valid() && k in chunkIdxs && k < |setInfo| && State().Part(k) !! e
      requires Emission.Counted(g, State(), u, txDeps, chunkDeps)
      ensures ready == Emission.ReadyTxs(State(), e, u, k)
    {
      hide RepOk, View, ForestCosts.Performed, ForestCosts.Charges, ForestCosts.Begins, Emission.In, Emission.Into;
      ViewFits(g, Snapshot());
      ChunkTxns(g, Snapshot(), k);
      ready := set t | t in setInfo[k].txns && txDeps[t] == 0;
      assert forall t | t in setInfo[k].txns :: txDeps[t] == 0 <==> Emission.In(u, t) == {};
    }

    /** Append the transactions of chunk `k` to the output. */
    method EmitChunk(k: nat, last: (nat, nat) -> bool, before: seq<nat>, start: Emission.Progress, ghost done: set<nat>)
      returns (l: seq<nat>, p: Emission.Progress)
      requires Valid() && Emission.StrictOrder(g.txns, last) && g.Acyclic() && k in chunkIdxs && k < |setInfo|
      requires Emission.Collected(g, State(), done, before) && k !in done && Emission.TxGreedy(g, State(), last, before)
      requires Emission.ProgressOk(g, State(), last, done + {k}, k, Elems(before), Emission.Unmet(g, Elems(before)),
                                   start)
      ensures before <= l && Distinct(l) && ParentsFirst(g, l) && g.AncestorClosed(Elems(l))
      ensures Elems(l) == Elems(before) + State().Part(k) && Emission.TxGreedy(g, State(), last, l)
      ensures Emission.ProgressOk(g, State(), last, done + {k}, k, Elems(l), Emission.Unmet(g, Elems(l)), p)
    {
      hide RepOk, View, ForestCosts.Performed, ForestCosts.Charges, ForestCosts.Begins, Elems, Distinct, ParentsFirst,
           Cluster.AncestorClosed, Cluster.Acyclic, Emission.Unmet, Emission.Pending, Emission.TxGreedy,
           Emission.Collected, Emission.ProgressOk, Emission.StrictOrder, Emission.TxAfter, Forest.Part, Forest.Valid;
      ghost var f := State();
      ViewFits(g, Snapshot());
      Emission.CollectedFacts(g, f, done, before);
      l, p := before, start;
      Emission.ProgressFacts(g, f, last, done + {k}, k, Elems(l), p);
      while p.readyTx != {}
        invariant before <= l && Distinct(l) && ParentsFirst(g, l) && g.AncestorClosed(Elems(l))
        invariant Elems(before) <= Elems(l) <= Elems(before) + f.Part(k)
        invariant Emission.TxGreedy(g, f, last, l)
        invariant Emission.ProgressOk(g, f, last, done + {k}, k, Elems(l), Emission.Unmet(g, Elems(l)), p)
        invariant p.readyTx == Emission.ReadyTxs(f, Elems(l), Emission.Unmet(g, Elems(l)), k) && p.readyTx <= g.txns
                  && p.readyTx <= f.Part(k)
        decreases |f.Part(k) - Elems(l)|
      {
        ghost var e := Elems(l);
        var t := Emission.BestTx(g, last, p.readyTx);
        Emission.TakeTx(g, f, last, done + {k}, k, e, p, t);
        Emission.IncludeTx(g, f, l, t, k);
        PartMember(f, t, k);
        Emission.TxGreedyAppend(g, f, last, l, t);
        l := l + [t];
        assert f.Part(k) - Elems(l) < f.Part(k) - e;
        Strict(f.Part(k) - Elems(l), f.Part(k) - e);
        Emission.NoEarlyChild(g, t, Elems(l));
        p := MeetChildren(k, t, last, p.(readyTx := p.readyTx - {t}), Elems(l), done + {k});
        Emission.ProgressFacts(g, f, last, done + {k}, k, Elems(l), p);
      }
      Emission.ChunkFinished(g, f, last, done + {k}, k, Elems(l), p);
      assert Elems(l) == Elems(before) + f.Part(k);
    }

    /** The numbers of parents, and of out-of-chunk parents. */
    method CountParents() returns (txDeps: map<nat, nat>, chunkDeps: map<nat, nat>)
      requires Valid()
      ensures Emission.Counted(g, State(), g.deps, txDeps, chunkDeps)
    {
      hide RepOk, View, ForestCosts.Performed, ForestCosts.Charges, ForestCosts.Begins, Emission.Counted,
           Emission.CountedOn, Emission.Zeros, Cluster.Parents, Forest.Valid, Forest.Part;
      ghost var d, f := Snapshot(), State();
      FitsOnly(g, d);
      txDeps, chunkDeps := Emission.Zeros(g.txns), Emission.Zeros(chunkIdxs);
      Emission.CountNone(g, f);
      var todo := g.txns;
      ghost var done: set<nat> := {};
      while todo != {}
        invariant done !! todo && done + todo == g.txns
        invariant Emission.CountedOn(g, f, done, txDeps, chunkDeps)
        decreases |todo|
      {
        var t :| t in todo;
        TxFacts(g, d, t);
        var k := txData[t].chunk;
        Emission.CountTx(g, f, done, txDeps, chunkDeps, t);
        txDeps := txDeps[t := |txData[t].parents|];
        chunkDeps := chunkDeps[k := chunkDeps[k] + |txData[t].parents - setInfo[k].txns|];
        todo, done := todo - {t}, done + {t};
      }
      assert done == g.txns;
      Emission.CountDone(g, f, txDeps, chunkDeps);
    }

    /** The chunks without unmet dependencies. */
    method InitiallyReady(last: (nat, nat) -> bool, txDeps: map<nat, nat>, chunkDeps: map<nat, nat>)
      returns (ready: map<nat, nat>)
      requires Valid() && Emission.StrictOrder(g.txns, last) && Emission.Counted(g, State(), g.deps, txDeps, chunkDeps)
      ensures ready.Keys == Emission.ReadyChunks(State(), {}, g.deps)
      ensures forall i | i in ready :: Emission.IsLast(State().Part(i), last, ready[i])
    {
      hide RepOk, View, ForestCosts.Performed, ForestCosts.Charges, ForestCosts.Begins, Emission.Counted,
           Emission.ReadyChunks, Emission.IsLast, Emission.StrictOrder, Forest.Valid, Forest.Part;
      ghost var d, f := Snapshot(), State();
      FitsOnly(g, d);
      ready := map[];
      var todo := chunkIdxs;
      ghost var all := Emission.ReadyChunks(f, {}, g.deps);
      Emission.ReadyAreChunks(f, {}, g.deps);
      while todo != {}
        invariant todo <= chunkIdxs && ready.Keys == all - todo
        invariant forall i | i in ready :: Emission.IsLast(f.Part(i), last, ready[i])
        decreases |todo|
      {
        var k :| k in todo;
        ChunkFacts(g, d, k);
        Emission.ReadyIff(g, f, g.deps, txDeps, chunkDeps, k);
        if chunkDeps[k] == 0 {
          var x := LastOf(k, last);
          ready := ready[k := x];
        }
        todo := todo - {k};
      }
    }

    /** Output a linearization: chunks from high to low feerate, each sorted topologically. `last`
        is the order to break ties by (`last(a, b)`: `a` sorts after `b`). */
    method GetLinearization(last: (nat, nat) -> bool)
      returns (l: seq<nat>, ghost chunks: seq<nat>, ghost segs: seq<seq<nat>>)
      requires Valid() && Emission.StrictOrder(g.txns, last) && g.Acyclic()
      requires Fits(g, State()) && WeaklyTopological(g, State())
      ensures IsLinearization(g, l)
      ensures Fits(g, State()) && forall lam: real :: Peak(g, l, lam) >= Diagram(g, State(), lam)
      ensures Emission.TxGreedy(g, State(), last, l) && LaidOut(g, State(), last, chunks, segs, l)
    {
      hide RepOk, View, ForestCosts.Performed, ForestCosts.Charges, ForestCosts.Begins, WeaklyTopological,
           Cluster.Acyclic, Emission.StrictOrder, Emission.Collected, Emission.Waiting, Emission.TxGreedy,
           Emission.Counted, Emission.ProgressOk, Emission.ReadyTxs, Emission.Unmet, Elems, IsLinearization, Peak,
           Diagram, Forest.Valid, Forest.Part;
      ghost var d, f := Snapshot(), State();
      ViewFits(g, d);
      var txDeps, chunkDeps := CountParents();
      var ready := InitiallyReady(last, txDeps, chunkDeps);
      var p := Emission.Progress(txDeps, chunkDeps, {}, ready);
      l, chunks, segs := [], [], [];
      Emission.StartSorting(g, f, last, p);
      Emission.NoneCollected(g, f);
      NoElems();
      Emission.TxGreedyNone(g, f, last);
      LaidNone(g, f, last);
      while p.ready != map[]
        invariant Emission.Collected(g, f, Elems(chunks), l) && Emission.TxGreedy(g, f, last, l)
        invariant Emission.Waiting(g, f, last, Elems(chunks), Elems(l), p) && Laid(g, f, last, chunks, segs, l)
        decreases |f.chunk.Values - Elems(chunks)|
      {
        l, p, chunks, segs := EmitBest(last, l, p, chunks, segs);
      }
      Emission.FinishedAll(g, f, last, Elems(chunks), l, p);
      Emission.AllCollected(g, f, l);
    }

    /** Pop the best ready chunk and append it. */
    method EmitBest(last: (nat, nat) -> bool, before: seq<nat>, p0: Emission.Progress, ghost chunks0: seq<nat>,
                    ghost segs0: seq<seq<nat>>)
      returns (l: seq<nat>, p: Emission.Progress, ghost chunks: seq<nat>, ghost segs: seq<seq<nat>>)
      requires Valid() && Emission.StrictOrder(g.txns, last) && g.Acyclic()
      requires Fits(g, State()) && WeaklyTopological(g, State()) && p0.ready != map[]
      requires Emission.Collected(g, State(), Elems(chunks0), before) && Emission.TxGreedy(g, State(), last, before)
      requires Emission.Waiting(g, State(), last, Elems(chunks0), Elems(before), p0)
               && Laid(g, State(), last, chunks0, segs0, before)
      ensures Emission.Collected(g, State(), Elems(chunks), l) && Emission.TxGreedy(g, State(), last, l)
      ensures Emission.Waiting(g, State(), last, Elems(chunks), Elems(l), p) && Laid(g, State(), last, chunks, segs, l)
      ensures |State().chunk.Values - Elems(chunks)| < |State().chunk.Values - Elems(chunks0)|
    {
      hide RepOk, View, ForestCosts.Performed, ForestCosts.Charges, ForestCosts.Begins, WeaklyTopological,
           Cluster.Acyclic, Emission.StrictOrder, Emission.Collected, Emission.Waiting, Emission.TxGreedy,
           Emission.Counted, Emission.ProgressOk, Emission.ReadyTxs, Emission.Unmet, Elems, Forest.Valid,
           Emission.ChunkAfter, ChunkRate, Laid, Available, LaterChunk;
      ghost var d, f, done := Snapshot(), State(), Elems(chunks0);
      ViewFits(g, d);
      WaitingChunks(g, d, last, done, before, p0);
      var k := Emission.BestChunk(g, setInfo, last, p0.ready);
      BestRate(g, d, last, done, before, p0, k);
      BestFirst(g, d, last, done, before, p0, k);
      WaitingPart(g, d, last, done, before, p0, k);
      var readyTx := FirstReady(k, p0.txDeps, p0.chunkDeps, Elems(before), Emission.Unmet(g, Elems(before)));
      var p1 := p0.(ready := p0.ready - {k}, readyTx := readyTx);
      Emission.StopWaiting(g, f, last, done, Elems(before), p0, k, p1);
      l, p := EmitChunk(k, last, before, p1, done);
      Emission.CollectChunk(g, f, done, k, before, l);
      Emission.WaitAgain(g, f, last, done + {k}, k, Elems(l), p);
      chunks, segs := chunks0 + [k], segs0 + [l[|before|..]];
      SegIsChunk(g, f, before, l, k);
      LaidPush(g, f, last, chunks0, segs0, before, k, l[|before|..]);
      assert f.chunk.Values - Elems(chunks) < f.chunk.Values - done by { assert k in f.chunk.Values - done; }
      Strict(f.chunk.Values - Elems(chunks), f.chunk.Values - done);
    }
  }

  /** What was appended is the chunk. */
  lemma SegIsChunk(g: Cluster, f: Forest, before: seq<nat>, l: seq<nat>, k: nat)
    requires before <= l && Distinct(l) && Elems(l) == Elems(before) + f.Part(k) && f.Part(k) !! Elems(before)
             && k in f.chunk.Values
    ensures l == before + l[|before|..] && Elems(l[|before|..]) == f.Part(k) && l[|before|..] != []
  {
    hide Forest.Part;
    var s := l[|before|..];
    ConcatElems(before, s);
    PartNonEmpty(f, k);
    assert l == before + s;
  }

  lemma BestFirst(g: Cluster, d: Data, last: (nat, nat) -> bool, done: set<nat>, l: seq<nat>, p: Emission.Progress,
                  k: nat)
    requires RepOk(g, d) && Emission.StrictOrder(g.txns, last)
    requires Emission.Collected(g, View(g, d), done, l) && Emission.Waiting(g, View(g, d), last, done, Elems(l), p)
    requires k in p.ready && forall i | i in p.ready :: !Emission.ChunkAfter(d.sets, last, p.ready, k, i)
    ensures Fits(g, View(g, d)) && k in Available(g, View(g, d), done)
    ensures forall j | j in Available(g, View(g, d), done) :: !LaterChunk(g, View(g, d), last, k, j)
  {
    hide RepOk, View, ForestCosts.Performed, ForestCosts.Charges, ForestCosts.Begins, ChunkRate, Rate, Emission.Counted,
         Emission.IsLast, Emission.Unmet, Emission.ReadyChunks, Emission.StrictOrder, LaterChunk, Cluster.FeeOf;
    var f := View(g, d);
    ViewFits(g, d);
    WaitingChunks(g, d, last, done, l, p);
    assert p.ready.Keys == Available(g, f, done);
    forall j | j in Available(g, f, done) ensures !LaterChunk(g, f, last, k, j) {
      assert j in p.ready && k in p.ready;
      StoredFee(g, d, k);
      StoredFee(g, d, j);
      TopOfHeap(g, f, last, d.sets, p.ready, k, j);
    }
  }

  lemma StoredFee(g: Cluster, d: Data, i: nat)
    requires RepOk(g, d) && i in d.chunkIdxs
    ensures Fits(g, View(g, d)) && i < |d.sets| && d.sets[i].feerate == g.FeeOf(View(g, d).Part(i))
  {
    hide Cluster.FeeOf, View, TopsOk, ReachOf, Cluster.Parents, Cluster.Children, Forest.Valid, Forest.Part;
    ViewChunks(g, d);
  }

  lemma WaitingChunks(g: Cluster, d: Data, last: (nat, nat) -> bool, done: set<nat>, l: seq<nat>, p: Emission.Progress)
    requires RepOk(g, d) && Emission.Waiting(g, View(g, d), last, done, Elems(l), p)
    ensures forall i | i in p.ready ::
            p.ready[i] in g.txns && i in d.chunkIdxs && i < |d.sets| && d.sets[i].feerate.size > 0 && i !in done
  {
    hide RepOk, View, ForestCosts.Performed, ForestCosts.Charges, ForestCosts.Begins, Emission.Counted, Emission.IsLast,
         Emission.ReadyChunks, Emission.Unmet;
    ViewFits(g, d);
    forall i | i in p.ready
      ensures p.ready[i] in g.txns && i in d.chunkIdxs && i < |d.sets| && d.sets[i].feerate.size > 0 && i !in done
    {
      Emission.ReadyIsChunk(View(g, d), done, Emission.Unmet(g, Elems(l)), i);
      Emission.LastInside(g, View(g, d), last, i, p.ready[i]);
      StoredRate(g, d, i);
    }
  }

  /** The chunk popped has the highest feerate of all that are left. */
  lemma BestRate(g: Cluster, d: Data, last: (nat, nat) -> bool, done: set<nat>, l: seq<nat>, p: Emission.Progress,
                 k: nat)
    requires RepOk(g, d) && Fits(g, View(g, d)) && WeaklyTopological(g, View(g, d))
    requires Emission.Collected(g, View(g, d), done, l) && Emission.Waiting(g, View(g, d), last, done, Elems(l), p)
    requires k in p.ready && forall i | i in p.ready :: !Emission.ChunkAfter(d.sets, last, p.ready, k, i)
    ensures k in View(g, d).chunk.Values && k !in done
    ensures forall j | j in View(g, d).chunk.Values && j !in done ::
            ChunkRate(g, View(g, d), k) >= ChunkRate(g, View(g, d), j)
  {
    hide RepOk, View, ForestCosts.Performed, ForestCosts.Charges, ForestCosts.Begins, WeaklyTopological, ChunkRate,
         Rate, Emission.Counted, Emission.IsLast, Emission.Unmet, Emission.ReadyChunks;
    var f := View(g, d);
    ViewFits(g, d);
    WaitingChunks(g, d, last, done, l, p);
    forall i | i in p.ready && i in f.chunk.Values ensures ChunkRate(g, f, k) >= ChunkRate(g, f, i) {
      assert !Emission.ChunkAfter(d.sets, last, p.ready, k, i);
      StoredRate(g, d, k);
      StoredRate(g, d, i);
      CompareIsRate(d.sets[k].feerate, d.sets[i].feerate);
    }
    Emission.BestHasHighestRate(g, f, done, p.ready.Keys, k);
  }

  lemma WaitingPart(g: Cluster, d: Data, last: (nat, nat) -> bool, done: set<nat>, l: seq<nat>, p: Emission.Progress,
                    k: nat)
    requires RepOk(g, d) && Emission.Collected(g, View(g, d), done, l)
             && Emission.Waiting(g, View(g, d), last, done, Elems(l), p)
    requires k in View(g, d).chunk.Values && k !in done
    ensures k in d.chunkIdxs && k < |d.sets| && View(g, d).Part(k) !! Elems(l)
    ensures Emission.Counted(g, View(g, d), Emission.Unmet(g, Elems(l)), p.txDeps, p.chunkDeps)
  {
    hide RepOk, View, ForestCosts.Performed, ForestCosts.Charges, ForestCosts.Begins, Emission.Counted, Emission.IsLast,
         Emission.ReadyChunks, Emission.Unmet, ChunkRate;
    ViewFits(g, d);
  }

  // ---- What the work costs

  lemma ActivateCharge(g: Cluster, d: Data, e: Dep, d': Data)
    requires View(g, d).CanActivate(g, e) && View(g, d') == View(g, d).Activated(e)
    requires CanActivate(d, e) && d.tx[e.child].chunk in d'.chunkIdxs && d.tx[e.child].chunk < |d'.sets|
    requires RepOk(g, d) && RepOk(g, d')
    ensures ForestCosts.Charges(g, View(g, d), ForestCosts.Activate(e), View(g, d'),
                                10 * (|d'.sets[d.tx[e.child].chunk].txns| - 1) + 1)
  {
    hide RepOk, View, Forest.Activated, Forest.Part, ForestCosts.Charges;
    ViewFits(g, d);
    ViewFits(g, d');
    ForestCosts.ActivateCharges(g, View(g, d), e, d'.sets[d.tx[e.child].chunk].txns);
  }

  lemma DeactivateCharge(g: Cluster, d: Data, e: Dep, ip: nat)
    requires View(g, d).CanDeactivate(e, ip)
    requires e.parent in d.tx && d.tx[e.parent].chunk in d.chunkIdxs && d.tx[e.parent].chunk < |d.sets|
    requires RepOk(g, d)
    ensures ForestCosts.Charges(g, View(g, d), ForestCosts.Deactivate(e, ip), View(g, d).Deactivated(e, ip),
                                11 * (|d.sets[d.tx[e.parent].chunk].txns| - 1) + 8)
  {
    hide RepOk, View, Forest.Deactivated, Forest.Part, ForestCosts.Charges;
    ViewFits(g, d);
    ForestCosts.DeactivateCharges(g, View(g, d), e, ip, d.sets[d.tx[e.parent].chunk].txns);
  }

  lemma ChunkSize(g: Cluster, d: Data, k: nat)
    requires RepOk(g, d) && k in d.chunkIdxs && k < |d.sets|
    ensures k in View(g, d).chunk.Values && View(g, d).Part(k) == d.sets[k].txns
  {
    hide RepOk, View;
    ViewFits(g, d);
  }
}
