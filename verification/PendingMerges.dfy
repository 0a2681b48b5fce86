/** The work queue with which an arbitrary forest is made topological. Chunks that were never
    merged are only tried in one direction; that is enough. */
module PendingMerges {
  import opened Clusters
  import opened Forests
  import opened Diagrams
  import opened Merging
  import opened Improving

  /** Chunk `k` will still be tried upward (downward): it is queued, and was either merged before
      or the initial direction is that one. */
  ghost predicate WillTry(q: set<nat>, merged: set<nat>, initDown: bool, down: bool, k: nat) {
    k in q && (k in merged || initDown == down)
  }

  /** Every dependency that is out of order will still be found, from one of its ends. */
  ghost predicate Pending(g: Cluster, f: Forest, q: set<nat>, merged: set<nat>, initDown: bool)
    requires Fits(g, f)
  {
    forall d | d in g.deps && Between(f, d) && !InOrder(g, f, d) ::
      || WillTry(q, merged, initDown, false, f.chunk[d.child])
      || WillTry(q, merged, initDown, true, f.chunk[d.parent])
  }

  lemma PendingStart(g: Cluster, f: Forest, initDown: bool)
    requires Fits(g, f)
    ensures Pending(g, f, f.chunk.Values, {}, initDown)
  {
    hide ChunkRate;
  }

  /** Nothing pending: the state is topological. */
  lemma PendingDone(g: Cluster, f: Forest, merged: set<nat>, initDown: bool)
    requires Fits(g, f) && Pending(g, f, {}, merged, initDown)
    ensures Topological(g, f)
  {
    hide ChunkRate;
  }

  /** An entry that is no chunk any more can be dropped. */
  lemma PendingStale(g: Cluster, f: Forest, q: set<nat>, merged: set<nat>, initDown: bool, k: nat)
    requires Fits(g, f) && Pending(g, f, q, merged, initDown) && k !in f.chunk.Values
    ensures Pending(g, f, q - {k}, merged, initDown)
  {
    hide ChunkRate, InOrder;
  }

  /** A chunk that found nothing to merge with, in the directions it is responsible for. */
  lemma PendingTried(g: Cluster, f: Forest, q: set<nat>, merged: set<nat>, initDown: bool, k: nat)
    requires Fits(g, f) && Pending(g, f, q, merged, initDown) && SpotOk(g, Spot(f, k))
    requires k in merged || !initDown ==> NoCandidate(g, Spot(f, k), false)
    requires k in merged || initDown ==> NoCandidate(g, Spot(f, k), true)
    ensures Pending(g, f, q - {k}, merged, initDown)
  {
    hide ChunkRate, Forest.Valid;
    forall d | d in g.deps && Between(f, d)
      ensures InOrder(g, f, d) || WillTry(q - {k}, merged, initDown, false, f.chunk[d.child])
              || WillTry(q - {k}, merged, initDown, true, f.chunk[d.parent])
    {
      if f.chunk[d.child] == k && (k in merged || !initDown) {
        assert Leaves(f, g.txns, false, k, d);
      }
      if f.chunk[d.parent] == k && (k in merged || initDown) {
        assert Leaves(f, g.txns, true, k, d);
      }
    }
  }

  /** After a merge, the resulting chunk is queued to be tried in both directions. */
  lemma PendingMerged(g: Cluster, from: Spot, to: Spot, down: bool, d: Dep, q: set<nat>, merged: set<nat>,
                      initDown: bool)
    requires GreedyStep(g, down, from, to, d) && Pending(g, from.f, q, merged, initDown)
    ensures SpotOk(g, to) && Pending(g, to.f, q - {from.k} + {to.k}, merged + {to.k}, initDown)
  {
    hide ChunkRate, Forest.Valid;
    GreedyStepOk(g, down, from, to, d);
    MergedValues(g, from.f, down, d);
    hide Forest.Activated;
    forall e | e in g.deps && Between(to.f, e) && !InOrder(g, to.f, e) && to.f.chunk[e.child] != to.k
      && to.f.chunk[e.parent] != to.k
      ensures Between(from.f, e) && !InOrder(g, from.f, e)
      ensures from.f.chunk[e.child] == to.f.chunk[e.child] && from.f.chunk[e.parent] == to.f.chunk[e.parent]
      ensures from.f.chunk[e.child] != from.k && from.f.chunk[e.parent] != from.k
    {
      MergedDep(g, from.f, d, e);
      var i, j := to.f.chunk[e.child], to.f.chunk[e.parent];
      assert Value(g, to.f, down, i) == Value(g, from.f, down, i)
             && Value(g, to.f, down, j) == Value(g, from.f, down, j);
    }
  }

  lemma PendingStepped(g: Cluster, from: Spot, to: Spot, down: bool, q: set<nat>, merged: set<nat>, initDown: bool)
    requires SpotOk(g, from) && Stepped(g, down, from, to) && Pending(g, from.f, q, merged, initDown)
    ensures SpotOk(g, to) && Pending(g, to.f, q - {from.k} + {to.k}, merged + {to.k}, initDown)
  {
    hide Pending, SpotOk, GreedyStep;
    var d :| GreedyStep(g, down, from, to, d);
    PendingMerged(g, from, to, down, d, q, merged, initDown);
  }

  lemma SpotIs(g: Cluster, s: Spot)
    requires Fits(g, s.f) && s.f.Valid(g) && s.k in s.f.chunk.Values
    ensures SpotOk(g, s)
  {
  }

  /** A topological state offers nothing to merge. */
  lemma NothingToMerge(g: Cluster, down: bool, from: Spot, to: Spot)
    requires SpotOk(g, from) && Stepped(g, down, from, to)
    ensures !Topological(g, from.f)
  {
    hide ChunkRate, Forest.Valid;
    var d :| GreedyStep(g, down, from, to, d);
    assert Between(from.f, d) && !InOrder(g, from.f, d);
  }
}
