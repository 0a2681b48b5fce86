/** Post-linearization in place, over linked groups. */
module PostLinearize {
  import opened FeeFracs
  import opened Clusters
  import opened Linearizations
  import opened Chunking
  import opened Ancestry
  import opened DepGraphs
  import opened PostGroups
  import opened PostMirror
  import opened PostEntries
  import PostTree

  // ---- One step of the moving group

  /** What `Absorb` does to the entries. */
  ghost predicate Absorbed(es: seq<TxEntry>, r: seq<TxEntry>, cur: nat, prev: nat)
    requires cur < |es| && prev < |es|
  {
    && |r| == |es|
    && r[cur] == TxEntry(if es[cur].firstTx == cur then prev else es[cur].prevTx, es[prev].firstTx, es[prev].prevGroup,
                         es[cur].group + es[prev].group, es[cur].deps + es[prev].deps,
                         es[cur].feerate.Plus(es[prev].feerate))
    && forall i | 0 <= i < |r| && i != cur ::
       r[i] == es[i].(prevTx := if i == es[cur].firstTx then prev else es[i].prevTx)
  }

  /** Merge the group of tail `prev` into the one of tail `cur`. */
  method Absorb(es: seq<TxEntry>, cur: nat, prev: nat) returns (r: seq<TxEntry>)
    requires cur < |es| && prev < |es| && es[cur].firstTx < |es| && cur != prev && es[cur].firstTx != prev
    ensures Absorbed(es, r, cur, prev)
  {
    r := es[cur := es[cur].(group := es[cur].group + es[prev].group)];
    r := r[cur := r[cur].(deps := r[cur].deps + r[prev].deps)];
    r := r[cur := r[cur].(feerate := r[cur].feerate.Plus(r[prev].feerate))];
    r := r[r[cur].firstTx := r[r[cur].firstTx].(prevTx := prev)];
    r := r[cur := r[cur].(firstTx := r[prev].firstTx)];
    r := r[cur := r[cur].(prevGroup := r[prev].prevGroup)];
  }

  /** What `Exchange` does to the entries. */
  ghost predicate Exchanged(es: seq<TxEntry>, r: seq<TxEntry>, cur: nat, prev: nat, next: nat)
    requires cur < |es| && prev < |es|
  {
    && |r| == |es|
    && forall i | 0 <= i < |r| ::
         r[i] == es[i].(prevGroup := if i == cur then es[prev].prevGroup else if i == prev then cur
                        else if i == next then prev else es[i].prevGroup)
  }

  /** Exchange the groups of tails `prev` and `cur`, which `next` follows. */
  method Exchange(es: seq<TxEntry>, cur: nat, prev: nat, next: nat) returns (r: seq<TxEntry>)
    requires cur < |es| && prev < |es| && next < |es| && cur != prev && cur != next && prev != next
    ensures Exchanged(es, r, cur, prev, next)
  {
    var preprev := es[prev].prevGroup;
    r := es[next := es[next].(prevGroup := prev)];
    r := r[prev := r[prev].(prevGroup := cur)];
    r := r[cur := r[cur].(prevGroup := preprev)];
  }

  lemma {:induction false} SegsApart(g: Cluster, segs: seq<seq<nat>>, i: nat, j: nat)
    requires Segmented(g, segs) && i < j < |segs|
    ensures Elems(segs[i]) !! Elems(segs[j])
    decreases |segs|
  {
    hide Elems, Distinct, Flatten;
    var n := |segs| - 1;
    assert segs == segs[..n] + [segs[n]];
    SegmentedPush(g, segs[..n], segs[n]);
    if j < n {
      SegsApart(g, segs[..n], i, j);
    } else {
      SegmentedAt(g, segs[..n], i);
    }
  }

  /** The groups other than `c` stay described when only entries of `c` and the ring change. */
  lemma OthersDescribed(es: seq<TxEntry>, es': seq<TxEntry>, up: map<nat, set<nat>>, g: Cluster, segs: seq<seq<nat>>,
                        k: nat)
    requires AllDescribed(es, up, g, segs) && Segmented(g, segs) && k < |segs| && |es'| == |es|
    requires forall t: nat | t + 1 < |es| && t !in Elems(segs[k]) ::
             es'[t + 1] == es[t + 1].(prevGroup := es'[t + 1].prevGroup)
    ensures forall i | 0 <= i < |segs| && i != k :: Described(es', up, g, segs[i])
  {
    hide Segmented, Described;
    forall i | 0 <= i < |segs| && i != k ensures Described(es', up, g, segs[i]) {
      if i < k { SegsApart(g, segs, i, k); } else { SegsApart(g, segs, k, i); }
      assert forall t | t in segs[i] :: t in Elems(segs[i]);
      DescribedSame(es, es', up, g, segs[i]);
    }
  }

  lemma Regroup(a: seq<seq<nat>>, c: seq<nat>, b: seq<seq<nat>>)
    requires a != []
    ensures var n := |a| - 1; a + [c] + b == a[..n] + [a[n]] + [c] + b
  {
  }

  lemma FlattenMerge(a: seq<seq<nat>>, p: seq<nat>, c: seq<nat>, b: seq<seq<nat>>)
    ensures Flatten(a + [p] + [c] + b) == Flatten(a + [p + c] + b)
  {
    hide Flatten;
    FlattenConcat(a + [p] + [c], b);
    FlattenPush(a + [p], c);
    FlattenPush(a, p);
    FlattenConcat(a + [p + c], b);
    FlattenPush(a, p + c);
  }

  lemma FlattenSwap(a: seq<seq<nat>>, p: seq<nat>, c: seq<nat>, b: seq<seq<nat>>)
    ensures Flatten(a + [p] + [c] + b) == Flatten(a) + p + c + Flatten(b)
    ensures Flatten(a + [c] + [p] + b) == Flatten(a) + c + p + Flatten(b)
  {
    hide Flatten;
    FlattenConcat(a + [p] + [c], b);
    FlattenPush(a + [p], c);
    FlattenPush(a, p);
    FlattenConcat(a + [c] + [p], b);
    FlattenPush(a + [c], p);
    FlattenPush(a, c);
  }

  lemma SegmentedMerge(g: Cluster, a: seq<seq<nat>>, p: seq<nat>, c: seq<nat>, b: seq<seq<nat>>)
    requires Segmented(g, a + [p] + [c] + b)
    ensures Segmented(g, a + [p + c] + b)
  {
    hide Flatten;
    FlattenMerge(a, p, c, b);
    var segs, segs' := a + [p] + [c] + b, a + [p + c] + b;
    assert segs[|a| + 1] == c;
    forall i | 0 <= i < |segs'| ensures segs'[i] != [] {
      assert segs[if i <= |a| then i else i + 1] != [];
    }
  }

  lemma SegmentedSwap(g: Cluster, a: seq<seq<nat>>, p: seq<nat>, c: seq<nat>, b: seq<seq<nat>>)
    requires Segmented(g, a + [p] + [c] + b)
    ensures Segmented(g, a + [c] + [p] + b)
  {
    hide Flatten, Distinct, Elems;
    FlattenSwap(a, p, c, b);
    var x, y := Flatten(a), Flatten(b);
    ConcatElems(x, p);
    ConcatElems(x + p, c);
    ConcatElems(x + p + c, y);
    ConcatElems(x, c);
    ConcatElems(x + c, p);
    ConcatElems(x + c + p, y);
    var segs, segs' := a + [p] + [c] + b, a + [c] + [p] + b;
    forall i | 0 <= i < |segs'| ensures segs'[i] != [] {
      assert segs[if i == |a| then i + 1 else if i == |a| + 1 then i - 1 else i] != [];
    }
  }

  lemma AbsorbListed(es: seq<TxEntry>, up: map<nat, set<nat>>, g: Cluster, a: seq<seq<nat>>, p: seq<nat>, c: seq<nat>,
                     b: seq<seq<nat>>, r: seq<TxEntry>)
    requires Listed(es, up, g, a + [p] + [c] + b) && Segmented(g, a + [p] + [c] + b) && p != [] && c != []
    requires TailOf(p) < |es| && TailOf(c) < |es| && Absorbed(es, r, TailOf(c), TailOf(p))
    ensures Listed(r, up, g, a + [p + c] + b)
  {
    hide Segmented, Described, Ring, SegFee, Above;
    var segs, segs' := a + [p] + [c] + b, a + [p + c] + b;
    var n := |a|;
    assert segs[n] == p && segs[n + 1] == c;
    SegmentedAt(g, segs, n);
    SegmentedAt(g, segs, n + 1);
    SegsApart(g, segs, n, n + 1);
    AbsorbBodies(es, up, g, p, c, r);
    OthersDescribed(es, r, up, g, segs, n + 1);
    forall i | 0 <= i < |segs'| ensures Described(r, up, g, segs'[i]) {
      if i != n { assert segs'[i] == segs[if i < n then i else i + 1]; }
    }
    AbsorbRing(es, a, p, c, b, r);
    SegmentedMerge(g, a, p, c, b);
    SegmentedNonEmpty(g, segs');
  }

  lemma SegmentedNonEmpty(g: Cluster, segs: seq<seq<nat>>)
    requires Segmented(g, segs)
    ensures NonEmpty(segs)
  {
  }

  lemma AbsorbBodies(es: seq<TxEntry>, up: map<nat, set<nat>>, g: Cluster, p: seq<nat>, c: seq<nat>, r: seq<TxEntry>)
    requires Described(es, up, g, p) && Described(es, up, g, c) && IsSeg(g, p) && IsSeg(g, c) && Elems(p) !! Elems(c)
    requires TailOf(p) < |es| && TailOf(c) < |es| && Absorbed(es, r, TailOf(c), TailOf(p))
    ensures Described(r, up, g, p + c)
    ensures forall t: nat | t + 1 < |es| && t !in Elems(c) :: r[t + 1] == es[t + 1]
    ensures r[SENTINEL] == es[SENTINEL]
  {
    hide SegFee, Above, Cluster.Valid;
    var cur, prev := TailOf(c), TailOf(p);
    assert c[|c| - 1] in Elems(c) && c[0] in Elems(c) && p[|p| - 1] in Elems(p);
    DescribedMerge(es, up, g, p, c, r);
  }

  lemma AbsorbRing(es: seq<TxEntry>, a: seq<seq<nat>>, p: seq<nat>, c: seq<nat>, b: seq<seq<nat>>, r: seq<TxEntry>)
    requires NonEmpty(a + [p] + [c] + b) && p != [] && c != [] && Ring(es, Tails(a + [p] + [c] + b))
    requires TailOf(p) < |es| && TailOf(c) < |es| && Absorbed(es, r, TailOf(c), TailOf(p))
    ensures NonEmpty(a + [p + c] + b) && Ring(r, Tails(a + [p + c] + b))
  {
    hide Ring, Absorbed;
    FourTails(a, p, c, b);
    MergedTails(a, p, c, b);
    AbsorbTails(es, Tails(a), TailOf(p), TailOf(c), Tails(b), r);
  }

  lemma AbsorbTails(es: seq<TxEntry>, a: seq<nat>, p: nat, c: nat, b: seq<nat>, r: seq<TxEntry>)
    requires Ring(es, a + [p] + [c] + b) && p < |es| && c < |es| && Absorbed(es, r, c, p)
    ensures Ring(r, a + [c] + b)
  {
    hide Ring;
    assert a + [p] + [c] + b == a + [p] + ([c] + b);
    RingAt(es, a, p, [c] + b);
    RingDrop(es, a, p, c, b, r);
  }

  lemma MergedTails(a: seq<seq<nat>>, p: seq<nat>, c: seq<nat>, b: seq<seq<nat>>)
    requires NonEmpty(a) && NonEmpty(b) && c != []
    ensures NonEmpty(a + [p + c] + b) && Tails(a + [p + c] + b) == Tails(a) + [TailOf(c)] + Tails(b)
  {
    var segs := a + [p + c] + b;
    forall i | 0 <= i < |segs| ensures segs[i] != [] {}
    ThreeTails(a, p + c, b);
  }

  lemma ExchangeListed(es: seq<TxEntry>, up: map<nat, set<nat>>, g: Cluster, a: seq<seq<nat>>, p: seq<nat>, c: seq<nat>,
                       b: seq<seq<nat>>, r: seq<TxEntry>)
    requires Listed(es, up, g, a + [p] + [c] + b) && p != [] && c != [] && NonEmpty(b)
    requires TailOf(p) < |es| && TailOf(c) < |es| && Exchanged(es, r, TailOf(c), TailOf(p), NextOf(Tails(b)))
    ensures Listed(r, up, g, a + [c] + [p] + b)
  {
    hide Described, Ring, SegFee, Above;
    var segs, segs' := a + [p] + [c] + b, a + [c] + [p] + b;
    forall i | 0 <= i < |segs'| ensures Described(r, up, g, segs'[i]) && segs'[i] != [] {
      var j := if i == |a| then i + 1 else if i == |a| + 1 then i - 1 else i;
      assert segs'[i] == segs[j];
      DescribedSame(es, r, up, g, segs[j]);
    }
    ExchangeRing(es, a, p, c, b, r);
  }

  lemma ExchangeRing(es: seq<TxEntry>, a: seq<seq<nat>>, p: seq<nat>, c: seq<nat>, b: seq<seq<nat>>, r: seq<TxEntry>)
    requires NonEmpty(a + [p] + [c] + b) && NonEmpty(a + [c] + [p] + b) && p != [] && c != [] && NonEmpty(b)
    requires Ring(es, Tails(a + [p] + [c] + b))
    requires TailOf(p) < |es| && TailOf(c) < |es| && Exchanged(es, r, TailOf(c), TailOf(p), NextOf(Tails(b)))
    ensures Ring(r, Tails(a + [c] + [p] + b))
  {
    hide Ring, Exchanged;
    FourTails(a, p, c, b);
    FourTails(a, c, p, b);
    ExchangeTails(es, Tails(a), TailOf(p), TailOf(c), Tails(b), r);
  }

  lemma ExchangeTails(es: seq<TxEntry>, a: seq<nat>, p: nat, c: nat, b: seq<nat>, r: seq<TxEntry>)
    requires Ring(es, a + [p] + [c] + b) && p < |es| && c < |es| && Exchanged(es, r, c, p, NextOf(b))
    ensures Ring(r, a + [c] + [p] + b)
  {
    hide Ring;
    assert a + [p] + [c] + b == a + [p] + ([c] + b);
    RingAt(es, a, p, [c] + b);
    RingSwap(es, a, p, c, b, r);
  }

  /** The group before the moving one, with its entries. */
  lemma Neighbours(es: seq<TxEntry>, up: map<nat, set<nat>>, g: Cluster, a: seq<seq<nat>>, c: seq<nat>,
                   b: seq<seq<nat>>)
    requires Moving(es, up, g, a, c, b) && a != []
    ensures var p := a[|a| - 1];
            && NonEmpty(b) && NonEmpty(a[..|a| - 1]) && p != [] && c != []
            && TailOf(p) < |es| && TailOf(c) < |es| && es[TailOf(c)].firstTx < |es|
            && TailOf(c) != TailOf(p) && es[TailOf(c)].firstTx != TailOf(p)
            && NextOf(Tails(b)) < |es| && NextOf(Tails(b)) != TailOf(p) && NextOf(Tails(b)) != TailOf(c)
            && LastOf(Tails(a[..|a| - 1])) == es[TailOf(p)].prevGroup
  {
    hide SegFee, Above, Ready, Cluster.AncestorClosed, Segmented, Ring, Described;
    var n := |a| - 1;
    var p := a[n];
    var segs := a + [c] + b;
    assert segs[n] == p && segs[n + 1] == c;
    SegsApart(g, segs, n, n + 1);
    FirstNotTail(es, up, g, p, c);
    Regroup(a, c, b);
    FourTails(a[..n], p, c, b);
    TailNeighbours(es, Tails(a[..n]), TailOf(p), TailOf(c), Tails(b));
  }

  lemma FirstNotTail(es: seq<TxEntry>, up: map<nat, set<nat>>, g: Cluster, p: seq<nat>, c: seq<nat>)
    requires Described(es, up, g, c) && Described(es, up, g, p) && Elems(p) !! Elems(c)
    ensures TailOf(p) < |es| && TailOf(c) < |es| && es[TailOf(c)].firstTx < |es|
    ensures TailOf(c) != TailOf(p) && es[TailOf(c)].firstTx != TailOf(p)
  {
    hide Above, SegFee;
    assert p[|p| - 1] in Elems(p) && c[|c| - 1] in Elems(c) && c[0] in Elems(c);
  }

  lemma TailNeighbours(es: seq<TxEntry>, a: seq<nat>, p: nat, c: nat, b: seq<nat>)
    requires Ring(es, a + [p] + [c] + b)
    ensures p < |es| && es[p].prevGroup == LastOf(a)
    ensures NextOf(b) < |es| && NextOf(b) != p && NextOf(b) != c
  {
    ThreeApart(es, a, p, c, b);
    hide Ring;
    assert a + [p] + [c] + b == a + [p] + ([c] + b);
    RingAt(es, a, p, [c] + b);
    RingAt(es, a + [p], c, b);
  }

  lemma ThreeApart(es: seq<TxEntry>, a: seq<nat>, p: nat, c: nat, b: seq<nat>)
    requires Ring(es, a + [p] + [c] + b)
    ensures NextOf(b) != p && NextOf(b) != c
  {
    hide BeforeAt;
    var ts := a + [p] + [c] + b;
    assert ts[|a|] == p && ts[|a| + 1] == c;
    assert b != [] ==> ts[|a| + 2] == b[0];
  }

  lemma AbsorbMoving(es: seq<TxEntry>, up: map<nat, set<nat>>, g: Cluster, a: seq<seq<nat>>, c: seq<nat>,
                     b: seq<seq<nat>>, r: seq<TxEntry>)
    requires Moving(es, up, g, a, c, b) && a != [] && a[|a| - 1] != [] && c != []
    requires SegFee(g, a[|a| - 1]).Lower(SegFee(g, c)) && DependsOn(g, c, a[|a| - 1])
    requires TailOf(a[|a| - 1]) < |es| && TailOf(c) < |es| && Absorbed(es, r, TailOf(c), TailOf(a[|a| - 1]))
    ensures Moving(r, up, g, a[..|a| - 1], a[|a| - 1] + c, b)
  {
    hide SegFee, Above, Ready, Segmented, Listed, Elems, Flatten, Absorbed, FeeFrac.Lower, DependsOn;
    var n := |a| - 1;
    Regroup(a, c, b);
    MergeReady(g, a, c);
    AbsorbListed(es, up, g, a[..n], a[n], c, b, r);
    SegmentedMerge(g, a[..n], a[n], c, b);
  }

  lemma ExchangeMoving(es: seq<TxEntry>, up: map<nat, set<nat>>, fees: map<nat, FeeFrac>, a: seq<seq<nat>>, c: seq<nat>,
                       b: seq<seq<nat>>, r: seq<TxEntry>)
    requires IsOrder(up) && IsAcyclic(up)
    requires Moving(es, up, ClusterOf(up, fees), a, c, b) && a != [] && a[|a| - 1] != [] && c != [] && NonEmpty(b)
    requires !DependsOn(ClusterOf(up, fees), c, a[|a| - 1])
    requires TailOf(a[|a| - 1]) < |es| && TailOf(c) < |es|
             && Exchanged(es, r, TailOf(c), TailOf(a[|a| - 1]), NextOf(Tails(b)))
    ensures Moving(r, up, ClusterOf(up, fees), a[..|a| - 1], c, [a[|a| - 1]] + b)
  {
    hide SegFee, Above, Segmented, Listed, Elems, Flatten, Exchanged, FeeFrac.Lower, DependsOn, ClusterOf, IsOrder,
         IsAcyclic, Cluster.AncestorClosed, Joined, Tight;
    var g := ClusterOf(up, fees);
    var n := |a| - 1;
    var p := a[n];
    Regroup(a, c, b);
    assert a[..n] + [c] + ([p] + b) == a[..n] + [c] + [p] + b;
    ExchangeListed(es, up, g, a[..n], p, c, b, r);
    SegmentedSwap(g, a[..n], p, c, b);
    SwapReady(g, a, c);
    DepOrNot(up, fees, a, c);
  }

  /** The overlap test of the moving group with the one before it. */
  lemma DepOrNot(up: map<nat, set<nat>>, fees: map<nat, FeeFrac>, a: seq<seq<nat>>, c: seq<nat>)
    requires IsOrder(up) && IsAcyclic(up) && a != [] && Ready(ClusterOf(up, fees), a, c)
    requires ClusterOf(up, fees).AncestorClosed(Elems(Flatten(a)) + Elems(c))
    ensures var g, n := ClusterOf(up, fees), |a| - 1;
            && (Above(up, Elems(c)) !! Elems(a[n]) <==> !DependsOn(g, c, a[n]))
            && (!DependsOn(g, c, a[n]) ==> g.AncestorClosed(Elems(Flatten(a[..n])) + Elems(c)))
  {
    hide SegFee, Above, Segmented, Elems, Flatten, FeeFrac.Lower, DependsOn, ClusterOf, IsOrder, IsAcyclic,
         Cluster.AncestorClosed, Joined, Tight, ParentsFirst;
    var n := |a| - 1;
    LastSegs(ClusterOf(up, fees), a, c);
    SegmentedPush(ClusterOf(up, fees), a, c);
    OverlapIsDep(up, fees, Flatten(a[..n]), a[n], c);
  }

  lemma MovingReady(es: seq<TxEntry>, up: map<nat, set<nat>>, g: Cluster, a: seq<seq<nat>>, c: seq<nat>,
                    b: seq<seq<nat>>)
    requires Moving(es, up, g, a, c, b)
    ensures Ready(g, a, c) && g.AncestorClosed(Elems(Flatten(a)) + Elems(c)) && Listed(es, up, g, a + [c] + b)
  {
  }

  lemma InsertLast(g: Cluster, a: seq<seq<nat>>, c: seq<nat>)
    ensures a == [] || !SegFee(g, a[|a| - 1]).Lower(SegFee(g, c)) ==> Insert(g, a, c) == a + [c]
    ensures a != [] && SegFee(g, a[|a| - 1]).Lower(SegFee(g, c)) ==>
              Insert(g, a, c) == if DependsOn(g, c, a[|a| - 1]) then Insert(g, a[..|a| - 1], a[|a| - 1] + c)
                                 else Insert(g, a[..|a| - 1], c) + [a[|a| - 1]]
  {
  }

  lemma AbsorbedLength(es: seq<TxEntry>, r: seq<TxEntry>, cur: nat, prev: nat)
    requires cur < |es| && prev < |es| && Absorbed(es, r, cur, prev)
    ensures |r| == |es|
  {
  }

  lemma ExchangedLength(es: seq<TxEntry>, r: seq<TxEntry>, cur: nat, prev: nat, next: nat)
    requires cur < |es| && prev < |es| && Exchanged(es, r, cur, prev, next)
    ensures |r| == |es|
  {
  }

  lemma OverlapIff(a: set<nat>, b: set<nat>)
    ensures a * b == {} <==> a !! b
  {
    assert forall t | t in a && t in b :: t in a * b;
  }

  /** Merge with the group before, or exchange with it. */
  method Advance(es: seq<TxEntry>, ghost up: map<nat, set<nat>>, ghost fees: map<nat, FeeFrac>, cur: nat, prev: nat,
                 next: nat,
                 ghost a: seq<seq<nat>>, ghost c: seq<nat>, ghost b: seq<seq<nat>>)
    returns (r: seq<TxEntry>, prev': nat, next': nat, ghost c': seq<nat>, ghost b': seq<seq<nat>>)
    requires IsOrder(up) && IsAcyclic(up) && Moving(es, up, ClusterOf(up, fees), a, c, b) && a != []
    requires cur < |es| && prev < |es| && next < |es| && c != [] && cur == TailOf(c)
    requires NonEmpty(a) && NonEmpty(b) && prev == LastOf(Tails(a)) && next == NextOf(Tails(b))
    requires SegFee(ClusterOf(up, fees), a[|a| - 1]).Lower(SegFee(ClusterOf(up, fees), c))
    ensures Moving(r, up, ClusterOf(up, fees), a[..|a| - 1], c', b') && |r| == |es| && c' != [] && cur == TailOf(c')
    ensures NonEmpty(b') && prev' == LastOf(Tails(a[..|a| - 1])) && next' == NextOf(Tails(b'))
    ensures Insert(ClusterOf(up, fees), a[..|a| - 1], c') + b' == Insert(ClusterOf(up, fees), a, c) + b
  {
    hide SegFee, Above, Elems, DependsOn, ClusterOf, IsOrder, IsAcyclic, Moving, Absorbed, Exchanged, Insert, Ring,
         FeeFrac.Lower, Ready, Listed, Cluster.AncestorClosed;
    ghost var g := ClusterOf(up, fees);
    ghost var n := |a| - 1;
    ghost var p := a[n];
    MovingAt(es, up, g, a, c, b);
    Neighbours(es, up, g, a, c, b);
    MovingReady(es, up, g, a, c, b);
    DepOrNot(up, fees, a, c);
    InsertLast(g, a, c);
    prev' := es[prev].prevGroup;
    OverlapIff(es[cur].deps, es[prev].group);
    if es[cur].deps * es[prev].group != {} {
      r := Absorb(es, cur, prev);
      AbsorbedLength(es, r, cur, prev);
      AbsorbMoving(es, up, g, a, c, b, r);
      next', c', b' := next, p + c, b;
    } else {
      r := Exchange(es, cur, prev, next);
      ExchangedLength(es, r, cur, prev, next);
      ExchangeMoving(es, up, fees, a, c, b, r);
      next', c', b' := prev, c, [p] + b;
      assert Insert(g, a[..n], c) + [p] + b == Insert(g, a[..n], c) + ([p] + b);
    }
  }

  /** Let the group just appended move forward, merging and exchanging. */
  method MoveForward(es: seq<TxEntry>, ghost up: map<nat, set<nat>>, ghost fees: map<nat, FeeFrac>,
                     ghost segs: seq<seq<nat>>, cur: nat)
    returns (r: seq<TxEntry>)
    requires cur > 0 && IsOrder(up) && IsAcyclic(up) && Moving(es, up, ClusterOf(up, fees), segs, [cur - 1], [])
    ensures Listed(r, up, ClusterOf(up, fees), Insert(ClusterOf(up, fees), segs, [cur - 1])) && |r| == |es|
  {
    hide SegFee, Above, Elems, DependsOn, ClusterOf, IsOrder, IsAcyclic, Moving, Insert, Ring, Listed;
    ghost var g := ClusterOf(up, fees);
    ghost var a: seq<seq<nat>>, c: seq<nat>, b: seq<seq<nat>> := segs, [cur - 1], [];
    MovingAt(es, up, g, a, c, b);
    r := es;
    var next := SENTINEL;
    var prev := r[cur].prevGroup;
    assert Insert(g, a, c) + b == Insert(g, segs, [cur - 1]);
    while r[prev].feerate.Lower(r[cur].feerate)
      invariant Moving(r, up, g, a, c, b) && |r| == |es|
      invariant cur < |r| && prev < |r| && next < |r| && c != [] && cur == TailOf(c)
      invariant NonEmpty(a) && NonEmpty(b) && prev == LastOf(Tails(a)) && next == NextOf(Tails(b))
      invariant Insert(g, a, c) + b == Insert(g, segs, [cur - 1])
      decreases |a|
    {
      MovingAt(r, up, g, a, c, b);
      r, prev, next, c, b := Advance(r, up, fees, cur, prev, next, a, c, b);
      a := a[..|a| - 1];
      MovingAt(r, up, g, a, c, b);
    }
    MovingAt(r, up, g, a, c, b);
    InsertLast(g, a, c);
    MovingReady(r, up, g, a, c, b);
  }

  // ---- A pass

  /** Append a group of just `idx`, at the back of the list. */
  method AppendGroup(es: seq<TxEntry>, idx: nat, deps: set<nat>, feerate: FeeFrac,
                     ghost up: map<nat, set<nat>>, ghost g: Cluster, ghost segs: seq<seq<nat>>)
    returns (r: seq<TxEntry>)
    requires Listed(es, up, g, segs) && idx + 1 < |es| && (forall i | 0 <= i < |segs| :: idx !in segs[i])
    requires idx in up && deps == up[idx] && idx in g.feerate && feerate == g.feerate[idx]
    ensures |r| == |es| && Listed(r, up, g, segs + [[idx]])
  {
    r := es[idx + 1 := TxEntry(NO_PREV_TX, idx + 1, es[SENTINEL].prevGroup, {idx}, deps, feerate)];
    r := r[SENTINEL := r[SENTINEL].(prevGroup := idx + 1)];
    AppendListed(es, r, idx, up, g, segs);
  }

  lemma AppendListed(es: seq<TxEntry>, r: seq<TxEntry>, idx: nat, up: map<nat, set<nat>>, g: Cluster,
                     segs: seq<seq<nat>>)
    requires Listed(es, up, g, segs) && idx + 1 < |es| && (forall i | 0 <= i < |segs| :: idx !in segs[i])
    requires idx in up && idx in g.feerate && |r| == |es|
    requires r[idx + 1] == TxEntry(NO_PREV_TX, idx + 1, es[SENTINEL].prevGroup, {idx}, up[idx], g.feerate[idx])
    requires r[SENTINEL] == es[SENTINEL].(prevGroup := idx + 1)
    requires forall i | 0 < i < |es| && i != idx + 1 :: r[i] == es[i]
    ensures Listed(r, up, g, segs + [[idx]])
  {
    hide Described, Ring, Tails;
    var segs' := segs + [[idx]];
    forall i | 0 <= i < |segs'| ensures segs'[i] != [] && Described(r, up, g, segs'[i]) {
      if i < |segs| {
        DescribedSame(es, r, up, g, segs[i]);
      } else {
        SingleDescribed(r, up, g, idx);
      }
    }
    TailsConcat(segs, [[idx]]);
    SingleTail(idx);
    NotATail(segs, idx);
    RingAppend(es, Tails(segs), idx + 1, r);
  }

  lemma SingleTail(idx: nat)
    ensures NonEmpty([[idx]]) && Tails([[idx]]) == [idx + 1]
  {
  }

  lemma NotATail(segs: seq<seq<nat>>, idx: nat)
    requires NonEmpty(segs) && forall i | 0 <= i < |segs| :: idx !in segs[i]
    ensures idx + 1 !in Tails(segs)
  {
  }

  lemma SingleDescribed(es: seq<TxEntry>, up: map<nat, set<nat>>, g: Cluster, idx: nat)
    requires idx in up && idx in g.feerate && idx + 1 < |es|
    requires es[idx + 1].(prevGroup := 0) == TxEntry(NO_PREV_TX, idx + 1, 0, {idx}, up[idx], g.feerate[idx])
    ensures Described(es, up, g, [idx])
  {
    assert Elems([idx]) == {idx};
    assert Above(up, {idx}) == up[idx];
    g.FeeOfSingleton(idx);
  }

  /** After appending, the new group may move. */
  lemma AppendMoving(es: seq<TxEntry>, up: map<nat, set<nat>>, g: Cluster, l: seq<nat>, i: nat)
    requires g.Valid() && IsLinearization(g, l) && i < |l| && Listed(es, up, g, Groups(g, l[..i]) + [[l[i]]])
    ensures Moving(es, up, g, Groups(g, l[..i]), [l[i]], [])
    ensures Groups(g, l[..i + 1]) == Insert(g, Groups(g, l[..i]), [l[i]])
  {
    hide Listed, Insert, Ready, Settled, Segmented, Flatten, IsLinearization, InOrder;
    var l' := l[..i + 1];
    assert l'[..i] == l[..i] && l'[i] == l[i] && l' == l[..i] + [l[i]];
    LinearizationPrefix(g, l, i + 1);
    LinearizationPrefix(g, l, i);
    GroupsSettled(g, l');
    GroupsSettled(g, l[..i]);
    var segs := Groups(g, l[..i]);
    assert segs + [[l[i]]] + [] == segs + [[l[i]]];
    ReadySegmented(g, segs, [l[i]]);
    PrefixClosed(g, l, i + 1);
    hide Cluster.AncestorClosed;
    AppendElems(l[..i], l[i]);
    assert Elems([l[i]]) == {l[i]};
  }

  lemma LinearizationPrefix(g: Cluster, l: seq<nat>, k: nat)
    requires g.Valid() && IsLinearization(g, l) && k <= |l|
    ensures InOrder(g, l[..k])
  {
    PrefixInOrder(g, l, k);
  }

  lemma ReadySegmented(g: Cluster, segs: seq<seq<nat>>, c: seq<nat>)
    requires Ready(g, segs, c)
    ensures Segmented(g, segs + [c])
  {
  }

  lemma NotInGroups(g: Cluster, l: seq<nat>, i: nat)
    requires g.Valid() && IsLinearization(g, l) && i < |l|
    ensures forall k | 0 <= k < |Groups(g, l[..i])| :: l[i] !in Groups(g, l[..i])[k]
  {
    hide Groups;
    PrefixInOrder(g, l, i);
    GroupsSettled(g, l[..i]);
    var segs := Groups(g, l[..i]);
    forall k | 0 <= k < |segs| ensures l[i] !in segs[k] {
      SegmentedAt(g, segs, k);
      assert l[i] !in Elems(l[..i]);
      assert l[i] !in Elems(segs[k]);
    }
  }

  // ---- Writing back

  /** The last `|out|` transactions of the new order are in place. */
  ghost predicate Written(lin: seq<nat>, rev: bool, out: seq<nat>) {
    |out| <= |lin| && if rev then lin[..|out|] == Backward(out) else lin[|lin| - |out|..] == out
  }

  lemma BackwardPrepend(t: nat, out: seq<nat>)
    ensures Backward([t] + out) == Backward(out) + [t]
  {
  }

  method WriteTx(lin: array<nat>, rev: bool, t: nat, done: nat, ghost out: seq<nat>)
    requires done == |out| < lin.Length && Written(lin[..], rev, out)
    modifies lin
    ensures Written(lin[..], rev, [t] + out)
  {
    BackwardPrepend(t, out);
    if rev {
      lin[done] := t;
      assert lin[..][..done + 1] == old(lin[..])[..done] + [t];
    } else {
      lin[lin.Length - (done + 1)] := t;
      assert lin[..][lin.Length - (done + 1)..] == [t] + old(lin[..])[lin.Length - done..];
    }
  }

  method WriteGroup(es: seq<TxEntry>, lin: array<nat>, rev: bool, tail: nat, done: nat, ghost s: seq<nat>,
                    ghost out: seq<nat>)
    returns (done': nat)
    requires s != [] && Chained(es, s) && tail == TailOf(s)
    requires done == |out| && done + |s| <= lin.Length && Written(lin[..], rev, out)
    modifies lin
    ensures done' == |s + out| && Written(lin[..], rev, s + out)
  {
    hide Written;
    var cur := tail;
    done' := done;
    ghost var j := |s|;
    ghost var o := out;
    while cur != NO_PREV_TX
      invariant 0 <= j <= |s| && o == s[j..] + out && done' == |o| && Written(lin[..], rev, o)
      invariant cur == if j == 0 then NO_PREV_TX else s[j - 1] + 1
      decreases j
    {
      WriteTx(lin, rev, cur - 1, done', o);
      done' := done' + 1;
      PrependNext(s, j, out);
      ChainAt(es, s, j - 1);
      o, j := [cur - 1] + o, j - 1;
      cur := es[cur].prevTx;
    }
    assert s[0..] == s;
  }

  lemma ChainAt(es: seq<TxEntry>, s: seq<nat>, j: nat)
    requires Chained(es, s) && j < |s|
    ensures s[j] + 1 < |es| && es[s[j] + 1].prevTx == if j == 0 then NO_PREV_TX else s[j - 1] + 1
  {
  }

  lemma PrependNext(s: seq<nat>, j: nat, out: seq<nat>)
    requires 0 < j <= |s|
    ensures [s[j - 1]] + (s[j..] + out) == s[j - 1..] + out
  {
  }

  method WriteBack(es: seq<TxEntry>, lin: array<nat>, rev: bool, ghost up: map<nat, set<nat>>, ghost g: Cluster,
                   ghost segs: seq<seq<nat>>)
    requires Listed(es, up, g, segs) && |Flatten(segs)| == lin.Length
    modifies lin
    ensures lin[..] == if rev then Backward(Flatten(segs)) else Flatten(segs)
  {
    hide Flatten, Ring, Tails, Written, Described;
    RingNonEmpty(es, Tails(segs));
    var cur := es[SENTINEL].prevGroup;
    var done := 0;
    ghost var k := |segs|;
    ghost var out: seq<nat> := [];
    FlattenNone();
    assert segs[k..] == [];
    NoneWritten(lin[..], rev);
    RingLast(es, segs, k);
    while cur != SENTINEL
      invariant 0 <= k <= |segs| && cur == (if k == 0 then SENTINEL else TailOf(segs[k - 1]))
      invariant out == Flatten(segs[k..]) && done == |out| && Written(lin[..], rev, out)
      decreases k
    {
      ghost var s := segs[k - 1];
      NextSuffix(segs, k);
      DescribedChain(es, up, g, s);
      done := WriteGroup(es, lin, rev, cur, done, s, out);
      out, k := s + out, k - 1;
      RingPrev(es, segs, k);
      cur := es[cur].prevGroup;
    }
    assert segs[0..] == segs;
    AllWritten(lin[..], rev, out);
  }

  lemma RingNonEmpty(es: seq<TxEntry>, ts: seq<nat>)
    requires Ring(es, ts)
    ensures es != []
  {
  }

  lemma NoneWritten(lin: seq<nat>, rev: bool)
    ensures Written(lin, rev, [])
  {
  }

  lemma AllWritten(lin: seq<nat>, rev: bool, out: seq<nat>)
    requires Written(lin, rev, out) && |out| == |lin|
    ensures lin == if rev then Backward(out) else out
  {
    assert lin[..|lin|] == lin;
  }

  lemma DescribedChain(es: seq<TxEntry>, up: map<nat, set<nat>>, g: Cluster, s: seq<nat>)
    requires Described(es, up, g, s)
    ensures s != [] && Chained(es, s)
  {
  }

  lemma FlattenNone()
    ensures Flatten([]) == []
  {
  }

  lemma RingLast(es: seq<TxEntry>, segs: seq<seq<nat>>, k: nat)
    requires NonEmpty(segs) && Ring(es, Tails(segs)) && k == |segs|
    ensures es[SENTINEL].prevGroup == if k == 0 then SENTINEL else TailOf(segs[k - 1])
  {
  }

  lemma RingPrev(es: seq<TxEntry>, segs: seq<seq<nat>>, k: nat)
    requires NonEmpty(segs) && Ring(es, Tails(segs)) && k < |segs|
    ensures TailOf(segs[k]) < |es| && es[TailOf(segs[k])].prevGroup == if k == 0 then SENTINEL else TailOf(segs[k - 1])
  {
    hide Ring, Tails;
    TailsAt(segs, k);
    RingIndex(es, Tails(segs), k);
    if k > 0 { TailsAt(segs, k - 1); }
  }

  lemma TailsAt(segs: seq<seq<nat>>, k: nat)
    requires NonEmpty(segs) && k < |segs|
    ensures |Tails(segs)| == |segs| && Tails(segs)[k] == TailOf(segs[k])
  {
  }

  lemma RingIndex(es: seq<TxEntry>, ts: seq<nat>, k: nat)
    requires Ring(es, ts) && k < |ts|
    ensures ts[k] < |es| && es[ts[k]].prevGroup == BeforeAt(ts, k)
  {
  }

  lemma NextSuffix(segs: seq<seq<nat>>, k: nat)
    requires 0 < k <= |segs|
    ensures Flatten(segs[k - 1..]) == segs[k - 1] + Flatten(segs[k..])
    ensures |segs[k - 1]| + |Flatten(segs[k..])| <= |Flatten(segs)|
  {
    hide Flatten;
    var s := segs[k - 1];
    assert segs[k - 1..] == [s] + segs[k..] && segs[k - 1..][1..] == segs[k..];
    FlattenFirst(segs[k - 1..]);
    assert segs == segs[..k - 1] + segs[k - 1..];
    FlattenConcat(segs[..k - 1], segs[k - 1..]);
  }

  // ---- Both passes

  ghost function Signed(rev: bool, f: FeeFrac): FeeFrac {
    if rev then Negated(f) else f
  }

  /** The ancestors a pass looks at: in a backward pass, the descendants. */
  ghost function PassUp(rev: bool, up: map<nat, set<nat>>): map<nat, set<nat>> {
    if rev then Down(up) else up
  }

  ghost function PassFees(rev: bool, fees: map<nat, FeeFrac>): map<nat, FeeFrac> {
    map t | t in fees :: Signed(rev, fees[t])
  }

  lemma PassCluster(rev: bool, up: map<nat, set<nat>>, fees: map<nat, FeeFrac>)
    requires IsOrder(up) && IsAcyclic(up) && ClusterOf(up, fees).Valid()
    ensures IsOrder(PassUp(rev, up)) && IsAcyclic(PassUp(rev, up))
    ensures ClusterOf(PassUp(rev, up), PassFees(rev, fees)) ==
            if rev then Mirror(ClusterOf(up, fees)) else ClusterOf(up, fees)
    ensures ClusterOf(PassUp(rev, up), PassFees(rev, fees)).Valid()
  {
    DownIsOrder(up);
    var g := ClusterOf(up, fees);
    MirrorValid(g);
    if rev {
      var m := ClusterOf(Down(up), PassFees(true, fees));
      forall d: Dep ensures d in m.deps <==> d in Mirror(g).deps {
        MirrorDeps(g, d);
        ClusterDep(up, fees, Turned(d));
        ClusterDep(Down(up), PassFees(true, fees), d);
        ReducedConverse(up, d.parent, d.child);
      }
      assert m.deps == Mirror(g).deps;
      assert m.feerate == Mirror(g).feerate;
    } else {
      assert PassFees(false, fees) == fees;
    }
  }

  ghost function PassResult(rev: bool, g: Cluster, l: seq<nat>): seq<nat> {
    if rev then BackwardPass(g, l) else Pass(g, l)
  }

  ghost function PassOrder(rev: bool, l: seq<nat>): seq<nat> {
    if rev then Backward(l) else l
  }

  /** Append the next transaction and let it move. */
  method AddTx(entry: Entry, es: seq<TxEntry>, idx: nat, rev: bool,
               ghost up: map<nat, set<nat>>, ghost fees: map<nat, FeeFrac>, ghost order: seq<nat>, ghost i: nat)
    returns (r: seq<TxEntry>)
    requires IsOrder(up) && IsAcyclic(up) && ClusterOf(up, fees).Valid() && IsLinearization(ClusterOf(up, fees), order)
    requires i < |order| && order[i] == idx && idx + 1 < |es|
    requires Listed(es, up, ClusterOf(up, fees), Groups(ClusterOf(up, fees), order[..i]))
    requires idx in up && up[idx] == if rev then entry.descendants else entry.ancestors
    requires idx in ClusterOf(up, fees).feerate && ClusterOf(up, fees).feerate[idx] == Signed(rev, entry.feerate)
    ensures |r| == |es| && Listed(r, up, ClusterOf(up, fees), Groups(ClusterOf(up, fees), order[..i + 1]))
  {
    hide ClusterOf, IsOrder, IsAcyclic, Groups, IsLinearization, Cluster.Valid, Listed, Moving, Insert;
    ghost var g := ClusterOf(up, fees);
    var deps := if rev then entry.descendants else entry.ancestors;
    var feerate := if rev then FeeFrac(-entry.feerate.fee, entry.feerate.size) else entry.feerate;
    NotInGroups(g, order, i);
    r := AppendGroup(es, idx, deps, feerate, up, g, Groups(g, order[..i]));
    AppendMoving(r, up, g, order, i);
    r := MoveForward(r, up, fees, Groups(g, order[..i]), idx + 1);
  }

  /** Build the groups of the pass from the linearization. */
  method BuildGroups(graph: DepGraph, es0: seq<TxEntry>, l: seq<nat>, rev: bool) returns (es: seq<TxEntry>)
    requires graph.Valid() && IsAcyclic(graph.Up()) && |es0| == |graph.entries| + 1 && es0[SENTINEL].feerate == EMPTY
    requires ClusterOf(graph.Up(), graph.Fees()).Valid() && IsLinearization(ClusterOf(graph.Up(), graph.Fees()), l)
    ensures |es| == |es0|
    ensures var up, fees := PassUp(rev, graph.Up()), PassFees(rev, graph.Fees());
            Listed(es, up, ClusterOf(up, fees), Groups(ClusterOf(up, fees), PassOrder(rev, l)))
  {
    ghost var up, fees := PassUp(rev, graph.Up()), PassFees(rev, graph.Fees());
    ghost var g := ClusterOf(up, fees);
    ghost var order := PassOrder(rev, l);
    OrderIsLinearization(graph.Up(), graph.Fees(), l, rev);
    hide ClusterOf, IsOrder, IsAcyclic, Sound, UpMap, FeeMap, PassUp, PassFees, PassOrder, Groups, IsLinearization,
         Cluster.Valid, Listed, Moving;
    es := es0[SENTINEL := es0[SENTINEL].(prevGroup := SENTINEL)];
    NothingListed(es, up, g);
    assert order[..0] == [];
    for i := 0 to |l|
      invariant |es| == |es0| && Listed(es, up, g, Groups(g, order[..i]))
    {
      OrderAt(rev, l, i);
      var idx := l[if rev then |l| - 1 - i else i];
      PassEntry(graph.entries, graph.used, l, idx, rev);
      es := AddTx(graph.entries[idx], es, idx, rev, up, fees, order, i);
    }
    OrderLength(rev, l);
    assert order[..|l|] == order;
  }

  lemma NothingListed(es: seq<TxEntry>, up: map<nat, set<nat>>, g: Cluster)
    requires es != [] && es[SENTINEL].prevGroup == SENTINEL && es[SENTINEL].feerate == EMPTY
    ensures Listed(es, up, g, Groups(g, []))
  {
  }

  lemma OrderLength(rev: bool, l: seq<nat>)
    ensures |PassOrder(rev, l)| == |l|
  {
  }

  lemma OrderAt(rev: bool, l: seq<nat>, i: nat)
    requires i < |l|
    ensures |PassOrder(rev, l)| == |l| && PassOrder(rev, l)[i] == l[if rev then |l| - 1 - i else i]
  {
  }

  lemma OrderIsLinearization(up: map<nat, set<nat>>, fees: map<nat, FeeFrac>, l: seq<nat>, rev: bool)
    requires IsOrder(up) && IsAcyclic(up) && ClusterOf(up, fees).Valid() && IsLinearization(ClusterOf(up, fees), l)
    ensures IsOrder(PassUp(rev, up)) && IsAcyclic(PassUp(rev, up))
    ensures var g := ClusterOf(PassUp(rev, up), PassFees(rev, fees)); g.Valid() && IsLinearization(g, PassOrder(rev, l))
  {
    hide ClusterOf, IsOrder, IsAcyclic, PassUp, PassFees, IsLinearization, Cluster.Valid;
    PassCluster(rev, up, fees);
    if rev {
      BackwardLinearization(ClusterOf(up, fees), l);
    }
  }

  lemma PassEntry(entries: seq<Entry>, used: set<nat>, l: seq<nat>, idx: nat, rev: bool)
    requires Sound(entries, used) && idx in l
             && IsLinearization(ClusterOf(UpMap(entries, used), FeeMap(entries, used)), l)
    ensures var up, fees := PassUp(rev, UpMap(entries, used)), PassFees(rev, FeeMap(entries, used));
            && idx < |entries| && idx in up && idx in ClusterOf(up, fees).feerate
            && up[idx] == (if rev then entries[idx].descendants else entries[idx].ancestors)
            && ClusterOf(up, fees).feerate[idx] == Signed(rev, entries[idx].feerate)
  {
    assert idx in Elems(l);
  }

  /** One pass in place. */
  method RunPass(graph: DepGraph, es0: seq<TxEntry>, lin: array<nat>, rev: bool) returns (es: seq<TxEntry>)
    requires graph.Valid() && IsAcyclic(graph.Up()) && |es0| == |graph.entries| + 1 && es0[SENTINEL].feerate == EMPTY
    requires ClusterOf(graph.Up(), graph.Fees()).Valid()
             && IsLinearization(ClusterOf(graph.Up(), graph.Fees()), lin[..])
    modifies lin
    ensures |es| == |es0| && es[SENTINEL].feerate == EMPTY
    ensures lin[..] == PassResult(rev, ClusterOf(graph.Up(), graph.Fees()), old(lin[..]))
  {
    ghost var l := lin[..];
    ghost var up, fees := PassUp(rev, graph.Up()), PassFees(rev, graph.Fees());
    ghost var segs := Groups(ClusterOf(up, fees), PassOrder(rev, l));
    es := BuildGroups(graph, es0, lin[..], rev);
    PassLength(graph.Up(), graph.Fees(), l, rev);
    ListedSentinel(es, up, ClusterOf(up, fees), segs);
    hide ClusterOf, IsOrder, IsAcyclic, Sound, UpMap, FeeMap, PassUp, PassFees, PassOrder, Groups, IsLinearization,
         Cluster.Valid, Listed, Flatten, PassResult;
    WriteBack(es, lin, rev, up, ClusterOf(up, fees), segs);
  }

  lemma ListedSentinel(es: seq<TxEntry>, up: map<nat, set<nat>>, g: Cluster, segs: seq<seq<nat>>)
    requires Listed(es, up, g, segs)
    ensures es != [] && es[SENTINEL].feerate == EMPTY
  {
  }

  lemma PassLength(up: map<nat, set<nat>>, fees: map<nat, FeeFrac>, l: seq<nat>, rev: bool)
    requires IsOrder(up) && IsAcyclic(up) && ClusterOf(up, fees).Valid() && IsLinearization(ClusterOf(up, fees), l)
    ensures var g := ClusterOf(PassUp(rev, up), PassFees(rev, fees));
            var segs := Groups(g, PassOrder(rev, l));
            && |Flatten(segs)| == |l|
            && PassResult(rev, ClusterOf(up, fees), l) == if rev then Backward(Flatten(segs)) else Flatten(segs)
  {
    OrderIsLinearization(up, fees, l, rev);
    PassCluster(rev, up, fees);
    hide ClusterOf, IsOrder, IsAcyclic, PassUp, PassFees, Groups, Cluster.Valid, Chunked, AllJoined, Mirror;
    var g := ClusterOf(PassUp(rev, up), PassFees(rev, fees));
    PassImproves(g, PassOrder(rev, l));
    BackwardElems(l);
    SameLength(Pass(g, PassOrder(rev, l)), PassOrder(rev, l));
  }

  /** Two sequences without repetition that have the same members are equally long. */
  lemma {:induction false} SameLength(a: seq<nat>, b: seq<nat>)
    requires Distinct(a) && Distinct(b) && Elems(a) == Elems(b)
    ensures |a| == |b|
  {
    Cardinality(a);
    Cardinality(b);
  }

  lemma {:induction false} Cardinality(a: seq<nat>)
    requires Distinct(a)
    ensures |Elems(a)| == |a|
    decreases |a|
  {
    if a != [] {
      PopFront(a);
      Cardinality(a[1..]);
      assert a[0] in Elems(a);
    }
  }

  /** Improve a linearization in place. The result is a linearization that is nowhere worse, its
      chunks are connected, and it is optimal if the cluster has the shape of a tree. */
  method PostLinearize(graph: DepGraph, lin: array<nat>)
    requires graph.Valid() && IsAcyclic(graph.Up())
    requires ClusterOf(graph.Up(), graph.Fees()).Valid()
             && IsLinearization(ClusterOf(graph.Up(), graph.Fees()), lin[..])
    modifies lin
    ensures lin[..] == Post(ClusterOf(graph.Up(), graph.Fees()), old(lin[..]))
    ensures var g := ClusterOf(graph.Up(), graph.Fees());
            && IsLinearization(g, lin[..]) && ConnectedChunks(g, lin[..])
            && (forall lam: real :: Peak(g, lin[..], lam) >= Peak(g, old(lin[..]), lam))
            && (PostTree.OneChild(g) || PostTree.OneParent(g) ==> Optimal(g, lin[..]))
  {
    ghost var g := ClusterOf(graph.Up(), graph.Fees());
    ghost var l := lin[..];
    hide ClusterOf, IsOrder, IsAcyclic, Sound, UpMap, FeeMap, IsLinearization, Cluster.Valid, Peak, ConnectedChunks,
         Optimal, PostTree.OneChild, PostTree.OneParent, Pass, BackwardPass;
    var es := Fill(|graph.entries| + 1);
    es := RunPass(graph, es, lin, true);
    BackwardPassImproves(g, l);
    es := RunPass(graph, es, lin, false);
    PostImproves(g, l);
    if PostTree.OneChild(g) || PostTree.OneParent(g) {
      PostTree.PostOptimal(g, l);
    }
  }

  /** Empty entries. */
  method Fill(n: nat) returns (es: seq<TxEntry>)
    ensures |es| == n && forall i | 0 <= i < n :: es[i].feerate == EMPTY
  {
    es := [];
    for i := 0 to n
      invariant |es| == i && forall j | 0 <= j < i :: es[j].feerate == EMPTY
    {
      es := es + [TxEntry(NO_PREV_TX, 0, SENTINEL, {}, {}, EMPTY)];
    }
  }
}
