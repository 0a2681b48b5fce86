/** One pass of post-linearization, on the list of groups it maintains: every transaction is
    appended as a group of its own, which then moves to the front past lower groups, absorbing
    the ones it depends on. */
module PostGroups {
  import opened FeeFracs
  import opened Clusters
  import opened Forests
  import opened Linearizations
  import opened Chunking

  ghost predicate DependsOn(g: Cluster, c: seq<nat>, p: seq<nat>) {
    exists d :: d in g.deps && d.child in c && d.parent in p
  }

  /** Append the group `c`, and let it move forward. */
  ghost function Insert(g: Cluster, segs: seq<seq<nat>>, c: seq<nat>): seq<seq<nat>>
    decreases |segs|
  {
    if segs == [] then [c] else
      var n := |segs| - 1;
      var p := segs[n];
      if !SegFee(g, p).Lower(SegFee(g, c)) then segs + [c]
      else if DependsOn(g, c, p) then Insert(g, segs[..n], p + c)
      else Insert(g, segs[..n], c) + [p]
  }

  ghost function Groups(g: Cluster, l: seq<nat>): seq<seq<nat>> {
    if l == [] then [] else Insert(g, Groups(g, l[..|l| - 1]), [l[|l| - 1]])
  }

  /** The linearization one pass turns `l` into. */
  ghost function Pass(g: Cluster, l: seq<nat>): seq<nat> {
    Flatten(Groups(g, l))
  }

  // ---- What the groups satisfy

  ghost function Within(g: Cluster, s: set<nat>): set<Dep> {
    set d | d in g.deps && d.parent in s && d.child in s
  }

  /** The dependencies inside `s` connect all of it. */
  ghost predicate Joined(g: Cluster, s: set<nat>) {
    Connected(Within(g, s), s)
  }

  ghost predicate AllJoined(g: Cluster, segs: seq<seq<nat>>) {
    forall i | 0 <= i < |segs| :: Joined(g, Elems(segs[i]))
  }

  lemma JoinedUnion(g: Cluster, p: set<nat>, c: set<nat>, d: Dep)
    requires Joined(g, p) && Joined(g, c) && d in g.deps && d.parent in p && d.child in c
    ensures Joined(g, p + c)
  {
    forall q: set<nat> | q <= p + c && Closed(Within(g, p + c), q) ensures q == {} || q == p + c {
      forall e | e in Within(g, p) ensures !Crosses(e, q * p) { assert e in Within(g, p + c); }
      forall e | e in Within(g, c) ensures !Crosses(e, q * c) { assert e in Within(g, p + c); }
      assert q * p <= p && q * c <= c;
      assert d in Within(g, p + c) && !Crosses(d, q);
      assert q == q * p + q * c;
    }
  }

  lemma JoinedOne(g: Cluster, t: nat)
    ensures Joined(g, {t})
  {
  }

  ghost predicate NoneEarlier(g: Cluster, a: seq<nat>, b: seq<nat>) {
    forall d | d in g.deps :: !(d.child in a && d.parent in b)
  }

  lemma ConcatOrder(g: Cluster, a: seq<nat>, b: seq<nat>)
    ensures ParentsFirst(g, a + b) <==> ParentsFirst(g, a) && ParentsFirst(g, b) && NoneEarlier(g, a, b)
  {
    if ParentsFirst(g, a + b) {
      assert forall i | 0 <= i < |b| :: b[i] == (a + b)[|a| + i];
      assert forall i | 0 <= i < |a| :: a[i] == (a + b)[i];
    }
  }

  /** The groups `segs` are in place, and `c` follows them. */
  ghost predicate Ready(g: Cluster, segs: seq<seq<nat>>, c: seq<nat>) {
    && Segmented(g, segs + [c]) && NonIncreasing(g, segs)
    && AllTight(g, segs) && Tight(g, c)
    && AllJoined(g, segs) && Joined(g, Elems(c))
    && ParentsFirst(g, Flatten(segs) + c)
  }

  /** The groups are the chunks of a valid order, each connected. */
  ghost predicate Settled(g: Cluster, segs: seq<seq<nat>>) {
    Segmented(g, segs) && NonIncreasing(g, segs) && AllTight(g, segs) && AllJoined(g, segs)
    && ParentsFirst(g, Flatten(segs))
  }

  lemma LastSegs(g: Cluster, segs: seq<seq<nat>>, c: seq<nat>)
    requires Segmented(g, segs + [c]) && segs != []
    ensures var n := |segs| - 1; var p := segs[n];
            && segs == segs[..n] + [p] && Segmented(g, segs[..n])
            && IsSeg(g, p) && IsSeg(g, c) && Elems(p) !! Elems(c)
            && Elems(Flatten(segs[..n])) !! Elems(p) && Elems(Flatten(segs[..n])) !! Elems(c)
            && Flatten(segs) == Flatten(segs[..n]) + p && Elems(Flatten(segs)) == Elems(Flatten(segs[..n])) + Elems(p)
            && (SegFee(g, p).Lower(SegFee(g, c)) <==> SegRate(g, p) < SegRate(g, c))
  {
    hide SegFee, SegRate, Elems, Distinct, FeeFrac.Lower, Segmented, IsSeg, Flatten;
    var n := |segs| - 1;
    var p := segs[n];
    assert segs == segs[..n] + [p];
    SegmentedPush(g, segs, c);
    SegmentedPush(g, segs[..n], p);
    FlattenPush(segs[..n], p);
    ConcatElems(Flatten(segs[..n]), p);
    SegCompare(g, p, c);
  }

  lemma LastOrder(g: Cluster, a: seq<nat>, p: seq<nat>, c: seq<nat>)
    requires ParentsFirst(g, a + p + c)
    ensures ParentsFirst(g, a) && ParentsFirst(g, p) && ParentsFirst(g, a + c) && NoneEarlier(g, a, p)
  {
    hide ParentsFirst;
    ConcatOrder(g, a + p, c);
    ConcatOrder(g, a, p);
    ConcatOrder(g, a, c);
    assert NoneEarlier(g, a, c) by {
      forall d | d in g.deps && d.child in a ensures d.parent !in c {
        assert d.child in a + p;
      }
    }
  }

  lemma MergeReady(g: Cluster, segs: seq<seq<nat>>, c: seq<nat>)
    requires Ready(g, segs, c) && segs != [] && SegFee(g, segs[|segs| - 1]).Lower(SegFee(g, c))
             && DependsOn(g, c, segs[|segs| - 1])
    ensures Ready(g, segs[..|segs| - 1], segs[|segs| - 1] + c)
    ensures Elems(Flatten(segs)) + Elems(c) == Elems(Flatten(segs[..|segs| - 1])) + Elems(segs[|segs| - 1] + c)
    ensures SegRate(g, segs[|segs| - 1]) < SegRate(g, segs[|segs| - 1] + c) < SegRate(g, c)
  {
    hide SegFee, SegRate, Elems, Distinct, FeeFrac.Lower, Tight, Segmented, Joined, ParentsFirst, Flatten, DependsOn,
         IsSeg, NonIncreasing, AllTight, AllJoined;
    LastSegs(g, segs, c);
    DropLast(g, segs);
    MergeSegs(g, segs[..|segs| - 1], segs[|segs| - 1], c);
    MergeJoined(g, segs[|segs| - 1], c);
  }

  lemma MergeSegs(g: Cluster, a: seq<seq<nat>>, p: seq<nat>, c: seq<nat>)
    requires Segmented(g, a) && IsSeg(g, p) && IsSeg(g, c) && Elems(p) !! Elems(c)
    requires Elems(Flatten(a)) !! Elems(p) && Elems(Flatten(a)) !! Elems(c)
    requires Tight(g, p) && Tight(g, c) && SegRate(g, p) < SegRate(g, c)
    ensures Segmented(g, a + [p + c]) && Tight(g, p + c) && SegRate(g, p) < SegRate(g, p + c) < SegRate(g, c)
    ensures Elems(p + c) == Elems(p) + Elems(c) && Flatten(a) + (p + c) == Flatten(a) + p + c
  {
    hide SegFee, SegRate, Elems, Distinct, Tight, Segmented, Flatten, IsSeg;
    JoinTight(g, p, c);
    ConcatElems(p, c);
    SegmentedPush(g, a, p + c);
    assert Flatten(a) + (p + c) == Flatten(a) + p + c;
  }

  lemma DropLast(g: Cluster, segs: seq<seq<nat>>)
    requires segs != [] && NonIncreasing(g, segs) && AllTight(g, segs) && AllJoined(g, segs)
    ensures var n := |segs| - 1;
            NonIncreasing(g, segs[..n]) && AllTight(g, segs[..n]) && AllJoined(g, segs[..n]) && Tight(g, segs[n])
            && Joined(g, Elems(segs[n]))
  {
  }

  lemma MergeJoined(g: Cluster, p: seq<nat>, c: seq<nat>)
    requires Joined(g, Elems(p)) && Joined(g, Elems(c)) && DependsOn(g, c, p)
    ensures Joined(g, Elems(p + c))
  {
    hide Joined;
    var d :| d in g.deps && d.child in c && d.parent in p;
    JoinedUnion(g, Elems(p), Elems(c), d);
    assert Elems(p + c) == Elems(p) + Elems(c);
  }

  lemma SwapReady(g: Cluster, segs: seq<seq<nat>>, c: seq<nat>)
    requires Ready(g, segs, c) && segs != []
    ensures Ready(g, segs[..|segs| - 1], c)
  {
    hide SegFee, SegRate, Elems, Distinct, FeeFrac.Lower, Tight, Segmented, Joined, ParentsFirst, Flatten, IsSeg,
         NonIncreasing, AllTight, AllJoined;
    var n := |segs| - 1;
    LastSegs(g, segs, c);
    DropLast(g, segs);
    SegmentedPush(g, segs[..n], c);
    LastOrder(g, Flatten(segs[..n]), segs[n], c);
  }

  lemma SwapSettled(g: Cluster, segs: seq<seq<nat>>, c: seq<nat>, r: seq<seq<nat>>)
    requires Ready(g, segs, c) && segs != [] && !DependsOn(g, c, segs[|segs| - 1])
    requires Settled(g, r) && Elems(Flatten(r)) == Elems(Flatten(segs[..|segs| - 1])) + Elems(c)
    requires forall s | s in r :: SegRate(g, s) >= SegRate(g, segs[|segs| - 1])
    ensures Settled(g, r + [segs[|segs| - 1]])
    ensures Elems(Flatten(r + [segs[|segs| - 1]])) == Elems(Flatten(segs)) + Elems(c)
  {
    hide SegFee, SegRate, Elems, Distinct, FeeFrac.Lower, Tight, Segmented, Joined, ParentsFirst, Flatten, DependsOn,
         IsSeg;
    var n := |segs| - 1;
    var p := segs[n];
    LastSegs(g, segs, c);
    SegmentedPush(g, r, p);
    FlattenPush(r, p);
    ConcatElems(Flatten(r), p);
    LastOrder(g, Flatten(segs[..n]), p, c);
    SwapOrder(g, Flatten(segs[..n]), p, c, Flatten(r));
  }

  lemma SwapOrder(g: Cluster, a: seq<nat>, p: seq<nat>, c: seq<nat>, r: seq<nat>)
    requires NoneEarlier(g, a, p) && !DependsOn(g, c, p) && ParentsFirst(g, p)
    requires ParentsFirst(g, r) && Elems(r) == Elems(a) + Elems(c)
    ensures ParentsFirst(g, r + p)
  {
    hide ParentsFirst;
    forall d | d in g.deps && d.child in r ensures d.parent !in p {
      assert d.child in Elems(r);
    }
    ConcatOrder(g, r, p);
  }

  lemma StaySettled(g: Cluster, segs: seq<seq<nat>>, c: seq<nat>)
    requires Ready(g, segs, c) && (segs == [] || !SegFee(g, segs[|segs| - 1]).Lower(SegFee(g, c)))
    ensures Settled(g, segs + [c]) && Elems(Flatten(segs + [c])) == Elems(Flatten(segs)) + Elems(c)
  {
    hide SegFee, SegRate, Elems, Distinct, FeeFrac.Lower, Tight, Segmented, Joined, ParentsFirst, Flatten, NoneEarlier;
    FlattenPush(segs, c);
    ConcatElems(Flatten(segs), c);
    if segs != [] {
      LastSegs(g, segs, c);
    }
  }

  /** No group ends up below both the groups there were and the new one. */
  lemma {:induction false} InsertFloor(g: Cluster, segs: seq<seq<nat>>, c: seq<nat>, r: real)
    requires Ready(g, segs, c) && SegRate(g, c) >= r && forall i | 0 <= i < |segs| :: SegRate(g, segs[i]) >= r
    ensures forall i | 0 <= i < |Insert(g, segs, c)| :: SegRate(g, Insert(g, segs, c)[i]) >= r
    decreases |segs|
  {
    hide SegFee, SegRate, FeeFrac.Lower, DependsOn, Ready;
    if segs != [] {
      var n := |segs| - 1;
      var p := segs[n];
      if !SegFee(g, p).Lower(SegFee(g, c)) {
      } else if DependsOn(g, c, p) {
        MergeReady(g, segs, c);
        InsertFloor(g, segs[..n], p + c, r);
      } else {
        SwapReady(g, segs, c);
        InsertFloor(g, segs[..n], c, r);
      }
    }
  }

  lemma {:induction false} InsertSettled(g: Cluster, segs: seq<seq<nat>>, c: seq<nat>)
    requires Ready(g, segs, c)
    ensures Settled(g, Insert(g, segs, c)) && Elems(Flatten(Insert(g, segs, c))) == Elems(Flatten(segs)) + Elems(c)
    decreases |segs|
  {
    hide SegFee, SegRate, FeeFrac.Lower, DependsOn, Ready, Settled, Elems, Flatten;
    if segs == [] {
      StaySettled(g, segs, c);
      assert segs + [c] == [c];
    } else {
      var n := |segs| - 1;
      var p := segs[n];
      if !SegFee(g, p).Lower(SegFee(g, c)) {
        StaySettled(g, segs, c);
      } else if DependsOn(g, c, p) {
        MergeReady(g, segs, c);
        InsertSettled(g, segs[..n], p + c);
      } else {
        SwapReady(g, segs, c);
        InsertSettled(g, segs[..n], c);
        SwapFloor(g, segs, c);
        SwapSettled(g, segs, c, Insert(g, segs[..n], c));
      }
    }
  }

  lemma SwapFloor(g: Cluster, segs: seq<seq<nat>>, c: seq<nat>)
    requires Ready(g, segs, c) && segs != [] && SegFee(g, segs[|segs| - 1]).Lower(SegFee(g, c))
    ensures forall r | r in Insert(g, segs[..|segs| - 1], c) :: SegRate(g, r) >= SegRate(g, segs[|segs| - 1])
  {
    hide SegFee, SegRate, FeeFrac.Lower, Insert;
    LastSegs(g, segs, c);
    SwapReady(g, segs, c);
    InsertFloor(g, segs[..|segs| - 1], c, SegRate(g, segs[|segs| - 1]));
  }

  // ---- Never worse

  /** When everything is above the threshold, the new group adds all it pays. */
  lemma InsertAbove(g: Cluster, segs: seq<seq<nat>>, c: seq<nat>, lam: real)
    requires Ready(g, segs, c) && SegRate(g, c) >= lam && forall i | 0 <= i < |segs| :: SegRate(g, segs[i]) >= lam
    ensures Height(g, Insert(g, segs, c), lam) == Height(g, segs, lam) + SegGain(g, c, lam)
  {
    hide SegFee, SegRate, SegGain, Cluster.GainOf, Insert, Tight, Joined, ParentsFirst;
    InsertFloor(g, segs, c, lam);
    InsertSettled(g, segs, c);
    SegmentedPush(g, segs, c);
    AboveTotal(g, segs, lam);
    AboveTotal(g, Insert(g, segs, c), lam);
    SegFacts(g, c);
    g.GainOfUnion(Elems(Flatten(segs)), Elems(c), lam);
  }

  lemma AboveTotal(g: Cluster, segs: seq<seq<nat>>, lam: real)
    requires Segmented(g, segs) && forall i | 0 <= i < |segs| :: SegRate(g, segs[i]) >= lam
    ensures Height(g, segs, lam) == g.GainOf(Elems(Flatten(segs)), lam)
  {
    hide SegRate, SegGain, Cluster.GainOf, Segmented;
    forall i | 0 <= i < |segs| ensures SegGain(g, segs[i], lam) >= 0.0 {
      SegmentedAt(g, segs, i);
      SegSign(g, segs[i], lam);
    }
    HeightAtLeastTotal(g, segs, lam);
  }

  /** Inserting a group never lowers the diagram. */
  lemma {:induction false} InsertHeight(g: Cluster, segs: seq<seq<nat>>, c: seq<nat>, lam: real)
    requires Ready(g, segs, c)
    ensures Height(g, Insert(g, segs, c), lam) >= Height(g, segs, lam)
    decreases |segs|
  {
    hide SegFee, SegRate, FeeFrac.Lower, DependsOn, Ready, SegGain;
    if segs == [] {
      HeightPush(g, [], c, lam);
      assert [] + [c] == [c];
    } else {
      var n := |segs| - 1;
      var p := segs[n];
      HeightPush(g, segs[..n], p, lam);
      LastIsLowest(g, segs, c);
      LastSegs(g, segs, c);
      SegSign(g, p, lam);
      SegSign(g, c, lam);
      if !SegFee(g, p).Lower(SegFee(g, c)) {
        HeightPush(g, segs, c, lam);
      } else if SegGain(g, p, lam) > 0.0 {
        InsertAbove(g, segs, c, lam);
      } else if DependsOn(g, c, p) {
        MergeReady(g, segs, c);
        InsertHeight(g, segs[..n], p + c, lam);
      } else {
        SwapReady(g, segs, c);
        InsertHeight(g, segs[..n], c, lam);
        HeightPush(g, Insert(g, segs[..n], c), p, lam);
      }
    }
  }

  lemma LastIsLowest(g: Cluster, segs: seq<seq<nat>>, c: seq<nat>)
    requires Ready(g, segs, c) && segs != []
    ensures Segmented(g, segs + [c])
            && forall i | 0 <= i < |segs| :: SegRate(g, segs[i]) >= SegRate(g, segs[|segs| - 1])
  {
  }

  // ---- A whole pass

  lemma AppendReady(g: Cluster, segs: seq<seq<nat>>, l: seq<nat>, t: nat)
    requires Settled(g, segs) && Elems(Flatten(segs)) == Elems(l)
    requires t in g.txns && t !in l && ParentsFirst(g, l + [t])
    ensures Ready(g, segs, [t])
  {
    hide Flatten, SegRate, Joined, ParentsFirst, Segmented;
    assert Elems([t]) == {t};
    assert IsSeg(g, [t]) by { assert Segmented(g, segs); ValidSegs(g, segs); }
    SegmentedPush(g, segs, [t]);
    JoinedOne(g, t);
    ConcatOrder(g, l, [t]);
    forall d | d in g.deps && d.child in Flatten(segs) ensures d.parent !in [t] {
      assert d.child in Elems(l);
    }
    ConcatOrder(g, Flatten(segs), [t]);
  }

  lemma ValidSegs(g: Cluster, segs: seq<seq<nat>>)
    requires Segmented(g, segs)
    ensures g.Valid()
  {
  }

  /** Some of the cluster's transactions, parents first. */
  ghost predicate InOrder(g: Cluster, l: seq<nat>) {
    g.Valid() && Distinct(l) && Elems(l) <= g.txns && ParentsFirst(g, l)
  }

  lemma PrefixInOrder(g: Cluster, l: seq<nat>, k: nat)
    requires InOrder(g, l) && k <= |l|
    ensures InOrder(g, l[..k])
  {
  }

  lemma {:induction false} GroupsSettled(g: Cluster, l: seq<nat>)
    requires InOrder(g, l)
    ensures Settled(g, Groups(g, l)) && Elems(Pass(g, l)) == Elems(l)
    ensures l != [] ==> Ready(g, Groups(g, l[..|l| - 1]), [l[|l| - 1]])
    decreases |l|
  {
    hide Insert, Ready, Segmented, Joined, Settled, Flatten, InOrder, Elems;
    if l == [] {
      InOrderValid(g, l);
      NoGroups(g);
    } else {
      var n := |l| - 1;
      PrefixInOrder(g, l, n);
      GroupsSettled(g, l[..n]);
      assert l == l[..n] + [l[n]];
      InOrderLast(g, l, n);
      AppendReady(g, Groups(g, l[..n]), l[..n], l[n]);
      InsertSettled(g, Groups(g, l[..n]), [l[n]]);
    }
  }

  lemma InOrderValid(g: Cluster, l: seq<nat>)
    requires InOrder(g, l)
    ensures g.Valid()
  {
  }

  lemma InOrderLast(g: Cluster, l: seq<nat>, n: nat)
    requires InOrder(g, l) && n + 1 == |l|
    ensures l[n] in g.txns && l[n] !in l[..n] && ParentsFirst(g, l[..n] + [l[n]])
    ensures Elems(l) == Elems(l[..n]) + Elems([l[n]])
  {
    assert l == l[..n] + [l[n]] && l[n] in Elems(l);
    ConcatElems(l[..n], [l[n]]);
  }

  lemma NoGroups(g: Cluster)
    requires g.Valid()
    ensures Settled(g, []) && Flatten([]) == []
  {
  }

  /** The groups of a longer order are nowhere worse. */
  lemma {:induction false} GroupsGrow(g: Cluster, l: seq<nat>, k: nat, lam: real)
    requires InOrder(g, l) && k <= |l|
    ensures Height(g, Groups(g, l), lam) >= Height(g, Groups(g, l[..k]), lam)
    decreases |l|
  {
    hide Insert, Ready, Height, InOrder;
    if k == |l| {
      assert l[..k] == l;
    } else {
      var n := |l| - 1;
      GroupsSettled(g, l);
      InsertHeight(g, Groups(g, l[..n]), [l[n]], lam);
      PrefixInOrder(g, l, n);
      assert l[..n][..k] == l[..k];
      GroupsGrow(g, l[..n], k, lam);
    }
  }

  /** The groups pay at least what all transactions together pay. */
  lemma GroupsTotal(g: Cluster, l: seq<nat>, lam: real)
    requires InOrder(g, l)
    ensures Height(g, Groups(g, l), lam) >= g.GainOf(Elems(l), lam) && Height(g, Groups(g, l), lam) >= 0.0
  {
    hide Cluster.GainOf, Height, Groups, Joined, Tight, Segmented;
    GroupsSettled(g, l);
    HeightAtLeastTotal(g, Groups(g, l), lam);
  }

  lemma GroupsHeight(g: Cluster, l: seq<nat>, lam: real)
    requires InOrder(g, l)
    ensures Height(g, Groups(g, l), lam) >= Peak(g, l, lam)
  {
    hide Cluster.GainOf, Height, Groups;
    forall k | 0 <= k <= |l| ensures g.GainOf(Elems(l[..k]), lam) <= Height(g, Groups(g, l), lam) {
      PrefixInOrder(g, l, k);
      GroupsTotal(g, l[..k], lam);
      GroupsGrow(g, l, k, lam);
    }
    GroupsTotal(g, l, lam);
    PeakAtMost(g, l, lam, Height(g, Groups(g, l), lam));
  }

  /** One pass turns a linearization into one that is nowhere worse, whose chunks are the groups,
      each of them connected. */
  lemma PassImproves(g: Cluster, l: seq<nat>)
    requires g.Valid() && IsLinearization(g, l)
    ensures IsLinearization(g, Pass(g, l)) && Chunked(g, Groups(g, l), Pass(g, l)) && AllJoined(g, Groups(g, l))
    ensures forall lam: real :: Peak(g, Pass(g, l), lam) >= Peak(g, l, lam)
  {
    hide Height, Groups, Peak, Joined, Tight;
    GroupsSettled(g, l);
    assert Chunked(g, Groups(g, l), Pass(g, l));
    forall lam: real ensures Peak(g, Pass(g, l), lam) >= Peak(g, l, lam) {
      GroupsHeight(g, l, lam);
      ChunksGivePeak(g, Groups(g, l), Pass(g, l), lam);
    }
  }
}
