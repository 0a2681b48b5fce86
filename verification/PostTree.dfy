/** Post-linearization is optimal on trees: when no transaction has two children, or none has two
    parents. */
module PostTree {
  import opened FeeFracs
  import opened Clusters
  import opened Linearizations
  import opened Optimality
  import opened Chunking
  import opened PostGroups
  import opened PostMirror
  import opened ChunkSplits

  ghost predicate OneChild(g: Cluster) {
    forall d, e | d in g.deps && e in g.deps && d.parent == e.parent :: d == e
  }

  ghost predicate OneParent(g: Cluster) {
    forall d, e | d in g.deps && e in g.deps && d.child == e.child :: d == e
  }

  /** `q` is a part of `s` that includes the parents, within `s`, of its members. */
  ghost predicate Upper(g: Cluster, s: set<nat>, q: set<nat>) {
    q <= s && UpClosed(Within(g, s), q)
  }

  /** All of `s` is needed by `t`. */
  ghost predicate Rooted(g: Cluster, s: set<nat>, t: nat) {
    t in s && forall q: set<nat> :: Upper(g, s, q) && t in q ==> q == s
  }

  /** Without `t`, no upper part of `s` has feerate above `rho`. */
  ghost predicate Bounded(g: Cluster, s: set<nat>, t: nat, rho: real)
    requires s <= g.feerate.Keys
  {
    forall q: set<nat> :: Upper(g, s, q) && t !in q ==> g.GainOf(q, rho) <= 0.0
  }

  /** No upper part of the group beats the group. */
  ghost predicate Best(g: Cluster, s: seq<nat>) {
    && IsSeg(g, s) && (exists t :: Rooted(g, Elems(s), t))
    && forall q: set<nat> :: Upper(g, Elems(s), q) && q <= g.feerate.Keys ==> g.GainOf(q, SegRate(g, s)) <= 0.0
  }

  ghost predicate AllBest(g: Cluster, segs: seq<seq<nat>>) {
    forall i | 0 <= i < |segs| :: Best(g, segs[i])
  }

  /** The moving group `c` was built around `t`, and the lower groups it absorbed were at most `rho`. */
  ghost predicate TreeReady(g: Cluster, segs: seq<seq<nat>>, c: seq<nat>, t: nat, rho: real) {
    && Ready(g, segs, c) && IsSeg(g, c)
    && Rooted(g, Elems(c), t) && Bounded(g, Elems(c), t, rho) && rho < SegRate(g, c)
    && (forall i | 0 <= i < |segs| :: SegRate(g, segs[i]) >= rho)
    && AllBest(g, segs)
  }

  lemma UpperPart(g: Cluster, s: set<nat>, p: set<nat>, q: set<nat>)
    requires Upper(g, s, q) && p <= s
    ensures Upper(g, p, q * p)
  {
    forall e | e in Within(g, p) && e.child in q * p ensures e.parent in q * p {
      assert e in Within(g, s);
    }
  }

  /** The only member of a rooted part with a child outside it is the root. */
  lemma RootLeaves(g: Cluster, s: set<nat>, t: nat, d: Dep)
    requires OneChild(g) && Rooted(g, s, t) && d in g.deps && d.parent in s && d.child !in s
    ensures d.parent == t
  {
    var q := s - {d.parent};
    forall e | e in Within(g, s) && e.child in q ensures e.parent in q {
      assert e.parent == d.parent ==> e == d;
    }
    assert Upper(g, s, q);
    assert q != s;
  }

  lemma RootedUnion(g: Cluster, p: set<nat>, c: set<nat>, s: nat, t: nat, d: Dep)
    requires OneChild(g) && Rooted(g, p, s) && Rooted(g, c, t) && p !! c
    requires d in g.deps && d.parent in p && d.child in c
    ensures Rooted(g, p + c, t)
  {
    RootLeaves(g, p, s, d);
    forall q: set<nat> | Upper(g, p + c, q) && t in q ensures q == p + c {
      UpperPart(g, p + c, p, q);
      UpperPart(g, p + c, c, q);
      assert q * c == c;
      assert d in Within(g, p + c);
      assert q * p == p;
    }
  }

  lemma GainFalls(g: Cluster, q: set<nat>, rho: real, rho': real)
    requires g.Valid() && q <= g.txns && rho <= rho' && g.GainOf(q, rho) <= 0.0
    ensures g.GainOf(q, rho') <= 0.0
  {
    hide Cluster.FeeOf, Gain, Shift;
    SizeMonotone(g, q, q);
    GainShift(g.FeeOf(q), rho', rho);
    ShiftBound(g.FeeOf(q), g.FeeOf(q), rho - rho');
  }

  lemma BoundedUnion(g: Cluster, p: seq<nat>, c: set<nat>, t: nat, rho: real)
    requires Best(g, p) && c <= g.txns && Bounded(g, c, t, rho) && Elems(p) !! c && rho <= SegRate(g, p) && t in c
    ensures Bounded(g, Elems(p) + c, t, SegRate(g, p))
  {
    hide SegRate, Cluster.GainOf, Rooted, Elems;
    var s, rho' := Elems(p), SegRate(g, p);
    forall q: set<nat> | Upper(g, s + c, q) && t !in q ensures g.GainOf(q, rho') <= 0.0 {
      UpperPart(g, s + c, s, q);
      UpperPart(g, s + c, c, q);
      GainFalls(g, q * c, rho, rho');
      g.GainOfUnion(q * s, q * c, rho');
      assert q * s + q * c == q;
    }
  }

  lemma MergeTree(g: Cluster, segs: seq<seq<nat>>, c: seq<nat>, t: nat, rho: real)
    requires OneChild(g) && TreeReady(g, segs, c, t, rho) && segs != []
    requires SegFee(g, segs[|segs| - 1]).Lower(SegFee(g, c)) && DependsOn(g, c, segs[|segs| - 1])
    ensures TreeReady(g, segs[..|segs| - 1], segs[|segs| - 1] + c, t, SegRate(g, segs[|segs| - 1]))
  {
    hide SegRate, SegFee, Ready, FeeFrac.Lower, Bounded, Rooted, Elems, Distinct, OneChild;
    var n := |segs| - 1;
    var p := segs[n];
    LastIsLowest(g, segs, c);
    LastSegs(g, segs, c);
    SegConcat(g, p, c);
    MergeReady(g, segs, c);
    ConcatElems(p, c);
    var d :| d in g.deps && d.child in c && d.parent in p;
    DepElems(p, c, d);
    assert Best(g, p);
    var s :| Rooted(g, Elems(p), s);
    RootedUnion(g, Elems(p), Elems(c), s, t, d);
    RootIn(g, Elems(c), t);
    BoundedUnion(g, p, Elems(c), t, rho);
  }

  lemma DepElems(p: seq<nat>, c: seq<nat>, d: Dep)
    requires d.child in c && d.parent in p
    ensures d.child in Elems(c) && d.parent in Elems(p)
  {
  }

  lemma RootIn(g: Cluster, s: set<nat>, t: nat)
    requires Rooted(g, s, t)
    ensures t in s
  {
  }

  lemma SettledBest(g: Cluster, c: seq<nat>, t: nat, rho: real)
    requires IsSeg(g, c) && Rooted(g, Elems(c), t) && Bounded(g, Elems(c), t, rho) && rho < SegRate(g, c)
    ensures Best(g, c)
  {
    hide SegRate, SegFee, SegGain, Cluster.GainOf, Elems;
    SegFacts(g, c);
    SegSign(g, c, SegRate(g, c));
    forall q: set<nat> | Upper(g, Elems(c), q) && q <= g.feerate.Keys ensures g.GainOf(q, SegRate(g, c)) <= 0.0 {
      if t !in q {
        GainFalls(g, q, rho, SegRate(g, c));
      }
    }
  }

  lemma {:induction false} InsertBest(g: Cluster, segs: seq<seq<nat>>, c: seq<nat>, t: nat, rho: real)
    requires OneChild(g) && TreeReady(g, segs, c, t, rho)
    ensures AllBest(g, Insert(g, segs, c))
    decreases |segs|
  {
    hide SegRate, SegFee, Ready, FeeFrac.Lower, Bounded, Rooted, Elems, DependsOn, Best, OneChild;
    if segs == [] {
      SettledBest(g, c, t, rho);
    } else {
      var n := |segs| - 1;
      var p := segs[n];
      if !SegFee(g, p).Lower(SegFee(g, c)) {
        SettledBest(g, c, t, rho);
      } else if DependsOn(g, c, p) {
        MergeTree(g, segs, c, t, rho);
        InsertBest(g, segs[..n], p + c, t, SegRate(g, p));
      } else {
        SwapReady(g, segs, c);
        InsertBest(g, segs[..n], c, t, rho);
      }
    }
  }

  lemma StartTree(g: Cluster, segs: seq<seq<nat>>, t: nat) returns (rho: real)
    requires Ready(g, segs, [t]) && AllBest(g, segs) && g.Valid() && t in g.txns
    ensures TreeReady(g, segs, [t], t, rho)
  {
    hide SegRate, SegFee, Ready, Best, Cluster.GainOf;
    assert Elems([t]) == {t};
    var r := SegRate(g, [t]);
    rho := r - 1.0;
    if segs != [] {
      LastIsLowest(g, segs, [t]);
      if SegRate(g, segs[|segs| - 1]) < rho { rho := SegRate(g, segs[|segs| - 1]); }
    }
    SingleTree(g, t, rho);
  }

  lemma SingleTree(g: Cluster, t: nat, rho: real)
    requires g.Valid() && t in g.txns
    ensures Rooted(g, {t}, t) && Bounded(g, {t}, t, rho)
  {
    hide Cluster.GainOf;
    forall q: set<nat> | Upper(g, {t}, q) && t !in q ensures g.GainOf(q, rho) <= 0.0 {
      assert q == {};
      g.GainOfEmpty(rho);
    }
  }

  lemma {:induction false} GroupsBest(g: Cluster, l: seq<nat>)
    requires OneChild(g) && InOrder(g, l)
    ensures AllBest(g, Groups(g, l))
    decreases |l|
  {
    hide Insert, Best, OneChild, ParentsFirst, Ready;
    if l != [] {
      var n := |l| - 1;
      PrefixInOrder(g, l, n);
      GroupsBest(g, l[..n]);
      GroupsSettled(g, l);
      assert l[n] in Elems(l);
      var rho := StartTree(g, Groups(g, l[..n]), l[n]);
      InsertBest(g, Groups(g, l[..n]), [l[n]], l[n], rho);
    }
  }

  /** With no better part in any group, no ancestor-closed set pays more than the groups. */
  lemma {:induction false} ClosedBelowHeight(g: Cluster, segs: seq<seq<nat>>, s: set<nat>, lam: real)
    requires Segmented(g, segs) && AllBest(g, segs) && g.AncestorClosed(s)
    ensures g.GainOf(s * Elems(Flatten(segs)), lam) <= Height(g, segs, lam)
    decreases |segs|
  {
    hide SegRate, SegFee, SegGain, Cluster.GainOf, Elems, Distinct, Best, Cluster.AncestorClosed;
    if segs == [] {
      assert Elems([]) == {} by { EmptyElems(); }
      assert s * {} == {};
      g.GainOfEmpty(lam);
    } else {
      var n := |segs| - 1;
      var p := segs[n];
      assert segs == segs[..n] + [p];
      SegmentedPush(g, segs[..n], p);
      ClosedBelowHeight(g, segs[..n], s, lam);
      ConcatElems(Flatten(segs[..n]), p);
      BestPart(g, p, s, lam);
      var a, b := s * Elems(Flatten(segs[..n])), s * Elems(p);
      g.GainOfUnion(a, b, lam);
      assert a + b == s * Elems(Flatten(segs));
    }
  }

  lemma EmptyElems()
    ensures Elems([]) == {}
  {
  }

  lemma BestPart(g: Cluster, p: seq<nat>, s: set<nat>, lam: real)
    requires Best(g, p) && g.AncestorClosed(s)
    ensures s * Elems(p) <= g.feerate.Keys && g.GainOf(s * Elems(p), lam) <= Pos(SegGain(g, p, lam))
  {
    hide SegRate, SegFee, SegGain, Cluster.GainOf, Elems, Rooted;
    var q := s * Elems(p);
    SegFacts(g, p);
    assert Upper(g, Elems(p), q);
    PartBelowChunk(g, Elems(p), q, lam);
  }

  /** A forward pass is optimal when no transaction has two children. */
  lemma PassOptimal(g: Cluster, l: seq<nat>)
    requires g.Valid() && IsLinearization(g, l) && OneChild(g)
    ensures IsLinearization(g, Pass(g, l)) && Optimal(g, Pass(g, l))
  {
    hide Peak, Height, Groups, Pass, Best, OneChild, Cluster.GainOf, Segmented, AllJoined, NonIncreasing, AllTight;
    PassImproves(g, l);
    GroupsBest(g, l);
    forall other: seq<nat>, lam: real | IsLinearization(g, other) && Elems(other) <= g.feerate.Keys
      ensures Peak(g, other, lam) <= Peak(g, Pass(g, l), lam)
    {
      PeakBelowBest(g, Groups(g, l), other, lam);
      ChunksGivePeak(g, Groups(g, l), Pass(g, l), lam);
    }
  }

  lemma PeakBelowBest(g: Cluster, segs: seq<seq<nat>>, l: seq<nat>, lam: real)
    requires Segmented(g, segs) && AllBest(g, segs) && Elems(Flatten(segs)) == g.txns && IsLinearization(g, l)
    ensures Peak(g, l, lam) <= Height(g, segs, lam)
  {
    hide Peak, Height, Best, Cluster.GainOf, Flatten, Distinct, ParentsFirst;
    forall k | 0 <= k <= |l| ensures g.GainOf(Elems(l[..k]), lam) <= Height(g, segs, lam) {
      PrefixClosed(g, l, k);
      ClosedBelowHeight(g, segs, Elems(l[..k]), lam);
      assert Elems(l[..k]) * g.txns == Elems(l[..k]);
    }
    HeightAtLeastTotal(g, segs, lam);
    PeakAtMost(g, l, lam, Height(g, segs, lam));
  }

  lemma MirrorOneParent(g: Cluster)
    requires OneParent(g)
    ensures OneChild(Mirror(g))
  {
    forall d, e | d in Mirror(g).deps && e in Mirror(g).deps && d.parent == e.parent ensures d == e {
      MirrorDeps(g, d);
      MirrorDeps(g, e);
      assert Turned(d).child == Turned(e).child;
    }
  }

  lemma BackwardPassOptimal(g: Cluster, l: seq<nat>)
    requires g.Valid() && IsLinearization(g, l) && OneParent(g)
    ensures IsLinearization(g, BackwardPass(g, l)) && Optimal(g, BackwardPass(g, l))
  {
    hide Peak, Backward, Mirror, Pass, OneParent, OneChild;
    var m, r := Mirror(g), Backward(l);
    BackwardPassImproves(g, l);
    MirrorValid(g);
    MirrorTwice(g);
    MirrorOneParent(g);
    BackwardLinearization(g, l);
    PassOptimal(m, r);
    BackwardTwice(Pass(m, r));
    forall other: seq<nat>, lam: real | IsLinearization(g, other) && Elems(other) <= g.feerate.Keys
      ensures Peak(g, other, lam) <= Peak(g, BackwardPass(g, l), lam)
    {
      BackwardLinearization(g, other);
      MirrorPeaks(g, other, BackwardPass(g, l), lam);
      assert Peak(m, Backward(other), -lam) <= Peak(m, Pass(m, r), -lam);
    }
  }

  /** Post-linearization is optimal for clusters of either tree shape. */
  lemma PostOptimal(g: Cluster, l: seq<nat>)
    requires g.Valid() && IsLinearization(g, l) && (OneChild(g) || OneParent(g))
    ensures IsLinearization(g, Post(g, l)) && Optimal(g, Post(g, l))
  {
    hide Peak, Pass, BackwardPass, OneParent, OneChild, Chunked, AllJoined;
    var b := BackwardPass(g, l);
    BackwardPassImproves(g, l);
    PassImproves(g, b);
    if OneChild(g) {
      PassOptimal(g, b);
    } else {
      BackwardPassOptimal(g, l);
      forall other: seq<nat>, lam: real | IsLinearization(g, other) && Elems(other) <= g.feerate.Keys
        ensures Peak(g, other, lam) <= Peak(g, Pass(g, b), lam)
      {
        assert Peak(g, other, lam) <= Peak(g, b, lam) <= Peak(g, Pass(g, b), lam);
      }
    }
  }
}
