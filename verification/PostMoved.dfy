/** Replacing a leaf: drop it from a linearization, append it again, possibly with a higher fee,
    and post-linearize. The result is at least as good as the linearization before. */
module PostMoved {
  import opened FeeFracs
  import opened Clusters
  import opened Linearizations
  import opened Chunking
  import opened PostGroups
  import opened PostMirror

  ghost predicate NotUsing(g: Cluster, s: seq<nat>, t: nat) {
    forall d | d in g.deps && d.parent == t :: d.child !in s
  }

  ghost predicate NoneUsing(g: Cluster, segs: seq<seq<nat>>, t: nat) {
    forall i | 0 <= i < |segs| :: NotUsing(g, segs[i], t)
  }

  lemma InsertPush(g: Cluster, segs: seq<seq<nat>>, p: seq<nat>, c: seq<nat>)
    ensures Insert(g, segs + [p], c) ==
            if !SegFee(g, p).Lower(SegFee(g, c)) then segs + [p] + [c]
            else if DependsOn(g, c, p) then Insert(g, segs, p + c)
            else Insert(g, segs, c) + [p]
  {
    assert (segs + [p])[..|segs|] == segs;
  }

  /** A group on its own that nothing depends on does not affect how the others move. */
  lemma {:induction false} InsertAround(g: Cluster, a: seq<seq<nat>>, t: nat, b: seq<seq<nat>>, c: seq<nat>)
    returns (a': seq<seq<nat>>, b': seq<seq<nat>>)
    requires Ready(g, a + [[t]] + b, c) && NoneUsing(g, b, t) && NotUsing(g, c, t)
    ensures Insert(g, a + [[t]] + b, c) == a' + [[t]] + b' && Insert(g, a + b, c) == a' + b'
    decreases |b|
  {
    hide Ready, SegFee, FeeFrac.Lower, Insert, DependsOn;
    if b == [] {
      assert a + b == a && a + [[t]] + b == a + [[t]];
      a', b' := AroundLast(g, a, t, c);
    } else {
      var p, b0 := b[|b| - 1], b[..|b| - 1];
      var segs := a + [[t]] + b0;
      assert a + [[t]] + b == segs + [p] && a + b == a + b0 + [p];
      assert (segs + [p])[..|segs|] == segs;
      InsertPush(g, segs, p, c);
      InsertPush(g, a + b0, p, c);
      if !SegFee(g, p).Lower(SegFee(g, c)) {
        a', b' := a, b + [c];
      } else if DependsOn(g, c, p) {
        MergeReady(g, segs + [p], c);
        a', b' := InsertAround(g, a, t, b0, p + c);
      } else {
        SwapReady(g, segs + [p], c);
        a', b' := InsertAround(g, a, t, b0, c);
        b' := b' + [p];
      }
    }
  }

  lemma AroundLast(g: Cluster, a: seq<seq<nat>>, t: nat, c: seq<nat>)
    returns (a': seq<seq<nat>>, b': seq<seq<nat>>)
    requires Ready(g, a + [[t]], c) && NotUsing(g, c, t)
    ensures Insert(g, a + [[t]], c) == a' + [[t]] + b' && Insert(g, a, c) == a' + b'
  {
    hide SegFee, FeeFrac.Lower, SegRate, Tight, Segmented, Joined;
    var segs := a + [[t]];
    assert segs[|a|] == [t] && segs[..|a|] == a;
    if SegFee(g, [t]).Lower(SegFee(g, c)) {
      assert !DependsOn(g, c, [t]);
      a', b' := Insert(g, a, c), [];
      assert a' + [[t]] + b' == a' + [[t]];
    } else {
      a', b' := a, [c];
      LastSegs(g, segs, c);
      if a != [] {
        SwapReady(g, segs, c);
        LastSegs(g, a, c);
        assert SegRate(g, segs[|a| - 1]) >= SegRate(g, segs[|a|]);
      }
    }
  }

  /** Starting with a transaction nothing depends on adds it as a group of its own. */
  lemma {:induction false} GroupsAround(g: Cluster, t: nat, l: seq<nat>) returns (a: seq<seq<nat>>, b: seq<seq<nat>>)
    requires InOrder(g, [t] + l) && NotUsing(g, l, t)
    ensures Groups(g, [t] + l) == a + [[t]] + b && Groups(g, l) == a + b
    decreases |l|
  {
    hide Ready, Settled, Insert, InOrder, Flatten;
    if l == [] {
      a, b := [], [];
      FirstGroup(g, t);
    } else {
      var n := |l| - 1;
      var before := [t] + l[..n];
      assert [t] + l == before + [l[n]];
      assert ([t] + l)[..n + 1] == before;
      PrefixInOrder(g, [t] + l, n + 1);
      var a0, b0 := GroupsAround(g, t, l[..n]);
      GroupsSettled(g, [t] + l);
      GroupsSettled(g, before);
      SelfNotUsing(g, t, l[..n]);
      OthersNotUsing(g, t, a0, b0, before);
      a, b := InsertAround(g, a0, t, b0, [l[n]]);
    }
  }

  lemma FirstGroup(g: Cluster, t: nat)
    ensures Groups(g, [t] + []) == [] + [[t]] + [] && Groups(g, []) == [] + []
  {
    var all: seq<nat> := [t] + [];
    assert all[..0] == [] && all[0] == t;
  }

  lemma SelfNotUsing(g: Cluster, t: nat, l: seq<nat>)
    requires InOrder(g, [t] + l) && NotUsing(g, l, t)
    ensures NotUsing(g, [t] + l, t)
  {
  }

  lemma OthersNotUsing(g: Cluster, t: nat, a: seq<seq<nat>>, b: seq<seq<nat>>, l: seq<nat>)
    requires Settled(g, a + [[t]] + b) && Elems(Flatten(a + [[t]] + b)) == Elems(l) && NotUsing(g, l, t)
    ensures NoneUsing(g, b, t)
  {
    hide Segmented, Flatten, AllTight, AllJoined, NonIncreasing, ParentsFirst;
    var segs := a + [[t]] + b;
    forall i, d | 0 <= i < |b| && d in g.deps && d.parent == t ensures d.child !in b[i] {
      assert b[i] == segs[|a| + 1 + i];
      SegmentedAt(g, segs, |a| + 1 + i);
      assert d.child !in Elems(l);
    }
  }

  lemma HeightAround(g: Cluster, a: seq<seq<nat>>, s: seq<nat>, b: seq<seq<nat>>, lam: real)
    ensures Height(g, a + [s] + b, lam) == Height(g, a + b, lam) + Pos(SegGain(g, s, lam))
    decreases |b|
  {
    if b == [] {
      assert a + [s] + b == a + [s] && a + b == a;
      HeightPush(g, a, s, lam);
    } else {
      var n := |b| - 1;
      assert a + [s] + b == (a + [s] + b[..n]) + [b[n]] && a + b == (a + b[..n]) + [b[n]];
      HeightPush(g, a + [s] + b[..n], b[n], lam);
      HeightPush(g, a + b[..n], b[n], lam);
      HeightAround(g, a, s, b[..n], lam);
    }
  }

  lemma HeightWithout(g: Cluster, t: nat, l: seq<nat>, lam: real)
    requires InOrder(g, [t] + l) && NotUsing(g, l, t)
    ensures Elems(l) <= g.feerate.Keys && Height(g, Groups(g, [t] + l), lam) >= Peak(g, l, lam)
  {
    hide Groups, Peak, Height;
    assert InOrder(g, l) by { SuffixInOrder(g, [t], l); }
    GroupsHeight(g, l, lam);
    var a, b := GroupsAround(g, t, l);
    HeightAround(g, a, [t], b, lam);
  }

  lemma SuffixInOrder(g: Cluster, a: seq<nat>, b: seq<nat>)
    requires InOrder(g, a + b)
    ensures InOrder(g, b)
  {
    assert forall i | 0 <= i < |b| :: b[i] == (a + b)[|a| + i];
    ConcatElems(a, b);
    ConcatOrder(g, a, b);
  }

  /** `h` is `g` with the fee of `t` raised. */
  ghost predicate Raised(g: Cluster, h: Cluster, t: nat) {
    && g.Valid() && h.Valid() && t in g.txns
    && h.txns == g.txns && h.deps == g.deps
    && h.feerate[t].fee >= g.feerate[t].fee && h.feerate[t].size == g.feerate[t].size
    && h.feerate == g.feerate[t := h.feerate[t]]
  }

  ghost function Raise(g: Cluster, h: Cluster, t: nat): real
    requires Raised(g, h, t)
  {
    (h.feerate[t].fee - g.feerate[t].fee) as real
  }

  lemma {:induction false} RaisedGain(g: Cluster, h: Cluster, t: nat, s: set<nat>, lam: real)
    requires Raised(g, h, t) && s <= g.txns
    ensures h.GainOf(s, lam) == g.GainOf(s, lam) + if t in s then Raise(g, h, t) else 0.0
    decreases |s|
  {
    hide Cluster.FeeOf, Cluster.GainOf;
    if s == {} {
      g.GainOfEmpty(lam);
      h.GainOfEmpty(lam);
    } else {
      var u := Pick(s);
      RaisedGain(g, h, t, s - {u}, lam);
      RaisedOne(g, h, t, u, lam);
      assert {u} + (s - {u}) == s;
      g.GainOfUnion({u}, s - {u}, lam);
      h.GainOfUnion({u}, s - {u}, lam);
    }
  }

  lemma RaisedOne(g: Cluster, h: Cluster, t: nat, u: nat, lam: real)
    requires Raised(g, h, t) && u in g.txns
    ensures h.GainOf({u}, lam) == g.GainOf({u}, lam) + if u == t then Raise(g, h, t) else 0.0
  {
    hide Cluster.FeeOf;
    g.FeeOfSingleton(u);
    h.FeeOfSingleton(u);
  }

  lemma RaisedMirror(g: Cluster, h: Cluster, t: nat)
    requires Raised(g, h, t)
    ensures Raised(Mirror(h), Mirror(g), t) && Raise(Mirror(h), Mirror(g), t) == Raise(g, h, t)
  {
    MirrorValid(g);
    MirrorValid(h);
    assert Mirror(g).feerate == Mirror(h).feerate[t := Mirror(g).feerate[t]];
  }

  /** Seen from the back: `t` comes first although nothing before its former place needs it, and
      its fee may have been lower before. */
  lemma EarlierPeak(g: Cluster, h: Cluster, t: nat, a: seq<nat>, b: seq<nat>, lam: real)
    requires Raised(g, h, t) && InOrder(g, [t] + a + b) && NotUsing(g, a, t)
    ensures Elems(a + [t] + b) <= h.feerate.Keys
    ensures Height(g, Groups(g, [t] + a + b), lam) + Raise(g, h, t) >= Peak(h, a + [t] + b, lam)
  {
    hide Groups, Peak, Height, Cluster.GainOf, Raise;
    var l, l' := [t] + a + b, a + [t] + b;
    assert Elems(l') == Elems(l);
    var bound := Height(g, Groups(g, l), lam) + Raise(g, h, t);
    forall k | 0 <= k <= |l'| ensures h.GainOf(Elems(l'[..k]), lam) <= bound {
      EarlierPrefix(g, h, t, a, b, k, lam);
    }
    GroupsTotal(g, l, lam);
    RaiseNonNegative(g, h, t);
    PeakAtMost(h, l', lam, bound);
  }

  lemma RaiseNonNegative(g: Cluster, h: Cluster, t: nat)
    requires Raised(g, h, t)
    ensures Raise(g, h, t) >= 0.0
  {
  }

  lemma EarlierPrefix(g: Cluster, h: Cluster, t: nat, a: seq<nat>, b: seq<nat>, k: nat, lam: real)
    requires Raised(g, h, t) && InOrder(g, [t] + a + b) && NotUsing(g, a, t) && k <= |a + [t] + b|
    ensures Elems((a + [t] + b)[..k]) <= g.txns
    ensures h.GainOf(Elems((a + [t] + b)[..k]), lam) <= Height(g, Groups(g, [t] + a + b), lam) + Raise(g, h, t)
  {
    var l, l' := [t] + a + b, a + [t] + b;
    hide Groups, Peak, Height, Cluster.GainOf, Raise;
    RaiseNonNegative(g, h, t);
    if k <= |a| {
      assert l'[..k] == a[..k];
      assert l[..|a| + 1] == [t] + a;
      PrefixInOrder(g, l, |a| + 1);
      HeightWithout(g, t, a, lam);
      GroupsGrow(g, l, |a| + 1, lam);
      PeakAtLeast(g, a, k, lam);
      RaisedGain(g, h, t, Elems(a[..k]), lam);
    } else {
      assert l'[..k] == a + [t] + b[..k - |a| - 1];
      assert l[..k] == [t] + a + b[..k - |a| - 1];
      assert Elems(l'[..k]) == Elems(l[..k]);
      PrefixInOrder(g, l, k);
      GroupsTotal(g, l[..k], lam);
      GroupsGrow(g, l, k, lam);
      RaisedGain(g, h, t, Elems(l[..k]), lam);
    }
  }

  lemma BackwardConcat(a: seq<nat>, t: nat, b: seq<nat>)
    ensures Backward(a + [t] + b) == Backward(b) + [t] + Backward(a)
    ensures Backward(a + b + [t]) == [t] + Backward(b) + Backward(a)
  {
  }

  /** Moving a leaf to the end, with the same or a higher fee, and post-linearizing is nowhere worse. */
  lemma MovedLeaf(g: Cluster, h: Cluster, a: seq<nat>, t: nat, b: seq<nat>)
    requires Raised(g, h, t) && IsLinearization(g, a + [t] + b) && g.Children(t) == {}
    ensures IsLinearization(h, a + b + [t]) && IsLinearization(h, Post(h, a + b + [t]))
    ensures forall lam: real :: Peak(h, Post(h, a + b + [t]), lam) >= Peak(g, a + [t] + b, lam)
  {
    hide Peak, Post, Raise;
    var l1, l2 := a + [t] + b, a + b + [t];
    MovedOrder(g, a, t, b);
    PostImproves(h, l2);
    forall lam: real ensures Peak(h, Post(h, l2), lam) >= Peak(g, l1, lam) {
      MovedPeak(g, h, a, t, b, lam);
    }
  }

  lemma MovedOrder(g: Cluster, a: seq<nat>, t: nat, b: seq<nat>)
    requires IsLinearization(g, a + [t] + b) && g.Children(t) == {}
    ensures IsLinearization(g, a + b + [t])
  {
    var l1, l2 := a + [t] + b, a + b + [t];
    assert Elems(l1) == Elems(l2);
    forall i | 0 <= i < |l2| ensures l2[i] == l1[if i < |a| then i else if i < |a| + |b| then i + 1 else |a|] {}
    forall i, j | 0 <= i < j < |l2| ensures Dep(l2[j], l2[i]) !in g.deps {
      assert forall d | d in g.deps && d.parent == t :: d.child in g.Children(t);
    }
  }

  /** Both passes can only add to what the backward pass gains over the old linearization. */
  lemma MovedPeak(g: Cluster, h: Cluster, a: seq<nat>, t: nat, b: seq<nat>, lam: real)
    requires Raised(g, h, t) && IsLinearization(g, a + [t] + b) && IsLinearization(h, a + b + [t])
             && IsLinearization(h, Post(h, a + b + [t]))
    ensures Peak(h, Post(h, a + b + [t]), lam) >= Peak(g, a + [t] + b, lam)
  {
    hide Peak, Mirror, Backward, Groups, Pass, Chunked, AllJoined, Raise, Cluster.GainOf, BackwardPass;
    var l2 := a + b + [t];
    MovedBackward(g, h, a, t, b, lam);
    PassImproves(h, BackwardPass(h, l2));
  }

  lemma MovedBackward(g: Cluster, h: Cluster, a: seq<nat>, t: nat, b: seq<nat>, lam: real)
    requires Raised(g, h, t) && IsLinearization(g, a + [t] + b) && IsLinearization(h, a + b + [t])
    ensures IsLinearization(h, BackwardPass(h, a + b + [t]))
    ensures Peak(h, BackwardPass(h, a + b + [t]), lam) >= Peak(g, a + [t] + b, lam)
  {
    hide Peak, Mirror, Backward, Groups, Pass, Chunked, AllJoined, Raise, Cluster.GainOf;
    var l1, l2 := a + [t] + b, a + b + [t];
    var mg, mh := Mirror(g), Mirror(h);
    var r2 := Backward(l2);
    RaisedMirror(g, h, t);
    BackwardPassImproves(h, l2);
    MirrorMoved(g, h, a, t, b, lam);
    MirrorPeak(g, l1, lam);
    MirrorPeak(h, BackwardPass(h, l2), lam);
    BackwardTwice(Pass(mh, r2));
    RaisedGain(g, h, t, g.txns, lam);
  }

  lemma MirrorMoved(g: Cluster, h: Cluster, a: seq<nat>, t: nat, b: seq<nat>, lam: real)
    requires Raised(g, h, t) && IsLinearization(g, a + [t] + b) && IsLinearization(h, a + b + [t])
    requires Raised(Mirror(h), Mirror(g), t)
    ensures Elems(Pass(Mirror(h), Backward(a + b + [t]))) <= Mirror(h).feerate.Keys
            && Elems(Backward(a + [t] + b)) <= Mirror(g).feerate.Keys
    ensures Peak(Mirror(h), Pass(Mirror(h), Backward(a + b + [t])), -lam) + Raise(Mirror(h), Mirror(g), t)
              >= Peak(Mirror(g), Backward(a + [t] + b), -lam)
  {
    hide Peak, Mirror, Backward, Groups, Pass, AllJoined, Raise, Height, Segmented;
    var mg, mh := Mirror(g), Mirror(h);
    var r2 := Backward(a + b + [t]);
    BackwardConcat(a, t, b);
    BackwardLinearization(g, a + [t] + b);
    BackwardLinearization(h, a + b + [t]);
    BeforeLeaf(mg, Backward(b), t, Backward(a));
    assert mh.deps == mg.deps;
    EarlierPeak(mh, mg, t, Backward(b), Backward(a), -lam);
    PassImproves(mh, r2);
    ChunksGivePeak(mh, Groups(mh, r2), Pass(mh, r2), -lam);
  }

  lemma BeforeLeaf(g: Cluster, a: seq<nat>, t: nat, b: seq<nat>)
    requires ParentsFirst(g, a + [t] + b)
    ensures NotUsing(g, a, t)
  {
    ConcatOrder(g, a + [t], b);
    ConcatOrder(g, a, [t]);
  }
}
