/** The cluster seen from the back: dependencies turned around and fees negated. A backward pass
    of post-linearization is a forward pass over the mirrored cluster. */
module PostMirror {
  import opened FeeFracs
  import opened Clusters
  import opened Linearizations
  import opened Chunking
  import opened PostGroups

  function Negated(f: FeeFrac): FeeFrac {
    FeeFrac(-f.fee, f.size)
  }

  function Turned(d: Dep): Dep {
    Dep(d.child, d.parent)
  }

  ghost function Mirror(g: Cluster): Cluster {
    Cluster(g.txns, set d | d in g.deps :: Turned(d), map t | t in g.feerate :: Negated(g.feerate[t]))
  }

  function Backward(l: seq<nat>): seq<nat> {
    seq(|l|, i requires 0 <= i < |l| => l[|l| - 1 - i])
  }

  lemma MirrorDeps(g: Cluster, d: Dep)
    ensures d in Mirror(g).deps <==> Turned(d) in g.deps
  {
    assert Turned(Turned(d)) == d;
  }

  lemma MirrorTwice(g: Cluster)
    ensures Mirror(Mirror(g)) == g
  {
    forall d: Dep ensures d in Mirror(Mirror(g)).deps <==> d in g.deps {
      MirrorDeps(Mirror(g), d);
      MirrorDeps(g, Turned(d));
    }
    assert Mirror(Mirror(g)).deps == g.deps;
  }

  lemma MirrorValid(g: Cluster)
    requires g.Valid()
    ensures Mirror(g).Valid()
  {
  }

  lemma BackwardTwice(l: seq<nat>)
    ensures Backward(Backward(l)) == l
  {
  }

  lemma BackwardElems(l: seq<nat>)
    ensures Elems(Backward(l)) == Elems(l) && (Distinct(l) ==> Distinct(Backward(l)))
  {
    var r := Backward(l);
    assert forall i | 0 <= i < |l| :: r[|l| - 1 - i] == l[i];
    assert forall i | 0 <= i < |l| :: r[i] == l[|l| - 1 - i];
  }

  lemma BackwardLinearization(g: Cluster, l: seq<nat>)
    requires IsLinearization(g, l)
    ensures IsLinearization(Mirror(g), Backward(l))
  {
    BackwardElems(l);
    var r := Backward(l);
    forall i, j | 0 <= i < j < |r| ensures Dep(r[j], r[i]) !in Mirror(g).deps {
      MirrorDeps(g, Dep(r[j], r[i]));
      assert r[i] == l[|l| - 1 - i] && r[j] == l[|l| - 1 - j];
    }
  }

  lemma {:induction false} MirrorFee(g: Cluster, s: set<nat>)
    requires s <= g.feerate.Keys
    ensures Mirror(g).FeeOf(s) == Negated(g.FeeOf(s))
    decreases |s|
  {
    if s != {} {
      MirrorFee(g, s - {Pick(s)});
    }
  }

  lemma MirrorGain(g: Cluster, s: set<nat>, lam: real)
    requires s <= g.feerate.Keys
    ensures Mirror(g).GainOf(s, -lam) == -g.GainOf(s, lam)
  {
    hide Cluster.FeeOf;
    MirrorFee(g, s);
  }

  lemma SuffixElems(l: seq<nat>, k: nat)
    requires Distinct(l) && k <= |l|
    ensures Elems(Backward(l)[..k]) == Elems(l) - Elems(l[..|l| - k])
  {
    var n := |l| - k;
    assert l == l[..n] + l[n..];
    ConcatElems(l[..n], l[n..]);
    assert Backward(l)[..k] == Backward(l[n..]);
    BackwardElems(l[n..]);
  }

  lemma MirrorPeakAtMost(g: Cluster, l: seq<nat>, lam: real)
    requires Distinct(l) && Elems(l) <= g.feerate.Keys
    ensures Elems(Backward(l)) <= Mirror(g).feerate.Keys
    ensures Peak(Mirror(g), Backward(l), -lam) <= Peak(g, l, lam) - g.GainOf(Elems(l), lam)
  {
    BackwardElems(l);
    var m, r := Mirror(g), Backward(l);
    hide Cluster.GainOf, Peak, Backward, Mirror;
    assert m.feerate.Keys == g.feerate.Keys by { MirrorKeys(g); }
    var bound := Peak(g, l, lam) - g.GainOf(Elems(l), lam);
    forall k | 0 <= k <= |r| ensures m.GainOf(Elems(r[..k]), -lam) <= bound {
      BackwardLength(l);
      PrefixElems(l, |l| - k);
      SuffixElems(l, k);
      MirrorGain(g, Elems(r[..k]), lam);
      PeakAtLeast(g, l, |l| - k, lam);
      g.GainOfUnion(Elems(l[..|l| - k]), Elems(l) - Elems(l[..|l| - k]), lam);
      assert Elems(l[..|l| - k]) + (Elems(l) - Elems(l[..|l| - k])) == Elems(l);
    }
    PeakAtLeast(g, l, |l|, lam);
    assert l[..|l|] == l;
    PeakAtMost(m, r, -lam, bound);
  }

  lemma BackwardLength(l: seq<nat>)
    ensures |Backward(l)| == |l|
  {
  }

  lemma MirrorKeys(g: Cluster)
    ensures Mirror(g).feerate.Keys == g.feerate.Keys
  {
  }

  /** What the mirrored order pays is what the order pays beyond paying for everything. */
  lemma MirrorPeak(g: Cluster, l: seq<nat>, lam: real)
    requires Distinct(l) && Elems(l) <= g.feerate.Keys
    ensures Elems(Backward(l)) <= Mirror(g).feerate.Keys
    ensures Peak(Mirror(g), Backward(l), -lam) == Peak(g, l, lam) - g.GainOf(Elems(l), lam)
  {
    hide Cluster.GainOf, Peak, Backward, Mirror;
    MirrorPeakAtMost(g, l, lam);
    BackwardElems(l);
    MirrorPeakAtMost(Mirror(g), Backward(l), -lam);
    MirrorTwice(g);
    BackwardTwice(l);
    MirrorGain(g, Elems(l), lam);
  }

  /** A backward pass. */
  ghost function BackwardPass(g: Cluster, l: seq<nat>): seq<nat> {
    Backward(Pass(Mirror(g), Backward(l)))
  }

  lemma BackwardPassImproves(g: Cluster, l: seq<nat>)
    requires g.Valid() && IsLinearization(g, l)
    ensures IsLinearization(g, BackwardPass(g, l))
    ensures forall lam: real :: Peak(g, BackwardPass(g, l), lam) >= Peak(g, l, lam)
  {
    hide Peak, Backward, Mirror, Pass, Chunked;
    var m, r := Mirror(g), Backward(l);
    MirrorValid(g);
    MirrorTwice(g);
    BackwardLinearization(g, l);
    PassImproves(m, r);
    BackwardLinearization(m, Pass(m, r));
    forall lam: real ensures Peak(g, BackwardPass(g, l), lam) >= Peak(g, l, lam) {
      MirrorPeaks(g, l, BackwardPass(g, l), lam);
      BackwardTwice(Pass(m, r));
      assert Peak(m, Pass(m, r), -lam) >= Peak(m, r, -lam);
    }
  }

  lemma MirrorPeaks(g: Cluster, l: seq<nat>, l': seq<nat>, lam: real)
    requires g.Valid() && IsLinearization(g, l) && IsLinearization(g, l')
    ensures Elems(Backward(l)) <= Mirror(g).feerate.Keys && Elems(Backward(l')) <= Mirror(g).feerate.Keys
    ensures Peak(Mirror(g), Backward(l'), -lam) >= Peak(Mirror(g), Backward(l), -lam) <==>
            Peak(g, l', lam) >= Peak(g, l, lam)
  {
    hide Peak, Backward, Mirror, Cluster.GainOf;
    MirrorPeak(g, l, lam);
    MirrorPeak(g, l', lam);
  }

  /** Post-linearization: a backward pass and then a forward pass. */
  ghost function Post(g: Cluster, l: seq<nat>): seq<nat> {
    Pass(g, BackwardPass(g, l))
  }

  /** The chunks of `l`, however they are cut, are connected. */
  ghost predicate ConnectedChunks(g: Cluster, l: seq<nat>) {
    forall segs: seq<seq<nat>> :: Chunked(g, segs, l) ==> AllJoined(g, segs)
  }

  /** Post-linearization gives a linearization that is nowhere worse and has connected chunks. */
  lemma PostImproves(g: Cluster, l: seq<nat>)
    requires g.Valid() && IsLinearization(g, l)
    ensures IsLinearization(g, Post(g, l)) && ConnectedChunks(g, Post(g, l))
    ensures forall lam: real :: Peak(g, Post(g, l), lam) >= Peak(g, l, lam)
  {
    hide Peak, Pass, Chunked, BackwardPass, AllJoined;
    var b := BackwardPass(g, l);
    BackwardPassImproves(g, l);
    PassImproves(g, b);
    forall lam: real ensures Peak(g, Pass(g, b), lam) >= Peak(g, l, lam) {
      assert Peak(g, b, lam) >= Peak(g, l, lam);
    }
    forall segs: seq<seq<nat>> | Chunked(g, segs, Pass(g, b)) ensures AllJoined(g, segs) {
      ChunkingUnique(g, segs, Groups(g, b), Pass(g, b));
    }
  }
}
