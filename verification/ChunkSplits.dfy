/** What the top sets of a chunk's active dependencies say about all of its splits.

    Consider a chunk and a part of it that includes the parents of its members. If no active
    dependency has a top set of higher feerate than the chunk, the part has no higher feerate
    either (`NoBetterPart`). If it has the same feerate, then so has every top set the part cuts
    (`EqualPartCutsEqualTops`), and following those cuts moves a pivot transaction across
    (`PivotNotAbove`, `PivotNotBelow`). */
module ChunkSplits {
  import opened Clusters
  import opened Forests
  import opened ForestShape

  /** `c` is a chunk of active dependencies `a`, with `top` as their top sets. */
  ghost predicate Chunk(a: set<Dep>, c: set<nat>, top: map<Dep, set<nat>>) {
    && top.Keys == a
    && (forall e | e in a :: e.parent in c && e.child in c)
    && Connected(a, c)
    && (forall e | e in a :: IsTop(a, e, top[e]) && top[e] <= c)
  }

  /** With every child, `s` has its parents along active dependencies. */
  ghost predicate UpClosed(a: set<Dep>, s: set<nat>) {
    forall e | e in a && e.child in s :: e.parent in s
  }

  /** The active dependencies along which `s` is cut off from its chunk. */
  ghost function Cut(a: set<Dep>, s: set<nat>): set<Dep> {
    set e | e in a && e.parent in s && e.child !in s
  }

  lemma UncutIsTrivial(a: set<Dep>, c: set<nat>, s: set<nat>)
    requires Connected(a, c) && s <= c && UpClosed(a, s) && Cut(a, s) == {}
    ensures s == {} || s == c
  {
    forall e | e in a ensures !Crosses(e, s) {
      assert e !in Cut(a, s);
    }
    assert Closed(a, s);
  }

  lemma BottomClosed(a: set<Dep>, c: set<nat>, top: map<Dep, set<nat>>, e: Dep, h: Dep)
    requires Chunk(a, c, top) && e in a && h in a && h != e
    ensures e in top
    ensures h.parent in c - top[e] <==> h.child in c - top[e]
  {
    hide Connected;
    assert h in a - {e} && !Crosses(h, top[e]);
  }

  lemma TopEnds(a: set<Dep>, c: set<nat>, top: map<Dep, set<nat>>, e: Dep)
    requires Chunk(a, c, top) && e in a
    ensures e in top && e.parent !in c - top[e] && e.child in c - top[e] && top[e] <= c
  {
    hide Connected;
  }

  /** Adding the bottom side of a cut dependency removes it from the cut. */
  lemma JoinBottom(a: set<Dep>, c: set<nat>, top: map<Dep, set<nat>>, s: set<nat>, e: Dep)
    requires Chunk(a, c, top) && s <= c && UpClosed(a, s) && e in Cut(a, s)
    ensures var s' := s + (c - top[e]); UpClosed(a, s') && s' <= c && Cut(a, s') < Cut(a, s)
  {
    hide Chunk;
    TopEnds(a, c, top, e);
    var s' := s + (c - top[e]);
    forall h | h in a
      ensures h.child in s' ==> h.parent in s'
      ensures h in Cut(a, s') ==> h in Cut(a, s) && h != e
    {
      if h != e { BottomClosed(a, c, top, e, h); }
    }
    assert e !in Cut(a, s');
  }

  /** So does keeping only what lies in the bottom side. */
  lemma MeetBottom(a: set<Dep>, c: set<nat>, top: map<Dep, set<nat>>, s: set<nat>, e: Dep)
    requires Chunk(a, c, top) && s <= c && UpClosed(a, s) && e in Cut(a, s)
    ensures var s' := s * (c - top[e]); UpClosed(a, s') && s' <= c && Cut(a, s') < Cut(a, s)
  {
    hide Chunk;
    TopEnds(a, c, top, e);
    var s' := s * (c - top[e]);
    forall h | h in a
      ensures h.child in s' ==> h.parent in s'
      ensures h in Cut(a, s') ==> h in Cut(a, s) && h != e
    {
      if h != e { BottomClosed(a, c, top, e, h); }
    }
    assert e !in Cut(a, s');
  }

  lemma CutGain(g: Cluster, c: set<nat>, t: set<nat>, s: set<nat>, lam: real)
    requires c <= g.feerate.Keys && t <= c && s <= c && g.GainOf(c, lam) == 0.0
    ensures var b := c - t;
            g.GainOf(s, lam) == g.GainOf(s + b, lam) + g.GainOf(s * b, lam) + g.GainOf(t, lam)
  {
    var b := c - t;
    g.GainOfModular(s, b, lam);
    g.GainOfUnion(t, b, lam);
    assert t + b == c;
  }

  /** No active dependency has a top set of higher feerate than the chunk itself. */
  ghost predicate NoBetterTop(g: Cluster, c: set<nat>, top: map<Dep, set<nat>>)
    requires g.Valid() && c <= g.txns && c != {}
  {
    forall e | e in top && top[e] <= g.feerate.Keys :: g.GainOf(top[e], g.RateOf(c)) <= 0.0
  }

  lemma ChunkGain(g: Cluster, c: set<nat>)
    requires g.Valid() && c <= g.txns && c != {}
    ensures g.GainOf(c, g.RateOf(c)) == 0.0
  {
    g.GainOfSign(c, g.RateOf(c));
  }

  /** Then no part of the chunk that includes its own parents does better than the chunk. */
  lemma {:induction false} NoBetterPart(g: Cluster, a: set<Dep>, c: set<nat>, top: map<Dep, set<nat>>, s: set<nat>)
    requires g.Valid() && c <= g.txns && c != {} && Chunk(a, c, top) && NoBetterTop(g, c, top)
    requires s <= c && UpClosed(a, s)
    ensures g.GainOf(s, g.RateOf(c)) <= 0.0
    decreases |Cut(a, s)|
  {
    hide Cluster.FeeOf, Cluster.RateOf, Cluster.GainOf, Connected, IsTop;
    var lam := g.RateOf(c);
    ChunkGain(g, c);
    if Cut(a, s) == {} {
      UncutIsTrivial(a, c, s);
      g.GainOfEmpty(lam);
    } else {
      var e :| e in Cut(a, s);
      var b := c - top[e];
      JoinBottom(a, c, top, s, e);
      MeetBottom(a, c, top, s, e);
      Strict(Cut(a, s + b), Cut(a, s));
      Strict(Cut(a, s * b), Cut(a, s));
      NoBetterPart(g, a, c, top, s + b);
      NoBetterPart(g, a, c, top, s * b);
      CutGain(g, c, top[e], s, lam);
    }
  }

  /** A part of the chunk's own feerate only cuts dependencies whose top set has that feerate,
      and stays such a part when a bottom side is added or singled out. */
  lemma EqualPartCutsEqualTops(g: Cluster, a: set<Dep>, c: set<nat>, top: map<Dep, set<nat>>, s: set<nat>, e: Dep)
    requires g.Valid() && c <= g.txns && c != {} && Chunk(a, c, top) && NoBetterTop(g, c, top)
    requires s <= c && UpClosed(a, s) && g.GainOf(s, g.RateOf(c)) == 0.0 && e in Cut(a, s)
    ensures top[e] <= c && g.GainOf(top[e], g.RateOf(c)) == 0.0
    ensures g.GainOf(s + (c - top[e]), g.RateOf(c)) == 0.0
    ensures g.GainOf(s * (c - top[e]), g.RateOf(c)) == 0.0
  {
    hide Cluster.FeeOf, Cluster.RateOf, Cluster.GainOf, Connected, IsTop;
    var b := c - top[e];
    ChunkGain(g, c);
    JoinBottom(a, c, top, s, e);
    MeetBottom(a, c, top, s, e);
    NoBetterPart(g, a, c, top, s + b);
    NoBetterPart(g, a, c, top, s * b);
    CutGain(g, c, top[e], s, g.RateOf(c));
  }

  /** If every equal-feerate top set misses the pivot, only the whole chunk is an equal-feerate
      part with the pivot in it. */
  lemma {:induction false} PivotNotAbove(g: Cluster, a: set<Dep>, c: set<nat>, top: map<Dep, set<nat>>, s: set<nat>,
                                         pivot: nat)
    requires g.Valid() && c <= g.txns && c != {} && Chunk(a, c, top) && NoBetterTop(g, c, top)
    requires s <= c && UpClosed(a, s) && g.GainOf(s, g.RateOf(c)) == 0.0 && pivot in s
    requires forall e | e in a && g.GainOf(top[e], g.RateOf(c)) == 0.0 :: pivot !in top[e]
    ensures s == c
    decreases |Cut(a, s)|
  {
    hide Cluster.FeeOf, Cluster.RateOf, Cluster.GainOf, Connected, IsTop;
    if Cut(a, s) == {} {
      UncutIsTrivial(a, c, s);
    } else {
      var e :| e in Cut(a, s);
      EqualPartCutsEqualTops(g, a, c, top, s, e);
      MeetBottom(a, c, top, s, e);
      Strict(Cut(a, s * (c - top[e])), Cut(a, s));
      PivotNotAbove(g, a, c, top, s * (c - top[e]), pivot);
      TopEnds(a, c, top, e);
    }
  }

  /** If every equal-feerate top set contains the pivot, there is no non-empty equal-feerate part
      without the pivot. */
  lemma {:induction false} PivotNotBelow(g: Cluster, a: set<Dep>, c: set<nat>, top: map<Dep, set<nat>>, s: set<nat>,
                                         pivot: nat)
    requires g.Valid() && c <= g.txns && c != {} && Chunk(a, c, top) && NoBetterTop(g, c, top)
    requires s <= c && UpClosed(a, s) && g.GainOf(s, g.RateOf(c)) == 0.0 && pivot in c && pivot !in s
    requires forall e | e in a && g.GainOf(top[e], g.RateOf(c)) == 0.0 :: pivot in top[e]
    ensures s == {}
    decreases |Cut(a, s)|
  {
    hide Cluster.FeeOf, Cluster.RateOf, Cluster.GainOf, Connected, IsTop;
    if Cut(a, s) == {} {
      UncutIsTrivial(a, c, s);
    } else {
      var e :| e in Cut(a, s);
      EqualPartCutsEqualTops(g, a, c, top, s, e);
      JoinBottom(a, c, top, s, e);
      Strict(Cut(a, s + (c - top[e])), Cut(a, s));
      PivotNotBelow(g, a, c, top, s + (c - top[e]), pivot);
      TopEnds(a, c, top, e);
    }
  }
}
