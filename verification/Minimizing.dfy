/** Splitting the chunks of an optimal forest into minimal ones of the same feerate. */
module Minimizing {
  import opened Clusters
  import opened Forests
  import opened ForestShape
  import opened ChunkSplits
  import opened Diagrams
  import opened Merging
  import opened Improving
  import opened Optimality

  /** `s` is a part of `c` that includes the parents its members have in `c`. */
  ghost predicate ClosedIn(g: Cluster, c: set<nat>, s: set<nat>) {
    s <= c && forall d | d in g.deps && d.child in s && d.parent in c :: d.parent in s
  }

  /** `s` is such a part, and has the feerate of `c` (or is empty). */
  ghost predicate EqualPart(g: Cluster, c: set<nat>, s: set<nat>) {
    && g.Valid() && c <= g.txns && c != {}
    && ClosedIn(g, c, s)
    && g.GainOf(s, g.RateOf(c)) == 0.0
  }

  /** `c` cannot be split in equal-feerate parts. */
  ghost predicate MinimalChunk(g: Cluster, c: set<nat>) {
    forall s: set<nat> :: EqualPart(g, c, s) ==> s == {} || s == c
  }

  /** No split of `c` has the pivot in its upper part. */
  ghost predicate NoneAbove(g: Cluster, c: set<nat>, pivot: nat) {
    forall s: set<nat> :: EqualPart(g, c, s) && pivot in s ==> s == c
  }

  /** No split of `c` has the pivot in its lower part. */
  ghost predicate NoneBelow(g: Cluster, c: set<nat>, pivot: nat) {
    forall s: set<nat> :: EqualPart(g, c, s) && pivot !in s ==> s == {}
  }

  /** The dependency's top set has the feerate of its chunk. */
  ghost predicate EqualTop(g: Cluster, f: Forest, d: Dep) {
    && Fits(g, f) && f.Valid(g) && d in f.top
    && g.GainOf(f.top[d], ChunkRate(g, f, f.chunk[d.parent])) == 0.0
  }

  // ---- What the search for a split concludes

  lemma EqualPartInside(g: Cluster, f: Forest, i: nat, s: set<nat>)
    requires f.Valid(g) && ClosedIn(g, f.Part(i), s)
    ensures UpClosed(Inside(f.Active(), f.Part(i)), s)
  {
    hide Connected, Closed, IsTop;
  }

  /** No equal-feerate top set has the pivot in it: then no split has it in its upper part. */
  lemma SearchedAbove(g: Cluster, f: Forest, i: nat, pivot: nat)
    requires Fits(g, f) && f.Valid(g) && i in f.chunk.Values && NothingImprovable(g, f)
    requires forall d | d in f.top && d.parent in f.Part(i) && EqualTop(g, f, d) :: pivot !in f.top[d]
    ensures NoneAbove(g, f.Part(i), pivot)
  {
    hide Forest.Valid, Cluster.GainOf, Cluster.RateOf, Chunk, NoBetterTop, Improvable;
    var c, a := f.Part(i), Inside(f.Active(), f.Part(i));
    ChunkAlone(g, f, i);
    ChunkNoBetterTop(g, f, i);
    forall s: set<nat> | EqualPart(g, c, s) && pivot in s
      ensures s == c
    {
      EqualPartInside(g, f, i, s);
      EqualTops(g, f, i);
      PivotNotAbove(g, a, c, TopsOf(f, i), s, pivot);
    }
  }

  /** All equal-feerate top sets have the pivot in them: then no split has it in its lower part. */
  lemma SearchedBelow(g: Cluster, f: Forest, i: nat, pivot: nat)
    requires Fits(g, f) && f.Valid(g) && i in f.chunk.Values && NothingImprovable(g, f) && pivot in f.Part(i)
    requires forall d | d in f.top && d.parent in f.Part(i) && EqualTop(g, f, d) :: pivot in f.top[d]
    ensures NoneBelow(g, f.Part(i), pivot)
  {
    hide Forest.Valid, Cluster.GainOf, Cluster.RateOf, Chunk, NoBetterTop, Improvable;
    var c, a := f.Part(i), Inside(f.Active(), f.Part(i));
    ChunkAlone(g, f, i);
    ChunkNoBetterTop(g, f, i);
    forall s: set<nat> | EqualPart(g, c, s) && pivot !in s
      ensures s == {}
    {
      EqualPartInside(g, f, i, s);
      EqualTops(g, f, i);
      PivotNotBelow(g, a, c, TopsOf(f, i), s, pivot);
    }
  }

  lemma EqualTops(g: Cluster, f: Forest, i: nat)
    requires Fits(g, f) && f.Valid(g) && i in f.chunk.Values && f.Part(i) != {}
    ensures TopsOf(f, i).Keys == Inside(f.Active(), f.Part(i))
    ensures forall e | e in TopsOf(f, i) ::
              && TopsOf(f, i)[e] <= g.feerate.Keys
              && (g.GainOf(TopsOf(f, i)[e], g.RateOf(f.Part(i))) == 0.0 ==> EqualTop(g, f, e))
  {
    hide Cluster.GainOf, Cluster.RateOf, Connected, Closed, IsTop;
  }

  lemma BothSearched(g: Cluster, c: set<nat>, pivot: nat)
    requires NoneAbove(g, c, pivot) && NoneBelow(g, c, pivot)
    ensures MinimalChunk(g, c)
  {
  }

  // ---- What a split passes on to its halves

  /** Nothing in `t` depends on the rest of `c`. */
  lemma UpperInherits(g: Cluster, c: set<nat>, t: set<nat>, pivot: nat)
    requires g.Valid() && c <= g.txns && t <= c && t != {} && c != {} && g.RateOf(t) == g.RateOf(c) && ClosedIn(g, c, t)
    requires NoneBelow(g, c, pivot)
    ensures NoneBelow(g, t, pivot)
  {
    hide Cluster.RateOf, Cluster.GainOf;
    forall s: set<nat> | EqualPart(g, t, s) && pivot !in s
      ensures s == {}
    {
      assert EqualPart(g, c, s);
    }
  }

  lemma LowerInherits(g: Cluster, c: set<nat>, t: set<nat>, pivot: nat)
    requires g.Valid() && c <= g.txns && t <= c && t != {} && c - t != {} && ClosedIn(g, c, t)
    requires g.RateOf(t) == g.RateOf(c) == g.RateOf(c - t)
    requires NoneAbove(g, c, pivot)
    ensures NoneAbove(g, c - t, pivot)
  {
    hide Cluster.RateOf, Cluster.GainOf;
    forall s: set<nat> | EqualPart(g, c - t, s) && pivot in s
      ensures s == c - t
    {
      g.GainOfUnion(s, t, g.RateOf(c));
      g.GainOfSign(t, g.RateOf(c));
      assert ClosedIn(g, c, s + t);
      assert EqualPart(g, c, s + t);
    }
  }

  // ---- Weakly topological states

  /** No set of chunks depends on itself all the way round. */
  ghost predicate ChunksAcyclic(g: Cluster, f: Forest) {
    forall q: set<nat> :: q <= f.chunk.Values && q != {} ==> exists i :: i in q && Ready(g, f, q, i)
  }

  /** Chunk `i` depends on no other chunk of `q`. */
  ghost predicate Ready(g: Cluster, f: Forest, q: set<nat>, i: nat) {
    forall d | d in g.deps && Between(f, d) && f.chunk[d.child] == i :: f.chunk[d.parent] !in q
  }

  /** Topological, except that equal-feerate chunks may depend on each other without a loop. */
  ghost predicate WeaklyTopological(g: Cluster, f: Forest)
    requires Fits(g, f)
  {
    && (forall d | d in g.deps && Between(f, d) ::
        ChunkRate(g, f, f.chunk[d.child]) <= ChunkRate(g, f, f.chunk[d.parent]))
    && ChunksAcyclic(g, f)
  }

  lemma {:induction false} HighestChunk(g: Cluster, f: Forest, q: set<nat>) returns (i: nat)
    requires Fits(g, f) && q <= f.chunk.Values && q != {}
    ensures i in q && forall j | j in q :: ChunkRate(g, f, j) <= ChunkRate(g, f, i)
    decreases |q|
  {
    hide ChunkRate;
    i := Pick(q);
    if q - {i} != {} {
      var j := HighestChunk(g, f, q - {i});
      if ChunkRate(g, f, j) > ChunkRate(g, f, i) {
        i := j;
      }
    }
  }

  lemma TopologicalIsWeak(g: Cluster, f: Forest)
    requires Fits(g, f) && Topological(g, f)
    ensures WeaklyTopological(g, f)
  {
    hide ChunkRate;
    forall d | d in g.deps && Between(f, d)
      ensures ChunkRate(g, f, f.chunk[d.child]) <= ChunkRate(g, f, f.chunk[d.parent])
    {
      assert InOrder(g, f, d);
    }
    forall q: set<nat> | q <= f.chunk.Values && q != {}
      ensures exists i :: i in q && Ready(g, f, q, i)
    {
      var i := HighestChunk(g, f, q);
      forall d | d in g.deps && Between(f, d) && f.chunk[d.child] == i
        ensures f.chunk[d.parent] !in q
      {
        assert InOrder(g, f, d);
      }
      assert Ready(g, f, q, i);
    }
  }

  // ---- Splitting at an equal-feerate dependency

  lemma EqualSplitRates(g: Cluster, f: Forest, d: Dep, ip: nat)
    requires EqualTop(g, f, d) && f.CanDeactivate(d, ip)
    ensures var f', ic := f.Deactivated(d, ip), f.chunk[d.parent];
            && Fits(g, f') && f'.chunk.Values == f.chunk.Values + {ip}
            && ChunkRate(g, f', ip) == ChunkRate(g, f, ic) == ChunkRate(g, f', ic)
            && (forall i | i in f.chunk.Values && i != ic :: ChunkRate(g, f', i) == ChunkRate(g, f, i))
  {
    hide Cluster.FeeOf, Cluster.RateOf, Cluster.GainOf, Closed, Connected, IsTop;
    var f', ic := f.Deactivated(d, ip), f.chunk[d.parent];
    DeactivatedParts(f, g, d, ip);
    PartNonEmpty(f, ic);
    PartNonEmpty(f', ic);
    PartNonEmpty(f', ip);
    var t, b := f'.Part(ip), f'.Part(ic);
    assert t + b == f.Part(ic);
    g.RateOfUnion(t, b);
    g.GainOfSign(t, g.RateOf(f.Part(ic)));
  }

  lemma GainDifference(g: Cluster, t: set<nat>, b: set<nat>, lam: real)
    requires t <= g.feerate.Keys && b <= t && g.GainOf(b, lam) == 0.0
    ensures g.GainOf(t - b, lam) == g.GainOf(t, lam)
  {
    hide Cluster.GainOf;
    g.GainOfUnion(t - b, b, lam);
    assert t - b + b == t;
  }

  lemma HalfGain(g: Cluster, f: Forest, d: Dep)
    requires EqualTop(g, f, d)
    ensures var r, b := ChunkRate(g, f, f.chunk[d.parent]), f.Part(f.chunk[d.parent]) - f.top[d];
            f.top[d] <= g.feerate.Keys && b <= g.feerate.Keys && g.GainOf(b, r) == 0.0 && g.GainOf(f.top[d], r) == 0.0
  {
    hide Cluster.FeeOf, Cluster.RateOf, Cluster.GainOf, Closed, Connected, IsTop;
    var ic := f.chunk[d.parent];
    var r, c, t := ChunkRate(g, f, ic), f.Part(ic), f.top[d];
    PartNonEmpty(f, ic);
    g.GainOfSign(c, r);
    g.GainOfUnion(t, c - t, r);
    assert t + (c - t) == c;
  }

  /** Both halves of an equal-feerate split still have nothing to improve. */
  lemma EqualSplitOptimal(g: Cluster, f: Forest, d: Dep, ip: nat)
    requires EqualTop(g, f, d) && f.CanDeactivate(d, ip) && NothingImprovable(g, f)
    ensures NothingImprovable(g, f.Deactivated(d, ip))
  {
    hide Cluster.GainOf, ChunkRate, Forest.Valid, Forest.Part;
    var f', ic := f.Deactivated(d, ip), f.chunk[d.parent];
    var t, b := f.top[d], f.Part(ic) - f.top[d];
    EqualSplitRates(g, f, d, ip);
    HalfGain(g, f, d);
    forall e | e in f'.top
      ensures !Improvable(g, f', e)
    {
      assert !Improvable(g, f, e);
      EqualSplitTop(g, f, d, ip, e);
    }
  }

  lemma EqualSplitTop(g: Cluster, f: Forest, d: Dep, ip: nat, e: Dep)
    requires EqualTop(g, f, d) && f.CanDeactivate(d, ip) && e in f.top && e != d && !Improvable(g, f, e)
    ensures !Improvable(g, f.Deactivated(d, ip), e)
  {
    hide Cluster.GainOf, ChunkRate, Closed, Connected, IsTop;
    var f', ic := f.Deactivated(d, ip), f.chunk[d.parent];
    var t, b, r := f.top[d], f.Part(ic) - f.top[d], ChunkRate(g, f, ic);
    EqualSplitRates(g, f, d, ip);
    HalfGain(g, f, d);
    DeactivatedTopOf(f, g, d, e);
    DeactivatedParts(f, g, d, ip);
    assert f.top[e] <= g.feerate.Keys;
    if e.parent in t && d.parent in f.top[e] {
      GainDifference(g, f.top[e], b, r);
    } else if e.parent in b && d.child in f.top[e] {
      GainDifference(g, f.top[e], t, r);
    }
  }

  lemma EqualSplitDiagram(g: Cluster, f: Forest, d: Dep, ip: nat, lam: real)
    requires EqualTop(g, f, d) && f.CanDeactivate(d, ip)
    ensures Fits(g, f.Deactivated(d, ip))
    ensures Diagram(g, f.Deactivated(d, ip), lam) == Diagram(g, f, lam)
  {
    hide Area, Total, Forest.Valid, Forest.Deactivated, Cluster.GainOf, ChunkRate;
    var f', ic := f.Deactivated(d, ip), f.chunk[d.parent];
    EqualSplitRates(g, f, d, ip);
    GainsDeactivated(g, f, d, ip, lam);
    AreaSplit(Gains(g, f, lam), ip, ic, g.GainOf(f.top[d], lam));
    GainsSign(g, f, ic, lam);
    GainsSign(g, f', ip, lam);
    GainsSign(g, f', ic, lam);
  }

  /** The halves take the split chunk's place in the dependency order, top first. */
  lemma EqualSplitWeak(g: Cluster, f: Forest, d: Dep, ip: nat)
    requires EqualTop(g, f, d) && f.CanDeactivate(d, ip) && WeaklyTopological(g, f)
    requires !TopNeedsBottom(g, f.Deactivated(d, ip), ip, f.chunk[d.parent])
    ensures Fits(g, f.Deactivated(d, ip)) && WeaklyTopological(g, f.Deactivated(d, ip))
  {
    hide Cluster.GainOf, ChunkRate, Forest.Valid, Forest.Deactivated, ChunksAcyclic, TopNeedsBottom;
    var f', ic := f.Deactivated(d, ip), f.chunk[d.parent];
    EqualSplitRates(g, f, d, ip);
    forall e | e in g.deps && Between(f', e)
      ensures ChunkRate(g, f', f'.chunk[e.child]) <= ChunkRate(g, f', f'.chunk[e.parent])
    {
      SplitChunk(g, f, d, ip, e.parent);
      SplitChunk(g, f, d, ip, e.child);
      assert f.chunk[e.parent] != f.chunk[e.child] ==> Between(f, e);
    }
    EqualSplitAcyclic(g, f, d, ip);
  }

  lemma EqualSplitAcyclic(g: Cluster, f: Forest, d: Dep, ip: nat)
    requires EqualTop(g, f, d) && f.CanDeactivate(d, ip) && ChunksAcyclic(g, f)
    requires !TopNeedsBottom(g, f.Deactivated(d, ip), ip, f.chunk[d.parent])
    ensures ChunksAcyclic(g, f.Deactivated(d, ip))
  {
    hide Cluster.GainOf, ChunkRate, Forest.Valid, Forest.Deactivated, TopNeedsBottom, Ready;
    var f', ic := f.Deactivated(d, ip), f.chunk[d.parent];
    EqualSplitRates(g, f, d, ip);
    forall q': set<nat> | q' <= f'.chunk.Values && q' != {}
      ensures exists i :: i in q' && Ready(g, f', q', i)
    {
      var q := if ip in q' then q' - {ip} + {ic} else q';
      assert q <= f.chunk.Values && q != {};
      var i :| i in q && Ready(g, f, q, i);
      var i' := if i == ic && ip in q' then ip else i;
      SplitReadyChunk(g, f, d, ip, q', q, i);
      assert i' in q' && Ready(g, f', q', i');
    }
  }

  lemma SplitReadyChunk(g: Cluster, f: Forest, d: Dep, ip: nat, q': set<nat>, q: set<nat>, i: nat)
    requires EqualTop(g, f, d) && f.CanDeactivate(d, ip) && i in f.chunk.Values
    requires !TopNeedsBottom(g, f.Deactivated(d, ip), ip, f.chunk[d.parent])
    requires q == (if ip in q' then q' - {ip} + {f.chunk[d.parent]} else q') && Ready(g, f, q, i)
    ensures Ready(g, f.Deactivated(d, ip), q', if i == f.chunk[d.parent] && ip in q' then ip else i)
  {
    hide Cluster.GainOf, ChunkRate, Forest.Valid, Forest.Deactivated;
    var f', ic := f.Deactivated(d, ip), f.chunk[d.parent];
    var i' := if i == ic && ip in q' then ip else i;
    EqualSplitRates(g, f, d, ip);
    forall e | e in g.deps && Between(f', e) && f'.chunk[e.child] == i'
      ensures f'.chunk[e.parent] !in q'
    {
      SplitChunk(g, f, d, ip, e.parent);
      SplitChunk(g, f, d, ip, e.child);
      if f.chunk[e.parent] != f.chunk[e.child] {
        assert Between(f, e);
      }
    }
  }

  // ---- Merging the halves back

  lemma EqualMergeTop(g: Cluster, f: Forest, e: Dep, h: Dep)
    requires Fits(g, f) && f.Valid(g) && f.CanActivate(g, e) && h in f.top && !Improvable(g, f, h)
    requires ChunkRate(g, f, f.chunk[e.parent]) == ChunkRate(g, f, f.chunk[e.child])
    ensures !Improvable(g, f.Activated(e), h)
  {
    hide Cluster.GainOf, ChunkRate, Closed, Connected, IsTop;
    var f', ip, ic := f.Activated(e), f.chunk[e.parent], f.chunk[e.child];
    var p, c, r := f.Part(ip), f.Part(ic), ChunkRate(g, f, ic);
    ActivatedFresh(f, g, e);
    MergedValues(g, f, false, e);
    ChunkGainSign(g, f, ip, r);
    ChunkGainSign(g, f, ic, r);
    MergedChunk(g, f, e, h.parent);
    assert Value(g, f', false, f'.chunk[h.parent]) == Value(g, f, false, f.chunk[h.parent]);
    assert f.top[h] <= g.feerate.Keys;
    if h.parent in p && e.parent in f.top[h] {
      g.GainOfUnion(f.top[h], c, r);
    } else if h.parent in c && e.child in f.top[h] {
      g.GainOfUnion(f.top[h], p, r);
    }
  }

  /** Joining two chunks of equal feerate leaves nothing to improve. */
  lemma EqualMergeOptimal(g: Cluster, f: Forest, e: Dep)
    requires Fits(g, f) && f.Valid(g) && f.CanActivate(g, e) && NothingImprovable(g, f)
    requires ChunkRate(g, f, f.chunk[e.parent]) == ChunkRate(g, f, f.chunk[e.child])
    ensures NothingImprovable(g, f.Activated(e))
  {
    hide Cluster.GainOf, ChunkRate, Forest.Valid, Forest.Part;
    var f', ip, ic := f.Activated(e), f.chunk[e.parent], f.chunk[e.child];
    MergedValues(g, f, false, e);
    MergedChunk(g, f, e, e.parent);
    ChunkGainSign(g, f, ip, ChunkRate(g, f, ic));
    assert Value(g, f', false, ic) == Value(g, f, false, ic);
    forall h | h in f'.top
      ensures !Improvable(g, f', h)
    {
      if h != e {
        assert !Improvable(g, f, h);
        EqualMergeTop(g, f, e, h);
      }
    }
  }

  /** A self-merge at an equal-feerate dependency changes neither order nor optimality. */
  lemma EqualSelfMerge(g: Cluster, f: Forest, d: Dep, ip: nat, e: Dep)
    requires EqualTop(g, f, d) && f.CanDeactivate(d, ip) && e in g.deps
    requires e.child in f.Deactivated(d, ip).Part(ip) && e.parent in f.Deactivated(d, ip).Part(f.chunk[d.parent])
    requires NothingImprovable(g, f) && WeaklyTopological(g, f)
    ensures f.Deactivated(d, ip).CanActivate(g, e)
    ensures var f2 := f.Deactivated(d, ip).Activated(e);
            && Fits(g, f2) && f2.Valid(g) && NothingImprovable(g, f2) && WeaklyTopological(g, f2)
            && forall lam: real :: Diagram(g, f2, lam) == Diagram(g, f, lam)
  {
    hide Cluster.GainOf, ChunkRate, Forest.Valid, Forest.Part, Forest.Deactivated, Forest.Activated, NothingImprovable,
         WeaklyTopological, Diagram;
    SelfMergeParts(g, f, d, ip, e);
    EqualSplitRates(g, f, d, ip);
    EqualSplitOptimal(g, f, d, ip);
    EqualMergeOptimal(g, f.Deactivated(d, ip), e);
    SelfMergeWeak(g, f, d, ip, e);
    forall lam: real
      ensures Diagram(g, f.Deactivated(d, ip).Activated(e), lam) == Diagram(g, f, lam)
    {
      SelfMergeDiagram(g, f, d, ip, e, lam);
    }
  }

  lemma SelfMergeDiagram(g: Cluster, f: Forest, d: Dep, ip: nat, e: Dep, lam: real)
    requires Fits(g, f) && f.Valid(g) && f.CanDeactivate(d, ip) && e in g.deps
    requires e.child in f.Deactivated(d, ip).Part(ip) && e.parent in f.Deactivated(d, ip).Part(f.chunk[d.parent])
    ensures var f2 := f.Deactivated(d, ip).Activated(e); Fits(g, f2) && Diagram(g, f2, lam) == Diagram(g, f, lam)
  {
    hide Forest.Deactivated, Forest.Activated, Forest.Valid, Area, Total, Gains;
    var ic := f.chunk[d.parent];
    SelfMergeGains(g, f, d, ip, e, lam);
    var m := Gains(g, f, lam);
    AreaRemove(m, ic);
    AreaUpdate(m - {ic}, ip, m[ic]);
  }

  lemma SelfMergeWeak(g: Cluster, f: Forest, d: Dep, ip: nat, e: Dep)
    requires Fits(g, f) && f.Valid(g) && f.CanDeactivate(d, ip) && e in g.deps
    requires e.child in f.Deactivated(d, ip).Part(ip) && e.parent in f.Deactivated(d, ip).Part(f.chunk[d.parent])
    requires WeaklyTopological(g, f)
    ensures var f2 := f.Deactivated(d, ip).Activated(e); Fits(g, f2) && WeaklyTopological(g, f2)
  {
    hide Cluster.RateOf, Forest.Valid, Forest.Deactivated, Forest.Activated, Ready;
    SelfMergeParts(g, f, d, ip, e);
    var f2, ic := f.Deactivated(d, ip).Activated(e), f.chunk[d.parent];
    forall h | h in g.deps && Between(f2, h)
      ensures ChunkRate(g, f2, f2.chunk[h.child]) <= ChunkRate(g, f2, f2.chunk[h.parent])
    {
      assert Between(f, h);
    }
    forall q': set<nat> | q' <= f2.chunk.Values && q' != {}
      ensures exists i :: i in q' && Ready(g, f2, q', i)
    {
      var q := if ip in q' then q' - {ip} + {ic} else q';
      assert q <= f.chunk.Values && q != {};
      var i :| i in q && Ready(g, f, q, i);
      var i' := if i == ic then ip else i;
      RenamedReady(g, f, f2, ip, ic, q', q, i);
      assert i' in q' && Ready(g, f2, q', i');
    }
  }

  lemma RenamedReady(g: Cluster, f: Forest, f2: Forest, ip: nat, ic: nat, q': set<nat>, q: set<nat>, i: nat)
    requires f2.chunk.Keys == f.chunk.Keys && ip !in f.chunk.Values && ic !in q'
    requires forall t | t in f.chunk :: f2.chunk[t] == if f.chunk[t] == ic then ip else f.chunk[t]
    requires q == (if ip in q' then q' - {ip} + {ic} else q') && Ready(g, f, q, i) && i in q && i in f.chunk.Values
    ensures Ready(g, f2, q', if i == ic then ip else i)
  {
    forall d | d in g.deps && Between(f2, d) && f2.chunk[d.child] == (if i == ic then ip else i)
      ensures f2.chunk[d.parent] !in q'
    {
      assert Between(f, d);
    }
  }
}
