/** When no active dependency's top set beats its chunk, the forest's diagram is an upper bound
    for everything the cluster can achieve. */
module Optimality {
  import opened FeeFracs
  import opened Clusters
  import opened Forests
  import opened ForestShape
  import opened ChunkSplits
  import opened Diagrams
  import opened Merging
  import opened Improving

  /** No active dependency of chunk `i` is worth splitting. */
  ghost predicate ChunkOptimal(g: Cluster, f: Forest, i: nat) {
    forall d | d in f.top && d.parent in f.chunk && f.chunk[d.parent] == i :: !Improvable(g, f, d)
  }

  ghost predicate NothingImprovable(g: Cluster, f: Forest) {
    forall d | d in f.top :: !Improvable(g, f, d)
  }

  ghost function TopsOf(f: Forest, i: nat): map<Dep, set<nat>> {
    map d | d in f.top && d.parent in f.Part(i) :: f.top[d]
  }

  /** A chunk of the forest, taken by itself. */
  lemma ChunkAlone(g: Cluster, f: Forest, i: nat)
    requires f.Valid(g) && i in f.chunk.Values
    ensures Chunk(Inside(f.Active(), f.Part(i)), f.Part(i), TopsOf(f, i))
  {
    hide Connected, Closed, IsTop;
    var a := Inside(f.Active(), f.Part(i));
    PartClosed(f, i);
    ConnectedInside(f.Active(), f.Part(i));
    forall e | e in a
      ensures e.parent in f.Part(i) && e.child in f.Part(i)
      ensures e in TopsOf(f, i) && IsTop(a, e, TopsOf(f, i)[e]) && TopsOf(f, i)[e] <= f.Part(i)
    {
      TopInside(f.Active(), f.Part(i), e, f.top[e]);
    }
    assert TopsOf(f, i).Keys == a;
  }

  lemma ChunkNoBetterTop(g: Cluster, f: Forest, i: nat)
    requires Fits(g, f) && f.Valid(g) && i in f.chunk.Values && ChunkOptimal(g, f, i)
    ensures f.Part(i) != {} && NoBetterTop(g, f.Part(i), TopsOf(f, i))
  {
    hide Forest.Valid, Cluster.GainOf, Cluster.RateOf;
    PartNonEmpty(f, i);
    forall e | e in TopsOf(f, i) && TopsOf(f, i)[e] <= g.feerate.Keys
      ensures g.GainOf(TopsOf(f, i)[e], g.RateOf(f.Part(i))) <= 0.0
    {
      assert !Improvable(g, f, e);
    }
  }

  /** What lowering the threshold by `k` adds to the gain of `f`. */
  ghost function Shift(f: FeeFrac, k: real): real {
    k * f.size as real
  }

  lemma GainShift(f: FeeFrac, lam: real, r: real)
    ensures Gain(f, lam) == Gain(f, r) + Shift(f, r - lam)
  {
  }

  lemma ScaleLe(k: real, a: real, b: real)
    requires k >= 0.0 && a <= b
    ensures k * a <= k * b
  {
  }

  lemma ShiftBound(f: FeeFrac, h: FeeFrac, k: real)
    requires 0 <= f.size <= h.size
    ensures if k >= 0.0 then Shift(f, k) <= Shift(h, k) else Shift(f, k) <= 0.0
  {
    if k >= 0.0 {
      ScaleLe(k, f.size as real, h.size as real);
    } else {
      ScaleLe(-k, 0.0, f.size as real);
    }
  }

  lemma {:induction false} SizeMonotone(g: Cluster, s: set<nat>, c: set<nat>)
    requires g.Valid() && s <= c <= g.txns
    ensures 0 <= g.FeeOf(s).size <= g.FeeOf(c).size
  {
    hide Cluster.FeeOf;
    g.FeeOfEmpty();
    g.FeeOfUnion(s, c - s);
    assert s + (c - s) == c;
    if s != {} { g.SizePositive(s); }
    if c - s != {} { g.SizePositive(c - s); }
  }

  /** If a part does no better than its chunk at the chunk's feerate, then at no threshold does it
      pay more than the chunk, or than nothing. */
  lemma PartBelowChunk(g: Cluster, c: set<nat>, s: set<nat>, lam: real)
    requires g.Valid() && s <= c <= g.txns && c != {} && g.GainOf(s, g.RateOf(c)) <= 0.0
    ensures g.GainOf(s, lam) <= Pos(g.GainOf(c, lam))
  {
    hide Cluster.FeeOf, Cluster.RateOf, Gain, Shift;
    var r := g.RateOf(c);
    ChunkSplits.ChunkGain(g, c);
    SizeMonotone(g, s, c);
    GainShift(g.FeeOf(s), lam, r);
    GainShift(g.FeeOf(c), lam, r);
    ShiftBound(g.FeeOf(s), g.FeeOf(c), r - lam);
  }

  /** Within one chunk, an ancestor-closed set pays at most what the chunk pays. */
  lemma ChunkBound(g: Cluster, f: Forest, i: nat, s: set<nat>, lam: real)
    requires Fits(g, f) && f.Valid(g) && i in f.chunk.Values && ChunkOptimal(g, f, i) && g.AncestorClosed(s)
    ensures g.GainOf(s * f.Part(i), lam) <= Pos(Diagrams.ChunkGain(g, f, i, lam))
  {
    hide Forest.Valid, Cluster.GainOf, Cluster.RateOf, Chunk, NoBetterTop, ChunkOptimal;
    var c, a := f.Part(i), Inside(f.Active(), f.Part(i));
    ChunkAlone(g, f, i);
    ChunkNoBetterTop(g, f, i);
    ClosedInside(g, f, i, s);
    NoBetterPart(g, a, c, TopsOf(f, i), s * c);
    PartBelowChunk(g, c, s * c, lam);
  }

  lemma ClosedInside(g: Cluster, f: Forest, i: nat, s: set<nat>)
    requires f.Valid(g) && g.AncestorClosed(s)
    ensures UpClosed(Inside(f.Active(), f.Part(i)), s * f.Part(i))
  {
    hide Connected, Closed, IsTop;
  }

  lemma {:induction false} ClosedSetBoundOn(g: Cluster, f: Forest, m: map<nat, real>, s: set<nat>, lam: real)
    requires Fits(g, f) && f.Valid(g) && NothingImprovable(g, f) && g.AncestorClosed(s)
    requires m.Keys <= f.chunk.Values && forall i | i in m :: m[i] == Diagrams.ChunkGain(g, f, i, lam)
    ensures g.GainOf(s * Covered(f, m.Keys), lam) <= Area(m)
    decreases |m|
  {
    hide Forest.Valid, Cluster.GainOf, Area, Total, Diagrams.ChunkGain, Improvable;
    if m.Keys == {} {
      assert s * Covered(f, m.Keys) == {};
      AreaEmpty(m);
      g.GainOfEmpty(lam);
    } else {
      var k := Pick(m.Keys);
      SmallerMap(m, k);
      ClosedSetBoundOn(g, f, m - {k}, s, lam);
      AreaRemove(m, k);
      ChunkBound(g, f, k, s, lam);
      var rest := s * Covered(f, (m - {k}).Keys);
      assert s * Covered(f, m.Keys) == s * f.Part(k) + rest;
      g.GainOfUnion(s * f.Part(k), rest, lam);
    }
  }

  /** No ancestor-closed set of transactions pays more above any threshold than the forest's
      chunks do. */
  lemma ClosedSetBound(g: Cluster, f: Forest, s: set<nat>, lam: real)
    requires Fits(g, f) && f.Valid(g) && NothingImprovable(g, f) && g.AncestorClosed(s)
    ensures g.GainOf(s, lam) <= Diagram(g, f, lam)
  {
    hide Forest.Valid, Cluster.GainOf, Area, Diagrams.ChunkGain, NothingImprovable;
    var m := Gains(g, f, lam);
    ClosedSetBoundOn(g, f, m, s, lam);
    assert s * Covered(f, m.Keys) == s;
  }

  // ---- Chunks left alone stay optimal

  /** Only chunks in `q` may have something to improve. */
  ghost predicate OptimalExcept(g: Cluster, f: Forest, q: set<nat>) {
    forall i | i in f.chunk.Values && i !in q :: ChunkOptimal(g, f, i)
  }

  lemma AllOptimal(g: Cluster, f: Forest, q: set<nat>)
    requires Fits(g, f) && f.Valid(g) && OptimalExcept(g, f, q) && q !! f.chunk.Values
    ensures NothingImprovable(g, f)
  {
    hide Improvable, Closed, Connected, IsTop;
    forall d | d in f.top ensures !Improvable(g, f, d) {
      assert ChunkOptimal(g, f, f.chunk[d.parent]);
    }
  }

  lemma NothingIsOptimal(g: Cluster, f: Forest, q: set<nat>)
    requires NothingImprovable(g, f)
    ensures OptimalExcept(g, f, q)
  {
    hide Improvable;
  }

  lemma FewerOptimal(g: Cluster, f: Forest, q: set<nat>, q': set<nat>, k: nat)
    requires OptimalExcept(g, f, q) && q * f.chunk.Values <= q' + {k}
    ensures OptimalExcept(g, f, q' + {k})
    ensures ChunkOptimal(g, f, k) ==> OptimalExcept(g, f, q')
  {
    hide ChunkOptimal;
  }

  lemma MergedElsewhere(g: Cluster, f: Forest, d: Dep, e: Dep)
    requires Fits(g, f) && f.Valid(g) && f.CanActivate(g, d) && e in f.Activated(d).top
             && e.parent in f.Activated(d).chunk
    requires f.Activated(d).chunk[e.parent] != f.chunk[d.child] && Improvable(g, f.Activated(d), e)
    ensures e in f.top && e.parent in f.chunk && f.chunk[e.parent] == f.Activated(d).chunk[e.parent]
            && Improvable(g, f, e)
  {
    hide Cluster.GainOf, ChunkRate, Closed, Connected, IsTop;
    MergedValues(g, f, false, d);
    MergedChunk(g, f, d, e.parent);
    MergedChunk(g, f, d, d.parent);
    var i := f.Activated(d).chunk[e.parent];
    assert Value(g, f.Activated(d), false, i) == Value(g, f, false, i);
  }

  lemma ActivatedOptimal(g: Cluster, f: Forest, d: Dep, q: set<nat>)
    requires Fits(g, f) && f.Valid(g) && f.CanActivate(g, d)
    requires OptimalExcept(g, f, q + {f.chunk[d.parent], f.chunk[d.child]})
    ensures OptimalExcept(g, f.Activated(d), q + {f.chunk[d.child]})
  {
    hide Improvable, Forest.Valid, Value, Forest.Activated;
    var f' := f.Activated(d);
    MergedValues(g, f, false, d);
    forall i | i in f'.chunk.Values && i !in q + {f.chunk[d.child]}
      ensures ChunkOptimal(g, f', i)
    {
      assert ChunkOptimal(g, f, i);
      forall e | e in f'.top && e.parent in f'.chunk && f'.chunk[e.parent] == i
        ensures !Improvable(g, f', e)
      {
        if Improvable(g, f', e) {
          MergedElsewhere(g, f, d, e);
        }
      }
    }
  }

  lemma StepOptimal(g: Cluster, down: bool, from: Spot, to: Spot, d: Dep, q: set<nat>)
    requires GreedyStep(g, down, from, to, d) && OptimalExcept(g, from.f, q + {from.k})
    ensures OptimalExcept(g, to.f, q + {to.k})
  {
    hide ChunkOptimal, Forest.Valid, Value, Forest.Activated;
    GreedyStepOk(g, down, from, to, d);
    ActivatedOptimal(g, from.f, d, q);
  }

  lemma {:induction false} RunOptimal(g: Cluster, down: bool, run: seq<Spot>, n: nat, q: set<nat>)
    requires GreedyRun(g, down, run) && n < |run| && OptimalExcept(g, run[0].f, q + {run[0].k})
    ensures OptimalExcept(g, run[n].f, q + {run[n].k})
    decreases n
  {
    hide OptimalExcept;
    if n > 0 {
      RunOptimal(g, down, run, n - 1, q);
      assert Stepped(g, down, run[n - 1], run[n - 1 + 1]);
      var d :| GreedyStep(g, down, run[n - 1], run[n], d);
      StepOptimal(g, down, run[n - 1], run[n], d, q);
    }
  }

  lemma SplitElsewhere(g: Cluster, f: Forest, d: Dep, ip: nat, e: Dep)
    requires Fits(g, f) && f.Valid(g) && f.CanDeactivate(d, ip) && e in f.Deactivated(d, ip).top
    requires Improvable(g, f.Deactivated(d, ip), e) && e.parent in f.chunk
    requires var i := f.Deactivated(d, ip).chunk[e.parent]; i != ip && i != f.chunk[d.parent]
    ensures e in f.top && f.chunk[e.parent] == f.Deactivated(d, ip).chunk[e.parent] && Improvable(g, f, e)
  {
    hide Cluster.GainOf, Cluster.RateOf, Closed, Connected, IsTop;
    DeactivatedParts(f, g, d, ip);
    SplitChunk(g, f, d, ip, e.parent);
    DeactivatedTopOf(f, g, d, e);
  }

  lemma SplitOptimal(g: Cluster, f: Forest, d: Dep, ip: nat, q: set<nat>)
    requires Fits(g, f) && f.Valid(g) && f.CanDeactivate(d, ip) && OptimalExcept(g, f, q + {f.chunk[d.parent]})
    ensures OptimalExcept(g, f.Deactivated(d, ip), q + {ip, f.chunk[d.parent]})
  {
    hide Improvable, Forest.Valid;
    var f' := f.Deactivated(d, ip);
    DeactivatedParts(f, g, d, ip);
    hide Forest.Deactivated;
    forall i | i in f'.chunk.Values && i !in q + {ip, f.chunk[d.parent]}
      ensures ChunkOptimal(g, f', i)
    {
      assert ChunkOptimal(g, f, i);
      forall e | e in f'.top && e.parent in f'.chunk && f'.chunk[e.parent] == i
        ensures !Improvable(g, f', e)
      {
        if Improvable(g, f', e) {
          SplitElsewhere(g, f, d, ip, e);
        }
      }
    }
  }

  // ---- One improvement

  lemma LowStays(g: Cluster, f: Forest, d: Dep, ip: nat, up: seq<Spot>)
    requires Improvable(g, f, d) && f.CanDeactivate(d, ip) && Topological(g, f)
    requires !TopNeedsBottom(g, f.Deactivated(d, ip), ip, f.chunk[d.parent])
    requires GreedyRun(g, false, up) && up[0] == Spot(f.Deactivated(d, ip), ip)
    ensures f.chunk[d.parent] in up[|up| - 1].f.chunk.Values
  {
    hide ChunkRate, Forest.Valid, Forest.Deactivated, TopNeedsBottom, Topological, Keeps, LowArea, HighSide, Stepped;
    SplitUpPhase(g, f, d, ip);
    var rho := UpPhaseRun(g, up, |up| - 1, f.chunk[d.parent], ChunkRate(g, f, f.chunk[d.parent]), DiagramOf(g, f),
                          DeficitOf(g, f));
  }

  /** After an improvement, only the two resulting chunks need another look. */
  lemma ImproveQueue(g: Cluster, f: Forest, d: Dep, ip: nat, up: seq<Spot>, down: seq<Spot>, q: set<nat>)
    requires Fits(g, f) && f.Valid(g) && f.CanDeactivate(d, ip) && OptimalExcept(g, f, q + {f.chunk[d.parent]})
    requires GreedyRun(g, false, up) && up[0] == Spot(f.Deactivated(d, ip), ip)
    requires GreedyRun(g, true, down) && down[0] == Spot(up[|up| - 1].f, f.chunk[d.parent])
    ensures OptimalExcept(g, down[|down| - 1].f, q + {up[|up| - 1].k} + {down[|down| - 1].k})
  {
    hide ChunkOptimal, Forest.Valid, Forest.Deactivated, Stepped, OptimalExcept;
    var l := f.chunk[d.parent];
    SplitOptimal(g, f, d, ip, q);
    assert q + {ip, l} == q + {l} + {ip};
    RunOptimal(g, false, up, |up| - 1, q + {l});
    assert q + {l} + {up[|up| - 1].k} == q + {up[|up| - 1].k} + {l};
    RunOptimal(g, true, down, |down| - 1, q + {up[|up| - 1].k});
  }

  lemma SelfMergeQueue(g: Cluster, f: Forest, d: Dep, ip: nat, e: Dep, q: set<nat>)
    requires Fits(g, f) && f.Valid(g) && f.CanDeactivate(d, ip) && OptimalExcept(g, f, q + {f.chunk[d.parent]})
             && e in g.deps
    requires e.child in f.Deactivated(d, ip).Part(ip) && e.parent in f.Deactivated(d, ip).Part(f.chunk[d.parent])
    ensures f.Deactivated(d, ip).CanActivate(g, e)
    ensures OptimalExcept(g, f.Deactivated(d, ip).Activated(e), q + {ip})
  {
    hide ChunkOptimal, Forest.Valid, Forest.Deactivated, Forest.Activated, OptimalExcept, Forest.Part;
    SelfMergeParts(g, f, d, ip, e);
    SplitOptimal(g, f, d, ip, q);
    assert q + {ip, f.chunk[d.parent]} == q + {f.chunk[d.parent], ip};
    DeactivatedFits(g, f, d, ip);
    ActivatedOptimal(g, f.Deactivated(d, ip), e, q);
  }

  lemma DeactivatedFits(g: Cluster, f: Forest, d: Dep, ip: nat)
    requires Fits(g, f) && f.Valid(g) && f.CanDeactivate(d, ip)
    ensures Fits(g, f.Deactivated(d, ip))
  {
  }
}
