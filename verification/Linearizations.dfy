/** Linearizations, their quality, and loading one into a forest. */
module Linearizations {
  import opened FeeFracs
  import opened Clusters
  import opened Forests
  import opened Diagrams
  import opened Merging
  import opened Improving

  ghost function Elems(l: seq<nat>): set<nat> {
    set t | t in l
  }

  ghost predicate Distinct(l: seq<nat>) {
    forall i, j | 0 <= i < j < |l| :: l[i] != l[j]
  }

  lemma AppendElems(l: seq<nat>, t: nat)
    ensures Elems(l + [t]) == Elems(l) + {t}
    ensures Distinct(l) && t !in Elems(l) ==> Distinct(l + [t])
  {
  }

  lemma PopFront(l: seq<nat>)
    requires Distinct(l) && l != []
    ensures Distinct(l[1..]) && Elems(l[1..]) == Elems(l) - {l[0]}
  {
    assert l == [l[0]] + l[1..];
  }

  lemma SwapElems(l: seq<nat>, i: nat, j: nat)
    requires i < |l| && j < |l| && Distinct(l)
    ensures var l' := l[i := l[j]][j := l[i]]; Distinct(l') && Elems(l') == Elems(l)
  {
    var l' := l[i := l[j]][j := l[i]];
    assert forall k | 0 <= k < |l| :: l[k] == l'[if k == i then j else if k == j then i else k];
  }

  /** No transaction comes before one it depends on. */
  ghost predicate ParentsFirst(g: Cluster, l: seq<nat>) {
    forall i, j | 0 <= i < j < |l| :: Dep(l[j], l[i]) !in g.deps
  }

  /** Every transaction once, parents before children. */
  ghost predicate IsLinearization(g: Cluster, l: seq<nat>) {
    Distinct(l) && Elems(l) == g.txns && ParentsFirst(g, l)
  }

  /** The most any prefix of the linearization pays above the threshold `lam`. */
  ghost function Peak(g: Cluster, l: seq<nat>, lam: real): real
    requires Elems(l) <= g.feerate.Keys
  {
    if l == [] then 0.0 else
      var before := Peak(g, l[..|l| - 1], lam);
      var all := g.GainOf(Elems(l), lam);
      if all > before then all else before
  }

  lemma {:induction false} PeakAtLeast(g: Cluster, l: seq<nat>, k: nat, lam: real)
    requires Elems(l) <= g.feerate.Keys && k <= |l|
    ensures g.GainOf(Elems(l[..k]), lam) <= Peak(g, l, lam)
    ensures Peak(g, l, lam) >= 0.0
  {
    hide Cluster.GainOf;
    if l == [] {
      assert Elems(l[..k]) == {};
      g.GainOfEmpty(lam);
    } else if k == |l| {
      assert l[..k] == l;
      PeakAtLeast(g, l[..|l| - 1], 0, lam);
    } else {
      assert l[..|l| - 1][..k] == l[..k];
      PeakAtLeast(g, l[..|l| - 1], k, lam);
    }
  }

  /** The peak is the least such bound. */
  lemma {:induction false} PeakAtMost(g: Cluster, l: seq<nat>, lam: real, bound: real)
    requires Elems(l) <= g.feerate.Keys && bound >= 0.0
    requires forall k | 0 <= k <= |l| :: g.GainOf(Elems(l[..k]), lam) <= bound
    ensures Peak(g, l, lam) <= bound
  {
    hide Cluster.GainOf;
    if l != [] {
      var l' := l[..|l| - 1];
      assert l[..|l|] == l;
      forall k | 0 <= k <= |l'| ensures g.GainOf(Elems(l'[..k]), lam) <= bound {
        assert l'[..k] == l[..k];
      }
      PeakAtMost(g, l', lam, bound);
    }
  }

  /** `l` is at least as good as every linearization of the cluster. */
  ghost predicate Optimal(g: Cluster, l: seq<nat>)
    requires Elems(l) <= g.feerate.Keys
  {
    forall other: seq<nat>, lam: real :: IsLinearization(g, other) && Elems(other) <= g.feerate.Keys ==>
      Peak(g, other, lam) <= Peak(g, l, lam)
  }

  /** A prefix of a linearization includes the parents of its members. */
  lemma PrefixClosed(g: Cluster, l: seq<nat>, k: nat)
    requires IsLinearization(g, l) && k <= |l| && g.Valid()
    ensures g.AncestorClosed(Elems(l[..k]))
  {
    forall d | d in g.deps && d.child in Elems(l[..k])
      ensures d.parent in Elems(l[..k])
    {
      assert d.parent in Elems(l);
      var j :| 0 <= j < |l| && l[j] == d.parent;
      var i :| 0 <= i < k && l[..k][i] == d.child;
      assert Dep(l[j], l[i]) == d;
      assert l[..k][j] == d.parent;
    }
    assert forall t | t in l[..k] :: t in l;
  }

  // ---- Loading

  /** What the transactions of `u` pay above `lam`, each on its own. */
  ghost function Singly(g: Cluster, u: set<nat>, lam: real): real
    requires u <= g.feerate.Keys
  {
    if u == {} then 0.0 else
      Pos(g.GainOf({Pick(u)}, lam)) + Singly(g, u - {Pick(u)}, lam)
  }

  lemma {:induction false} SinglyRemove(g: Cluster, u: set<nat>, t: nat, lam: real)
    requires u <= g.feerate.Keys && t in u
    ensures Singly(g, u, lam) == Pos(g.GainOf({t}, lam)) + Singly(g, u - {t}, lam)
    decreases |u|
  {
    hide Cluster.GainOf;
    var p := Pick(u);
    if p != t {
      assert u - {p} - {t} == u - {t} - {p};
      SinglyRemove(g, u - {p}, t, lam);
      SinglyRemove(g, u - {t}, p, lam);
    }
  }

  /** Transactions outside `done` are still in chunks of their own. */
  ghost predicate Singletons(f: Forest, done: set<nat>) {
    forall t | t in f.chunk && t !in done :: f.Part(f.chunk[t]) == {t}
  }

  ghost predicate UnionOfChunks(f: Forest, done: set<nat>) {
    forall t, u | t in done && t in f.chunk && u in f.chunk && f.chunk[u] == f.chunk[t] :: u in done
  }

  lemma {:induction false} SinglyIsArea(g: Cluster, f: Forest, u: set<nat>, m: map<nat, real>, lam: real)
    requires Fits(g, f) && u <= f.chunk.Keys && (forall t | t in u :: f.Part(f.chunk[t]) == {t})
    requires m.Keys == (set t | t in u :: f.chunk[t])
    requires forall i | i in m :: m[i] == ChunkGain(g, f, i, lam)
    ensures Area(m) == Singly(g, u, lam)
    decreases |u|
  {
    hide Area, Total, Cluster.GainOf;
    if u == {} {
      AreaEmpty(m);
    } else {
      var t := Pick(u);
      var k := f.chunk[t];
      assert k in m;
      forall s | s in u - {t} ensures f.chunk[s] != k {
        assert s in f.Part(f.chunk[s]);
      }
      assert (m - {k}).Keys == set s | s in u - {t} :: f.chunk[s];
      SinglyIsArea(g, f, u - {t}, m - {k}, lam);
      AreaRemove(m, k);
    }
  }

  lemma {:induction false} AreaSplitAt(m: map<nat, real>, keep: set<nat>)
    requires keep <= m.Keys
    ensures Area(m) >= Total(m - keep) + Area(map i | i in keep :: m[i])
    decreases |m|
  {
    hide Area, Total;
    var n := map i | i in keep :: m[i];
    if keep == {} {
      assert m - keep == m;
      AreaEmpty(n);
      AreaAtLeastTotal(m);
    } else {
      var k := Pick(keep);
      SmallerMap(m, k);
      AreaSplitAt(m - {k}, keep - {k});
      AreaRemove(m, k);
      AreaRemove(n, k);
      assert n - {k} == map i | i in keep - {k} :: (m - {k})[i];
      assert m - keep == m - {k} - (keep - {k});
    }
  }

  /** The chunks pay at least what `done` pays together and the rest pays singly. */
  lemma DiagramAtLeast(g: Cluster, f: Forest, done: set<nat>, lam: real)
    requires Fits(g, f) && done <= g.txns && UnionOfChunks(f, done) && Singletons(f, done)
    ensures Diagram(g, f, lam) >= g.GainOf(done, lam) + Singly(g, g.txns - done, lam)
  {
    hide Area, Total, Cluster.GainOf, Singly, ChunkGain;
    var u, m := g.txns - done, Gains(g, f, lam);
    var keep := set t | t in u :: f.chunk[t];
    AreaSplitAt(m, keep);
    SinglyIsArea(g, f, u, map i | i in keep :: m[i], lam);
    TotalIsGain(g, f, m - keep, lam);
    forall t | t in g.txns
      ensures t in Covered(f, (m - keep).Keys) <==> t in done
    {
      assert t in done ==> f.chunk[t] !in keep;
    }
    assert Covered(f, (m - keep).Keys) == done;
  }

  /** `f'` has the same chunks as `f` outside `scope`. */
  ghost predicate Untouched(f: Forest, f': Forest, scope: set<nat>) {
    && f'.chunk.Keys == f.chunk.Keys
    && forall t | t in f.chunk && t !in scope :: f'.Part(f'.chunk[t]) == f.Part(f.chunk[t])
  }

  lemma StepUntouched(g: Cluster, from: Spot, to: Spot, scope: set<nat>, down: bool, d: Dep)
    requires GreedyStep(g, down, from, to, d) && Covers(g, from, scope, down) && Covers(g, to, scope, down)
    ensures Untouched(from.f, to.f, scope)
  {
    hide Candidate, Forest.Valid;
    GreedyStepOk(g, down, from, to, d);
    ActivatedFresh(from.f, g, d);
    assert Near(down, d) in scope by {
      assert Near(down, d) in from.f.Part(from.k);
    }
    forall t | t in from.f.chunk && t !in scope
      ensures to.f.Part(to.f.chunk[t]) == from.f.Part(from.f.chunk[t])
    {
      MergedChunk(g, from.f, d, t);
    }
  }

  lemma {:induction false} RunUntouched(g: Cluster, run: seq<Spot>, n: nat, scope: set<nat>, down: bool, rho: real,
                                        base: real -> real)
    requires GreedyRun(g, down, run) && n < |run| && Keeps(g, run[0], scope, down, rho, {}, base)
             && Covers(g, run[0], scope, down)
    ensures Untouched(run[0].f, run[n].f, scope)
    decreases n
  {
    hide Keeps, Covers, Forest.Part;
    if n > 0 {
      RunUntouched(g, run, n - 1, scope, down, rho, base);
      var rho1 := RunKeeps(g, run, n - 1, scope, down, rho, {}, base);
      var rho2 := RunKeeps(g, run, n, scope, down, rho, {}, base);
      assert Stepped(g, down, run[n - 1], run[n - 1 + 1]);
      var d :| GreedyStep(g, down, run[n - 1], run[n], d);
      StepUntouched(g, run[n - 1], run[n], scope, down, d);
    }
  }

  lemma {:induction false} LowestRate(g: Cluster, f: Forest, chunks: set<nat>) returns (rho: real)
    requires Fits(g, f) && chunks <= f.chunk.Values
    ensures forall i | i in chunks :: ChunkRate(g, f, i) >= rho
    decreases |chunks|
  {
    hide ChunkRate;
    rho := 0.0;
    if chunks != {} {
      var i := Pick(chunks);
      rho := LowestRate(g, f, chunks - {i});
      if ChunkRate(g, f, i) < rho {
        rho := ChunkRate(g, f, i);
      }
    }
  }

  /** After loading the first `i` transactions of `l`: these are in chunks ordered by feerate,
      which pay at least as much as any prefix so far; all others are untouched. */
  ghost predicate Loaded(g: Cluster, f: Forest, l: seq<nat>, i: nat)
    requires i <= |l|
  {
    && Fits(g, f) && f.Valid(g) && Elems(l[..i]) <= g.txns
    && UnionOfChunks(f, Elems(l[..i])) && Singletons(f, Elems(l[..i]))
    && (forall d | d in g.deps && Between(f, d) && d.parent in Elems(l[..i]) && d.child in Elems(l[..i]) ::
        InOrder(g, f, d))
    && (forall lam: real :: Diagram(g, f, lam) >= LoadBase(g, l, i, lam))
  }

  ghost function LoadBase(g: Cluster, l: seq<nat>, i: nat, lam: real): real
    requires i <= |l| && Elems(l[..i]) <= g.txns && g.Valid()
  {
    Peak(g, l[..i], lam) + Singly(g, g.txns - Elems(l[..i]), lam)
  }

  lemma PrefixStep(l: seq<nat>, i: nat)
    requires i < |l| && Distinct(l)
    ensures Elems(l[..i + 1]) == Elems(l[..i]) + {l[i]} && l[i] !in Elems(l[..i])
    ensures l[..i + 1][..i] == l[..i]
  {
    assert l[..i + 1] == l[..i] + [l[i]];
  }

  lemma PeakStep(g: Cluster, l: seq<nat>, i: nat, lam: real)
    requires i < |l| && Distinct(l) && Elems(l[..i + 1]) <= g.feerate.Keys
    ensures Elems(l[..i]) <= Elems(l[..i + 1])
    ensures var before, all := Peak(g, l[..i], lam), g.GainOf(Elems(l[..i + 1]), lam);
            Peak(g, l[..i + 1], lam) == if all > before then all else before
  {
    hide Cluster.GainOf;
    PrefixStep(l, i);
  }

  /** What the other chunks pay if the next transaction's chunk is set aside. */
  ghost function NextBase(g: Cluster, l: seq<nat>, i: nat): real -> real
    requires i < |l|
  {
    lam => if Elems(l[..i + 1]) <= g.txns && Elems(l[..i]) <= g.txns && g.Valid()
           then Peak(g, l[..i], lam) + Singly(g, g.txns - Elems(l[..i + 1]), lam) else 0.0
  }

  lemma LoadArea(g: Cluster, f: Forest, l: seq<nat>, i: nat, rho: real)
    requires i < |l| && Loaded(g, f, l, i) && Distinct(l) && l[i] in f.chunk && Elems(l[..i + 1]) <= g.txns
    ensures f.chunk[l[i]] in f.chunk.Values
    ensures AreaReady(g, f, false, f.chunk[l[i]], rho, NextBase(g, l, i))
  {
    hide Cluster.GainOf, Area, Peak, Singly, Forest.Valid, InOrder;
    PrefixStep(l, i);
    var k, u := f.chunk[l[i]], g.txns - Elems(l[..i]);
    assert f.Part(k) == {l[i]};
    forall lam: real
      ensures SignedArea(g, f, false, lam) >= NextBase(g, l, i)(lam)
      ensures k in Weights(g, f, false, lam) ==>
                SignedArea(g, f, false, lam) - Pos(Weights(g, f, false, lam)[k]) >= NextBase(g, l, i)(lam)
    {
      SinglyRemove(g, u, l[i], lam);
      assert u - {l[i]} == g.txns - Elems(l[..i + 1]);
      assert Diagram(g, f, lam) >= LoadBase(g, l, i, lam);
    }
  }

  lemma LoadReady(g: Cluster, f: Forest, l: seq<nat>, i: nat, rho: real)
    requires i < |l| && Loaded(g, f, l, i) && IsLinearization(g, l)
    requires l[i] in f.chunk && forall j | j in f.chunk.Values :: ChunkRate(g, f, j) >= rho
    ensures f.chunk[l[i]] in f.chunk.Values
    ensures MergeReady(g, f, Elems(l[..i + 1]), false, f.chunk[l[i]], rho, {})
    ensures Covers(g, Spot(f, f.chunk[l[i]]), Elems(l[..i + 1]), false)
  {
    hide ChunkRate, Cluster.GainOf, Diagram, LoadBase, Forest.Valid;
    PrefixStep(l, i);
    PrefixClosed(g, l, i);
    PrefixClosed(g, l, i + 1);
    var t, done := l[i], Elems(l[..i]);
    assert f.Part(f.chunk[t]) == {t};
    forall d | d in g.deps && d.parent in done + {t} && d.child in done + {t} && Between(f, d)
      ensures f.chunk[d.child] != f.chunk[t] ==> InOrder(g, f, d)
      ensures f.chunk[d.parent] != f.chunk[t]
    {
      assert d.child in done ==> d.parent in done;
      assert d.parent in f.Part(f.chunk[t]) <==> f.chunk[d.parent] == f.chunk[t];
      assert d.child in f.Part(f.chunk[t]) <==> f.chunk[d.child] == f.chunk[t];
    }
  }

  lemma ScopedDone(g: Cluster, s: Spot, scope: set<nat>, rho: real)
    requires SpotOk(g, s) && MergeReady(g, s.f, scope, false, s.k, rho, {}) && NoCandidate(g, s, false)
    ensures forall d | d in g.deps && Between(s.f, d) && d.parent in scope && d.child in scope :: InOrder(g, s.f, d)
  {
    hide ChunkRate, Forest.Valid;
    forall d | d in g.deps && Between(s.f, d) && d.parent in scope && d.child in scope
      ensures InOrder(g, s.f, d)
    {
      if s.f.chunk[d.child] == s.k {
        assert Leaves(s.f, g.txns, false, s.k, d);
      }
    }
  }

  lemma LoadedDiagram(g: Cluster, f: Forest, l: seq<nat>, i: nat, lam: real)
    requires i < |l| && Distinct(l) && Elems(l[..i]) <= Elems(l[..i + 1]) <= g.txns && Fits(g, f)
    requires UnionOfChunks(f, Elems(l[..i + 1])) && Singletons(f, Elems(l[..i + 1]))
    requires Diagram(g, f, lam) >= NextBase(g, l, i)(lam)
    ensures Diagram(g, f, lam) >= LoadBase(g, l, i + 1, lam)
  {
    hide Cluster.GainOf, Peak, Singly, Diagram, UnionOfChunks, Singletons;
    PeakStep(g, l, i, lam);
    DiagramAtLeast(g, f, Elems(l[..i + 1]), lam);
  }

  lemma LoadKeeps(g: Cluster, f: Forest, l: seq<nat>, i: nat) returns (rho: real)
    requires i < |l| && Loaded(g, f, l, i) && IsLinearization(g, l) && l[i] in f.chunk
    ensures Keeps(g, Spot(f, f.chunk[l[i]]), Elems(l[..i + 1]), false, rho, {}, NextBase(g, l, i))
    ensures Covers(g, Spot(f, f.chunk[l[i]]), Elems(l[..i + 1]), false)
  {
    hide ChunkRate, Cluster.GainOf, Diagram, LoadBase, Forest.Valid, NextBase, InOrder, MergeReady, Covers,
         UnionOfChunks, Singletons, AreaReady;
    PrefixClosed(g, l, i + 1);
    rho := LowestRate(g, f, f.chunk.Values);
    LoadReady(g, f, l, i, rho);
    LoadArea(g, f, l, i, rho);
  }

  lemma KeptDiagram(g: Cluster, s: Spot, scope: set<nat>, rho: real, base: real -> real, lam: real)
    requires Keeps(g, s, scope, false, rho, {}, base)
    ensures Diagram(g, s.f, lam) >= base(lam)
  {
    hide Area, Gains, MergeReady, LooseBelow, Forest.Valid;
    assert SignedArea(g, s.f, false, lam) >= base(lam);
  }

  /** Merging the next transaction's chunk upward as far as possible loads it. */
  lemma LoadStep(g: Cluster, f: Forest, l: seq<nat>, i: nat, run: seq<Spot>)
    requires i < |l| && Loaded(g, f, l, i) && IsLinearization(g, l) && l[i] in f.chunk
    requires GreedyRun(g, false, run) && run[0] == Spot(f, f.chunk[l[i]])
    requires SpotOk(g, run[|run| - 1]) && NoCandidate(g, run[|run| - 1], false)
    ensures Loaded(g, run[|run| - 1].f, l, i + 1)
  {
    var s, scope, base := run[|run| - 1], Elems(l[..i + 1]), NextBase(g, l, i);
    var rho := LoadKeeps(g, f, l, i);
    RunUntouched(g, run, |run| - 1, scope, false, rho, base);
    var rho' := RunKeeps(g, run, |run| - 1, scope, false, rho, {}, base);
    PrefixClosed(g, l, i + 1);
    PrefixStep(l, i);
    LoadFinish(g, f, s, l, i, rho');
  }

  lemma LoadFinish(g: Cluster, f: Forest, s: Spot, l: seq<nat>, i: nat, rho: real)
    requires i < |l| && Distinct(l) && Singletons(f, Elems(l[..i])) && Untouched(f, s.f, Elems(l[..i + 1]))
    requires Keeps(g, s, Elems(l[..i + 1]), false, rho, {}, NextBase(g, l, i)) && Covers(g, s, Elems(l[..i + 1]), false)
    requires NoCandidate(g, s, false)
    ensures Loaded(g, s.f, l, i + 1)
  {
    hide ChunkRate, Diagram, LoadBase, NextBase, InOrder, MergeReady, NoCandidate, UnionOfChunks, Singletons, Untouched,
         LooseBelow, AreaReady;
    var scope := Elems(l[..i + 1]);
    PrefixStep(l, i);
    ScopedDone(g, s, scope, rho);
    LoadShape(g, f, s, Elems(l[..i]), l[i], scope);
    forall lam: real
      ensures Diagram(g, s.f, lam) >= LoadBase(g, l, i + 1, lam)
    {
      KeptDiagram(g, s, scope, rho, NextBase(g, l, i), lam);
      LoadedDiagram(g, s.f, l, i, lam);
    }
  }

  lemma LoadShape(g: Cluster, f: Forest, s: Spot, done: set<nat>, t: nat, scope: set<nat>)
    requires Singletons(f, done) && scope == done + {t} && Untouched(f, s.f, scope) && Covers(g, s, scope, false)
    ensures UnionOfChunks(s.f, scope) && Singletons(s.f, scope)
  {
  }

  /** A forest of singletons. */
  lemma LoadStart(g: Cluster, f: Forest, l: seq<nat>)
    requires Fits(g, f) && f.Valid(g) && Singletons(f, {})
    ensures Loaded(g, f, l, 0)
  {
    hide Cluster.GainOf, Diagram, Forest.Valid;
    assert l[..0] == [] && Elems(l[..0]) == {};
    forall lam: real
      ensures Diagram(g, f, lam) >= LoadBase(g, l, 0, lam)
    {
      DiagramAtLeast(g, f, {}, lam);
      g.GainOfEmpty(lam);
    }
  }

  /** Loading a valid linearization gives a topological state at least as good as it. */
  lemma LoadDone(g: Cluster, f: Forest, l: seq<nat>)
    requires Loaded(g, f, l, |l|) && IsLinearization(g, l)
    ensures Topological(g, f)
    ensures forall lam: real :: Diagram(g, f, lam) >= Peak(g, l, lam)
  {
    hide Cluster.GainOf, Diagram, Forest.Valid, ChunkRate;
    assert l[..|l|] == l;
    forall lam: real
      ensures Diagram(g, f, lam) >= Peak(g, l, lam)
    {
      assert Diagram(g, f, lam) >= LoadBase(g, l, |l|, lam);
      assert g.txns - Elems(l[..|l|]) == {};
    }
  }
}
