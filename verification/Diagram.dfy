/** Feerate diagrams, through their dual.

    A chunking is summarised by what its chunks pay above every threshold feerate `lam`: the sum of
    `max(0, fee - lam * size)`. `DiagramLists.ForestsCompare` shows that one sum is nowhere smaller than another exactly
    if the diagram, as a function of the size, is nowhere below. */
module Diagrams {
  import opened FeeFracs
  import opened Clusters
  import opened Forests

  /** Sum of the positive values of `m`. */
  ghost function Area(m: map<nat, real>): real {
    if m.Keys == {} then 0.0 else
      var k := Pick(m.Keys);
      Pos(m[k]) + Area(m - {k})
  }

  /** Sum of all values of `m`. */
  ghost function Total(m: map<nat, real>): real {
    if m.Keys == {} then 0.0 else
      var k := Pick(m.Keys);
      m[k] + Total(m - {k})
  }

  ghost function Negated(m: map<nat, real>): map<nat, real> {
    map k | k in m :: -m[k]
  }

  lemma {:induction false} AreaRemove(m: map<nat, real>, k: nat)
    requires k in m
    ensures Area(m) == Pos(m[k]) + Area(m - {k})
    ensures Total(m) == m[k] + Total(m - {k})
    decreases |m|
  {
    var p := Pick(m.Keys);
    if p != k {
      assert m - {p} - {k} == m - {k} - {p};
      SmallerMap(m, p);
      SmallerMap(m, k);
      AreaRemove(m - {p}, k);
      AreaRemove(m - {k}, p);
    }
  }

  lemma SmallerMap<V>(m: map<nat, V>, k: nat)
    requires k in m
    ensures |m - {k}| < |m|
  {
    assert (m - {k}).Keys == m.Keys - {k};
    assert |(m - {k}).Keys| < |m.Keys|;
  }

  lemma AreaUpdate(m: map<nat, real>, k: nat, v: real)
    ensures k in m ==> Area(m[k := v]) == Area(m) - Pos(m[k]) + Pos(v)
    ensures k in m ==> Total(m[k := v]) == Total(m) - m[k] + v
    ensures k !in m ==> Area(m[k := v]) == Area(m) + Pos(v)
    ensures k !in m ==> Total(m[k := v]) == Total(m) + v
  {
    hide Area, Total;
    AreaRemove(m[k := v], k);
    assert m[k := v] - {k} == m - {k};
    if k in m {
      AreaRemove(m, k);
    } else {
      assert m - {k} == m;
    }
  }

  lemma AreaMerge(m: map<nat, real>, p: nat, c: nat)
    requires p in m && c in m && p != c
    ensures var m' := (m - {p})[c := m[p] + m[c]];
            && Area(m') == Area(m) - Pos(m[p]) - Pos(m[c]) + Pos(m[p] + m[c])
            && Total(m') == Total(m)
  {
    hide Area, Total;
    AreaRemove(m, p);
    AreaUpdate(m - {p}, c, m[p] + m[c]);
  }

  lemma AreaSplit(m: map<nat, real>, p: nat, c: nat, top: real)
    requires p !in m && c in m
    ensures var m' := m[c := m[c] - top][p := top];
            && Area(m') == Area(m) - Pos(m[c]) + Pos(top) + Pos(m[c] - top)
            && Total(m') == Total(m)
  {
    hide Area, Total;
    AreaUpdate(m, c, m[c] - top);
    AreaUpdate(m[c := m[c] - top], p, top);
  }

  lemma AreaEmpty(m: map<nat, real>)
    requires m.Keys == {}
    ensures Area(m) == 0.0 && Total(m) == 0.0
  {
  }

  lemma {:induction false} AreaNegated(m: map<nat, real>)
    ensures Area(Negated(m)) == Area(m) - Total(m)
    decreases |m|
  {
    hide Area, Total;
    if m.Keys == {} {
      AreaEmpty(m);
      AreaEmpty(Negated(m));
    } else {
      var k := Pick(m.Keys);
      SmallerMap(m, k);
      AreaNegated(m - {k});
      AreaRemove(m, k);
      AreaRemove(Negated(m), k);
      assert Negated(m) - {k} == Negated(m - {k});
    }
  }

  lemma {:induction false} AreaAtLeastTotal(m: map<nat, real>)
    ensures Area(m) >= Total(m)
    ensures Area(m) >= 0.0
    decreases |m|
  {
    if m.Keys != {} {
      var k := Pick(m.Keys);
      SmallerMap(m, k);
      AreaAtLeastTotal(m - {k});
    }
  }

  // ---- The diagram of a forest

  ghost predicate Fits(g: Cluster, f: Forest) {
    g.Valid() && f.chunk.Keys == g.txns
  }

  /** Feerate of a chunk. */
  ghost function ChunkRate(g: Cluster, f: Forest, i: nat): real
    requires Fits(g, f) && i in f.chunk.Values
  {
    PartNonEmpty(f, i);
    g.RateOf(f.Part(i))
  }

  ghost function ChunkGain(g: Cluster, f: Forest, i: nat, lam: real): real
    requires Fits(g, f)
  {
    g.GainOf(f.Part(i), lam)
  }

  lemma ChunkGainSign(g: Cluster, f: Forest, i: nat, lam: real)
    requires Fits(g, f) && i in f.chunk.Values
    ensures ChunkGain(g, f, i, lam) > 0.0 <==> ChunkRate(g, f, i) > lam
    ensures ChunkGain(g, f, i, lam) == 0.0 <==> ChunkRate(g, f, i) == lam
  {
    PartNonEmpty(f, i);
    g.GainOfSign(f.Part(i), lam);
  }

  ghost function Gains(g: Cluster, f: Forest, lam: real): map<nat, real>
    requires Fits(g, f)
  {
    map i | i in f.chunk.Values :: ChunkGain(g, f, i, lam)
  }

  /** What the chunks that beat `lam` pay above it. */
  ghost function Diagram(g: Cluster, f: Forest, lam: real): real
    requires Fits(g, f)
  {
    Area(Gains(g, f, lam))
  }

  /** The same, seen from the other end: what the chunks below `lam` lack. */
  ghost function Deficit(g: Cluster, f: Forest, lam: real): real
    requires Fits(g, f)
  {
    Area(Negated(Gains(g, f, lam)))
  }

  /** The transactions of the given chunks. */
  ghost function Covered(f: Forest, chunks: set<nat>): set<nat> {
    set t | t in f.chunk && f.chunk[t] in chunks
  }

  lemma {:induction false} TotalIsGain(g: Cluster, f: Forest, m: map<nat, real>, lam: real)
    requires Fits(g, f) && m.Keys <= f.chunk.Values
    requires forall i | i in m :: m[i] == ChunkGain(g, f, i, lam)
    ensures Total(m) == g.GainOf(Covered(f, m.Keys), lam)
    decreases |m|
  {
    hide Cluster.FeeOf, Cluster.GainOf, Area;
    if m.Keys == {} {
      assert Covered(f, m.Keys) == {};
      g.GainOfEmpty(lam);
    } else {
      var k := Pick(m.Keys);
      SmallerMap(m, k);
      TotalIsGain(g, f, m - {k}, lam);
      assert Covered(f, m.Keys) == f.Part(k) + Covered(f, (m - {k}).Keys);
      g.GainOfUnion(f.Part(k), Covered(f, (m - {k}).Keys), lam);
    }
  }

  lemma GainsTotal(g: Cluster, f: Forest, lam: real)
    requires Fits(g, f)
    ensures Total(Gains(g, f, lam)) == g.GainOf(g.txns, lam)
  {
    hide Cluster.FeeOf, Cluster.GainOf, Total, Area;
    TotalIsGain(g, f, Gains(g, f, lam), lam);
    assert Covered(f, Gains(g, f, lam).Keys) == g.txns;
  }

  /** The two views of a diagram differ by a constant of the cluster. */
  lemma DeficitDual(g: Cluster, f: Forest, lam: real)
    requires Fits(g, f)
    ensures Deficit(g, f, lam) == Diagram(g, f, lam) - g.GainOf(g.txns, lam)
  {
    hide Cluster.FeeOf, Cluster.GainOf, Total, Area;
    AreaNegated(Gains(g, f, lam));
    GainsTotal(g, f, lam);
  }

  lemma GainsActivated(g: Cluster, f: Forest, d: Dep, lam: real)
    requires Fits(g, f) && f.Valid(g) && f.CanActivate(g, d)
    ensures var ip, ic, m := f.chunk[d.parent], f.chunk[d.child], Gains(g, f, lam);
            && Fits(g, f.Activated(d))
            && ip in m && ic in m
            && Gains(g, f.Activated(d), lam) == (m - {ip})[ic := m[ip] + m[ic]]
  {
    hide Cluster.FeeOf, Cluster.GainOf, Closed, Connected, IsTop;
    var ip, ic, m := f.chunk[d.parent], f.chunk[d.child], Gains(g, f, lam);
    ActivatedFresh(f, g, d);
    g.GainOfUnion(f.Part(ip), f.Part(ic), lam);
    assert Gains(g, f.Activated(d), lam).Keys == m.Keys - {ip};
  }

  lemma GainsDeactivated(g: Cluster, f: Forest, d: Dep, ip: nat, lam: real)
    requires Fits(g, f) && f.Valid(g) && f.CanDeactivate(d, ip)
    ensures var ic, m := f.chunk[d.parent], Gains(g, f, lam);
            && Fits(g, f.Deactivated(d, ip))
            && ip !in m && ic in m && f.top[d] <= g.feerate.Keys
            && Gains(g, f.Deactivated(d, ip), lam) ==
               m[ic := m[ic] - g.GainOf(f.top[d], lam)][ip := g.GainOf(f.top[d], lam)]
  {
    hide Cluster.FeeOf, Cluster.GainOf, Closed, Connected, IsTop;
    var ic, m := f.chunk[d.parent], Gains(g, f, lam);
    DeactivatedParts(f, g, d, ip);
    var t, b := f.top[d], f.Part(ic) - f.top[d];
    assert t + b == f.Part(ic);
    g.GainOfUnion(t, b, lam);
    assert Gains(g, f.Deactivated(d, ip), lam).Keys == m.Keys + {ip};
  }
}
