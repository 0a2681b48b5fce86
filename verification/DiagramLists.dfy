/** The diagrams of linearizations and forests, as lists of chunks. */
module DiagramLists {
  import opened FeeFracs
  import opened Clusters
  import opened Forests
  import opened Diagrams
  import opened Improving
  import opened Linearizations
  import opened Strictly
  import Chunking
  import ChunkArea
  import C = ChunkLists

  // ---- Linearizations

  ghost function FeesOf(g: Cluster, segs: seq<seq<nat>>): seq<FeeFrac> {
    seq(|segs|, i requires 0 <= i < |segs| => Chunking.SegFee(g, segs[i]))
  }

  lemma FeesInOrder(g: Cluster, segs: seq<seq<nat>>, l: seq<nat>)
    requires Chunking.Chunked(g, segs, l)
    ensures C.Descending(FeesOf(g, segs))
  {
    hide Chunking.SegFee, Rate, Chunking.Tight, Chunking.Segmented, Chunking.IsSeg;
    forall i | 0 <= i < |segs|
      ensures Chunking.SegFee(g, segs[i]).size > 0 && Rate(Chunking.SegFee(g, segs[i])) == Chunking.SegRate(g, segs[i])
    {
      Chunking.SegmentedAt(g, segs, i);
      Chunking.SegFacts(g, segs[i]);
    }
  }

  lemma {:induction false} FeesHeight(g: Cluster, segs: seq<seq<nat>>, lam: real)
    ensures C.Height(FeesOf(g, segs), lam) == Chunking.Height(g, segs, lam)
    decreases |segs|
  {
    hide Chunking.SegFee, Gain;
    if segs != [] {
      var n := |segs| - 1;
      FeesHeight(g, segs[..n], lam);
      assert FeesOf(g, segs)[..n] == FeesOf(g, segs[..n]);
    }
  }

  lemma {:induction false} FeesSum(g: Cluster, segs: seq<seq<nat>>)
    requires Chunking.Segmented(g, segs)
    ensures Elems(Chunking.Flatten(segs)) <= g.feerate.Keys
    ensures C.Sum(FeesOf(g, segs)) == g.FeeOf(Elems(Chunking.Flatten(segs)))
    decreases |segs|
  {
    hide Cluster.FeeOf, Distinct;
    if segs == [] {
      assert Elems(Chunking.Flatten(segs)) == {};
      g.FeeOfEmpty();
    } else {
      var n := |segs| - 1;
      var l, s := Chunking.Flatten(segs[..n]), segs[n];
      assert segs == segs[..n] + [s];
      Chunking.SegmentedPush(g, segs[..n], s);
      FeesSum(g, segs[..n]);
      Chunking.ConcatElems(l, s);
      g.FeeOfUnion(Elems(l), Elems(s));
      assert FeesOf(g, segs)[..n] == FeesOf(g, segs[..n]);
    }
  }

  ghost predicate PeaksAtLeast(g: Cluster, k: seq<nat>, l: seq<nat>)
    requires Elems(k) <= g.feerate.Keys && Elems(l) <= g.feerate.Keys
  {
    forall lam: real :: Peak(g, k, lam) >= Peak(g, l, lam)
  }

  /** One order of the transactions has a diagram nowhere lower than another's exactly if its best prefixes pay at least
      as much above every threshold. */
  lemma LinearizationsCompare(g: Cluster, k: seq<nat>, l: seq<nat>, ks: seq<seq<nat>>, ls: seq<seq<nat>>)
    requires Chunking.Chunked(g, ks, k) && Chunking.Chunked(g, ls, l) && Elems(k) == Elems(l) <= g.feerate.Keys
    ensures C.Sized(FeesOf(g, ks)) && C.Sized(FeesOf(g, ls))
    ensures C.NowhereLower(FeesOf(g, ks), FeesOf(g, ls)) <==> PeaksAtLeast(g, k, l)
  {
    hide FeesOf, Chunking.Chunked, C.NowhereLower, Peak, C.Height, Chunking.Height, Elems, C.Descending, PeaksAtLeast;
    var cs, ds := FeesOf(g, ks), FeesOf(g, ls);
    FeesInOrder(g, ks, k);
    FeesInOrder(g, ls, l);
    assert C.Sized(cs) && C.Sized(ds) by { InOrderSized(cs); InOrderSized(ds); }
    assert C.Sum(cs) == C.Sum(ds) by { ChunkedSum(g, ks, k); ChunkedSum(g, ls, l); }
    C.DiagramsAreThresholds(cs, ds);
    forall lam: real ensures C.Height(cs, lam) == Peak(g, k, lam) && C.Height(ds, lam) == Peak(g, l, lam) {
      Chunking.ChunksGivePeak(g, ks, k, lam);
      Chunking.ChunksGivePeak(g, ls, l, lam);
      FeesHeight(g, ks, lam);
      FeesHeight(g, ls, lam);
    }
    SamePayments(g, k, l, cs, ds);
  }

  lemma SamePayments(g: Cluster, k: seq<nat>, l: seq<nat>, cs: seq<FeeFrac>, ds: seq<FeeFrac>)
    requires Elems(k) <= g.feerate.Keys && Elems(l) <= g.feerate.Keys
    requires forall lam: real :: C.Height(cs, lam) == Peak(g, k, lam)
    requires forall lam: real :: C.Height(ds, lam) == Peak(g, l, lam)
    ensures C.PaysAtLeast(cs, ds) <==> PeaksAtLeast(g, k, l)
  {
    hide C.Height, Peak;
    if C.PaysAtLeast(cs, ds) {
      forall lam: real ensures Peak(g, k, lam) >= Peak(g, l, lam) {
        assert C.Height(cs, lam) >= C.Height(ds, lam);
      }
    }
  }

  lemma InOrderSized(cs: seq<FeeFrac>)
    requires C.Descending(cs)
    ensures C.Sized(cs)
  {
  }

  lemma ChunkedSum(g: Cluster, segs: seq<seq<nat>>, l: seq<nat>)
    requires Chunking.Chunked(g, segs, l) && Elems(l) <= g.feerate.Keys
    ensures C.Sum(FeesOf(g, segs)) == g.FeeOf(Elems(l))
  {
    hide FeesOf, Elems, Chunking.Segmented;
    FeesSum(g, segs);
  }

  // ---- Forests

  /** `ids` are the chunks of the forest in order of feerate, and `cs` what they pay. */
  ghost predicate Listed(g: Cluster, f: Forest, ids: seq<nat>, cs: seq<FeeFrac>) {
    && Fits(g, f) && |ids| == |cs| && Distinct(ids) && Elems(ids) == f.chunk.Values && C.Descending(cs)
    && forall i | 0 <= i < |ids| :: f.Part(ids[i]) <= g.feerate.Keys && cs[i] == g.FeeOf(f.Part(ids[i]))
  }

  lemma {:induction false} ListedArea(m: map<nat, real>, ids: seq<nat>, cs: seq<FeeFrac>, lam: real)
    requires |ids| == |cs| && Distinct(ids) && m.Keys == Elems(ids)
    requires forall i | 0 <= i < |ids| :: m[ids[i]] == Gain(cs[i], lam)
    ensures Area(m) == C.Height(cs, lam)
    decreases |ids|
  {
    hide Gain;
    if ids == [] {
      assert m.Keys == {};
    } else {
      var n := |ids| - 1;
      var k := ids[n];
      assert (m - {k}).Keys == Elems(ids[..n]);
      ListedArea(m - {k}, ids[..n], cs[..n], lam);
      AreaRemove(m, k);
    }
  }

  lemma ListedHeight(g: Cluster, f: Forest, ids: seq<nat>, cs: seq<FeeFrac>, lam: real)
    requires Listed(g, f, ids, cs)
    ensures C.Height(cs, lam) == Diagram(g, f, lam)
  {
    hide Area, Cluster.FeeOf, C.Descending, Gain;
    ListedArea(Gains(g, f, lam), ids, cs, lam);
  }

  lemma {:induction false} ListedSum(g: Cluster, f: Forest, ids: seq<nat>, cs: seq<FeeFrac>)
    requires Fits(g, f) && |ids| == |cs| && Distinct(ids)
    requires forall i | 0 <= i < |ids| :: f.Part(ids[i]) <= g.feerate.Keys && cs[i] == g.FeeOf(f.Part(ids[i]))
    ensures Covered(f, Elems(ids)) <= g.feerate.Keys && C.Sum(cs) == g.FeeOf(Covered(f, Elems(ids)))
    decreases |ids|
  {
    hide Cluster.FeeOf;
    if ids == [] {
      assert Covered(f, Elems(ids)) == {};
      g.FeeOfEmpty();
    } else {
      var n := |ids| - 1;
      ListedSum(g, f, ids[..n], cs[..n]);
      var before := Covered(f, Elems(ids[..n]));
      assert Covered(f, Elems(ids)) == before + f.Part(ids[n]);
      g.FeeOfUnion(before, f.Part(ids[n]));
    }
  }

  lemma ListedTotal(g: Cluster, f: Forest, ids: seq<nat>, cs: seq<FeeFrac>)
    requires Listed(g, f, ids, cs)
    ensures g.txns <= g.feerate.Keys && C.Sum(cs) == g.FeeOf(g.txns)
  {
    hide Cluster.FeeOf, C.Descending;
    ListedSum(g, f, ids, cs);
    assert Covered(f, f.chunk.Values) == g.txns;
  }

  /** Every forest has such a list. */
  lemma ListExists(g: Cluster, f: Forest) returns (ids: seq<nat>, cs: seq<FeeFrac>)
    requires Fits(g, f)
    ensures Listed(g, f, ids, cs)
  {
    hide ChunkRate, Cluster.FeeOf, Rate;
    ids := InRateOrder(g, f, f.chunk.Values);
    cs := seq(|ids|, i requires 0 <= i < |ids| => FeeAt(g, f, ids[i]));
    forall i | 0 <= i < |ids|
      ensures f.Part(ids[i]) <= g.feerate.Keys && cs[i] == g.FeeOf(f.Part(ids[i]))
      ensures cs[i].size > 0 && Rate(cs[i]) == ChunkRate(g, f, ids[i])
    {
      assert ids[i] in Elems(ids);
      FeeAtIs(g, f, ids[i]);
    }
  }

  ghost function FeeAt(g: Cluster, f: Forest, i: nat): FeeFrac {
    if f.Part(i) <= g.feerate.Keys then g.FeeOf(f.Part(i)) else EMPTY
  }

  lemma FeeAtIs(g: Cluster, f: Forest, i: nat)
    requires Fits(g, f) && i in f.chunk.Values
    ensures f.Part(i) <= g.feerate.Keys && FeeAt(g, f, i).size > 0 && Rate(FeeAt(g, f, i)) == ChunkRate(g, f, i)
  {
    PartNonEmpty(f, i);
    g.SizePositive(f.Part(i));
  }

  /** The chunks of a set in order of feerate: the last is one of the lowest. */
  lemma {:induction false} InRateOrder(g: Cluster, f: Forest, s: set<nat>) returns (ids: seq<nat>)
    requires Fits(g, f) && s <= f.chunk.Values
    ensures Distinct(ids) && Elems(ids) == s
    ensures forall i, j | 0 <= i < j < |ids| :: ChunkRate(g, f, ids[i]) >= ChunkRate(g, f, ids[j])
    decreases |s|
  {
    hide ChunkRate;
    if s == {} {
      ids := [];
    } else {
      var k := Lowest(g, f, s);
      var rest := InRateOrder(g, f, s - {k});
      ids := rest + [k];
      AppendElems(rest, k);
      assert forall i | 0 <= i < |rest| :: rest[i] in Elems(rest);
    }
  }

  lemma {:induction false} Lowest(g: Cluster, f: Forest, s: set<nat>) returns (k: nat)
    requires Fits(g, f) && s <= f.chunk.Values && s != {}
    ensures k in s && forall j | j in s :: ChunkRate(g, f, j) >= ChunkRate(g, f, k)
    decreases |s|
  {
    hide ChunkRate;
    k := Pick(s);
    if s != {k} {
      var j := Lowest(g, f, s - {k});
      if ChunkRate(g, f, j) < ChunkRate(g, f, k) { k := j; }
    }
  }

  /** One forest has a diagram nowhere lower than another's exactly if its chunks pay at least as much above every
      threshold. */
  lemma ForestsCompare(g: Cluster, f': Forest, f: Forest, ids': seq<nat>, ids: seq<nat>, ds: seq<FeeFrac>,
                       cs: seq<FeeFrac>)
    requires Listed(g, f', ids', ds) && Listed(g, f, ids, cs)
    ensures C.NowhereLower(ds, cs) <==> AtLeastAsGood(g, f', f)
  {
    hide Cluster.FeeOf, C.Height, Diagram, C.NowhereLower;
    ListedTotal(g, f', ids', ds);
    ListedTotal(g, f, ids, cs);
    C.DiagramsAreThresholds(ds, cs);
    forall lam: real ensures C.Height(ds, lam) == Diagram(g, f', lam) && C.Height(cs, lam) == Diagram(g, f, lam) {
      ListedHeight(g, f', ids', ds, lam);
      ListedHeight(g, f, ids, cs, lam);
    }
  }

  // ---- The area

  /** What splitting a chunk into these two parts gains. */
  function SplitsFor(top: FeeFrac, bottom: FeeFrac): int {
    top.fee * bottom.size - bottom.fee * top.size
  }

  lemma GainTimesSize(top: FeeFrac, whole: FeeFrac)
    requires whole.size > 0
    ensures C.Rise(Gain(top, Rate(whole)), whole.size as real) == SplitsFor(top, whole.Minus(top)) as real
  {
    var tf, ts, wf, ws := top.fee as real, top.size as real, whole.fee as real, whole.size as real;
    var r := Rate(whole);
    assert r * ws == wf;
    assert (tf - r * ts) * ws == tf * ws - (r * ws) * ts;
    var bottom := whole.Minus(top);
    assert top.fee * bottom.size - bottom.fee * top.size == top.fee * whole.size - whole.fee * top.size;
    assert (top.fee * whole.size - whole.fee * top.size) as real == tf * ws - wf * ts;
  }

  lemma ChunkListed(g: Cluster, f: Forest, ids: seq<nat>, cs: seq<FeeFrac>, k: nat) returns (i: nat)
    requires Listed(g, f, ids, cs) && k in f.chunk.Values
    ensures i < |cs| && cs[i] == FeeAt(g, f, k) && cs[i].size > 0 && Rate(cs[i]) == ChunkRate(g, f, k)
  {
    hide Rate, ChunkRate, Cluster.FeeOf;
    assert k in Elems(ids);
    i :| 0 <= i < |ids| && ids[i] == k;
    FeeAtIs(g, f, k);
  }

  /** Improving without a self-merge increases the area under the diagram by at least half of what the split gains. */
  lemma ImproveArea(g: Cluster, f': Forest, f: Forest, d: Dep, ids': seq<nat>, ids: seq<nat>, ds: seq<FeeFrac>,
                    cs: seq<FeeFrac>)
    requires Listed(g, f', ids', ds) && Listed(g, f, ids, cs) && StrictlyBetter(g, f', f, d)
    requires f.top[d] <= g.feerate.Keys
    ensures var top := g.FeeOf(f.top[d]);
            ChunkArea.TwiceArea(ds) >=
            ChunkArea.TwiceArea(cs) + SplitsFor(top, FeeAt(g, f, f.chunk[d.parent]).Minus(top)) as real
  {
    assert d.parent in f.chunk;
    hide Cluster.FeeOf, C.Height, Diagram, C.NowhereLower, Forest.Valid, ChunkRate, Rate, C.Rise, Gain, Listed,
         ChunkArea.TwiceArea, AtLeastAsGood;
    var top, r := g.FeeOf(f.top[d]), ChunkRate(g, f, f.chunk[d.parent]);
    var i := ChunkListed(g, f, ids, cs, f.chunk[d.parent]);
    ForestsCompare(g, f', f, ids', ids, ds, cs);
    ListedTotal(g, f', ids', ds);
    ListedTotal(g, f, ids, cs);
    ListedHeight(g, f', ids', ds, r);
    ListedHeight(g, f, ids, cs, r);
    ListedInOrder(g, f', ids', ds);
    ListedInOrder(g, f, ids, cs);
    ChunkArea.AreaGrows(ds, cs, i, Gain(top, r));
    GainTimesSize(top, cs[i]);
  }

  lemma ListedInOrder(g: Cluster, f: Forest, ids: seq<nat>, cs: seq<FeeFrac>)
    requires Listed(g, f, ids, cs)
    ensures C.Descending(cs)
  {
  }
}
