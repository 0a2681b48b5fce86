/** Cutting a linearization into chunks: consecutive segments of non-increasing feerate, each the
    shortest best prefix of what remains. */
module Chunking {
  import opened FeeFracs
  import opened Clusters
  import opened ForestData
  import opened Linearizations
  import opened Optimality

  // ---- Segments

  ghost function Flatten(segs: seq<seq<nat>>): seq<nat> {
    if segs == [] then [] else Flatten(segs[..|segs| - 1]) + segs[|segs| - 1]
  }

  lemma {:induction false} FlattenConcat(a: seq<seq<nat>>, b: seq<seq<nat>>)
    ensures Flatten(a + b) == Flatten(a) + Flatten(b)
    decreases |b|
  {
    if b == [] {
      assert a + b == a;
    } else {
      var b' := b[..|b| - 1];
      assert (a + b)[..|a + b| - 1] == a + b';
      FlattenConcat(a, b');
    }
  }

  lemma FlattenPush(a: seq<seq<nat>>, s: seq<nat>)
    ensures Flatten(a + [s]) == Flatten(a) + s
  {
    assert (a + [s])[..|a|] == a;
  }

  lemma FlattenFirst(segs: seq<seq<nat>>)
    requires segs != []
    ensures Flatten(segs) == segs[0] + Flatten(segs[1..])
  {
    assert segs == [segs[0]] + segs[1..];
    FlattenConcat([segs[0]], segs[1..]);
    assert [segs[0]] == [] + [segs[0]];
    FlattenPush([], segs[0]);
  }

  lemma ConcatElems(a: seq<nat>, b: seq<nat>)
    ensures Elems(a + b) == Elems(a) + Elems(b)
    ensures Distinct(a + b) <==> Distinct(a) && Distinct(b) && Elems(a) !! Elems(b)
  {
    if Distinct(a + b) {
      assert forall i | 0 <= i < |b| :: b[i] == (a + b)[|a| + i];
      assert forall i | 0 <= i < |a| :: a[i] == (a + b)[i];
      forall t | t in Elems(a) ensures t !in Elems(b) {
        var i :| 0 <= i < |a| && a[i] == t;
        assert (a + b)[i] == t;
      }
    } else if Distinct(a) && Distinct(b) {
      var i, j :| 0 <= i < j < |a + b| && (a + b)[i] == (a + b)[j];
      assert i < |a| && j >= |a|;
      assert a[i] in Elems(a) && b[j - |a|] in Elems(b);
    }
  }

  lemma PrefixElems(s: seq<nat>, k: nat)
    requires k <= |s|
    ensures Elems(s[..k]) <= Elems(s) && (Distinct(s) ==> Distinct(s[..k]))
  {
  }

  ghost function SegFee(g: Cluster, s: seq<nat>): FeeFrac {
    if Elems(s) <= g.feerate.Keys then g.FeeOf(Elems(s)) else EMPTY
  }

  ghost function SegRate(g: Cluster, s: seq<nat>): real {
    if SegFee(g, s).size > 0 then Rate(SegFee(g, s)) else 0.0
  }

  ghost function SegGain(g: Cluster, s: seq<nat>, lam: real): real {
    Gain(SegFee(g, s), lam)
  }

  ghost predicate IsSeg(g: Cluster, s: seq<nat>) {
    g.Valid() && s != [] && Distinct(s) && Elems(s) <= g.txns
  }

  lemma SegFacts(g: Cluster, s: seq<nat>)
    requires IsSeg(g, s)
    ensures Elems(s) != {} && SegFee(g, s).size > 0 && SegRate(g, s) == g.RateOf(Elems(s))
    ensures forall lam: real :: SegGain(g, s, lam) == g.GainOf(Elems(s), lam)
  {
    assert s[0] in Elems(s);
    g.SizePositive(Elems(s));
  }

  lemma SegSign(g: Cluster, s: seq<nat>, lam: real)
    requires IsSeg(g, s)
    ensures SegGain(g, s, lam) > 0.0 <==> SegRate(g, s) > lam
    ensures SegGain(g, s, lam) == 0.0 <==> SegRate(g, s) == lam
  {
    hide SegFee, SegRate, SegGain, Cluster.GainOf, Cluster.RateOf;
    SegFacts(g, s);
    g.GainOfSign(Elems(s), lam);
  }

  lemma SegCompare(g: Cluster, a: seq<nat>, b: seq<nat>)
    requires IsSeg(g, a) && IsSeg(g, b)
    ensures SegFee(g, a).Lower(SegFee(g, b)) <==> SegRate(g, a) < SegRate(g, b)
  {
    hide SegFee, IsSeg, FeeFrac.Lower;
    SegFacts(g, a);
    SegFacts(g, b);
    CompareIsRate(SegFee(g, a), SegFee(g, b));
  }

  lemma SegConcat(g: Cluster, a: seq<nat>, b: seq<nat>)
    requires IsSeg(g, a) && IsSeg(g, b) && Elems(a) !! Elems(b)
    ensures IsSeg(g, a + b) && SegFee(g, a + b) == SegFee(g, a).Plus(SegFee(g, b))
    ensures SegRate(g, a) < SegRate(g, b) ==> SegRate(g, a) < SegRate(g, a + b) < SegRate(g, b)
    ensures forall lam: real :: SegGain(g, a + b, lam) == SegGain(g, a, lam) + SegGain(g, b, lam)
  {
    ConcatElems(a, b);
    hide Cluster.RateOf, Cluster.FeeOf, Gain, Rate, Elems, Distinct;
    SegFacts(g, a);
    SegFacts(g, b);
    SegFacts(g, a + b);
    g.FeeOfUnion(Elems(a), Elems(b));
    g.RateOfUnion(Elems(a), Elems(b));
    forall lam: real ensures SegGain(g, a + b, lam) == SegGain(g, a, lam) + SegGain(g, b, lam) {
      GainPlus(SegFee(g, a), SegFee(g, b), lam);
    }
  }

  /** Non-empty disjoint segments of transactions of the cluster. */
  ghost predicate Segmented(g: Cluster, segs: seq<seq<nat>>) {
    g.Valid() && Distinct(Flatten(segs)) && Elems(Flatten(segs)) <= g.txns
    && forall i | 0 <= i < |segs| :: segs[i] != []
  }

  lemma SegmentedPush(g: Cluster, segs: seq<seq<nat>>, s: seq<nat>)
    ensures Segmented(g, segs + [s]) <==> Segmented(g, segs) && IsSeg(g, s) && Elems(Flatten(segs)) !! Elems(s)
  {
    hide Flatten, Elems, Distinct;
    FlattenPush(segs, s);
    ConcatElems(Flatten(segs), s);
    if Segmented(g, segs + [s]) {
      assert forall i | 0 <= i < |segs| :: segs[i] == (segs + [s])[i];
      assert (segs + [s])[|segs|] == s;
    }
  }

  lemma {:induction false} SegmentedAt(g: Cluster, segs: seq<seq<nat>>, i: nat)
    requires Segmented(g, segs) && i < |segs|
    ensures IsSeg(g, segs[i]) && Elems(segs[i]) <= Elems(Flatten(segs))
    decreases |segs|
  {
    hide Elems, Distinct;
    var n := |segs| - 1;
    assert segs == segs[..n] + [segs[n]];
    SegmentedPush(g, segs[..n], segs[n]);
    ConcatElems(Flatten(segs[..n]), segs[n]);
    if i < n {
      SegmentedAt(g, segs[..n], i);
    }
  }

  lemma SegmentedFirst(g: Cluster, segs: seq<seq<nat>>)
    requires Segmented(g, segs) && segs != []
    ensures IsSeg(g, segs[0]) && Segmented(g, segs[1..]) && Elems(segs[0]) !! Elems(Flatten(segs[1..]))
  {
    hide Elems, Distinct, Flatten;
    FlattenFirst(segs);
    ConcatElems(segs[0], Flatten(segs[1..]));
    assert forall i | 0 <= i < |segs[1..]| :: segs[1..][i] == segs[i + 1];
  }

  // ---- Chunked sequences

  ghost predicate NonIncreasing(g: Cluster, segs: seq<seq<nat>>) {
    forall i, j | 0 <= i < j < |segs| :: SegRate(g, segs[i]) >= SegRate(g, segs[j])
  }

  /** Every proper prefix of `s` has strictly lower feerate than `s`. */
  ghost predicate Tight(g: Cluster, s: seq<nat>) {
    forall k | 0 < k < |s| :: SegRate(g, s[..k]) < SegRate(g, s)
  }

  ghost predicate AllTight(g: Cluster, segs: seq<seq<nat>>) {
    forall i | 0 <= i < |segs| :: Tight(g, segs[i])
  }

  /** `segs` are the chunks of `l`. */
  ghost predicate Chunked(g: Cluster, segs: seq<seq<nat>>, l: seq<nat>) {
    Segmented(g, segs) && Flatten(segs) == l && NonIncreasing(g, segs) && AllTight(g, segs)
  }

  /** A lower part pays strictly less above any threshold up to the whole's feerate. */
  lemma LowerPart(g: Cluster, c: set<nat>, s: set<nat>, lam: real)
    requires g.Valid() && s <= c <= g.txns && s != {} && g.RateOf(s) < g.RateOf(c) && lam <= g.RateOf(c)
    ensures g.GainOf(s, lam) < g.GainOf(c, lam)
  {
    hide Cluster.FeeOf, Cluster.RateOf, Gain, Shift;
    var r := g.RateOf(c);
    g.GainOfSign(s, r);
    g.GainOfSign(c, r);
    SizeMonotone(g, s, c);
    GainShift(g.FeeOf(s), lam, r);
    GainShift(g.FeeOf(c), lam, r);
    ShiftBound(g.FeeOf(s), g.FeeOf(c), r - lam);
  }

  /** A lower segment followed by a higher one, both tight, form a tight segment. */
  lemma JoinTight(g: Cluster, a: seq<nat>, b: seq<nat>)
    requires IsSeg(g, a) && IsSeg(g, b) && Elems(a) !! Elems(b)
    requires Tight(g, a) && Tight(g, b) && SegRate(g, a) < SegRate(g, b)
    ensures IsSeg(g, a + b) && Tight(g, a + b)
    ensures SegRate(g, a) < SegRate(g, a + b) < SegRate(g, b)
  {
    hide SegRate, SegGain, SegFee;
    SegConcat(g, a, b);
    var s := a + b;
    forall k | 0 < k < |s| ensures SegRate(g, s[..k]) < SegRate(g, s) {
      JoinPrefix(g, a, b, k);
    }
  }

  lemma JoinPrefix(g: Cluster, a: seq<nat>, b: seq<nat>, k: nat)
    requires IsSeg(g, a) && IsSeg(g, b) && Elems(a) !! Elems(b) && IsSeg(g, a + b) && 0 < k < |a + b|
    requires Tight(g, a) && Tight(g, b) && SegRate(g, a) < SegRate(g, a + b) < SegRate(g, b)
    ensures SegRate(g, (a + b)[..k]) < SegRate(g, a + b)
  {
    hide SegRate, SegGain, SegFee, Cluster.GainOf, Cluster.RateOf, Cluster.Valid;
    var s := a + b;
    if k <= |a| {
      assert s[..k] == a[..k];
      assert a[..|a|] == a;
    } else {
      var q := b[..k - |a|];
      assert s[..k] == a + q;
      PrefixElems(b, k - |a|);
      var lam := SegRate(g, s);
      SegFacts(g, q);
      SegFacts(g, b);
      LowerPart(g, Elems(b), Elems(q), lam);
      SegConcat(g, a, q);
      SegConcat(g, a, b);
      SegSign(g, s, lam);
      SegSign(g, a + q, lam);
    }
  }

  // ---- The diagram of a chunked sequence

  /** What the segments above the threshold pay above it. */
  ghost function Height(g: Cluster, segs: seq<seq<nat>>, lam: real): real {
    if segs == [] then 0.0 else
      Height(g, segs[..|segs| - 1], lam) + Pos(SegGain(g, segs[|segs| - 1], lam))
  }

  lemma HeightPush(g: Cluster, segs: seq<seq<nat>>, s: seq<nat>, lam: real)
    ensures Height(g, segs + [s], lam) == Height(g, segs, lam) + Pos(SegGain(g, s, lam))
  {
    assert (segs + [s])[..|segs|] == segs;
  }

  lemma {:induction false} HeightAtLeastTotal(g: Cluster, segs: seq<seq<nat>>, lam: real)
    requires Segmented(g, segs)
    ensures Height(g, segs, lam) >= 0.0 && Height(g, segs, lam) >= g.GainOf(Elems(Flatten(segs)), lam)
    ensures (forall i | 0 <= i < |segs| :: SegGain(g, segs[i], lam) >= 0.0) ==>
              Height(g, segs, lam) == g.GainOf(Elems(Flatten(segs)), lam)
    decreases |segs|
  {
    hide Cluster.GainOf, SegGain, Distinct;
    if segs == [] {
      assert Elems(Flatten(segs)) == {};
      g.GainOfEmpty(lam);
    } else {
      var n := |segs| - 1;
      var l, s := Flatten(segs[..n]), segs[n];
      assert segs == segs[..n] + [s];
      SegmentedPush(g, segs[..n], s);
      HeightAtLeastTotal(g, segs[..n], lam);
      ConcatElems(l, s);
      SegFacts(g, s);
      g.GainOfUnion(Elems(l), Elems(s), lam);
    }
  }

  lemma {:induction false} PeakPrefix(g: Cluster, l: seq<nat>, k: nat, lam: real)
    requires Elems(l) <= g.feerate.Keys && k <= |l|
    ensures Elems(l[..k]) <= g.feerate.Keys && Peak(g, l[..k], lam) <= Peak(g, l, lam)
    decreases |l|
  {
    PrefixElems(l, k);
    if k == |l| {
      assert l[..k] == l;
    } else {
      assert l[..|l| - 1][..k] == l[..k];
      PeakPrefix(g, l[..|l| - 1], k, lam);
    }
  }

  /** No prefix pays more than the segments above the threshold. */
  lemma {:induction false} PeakBelowHeight(g: Cluster, segs: seq<seq<nat>>, lam: real)
    requires Segmented(g, segs) && AllTight(g, segs)
    ensures Peak(g, Flatten(segs), lam) <= Height(g, segs, lam)
    decreases |segs|
  {
    hide Cluster.GainOf, SegGain, Distinct, Tight;
    if segs != [] {
      var n := |segs| - 1;
      var l, s := Flatten(segs[..n]), segs[n];
      assert segs == segs[..n] + [s];
      SegmentedPush(g, segs[..n], s);
      PeakBelowHeight(g, segs[..n], lam);
      HeightAtLeastTotal(g, segs[..n], lam);
      forall k | 0 <= k <= |l + s| ensures g.GainOf(Elems((l + s)[..k]), lam) <= Height(g, segs, lam) {
        if k <= |l| {
          assert (l + s)[..k] == l[..k];
          PeakAtLeast(g, l, k, lam);
        } else {
          assert (l + s)[..k] == l + s[..k - |l|];
          PrefixGain(g, s, k - |l|, lam);
          PrefixElems(s, k - |l|);
          ConcatElems(l, s[..k - |l|]);
          g.GainOfUnion(Elems(l), Elems(s[..k - |l|]), lam);
        }
      }
      PeakAtMost(g, l + s, lam, Height(g, segs, lam));
    }
  }

  lemma PrefixGain(g: Cluster, s: seq<nat>, k: nat, lam: real)
    requires IsSeg(g, s) && Tight(g, s) && 0 < k <= |s|
    ensures g.GainOf(Elems(s[..k]), lam) <= Pos(SegGain(g, s, lam))
  {
    hide SegGain, SegRate, Cluster.GainOf, Cluster.RateOf, Cluster.Valid;
    SegFacts(g, s);
    PrefixElems(s, k);
    SegFacts(g, s[..k]);
    if k == |s| {
      assert s[..k] == s;
    } else {
      g.GainOfSign(Elems(s[..k]), g.RateOf(Elems(s)));
      PartBelowChunk(g, Elems(s), Elems(s[..k]), lam);
    }
  }

  lemma {:induction false} HeightBelowPeak(g: Cluster, segs: seq<seq<nat>>, lam: real)
    requires Segmented(g, segs) && NonIncreasing(g, segs)
    ensures Height(g, segs, lam) <= Peak(g, Flatten(segs), lam)
    decreases |segs|
  {
    hide Cluster.GainOf, SegGain, Distinct, SegRate;
    if segs != [] {
      var n := |segs| - 1;
      var l, s := Flatten(segs[..n]), segs[n];
      assert segs == segs[..n] + [s];
      SegmentedPush(g, segs[..n], s);
      SegSign(g, s, lam);
      if SegGain(g, s, lam) > 0.0 {
        forall i | 0 <= i < |segs| ensures SegGain(g, segs[i], lam) >= 0.0 {
          SegmentedAt(g, segs, i);
          SegSign(g, segs[i], lam);
        }
        HeightAtLeastTotal(g, segs, lam);
        assert (l + s)[..|l + s|] == l + s;
        PeakAtLeast(g, l + s, |l + s|, lam);
      } else {
        HeightBelowPeak(g, segs[..n], lam);
        assert (l + s)[..|l|] == l;
        PeakPrefix(g, l + s, |l|, lam);
      }
    }
  }

  /** The chunks give the diagram: above any threshold, they pay what the best prefix pays. */
  lemma ChunksGivePeak(g: Cluster, segs: seq<seq<nat>>, l: seq<nat>, lam: real)
    requires Chunked(g, segs, l)
    ensures Peak(g, l, lam) == Height(g, segs, lam)
  {
    PeakBelowHeight(g, segs, lam);
    HeightBelowPeak(g, segs, lam);
  }

  /** No prefix has higher feerate than the first chunk. */
  lemma FirstChunkBest(g: Cluster, segs: seq<seq<nat>>, l: seq<nat>, k: nat)
    requires Chunked(g, segs, l) && 0 < k <= |l|
    ensures segs != [] && SegRate(g, l[..k]) <= SegRate(g, segs[0])
  {
    hide Cluster.GainOf, SegGain, Distinct, SegRate, Tight;
    var lam := SegRate(g, segs[0]);
    ChunksGivePeak(g, segs, l, lam);
    forall i | 0 <= i < |segs| ensures SegGain(g, segs[i], lam) <= 0.0 {
      SegmentedAt(g, segs, i);
      SegSign(g, segs[i], lam);
      assert SegRate(g, segs[i]) <= lam;
    }
    NoHeight(g, segs, lam);
    PeakAtLeast(g, l, k, lam);
    PrefixElems(l, k);
    SegFacts(g, l[..k]);
    SegSign(g, l[..k], lam);
  }

  lemma {:induction false} NoHeight(g: Cluster, segs: seq<seq<nat>>, lam: real)
    requires forall i | 0 <= i < |segs| :: SegGain(g, segs[i], lam) <= 0.0
    ensures Height(g, segs, lam) == 0.0
    decreases |segs|
  {
    if segs != [] {
      NoHeight(g, segs[..|segs| - 1], lam);
    }
  }

  lemma ChunkedRest(g: Cluster, segs: seq<seq<nat>>, l: seq<nat>)
    requires Chunked(g, segs, l) && segs != []
    ensures |segs[0]| <= |l| && l == segs[0] + l[|segs[0]|..] && Chunked(g, segs[1..], l[|segs[0]|..])
  {
    hide Tight, SegRate, Segmented, Flatten;
    FlattenFirst(segs);
    SegmentedFirst(g, segs);
    assert Flatten(segs[1..]) == l[|segs[0]|..];
    assert forall i | 0 <= i < |segs[1..]| :: segs[1..][i] == segs[i + 1];
  }

  /** A sequence has only one chunking. */
  lemma {:induction false} ChunkingUnique(g: Cluster, a: seq<seq<nat>>, b: seq<seq<nat>>, l: seq<nat>)
    requires Chunked(g, a, l) && Chunked(g, b, l)
    ensures a == b
    decreases |a|
  {
    hide SegRate, NonIncreasing, Segmented;
    if a == [] {
      if b != [] { ChunkedRest(g, b, l); NonEmptyFirst(g, b); }
    } else {
      ChunkedRest(g, a, l);
      NonEmptyFirst(g, a);
      assert b != [];
      ChunkedRest(g, b, l);
      NonEmptyFirst(g, b);
      FirstNotShorter(g, a, b, l);
      FirstNotShorter(g, b, a, l);
      assert a[0] == l[..|a[0]|] && b[0] == l[..|b[0]|];
      ChunkingUnique(g, a[1..], b[1..], l[|a[0]|..]);
      assert a == [a[0]] + a[1..] && b == [b[0]] + b[1..];
    }
  }

  lemma NonEmptyFirst(g: Cluster, segs: seq<seq<nat>>)
    requires Segmented(g, segs) && segs != []
    ensures segs[0] != []
  {
  }

  lemma FirstNotShorter(g: Cluster, a: seq<seq<nat>>, b: seq<seq<nat>>, l: seq<nat>)
    requires Chunked(g, a, l) && Chunked(g, b, l) && a != [] && b != []
    requires a[0] <= l && b[0] <= l
    ensures |a[0]| >= |b[0]|
  {
    hide SegRate;
    NonEmptyFirst(g, a);
    NonEmptyFirst(g, b);
    hide Tight;
    if |a[0]| < |b[0]| {
      assert b[0][..|a[0]|] == a[0];
      TightAt(g, b[0], |a[0]|);
    }
    FirstChunkBest(g, a, l, |b[0]|);
    assert l[..|b[0]|] == b[0];
  }

  lemma TightAt(g: Cluster, s: seq<nat>, k: nat)
    requires Tight(g, s) && 0 < k < |s|
    ensures SegRate(g, s[..k]) < SegRate(g, s)
  {
  }

  // ---- The chunking algorithm

  /** The chunks `segs`, followed by the tight segment `c` that is still to be placed. */
  ghost predicate Building(g: Cluster, segs: seq<seq<nat>>, c: seq<nat>, l: seq<nat>) {
    Segmented(g, segs + [c]) && Flatten(segs) + c == l && NonIncreasing(g, segs) && AllTight(g, segs) && Tight(g, c)
  }

  ghost predicate InfoOf(g: Cluster, chunks: seq<SetInfo>, segs: seq<seq<nat>>) {
    |chunks| == |segs| && forall i | 0 <= i < |chunks| :: chunks[i] == SetInfo(Elems(segs[i]), SegFee(g, segs[i]))
  }

  lemma ChunkedEmpty(g: Cluster)
    requires g.Valid()
    ensures Chunked(g, [], [])
  {
  }

  lemma BuildStart(g: Cluster, segs: seq<seq<nat>>, l: seq<nat>, t: nat)
    requires Chunked(g, segs, l) && t in g.txns && t !in Elems(l)
    ensures Building(g, segs, [t], l + [t])
    ensures SegFee(g, [t]) == g.feerate[t] && Elems([t]) == {t}
  {
    hide Flatten;
    assert Elems([t]) == {t};
    g.FeeOfSingleton(t);
    assert Segmented(g, segs);
    SegmentedPush(g, segs, [t]);
  }

  lemma BuildAbsorb(g: Cluster, segs: seq<seq<nat>>, c: seq<nat>, l: seq<nat>)
    requires Building(g, segs, c, l) && segs != [] && SegFee(g, segs[|segs| - 1]).Lower(SegFee(g, c))
    ensures var n := |segs| - 1; var p := segs[n];
            Building(g, segs[..n], p + c, l) && SegFee(g, p + c) == SegFee(g, c).Plus(SegFee(g, p))
            && Elems(p + c) == Elems(c) + Elems(p)
  {
    hide SegFee, SegRate, Elems, Distinct, FeeFrac.Lower, Tight, Segmented;
    var n := |segs| - 1;
    var p := segs[n];
    assert segs == segs[..n] + [p];
    SegmentedPush(g, segs, c);
    SegmentedPush(g, segs[..n], p);
    FlattenPush(segs[..n], p);
    ConcatElems(Flatten(segs[..n]), p);
    ConcatElems(p, c);
    SegCompare(g, p, c);
    SegConcat(g, p, c);
    JoinTight(g, p, c);
    SegmentedPush(g, segs[..n], p + c);
  }

  lemma BuildPush(g: Cluster, segs: seq<seq<nat>>, c: seq<nat>, l: seq<nat>)
    requires Building(g, segs, c, l) && (segs == [] || !SegFee(g, segs[|segs| - 1]).Lower(SegFee(g, c)))
    ensures Chunked(g, segs + [c], l)
  {
    hide SegFee, SegRate, Elems, Distinct, FeeFrac.Lower, Tight, Flatten, Segmented;
    FlattenPush(segs, c);
    SegmentedPush(g, segs, c);
    if segs != [] {
      SegmentedAt(g, segs, |segs| - 1);
      SegCompare(g, segs[|segs| - 1], c);
    }
  }

  lemma NextTx(g: Cluster, l: seq<nat>, i: nat)
    requires g.Valid() && Distinct(l) && Elems(l) <= g.txns && i < |l|
    ensures l[i] in g.txns && l[i] in g.feerate && l[i] !in Elems(l[..i]) && l[..i] + [l[i]] == l[..i + 1]
  {
    assert l[i] in Elems(l);
  }

  /** Absorb lower chunks from the back into the new transaction, and put the result at the back. */
  method AppendTx(g: Cluster, chunks: seq<SetInfo>, ghost segs: seq<seq<nat>>, ghost l: seq<nat>, t: nat)
    returns (r: seq<SetInfo>, ghost rs: seq<seq<nat>>)
    requires Chunked(g, segs, l) && InfoOf(g, chunks, segs) && t in g.txns && t !in Elems(l) && t in g.feerate
    ensures Chunked(g, rs, l + [t]) && InfoOf(g, r, rs)
  {
    hide SegFee, SegRate, Elems, Distinct, FeeFrac.Lower, Building, Chunked;
    BuildStart(g, segs, l, t);
    var merged := SetInfo({t}, g.feerate[t]);
    ghost var c := [t];
    r, rs := chunks, segs;
    while r != [] && r[|r| - 1].feerate.Lower(merged.feerate)
      invariant Building(g, rs, c, l + [t]) && InfoOf(g, r, rs) && merged == SetInfo(Elems(c), SegFee(g, c))
    {
      BuildAbsorb(g, rs, c, l + [t]);
      merged, c := merged.Plus(r[|r| - 1]), rs[|rs| - 1] + c;
      r, rs := r[..|r| - 1], rs[..|rs| - 1];
    }
    BuildPush(g, rs, c, l + [t]);
    r, rs := r + [merged], rs + [c];
  }

  /** The chunks of a linearization. */
  method ChunkLinearizationInfo(g: Cluster, l: seq<nat>) returns (chunks: seq<SetInfo>, ghost segs: seq<seq<nat>>)
    requires g.Valid() && Distinct(l) && Elems(l) <= g.txns
    ensures Chunked(g, segs, l) && |chunks| == |segs|
    ensures forall i | 0 <= i < |chunks| :: chunks[i] == SetInfo(Elems(segs[i]), SegFee(g, segs[i]))
    ensures forall lam: real :: Peak(g, l, lam) == Height(g, segs, lam)
  {
    hide Cluster.FeeOf, Elems, Distinct, Flatten, SegFee, SegRate, Segmented;
    chunks, segs := [], [];
    ChunkedEmpty(g);
    for i := 0 to |l|
      invariant Chunked(g, segs, l[..i])
      invariant InfoOf(g, chunks, segs)
    {
      NextTx(g, l, i);
      chunks, segs := AppendTx(g, chunks, segs, l[..i], l[i]);
    }
    assert l[..|l|] == l;
    forall lam: real ensures Peak(g, l, lam) == Height(g, segs, lam) {
      ChunksGivePeak(g, segs, l, lam);
    }
  }
}
