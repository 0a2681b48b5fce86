/** The linked lists in which post-linearization keeps its groups: the transactions of a group
    point backward to one another, the tails of the groups form a ring through a sentinel. */
module PostEntries {
  import opened FeeFracs
  import opened Clusters
  import opened Linearizations
  import opened Chunking
  import opened Ancestry
  import opened DepGraphs
  import opened PostGroups

  const SENTINEL: nat := 0
  const NO_PREV_TX: nat := 0

  datatype TxEntry = TxEntry(prevTx: nat, firstTx: nat, prevGroup: nat, group: set<nat>, deps: set<nat>,
                             feerate: FeeFrac)

  /** The index of the entry of the last transaction. */
  ghost function TailOf(s: seq<nat>): nat
    requires s != []
  {
    s[|s| - 1] + 1
  }

  // ---- The ring of groups

  ghost function LastOf(ts: seq<nat>): nat {
    if ts == [] then SENTINEL else ts[|ts| - 1]
  }

  ghost function BeforeAt(ts: seq<nat>, i: nat): nat
    requires i <= |ts|
  {
    if i == 0 then SENTINEL else ts[i - 1]
  }

  /** The sentinel points to the last of `ts`, and each of them to the one before it. */
  ghost predicate Ring(es: seq<TxEntry>, ts: seq<nat>) {
    && es != [] && es[SENTINEL].prevGroup == LastOf(ts)
    && Distinct(ts)
    && forall i | 0 <= i < |ts| :: 0 < ts[i] < |es| && es[ts[i]].prevGroup == BeforeAt(ts, i)
  }

  lemma RingAppend(es: seq<TxEntry>, ts: seq<nat>, c: nat, es': seq<TxEntry>)
    requires Ring(es, ts) && 0 < c < |es| && c !in ts && |es'| == |es|
    requires es'[c].prevGroup == es[SENTINEL].prevGroup && es'[SENTINEL].prevGroup == c
    requires forall i | 0 < i < |es| && i != c :: es'[i].prevGroup == es[i].prevGroup
    ensures Ring(es', ts + [c])
  {
    var ts' := ts + [c];
    AppendElems(ts, c);
    hide Distinct;
    forall i | 0 <= i < |ts'| ensures 0 < ts'[i] < |es'| && es'[ts'[i]].prevGroup == BeforeAt(ts', i) {
      if i < |ts| {
        assert ts'[i] == ts[i] && ts[i] in ts;
        assert BeforeAt(ts', i) == BeforeAt(ts, i);
      }
    }
  }

  ghost function NextOf(b: seq<nat>): nat {
    if b == [] then SENTINEL else b[0]
  }

  lemma RingAt(es: seq<TxEntry>, a: seq<nat>, c: nat, b: seq<nat>)
    requires Ring(es, a + [c] + b)
    ensures 0 < c < |es| && es[c].prevGroup == LastOf(a)
    ensures NextOf(b) < |es| && es[NextOf(b)].prevGroup == c && LastOf(a) < |es|
    ensures LastOf(a) == SENTINEL <==> a == []
  {
    var ts := a + [c] + b;
    assert ts[|a|] == c;
    assert a != [] ==> ts[|a| - 1] == LastOf(a);
    assert b != [] ==> ts[|a| + 1] == b[0];
  }

  lemma SwapDistinct(a: seq<nat>, p: nat, c: nat, b: seq<nat>)
    requires Distinct(a + [p] + [c] + b)
    ensures Distinct(a + [c] + [p] + b) && Distinct(a + [c] + b)
  {
    var ts := a + [p] + [c] + b;
    SwapElems(ts, |a|, |a| + 1);
    assert ts[|a| := ts[|a| + 1]][|a| + 1 := ts[|a|]] == a + [c] + [p] + b;
    var td := a + [c] + b;
    assert forall i | 0 <= i < |td| :: td[i] == ts[if i < |a| then i else i + 1];
  }

  /** Exchanging two neighbours. */
  lemma RingSwap(es: seq<TxEntry>, a: seq<nat>, p: nat, c: nat, b: seq<nat>, es': seq<TxEntry>)
    requires Ring(es, a + [p] + [c] + b) && |es'| == |es|
    requires forall i | 0 <= i < |es| ::
               es'[i].prevGroup ==
                 if i == c then LastOf(a) else if i == p then c else if i == NextOf(b) then p else es[i].prevGroup
    ensures Ring(es', a + [c] + [p] + b)
  {
    var ts, ts' := a + [p] + [c] + b, a + [c] + [p] + b;
    assert Distinct(ts);
    SwapDistinct(a, p, c, b);
    RingSwapEnds(es, a, p, c, b, es');
    forall i | 0 <= i < |ts'| ensures 0 < ts'[i] < |es'| && es'[ts'[i]].prevGroup == BeforeAt(ts', i) {
      if i < |a| || i >= |a| + 2 {
        RingSwapAt(es, a, p, c, b, es', i);
      }
    }
  }

  lemma RingSwapEnds(es: seq<TxEntry>, a: seq<nat>, p: nat, c: nat, b: seq<nat>, es': seq<TxEntry>)
    requires Ring(es, a + [p] + [c] + b) && |es'| == |es|
    requires forall i | 0 <= i < |es| ::
               es'[i].prevGroup ==
                 if i == c then LastOf(a) else if i == p then c else if i == NextOf(b) then p else es[i].prevGroup
    ensures 0 < p < |es| && 0 < c < |es| && es'[c].prevGroup == LastOf(a) && es'[p].prevGroup == c
    ensures es'[SENTINEL].prevGroup == LastOf(a + [c] + [p] + b)
  {
    var ts := a + [p] + [c] + b;
    assert ts[|a|] == p && ts[|a| + 1] == c;
    assert b != [] ==> ts[|a| + 2] == b[0];
    assert b != [] ==> LastOf(ts) == LastOf(b) == LastOf(a + [c] + [p] + b);
  }

  lemma RingSwapAt(es: seq<TxEntry>, a: seq<nat>, p: nat, c: nat, b: seq<nat>, es': seq<TxEntry>, i: nat)
    requires Ring(es, a + [p] + [c] + b) && |es'| == |es| && i < |a| + |b| + 2 && (i < |a| || i >= |a| + 2)
    requires forall i | 0 <= i < |es| ::
               es'[i].prevGroup ==
                 if i == c then LastOf(a) else if i == p then c else if i == NextOf(b) then p else es[i].prevGroup
    ensures var ts' := a + [c] + [p] + b; 0 < ts'[i] < |es'| && es'[ts'[i]].prevGroup == BeforeAt(ts', i)
  {
    var ts, ts' := a + [p] + [c] + b, a + [c] + [p] + b;
    var n := |a|;
    assert ts[n] == p && ts[n + 1] == c;
    assert ts'[i] == ts[i] && ts[i] != p && ts[i] != c;
    if i == n + 2 {
      assert ts[i] == b[0] == NextOf(b);
    } else {
      assert b != [] ==> ts[n + 2] == b[0];
      assert ts[i] != NextOf(b);
      assert i > 0 ==> ts'[i - 1] == ts[i - 1];
    }
  }

  /** Leaving one out. */
  lemma RingDrop(es: seq<TxEntry>, a: seq<nat>, p: nat, c: nat, b: seq<nat>, es': seq<TxEntry>)
    requires Ring(es, a + [p] + [c] + b) && |es'| == |es|
    requires forall i | 0 <= i < |es| :: es'[i].prevGroup == if i == c then LastOf(a) else es[i].prevGroup
    ensures Ring(es', a + [c] + b)
  {
    var ts, ts' := a + [p] + [c] + b, a + [c] + b;
    var n := |a|;
    SwapDistinct(a, p, c, b);
    assert ts[n] == p && ts[n + 1] == c;
    forall i | 0 <= i < |ts'| ensures 0 < ts'[i] < |es'| && es'[ts'[i]].prevGroup == BeforeAt(ts', i) {
      if i < n {
        assert ts'[i] == a[i] == ts[i];
      } else if i > n {
        assert ts'[i] == b[i - n - 1] == ts[i + 1];
        assert i > n + 1 ==> ts'[i - 1] == b[i - n - 2] == ts[i];
      }
    }
  }

  // ---- The groups

  ghost predicate Chained(es: seq<TxEntry>, s: seq<nat>) {
    forall j | 0 <= j < |s| :: s[j] + 1 < |es| && es[s[j] + 1].prevTx == if j == 0 then NO_PREV_TX else s[j - 1] + 1
  }

  /** The entry of the last transaction of `s` describes the group. */
  ghost predicate Described(es: seq<TxEntry>, up: map<nat, set<nat>>, g: Cluster, s: seq<nat>) {
    && s != [] && Chained(es, s)
    && es[TailOf(s)].firstTx == s[0] + 1 && es[TailOf(s)].group == Elems(s)
    && es[TailOf(s)].deps == Above(up, Elems(s)) && es[TailOf(s)].feerate == SegFee(g, s)
  }

  lemma DescribedSame(es: seq<TxEntry>, es': seq<TxEntry>, up: map<nat, set<nat>>, g: Cluster, s: seq<nat>)
    requires Described(es, up, g, s) && |es'| == |es|
    requires forall t | t in s && t + 1 < |es| :: es'[t + 1] == es[t + 1].(prevGroup := es'[t + 1].prevGroup)
    ensures Described(es', up, g, s)
  {
    hide Above, SegFee;
    assert s[|s| - 1] in s;
    forall j | 0 <= j < |s| ensures es'[s[j] + 1].prevTx == es[s[j] + 1].prevTx {
      assert s[j] in s;
    }
  }

  /** Concatenating the chains of two groups, the second one's tail taking over. */
  lemma DescribedMerge(es: seq<TxEntry>, up: map<nat, set<nat>>, g: Cluster, p: seq<nat>, c: seq<nat>,
                       es': seq<TxEntry>)
    requires Described(es, up, g, p) && Described(es, up, g, c) && IsSeg(g, p) && IsSeg(g, c) && Elems(p) !! Elems(c)
    requires |es'| == |es|
    requires var ec, ep := es[TailOf(c)], es[TailOf(p)];
             var e' := es'[TailOf(c)];
             && e'.group == ec.group + ep.group && e'.deps == ec.deps + ep.deps
             && e'.feerate == ec.feerate.Plus(ep.feerate) && e'.firstTx == ep.firstTx
    requires es'[c[0] + 1].prevTx == TailOf(p)
    requires forall i | 0 <= i < |es| && i != c[0] + 1 :: es'[i].prevTx == es[i].prevTx
    ensures Described(es', up, g, p + c)
  {
    hide Above, SegFee, Elems, Distinct, Cluster.Valid;
    SegConcat(g, p, c);
    ConcatElems(p, c);
    AboveUnion(up, Elems(p), Elems(c));
    MergeChain(es, p, c, es');
    assert (p + c)[0] == p[0];
  }

  lemma AboveUnion(up: map<nat, set<nat>>, a: set<nat>, b: set<nat>)
    ensures Above(up, a + b) == Above(up, a) + Above(up, b)
  {
  }

  lemma MergeChain(es: seq<TxEntry>, p: seq<nat>, c: seq<nat>, es': seq<TxEntry>)
    requires p != [] && c != [] && Distinct(p + c) && Chained(es, p) && Chained(es, c) && |es'| == |es|
    requires es'[c[0] + 1].prevTx == TailOf(p)
    requires forall i | 0 <= i < |es| && i != c[0] + 1 :: es'[i].prevTx == es[i].prevTx
    ensures Chained(es', p + c)
  {
    var s := p + c;
    forall j | 0 <= j < |s|
      ensures s[j] + 1 < |es'| && es'[s[j] + 1].prevTx == if j == 0 then NO_PREV_TX else s[j - 1] + 1
    {
      assert s[|p|] == c[0];
      if j < |p| {
        assert s[j] == p[j];
        assert s[j] != s[|p|];
      } else {
        assert s[j] == c[j - |p|];
        assert j > |p| ==> s[j] != s[|p|] && s[j - 1] == c[j - |p| - 1];
      }
    }
  }

  // ---- The whole list

  ghost function Tails(segs: seq<seq<nat>>): seq<nat>
    requires forall i | 0 <= i < |segs| :: segs[i] != []
  {
    seq(|segs|, i requires 0 <= i < |segs| => TailOf(segs[i]))
  }

  ghost predicate NonEmpty(segs: seq<seq<nat>>) {
    forall i | 0 <= i < |segs| :: segs[i] != []
  }

  ghost predicate AllDescribed(es: seq<TxEntry>, up: map<nat, set<nat>>, g: Cluster, segs: seq<seq<nat>>) {
    forall i | 0 <= i < |segs| :: Described(es, up, g, segs[i])
  }

  ghost predicate Listed(es: seq<TxEntry>, up: map<nat, set<nat>>, g: Cluster, segs: seq<seq<nat>>) {
    NonEmpty(segs) && AllDescribed(es, up, g, segs) && Ring(es, Tails(segs)) && es[SENTINEL].feerate == EMPTY
  }

  /** The groups `a`, then the moving group `c`, then the groups `b` it has passed. */
  ghost predicate Moving(es: seq<TxEntry>, up: map<nat, set<nat>>, g: Cluster, a: seq<seq<nat>>, c: seq<nat>,
                         b: seq<seq<nat>>) {
    && Listed(es, up, g, a + [c] + b) && Segmented(g, a + [c] + b)
    && Ready(g, a, c) && g.AncestorClosed(Elems(Flatten(a)) + Elems(c))
  }

  lemma TailsConcat(a: seq<seq<nat>>, b: seq<seq<nat>>)
    requires NonEmpty(a) && NonEmpty(b)
    ensures NonEmpty(a + b) && Tails(a + b) == Tails(a) + Tails(b)
  {
  }

  lemma SplitNonEmpty(a: seq<seq<nat>>, b: seq<seq<nat>>)
    requires NonEmpty(a + b)
    ensures NonEmpty(a) && NonEmpty(b)
  {
    assert forall i | 0 <= i < |a| :: a[i] == (a + b)[i];
    assert forall i | 0 <= i < |b| :: b[i] == (a + b)[|a| + i];
  }

  lemma ThreeTails(a: seq<seq<nat>>, c: seq<nat>, b: seq<seq<nat>>)
    requires NonEmpty(a + [c] + b)
    ensures NonEmpty(a) && NonEmpty(b) && c != [] && Tails(a + [c] + b) == Tails(a) + [TailOf(c)] + Tails(b)
  {
    SplitNonEmpty(a + [c], b);
    SplitNonEmpty(a, [c]);
    assert [c][0] != [];
    TailsConcat(a, [c]);
    TailsConcat(a + [c], b);
  }

  lemma FourTails(a: seq<seq<nat>>, p: seq<nat>, c: seq<nat>, b: seq<seq<nat>>)
    requires NonEmpty(a + [p] + [c] + b)
    ensures NonEmpty(a) && NonEmpty(b) && p != [] && c != []
    ensures Tails(a + [p] + [c] + b) == Tails(a) + [TailOf(p)] + [TailOf(c)] + Tails(b)
  {
    ThreeTails(a + [p], c, b);
    SplitNonEmpty(a, [p]);
    assert [p][0] != [];
    TailsConcat(a, [p]);
  }

  /** Where the moving group stands in the ring. */
  lemma MovingAt(es: seq<TxEntry>, up: map<nat, set<nat>>, g: Cluster, a: seq<seq<nat>>, c: seq<nat>, b: seq<seq<nat>>)
    requires Moving(es, up, g, a, c, b)
    ensures NonEmpty(a) && NonEmpty(b) && c != [] && TailOf(c) < |es|
    ensures es[TailOf(c)].prevGroup == LastOf(Tails(a)) < |es| && NextOf(Tails(b)) < |es|
    ensures es[TailOf(c)].feerate == SegFee(g, c) && es[TailOf(c)].deps == Above(up, Elems(c))
    ensures a == [] ==> LastOf(Tails(a)) == SENTINEL && es[SENTINEL].feerate == EMPTY
    ensures a != [] ==> LastOf(Tails(a)) == TailOf(a[|a| - 1]) && es[LastOf(Tails(a))].feerate == SegFee(g, a[|a| - 1])
    ensures a != [] ==> es[LastOf(Tails(a))].group == Elems(a[|a| - 1])
  {
    hide SegFee, Above, Elems, Ready, Segmented, Cluster.AncestorClosed;
    ThreeTails(a, c, b);
    RingAt(es, Tails(a), TailOf(c), Tails(b));
    assert (a + [c] + b)[|a|] == c;
    if a != [] { assert (a + [c] + b)[|a| - 1] == a[|a| - 1]; }
  }

  /** With everything before it in place, a group overlaps the ancestors of the next one exactly
      if that one depends on it directly. */
  lemma OverlapIsDep(up: map<nat, set<nat>>, fees: map<nat, FeeFrac>, a: seq<nat>, p: seq<nat>, c: seq<nat>)
    requires IsOrder(up) && IsAcyclic(up) && ParentsFirst(ClusterOf(up, fees), a + p + c)
    requires ClusterOf(up, fees).AncestorClosed(Elems(a + p) + Elems(c)) && Elems(a + p) !! Elems(c)
             && Elems(a) !! Elems(p)
    ensures Above(up, Elems(c)) !! Elems(p) <==> !DependsOn(ClusterOf(up, fees), c, p)
    ensures !DependsOn(ClusterOf(up, fees), c, p) ==> ClusterOf(up, fees).AncestorClosed(Elems(a) + Elems(c))
  {
    var g := ClusterOf(up, fees);
    ConcatElems(a, p);
    LastOrder(g, a, p, c);
    ConcatOrder(g, a + p, c);
    hide ClusterOf, ParentsFirst, IsOrder, IsAcyclic;
    if DependsOn(g, c, p) {
      DependsOverlaps(up, fees, c, p);
    } else {
      WithoutClosed(g, a, p, c);
      assert Elems(a) + Elems(c) <= up.Keys by { TxnsAre(up, fees); }
      ClosedIff(up, fees, Elems(a) + Elems(c));
    }
  }

  lemma TxnsAre(up: map<nat, set<nat>>, fees: map<nat, FeeFrac>)
    ensures ClusterOf(up, fees).txns == up.Keys
  {
  }

  lemma WithoutClosed(g: Cluster, a: seq<nat>, p: seq<nat>, c: seq<nat>)
    requires g.AncestorClosed(Elems(a) + Elems(p) + Elems(c)) && !DependsOn(g, c, p) && NoneEarlier(g, a, p)
    ensures g.AncestorClosed(Elems(a) + Elems(c))
  {
  }

  lemma DependsOverlaps(up: map<nat, set<nat>>, fees: map<nat, FeeFrac>, c: seq<nat>, p: seq<nat>)
    requires DependsOn(ClusterOf(up, fees), c, p)
    ensures !(Above(up, Elems(c)) !! Elems(p))
  {
    var d :| d in ClusterOf(up, fees).deps && d.child in c && d.parent in p;
    ReducedIsAncestor(up, fees, d);
    assert d.parent in Above(up, Elems(c)) && d.parent in Elems(p);
  }
}
