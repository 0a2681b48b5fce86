/** In which order a forest is turned into a linearization, and what the chunks of that linearization are. */
module EmissionOrder {
  import opened FeeFracs
  import opened Clusters
  import opened Forests
  import opened ForestShape
  import opened ChunkSplits
  import opened Diagrams
  import ForestData
  import opened Improving
  import opened Optimality
  import opened Minimizing
  import opened MinimizeQueue
  import opened Linearizations
  import opened Chunking
  import opened Emission

  /** Chunk `a` comes after chunk `b`: lower feerate, then larger size, then the greater last transaction. */
  ghost predicate LaterChunk(g: Cluster, f: Forest, last: (nat, nat) -> bool, a: nat, b: nat)
    requires Fits(g, f)
  {
    a != b && exists x, y ::
      IsLast(f.Part(a), last, x) && IsLast(f.Part(b), last, y)
      && After(g.FeeOf(f.Part(a)), g.FeeOf(f.Part(b)), last(x, y))
  }

  /** The chunks whose dependencies are all in chunks of `done`. */
  ghost function Available(g: Cluster, f: Forest, done: set<nat>): set<nat> {
    ReadyChunks(f, done, Unmet(g, Covered(f, done)))
  }

  /** The `i`th segment holds the `i`th chunk, which comes after no other that is available then, and has the highest
      feerate of all that are left. */
  ghost predicate LaidAt(g: Cluster, f: Forest, last: (nat, nat) -> bool, chunks: seq<nat>, segs: seq<seq<nat>>, i: nat)
    requires Fits(g, f) && i < |chunks| == |segs|
  {
    var k, done := chunks[i], Elems(chunks[..i]);
    && k in f.chunk.Values && Elems(segs[i]) == f.Part(k) && segs[i] != [] && k in Available(g, f, done)
    && (forall j | j in Available(g, f, done) :: !LaterChunk(g, f, last, k, j))
    && (forall j | j in f.chunk.Values && j !in done :: ChunkRate(g, f, k) >= ChunkRate(g, f, j))
  }

  /** `l` consists of the chunks listed, one after the other, in the prescribed order. */
  ghost predicate Laid(g: Cluster, f: Forest, last: (nat, nat) -> bool, chunks: seq<nat>, segs: seq<seq<nat>>,
                       l: seq<nat>) {
    && Fits(g, f) && |chunks| == |segs| && Flatten(segs) == l && Distinct(chunks)
    && forall i | 0 <= i < |chunks| :: LaidAt(g, f, last, chunks, segs, i)
  }

  /** All chunks. */
  ghost predicate LaidOut(g: Cluster, f: Forest, last: (nat, nat) -> bool, chunks: seq<nat>, segs: seq<seq<nat>>,
                          l: seq<nat>) {
    Laid(g, f, last, chunks, segs, l) && Elems(chunks) == f.chunk.Values
  }

  lemma LaidNone(g: Cluster, f: Forest, last: (nat, nat) -> bool)
    requires Fits(g, f)
    ensures Laid(g, f, last, [], [], [])
  {
  }

  lemma LaidPush(g: Cluster, f: Forest, last: (nat, nat) -> bool, chunks: seq<nat>, segs: seq<seq<nat>>, l: seq<nat>,
                 k: nat, s: seq<nat>)
    requires Laid(g, f, last, chunks, segs, l) && k !in Elems(chunks)
    requires k in f.chunk.Values && Elems(s) == f.Part(k) && s != [] && k in Available(g, f, Elems(chunks))
    requires forall j | j in Available(g, f, Elems(chunks)) :: !LaterChunk(g, f, last, k, j)
    requires forall j | j in f.chunk.Values && j !in Elems(chunks) :: ChunkRate(g, f, k) >= ChunkRate(g, f, j)
    ensures Laid(g, f, last, chunks + [k], segs + [s], l + s) && Elems(chunks + [k]) == Elems(chunks) + {k}
  {
    hide Available, LaterChunk, ChunkRate, Forest.Part, Flatten;
    AppendElems(chunks, k);
    FlattenPush(segs, s);
    var chunks', segs' := chunks + [k], segs + [s];
    forall i | 0 <= i < |chunks'| ensures LaidAt(g, f, last, chunks', segs', i) {
      if i < |chunks| {
        assert LaidAt(g, f, last, chunks, segs, i);
        assert chunks'[..i] == chunks[..i];
      } else {
        assert chunks'[..i] == chunks;
      }
    }
  }

  /** The last transaction of a set is unique. */
  lemma LastUnique(g: Cluster, s: set<nat>, last: (nat, nat) -> bool, x: nat, y: nat)
    requires StrictOrder(g.txns, last) && s <= g.txns && IsLast(s, last, x) && IsLast(s, last, y)
    ensures x == y
  {
  }

  /** The chunk on top of the heap comes after no other that is available. */
  lemma TopOfHeap(g: Cluster, f: Forest, last: (nat, nat) -> bool, sets: seq<ForestData.SetInfo>, ready: map<nat, nat>,
                  k: nat, j: nat)
    requires Fits(g, f) && StrictOrder(g.txns, last) && k in ready && j in ready && k < |sets| && j < |sets|
    requires IsLast(f.Part(k), last, ready[k]) && IsLast(f.Part(j), last, ready[j])
    requires sets[k].feerate == g.FeeOf(f.Part(k)) && sets[j].feerate == g.FeeOf(f.Part(j))
    requires !ChunkAfter(sets, last, ready, k, j)
    ensures !LaterChunk(g, f, last, k, j)
  {
    hide Cluster.FeeOf, After, StrictOrder, IsLast;
    forall x, y | IsLast(f.Part(k), last, x) && IsLast(f.Part(j), last, y) ensures x == ready[k] && y == ready[j] {
      LastUnique(g, f.Part(k), last, x, ready[k]);
      LastUnique(g, f.Part(j), last, y, ready[j]);
    }
  }

  // ---- The chunks of the result

  /** A prefix of a segment is closed under the parents it has in its chunk. */
  lemma PrefixClosedIn(g: Cluster, s: seq<nat>, k: nat)
    requires ParentsFirst(g, s) && k <= |s|
    ensures ClosedIn(g, Elems(s), Elems(s[..k]))
  {
    forall d | d in g.deps && d.child in Elems(s[..k]) && d.parent in Elems(s) ensures d.parent in Elems(s[..k]) {
      var i :| 0 <= i < k && s[i] == d.child;
      var j :| 0 <= j < |s| && s[j] == d.parent;
      assert d == Dep(s[j], s[i]);
      assert j <= i;
      assert s[..k][j] == d.parent;
    }
  }

  /** A proper part of an optimal and minimal chunk that contains its own in-chunk parents has lower feerate. */
  lemma ProperPartLower(g: Cluster, f: Forest, i: nat, s: set<nat>)
    requires Fits(g, f) && f.Valid(g) && i in f.chunk.Values && ChunkOptimal(g, f, i) && MinimalChunk(g, f.Part(i))
    requires ClosedIn(g, f.Part(i), s) && s != {} && s != f.Part(i)
    ensures s <= g.txns && f.Part(i) != {} && g.RateOf(s) < ChunkRate(g, f, i)
  {
    hide Forest.Valid, Cluster.GainOf, Cluster.RateOf, Chunk, NoBetterTop, ChunkOptimal;
    var c, a := f.Part(i), Inside(f.Active(), f.Part(i));
    ChunkAlone(g, f, i);
    ChunkNoBetterTop(g, f, i);
    ActiveClosed(g, f, i, s);
    NoBetterPart(g, a, c, TopsOf(f, i), s);
    assert !EqualPart(g, c, s);
    g.GainOfSign(s, g.RateOf(c));
  }

  lemma ActiveClosed(g: Cluster, f: Forest, i: nat, s: set<nat>)
    requires f.Valid(g) && ClosedIn(g, f.Part(i), s)
    ensures UpClosed(Inside(f.Active(), f.Part(i)), s)
  {
    hide Closed, Connected, IsTop;
  }

  lemma {:induction false} SegParentsFirst(g: Cluster, segs: seq<seq<nat>>, i: nat)
    requires ParentsFirst(g, Flatten(segs)) && i < |segs|
    ensures ParentsFirst(g, segs[i])
    decreases |segs|
  {
    var n := |segs| - 1;
    var a, b := Flatten(segs[..n]), segs[n];
    if i < n {
      assert forall j | 0 <= j < |a| :: a[j] == (a + b)[j];
      SegParentsFirst(g, segs[..n], i);
    } else {
      assert forall j | 0 <= j < |b| :: b[j] == (a + b)[|a| + j];
    }
  }

  lemma SegTight(g: Cluster, f: Forest, i: nat, s: seq<nat>)
    requires Fits(g, f) && f.Valid(g) && i in f.chunk.Values && ChunkOptimal(g, f, i) && MinimalChunk(g, f.Part(i))
    requires IsSeg(g, s) && Elems(s) == f.Part(i) && ParentsFirst(g, s)
    ensures Tight(g, s)
  {
    hide Forest.Valid, ChunkOptimal, MinimalChunk, Cluster.RateOf, SegRate, SegFee, Forest.Part;
    forall k | 0 < k < |s| ensures SegRate(g, s[..k]) < SegRate(g, s) {
      PrefixClosedIn(g, s, k);
      PrefixElems(s, k);
      assert s[k] in Elems(s) && s[k] !in Elems(s[..k]);
      SegFacts(g, s);
      SegFacts(g, s[..k]);
      assert Elems(s[..k]) != f.Part(i);
      ProperPartLower(g, f, i, Elems(s[..k]));
    }
  }

  /** From an optimal and minimal forest, the chunks of the linearization are exactly the chunks of the forest. */
  lemma MinimalIsChunked(g: Cluster, f: Forest, last: (nat, nat) -> bool, chunks: seq<nat>, segs: seq<seq<nat>>,
                         l: seq<nat>)
    requires LaidOut(g, f, last, chunks, segs, l) && IsLinearization(g, l) && f.Valid(g)
    requires NothingImprovable(g, f) && AllMinimal(g, f)
    ensures Chunked(g, segs, l) && |segs| == |f.chunk.Values|
  {
    hide Forest.Valid, MinimalChunk, Cluster.RateOf, SegRate, Forest.Part, LaterChunk, Available, Tight, Improvable,
         Flatten;
    assert Segmented(g, segs) by {
      forall i | 0 <= i < |segs| ensures segs[i] != [] { assert LaidAt(g, f, last, chunks, segs, i); }
    }
    forall i | 0 <= i < |segs| ensures Tight(g, segs[i]) {
      assert LaidAt(g, f, last, chunks, segs, i);
      SegmentedAt(g, segs, i);
      SegParentsFirst(g, segs, i);
      SegTight(g, f, chunks[i], segs[i]);
    }
    forall i, j | 0 <= i < j < |segs| ensures SegRate(g, segs[i]) >= SegRate(g, segs[j]) {
      LaidRates(g, f, last, chunks, segs, l, i, j);
    }
    DistinctCount(chunks);
  }

  lemma LaidRates(g: Cluster, f: Forest, last: (nat, nat) -> bool, chunks: seq<nat>, segs: seq<seq<nat>>, l: seq<nat>,
                  i: nat, j: nat)
    requires Laid(g, f, last, chunks, segs, l) && Segmented(g, segs) && i < j < |segs|
    ensures SegRate(g, segs[i]) >= SegRate(g, segs[j])
  {
    hide LaterChunk, Available, SegRate, Forest.Part, Cluster.RateOf, Flatten;
    assert LaidAt(g, f, last, chunks, segs, i) && LaidAt(g, f, last, chunks, segs, j);
    SegmentedAt(g, segs, i);
    SegmentedAt(g, segs, j);
    SegFacts(g, segs[i]);
    SegFacts(g, segs[j]);
    assert chunks[j] !in Elems(chunks[..i]);
  }

  lemma {:induction false} DistinctCount(l: seq<nat>)
    requires Distinct(l)
    ensures |Elems(l)| == |l|
    decreases |l|
  {
    if l != [] {
      var n := |l| - 1;
      DistinctCount(l[..n]);
      assert l == l[..n] + [l[n]];
      AppendElems(l[..n], l[n]);
      assert l[n] !in Elems(l[..n]);
    } else {
      assert Elems(l) == {};
    }
  }

  // ---- Ties

  /** `a` may come before `b`: it pays more per size, or the same with less size, or the same with the same size and no
      later place `x` than `y` in the fallback order. */
  ghost predicate NotLater(a: FeeFrac, b: FeeFrac, last: (nat, nat) -> bool, x: nat, y: nat)
    requires a.size > 0 && b.size > 0
  {
    Rate(a) > Rate(b) || (Rate(a) == Rate(b) && (a.size < b.size || (a.size == b.size && (x == y || last(y, x)))))
  }

  lemma NotAfter(a: FeeFrac, b: FeeFrac, last: (nat, nat) -> bool, x: nat, y: nat)
    requires a.size > 0 && b.size > 0 && !After(a, b, last(x, y)) && (x == y || last(x, y) || last(y, x))
    ensures NotLater(a, b, last, x, y)
  {
    hide Rate;
    CompareIsRate(a, b);
  }

  /** A chunk put out is not later than any other that is available then. */
  lemma ChunkTies(g: Cluster, f: Forest, last: (nat, nat) -> bool, chunks: seq<nat>, segs: seq<seq<nat>>, l: seq<nat>,
                  i: nat, j: nat, x: nat, y: nat)
    requires LaidOut(g, f, last, chunks, segs, l) && StrictOrder(g.txns, last) && i < |chunks|
    requires j in Available(g, f, Elems(chunks[..i])) && j != chunks[i]
    requires IsLast(f.Part(chunks[i]), last, x) && IsLast(f.Part(j), last, y)
    ensures var a, b := g.FeeOf(f.Part(chunks[i])), g.FeeOf(f.Part(j));
            a.size > 0 && b.size > 0 && NotLater(a, b, last, x, y)
  {
    hide Available, After, NotLater, Flatten;
    assert LaidAt(g, f, last, chunks, segs, i);
    var k := chunks[i];
    g.SizePositive(f.Part(k));
    g.SizePositive(f.Part(j));
    assert !After(g.FeeOf(f.Part(k)), g.FeeOf(f.Part(j)), last(x, y));
    NotAfter(g.FeeOf(f.Part(k)), g.FeeOf(f.Part(j)), last, x, y);
  }

  /** A transaction put out is not later than any other of its chunk that is ready then. */
  lemma TxTies(g: Cluster, f: Forest, last: (nat, nat) -> bool, l: seq<nat>, j: nat, t: nat)
    requires g.Valid() && StrictOrder(g.txns, last) && TxGreedy(g, f, last, l) && Elems(l) <= g.txns && j < |l|
    requires l[j] in f.chunk && t in g.txns && t in f.Part(f.chunk[l[j]]) && t !in Elems(l[..j]) && t != l[j]
    requires forall d | d in g.deps && d.child == t :: d.parent in Elems(l[..j])
    ensures l[j] in g.feerate && t in g.feerate && g.feerate[l[j]].size > 0 && g.feerate[t].size > 0
    ensures NotLater(g.feerate[l[j]], g.feerate[t], last, l[j], t)
  {
    hide After, NotLater;
    var e := Elems(l[..j]);
    assert TxGreedyAt(g, f, last, l, j);
    assert In(Unmet(g, e), t) == {};
    assert t in ReadyTxs(f, e, Unmet(g, e), f.chunk[l[j]]);
    assert l[j] in Elems(l);
    NotAfter(g.feerate[l[j]], g.feerate[t], last, l[j], t);
  }
}
