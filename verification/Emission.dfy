/** Turning a forest into a linearization: chunks by feerate, transactions within chunks by
    feerate, both respecting dependencies. */
module Emission {
  import opened FeeFracs
  import opened Clusters
  import opened Forests
  import opened ForestData
  import opened Diagrams
  import opened Merging
  import opened Minimizing
  import opened Linearizations

  // ---- Priorities

  /** The first element of a non-empty heap: one that comes after no other. */
  method Front<T>(ready: set<T>, after: (T, T) -> bool) returns (x: T)
    requires ready != {}
    requires forall a | a in ready :: !after(a, a)
    requires forall a, b, c | a in ready && b in ready && c in ready && after(a, b) && after(b, c) :: after(a, c)
    ensures x in ready && forall y | y in ready :: !after(x, y)
  {
    x :| x in ready;
    var todo := ready;
    while todo != {}
      invariant todo <= ready && x in ready
      invariant forall y | y in ready - todo :: !after(x, y)
      decreases |todo|
    {
      var y :| y in todo;
      if after(x, y) {
        x := y;
      }
      todo := todo - {y};
    }
  }

  /** Lower feerate, then larger size, then the fallback order (`last(a, b)`: `a` sorts after `b`). */
  predicate After(fa: FeeFrac, fb: FeeFrac, tie: bool) {
    || fa.Lower(fb)
    || (fa.SameRatio(fb) && (fa.size > fb.size || (fa.size == fb.size && tie)))
  }

  lemma AfterTransitive(fa: FeeFrac, fb: FeeFrac, fc: FeeFrac, ab: bool, bc: bool, ac: bool)
    requires fa.size > 0 && fb.size > 0 && fc.size > 0 && (ab && bc ==> ac)
    requires After(fa, fb, ab) && After(fb, fc, bc)
    ensures After(fa, fc, ac)
  {
    hide Rate;
    CompareIsRate(fa, fb);
    CompareIsRate(fb, fc);
    CompareIsRate(fa, fc);
  }

  /** `last` is a strict total order on `s`. */
  ghost predicate StrictOrder(s: set<nat>, last: (nat, nat) -> bool) {
    && (forall a | a in s :: !last(a, a))
    && (forall a, b, c | a in s && b in s && c in s && last(a, b) && last(b, c) :: last(a, c))
    && (forall a, b | a in s && b in s && a != b :: last(a, b) || last(b, a))
  }

  predicate TxAfter(g: Cluster, last: (nat, nat) -> bool, a: nat, b: nat) {
    a in g.feerate && b in g.feerate && a != b && After(g.feerate[a], g.feerate[b], last(a, b))
  }

  lemma TxAfterTransitive(g: Cluster, last: (nat, nat) -> bool, a: nat, b: nat, c: nat)
    requires g.Valid() && StrictOrder(g.txns, last) && TxAfter(g, last, a, b) && TxAfter(g, last, b, c)
    ensures TxAfter(g, last, a, c)
  {
    hide After;
    AfterTransitive(g.feerate[a], g.feerate[b], g.feerate[c], last(a, b), last(b, c), last(a, c));
    if a == c {
      AfterIrreflexive(g.feerate[a]);
    }
  }

  lemma AfterIrreflexive(f: FeeFrac)
    ensures !After(f, f, false)
  {
  }

  // ---- Unmet dependencies

  /** Dependencies on transactions outside `e`. */
  ghost function Unmet(g: Cluster, e: set<nat>): set<Dep> {
    set d | d in g.deps && d.parent !in e
  }

  ghost function In(u: set<Dep>, t: nat): set<Dep> {
    set d | d in u && d.child == t
  }

  /** Dependencies of chunk `i` on other chunks. */
  ghost function Into(f: Forest, u: set<Dep>, i: nat): set<Dep> {
    set d | d in u && Between(f, d) && f.chunk[d.child] == i
  }

  /** The counters hold the numbers of unmet dependencies. */
  ghost predicate Counted(g: Cluster, f: Forest, u: set<Dep>, txDeps: map<nat, nat>, chunkDeps: map<nat, nat>) {
    && txDeps.Keys == g.txns && chunkDeps.Keys == f.chunk.Values
    && (forall t | t in txDeps :: txDeps[t] == |In(u, t)|)
    && (forall i | i in chunkDeps :: chunkDeps[i] == |Into(f, u, i)|)
  }

  /** Transactions of chunk `k` that can be included. */
  ghost function ReadyTxs(f: Forest, e: set<nat>, u: set<Dep>, k: nat): set<nat> {
    set t | t in f.Part(k) && t !in e && In(u, t) == {}
  }

  /** Chunks that can be included. */
  ghost function ReadyChunks(f: Forest, done: set<nat>, u: set<Dep>): set<nat> {
    set i | i in f.chunk.Values && i !in done && Into(f, u, i) == {}
  }

  lemma InWithout(u: set<Dep>, d: Dep, t: nat)
    ensures In(u - {d}, t) == if d.child == t then In(u, t) - {d} else In(u, t)
  {
  }

  lemma IntoWithout(f: Forest, u: set<Dep>, d: Dep, i: nat)
    ensures Into(f, u - {d}, i) == if Between(f, d) && f.chunk[d.child] == i then Into(f, u, i) - {d} else Into(f, u, i)
  {
  }

  /** Meeting one dependency decrements the counters of its child and of its child's chunk. */
  lemma MeetCounted(g: Cluster, f: Forest, u: set<Dep>, d: Dep, txDeps: map<nat, nat>, chunkDeps: map<nat, nat>)
    requires Fits(g, f) && Counted(g, f, u, txDeps, chunkDeps) && d in u && u <= g.deps
    ensures d.child in txDeps && d.parent in f.chunk && d.child in f.chunk && f.chunk[d.child] in chunkDeps
            && txDeps[d.child] > 0
    ensures f.chunk[d.parent] != f.chunk[d.child] ==> chunkDeps[f.chunk[d.child]] > 0
    ensures var i := f.chunk[d.child];
            var chunkDeps' := if f.chunk[d.parent] != i then chunkDeps[i := chunkDeps[i] - 1] else chunkDeps;
            Counted(g, f, u - {d}, txDeps[d.child := txDeps[d.child] - 1], chunkDeps')
  {
    hide In, Into;
    var i := f.chunk[d.child];
    InMember(u, d);
    if Between(f, d) { IntoMember(f, u, d); }
    forall t | t in txDeps ensures |In(u - {d}, t)| == if t == d.child then |In(u, t)| - 1 else |In(u, t)| {
      InWithout(u, d, t);
    }
    forall j | j in chunkDeps
      ensures |Into(f, u - {d}, j)| == if Between(f, d) && j == i then |Into(f, u, j)| - 1 else |Into(f, u, j)|
    {
      IntoWithout(f, u, d, j);
    }
  }

  lemma InMember(u: set<Dep>, d: Dep)
    requires d in u
    ensures d in In(u, d.child)
  {
  }

  lemma IntoMember(f: Forest, u: set<Dep>, d: Dep)
    requires d in u && Between(f, d)
    ensures d in Into(f, u, f.chunk[d.child])
  {
  }

  lemma MeetReadyTxs(f: Forest, e: set<nat>, u: set<Dep>, d: Dep, k: nat)
    ensures ReadyTxs(f, e, u - {d}, k) ==
            if d.child in f.Part(k) && d.child !in e && In(u - {d}, d.child) == {} then ReadyTxs(f, e, u, k) + {d.child}
            else ReadyTxs(f, e, u, k)
  {
    hide In, Forest.Part;
    forall t ensures In(u - {d}, t) == if d.child == t then In(u, t) - {d} else In(u, t) {
      InWithout(u, d, t);
    }
  }

  lemma MeetReadyChunks(f: Forest, done: set<nat>, u: set<Dep>, d: Dep)
    requires d.child in f.chunk
    ensures var i := f.chunk[d.child];
            ReadyChunks(f, done, u - {d}) ==
            if i !in done && Into(f, u - {d}, i) == {} then ReadyChunks(f, done, u) + {i} else ReadyChunks(f, done, u)
  {
    hide Into;
    forall i
      ensures Into(f, u - {d}, i) ==
              if Between(f, d) && f.chunk[d.child] == i then Into(f, u, i) - {d} else Into(f, u, i)
    {
      IntoWithout(f, u, d, i);
    }
  }

  /** State while transactions of chunk `k` are being included: `e` is included already, `u` are
      the unmet dependencies, `done` the chunks started so far. */
  ghost predicate Sorting(g: Cluster, f: Forest, done: set<nat>, k: nat, e: set<nat>, u: set<Dep>,
                          txDeps: map<nat, nat>, chunkDeps: map<nat, nat>, readyTx: set<nat>, readyChunks: set<nat>) {
    && Fits(g, f) && u <= g.deps
    && Counted(g, f, u, txDeps, chunkDeps)
    && readyTx == ReadyTxs(f, e, u, k)
    && readyChunks == ReadyChunks(f, done, u)
  }

  /** The loop body over the children of an included transaction. */
  lemma MeetSorting(g: Cluster, f: Forest, done: set<nat>, k: nat, e: set<nat>, u: set<Dep>, d: Dep,
                    txDeps: map<nat, nat>, chunkDeps: map<nat, nat>, readyTx: set<nat>, readyChunks: set<nat>)
    requires Sorting(g, f, done, k, e, u, txDeps, chunkDeps, readyTx, readyChunks) && d in u
    requires d.child !in e && (d.parent in f.chunk ==> f.chunk[d.parent] == k) && k in done
    requires forall i | i in f.chunk.Values && Into(f, u, i) != {} :: i !in done
    ensures d.child in txDeps && d.child in f.chunk && f.chunk[d.child] in chunkDeps && txDeps[d.child] > 0
    ensures f.chunk[d.child] != k ==> chunkDeps[f.chunk[d.child]] > 0
    ensures var c, i := d.child, f.chunk[d.child];
            var txDeps' := txDeps[c := txDeps[c] - 1];
            var chunkDeps' := if i != k then chunkDeps[i := chunkDeps[i] - 1] else chunkDeps;
            var readyTx' := if txDeps'[c] == 0 && i == k then readyTx + {c} else readyTx;
            var readyChunks' := if i != k && chunkDeps'[i] == 0 then readyChunks + {i} else readyChunks;
            Sorting(g, f, done, k, e, u - {d}, txDeps', chunkDeps', readyTx', readyChunks')
  {
    hide In, Into, ReadyTxs, ReadyChunks;
    MeetCounted(g, f, u, d, txDeps, chunkDeps);
    MeetReadyTxs(f, e, u, d, k);
    MeetReadyChunks(f, done, u, d);
    var i := f.chunk[d.child];
    if i != k {
      IntoMember(f, u, d);
    }
    IntoWithout(f, u, d, i);
    NotReadyTwice(f, done, u, i);
  }

  lemma NotReadyTwice(f: Forest, done: set<nat>, u: set<Dep>, i: nat)
    ensures i in ReadyChunks(f, done, u) ==> i !in done && Into(f, u, i) == {}
    ensures i in f.chunk.Values && i !in done && Into(f, u, i) == {} ==> i in ReadyChunks(f, done, u)
  {
  }

  // ---- Progress

  /** As long as a chunk has transactions left, one of them can be included. */
  lemma TxProgress(g: Cluster, f: Forest, k: nat, e: set<nat>)
    requires Fits(g, f) && g.Acyclic() && Into(f, Unmet(g, e), k) == {} && !(f.Part(k) <= e)
    ensures ReadyTxs(f, e, Unmet(g, e), k) != {}
  {
    var q := f.Part(k) - e;
    var left :| left in f.Part(k) && left !in e;
    assert q <= g.txns && left in q;
    var t :| t in q && g.Parents(t) !! q;
    forall d | d in g.deps && d.child == t ensures d.parent in e {
      assert d.parent in g.Parents(t);
      assert d !in Into(f, Unmet(g, e), k);
    }
    assert t in ReadyTxs(f, e, Unmet(g, e), k);
  }

  /** A chunk that depends on no unfinished chunk has no unmet dependencies. */
  lemma ReadyHasNone(g: Cluster, f: Forest, done: set<nat>, i: nat)
    requires Fits(g, f) && forall d | d in g.deps && Between(f, d) && f.chunk[d.child] == i :: f.chunk[d.parent] in done
    ensures Into(f, Unmet(g, Covered(f, done)), i) == {}
  {
  }

  /** As long as there are chunks left, one of them can be included; and the best such chunk has
      the highest feerate of all that are left. */
  lemma ChunkProgress(g: Cluster, f: Forest, done: set<nat>, j: nat) returns (i: nat)
    requires Fits(g, f) && WeaklyTopological(g, f) && j in f.chunk.Values && j !in done
    ensures i in ReadyChunks(f, done, Unmet(g, Covered(f, done)))
    ensures i in f.chunk.Values && ChunkRate(g, f, i) >= ChunkRate(g, f, j)
  {
    hide ChunkRate;
    var q := set i | i in f.chunk.Values && i !in done && ChunkRate(g, f, i) >= ChunkRate(g, f, j);
    assert j in q && q <= f.chunk.Values;
    i :| i in q && Ready(g, f, q, i);
    forall d | d in g.deps && Between(f, d) && f.chunk[d.child] == i ensures f.chunk[d.parent] in done {
      assert f.chunk[d.parent] !in q;
    }
    ReadyHasNone(g, f, done, i);
  }

  // ---- Collecting chunks

  /** The transactions of the finished chunks are in order, and pay as much as those chunks do. */
  ghost predicate Collected(g: Cluster, f: Forest, done: set<nat>, l: seq<nat>) {
    && Fits(g, f) && done <= f.chunk.Values
    && Distinct(l) && ParentsFirst(g, l) && Elems(l) == Covered(f, done)
    && g.AncestorClosed(Elems(l))
    && (forall i, j | i in done && j in f.chunk.Values && j !in done :: ChunkRate(g, f, i) >= ChunkRate(g, f, j))
    && (forall lam: real :: Peak(g, l, lam) >= Area(GainsOf(g, f, done, lam)))
  }

  ghost function GainsOf(g: Cluster, f: Forest, done: set<nat>, lam: real): map<nat, real>
    requires Fits(g, f)
  {
    map i | i in done :: ChunkGain(g, f, i, lam)
  }

  lemma {:induction false} PositiveArea(m: map<nat, real>)
    requires forall i | i in m :: m[i] >= 0.0
    ensures Area(m) == Total(m)
    decreases |m|
  {
    hide Area, Total;
    if m.Keys == {} {
      AreaEmpty(m);
    } else {
      var k := Pick(m.Keys);
      SmallerMap(m, k);
      AreaRemove(m, k);
      PositiveArea(m - {k});
    }
  }

  /** Appending the next chunk: if it beats `lam`, so do all before it. */
  lemma CollectedArea(g: Cluster, f: Forest, done: set<nat>, k: nat, l: seq<nat>, l': seq<nat>, lam: real)
    requires Collected(g, f, done, l) && k in f.chunk.Values && k !in done
    requires l <= l' && Elems(l') == Covered(f, done + {k})
    ensures Peak(g, l', lam) >= Area(GainsOf(g, f, done + {k}, lam))
  {
    hide Area, Total, Peak, Cluster.GainOf, ChunkRate, Cluster.RateOf;
    var m, m' := GainsOf(g, f, done, lam), GainsOf(g, f, done + {k}, lam);
    AreaUpdate(m, k, ChunkGain(g, f, k, lam));
    assert m' == m[k := ChunkGain(g, f, k, lam)];
    ChunkGainSign(g, f, k, lam);
    PeakMonotone(g, l, l', lam);
    if ChunkGain(g, f, k, lam) > 0.0 {
      forall i | i in m' ensures m'[i] >= 0.0 {
        ChunkGainSign(g, f, i, lam);
      }
      PositiveArea(m');
      TotalIsGain(g, f, m', lam);
      assert m'.Keys == done + {k};
      PeakAtLeast(g, l', |l'|, lam);
      assert l'[..|l'|] == l';
    }
  }

  lemma {:induction false} PeakMonotone(g: Cluster, l: seq<nat>, l': seq<nat>, lam: real)
    requires l <= l' && Elems(l') <= g.feerate.Keys
    ensures Elems(l) <= g.feerate.Keys && Peak(g, l, lam) <= Peak(g, l', lam)
    decreases |l'|
  {
    hide Cluster.GainOf;
    if l != l' {
      PeakMonotone(g, l, l'[..|l'| - 1], lam);
    }
  }

  lemma NoneCollected(g: Cluster, f: Forest)
    requires Fits(g, f)
    ensures Collected(g, f, {}, [])
  {
    assert Covered(f, {}) == {} && Elems([]) == {};
    forall lam: real ensures Peak(g, [], lam) >= Area(GainsOf(g, f, {}, lam)) {
      AreaEmpty(GainsOf(g, f, {}, lam));
    }
  }

  /** All chunks collected: a linearization at least as good as the forest's diagram. */
  lemma AllCollected(g: Cluster, f: Forest, l: seq<nat>)
    requires Collected(g, f, f.chunk.Values, l)
    ensures IsLinearization(g, l)
    ensures forall lam: real :: Peak(g, l, lam) >= Diagram(g, f, lam)
  {
    hide Area, ChunkRate, Peak;
    assert Covered(f, f.chunk.Values) == g.txns;
    forall lam: real ensures Peak(g, l, lam) >= Diagram(g, f, lam) {
      assert GainsOf(g, f, f.chunk.Values, lam) == Gains(g, f, lam);
    }
  }

  // ---- The order that results

  /** `x` is the last transaction of `s` in the fallback order. */
  ghost predicate IsLast(s: set<nat>, last: (nat, nat) -> bool, x: nat) {
    x in s && forall y | y in s :: !last(y, x)
  }

  /** At every point, the transaction included is the best one its chunk has ready. */
  ghost predicate TxGreedy(g: Cluster, f: Forest, last: (nat, nat) -> bool, l: seq<nat>) {
    forall j | 0 <= j < |l| :: TxGreedyAt(g, f, last, l, j)
  }

  ghost predicate TxGreedyAt(g: Cluster, f: Forest, last: (nat, nat) -> bool, l: seq<nat>, j: nat)
    requires j < |l|
  {
    l[j] in f.chunk &&
    var e := Elems(l[..j]);
    forall t | t in ReadyTxs(f, e, Unmet(g, e), f.chunk[l[j]]) :: !TxAfter(g, last, l[j], t)
  }

  lemma TxGreedyAppend(g: Cluster, f: Forest, last: (nat, nat) -> bool, l: seq<nat>, t: nat)
    requires TxGreedy(g, f, last, l) && t in f.chunk
    requires forall x | x in ReadyTxs(f, Elems(l), Unmet(g, Elems(l)), f.chunk[t]) :: !TxAfter(g, last, t, x)
    ensures TxGreedy(g, f, last, l + [t])
  {
    hide ReadyTxs, Unmet, TxAfter;
    var l' := l + [t];
    forall j | 0 <= j < |l'| ensures TxGreedyAt(g, f, last, l', j) {
      if j < |l| {
        assert l'[..j] == l[..j];
        assert TxGreedyAt(g, f, last, l, j);
      } else {
        assert l'[..j] == l;
      }
    }
  }

  /** Including a transaction whose parents are all included. */
  lemma IncludeTx(g: Cluster, f: Forest, l: seq<nat>, t: nat, k: nat)
    requires g.Valid() && Distinct(l) && ParentsFirst(g, l) && g.AncestorClosed(Elems(l))
    requires t in ReadyTxs(f, Elems(l), Unmet(g, Elems(l)), k) && t in g.txns
    ensures Distinct(l + [t]) && ParentsFirst(g, l + [t]) && g.AncestorClosed(Elems(l + [t]))
    ensures Elems(l + [t]) == Elems(l) + {t}
    ensures forall d | d in g.deps && d.parent == t :: d.child !in Elems(l + [t])
  {
    AppendElems(l, t);
    var l' := l + [t];
    forall d | d in g.deps && d.child == t ensures d.parent in Elems(l) {
      assert d !in In(Unmet(g, Elems(l)), t);
    }
    forall i, j | 0 <= i < j < |l'| ensures Dep(l'[j], l'[i]) !in g.deps {
      if j == |l| {
        assert l'[i] in Elems(l);
      }
    }
  }

  ghost function Pending(g: Cluster, e: set<nat>, t: nat, todo: set<nat>): set<Dep> {
    Unmet(g, e) + set c | c in todo :: Dep(t, c)
  }

  lemma PendingStart(g: Cluster, e: set<nat>, t: nat)
    requires t !in e
    ensures Unmet(g, e) == Pending(g, e + {t}, t, g.Children(t))
  {
    forall d | d in Unmet(g, e) ensures d in Pending(g, e + {t}, t, g.Children(t)) {
      if d.parent == t {
        assert d.child in g.Children(t) && d == Dep(t, d.child);
      }
    }
    forall d | d in Pending(g, e + {t}, t, g.Children(t)) ensures d in Unmet(g, e) {
    }
  }

  lemma PendingStep(g: Cluster, e: set<nat>, t: nat, todo: set<nat>, c: nat)
    requires t in e && c in todo
    ensures Dep(t, c) in Pending(g, e, t, todo)
    ensures Pending(g, e, t, todo) - {Dep(t, c)} == Pending(g, e, t, todo - {c})
  {
  }

  lemma PendingDone(g: Cluster, e: set<nat>, t: nat)
    ensures Pending(g, e, t, {}) == Unmet(g, e)
  {
  }

  /** Counters and heaps of the sort: unmet dependencies per transaction and per chunk,
      transactions of the current chunk that can be included, and chunks that can be included,
      with their last transaction. */
  datatype Progress = Progress(txDeps: map<nat, nat>, chunkDeps: map<nat, nat>, readyTx: set<nat>, ready: map<nat, nat>)

  ghost predicate ProgressOk(g: Cluster, f: Forest, last: (nat, nat) -> bool, done: set<nat>, k: nat, e: set<nat>,
                             u: set<Dep>, p: Progress) {
    && Sorting(g, f, done, k, e, u, p.txDeps, p.chunkDeps, p.readyTx, p.ready.Keys)
    && (forall i | i in done :: Into(f, u, i) == {})
    && (forall i | i in p.ready :: IsLast(f.Part(i), last, p.ready[i]))
  }

  /** One dependency of child `c`, in chunk `i`, is met; `x` is the last transaction of chunk `i`. */
  function Meet(p: Progress, k: nat, c: nat, i: nat, x: nat): Progress
    requires c in p.txDeps && i in p.chunkDeps && p.txDeps[c] > 0 && (i != k ==> p.chunkDeps[i] > 0)
  {
    var txDeps := p.txDeps[c := p.txDeps[c] - 1];
    var chunkDeps := if i != k then p.chunkDeps[i := p.chunkDeps[i] - 1] else p.chunkDeps;
    Progress(txDeps, chunkDeps,
             if txDeps[c] == 0 && i == k then p.readyTx + {c} else p.readyTx,
             if i != k && chunkDeps[i] == 0 then p.ready[i := x] else p.ready)
  }

  lemma MeetOk(g: Cluster, f: Forest, last: (nat, nat) -> bool, done: set<nat>, k: nat, e: set<nat>, u: set<Dep>,
               p: Progress, d: Dep, x: nat)
    requires ProgressOk(g, f, last, done, k, e, u, p) && d in u && d.child !in e && k in done
    requires d.parent in f.chunk ==> f.chunk[d.parent] == k
    requires d.child in f.chunk ==> IsLast(f.Part(f.chunk[d.child]), last, x)
    ensures d.child in p.txDeps && d.child in f.chunk && f.chunk[d.child] in p.chunkDeps && p.txDeps[d.child] > 0
    ensures f.chunk[d.child] != k ==> p.chunkDeps[f.chunk[d.child]] > 0
    ensures ProgressOk(g, f, last, done, k, e, u - {d}, Meet(p, k, d.child, f.chunk[d.child], x))
  {
    hide Sorting, IsLast, Into;
    MeetSorting(g, f, done, k, e, u, d, p.txDeps, p.chunkDeps, p.readyTx, p.ready.Keys);
    forall i | i in done ensures Into(f, u - {d}, i) == {} {
      IntoWithout(f, u, d, i);
    }
    var i := f.chunk[d.child];
    var p' := Meet(p, k, d.child, i, x);
    assert p'.ready.Keys == if i != k && p'.chunkDeps[i] == 0 then p.ready.Keys + {i} else p.ready.Keys;
  }

  /** Pop the transaction heap. */
  method BestTx(g: Cluster, last: (nat, nat) -> bool, ready: set<nat>) returns (t: nat)
    requires g.Valid() && StrictOrder(g.txns, last) && ready <= g.txns && ready != {}
    ensures t in ready && forall x | x in ready :: !TxAfter(g, last, t, x)
  {
    forall a, b, c | a in ready && b in ready && c in ready && TxAfter(g, last, a, b) && TxAfter(g, last, b, c)
      ensures TxAfter(g, last, a, c)
    {
      TxAfterTransitive(g, last, a, b, c);
    }
    t := Front(ready, (a, b) => TxAfter(g, last, a, b));
  }

  /** Chunk `a` comes after chunk `b`, given their last transactions. */
  predicate ChunkAfter(sets: seq<SetInfo>, last: (nat, nat) -> bool, lasts: map<nat, nat>, a: nat, b: nat) {
    && a in lasts && b in lasts && a < |sets| && b < |sets| && a != b
    && After(sets[a].feerate, sets[b].feerate, last(lasts[a], lasts[b]))
  }

  lemma ChunkAfterTransitive(g: Cluster, sets: seq<SetInfo>, last: (nat, nat) -> bool, lasts: map<nat, nat>, a: nat,
                             b: nat, c: nat)
    requires StrictOrder(g.txns, last) && ChunkAfter(sets, last, lasts, a, b) && ChunkAfter(sets, last, lasts, b, c)
    requires lasts[a] in g.txns && lasts[b] in g.txns && lasts[c] in g.txns
    requires sets[a].feerate.size > 0 && sets[b].feerate.size > 0 && sets[c].feerate.size > 0
    ensures ChunkAfter(sets, last, lasts, a, c)
  {
    hide After;
    AfterTransitive(sets[a].feerate, sets[b].feerate, sets[c].feerate, last(lasts[a], lasts[b]),
                    last(lasts[b], lasts[c]), last(lasts[a], lasts[c]));
    if a == c {
      AfterIrreflexive(sets[a].feerate);
    }
  }

  /** Pop the chunk heap. */
  method BestChunk(g: Cluster, sets: seq<SetInfo>, last: (nat, nat) -> bool, ready: map<nat, nat>) returns (k: nat)
    requires StrictOrder(g.txns, last) && ready != map[]
    requires forall i | i in ready :: ready[i] in g.txns && i < |sets| && sets[i].feerate.size > 0
    ensures k in ready && forall i | i in ready :: !ChunkAfter(sets, last, ready, k, i)
  {
    hide StrictOrder;
    forall a, b, c | a in ready && b in ready && c in ready && ChunkAfter(sets, last, ready, a, b)
      && ChunkAfter(sets, last, ready, b, c)
      ensures ChunkAfter(sets, last, ready, a, c)
    {
      ChunkAfterTransitive(g, sets, last, ready, a, b, c);
    }
    assert ready.Keys != {};
    k := Front(ready.Keys, (a, b) => ChunkAfter(sets, last, ready, a, b));
  }

  /** Taking a transaction off the heap and including it. */
  lemma TakeTx(g: Cluster, f: Forest, last: (nat, nat) -> bool, done: set<nat>, k: nat, e: set<nat>, p: Progress,
               t: nat)
    requires ProgressOk(g, f, last, done, k, e, Unmet(g, e), p) && t in p.readyTx
    ensures t in f.Part(k) && t !in e
    ensures ProgressOk(g, f, last, done, k, e + {t}, Pending(g, e + {t}, t, g.Children(t)),
                       p.(readyTx := p.readyTx - {t}))
  {
    hide Into, IsLast, ReadyChunks, In, Counted;
    PendingStart(g, e, t);
    assert ReadyTxs(f, e + {t}, Unmet(g, e), k) == ReadyTxs(f, e, Unmet(g, e), k) - {t};
  }

  lemma StillCovered(f: Forest, done: set<nat>, k: nat)
    ensures Covered(f, done + {k}) == Covered(f, done) + f.Part(k)
  {
  }

  /** The finished chunk joins the collection. */
  lemma CollectChunk(g: Cluster, f: Forest, done: set<nat>, k: nat, l: seq<nat>, l': seq<nat>)
    requires Collected(g, f, done, l) && k in f.chunk.Values && k !in done && l <= l'
    requires Distinct(l') && ParentsFirst(g, l') && g.AncestorClosed(Elems(l')) && Elems(l') == Elems(l) + f.Part(k)
    requires forall j | j in f.chunk.Values && j !in done :: ChunkRate(g, f, k) >= ChunkRate(g, f, j)
    ensures Collected(g, f, done + {k}, l')
  {
    hide ChunkRate, Area, Peak, ParentsFirst, Forest.Part, Cluster.AncestorClosed;
    StillCovered(f, done, k);
    forall lam: real ensures Peak(g, l', lam) >= Area(GainsOf(g, f, done + {k}, lam)) {
      CollectedArea(g, f, done, k, l, l', lam);
    }
  }

  lemma CollectedFacts(g: Cluster, f: Forest, done: set<nat>, l: seq<nat>)
    requires Collected(g, f, done, l)
    ensures Distinct(l) && ParentsFirst(g, l) && g.AncestorClosed(Elems(l))
  {
  }

  lemma ProgressFacts(g: Cluster, f: Forest, last: (nat, nat) -> bool, done: set<nat>, k: nat, e: set<nat>, p: Progress)
    requires ProgressOk(g, f, last, done, k, e, Unmet(g, e), p)
    ensures p.readyTx == ReadyTxs(f, e, Unmet(g, e), k)
    ensures p.readyTx <= g.txns && p.readyTx <= f.Part(k)
  {
  }

  lemma ChunkFinished(g: Cluster, f: Forest, last: (nat, nat) -> bool, done: set<nat>, k: nat, e: set<nat>, p: Progress)
    requires ProgressOk(g, f, last, done, k, e, Unmet(g, e), p) && g.Acyclic() && k in done && p.readyTx == {}
    ensures f.Part(k) <= e
  {
    hide Cluster.Acyclic, Unmet, ReadyTxs, Into, IsLast;
    if !(f.Part(k) <= e) {
      TxProgress(g, f, k, e);
    }
  }

  lemma NoEarlyChild(g: Cluster, t: nat, e: set<nat>)
    requires forall d | d in g.deps && d.parent == t :: d.child !in e
    ensures forall c | c in g.Children(t) :: c !in e
  {
  }

  // ---- Initial counts

  ghost function ParentDeps(t: nat, s: set<nat>): set<Dep> {
    set p | p in s :: Dep(p, t)
  }

  lemma {:induction false} ParentDepsCount(t: nat, s: set<nat>)
    ensures |ParentDeps(t, s)| == |s|
    decreases |s|
  {
    if s == {} {
      assert ParentDeps(t, s) == {};
    } else {
      var p := Pick(s);
      ParentDepsCount(t, s - {p});
      assert ParentDeps(t, s) == ParentDeps(t, s - {p}) + {Dep(p, t)};
    }
  }

  /** Dependencies of the transactions in `s`. */
  ghost function DepsOf(g: Cluster, s: set<nat>): set<Dep> {
    set d | d in g.deps && d.child in s
  }

  lemma InCount(g: Cluster, t: nat)
    ensures |In(g.deps, t)| == |g.Parents(t)|
  {
    ParentDepsCount(t, g.Parents(t));
    forall d | d in In(g.deps, t) ensures d in ParentDeps(t, g.Parents(t)) {
      assert d == Dep(d.parent, t) && d.parent in g.Parents(t);
    }
    assert In(g.deps, t) == ParentDeps(t, g.Parents(t));
  }

  /** Adding one transaction adds its out-of-chunk parents to its chunk's count. */
  lemma IntoCount(g: Cluster, f: Forest, s: set<nat>, t: nat, i: nat)
    requires Fits(g, f) && t in g.txns && t !in s
    ensures |Into(f, DepsOf(g, s + {t}), i)| ==
            |Into(f, DepsOf(g, s), i)| + if f.chunk[t] == i then |g.Parents(t) - f.Part(i)| else 0
  {
    var before, after := Into(f, DepsOf(g, s), i), Into(f, DepsOf(g, s + {t}), i);
    if f.chunk[t] == i {
      var more := ParentDeps(t, g.Parents(t) - f.Part(i));
      ParentDepsCount(t, g.Parents(t) - f.Part(i));
      forall d ensures d in after <==> d in before || d in more {
        if d in after && d !in before {
          assert d == Dep(d.parent, t) && d.parent in g.Parents(t);
        }
      }
      assert after == before + more;
      assert before !! more;
    } else {
      assert after == before;
    }
  }

  lemma AllUnmet(g: Cluster)
    requires g.Valid()
    ensures Unmet(g, {}) == g.deps == DepsOf(g, g.txns)
  {
  }

  /** With these counts and the ready chunks, sorting can start. */
  lemma StartSorting(g: Cluster, f: Forest, last: (nat, nat) -> bool, p: Progress)
    requires Fits(g, f) && Counted(g, f, g.deps, p.txDeps, p.chunkDeps)
    requires p.ready.Keys == ReadyChunks(f, {}, g.deps)
    requires forall i | i in p.ready :: IsLast(f.Part(i), last, p.ready[i])
    ensures Waiting(g, f, last, {}, {}, p)
  {
    hide Counted, ReadyChunks, IsLast;
    AllUnmet(g);
  }

  /** State between chunks. */
  ghost predicate Waiting(g: Cluster, f: Forest, last: (nat, nat) -> bool, done: set<nat>, e: set<nat>, p: Progress) {
    && Fits(g, f)
    && Counted(g, f, Unmet(g, e), p.txDeps, p.chunkDeps)
    && p.ready.Keys == ReadyChunks(f, done, Unmet(g, e))
    && (forall i | i in done :: Into(f, Unmet(g, e), i) == {})
    && (forall i | i in p.ready :: IsLast(f.Part(i), last, p.ready[i]))
  }

  lemma StopWaiting(g: Cluster, f: Forest, last: (nat, nat) -> bool, done: set<nat>, e: set<nat>, p: Progress, k: nat,
                    p': Progress)
    requires Waiting(g, f, last, done, e, p) && k in p.ready
    requires p' == p.(ready := p.ready - {k}, readyTx := ReadyTxs(f, e, Unmet(g, e), k))
    ensures ProgressOk(g, f, last, done + {k}, k, e, Unmet(g, e), p')
  {
    hide Into, IsLast, In, Counted, ReadyTxs;
    UnmetAreDeps(g, e);
    NotReadyTwice(f, done, Unmet(g, e), k);
    assert ReadyChunks(f, done + {k}, Unmet(g, e)) == ReadyChunks(f, done, Unmet(g, e)) - {k};
    assert (p.ready - {k}).Keys == p.ready.Keys - {k};
  }

  lemma UnmetAreDeps(g: Cluster, e: set<nat>)
    ensures Unmet(g, e) <= g.deps
  {
  }

  lemma WaitAgain(g: Cluster, f: Forest, last: (nat, nat) -> bool, done: set<nat>, k: nat, e: set<nat>, p: Progress)
    requires ProgressOk(g, f, last, done, k, e, Unmet(g, e), p)
    ensures Waiting(g, f, last, done, e, p)
  {
  }

  lemma BestHasHighestRate(g: Cluster, f: Forest, done: set<nat>, ready: set<nat>, k: nat)
    requires Fits(g, f) && WeaklyTopological(g, f) && ready == ReadyChunks(f, done, Unmet(g, Covered(f, done)))
             && k in f.chunk.Values
    requires forall i | i in ready && i in f.chunk.Values :: ChunkRate(g, f, k) >= ChunkRate(g, f, i)
    ensures forall j | j in f.chunk.Values && j !in done :: ChunkRate(g, f, k) >= ChunkRate(g, f, j)
  {
    hide ChunkRate, WeaklyTopological, Unmet, ReadyChunks;
    forall j | j in f.chunk.Values && j !in done ensures ChunkRate(g, f, k) >= ChunkRate(g, f, j) {
      var i := ChunkProgress(g, f, done, j);
    }
  }

  lemma AllDone(g: Cluster, f: Forest, done: set<nat>)
    requires Fits(g, f) && WeaklyTopological(g, f) && ReadyChunks(f, done, Unmet(g, Covered(f, done))) == {}
             && done <= f.chunk.Values
    ensures done == f.chunk.Values
  {
    hide ChunkRate, WeaklyTopological, Unmet, ReadyChunks;
    if done != f.chunk.Values {
      var j :| j in f.chunk.Values && j !in done;
      var i := ChunkProgress(g, f, done, j);
    }
  }

  lemma ReadyIsChunk(f: Forest, done: set<nat>, u: set<Dep>, i: nat)
    requires i in ReadyChunks(f, done, u)
    ensures i in f.chunk.Values && i !in done
  {
  }

  lemma LastInside(g: Cluster, f: Forest, last: (nat, nat) -> bool, i: nat, x: nat)
    requires Fits(g, f) && IsLast(f.Part(i), last, x)
    ensures x in g.txns
  {
  }

  lemma NoDeps(g: Cluster, f: Forest, i: nat)
    ensures Into(f, DepsOf(g, {}), i) == {}
  {
  }

  lemma TxGreedyNone(g: Cluster, f: Forest, last: (nat, nat) -> bool)
    ensures TxGreedy(g, f, last, [])
  {
  }

  lemma FinishedAll(g: Cluster, f: Forest, last: (nat, nat) -> bool, done: set<nat>, l: seq<nat>, p: Progress)
    requires Fits(g, f) && WeaklyTopological(g, f) && Collected(g, f, done, l) && Waiting(g, f, last, done, Elems(l), p)
             && p.ready == map[]
    ensures done == f.chunk.Values
  {
    hide WeaklyTopological, Counted, IsLast, ReadyChunks, Unmet, ChunkRate;
    assert p.ready.Keys == {};
    AllDone(g, f, done);
  }

  /** Counts so far, over the transactions in `done`. */
  ghost predicate CountedOn(g: Cluster, f: Forest, done: set<nat>, txDeps: map<nat, nat>, chunkDeps: map<nat, nat>) {
    && txDeps.Keys == g.txns && chunkDeps.Keys == f.chunk.Values
    && (forall t | t in txDeps && t in done :: txDeps[t] == |In(g.deps, t)|)
    && (forall i | i in chunkDeps :: chunkDeps[i] == |Into(f, DepsOf(g, done), i)|)
  }

  function Zeros(s: set<nat>): map<nat, nat> {
    map t | t in s :: 0
  }

  lemma CountNone(g: Cluster, f: Forest)
    ensures CountedOn(g, f, {}, Zeros(g.txns), Zeros(f.chunk.Values))
  {
    hide In, Into, DepsOf;
    forall i | i in f.chunk.Values ensures |Into(f, DepsOf(g, {}), i)| == 0 {
      NoDeps(g, f, i);
    }
  }

  lemma CountTx(g: Cluster, f: Forest, done: set<nat>, txDeps: map<nat, nat>, chunkDeps: map<nat, nat>, t: nat)
    requires Fits(g, f) && CountedOn(g, f, done, txDeps, chunkDeps) && t in g.txns && t !in done
    ensures f.chunk[t] in chunkDeps
    ensures var k := f.chunk[t];
            CountedOn(g, f, done + {t}, txDeps[t := |g.Parents(t)|],
                      chunkDeps[k := chunkDeps[k] + |g.Parents(t) - f.Part(k)|])
  {
    hide In, Into, DepsOf, Cluster.Parents, Forest.Part;
    InCount(g, t);
    forall i | i in chunkDeps
      ensures |Into(f, DepsOf(g, done + {t}), i)| ==
              |Into(f, DepsOf(g, done), i)| + if f.chunk[t] == i then |g.Parents(t) - f.Part(i)| else 0
    {
      IntoCount(g, f, done, t, i);
    }
  }

  lemma CountDone(g: Cluster, f: Forest, txDeps: map<nat, nat>, chunkDeps: map<nat, nat>)
    requires g.Valid() && CountedOn(g, f, g.txns, txDeps, chunkDeps)
    ensures Counted(g, f, g.deps, txDeps, chunkDeps)
  {
    hide In, Into, DepsOf;
    AllUnmet(g);
  }

  lemma ReadyIff(g: Cluster, f: Forest, u: set<Dep>, txDeps: map<nat, nat>, chunkDeps: map<nat, nat>, i: nat)
    requires Counted(g, f, u, txDeps, chunkDeps) && i in f.chunk.Values
    ensures i in chunkDeps && (chunkDeps[i] == 0 <==> i in ReadyChunks(f, {}, u))
  {
    hide In, Into;
  }

  lemma ReadyAreChunks(f: Forest, done: set<nat>, u: set<Dep>)
    ensures ReadyChunks(f, done, u) <= f.chunk.Values
  {
  }
}
