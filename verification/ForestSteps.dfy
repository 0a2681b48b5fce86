/** What one step of the spanning-forest linearizer does, from the forest and the queue before to those after. */
module ForestSteps {
  import opened Clusters
  import opened Forests
  import opened Diagrams
  import opened Linearizations
  import opened Improving
  import opened Strictly
  import opened Optimality
  import opened Minimizing
  import opened MinimizeQueue

  // ---- Merging

  /** Some chunk is merged with its best merge candidate above or below. */
  ghost predicate MergesBest(g: Cluster, f: Forest, f': Forest) {
    exists down, k, merged :: Stepped(g, down, Spot(f, k), Spot(f', merged))
  }

  ghost predicate MergeRun(g: Cluster, run: seq<Forest>) {
    run != [] && forall i | 0 <= i < |run| - 1 :: MergesBest(g, run[i], run[i + 1])
  }

  lemma MergeRunNext(g: Cluster, run: seq<Forest>, f: Forest)
    requires MergeRun(g, run) && MergesBest(g, run[|run| - 1], f)
    ensures MergeRun(g, run + [f])
  {
    hide MergesBest;
  }

  /** The forest after some greedy runs. */
  ghost function After(f: Forest, runs: seq<seq<Spot>>): Forest {
    if runs == [] || runs[|runs| - 1] == [] then f else var run := runs[|runs| - 1]; run[|run| - 1].f
  }

  /** From the forest `f`, the chunk of `t` is merged upwards as long as possible. */
  ghost predicate LoadsOne(g: Cluster, f: Forest, t: nat, run: seq<Spot>) {
    && GreedyRun(g, false, run) && t in f.chunk && run[0] == Spot(f, f.chunk[t])
    && SpotOk(g, run[|run| - 1]) && NoCandidate(g, run[|run| - 1], false)
  }

  /** This is done for one transaction after the other. */
  ghost predicate Loads(g: Cluster, f: Forest, order: seq<nat>, runs: seq<seq<Spot>>) {
    |runs| <= |order| && forall i | 0 <= i < |runs| :: LoadsOne(g, After(f, runs[..i]), order[i], runs[i])
  }

  lemma LoadsNothing(g: Cluster, f: Forest, order: seq<nat>)
    ensures Loads(g, f, order, []) && After(f, []) == f
  {
  }

  lemma LoadsNext(g: Cluster, f: Forest, order: seq<nat>, runs: seq<seq<Spot>>, run: seq<Spot>)
    requires Loads(g, f, order, runs) && |runs| < |order| && LoadsOne(g, After(f, runs), order[|runs|], run)
    ensures Loads(g, f, order, runs + [run]) && run != [] && After(f, runs + [run]) == run[|run| - 1].f
  {
    assert run != [];
    hide LoadsOne, After;
    var runs' := runs + [run];
    forall i | 0 <= i < |runs'| ensures LoadsOne(g, After(f, runs'[..i]), order[i], runs'[i]) {
      assert runs'[..i] == runs[..i];
      if i == |runs| { assert runs[..i] == runs; }
    }
    LastRun(f, runs, run);
  }

  lemma LastRun(f: Forest, runs: seq<seq<Spot>>, run: seq<Spot>)
    requires run != []
    ensures After(f, runs + [run]) == run[|run| - 1].f
  {
  }

  // ---- Optimizing

  /** The first live one of the queue is `k`, and `rest` are those after it. */
  ghost predicate TakesFirst(q: seq<nat>, live: set<nat>, k: nat, rest: seq<nat>) {
    exists n :: 0 <= n < |q| && q[n] == k && k in live && (forall i | 0 <= i < n :: q[i] !in live) && rest == q[n + 1..]
  }

  lemma FirstTaken(q: seq<nat>, live: set<nat>, n: nat)
    requires n < |q| && q[n] in live && forall i | 0 <= i < n :: q[i] !in live
    ensures TakesFirst(q, live, q[n], q[n + 1..]) && Elems(q) * live <= Elems(q[n + 1..]) + {q[n]}
  {
    forall x | x in Elems(q) && x in live ensures x in Elems(q[n + 1..]) + {q[n]} {
      var i :| 0 <= i < |q| && q[i] == x;
      assert i > n ==> q[n + 1..][i - n - 1] == x;
    }
  }

  lemma NoneTaken(q: seq<nat>, live: set<nat>)
    requires forall i | 0 <= i < |q| :: q[i] !in live
    ensures Elems(q) !! live
  {
  }

  /** A dependency from the bottom half to the top half. */
  ghost predicate IsBack(g: Cluster, f: Forest, ip: nat, ic: nat, h: Dep) {
    h in g.deps && h.parent in f.Part(ic) && h.child in f.Part(ip)
  }

  /** The halves of the chunk divided along `e` are together again. */
  ghost predicate Rejoined(g: Cluster, f: Forest, f': Forest, e: Dep, ip: nat)
    requires f.CanDeactivate(e, ip)
  {
    var split, ic := f.Deactivated(e, ip), f.chunk[e.parent];
    exists h :: IsBack(g, split, ip, ic, h) && f' == split.Activated(h)
  }

  lemma RejoinedAlong(g: Cluster, f: Forest, e: Dep, ip: nat, h: Dep)
    requires f.CanDeactivate(e, ip) && IsBack(g, f.Deactivated(e, ip), ip, f.chunk[e.parent], h)
    ensures h.parent in f.Deactivated(e, ip).chunk && h.child in f.Deactivated(e, ip).chunk
    ensures Rejoined(g, f, f.Deactivated(e, ip).Activated(h), e, ip)
  {
  }

  /** The chunk of `e` is divided along it. If its top needs its bottom, the halves are put together again; else the
      diagram is strictly better. */
  ghost predicate Divided(g: Cluster, f: Forest, f': Forest, e: Dep, ip: nat) {
    && Fits(g, f) && Fits(g, f') && Improvable(g, f, e) && f.CanDeactivate(e, ip)
    && if TopNeedsBottom(g, f.Deactivated(e, ip), ip, f.chunk[e.parent]) then Rejoined(g, f, f', e, ip)
       else StrictlyBetter(g, f', f, e)
  }

  ghost predicate DividedIn(g: Cluster, f: Forest, f': Forest, k: nat) {
    exists e, ip :: Divided(g, f, f', e, ip) && f.chunk[e.parent] == k
  }

  /** The first live chunk of the queue leaves it if it is optimal, and is divided if not. */
  ghost predicate OptimizesOne(g: Cluster, f: Forest, q: seq<nat>, f': Forest, q': seq<nat>, more: bool, k: nat,
                               rest: seq<nat>) {
    && TakesFirst(q, f.chunk.Values, k, rest)
    && if ChunkOptimal(g, f, k) then f' == f && q' == rest && (more <==> rest != [])
       else more && rest <= q' && |q'| <= |rest| + 2 && DividedIn(g, f, f', k)
  }

  /** One step of optimizing. */
  ghost predicate Optimizes(g: Cluster, f: Forest, q: seq<nat>, f': Forest, q': seq<nat>, more: bool) {
    || ((forall i | 0 <= i < |q| :: q[i] !in f.chunk.Values) && f' == f && q' == [] && !more)
    || exists k, rest :: OptimizesOne(g, f, q, f', q', more, k, rest)
  }

  lemma NotOptimal(g: Cluster, f: Forest, k: nat, e: Dep)
    requires Improvable(g, f, e) && e.parent in f.chunk && f.chunk[e.parent] == k
    ensures !ChunkOptimal(g, f, k)
  {
    hide Forest.Valid, ChunkRate;
  }

  // ---- Minimizing

  /** The chunk can be divided along `e` into parts of equal feerate, if not for other dependencies. */
  ghost predicate EqualIn(g: Cluster, f: Forest, k: nat, e: Dep) {
    e in f.top && e.parent in f.chunk && f.chunk[e.parent] == k && EqualTop(g, f, e)
  }

  /** So that the pivot is in the top part, or in the bottom part if `down`. */
  ghost predicate EqualAt(g: Cluster, f: Forest, k: nat, pivot: nat, down: bool, e: Dep) {
    EqualIn(g, f, k, e) && (pivot in f.top[e] <==> !down)
  }

  ghost predicate AnyEqual(g: Cluster, f: Forest, k: nat) {
    exists e :: EqualIn(g, f, k, e)
  }

  ghost predicate AnyEqualAt(g: Cluster, f: Forest, k: nat, pivot: nat, down: bool) {
    exists e :: EqualAt(g, f, k, pivot, down, e)
  }

  /** Both halves are queued: the one with the pivot as the chunk was, the other one afresh. */
  ghost predicate HalvesQueued(f: Forest, e: Entry, rest: seq<Entry>, ip: nat, q: seq<Entry>) {
    var kept, other := if e.down then e.chunk else ip, if e.down then ip else e.chunk;
    exists pivot, down ::
      pivot in f.Part(other) && TwoQueued(e.(chunk := kept), Entry(other, pivot, down, false), rest, q)
  }

  ghost predicate TwoQueued(a: Entry, b: Entry, rest: seq<Entry>, q: seq<Entry>) {
    q == rest + [a] + [b] || q == rest + [b] + [a]
  }

  lemma QueuedHalves(f: Forest, e: Entry, rest: seq<Entry>, ip: nat, a: Entry, b: Entry, q: seq<Entry>)
    requires a == e.(chunk := if e.down then e.chunk else ip) && TwoQueued(a, b, rest, q)
    requires b.chunk == (if e.down then ip else e.chunk) && b.pivot in f.Part(b.chunk) && !b.second
    ensures HalvesQueued(f, e, rest, ip, q)
  {
    assert b == Entry(b.chunk, b.pivot, b.down, false);
  }

  /** The chunk is divided along `d`; if its top needs its bottom, the halves are put together again. */
  ghost predicate DividesEqual(g: Cluster, f: Forest, e: Entry, rest: seq<Entry>, f': Forest, q: seq<Entry>, d: Dep,
                               ip: nat) {
    && EqualAt(g, f, e.chunk, e.pivot, e.down, d) && f.CanDeactivate(d, ip)
    && if TopNeedsBottom(g, f.Deactivated(d, ip), ip, e.chunk) then
         Rejoined(g, f, f', d, ip) && q == rest + [e.(chunk := ip)]
       else f' == f.Deactivated(d, ip) && HalvesQueued(f', e, rest, ip, q)
  }

  /** The first entry of the queue: its chunk is done if nothing divides it, or nothing divides it with the pivot in
      either place; it is tried in the other direction if nothing divides it with the pivot in this place; and it is
      divided otherwise. */
  ghost predicate MinimizesOne(g: Cluster, f: Forest, e: Entry, rest: seq<Entry>, f': Forest, q: seq<Entry>) {
    if AnyEqualAt(g, f, e.chunk, e.pivot, e.down) then exists d, ip :: DividesEqual(g, f, e, rest, f', q, d, ip)
    else
      && f' == f
      && q == if e.second || !AnyEqual(g, f, e.chunk) then rest
              else rest + [Entry(e.chunk, e.pivot, !e.down, true)]
  }

  /** One step of minimizing. */
  ghost predicate Minimizes(g: Cluster, f: Forest, q: seq<Entry>, f': Forest, q': seq<Entry>) {
    if q == [] then f' == f && q' == [] else MinimizesOne(g, f, q[0], q[1..], f', q')
  }

  /** Putting the halves together again changes nothing but the index of the chunk. */
  lemma EqualRejoined(g: Cluster, f: Forest, d: Dep, ip: nat, h: Dep, e: Entry, rest: seq<Entry>)
    requires EqualTop(g, f, d) && f.CanDeactivate(d, ip) && e.chunk == f.chunk[d.parent]
             && IsBack(g, f.Deactivated(d, ip), ip, e.chunk, h)
    requires NothingImprovable(g, f) && WeaklyTopological(g, f) && QueueMinimal(g, f, [e] + rest)
    ensures f.Deactivated(d, ip).CanActivate(g, h)
    ensures var f' := f.Deactivated(d, ip).Activated(h);
            && Fits(g, f') && NothingImprovable(g, f') && WeaklyTopological(g, f') && Rejoined(g, f, f', d, ip)
            && QueueMinimal(g, f', rest + [e.(chunk := ip)])
            && forall lam: real :: Diagram(g, f', lam) == Diagram(g, f, lam)
  {
    hide WeaklyTopological, NothingImprovable, QueueMinimal, Forest.Deactivated, Forest.Activated, Forest.Part,
         EqualTop, Diagram, Forest.Valid, Rejoined;
    var q := [e] + rest;
    EqualIsOk(g, f, d);
    EqualSelfMerge(g, f, d, ip, h);
    SelfMergeSame(g, f, d, ip, h);
    RejoinedAlong(g, f, d, ip, h);
    assert q[1..] == rest;
    RequeueMerged(g, f, f.Deactivated(d, ip).Activated(h), q, ip);
  }
}
