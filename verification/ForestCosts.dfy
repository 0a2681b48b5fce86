/** What the work on a spanning forest costs: the cost model, and runs of events that it charges for. */
module ForestCosts {
  import opened Clusters
  import opened Forests
  import opened Diagrams
  import opened Linearizations

  /** What is charged for. Activations and deactivations change the forest; the rest is the work to find them. */
  datatype Event =
    | Initialize(f: Forest)
    | Activate(d: Dep)
    | Deactivate(d: Dep, ip: nat)
    | MergeChunks(top: nat, steps: nat)
    | PickMergeCandidate(steps: nat)
    | MakeTopological(chunks: nat, steps: nat)
    | StartOptimizing
    | PickChunk(popped: seq<nat>)
    | PickDependency(k: nat)
    | StartMinimizing
    | MinimizeScan(k: nat)
    | MinimizeEnd(split: bool)

  /** The event can happen to the forest, with no more steps than there is to look at. */
  ghost predicate CanHappen(g: Cluster, f: Forest, e: Event) {
    match e
    case Initialize(_) => false
    case Activate(d) => f.CanActivate(g, d)
    case Deactivate(d, ip) => f.CanDeactivate(d, ip)
    case MergeChunks(top, steps) => top in f.chunk.Values && steps <= |f.Part(top)|
    case PickMergeCandidate(steps) => steps <= |g.txns|
    case MakeTopological(chunks, steps) => chunks <= |g.txns| && steps <= 2 * chunks
    case StartOptimizing => true
    case PickChunk(popped) => Distinct(popped) && forall i | 0 <= i < |popped| - 1 :: popped[i] !in f.chunk.Values
    case PickDependency(k) => k in f.chunk.Values
    case StartMinimizing => true
    case MinimizeScan(k) => k in f.chunk.Values
    case MinimizeEnd(_) => true
  }

  ghost function Next(g: Cluster, f: Forest, e: Event): Forest
    requires CanHappen(g, f, e)
  {
    match e
    case Activate(d) => f.Activated(d)
    case Deactivate(d, ip) => f.Deactivated(d, ip)
    case _ => f
  }

  ghost function Charge(g: Cluster, f: Forest, e: Event): int
    requires CanHappen(g, f, e)
  {
    match e
    case Activate(d) => 10 * (|f.Activated(d).Part(f.chunk[d.child])| - 1) + 1
    case Deactivate(d, _) => 11 * (|f.Part(f.chunk[d.parent])| - 1) + 8
    case MergeChunks(top, steps) => 2 * |f.Part(top)| + 3 * steps + 5
    case PickMergeCandidate(steps) => 8 * steps
    case MakeTopological(chunks, steps) => 20 * chunks + 28 * steps
    case StartOptimizing => 13 * |f.chunk.Values|
    case PickChunk(popped) => |popped| + 4
    case PickDependency(k) => 8 * |f.Part(k)| + 9
    case StartMinimizing => 18 * |f.chunk.Values|
    case MinimizeScan(k) => 11 * |f.Part(k)| + 11
    case MinimizeEnd(split) => if split then 17 + 7 else 7
  }

  /** The event leads from `f` to `f'` and is charged `n`. */
  ghost predicate Charges(g: Cluster, f: Forest, e: Event, f': Forest, n: int) {
    CanHappen(g, f, e) && f' == Next(g, f, e) && n == Charge(g, f, e)
  }

  /** An event, with the forest and the cost after it. */
  datatype Moment = Moment(event: Event, f: Forest, cost: int)

  /** The run of events leads from single transactions to the forest `f`, at exactly this cost. */
  ghost predicate Performed(g: Cluster, run: seq<Moment>, f: Forest, cost: int) {
    && run != [] && run[|run| - 1].f == f && run[|run| - 1].cost == cost
    && run[0].event == Initialize(run[0].f) && run[0].f.chunk.Keys == g.txns && Singletons(run[0].f, {})
    && run[0].cost == (39 + 48) * |g.txns| + 4 * |g.deps|
    && forall i | 0 < i < |run| ::
         Charges(g, run[i - 1].f, run[i].event, run[i].f, run[i].cost - run[i - 1].cost)
  }

  // ---- Budgets

  /** The event begins to optimize or to minimize, or one step of that. */
  predicate IsBegin(e: Event) {
    e.StartOptimizing? || e.PickChunk? || e.StartMinimizing? || e.MinimizeScan?
  }

  datatype Kind = OptimizeFirst | OptimizeOne | MinimizeFirst | MinimizeOne

  predicate OfKind(kind: Kind, e: Event) {
    match kind
    case OptimizeFirst => e.StartOptimizing?
    case OptimizeOne => e.PickChunk?
    case MinimizeFirst => e.StartMinimizing?
    case MinimizeOne => e.MinimizeScan?
  }

  /** Such an event, with the cost before it. */
  datatype Begin = Begin(event: Event, before: int)

  ghost function Begins(run: seq<Moment>): seq<Begin> {
    if |run| <= 1 then []
    else
      var n := |run| - 1;
      Begins(run[..n]) + if IsBegin(run[n].event) then [Begin(run[n].event, run[n - 1].cost)] else []
  }

  lemma PerformedNext(g: Cluster, run: seq<Moment>, f: Forest, cost: int, e: Event, f': Forest, n: int)
    requires Performed(g, run, f, cost) && Charges(g, f, e, f', n)
    ensures Performed(g, run + [Moment(e, f', cost + n)], f', cost + n)
    ensures Begins(run + [Moment(e, f', cost + n)]) == Begins(run) + if IsBegin(e) then [Begin(e, cost)] else []
  {
    hide Charges, Singletons, IsBegin;
    assert (run + [Moment(e, f', cost + n)])[..|run|] == run;
  }

  /** Nothing begins once the budget is used up, except for the first step of what began before. */
  ghost predicate WithinBudget(begins: seq<Begin>, maxCost: nat) {
    forall i | 0 <= i < |begins| :: BeginsInBudget(begins, i, maxCost)
  }

  ghost predicate BeginsInBudget(begins: seq<Begin>, i: nat, maxCost: nat)
    requires i < |begins|
  {
    || begins[i].before < maxCost
    || (i > 0 && ((begins[i].event.PickChunk? && begins[i - 1].event.StartOptimizing?)
                  || (begins[i].event.MinimizeScan? && begins[i - 1].event.StartMinimizing?)))
  }

  /** One more event began, at this cost. */
  ghost predicate Began(begins: seq<Begin>, begins': seq<Begin>, cost: int, kind: Kind) {
    && |begins'| == |begins| + 1 && begins == begins'[..|begins|]
    && begins'[|begins|].before == cost && OfKind(kind, begins'[|begins|].event)
  }

  lemma BeganInBudget(begins: seq<Begin>, begins': seq<Begin>, cost: nat, kind: Kind, maxCost: nat)
    requires WithinBudget(begins, maxCost) && Began(begins, begins', cost, kind) && cost < maxCost
    ensures WithinBudget(begins', maxCost) && begins' != [] && OfKind(kind, begins'[|begins'| - 1].event)
  {
    forall i | 0 <= i < |begins'| ensures BeginsInBudget(begins', i, maxCost) {
      assert i < |begins| ==> BeginsInBudget(begins, i, maxCost);
    }
  }

  lemma SteppedInBudget(begins: seq<Begin>, begins': seq<Begin>, cost: nat, optimizing: bool, maxCost: nat)
    requires WithinBudget(begins, maxCost) && MayStep(begins, cost, maxCost, optimizing)
    requires if optimizing then Began(begins, begins', cost, OptimizeOne)
             else Began(begins, begins', cost, MinimizeOne)
    ensures WithinBudget(begins', maxCost)
  {
    forall i | 0 <= i < |begins'| ensures BeginsInBudget(begins', i, maxCost) {
      assert i < |begins| ==> BeginsInBudget(begins, i, maxCost);
    }
  }

  /** Another step may be made: the budget is not used up, or the steps were only just begun. */
  ghost predicate MayStep(begins: seq<Begin>, cost: nat, maxCost: nat, optimizing: bool) {
    || cost < maxCost
    || (begins != [] && if optimizing then begins[|begins| - 1].event.StartOptimizing?
                        else begins[|begins| - 1].event.StartMinimizing?)
  }

  // ---- Charges

  lemma ActivateCharges(g: Cluster, f: Forest, d: Dep, part: set<nat>)
    requires f.CanActivate(g, d) && f.Activated(d).Part(f.chunk[d.child]) == part
    ensures Charges(g, f, Activate(d), f.Activated(d), 10 * (|part| - 1) + 1)
  {
  }

  lemma DeactivateCharges(g: Cluster, f: Forest, d: Dep, ip: nat, part: set<nat>)
    requires f.CanDeactivate(d, ip) && f.Part(f.chunk[d.parent]) == part
    ensures Charges(g, f, Deactivate(d, ip), f.Deactivated(d, ip), 11 * (|part| - 1) + 8)
  {
  }

  lemma MergeCharges(g: Cluster, f: Forest, k: nat, steps: nat, part: set<nat>)
    requires k in f.chunk.Values && f.Part(k) == part && steps <= |part|
    ensures Charges(g, f, MergeChunks(k, steps), f, 2 * |part| + 3 * steps + 5)
  {
  }

  lemma CandidateCharges(g: Cluster, f: Forest, steps: nat, seen: set<nat>)
    requires seen <= g.txns && steps <= |seen|
    ensures Charges(g, f, PickMergeCandidate(steps), f, 8 * steps)
  {
    NoMore(seen, g.txns);
  }

  lemma NoMore(a: set<nat>, b: set<nat>)
    requires a <= b
    ensures |a| <= |b|
  {
    assert b == a + (b - a);
  }

  lemma FewerLeft(todo: set<nat>, s: set<nat>, t: nat)
    requires t in todo && t in s
    ensures |todo - s| < |todo|
  {
    NoMore(todo - s, todo - {t});
  }

  lemma {:induction false} ValuesCount(m: map<nat, nat>)
    ensures |m.Values| <= |m.Keys|
    decreases |m|
  {
    if m.Keys == {} {
      assert m.Values == {};
    } else {
      var k := Pick(m.Keys);
      var m' := m - {k};
      SmallerMap(m, k);
      ValuesCount(m');
      assert m'.Keys == m.Keys - {k};
      forall v | v in m.Values ensures v in m'.Values + {m[k]} {
        var i :| i in m && m[i] == v;
        if i != k { assert i in m' && m'[i] == v; }
      }
      NoMore(m.Values, m'.Values + {m[k]});
    }
  }

  lemma TopologicalCharges(g: Cluster, f: Forest, before: Forest, steps: nat)
    requires before.chunk.Keys == g.txns && steps <= 2 * |before.chunk.Values|
    ensures Charges(g, f, MakeTopological(|before.chunk.Values|, steps), f, 20 * |before.chunk.Values| + 28 * steps)
  {
    ValuesCount(before.chunk);
  }

  lemma StartCharges(g: Cluster, f: Forest)
    ensures Charges(g, f, StartOptimizing, f, 13 * |f.chunk.Values|)
    ensures Charges(g, f, StartMinimizing, f, 18 * |f.chunk.Values|)
  {
  }

  lemma PickCharges(g: Cluster, f: Forest, popped: seq<nat>, queue: seq<nat>)
    requires Distinct(queue) && popped <= queue
    requires forall i | 0 <= i < |popped| - 1 :: popped[i] !in f.chunk.Values
    ensures Charges(g, f, PickChunk(popped), f, |popped| + 4)
  {
  }

  lemma ScanCharges(g: Cluster, f: Forest, k: nat, part: set<nat>)
    requires k in f.chunk.Values && f.Part(k) == part
    ensures Charges(g, f, PickDependency(k), f, 8 * |part| + 9)
    ensures Charges(g, f, MinimizeScan(k), f, 11 * |part| + 11)
  {
  }

  lemma EndCharges(g: Cluster, f: Forest)
    ensures Charges(g, f, MinimizeEnd(false), f, 7)
    ensures Charges(g, f, MinimizeEnd(true), f, 17 + 7)
  {
  }
}
