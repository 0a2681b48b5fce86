/** What the returns of the verification queue mean, for every schedule, in terms of the checks that were added. */
module CheckRuns {
  import opened Options
  import opened CheckQueue

  /** The states that a schedule goes through, from the queue as it is constructed with `n` workers. */
  ghost predicate Schedule(outcome: Outcomes, batchSize: nat, n: nat, states: seq<State>, steps: seq<Step>) {
    && |states| == |steps| + 1 && Initial(states[0], n)
    && forall i | 0 <= i < |steps| ::
         && Enabled(states[i], steps[i]) && Counted(states[i])
         && states[i + 1] == Apply(outcome, batchSize, states[i], steps[i])
  }

  /** In step `i` the master leaves the loop. */
  ghost predicate IsReturn(states: seq<State>, steps: seq<Step>, i: nat)
    requires i < |steps| && |states| == |steps| + 1
  {
    && (steps[i] == Enter(MASTER) || steps[i] == Lock(MASTER) || steps[i] == Wake(MASTER))
    && states[i + 1].threads != [] && states[i + 1].threads[MASTER] == Outside
  }

  /** The session of step `i` began with this step: the one after the last return before it. */
  ghost function SessionStart(states: seq<State>, steps: seq<Step>, i: nat): (k: nat)
    requires i <= |steps| && |states| == |steps| + 1
    ensures k <= i
  {
    if i == 0 then 0 else if IsReturn(states, steps, i - 1) then i else SessionStart(states, steps, i - 1)
  }

  /** The checks that the master added in the steps from `lo` to before `hi`. */
  ghost function AddedIn(steps: seq<Step>, lo: nat, hi: nat): set<Check>
    requires lo <= hi <= |steps|
    decreases hi
  {
    if lo == hi then {}
    else
      AddedIn(steps, lo, hi - 1) + match steps[hi - 1] case Add(checks, _) => (set c | c in checks) case _ => {}
  }

  /** The checks that were run in these steps. */
  ghost function RanIn(outcome: Outcomes, states: seq<State>, steps: seq<Step>, lo: nat, hi: nat): set<Check>
    requires lo <= hi <= |steps| && |states| == |steps| + 1
    decreases hi
  {
    if lo == hi then {}
    else RanIn(outcome, states, steps, lo, hi - 1) + RunBy(outcome, states[hi - 1], steps[hi - 1])
  }

  ghost function RunBy(outcome: Outcomes, s: State, step: Step): set<Check> {
    match step
    case Execute(t) =>
      if t < |s.threads| && s.threads[t].Taken? && s.threads[t].doWork then RunOf(outcome, s.threads[t].batch) else {}
    case _ => {}
  }

  /** What a step does to the records of the session. */
  lemma StepRecords(outcome: Outcomes, batchSize: nat, s: State, step: Step)
    requires Enabled(s, step) && Inv(outcome, s)
    ensures var s' := Apply(outcome, batchSize, s, step);
            && s'.threads != []
            && if (step == Enter(MASTER) || step == Lock(MASTER) || step == Wake(MASTER))
            && s'.threads[MASTER] == Outside
               then
                 && s'.added == {} && s'.ran == {} && |s'.handed| == |s.handed| + 1
                 && s'.handed[..|s.handed|] == s.handed
                 && s'.handed[|s.handed|].added == s.added && s'.handed[|s.handed|].ran == s.ran
               else
                 && s'.added == s.added + (match step case Add(checks, _) => (set c | c in checks) case _ => {})
                 && s'.ran == s.ran + RunBy(outcome, s, step) && s'.handed == s.handed
  {
    match step {
      case Add(checks, notify) => NotifiedMaster(s, checks, notify);
      case Enter(t) => DecideRecords(Entered(s, t), batchSize, t);
      case Execute(t) =>
      case Lock(t) =>
        CleanUpCounted(s, t);
        hide Counted, Sum;
        DecideRecords(CleanUp(s, t), batchSize, t);
      case Wake(t) =>
        WokenCounts(s, t);
        DecideRecords(Woken(s, t), batchSize, t);
    }
  }

  lemma NotifiedMaster(s: State, checks: seq<Check>, notify: nat)
    requires s.threads != []
    ensures |Notify(s.threads, checks, notify)| == |s.threads|
  {
  }

  lemma WokenCounts(s: State, t: nat)
    requires Counted(s) && t < |s.threads| && s.threads[t].Waiting?
    ensures Woken(s, t).nTotal + Woken(s, t).nIdle >= 0
  {
    SumUpdate(s.threads, Idle, t, s.threads[t]);
  }

  lemma DecideRecords(s: State, batchSize: nat, t: nat)
    requires t < |s.threads| && s.threads[t].Deciding? && s.nTotal + s.nIdle >= 0
    ensures var s' := Decide(s, batchSize, t);
            && |s'.threads| == |s.threads|
            && if t == MASTER && s'.threads[MASTER] == Outside then
                 s'.added == {} && s'.ran == {} && s'.handed == s.handed + [Return(s.added, s.ran, s.result)]
               else s'.added == s.added && s'.ran == s.ran && s'.handed == s.handed
  {
  }

  /** The records of the session are those of its steps. */
  lemma {:induction false} RecordsAt(outcome: Outcomes, batchSize: nat, n: nat, states: seq<State>, steps: seq<Step>,
                                     i: nat)
    requires Schedule(outcome, batchSize, n, states, steps) && i <= |steps|
    ensures Inv(outcome, states[i])
    ensures var k := SessionStart(states, steps, i);
            states[i].added == AddedIn(steps, k, i) && states[i].ran == RanIn(outcome, states, steps, k, i)
    decreases i
  {
    hide Inv, Apply, Enabled, Counted, RunBy;
    if i == 0 {
      InitialInv(outcome, states[0], n);
    } else {
      RecordsAt(outcome, batchSize, n, states, steps, i - 1);
      StepInv(outcome, batchSize, states[i - 1], steps[i - 1]);
      StepRecords(outcome, batchSize, states[i - 1], steps[i - 1]);
    }
  }

  lemma InitialInv(outcome: Outcomes, s: State, n: nat)
    requires Initial(s, n)
    ensures Inv(outcome, s) && s.added == {} && s.ran == {}
  {
    AllOutside(s.threads);
  }

  /** For any number of workers and any schedule, every return is right: it gives no failure only if every check added
      since the return before it was run and passed, and otherwise that of one of these checks, which was run. */
  lemma EveryReturnIsRight(outcome: Outcomes, batchSize: nat, n: nat, states: seq<State>, steps: seq<Step>, i: nat)
    requires Schedule(outcome, batchSize, n, states, steps) && i < |steps| && IsReturn(states, steps, i)
    ensures var k := SessionStart(states, steps, i);
            var added, ran := AddedIn(steps, k, i), RanIn(outcome, states, steps, k, i);
            && |states[i + 1].handed| == |states[i].handed| + 1
            && states[i + 1].handed[..|states[i].handed|] == states[i].handed
            && match states[i + 1].handed[|states[i].handed|].result
               case None => forall c | c in added :: c in ran && outcome(c) == None
               case Some(failure) => exists c :: c in added && c in ran && outcome(c) == Some(failure)
  {
    hide Inv, Apply, Enabled, Counted, RunBy;
    RecordsAt(outcome, batchSize, n, states, steps, i);
    RecordsAt(outcome, batchSize, n, states, steps, i + 1);
    StepRecords(outcome, batchSize, states[i], steps[i]);
    HandedOk(outcome, states[i + 1], |states[i].handed|);
  }

  lemma HandedOk(outcome: Outcomes, s: State, i: nat)
    requires Inv(outcome, s) && i < |s.handed|
    ensures match s.handed[i].result
            case None => forall c | c in s.handed[i].added :: c in s.handed[i].ran && outcome(c) == None
            case Some(failure) => exists c ::
              c in s.handed[i].added && c in s.handed[i].ran && outcome(c) == Some(failure)
  {
    assert s.handed[i] in s.handed;
    assert ReturnOk(outcome, s.handed[i]);
    if s.handed[i].result == None {
      forall c | c in s.handed[i].added ensures c in s.handed[i].ran && outcome(c) == None {
        assert Passed(outcome, s.handed[i].ran, c);
      }
    }
  }

  // ---- The master returns, and checks are taken

  /** A master that comes to decide when nothing is left returns. */
  lemma MasterReturns(outcome: Outcomes, batchSize: nat, n: nat, states: seq<State>, steps: seq<Step>, i: nat)
    requires Schedule(outcome, batchSize, n, states, steps) && i < |steps|
    requires steps[i] == Enter(MASTER) || steps[i] == Lock(MASTER) || steps[i] == Wake(MASTER)
    requires states[i + 1].queue == [] && states[i + 1].nTodo == 0
    ensures IsReturn(states, steps, i)
  {
    RecordsAt(outcome, batchSize, n, states, steps, i);
    var s := states[i];
    match steps[i] {
      case Enter(_) =>
      case Lock(_) => CleanUpCounted(s, MASTER);
      case Wake(_) => WokenCounts(s, MASTER);
    }
  }

  /** `n` is the largest number that is neither above the maximum nor above a share of `total`, but at least one. */
  ghost predicate IsShare(n: int, batchSize: nat, total: int, share: int) {
    1 <= n && (n == 1 || (n <= batchSize && n * share <= total)) && (n >= batchSize || (n + 1) * share > total)
  }

  lemma SizeIsShare(s: State, batchSize: nat)
    requires s.nTotal + s.nIdle >= 0 && s.queue != []
    ensures IsShare(BatchSize(s, batchSize), batchSize, |s.queue|, s.nTotal + s.nIdle + 1)
  {
    var total, share := |s.queue|, s.nTotal + s.nIdle + 1;
    var n, q := BatchSize(s, batchSize), |s.queue| / share;
    Quotient(total, share, q);
    assert n == Max(1, Min(batchSize, q));
    hide BatchSize;
    if n <= q { ShareLine(q, n, share); }
    if n >= q { ShareLine(n, q, share); }
  }

  lemma Quotient(total: int, share: int, q: int)
    requires share > 0 && total >= 0 && q == total / share
    ensures q * share <= total < (q + 1) * share && q >= 0
  {
    assert total == share * (total / share) + total % share;
  }

  /** A thread that comes to decide while checks are queued takes its share of them, from the back. */
  lemma TakesShare(s: State, batchSize: nat, t: nat)
    requires Counted(s) && t < |s.threads| && s.threads[t].Deciding? && s.queue != []
    ensures var s' := Decide(s, batchSize, t);
            && s'.threads[t].Taken? && s'.queue + s'.threads[t].batch == s.queue
            && IsShare(|s'.threads[t].batch|, batchSize, |s.queue|, s.nTotal + s.nIdle + 1)
  {
    hide IsShare, Sum;
    BatchFits(s, batchSize);
    SizeIsShare(s, batchSize);
  }

  lemma ShareLine(a: int, b: int, share: int)
    requires a >= b && share > 0
    ensures a * share >= b * share && (a + 1) * share >= (b + 1) * share
  {
    assert (a - b) * share >= 0;
  }
}
