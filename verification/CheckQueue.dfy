/** The verification queue: a master adds checks and then helps a pool of workers with them until
    all are done. Each critical section, each execution of a batch outside the lock, and each
    wake-up is one step; every interleaving of steps is a run. */
module CheckQueue {
  import opened Options

  /** Checks are named by numbers, failures by their results. */
  type Check = nat
  type Failure = nat

  /** What each check gives, `None` if it passes. */
  type Outcomes = Check -> Option<Failure>

  /** A thread outside the loop, blocked, with a batch taken, or with the batch executed; and, only
      within a step, one that has the lock and is about to decide what to do next. `local` is the
      thread's last result. */
  datatype Thread = Outside
                  | Deciding(local: Option<Failure>)
                  | Waiting(local: Option<Failure>, signalled: bool)
                  | Taken(batch: seq<Check>, doWork: bool, local: Option<Failure>)
                  | Executed(batch: seq<Check>, doWork: bool, local: Option<Failure>)

  /** Thread 0 is the master. `added` are the checks of the current session, `ran` those executed, and
      `handed` the results handed out, each with the checks of its session. */
  datatype State = State(queue: seq<Check>, nIdle: int, nTotal: int, result: Option<Failure>, nTodo: int,
                         threads: seq<Thread>, added: set<Check>, ran: set<Check>, handed: seq<Return>)

  datatype Return = Return(added: set<Check>, ran: set<Check>, result: Option<Failure>)

  const MASTER: nat := 0

  datatype Step = Add(checks: seq<Check>, notify: nat) | Enter(t: nat) | Execute(t: nat) | Lock(t: nat) | Wake(t: nat)

  // ---- The steps

  function Max(a: int, b: int): int { if a > b then a else b }

  function Min(a: int, b: int): int { if a < b then a else b }

  /** How many checks to take from the queue. */
  function BatchSize(s: State, batchSize: nat): int
    requires s.nTotal + s.nIdle >= 0
  {
    Max(1, Min(batchSize, |s.queue| / (s.nTotal + s.nIdle + 1)))
  }

  /** With the lock held and the previous batch cleaned up: return, wait, or take a batch. */
  ghost function Decide(s: State, batchSize: nat, t: nat): State
    requires t < |s.threads| && s.threads[t].Deciding? && s.nTotal + s.nIdle >= 0
  {
    var local := s.threads[t].local;
    if s.queue == [] then
      if t == MASTER && s.nTodo == 0 then
        s.(nTotal := s.nTotal - 1, result := None, threads := s.threads[t := Outside],
           added := {}, ran := {}, handed := s.handed + [Return(s.added, s.ran, s.result)])
      else
        s.(nIdle := s.nIdle + 1, threads := s.threads[t := Waiting(local, false)])
    else
      var n := BatchSize(s, batchSize);
      if n > |s.queue| then s else
        var from := |s.queue| - n;
        s.(queue := s.queue[..from], threads := s.threads[t := Taken(s.queue[from..], s.result == None, local)])
  }

  /** The result of running the checks in order up to the first failure. */
  ghost function FirstFailure(outcome: Outcomes, batch: seq<Check>): Option<Failure> {
    if batch == [] then None
    else if outcome(batch[0]).Some? then outcome(batch[0])
    else FirstFailure(outcome, batch[1..])
  }

  /** The checks that are run: all up to and including the first that fails. */
  ghost function RunOf(outcome: Outcomes, batch: seq<Check>): set<Check> {
    if batch == [] then {} else if outcome(batch[0]).Some? then {batch[0]} else {batch[0]} + RunOf(outcome, batch[1..])
  }

  ghost function Signal(th: Thread): Thread {
    if th.Waiting? then th.(signalled := true) else th
  }

  /** Wake one blocked worker, or all of them. */
  ghost function Notify(threads: seq<Thread>, checks: seq<Check>, notify: nat): seq<Thread> {
    seq(|threads|, t requires 0 <= t < |threads| =>
      if t != MASTER && (|checks| != 1 || t == notify) then Signal(threads[t]) else threads[t])
  }

  ghost predicate Enabled(s: State, step: Step) {
    match step
    case Add(checks, _) =>
      && s.threads != [] && s.threads[MASTER] == Outside
      && (forall i, j | 0 <= i < j < |checks| :: checks[i] != checks[j])
      && (forall i | 0 <= i < |checks| :: checks[i] !in s.added)
    case Enter(t) => t < |s.threads| && s.threads[t] == Outside
    case Execute(t) => t < |s.threads| && s.threads[t].Taken?
    case Lock(t) => t < |s.threads| && s.threads[t].Executed?
    case Wake(t) => t < |s.threads| && s.threads[t].Waiting?
  }

  /** Cleaning up after a batch: hand in the result, count the checks as done, tell the master. */
  ghost function CleanUp(s: State, t: nat): State
    requires t < |s.threads| && s.threads[t].Executed?
  {
    var th := s.threads[t];
    var swap := th.local.Some? && s.result == None;
    var done := s.(result := if swap then th.local else s.result, nTodo := s.nTodo - |th.batch|,
                   threads := s.threads[t := Deciding(if swap then None else th.local)]);
    if done.nTodo == 0 && t != MASTER then done.(threads := done.threads[MASTER := Signal(done.threads[MASTER])])
    else done
  }

  ghost function Entered(s: State, t: nat): State
    requires t < |s.threads|
  {
    s.(nTotal := s.nTotal + 1, threads := s.threads[t := Deciding(None)])
  }

  ghost function Woken(s: State, t: nat): State
    requires t < |s.threads| && s.threads[t].Waiting?
  {
    s.(nIdle := s.nIdle - 1, threads := s.threads[t := Deciding(s.threads[t].local)])
  }

  ghost function Apply(outcome: Outcomes, batchSize: nat, s: State, step: Step): State
    requires Enabled(s, step) && Counted(s)
  {
    match step
    case Add(checks, notify) =>
      if checks == [] then s
      else s.(queue := s.queue + checks, nTodo := s.nTodo + |checks|, threads := Notify(s.threads, checks, notify),
              added := s.added + set c | c in checks)
    case Enter(t) => Decide(Entered(s, t), batchSize, t)
    case Execute(t) =>
      var th := s.threads[t];
      s.(threads := s.threads[t := Executed(th.batch, th.doWork,
                                            if th.doWork then FirstFailure(outcome, th.batch) else th.local)],
         ran := if th.doWork then s.ran + RunOf(outcome, th.batch) else s.ran)
    case Lock(t) =>
      CleanUpCounted(s, t);
      Decide(CleanUp(s, t), batchSize, t)
    case Wake(t) =>
      SumUpdate(s.threads, Idle, t, s.threads[t]);
      Decide(Woken(s, t), batchSize, t)
  }

  // ---- Counting

  ghost function Load(th: Thread): nat {
    if th.Taken? || th.Executed? then |th.batch| else 0
  }

  ghost function Idle(th: Thread): nat {
    if th.Waiting? then 1 else 0
  }

  ghost function Inside(th: Thread): nat {
    if th.Outside? then 0 else 1
  }

  ghost function Sum(threads: seq<Thread>, f: Thread -> nat): nat {
    if threads == [] then 0 else Sum(threads[..|threads| - 1], f) + f(threads[|threads| - 1])
  }

  lemma {:induction false} SumUpdate(threads: seq<Thread>, f: Thread -> nat, t: nat, th: Thread)
    requires t < |threads|
    ensures Sum(threads[t := th], f) == Sum(threads, f) - f(threads[t]) + f(th) && Sum(threads, f) >= f(threads[t])
    decreases |threads|
  {
    var n := |threads| - 1;
    if t < n {
      assert threads[t := th][..n] == threads[..n][t := th];
      SumUpdate(threads[..n], f, t, th);
    } else {
      assert threads[t := th][..n] == threads[..n];
    }
  }

  /** The three counters: checks not finished, blocked threads, threads in the loop. */
  ghost predicate Counted(s: State) {
    && s.threads != []
    && s.nTodo == |s.queue| + Sum(s.threads, Load)
    && s.nIdle == Sum(s.threads, Idle)
    && s.nTotal == Sum(s.threads, Inside)
  }

  lemma CleanUpCounted(s: State, t: nat)
    requires Counted(s) && t < |s.threads| && s.threads[t].Executed?
    ensures Counted(CleanUp(s, t)) && CleanUp(s, t).threads[t].Deciding?
  {
    var local := if s.threads[t].local.Some? && s.result == None then None else s.threads[t].local;
    UpdateCounted(s, t, Deciding(local));
    var threads := s.threads[t := Deciding(local)];
    var done := CleanUp(s, t);
    if t != MASTER { UpdateSums(threads, MASTER, Signal(threads[MASTER])); }
  }

  lemma UpdateSums(threads: seq<Thread>, t: nat, th: Thread)
    requires t < |threads|
    ensures Sum(threads[t := th], Load) == Sum(threads, Load) - Load(threads[t]) + Load(th)
    ensures Sum(threads[t := th], Idle) == Sum(threads, Idle) - Idle(threads[t]) + Idle(th)
    ensures Sum(threads[t := th], Inside) == Sum(threads, Inside) - Inside(threads[t]) + Inside(th)
  {
    SumUpdate(threads, Load, t, th);
    SumUpdate(threads, Idle, t, th);
    SumUpdate(threads, Inside, t, th);
  }

  lemma UpdateCounted(s: State, t: nat, th: Thread)
    requires Counted(s) && t < |s.threads|
    ensures var threads := s.threads[t := th];
            && Sum(threads, Load) == s.nTodo - |s.queue| - Load(s.threads[t]) + Load(th)
            && Sum(threads, Idle) == s.nIdle - Idle(s.threads[t]) + Idle(th)
            && Sum(threads, Inside) == s.nTotal - Inside(s.threads[t]) + Inside(th)
  {
    UpdateSums(s.threads, t, th);
  }

  // ---- The invariant

  /** Thread `t` has `c` in its batch. */
  ghost predicate Has(s: State, t: int, c: Check) {
    0 <= t < |s.threads| && (s.threads[t].Taken? || s.threads[t].Executed?) && c in s.threads[t].batch
  }

  /** A batch that is not worked on was taken when there already was a failure; the local result of
      an executed batch is that of its first failing check. */
  ghost predicate ThreadOk(outcome: Outcomes, s: State, t: nat)
    requires t < |s.threads|
  {
    match s.threads[t]
    case Outside => true
    case Deciding(_) => true
    case Waiting(_, _) => true
    case Taken(batch, doWork, _) => batch != [] && (doWork || s.result.Some?)
    case Executed(batch, doWork, local) =>
      && batch != [] && (doWork || s.result.Some?)
      && (doWork ==> local == FirstFailure(outcome, batch) && RunOf(outcome, batch) <= s.ran)
  }

  ghost predicate Passed(outcome: Outcomes, ran: set<Check>, c: Check) {
    c in ran && outcome(c) == None
  }

  ghost predicate Failed(outcome: Outcomes, added: set<Check>, ran: set<Check>, r: Option<Failure>) {
    exists c :: c in added && c in ran && outcome(c) == r
  }

  /** Every check of the session is queued, in a batch, has passed, or does not matter any more. */
  ghost predicate Accounted(outcome: Outcomes, s: State, c: Check) {
    c in s.queue || (exists t :: Has(s, t, c)) || Passed(outcome, s.ran, c) || s.result.Some?
  }

  ghost predicate MasterOk(s: State)
    requires s.threads != []
  {
    s.threads[MASTER].Waiting? ==> s.queue == [] && (s.threads[MASTER].signalled || s.nTodo > 0)
  }

  ghost predicate ReturnOk(outcome: Outcomes, r: Return) {
    match r.result
    case None => forall c | c in r.added :: Passed(outcome, r.ran, c)
    case Some(_) => Failed(outcome, r.added, r.ran, r.result)
  }

  ghost predicate Inv(outcome: Outcomes, s: State) {
    && Counted(s) && MasterOk(s)
    && (forall t | 0 <= t < |s.threads| :: ThreadOk(outcome, s, t))
    && (forall c | c in s.queue :: c in s.added)
    && (forall t, c | Has(s, t, c) :: c in s.added)
    && (forall c | c in s.added :: Accounted(outcome, s, c))
    && (s.result.Some? ==> Failed(outcome, s.added, s.ran, s.result))
    && (forall r | r in s.handed :: ReturnOk(outcome, r))
  }

  // ---- Every step keeps it

  lemma {:induction false} FirstFailureRun(outcome: Outcomes, batch: seq<Check>)
    ensures FirstFailure(outcome, batch) == None ==>
            forall c | c in batch :: c in RunOf(outcome, batch) && outcome(c) == None
    ensures FirstFailure(outcome, batch).Some? ==>
              exists c :: c in batch && c in RunOf(outcome, batch) && outcome(c) == FirstFailure(outcome, batch)
    ensures forall c | c in RunOf(outcome, batch) :: c in batch
    decreases |batch|
  {
    if batch != [] {
      FirstFailureRun(outcome, batch[1..]);
      assert batch == [batch[0]] + batch[1..];
    }
  }

  lemma BatchFits(s: State, batchSize: nat)
    requires s.nTotal + s.nIdle >= 0 && s.queue != []
    ensures 1 <= BatchSize(s, batchSize) <= |s.queue|
  {
    var d := s.nTotal + s.nIdle + 1;
    var q := |s.queue| / d;
    assert q * d <= |s.queue|;
    assert q >= 0;
    if q > 0 { assert q * d >= q * 1; }
  }

  /** Only the thread `t` changed, from one without a batch to another such. */
  lemma SameBatches(s: State, s': State)
    requires |s'.threads| == |s.threads|
    requires forall t | 0 <= t < |s.threads| ::
             s'.threads[t] == s.threads[t] || (Load(s.threads[t]) == 0 && Load(s'.threads[t]) == 0
               && !s.threads[t].Taken? && !s.threads[t].Executed? && !s'.threads[t].Taken? && !s'.threads[t].Executed?)
    ensures forall t, c :: Has(s', t, c) <==> Has(s, t, c)
  {
  }

  /** Nothing that concerns the checks changed. */
  lemma KeepInv(outcome: Outcomes, s: State, s': State)
    requires Inv(outcome, s) && Counted(s') && MasterOk(s') && |s'.threads| == |s.threads|
    requires s'.queue == s.queue && s'.result == s.result && s'.added == s.added && s'.ran == s.ran
             && s'.handed == s.handed
    requires forall t, c :: Has(s', t, c) <==> Has(s, t, c)
    requires forall t | 0 <= t < |s.threads| ::
             s'.threads[t] == s.threads[t] || (!s'.threads[t].Taken? && !s'.threads[t].Executed?)
    ensures Inv(outcome, s')
  {
    forall t | 0 <= t < |s'.threads| ensures ThreadOk(outcome, s', t) {
      assert ThreadOk(outcome, s, t);
    }
    forall c | c in s'.added ensures Accounted(outcome, s', c) {
      assert Accounted(outcome, s, c);
    }
  }

  lemma EnteredInv(outcome: Outcomes, s: State, t: nat)
    requires Inv(outcome, s) && Enabled(s, Enter(t))
    ensures Inv(outcome, Entered(s, t))
  {
    UpdateCounted(s, t, Deciding(None));
    SameBatches(s, Entered(s, t));
    hide Counted;
    KeepInv(outcome, s, Entered(s, t));
  }

  lemma WokenInv(outcome: Outcomes, s: State, t: nat)
    requires Inv(outcome, s) && Enabled(s, Wake(t))
    ensures Inv(outcome, Woken(s, t))
  {
    UpdateCounted(s, t, Deciding(s.threads[t].local));
    SameBatches(s, Woken(s, t));
    KeepInv(outcome, s, Woken(s, t));
  }

  lemma ExecuteInv(outcome: Outcomes, batchSize: nat, s: State, t: nat)
    requires Inv(outcome, s) && Enabled(s, Execute(t))
    ensures Inv(outcome, Apply(outcome, batchSize, s, Execute(t)))
  {
    var s' := Apply(outcome, batchSize, s, Execute(t));
    UpdateCounted(s, t, s'.threads[t]);
    FirstFailureRun(outcome, s.threads[t].batch);
    assert ThreadOk(outcome, s, t);
    forall u, c ensures Has(s', u, c) <==> Has(s, u, c) {}
    forall u | 0 <= u < |s'.threads| ensures ThreadOk(outcome, s', u) {
      assert ThreadOk(outcome, s, u);
    }
    forall c | c in s'.added ensures Accounted(outcome, s', c) {
      assert Accounted(outcome, s, c);
    }
    if s.result.Some? {
      var c :| c in s.added && c in s.ran && outcome(c) == s.result;
      assert c in s'.ran;
    }
  }

  lemma CleanUpInv(outcome: Outcomes, s: State, t: nat)
    requires Inv(outcome, s) && Enabled(s, Lock(t))
    ensures Inv(outcome, CleanUp(s, t))
  {
    var s', th := CleanUp(s, t), s.threads[t];
    CleanUpCounted(s, t);
    assert ThreadOk(outcome, s, t);
    FirstFailureRun(outcome, th.batch);
    forall u, c ensures Has(s', u, c) <==> u != t && Has(s, u, c) {}
    forall u | 0 <= u < |s'.threads| ensures ThreadOk(outcome, s', u) {
      assert ThreadOk(outcome, s, u);
    }
    forall c | c in s'.added ensures Accounted(outcome, s', c) {
      CleanUpAccounted(outcome, s, t, c);
    }
    if s'.result.Some? && s.result == None {
      var c :| c in th.batch && c in RunOf(outcome, th.batch) && outcome(c) == th.local;
      assert Has(s, t, c);
    }
  }

  lemma CleanUpAccounted(outcome: Outcomes, s: State, t: nat, c: Check)
    requires Inv(outcome, s) && Enabled(s, Lock(t)) && c in s.added
    ensures Accounted(outcome, CleanUp(s, t), c)
  {
    var s', th := CleanUp(s, t), s.threads[t];
    assert Accounted(outcome, s, c) && ThreadOk(outcome, s, t);
    FirstFailureRun(outcome, th.batch);
    if u: int :| Has(s, u, c) && u != t {
      assert Has(s', u, c);
    }
  }

  lemma NoneHeld(outcome: Outcomes, s: State)
    requires Inv(outcome, s) && s.queue == [] && s.nTodo == 0
    ensures forall t, c :: !Has(s, t, c)
    ensures forall t | 0 <= t < |s.threads| :: !s.threads[t].Taken? && !s.threads[t].Executed?
  {
    forall t | 0 <= t < |s.threads| ensures !s.threads[t].Taken? && !s.threads[t].Executed? {
      SumUpdate(s.threads, Load, t, s.threads[t]);
      assert ThreadOk(outcome, s, t);
    }
  }

  lemma ReturnInv(outcome: Outcomes, s: State)
    requires Inv(outcome, s) && s.threads[MASTER].Deciding? && s.queue == [] && s.nTodo == 0
    ensures Inv(outcome, Decide(s, 0, MASTER))
  {
    var s' := Decide(s, 0, MASTER);
    NoneHeld(outcome, s);
    UpdateCounted(s, MASTER, Outside);
    var r := Return(s.added, s.ran, s.result);
    assert ReturnOk(outcome, r) by {
      if s.result == None {
        forall c | c in s.added ensures Passed(outcome, s.ran, c) {
          assert Accounted(outcome, s, c);
        }
      }
    }
    forall t | 0 <= t < |s'.threads| ensures ThreadOk(outcome, s', t) {}
  }

  lemma WaitInv(outcome: Outcomes, batchSize: nat, s: State, t: nat)
    requires Inv(outcome, s) && t < |s.threads| && s.threads[t].Deciding? && s.queue == []
             && (t != MASTER || s.nTodo != 0)
    ensures Inv(outcome, Decide(s, batchSize, t))
  {
    var s' := Decide(s, batchSize, t);
    UpdateCounted(s, t, Waiting(s.threads[t].local, false));
    SameBatches(s, s');
    KeepInv(outcome, s, s');
  }

  lemma TakeInv(outcome: Outcomes, batchSize: nat, s: State, t: nat)
    requires Inv(outcome, s) && t < |s.threads| && s.threads[t].Deciding? && s.queue != []
    ensures Inv(outcome, Decide(s, batchSize, t))
  {
    var s' := Decide(s, batchSize, t);
    BatchFits(s, batchSize);
    UpdateCounted(s, t, s'.threads[t]);
    var batch := s'.threads[t].batch;
    assert s.queue == s'.queue + batch;
    forall u, c ensures Has(s', u, c) <==> (u == t && c in batch) || (u != t && Has(s, u, c)) {}
    forall u | 0 <= u < |s'.threads| ensures ThreadOk(outcome, s', u) {
      assert ThreadOk(outcome, s, u);
    }
    forall c | c in s'.added ensures Accounted(outcome, s', c) {
      assert Accounted(outcome, s, c);
      if u: int :| Has(s, u, c) {
        assert Has(s', u, c);
      } else if c in batch {
        assert Has(s', t, c);
      }
    }
  }

  lemma DecideInv(outcome: Outcomes, batchSize: nat, s: State, t: nat)
    requires Inv(outcome, s) && t < |s.threads| && s.threads[t].Deciding?
    ensures Inv(outcome, Decide(s, batchSize, t))
  {
    if s.queue != [] {
      TakeInv(outcome, batchSize, s, t);
    } else if t == MASTER && s.nTodo == 0 {
      ReturnInv(outcome, s);
    } else {
      WaitInv(outcome, batchSize, s, t);
    }
  }

  lemma {:induction false} NotifySums(threads: seq<Thread>, checks: seq<Check>, notify: nat)
    ensures Sum(Notify(threads, checks, notify), Load) == Sum(threads, Load)
    ensures Sum(Notify(threads, checks, notify), Idle) == Sum(threads, Idle)
    ensures Sum(Notify(threads, checks, notify), Inside) == Sum(threads, Inside)
    decreases |threads|
  {
    if threads != [] {
      var n := |threads| - 1;
      assert Notify(threads, checks, notify)[..n] == Notify(threads[..n], checks, notify);
      NotifySums(threads[..n], checks, notify);
    }
  }

  lemma AddInv(outcome: Outcomes, batchSize: nat, s: State, checks: seq<Check>, notify: nat)
    requires Inv(outcome, s) && Enabled(s, Add(checks, notify))
    ensures Inv(outcome, Apply(outcome, batchSize, s, Add(checks, notify)))
  {
    if checks != [] {
      var s' := Apply(outcome, batchSize, s, Add(checks, notify));
      NotifySums(s.threads, checks, notify);
      assert s'.threads[MASTER] == s.threads[MASTER];
      forall u, c ensures Has(s', u, c) <==> Has(s, u, c) {}
      forall u | 0 <= u < |s'.threads| ensures ThreadOk(outcome, s', u) {
        assert ThreadOk(outcome, s, u);
      }
      forall c | c in s'.added ensures Accounted(outcome, s', c) {
        if c !in checks {
          assert Accounted(outcome, s, c);
          if u: int :| Has(s, u, c) { assert Has(s', u, c); }
        }
      }
      if s.result.Some? {
        var c :| c in s.added && c in s.ran && outcome(c) == s.result;
        assert c in s'.added;
      }
    }
  }

  lemma StepInv(outcome: Outcomes, batchSize: nat, s: State, step: Step)
    requires Inv(outcome, s) && Enabled(s, step)
    ensures Inv(outcome, Apply(outcome, batchSize, s, step))
  {
    match step {
      case Add(checks, notify) => AddInv(outcome, batchSize, s, checks, notify);
      case Enter(t) =>
        EnteredInv(outcome, s, t);
        DecideInv(outcome, batchSize, Entered(s, t), t);
      case Execute(t) => ExecuteInv(outcome, batchSize, s, t);
      case Lock(t) =>
        CleanUpCounted(s, t);
        CleanUpInv(outcome, s, t);
        DecideInv(outcome, batchSize, CleanUp(s, t), t);
      case Wake(t) =>
        WokenInv(outcome, s, t);
        DecideInv(outcome, batchSize, Woken(s, t), t);
    }
  }

  // ---- Runs

  ghost predicate Initial(s: State, n: nat) {
    && s == State([], 0, 0, None, 0, s.threads, {}, {}, [])
    && |s.threads| == n + 1 && forall t | 0 <= t <= n :: s.threads[t] == Outside
  }

  lemma {:induction false} AllOutside(threads: seq<Thread>)
    requires forall t | 0 <= t < |threads| :: threads[t] == Outside
    ensures Sum(threads, Load) == 0 && Sum(threads, Idle) == 0 && Sum(threads, Inside) == 0
    decreases |threads|
  {
    if threads != [] { AllOutside(threads[..|threads| - 1]); }
  }

  /** `t` is what the steps make of `s`, each of them enabled when it is taken. */
  ghost predicate Leads(outcome: Outcomes, batchSize: nat, s: State, steps: seq<Step>, t: State)
    decreases |steps|
  {
    if steps == [] then t == s
    else
      && Enabled(s, steps[0]) && Counted(s)
      && Leads(outcome, batchSize, Apply(outcome, batchSize, s, steps[0]), steps[1..], t)
  }

  lemma {:induction false} RunInv(outcome: Outcomes, batchSize: nat, s: State, steps: seq<Step>, t: State)
    requires Inv(outcome, s) && Leads(outcome, batchSize, s, steps, t)
    ensures Inv(outcome, t)
    decreases |steps|
  {
    hide Apply, Enabled, MasterOk, ThreadOk, Accounted, Failed, ReturnOk, Counted;
    if steps != [] {
      StepInv(outcome, batchSize, s, steps[0]);
      RunInv(outcome, batchSize, Apply(outcome, batchSize, s, steps[0]), steps[1..], t);
    }
  }

  lemma ReachedInv(outcome: Outcomes, batchSize: nat, n: nat, s: State, steps: seq<Step>, t: State)
    requires Initial(s, n) && Leads(outcome, batchSize, s, steps, t)
    ensures Inv(outcome, t)
  {
    AllOutside(s.threads);
    RunInv(outcome, batchSize, s, steps, t);
  }

  /** The counter of unfinished checks is that of queued checks and checks in batches. */
  lemma TodoIsExact(outcome: Outcomes, batchSize: nat, n: nat, s: State, steps: seq<Step>, t: State)
    requires Initial(s, n) && Leads(outcome, batchSize, s, steps, t)
    ensures t.nTodo == |t.queue| + Sum(t.threads, Load)
  {
    ReachedInv(outcome, batchSize, n, s, steps, t);
  }

  /** A master that is blocked without a pending signal waits for a batch that some worker has. */
  lemma BlockedMasterHasWorker(outcome: Outcomes, batchSize: nat, n: nat, s: State, steps: seq<Step>, t: State)
    requires Initial(s, n) && Leads(outcome, batchSize, s, steps, t)
    requires t.threads != [] && t.threads[MASTER].Waiting? && !t.threads[MASTER].signalled
    ensures exists w :: 0 < w < |t.threads| && Load(t.threads[w]) > 0
  {
    ReachedInv(outcome, batchSize, n, s, steps, t);
    var w := SomeLoad(t.threads);
  }

  lemma {:induction false} SomeLoad(threads: seq<Thread>) returns (w: nat)
    requires Sum(threads, Load) > 0
    ensures w < |threads| && Load(threads[w]) > 0
    decreases |threads|
  {
    var n := |threads| - 1;
    if Load(threads[n]) > 0 {
      w := n;
    } else {
      w := SomeLoad(threads[..n]);
    }
  }
}
