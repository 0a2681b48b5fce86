/** Fetching the inputs of a block in parallel, as a state machine: worker threads claim inputs
    from a shared counter, look the coins up and publish them; the main thread takes the coins of
    the inputs it asks for, waiting where it has to. Every interleaving of the steps is a run. */
module CoinsOverlay {
  import opened Options
  import opened Coins

  /** A worker between inputs, with an input claimed, with its coin stored, or finished. */
  datatype Worker = Running | Claimed(i: nat) | Fetched(i: nat) | Finished

  datatype Content = Empty | Holds(coin: Option<Coin>) | Taken

  datatype Slot = Slot(ready: bool, content: Content)

  /** The main thread: free, waiting for an input, or waiting for the workers to finish. */
  datatype Main = Free | Waiting(i: nat, k: OutPoint) | Stopping

  /** A coin asked for, the answer, and what the base held at that moment. */
  datatype Reply = Reply(k: OutPoint, coin: Option<Coin>, base: map<OutPoint, Coin>)

  datatype State = State(base: map<OutPoint, Coin>, inputs: seq<OutPoint>, slots: seq<Slot>, head: nat, tail: nat,
                         workers: seq<Worker>, main: Main, replies: seq<Reply>)

  ghost function Peek(base: map<OutPoint, Coin>, k: OutPoint): Option<Coin> {
    if k in base then Some(base[k]) else None
  }

  function Blank(n: nat): seq<Slot> {
    seq(n, i => Slot(false, Empty))
  }

  /** The overlay as it is constructed, over any base. */
  ghost predicate Initial(s: State) {
    s == State(s.base, [], [], 0, 0, [], Free, [])
  }

  /** `Start` is given the inputs of a block and the number of workers, and may fail to submit the tasks; `Write` is a
      change of the base. */
  datatype Step =
    | Start(inputs: seq<OutPoint>, count: nat, submitted: bool)
    | Write(base: map<OutPoint, Coin>)
    | Claim(w: nat)
    | Fetch(w: nat)
    | Publish(w: nat)
    | Ask(k: OutPoint)
    | Receive
    | Stop
    | Clear

  ghost predicate Enabled(s: State, step: Step) {
    match step
    case Start(_, _, _) => s.main == Free && s.workers == []
    case Write(_) => s.main == Free && s.workers == []
    case Claim(w) => w < |s.workers| && s.workers[w] == Running
    case Fetch(w) => w < |s.workers| && s.workers[w].Claimed?
    case Publish(w) => w < |s.workers| && s.workers[w].Fetched?
    case Ask(_) => s.main == Free
    case Receive => s.main.Waiting? && s.main.i < |s.slots| && s.slots[s.main.i].ready
    case Stop => s.main == Free
    case Clear => s.main == Stopping && forall w | 0 <= w < |s.workers| :: s.workers[w] == Finished
  }

  /** Workers only touch slots that exist. */
  ghost predicate InBounds(s: State) {
    && |s.slots| == |s.inputs|
    && forall w | 0 <= w < |s.workers| && (s.workers[w].Claimed? || s.workers[w].Fetched?) ::
       s.workers[w].i < |s.inputs|
  }

  ghost function Apply(s: State, step: Step): State
    requires Enabled(s, step) && InBounds(s)
  {
    match step
    case Start(inputs, count, submitted) =>
      if count == 0 || inputs == [] || !submitted then s
      else s.(inputs := inputs, slots := Blank(|inputs|), workers := seq(count, w => Running))
    case Write(base) => s.(base := base)
    case Claim(w) =>
      s.(head := s.head + 1, workers := s.workers[w := if s.head < |s.inputs| then Claimed(s.head) else Finished])
    case Fetch(w) =>
      var i := s.workers[w].i;
      s.(slots := s.slots[i := s.slots[i].(content := Holds(Peek(s.base, s.inputs[i])))],
         workers := s.workers[w := Fetched(i)])
    case Publish(w) =>
      var i := s.workers[w].i;
      s.(slots := s.slots[i := s.slots[i].(ready := true)], workers := s.workers[w := Running])
    case Ask(k) =>
      if s.tail < |s.inputs| && s.inputs[s.tail] == k then s.(tail := s.tail + 1, main := Waiting(s.tail, k))
      else s.(replies := s.replies + [Reply(k, Peek(s.base, k), s.base)])
    case Receive =>
      var i := s.main.i;
      var coin := if s.slots[i].content.Holds? then s.slots[i].content.coin else None;
      s.(slots := s.slots[i := s.slots[i].(content := Taken)], main := Free,
         replies := s.replies + [Reply(s.main.k, coin, s.base)])
    case Stop => s.(head := |s.inputs|, main := Stopping)
    case Clear => State(s.base, [], [], 0, 0, [], Free, s.replies)
  }

  // ---- The invariant

  /** Worker `w` is responsible for slot `i`. */
  ghost predicate Has(s: State, w: int, i: int) {
    0 <= w < |s.workers|
    && ((s.workers[w].Claimed? && s.workers[w].i == i) || (s.workers[w].Fetched? && s.workers[w].i == i))
  }

  /** A claimed slot is empty until its worker has fetched the coin, and not ready. */
  ghost predicate WorkerOk(s: State, w: nat)
    requires w < |s.workers| && |s.slots| == |s.inputs|
  {
    match s.workers[w]
    case Running => true
    case Claimed(i) => i < |s.inputs| && i < s.head && s.slots[i] == Slot(false, Empty)
    case Fetched(i) => i < |s.inputs| && i < s.head && s.slots[i] == Slot(false, Holds(Peek(s.base, s.inputs[i])))
    case Finished => s.head >= |s.inputs|
  }

  /** Not yet claimed, in the hands of a worker, published, or consumed. */
  ghost predicate SlotOk(s: State, i: nat)
    requires i < |s.inputs| && |s.slots| == |s.inputs|
  {
    && (s.slots[i].ready ==> i < s.head)
    && (s.slots[i].ready ==> s.slots[i].content == Taken || s.slots[i].content == Holds(Peek(s.base, s.inputs[i])))
    && (s.slots[i].content == Taken <==> s.slots[i].ready && i < s.tail && s.main != Waiting(i, s.inputs[i]))
    && (!s.slots[i].ready ==> s.slots[i].content == Empty || exists w :: Has(s, w, i))
    && (!s.slots[i].ready && i < s.head && s.main != Stopping ==> exists w :: Has(s, w, i))
    && (i < s.tail && s.main != Waiting(i, s.inputs[i]) ==> s.slots[i].ready)
  }

  ghost predicate Inv(s: State) {
    && InBounds(s) && s.tail <= |s.inputs|
    && (forall w | 0 <= w < |s.workers| :: WorkerOk(s, w))
    && (forall v, w, i | Has(s, v, i) && Has(s, w, i) :: v == w)
    && (forall i | 0 <= i < |s.inputs| :: SlotOk(s, i))
    && (s.main.Waiting? ==> s.tail > 0 && s.main.i == s.tail - 1 && s.main.k == s.inputs[s.main.i])
    && (s.workers == [] ==> s.inputs == [] && s.head == 0 && s.tail == 0)
    && (forall r | r in s.replies :: r.coin == Peek(r.base, r.k))
  }

  lemma InitialInv(s: State)
    requires Initial(s)
    ensures Inv(s)
  {
  }

  lemma StepInv(s: State, step: Step)
    requires Inv(s) && Enabled(s, step)
    ensures Inv(Apply(s, step))
  {
    match step {
      case Start(inputs, count, submitted) =>
      case Write(_) =>
      case Claim(w) => ClaimInv(s, w);
      case Fetch(w) => FetchInv(s, w);
      case Publish(w) => PublishInv(s, w);
      case Ask(k) => AskInv(s, k);
      case Receive => ReceiveInv(s);
      case Stop => StopInv(s);
      case Clear =>
    }
  }

  /** The next slot to be claimed is untouched. */
  lemma HeadIsFree(s: State)
    requires Inv(s) && s.head < |s.inputs|
    ensures s.slots[s.head] == Slot(false, Empty)
  {
    assert SlotOk(s, s.head);
    forall u | 0 <= u < |s.workers| ensures !Has(s, u, s.head) {
      assert WorkerOk(s, u);
    }
  }

  lemma ClaimInv(s: State, w: nat)
    requires Inv(s) && Enabled(s, Claim(w))
    ensures Inv(Apply(s, Claim(w)))
  {
    var s' := Apply(s, Claim(w));
    if s.head < |s.inputs| { HeadIsFree(s); }
    forall v | 0 <= v < |s'.workers| ensures WorkerOk(s', v) {
      assert WorkerOk(s, v);
    }
    forall i | 0 <= i < |s'.inputs| ensures SlotOk(s', i) {
      assert SlotOk(s, i);
      if exists u :: Has(s, u, i) {
        var u :| Has(s, u, i);
        assert Has(s', u, i);
      } else if i == s.head {
        assert Has(s', w, i);
      }
    }
    forall u, v, i | Has(s', u, i) && Has(s', v, i) ensures u == v {
      assert u != w ==> Has(s, u, i) && WorkerOk(s, u);
      assert v != w ==> Has(s, v, i) && WorkerOk(s, v);
    }
  }

  lemma FetchInv(s: State, w: nat)
    requires Inv(s) && Enabled(s, Fetch(w))
    ensures Inv(Apply(s, Fetch(w)))
  {
    var s', j := Apply(s, Fetch(w)), s.workers[w].i;
    assert WorkerOk(s, w) && Has(s, w, j) && Has(s', w, j);
    SameHolders(s, s', w);
    forall v | 0 <= v < |s'.workers| ensures WorkerOk(s', v) {
      assert WorkerOk(s, v);
      if v != w && (s.workers[v].Claimed? || s.workers[v].Fetched?) { assert Has(s, v, s.workers[v].i); }
    }
    forall i | 0 <= i < |s'.inputs| ensures SlotOk(s', i) {
      assert SlotOk(s, i);
    }
  }

  /** A worker that keeps its slot. */
  lemma SameHolders(s: State, s': State, w: nat)
    requires |s'.workers| == |s.workers| && w < |s.workers|
    requires forall v | 0 <= v < |s.workers| && v != w :: s'.workers[v] == s.workers[v]
    requires s.workers[w].Claimed? && s'.workers[w] == Fetched(s.workers[w].i)
    ensures forall v, i :: Has(s', v, i) <==> Has(s, v, i)
  {
  }

  lemma PublishInv(s: State, w: nat)
    requires Inv(s) && Enabled(s, Publish(w))
    ensures Inv(Apply(s, Publish(w)))
    ensures !s.slots[s.workers[w].i].ready
  {
    var s', j := Apply(s, Publish(w)), s.workers[w].i;
    assert WorkerOk(s, w) && Has(s, w, j);
    forall v, i | v != w ensures Has(s', v, i) <==> Has(s, v, i) {}
    forall v | 0 <= v < |s'.workers| ensures WorkerOk(s', v) {
      assert WorkerOk(s, v);
      if v != w && (s.workers[v].Claimed? || s.workers[v].Fetched?) { assert Has(s, v, s.workers[v].i); }
    }
    forall i | 0 <= i < |s'.inputs| ensures SlotOk(s', i) {
      assert SlotOk(s, i);
      if i != j && exists u :: Has(s, u, i) {
        var u :| Has(s, u, i);
        assert u != w && Has(s', u, i);
      }
    }
  }

  lemma AskInv(s: State, k: OutPoint)
    requires Inv(s) && Enabled(s, Ask(k))
    ensures Inv(Apply(s, Ask(k)))
  {
    var s' := Apply(s, Ask(k));
    forall v, i ensures Has(s', v, i) <==> Has(s, v, i) {}
    forall v | 0 <= v < |s'.workers| ensures WorkerOk(s', v) {
      assert WorkerOk(s, v);
    }
    forall i | 0 <= i < |s'.inputs| ensures SlotOk(s', i) {
      assert SlotOk(s, i);
    }
  }

  lemma ReceiveInv(s: State)
    requires Inv(s) && Enabled(s, Receive)
    ensures Inv(Apply(s, Receive))
  {
    var s', j := Apply(s, Receive), s.main.i;
    assert SlotOk(s, j);
    forall v, i ensures Has(s', v, i) <==> Has(s, v, i) {}
    forall v | 0 <= v < |s'.workers| ensures WorkerOk(s', v) {
      assert WorkerOk(s, v);
    }
    forall i | 0 <= i < |s'.inputs| ensures SlotOk(s', i) {
      assert SlotOk(s, i);
    }
  }

  lemma StopInv(s: State)
    requires Inv(s) && Enabled(s, Stop)
    ensures Inv(Apply(s, Stop))
  {
    var s' := Apply(s, Stop);
    forall v, i ensures Has(s', v, i) <==> Has(s, v, i) {}
    forall v | 0 <= v < |s'.workers| ensures WorkerOk(s', v) {
      assert WorkerOk(s, v);
    }
    forall i | 0 <= i < |s'.inputs| ensures SlotOk(s', i) {
      assert SlotOk(s, i);
    }
  }

  // ---- Runs

  /** `t` is what the steps make of `s`, each of them enabled when it is taken. */
  ghost predicate Leads(s: State, steps: seq<Step>, t: State)
    decreases |steps|
  {
    if steps == [] then t == s
    else Enabled(s, steps[0]) && InBounds(s) && Leads(Apply(s, steps[0]), steps[1..], t)
  }

  lemma {:induction false} RunInv(s: State, steps: seq<Step>, t: State)
    requires Inv(s) && Leads(s, steps, t)
    ensures Inv(t)
    decreases |steps|
  {
    hide Apply, Inv, Enabled;
    if steps != [] {
      StepInv(s, steps[0]);
      RunInv(Apply(s, steps[0]), steps[1..], t);
    }
  }

  /** Whatever the interleaving and whatever is asked for, in any order and any number of times,
      over any number of blocks with changes of the base between them, every reply is what looking the coin up in the
      base of that moment gives. */
  lemma EveryReplyIsBase(s: State, steps: seq<Step>, t: State)
    requires Initial(s) && Leads(s, steps, t)
    ensures forall r | r in t.replies :: r.coin == Peek(r.base, r.k)
  {
    InitialInv(s);
    RunInv(s, steps, t);
  }

  /** Whenever no tasks are left, however many blocks were fetched before, nothing of them is left either. */
  lemma CleanStart(s: State, steps: seq<Step>, t: State)
    requires Initial(s) && Leads(s, steps, t) && t.workers == []
    ensures t.inputs == [] && t.slots == [] && t.head == 0 && t.tail == 0
  {
    InitialInv(s);
    RunInv(s, steps, t);
  }

  /** No two workers ever have the same input, no input is published twice, and what the main thread
      takes was published and not taken before. */
  lemma NothingTwice(s: State, steps: seq<Step>, t: State)
    requires Initial(s) && Leads(s, steps, t)
    ensures InBounds(t)
    ensures forall v, w, i | Has(t, v, i) && Has(t, w, i) :: v == w
    ensures forall w: nat | Enabled(t, Publish(w)) :: !t.slots[t.workers[w].i].ready
    ensures Enabled(t, Receive) ==> t.slots[t.main.i].content == Holds(Peek(t.base, t.main.k))
  {
    InitialInv(s);
    RunInv(s, steps, t);
    forall w: nat | Enabled(t, Publish(w)) ensures !t.slots[t.workers[w].i].ready {
      assert WorkerOk(t, w);
    }
    if Enabled(t, Receive) { assert SlotOk(t, t.main.i); }
  }

  lemma CanGoOn(s: State)
    requires Inv(s) && s.main != Free
    ensures Enabled(s, Receive) || Enabled(s, Clear)
            || exists w :: 0 <= w < |s.workers| && s.workers[w] != Finished
  {
    if s.main.Waiting? {
      var i := s.main.i;
      assert SlotOk(s, i);
      if !s.slots[i].ready {
        if i < s.head {
          var w :| Has(s, w, i);
          assert s.workers[w] != Finished;
        } else {
          assert WorkerOk(s, 0);
          assert s.workers[0] != Finished;
        }
      }
    }
  }

  /** The main thread never waits in vain: as long as it cannot go on, some worker can. */
  lemma NeverStuck(s: State, steps: seq<Step>, t: State)
    requires Initial(s) && Leads(s, steps, t) && t.main != Free
    ensures Enabled(t, Receive) || Enabled(t, Clear)
            || exists w :: Enabled(t, Claim(w)) || Enabled(t, Fetch(w)) || Enabled(t, Publish(w))
  {
    InitialInv(s);
    RunInv(s, steps, t);
    CanGoOn(t);
    if w :| 0 <= w < |t.workers| && t.workers[w] != Finished {
      assert Enabled(t, Claim(w)) || Enabled(t, Fetch(w)) || Enabled(t, Publish(w));
    }
  }

  // ---- The workers come to an end

  ghost function Rank(w: Worker): nat {
    match w case Running => 1 case Fetched(_) => 2 case Claimed(_) => 3 case Finished => 0
  }

  ghost function Ranks(ws: seq<Worker>): nat {
    if ws == [] then 0 else Ranks(ws[..|ws| - 1]) + Rank(ws[|ws| - 1])
  }

  lemma {:induction false} RanksUpdate(ws: seq<Worker>, w: nat, x: Worker)
    requires w < |ws|
    ensures Ranks(ws[w := x]) == Ranks(ws) - Rank(ws[w]) + Rank(x) && Ranks(ws) >= Rank(ws[w])
    decreases |ws|
  {
    var n := |ws| - 1;
    if w < n {
      assert ws[w := x][..n] == ws[..n][w := x];
      RanksUpdate(ws[..n], w, x);
    } else {
      assert ws[w := x][..n] == ws[..n];
    }
  }

  /** How many steps the workers can still take. */
  ghost function Remaining(s: State): nat {
    (if s.head < |s.inputs| then 3 * (|s.inputs| - s.head) else 0) + Ranks(s.workers)
  }

  lemma WorkerStepsEnd(s: State, step: Step)
    requires Enabled(s, step) && InBounds(s)
    ensures step.Claim? || step.Fetch? || step.Publish? ==> Remaining(Apply(s, step)) < Remaining(s)
    ensures !(step.Claim? || step.Fetch? || step.Publish? || step.Start?) ==> Remaining(Apply(s, step)) <= Remaining(s)
  {
    if step.Claim? || step.Fetch? || step.Publish? {
      RanksUpdate(s.workers, step.w, Apply(s, step).workers[step.w]);
    }
  }
}
