/** The prefetching overlay on a stack of caches: with workers looking coins up below it at any time, it does what a
    plain cache in its place does. */
module OverlayRuns {
  import opened Options
  import opened Coins
  import opened CoinsCaches
  import CoinsRuns
  import opened CoinsOverlay

  class Overlay {
    const cache: CoinsCache
    /** The inputs, slots, counters and threads; the base is what is below the cache. */
    var fetch: State

    ghost function Abs(): State
      requires cache.BelowValid()
      reads this, cache, cache.belowRepr
    {
      fetch.(base := cache.BelowView(), replies := [])
    }

    ghost predicate Valid()
      reads this, cache, cache.belowRepr
    {
      this !in cache.Repr() && cache.Valid() && Inv(Abs())
    }

    /** No block is being fetched. */
    ghost predicate Idle()
      reads this
    {
      fetch == State(fetch.base, [], [], 0, 0, [], Free, fetch.replies)
    }

    constructor (base: CoinsCache)
      requires base.Valid()
      ensures Valid() && fresh(cache) && cache.below == Cache(base) && cache.View() == base.View() && Idle()
    {
      cache := new CoinsCache.OverCache(base);
      fetch := State(map[], [], [], 0, 0, [], Free, []);
      new;
      InitialInv(Abs());
    }

    /** Some worker takes its next step. */
    method Work(w: nat)
      requires Valid() && w < |fetch.workers| && fetch.workers[w] != Finished
      modifies this`fetch
      ensures Valid() && fetch.main == old(fetch.main) && |fetch.workers| == |old(fetch.workers)|
      ensures Remaining(fetch) < old(Remaining(fetch))
    {
      hide Inv;
      ghost var before := Abs();
      InvBounds(before);
      match fetch.workers[w] {
        case Running =>
          Steps(before, Claim(w));
          var next := if fetch.head < |fetch.inputs| then Claimed(fetch.head) else Finished;
          fetch := fetch.(head := fetch.head + 1, workers := fetch.workers[w := next]);
        case Claimed(i) =>
          Steps(before, Fetch(w));
          var coin := cache.PeekBelow(fetch.inputs[i]);
          fetch := fetch.(slots := fetch.slots[i := fetch.slots[i].(content := Holds(coin))],
                          workers := fetch.workers[w := Fetched(i)]);
        case Fetched(i) =>
          Steps(before, Publish(w));
          fetch := fetch.(slots := fetch.slots[i := fetch.slots[i].(ready := true)],
                          workers := fetch.workers[w := Running]);
      }
      SameRemaining(before, old(fetch));
      SameRemaining(Abs(), fetch);
    }

    /** The coin below, prefetched if it is the next input. */
    method FetchCoinFromBase(k: OutPoint) returns (r: Option<Coin>)
      requires Valid() && fetch.main == Free
      modifies this`fetch
      ensures Valid() && fetch.main == Free && r == Peek(cache.BelowView(), k)
    {
      hide Inv;
      if fetch.tail < |fetch.inputs| && fetch.inputs[fetch.tail] == k {
        var i := fetch.tail;
        Steps(Abs(), Ask(k));
        fetch := fetch.(tail := i + 1, main := Waiting(i, k));
        r := Receive();
      } else {
        r := cache.PeekBelow(k);
      }
    }

    /** Wait until the coin is ready, whatever the workers do meanwhile, and take it. */
    method Receive() returns (r: Option<Coin>)
      requires Valid() && fetch.main.Waiting?
      modifies this`fetch
      ensures Valid() && fetch.main == Free && r == Peek(cache.BelowView(), old(fetch.main.k))
    {
      hide Inv;
      var i, k := fetch.main.i, fetch.main.k;
      WaitsBelow(Abs());
      while !fetch.slots[i].ready
        invariant Valid() && fetch.main == Waiting(i, k) && i < |fetch.slots|
        decreases Remaining(fetch)
      {
        CanGoOn(Abs());
        var w :| 0 <= w < |fetch.workers| && fetch.workers[w] != Finished;
        Work(w);
        WaitsBelow(Abs());
      }
      ghost var before := Abs();
      Steps(before, CoinsOverlay.Receive);
      Received(before);
      r := if fetch.slots[i].content.Holds? then fetch.slots[i].content.coin else None;
      fetch := fetch.(slots := fetch.slots[i := fetch.slots[i].(content := Taken)], main := Free);
    }

    method StartFetching(inputs: seq<OutPoint>, count: nat, submitted: bool)
      requires Valid() && fetch.main == Free && fetch.workers == []
      modifies this`fetch
      ensures Valid() && fetch.main == Free
    {
      hide Inv;
      Steps(Abs(), Start(inputs, count, submitted));
      if count > 0 && inputs != [] && submitted {
        fetch := fetch.(inputs := inputs, slots := Blank(|inputs|), workers := seq(count, w => Running));
      }
    }

    /** Stop the workers, whatever they are doing. */
    method StopFetching()
      requires Valid() && fetch.main == Free
      modifies this`fetch
      ensures Valid() && Idle()
    {
      hide Inv;
      if fetch.workers == [] {
        NothingLeft(Abs());
        return;
      }
      Steps(Abs(), Stop);
      fetch := fetch.(head := |fetch.inputs|, main := Stopping);
      while exists w :: 0 <= w < |fetch.workers| && fetch.workers[w] != Finished
        invariant Valid() && fetch.main == Stopping
        decreases Remaining(fetch)
      {
        var w :| 0 <= w < |fetch.workers| && fetch.workers[w] != Finished;
        Work(w);
      }
      Steps(Abs(), Clear);
      fetch := State(fetch.base, [], [], 0, 0, [], Free, []);
    }

    /** Cache the coin below, if any. */
    method FetchCoin(k: OutPoint)
      requires Valid() && fetch.main == Free
      modifies this`fetch, cache
      ensures Valid() && fetch.main == Free && CoinsRuns.LayersOf(cache) == old(CoinsRuns.LayersOf(cache))
    {
      hide Inv;
      if k in cache.coins.entries {
        return;
      }
      var r := FetchCoinFromBase(k);
      var found := cache.TakeFetched(k, r);
    }

    /** An operation on the overlay: lookups and spends fetch through the prefetched inputs; whatever touches the stack
        below stops the workers first. */
    method Do(op: CoinsRuns.Op) returns (reply: CoinsRuns.Reply)
      requires Valid() && fetch.main == Free && CoinsRuns.Allowed(CoinsRuns.LayersOf(cache), op)
      modifies this`fetch, cache.Repr()
      ensures Valid() && fetch.main == Free
      ensures CoinsRuns.LayersOf(cache) == CoinsRuns.After(old(CoinsRuns.LayersOf(cache)), op)
      ensures reply == CoinsRuns.Answer(old(CoinsRuns.LayersOf(cache)), op)
    {
      hide Inv;
      if Inside(op) {
        if Fetches(op).Some? { FetchCoin(Fetches(op).value); }
        InsideKeeps(CoinsRuns.LayersOf(cache), op);
        ghost var before := Abs();
        reply := CoinsRuns.Apply(cache, op);
        assert Abs() == before;
      } else {
        StopFetching();
        reply := CoinsRuns.Apply(cache, op);
        IdleInv(Abs());
      }
    }
  }

  /** The operation is one on the overlay's own cache. */
  predicate Inside(op: CoinsRuns.Op) {
    match op
    case Get(_) => true
    case Add(_, _, _) => true
    case Spend(_) => true
    case Reset => false
    case Upkeep(level, what) => level == 0 && !what.Flush? && !what.Sync?
  }

  /** The output it looks for. */
  function Fetches(op: CoinsRuns.Op): Option<OutPoint> {
    match op
    case Get(k) => Some(k)
    case Spend(k) => Some(k)
    case Upkeep(_, Lookup(k)) => Some(k)
    case _ => None
  }

  lemma InsideKeeps(l: CoinsRuns.Layers, op: CoinsRuns.Op)
    requires CoinsRuns.Sized(l) && Inside(op)
    ensures |CoinsRuns.After(l, op).views| == |l.views| && CoinsRuns.After(l, op).views[1] == l.views[1]
  {
  }

  // ---- The state machine

  lemma InvBounds(s: State)
    requires Inv(s)
    ensures InBounds(s)
  {
  }

  /** A step keeps the invariant, with or without the replies. */
  lemma Steps(s: State, step: Step)
    requires Inv(s) && Enabled(s, step)
    ensures InBounds(s) && Inv(Apply(s, step)) && Inv(Apply(s, step).(replies := []))
    ensures step.Claim? || step.Fetch? || step.Publish? ==> Remaining(Apply(s, step)) < Remaining(s)
  {
    StepInv(s, step);
    InvBounds(s);
    WorkerStepsEnd(s, step);
    hide Apply, Enabled;
    WithoutReplies(Apply(s, step));
  }

  lemma WithoutReplies(s: State)
    requires Inv(s)
    ensures Inv(s.(replies := []))
  {
    var t := s.(replies := []);
    forall w, i ensures Has(t, w, i) <==> Has(s, w, i) {}
    forall w | 0 <= w < |t.workers| ensures WorkerOk(t, w) {
      assert WorkerOk(s, w);
    }
    forall i | 0 <= i < |t.inputs| ensures SlotOk(t, i) {
      assert SlotOk(s, i);
    }
  }

  lemma SameRemaining(s: State, t: State)
    requires s.workers == t.workers && s.head == t.head && s.inputs == t.inputs
    ensures Remaining(s) == Remaining(t)
  {
  }

  lemma WaitsBelow(s: State)
    requires Inv(s) && s.main.Waiting?
    ensures s.main.i < |s.slots|
  {
  }

  lemma Received(s: State)
    requires Inv(s) && Enabled(s, Receive)
    ensures s.slots[s.main.i].content == Holds(Peek(s.base, s.main.k))
  {
    assert SlotOk(s, s.main.i);
  }

  lemma NothingLeft(s: State)
    requires Inv(s) && s.workers == []
    ensures s.inputs == [] && s.slots == [] && s.head == 0 && s.tail == 0
  {
  }

  lemma IdleInv(s: State)
    requires s == State(s.base, [], [], 0, 0, [], Free, [])
    ensures Inv(s)
  {
  }

  // ---- Whole runs

  datatype Act = Block(inputs: seq<OutPoint>, count: nat, submitted: bool) | Background(w: nat) | Op(op: CoinsRuns.Op)

  function Ops(acts: seq<Act>): seq<CoinsRuns.Op> {
    if acts == [] then []
    else
      var before, last := Ops(acts[..|acts| - 1]), acts[|acts| - 1];
      if last.Op? then before + [last.op] else before
  }

  lemma {:induction false} OpsPrefix(acts: seq<Act>, i: nat)
    requires i <= |acts|
    ensures Ops(acts[..i]) <= Ops(acts)
    decreases |acts|
  {
    if i == |acts| {
      assert acts[..i] == acts;
    } else {
      assert acts[..|acts| - 1][..i] == acts[..i];
      OpsPrefix(acts[..|acts| - 1], i);
    }
  }

  lemma OpsNext(acts: seq<Act>, i: nat)
    requires i < |acts|
    ensures Ops(acts[..i + 1]) == (if acts[i].Op? then Ops(acts[..i]) + [acts[i].op] else Ops(acts[..i]))
    ensures Ops(acts[..i + 1]) <= Ops(acts)
  {
    assert acts[..i + 1][..i] == acts[..i];
    OpsPrefix(acts, i + 1);
  }

  /** One act; a block is only started when none is being fetched. */
  method Perform(o: Overlay, act: Act) returns (reply: CoinsRuns.Reply)
    requires o.Valid() && o.fetch.main == Free
    requires act.Op? ==> CoinsRuns.Allowed(CoinsRuns.LayersOf(o.cache), act.op)
    modifies o`fetch, o.cache.Repr()
    ensures o.Valid() && o.fetch.main == Free
    ensures act.Op? ==> CoinsRuns.LayersOf(o.cache) == CoinsRuns.After(old(CoinsRuns.LayersOf(o.cache)), act.op)
    ensures act.Op? ==> reply == CoinsRuns.Answer(old(CoinsRuns.LayersOf(o.cache)), act.op)
    ensures !act.Op? ==> CoinsRuns.LayersOf(o.cache) == old(CoinsRuns.LayersOf(o.cache))
  {
    hide Inv, CoinsRuns.After, CoinsRuns.Answer, CoinsRuns.Allowed;
    reply := CoinsRuns.Nothing;
    match act {
      case Block(inputs, count, submitted) =>
        if o.fetch.workers == [] { o.StartFetching(inputs, count, submitted); }
      case Background(w) =>
        if w < |o.fetch.workers| && o.fetch.workers[w] != Finished { o.Work(w); }
      case Op(op) =>
        reply := o.Do(op);
    }
  }

  /** However blocks are started and the workers run in between, the replies and all levels of the stack are those of
      the same operations on plain maps. */
  method Run(o: Overlay, acts: seq<Act>) returns (replies: seq<CoinsRuns.Reply>)
    requires o.Valid() && o.fetch.main == Free && CoinsRuns.AllAllowed(CoinsRuns.LayersOf(o.cache), Ops(acts))
    modifies o`fetch, o.cache.Repr()
    ensures o.Valid() && |replies| == |Ops(acts)|
    ensures CoinsRuns.LayersOf(o.cache) == CoinsRuns.AfterAll(old(CoinsRuns.LayersOf(o.cache)), Ops(acts))
    ensures forall i | 0 <= i < |replies| ::
              replies[i] == CoinsRuns.Answer(CoinsRuns.AfterAll(old(CoinsRuns.LayersOf(o.cache)), Ops(acts)[..i]),
                                             Ops(acts)[i])
  {
    hide Inv, CoinsCache.Valid, CoinsRuns.After, CoinsRuns.AfterAll, CoinsRuns.Answer, CoinsRuns.Allowed, Ops;
    ghost var start, ops := CoinsRuns.LayersOf(o.cache), Ops(acts);
    NoOps(start);
    replies := [];
    for n := 0 to |acts|
      invariant o.Valid() && o.fetch.main == Free && Ops(acts[..n]) <= ops && |replies| == |Ops(acts[..n])|
      invariant CoinsRuns.LayersOf(o.cache) == CoinsRuns.AfterAll(start, Ops(acts[..n]))
      invariant forall i | 0 <= i < |replies| ::
                  replies[i] == CoinsRuns.Answer(CoinsRuns.AfterAll(start, ops[..i]), ops[i])
    {
      OpsNext(acts, n);
      ghost var before := Ops(acts[..n]);
      if acts[n].Op? {
        assert ops[..|before|] == before && ops[|before|] == acts[n].op;
        OneMore(start, before, acts[n].op);
      }
      var reply := Perform(o, acts[n]);
      if acts[n].Op? { replies := replies + [reply]; }
    }
    assert acts[..|acts|] == acts;
  }

  lemma NoOps(l: CoinsRuns.Layers)
    requires CoinsRuns.Sized(l)
    ensures Ops([]) == [] && CoinsRuns.AfterAll(l, []) == l
  {
  }

  lemma OneMore(l: CoinsRuns.Layers, ops: seq<CoinsRuns.Op>, op: CoinsRuns.Op)
    requires CoinsRuns.Sized(l)
    ensures CoinsRuns.AfterAll(l, ops + [op]) == CoinsRuns.After(CoinsRuns.AfterAll(l, ops), op)
  {
    assert (ops + [op])[..|ops|] == ops;
  }
}
