/** Whole runs of the address manager. */
module AddrRuns {
  import opened Options
  import opened AddrBook
  import opened AddrMoves
  import opened AddrMans
  import opened AddrLaws

  datatype Op =
    | Add(announced: seq<Announcement>, source: nat, penalty: int, now: int, draws: nat -> nat)
    | Good(addr: nat, testBeforeEvict: bool, time: int)
    | Attempt(addr: nat, countFailure: bool, time: int)
    | Connected(addr: nat, time: int)
    | SetServices(addr: nat, services: set<nat>)
    | GetAddr(maxAddresses: nat, maxPct: nat, network: Option<nat>, filtered: bool, now: int)
    | ResolveCollisions(isValid: nat -> bool, now: int)
    | SelectCollision

  /** Times are not negative, and those of successes are positive. */
  predicate Allowed(op: Op) {
    match op
    case Good(_, _, time) => time > 0
    case Attempt(_, _, time) => time >= 0
    case ResolveCollisions(_, now) => now > 0
    case _ => true
  }

  /** Every recorded collision whose entry exists is with an entry in its tried slot. */
  ghost predicate Real(h: Hashes, b: Book, collisions: set<nat>) {
    forall id | id in collisions && id in b.info ::
      && h.TriedSlot(b.info[id].addr) in b.tried && b.tried[h.TriedSlot(b.info[id].addr)] in b.info
      && b.info[b.tried[h.TriedSlot(b.info[id].addr)]].inTried
  }

  /** A state of the manager between operations. */
  datatype State = State(book: Book, collisions: set<nat>)

  /** The self-check passes, and collisions are real. */
  ghost predicate Sound(h: Hashes, s: State) {
    Consistent(h, s.book) && Real(h, s.book, s.collisions)
  }

  lemma ValidIsSound(h: Hashes, b: Book, collisions: set<nat>)
    requires Inv(h, b, {}, {}) && CollisionsOk(h, b, collisions)
    ensures Sound(h, State(b, collisions))
  {
    hide Inv, Consistent, CollisionsOk, Hashes.TriedSlot;
    InvIsConsistent(h, b);
    forall id | id in collisions && id in b.info
      ensures h.TriedSlot(b.info[id].addr) in b.tried && b.tried[h.TriedSlot(b.info[id].addr)] in b.info
      ensures b.info[b.tried[h.TriedSlot(b.info[id].addr)]].inTried
    {
      CollisionIsReal(h, b, collisions, id);
      InTried(h, b, h.TriedSlot(b.info[id].addr));
    }
  }

  /** A tried slot changes hands only when its entry was outlived and collisions are resolved, or at a connection that
      is not to wait for a test. */
  ghost predicate KeepsTried(h: Hashes, op: Op, s: State, s': State) {
    match op
    case Good(addr, test, time) =>
      forall slot | slot in s.book.tried ::
        && slot in s'.book.tried
        && (s'.book.tried[slot] != s.book.tried[slot] ==>
              !test && slot == h.TriedSlot(addr) && addr in s.book.addrs && s'.book.tried[slot] == s.book.addrs[addr])
    case ResolveCollisions(isValid, now) => FairlyResolved(h, s.book, s'.book, s.collisions, isValid, now)
    case _ => s'.book.tried == s.book.tried
  }

  lemma GoodKeepsTried(h: Hashes, b: Book, b': Book, addr: nat, test: bool, time: int)
    requires addr in b.addrs && b.addrs[addr] in b.info && b.info[b.addrs[addr]].addr == addr
    requires var id := b.addrs[addr];
             var touched := Touched(b, id, Succeeded(b.info[id], time));
             b' == touched
             || ((h.TriedSlot(addr) !in b.tried || !test) && MovesToTried(h, touched, b', id))
    ensures forall slot | slot in b.tried ::
              && slot in b'.tried
              && (b'.tried[slot] != b.tried[slot] ==>
                    !test && slot == h.TriedSlot(addr) && b'.tried[slot] == b.addrs[addr])
  {
    hide Hashes.TriedSlot, KeepsRecords, BackSlot;
  }

  method Apply(m: AddrMan, op: Op)
    requires m.Valid() && Allowed(op)
    modifies m
    ensures m.Valid() && Evolves(old(m.Snap()), m.Snap())
    ensures KeepsTried(m.h, op, old(State(m.Snap(), m.collisions)), State(m.Snap(), m.collisions))
  {
    hide Inv, CollisionsOk, Evolves, FairlyResolved, MovesToTried, Hashes.TriedSlot, ResolveResult, Decide;
    EvolvesSame(m.Snap());
    match op {
      case Add(announced, source, penalty, now, draws) =>
        var any, _, _ := m.Add(announced, source, penalty, now, draws);
      case Good(addr, testBeforeEvict, time) =>
        ValidAddrs(m.h, m.Snap(), {}, {});
        var moved := m.Good(addr, testBeforeEvict, time);
        if addr in old(m.addrs) {
          GoodKeepsTried(m.h, old(m.Snap()), m.Snap(), addr, testBeforeEvict, time);
        }
      case Attempt(addr, countFailure, time) => m.Attempt(addr, countFailure, time);
      case Connected(addr, time) => m.Connected(addr, time);
      case SetServices(addr, services) => m.SetServices(addr, services);
      case GetAddr(maxAddresses, maxPct, network, filtered, now) =>
        var out := m.GetAddr(maxAddresses, maxPct, network, filtered, now);
      case ResolveCollisions(isValid, now) =>
        ghost var ids, books := m.ResolveCollisions(isValid, now);
        Fairly(m.h, ids, books, old(m.collisions), isValid, now);
      case SelectCollision => var r := m.SelectTriedCollision();
    }
  }

  /** The states of a run: in each the self-check passes and collisions are real; from any to any later one, occupied
      tried slots stay occupied and ids are not reused. */
  ghost predicate SoundRun(h: Hashes, states: seq<State>) {
    && (forall i | 0 <= i < |states| :: Sound(h, states[i]))
    && (forall i, j | 0 <= i <= j < |states| :: Evolves(states[i].book, states[j].book))
  }

  lemma SoundRunPush(h: Hashes, states: seq<State>, s: State)
    requires states != [] && SoundRun(h, states) && Sound(h, s) && Evolves(states[|states| - 1].book, s.book)
    ensures SoundRun(h, states + [s])
  {
    hide Sound, Evolves;
    EvolvesSame(s.book);
    var states' := states + [s];
    forall i, j | 0 <= i <= j < |states'| ensures Evolves(states'[i].book, states'[j].book) {
      if j == |states| && i < j {
        EvolvesOn(states[i].book, states[|states| - 1].book, s.book);
      }
    }
  }

  /** Every run of public operations is sound. */
  method Run(m: AddrMan, ops: seq<Op>) returns (ghost states: seq<State>)
    requires m.Valid() && forall i | 0 <= i < |ops| :: Allowed(ops[i])
    modifies m
    ensures m.Valid() && |states| == |ops| + 1 && SoundRun(m.h, states)
    ensures states[0] == old(State(m.Snap(), m.collisions)) && states[|ops|] == State(m.Snap(), m.collisions)
    ensures forall i | 0 <= i < |ops| :: KeepsTried(m.h, ops[i], states[i], states[i + 1])
  {
    hide Inv, CollisionsOk, Evolves, Sound, KeepsTried;
    states := [State(m.Snap(), m.collisions)];
    ValidIsSound(m.h, m.Snap(), m.collisions);
    EvolvesSame(m.Snap());
    for i := 0 to |ops|
      invariant m.Valid() && |states| == i + 1 && SoundRun(m.h, states)
      invariant states[0] == old(State(m.Snap(), m.collisions)) && states[i] == State(m.Snap(), m.collisions)
      invariant forall k | 0 <= k < i :: KeepsTried(m.h, ops[k], states[k], states[k + 1])
    {
      Apply(m, ops[i]);
      ValidIsSound(m.h, m.Snap(), m.collisions);
      SoundRunPush(m.h, states, State(m.Snap(), m.collisions));
      states := states + [State(m.Snap(), m.collisions)];
    }
  }

  /** Every run from an empty manager is sound. */
  method RunFromEmpty(h: Hashes, ops: seq<Op>) returns (m: AddrMan, ghost states: seq<State>)
    requires forall i | 0 <= i < |ops| :: Allowed(ops[i])
    ensures fresh(m) && m.Valid() && |states| == |ops| + 1 && SoundRun(h, states)
    ensures states[0].book.info == map[] && states[|ops|] == State(m.Snap(), m.collisions)
    ensures forall i | 0 <= i < |ops| :: KeepsTried(h, ops[i], states[i], states[i + 1])
  {
    m := new AddrMan(h);
    states := Run(m, ops);
  }

  /** An id that was given out and is gone never comes back, and a tried slot once occupied is never empty again. */
  lemma NothingComesBack(h: Hashes, states: seq<State>, i: nat, j: nat)
    requires SoundRun(h, states) && i <= j < |states|
    ensures forall id | id < states[i].book.idCount && id !in states[i].book.info :: id !in states[j].book.info
    ensures forall slot | slot in states[i].book.tried :: slot in states[j].book.tried
  {
    hide Sound;
    assert Evolves(states[i].book, states[j].book);
  }
}
