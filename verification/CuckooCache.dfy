/** A fixed-size cache of elements with eight possible slots each. Erasing only marks a slot; inserting
    moves elements around for a bounded number of steps and may drop one; elements age by epochs. */
module CuckooCaches {
  import opened Options

  /** Elements are named by numbers; 0 is what an unused slot holds. */
  type Element = nat

  const UNUSED: Element := 0
  const HASHES: nat := 8
  const WORD: nat := 0x1_0000_0000

  /** Map a 32-bit hash to the range below `n`. */
  function FastRange32(x: nat, n: nat): nat {
    x * n / WORD
  }

  lemma FastRangeBelow(x: nat, n: nat)
    requires x < WORD && n > 0
    ensures FastRange32(x, n) < n
  {
    RangeBelow(x, n, WORD);
  }

  lemma RangeBelow(x: nat, n: nat, w: nat)
    requires x < w && n > 0
    ensures x * n / w < n
  {
    var q := x * n / w;
    assert x * n == w * q + x * n % w;
    assert x * n < w * n;
    assert w * q < w * n;
  }

  /** The eight slots of an element. */
  function Location(hash: (Element, nat) -> nat, size: nat, e: Element, j: nat): (loc: nat)
    requires size > 0
    ensures loc < size
  {
    FastRangeBelow(hash(e, j) % WORD, size);
    FastRange32(hash(e, j) % WORD, size)
  }

  function ComputeHashes(hash: (Element, nat) -> nat, size: nat, e: Element): (locs: seq<nat>)
    requires size > 0
    ensures |locs| == HASHES && forall i | 0 <= i < |locs| :: locs[i] == Location(hash, size, e, i)
  {
    seq(HASHES, j requires 0 <= j => Location(hash, size, e, j))
  }

  /** The slots: their elements, whether they may be overwritten, and whether they are of the current
      epoch. */
  datatype Slots = Slots(table: seq<Element>, erasable: seq<bool>, recent: seq<bool>) {
    predicate Sized(n: nat) {
      |table| == n && |erasable| == n && |recent| == n
    }
  }

  // ---- What is in the cache

  /** How many of the first `n` slots hold `x` and are not erasable. */
  ghost function Copies(s: Slots, n: nat, x: Element): nat
    requires s.Sized(|s.table|) && n <= |s.table|
  {
    if n == 0 then 0 else Copies(s, n - 1, x) + if !s.erasable[n - 1] && s.table[n - 1] == x then 1 else 0
  }

  /** How many of the first `n` slots are live and recent, or live and not recent. */
  ghost function Count(s: Slots, n: nat, recent: bool): nat
    requires s.Sized(|s.table|) && n <= |s.table|
  {
    if n == 0 then 0 else Count(s, n - 1, recent) + if !s.erasable[n - 1] && s.recent[n - 1] == recent then 1 else 0
  }

  function Put(s: Slots, i: nat, e: Element, recent: bool): Slots
    requires s.Sized(|s.table|) && i < |s.table|
  {
    Slots(s.table[i := e], s.erasable[i := false], s.recent[i := recent])
  }

  ghost function Ones(s: Slots, i: nat, recent: bool): nat
    requires s.Sized(|s.table|) && i < |s.table|
  {
    if !s.erasable[i] && s.recent[i] == recent then 1 else 0
  }

  ghost function One(b: bool): nat {
    if b then 1 else 0
  }

  lemma {:induction false} CopiesPut(s: Slots, n: nat, i: nat, e: Element, recent: bool, x: Element)
    requires s.Sized(|s.table|) && n <= |s.table| && i < |s.table|
    ensures i >= n ==> Copies(Put(s, i, e, recent), n, x) == Copies(s, n, x)
    ensures i < n ==>
            Copies(Put(s, i, e, recent), n, x) + One(!s.erasable[i] && s.table[i] == x) == Copies(s, n, x) + One(x == e)
  {
    if n > 0 {
      CopiesPut(s, n - 1, i, e, recent, x);
    }
  }

  lemma {:induction false} CountPut(s: Slots, n: nat, i: nat, e: Element, recent: bool, r: bool)
    requires s.Sized(|s.table|) && n <= |s.table| && i < |s.table|
    ensures i >= n ==> Count(Put(s, i, e, recent), n, r) == Count(s, n, r)
    ensures i < n ==> Count(Put(s, i, e, recent), n, r) + Ones(s, i, r) == Count(s, n, r) + if r == recent then 1 else 0
  {
    if n > 0 {
      CountPut(s, n - 1, i, e, recent, r);
    }
  }

  /** Marking slots erasable only lowers the counts. */
  lemma {:induction false} MoreErasable(s: Slots, s': Slots, n: nat)
    requires s.Sized(|s.table|) && n <= |s.table| && s'.Sized(|s.table|) && s'.table == s.table && s'.recent == s.recent
    requires forall i | 0 <= i < |s.table| && s.erasable[i] :: s'.erasable[i]
    ensures forall x :: Copies(s', n, x) <= Copies(s, n, x)
    ensures forall r :: Count(s', n, r) <= Count(s, n, r)
  {
    if n > 0 {
      MoreErasable(s, s', n - 1);
    }
  }

  /** What was recent is old, and what was old may be overwritten. */
  ghost predicate AgedFrom(s: Slots, s': Slots, size: nat) {
    && s.Sized(size) && s'.Sized(size) && s'.table == s.table
    && forall i | 0 <= i < size :: !s'.recent[i] && s'.erasable[i] == (s.erasable[i] || !s.recent[i])
  }

  /** A new epoch: what was recent is old, and what was old is erasable. */
  lemma {:induction false} Aged(s: Slots, s': Slots, n: nat)
    requires s.Sized(|s.table|) && n <= |s.table| && s'.Sized(|s.table|)
    requires forall i | 0 <= i < n :: !s'.recent[i] && s'.erasable[i] == (s.erasable[i] || !s.recent[i])
    ensures Count(s', n, true) == 0 && Count(s', n, false) == Count(s, n, true)
  {
    if n > 0 {
      Aged(s, s', n - 1);
    }
  }

  /** A slot's element is one that belongs there, or the slot was never used. */
  ghost predicate Placed(hash: (Element, nat) -> nat, s: Slots, i: nat)
    requires s.Sized(|s.table|) && i < |s.table|
  {
    s.table[i] != UNUSED ==> exists j :: 0 <= j < HASHES && Location(hash, |s.table|, s.table[i], j) == i
  }

  /** No element is in two slots. */
  ghost predicate Single(table: seq<Element>) {
    forall i, j | 0 <= i < j < |table| && table[i] == table[j] :: table[i] == UNUSED
  }

  /** All elements have been inserted at some time. */
  ghost predicate Known(table: seq<Element>, ever: set<Element>) {
    forall i | 0 <= i < |table| :: table[i] == UNUSED || table[i] in ever
  }

  ghost predicate SlotsOk(hash: (Element, nat) -> nat, s: Slots, size: nat, ever: set<Element>) {
    && size > 0 && s.Sized(size) && Single(s.table) && Known(s.table, ever)
    && forall i | 0 <= i < size :: Placed(hash, s, i)
  }

  lemma PutOk(hash: (Element, nat) -> nat, s: Slots, size: nat, ever: set<Element>, e: Element, j: nat, recent: bool)
    requires SlotsOk(hash, s, size, ever) && j < HASHES && (e == UNUSED || (e !in s.table && e in ever))
    ensures SlotsOk(hash, Put(s, Location(hash, size, e, j), e, recent), size, ever)
  {
    var at := Location(hash, size, e, j);
    var s' := Put(s, at, e, recent);
    forall i | 0 <= i < size ensures Placed(hash, s', i) {
      assert Placed(hash, s, i);
    }
  }

  lemma KeepOk(hash: (Element, nat) -> nat, s: Slots, size: nat, ever: set<Element>, i: nat, recent: bool)
    requires SlotsOk(hash, s, size, ever) && i < size
    ensures SlotsOk(hash, Put(s, i, s.table[i], recent), size, ever)
  {
    var s' := Put(s, i, s.table[i], recent);
    assert s'.table == s.table;
    forall k | 0 <= k < size ensures Placed(hash, s', k) {
      assert Placed(hash, s, k);
    }
  }

  lemma FlagsOk(hash: (Element, nat) -> nat, s: Slots, s': Slots, size: nat, ever: set<Element>)
    requires SlotsOk(hash, s, size, ever) && s'.table == s.table && s'.Sized(size)
    ensures SlotsOk(hash, s', size, ever)
  {
    forall k | 0 <= k < size ensures Placed(hash, s', k) {
      assert Placed(hash, s, k);
    }
  }

  // ---- The cache

  function Max(a: int, b: int): int { if a > b then a else b }

  class Cache {
    const hash: (Element, nat) -> nat
    const size: nat
    const epochSize: nat
    const depthLimit: nat
    var slots: Slots
    var counter: nat
    /** Everything that was ever inserted. */
    ghost var ever: set<Element>

    /** The most an epoch can grow beyond its size. */
    ghost function Slack(): nat {
      Max(1, epochSize / 16)
    }

    ghost predicate Shaped()
      reads this
    {
      size >= 2 && epochSize >= 1 && depthLimit >= 1 && SlotsOk(hash, slots, size, ever)
    }

    ghost predicate Valid()
      reads this
    {
      && Shaped()
      && Count(slots, size, true) + counter <= epochSize + Slack()
      && Count(slots, size, false) <= epochSize + Slack()
    }

    constructor (hash: (Element, nat) -> nat, newSize: nat, depthLimit: nat)
      requires depthLimit >= 1
      ensures Valid() && ever == {} && size == Max(2, newSize) && forall x :: Copies(slots, size, x) == 0
      ensures epochSize == Max(1, 45 * size % WORD / 100) && counter == epochSize && this.depthLimit == depthLimit
      ensures this.hash == hash && forall i | 0 <= i < size :: slots.erasable[i]
    {
      this.hash := hash;
      var n: nat := Max(2, newSize);
      size := n;
      this.depthLimit := depthLimit;
      epochSize := Max(1, 45 * n % WORD / 100);
      counter := Max(1, 45 * n % WORD / 100);
      slots := Slots(seq(n, i => UNUSED), seq(n, i => true), seq(n, i => false));
      ever := {};
      new;
      NoneLive(slots, size);
    }

    /** The number of live elements is bounded. */
    lemma Bounded()
      requires Valid()
      ensures Count(slots, size, true) + Count(slots, size, false) <= 2 * (epochSize + Slack())
    {
    }

    /** Start a new epoch if the current one is full. */
    method EpochCheck()
      requires Valid()
      modifies this
      ensures Shaped() && ever == old(ever) && slots.table == old(slots.table)
      ensures Count(slots, size, true) + counter <= epochSize + Slack() - 1
              && Count(slots, size, false) <= epochSize + Slack()
      ensures forall x :: Copies(slots, size, x) <= Copies(old(slots), size, x)
      ensures if old(counter) == 0 && Count(old(slots), size, true) >= epochSize then
                AgedFrom(old(slots), slots, size) && counter == epochSize
              else
                && slots == old(slots)
                && counter == if old(counter) > 0 then old(counter) - 1
                              else Max(1, Max(epochSize / 16, epochSize - Count(old(slots), size, true)))
    {
      hide SlotsOk;
      if counter != 0 {
        counter := counter - 1;
        return;
      }
      OkSized(hash, slots, size, ever);
      var unused := CountRecent();
      if unused >= epochSize {
        Age();
        counter := epochSize;
      } else {
        counter := Max(1, Max(epochSize / 16, epochSize - unused));
      }
    }

    /** Make old elements erasable and recent ones old. */
    method Age()
      requires size > 0 && SlotsOk(hash, slots, size, ever)
      modifies this`slots
      ensures SlotsOk(hash, slots, size, ever) && slots.table == old(slots.table)
      ensures Count(slots, size, true) == 0 && Count(slots, size, false) == Count(old(slots), size, true)
      ensures forall x :: Copies(slots, size, x) <= Copies(old(slots), size, x)
      ensures AgedFrom(old(slots), slots, size)
    {
      ghost var s := slots;
      var erasable, recent := slots.erasable, slots.recent;
      for i := 0 to size
        invariant |erasable| == size && |recent| == size
        invariant forall k | 0 <= k < i :: !recent[k] && erasable[k] == (s.erasable[k] || !s.recent[k])
        invariant forall k | i <= k < size :: recent[k] == s.recent[k] && erasable[k] == s.erasable[k]
      {
        if recent[i] {
          recent := recent[i := false];
        } else {
          erasable := erasable[i := true];
        }
      }
      slots := Slots(slots.table, erasable, recent);
      FlagsOk(hash, s, slots, size, ever);
      Aged(s, slots, size);
      FewerCopies(s, slots, size);
    }

    /** Add an element, after checking the epoch. */
    method Insert(e: Element)
      returns (ghost checked: Slots, ghost dropped: Option<Element>, ghost states: seq<Slots>, ghost moves: seq<Move>)
      requires Valid()
      modifies this
      ensures Valid() && ever == old(ever) + {e} && checked.Sized(size)
      ensures forall x :: Copies(checked, size, x) <= Copies(old(slots), size, x)
      ensures if old(counter) == 0 && Count(old(slots), size, true) >= epochSize
              then AgedFrom(old(slots), checked, size)
              else checked == old(slots)
      ensures Inserted(checked, slots, size, e, dropped)
      ensures if e != UNUSED && e in checked.table then Refreshed(checked, slots, size, e)
              else e != UNUSED ==> Displaced(hash, size, depthLimit, checked, slots, e, states, moves, dropped)
      ensures HasRoom(hash, checked, size, e) ==> dropped == None && (e != UNUSED ==> e in slots.table)
      ensures dropped == None && e != UNUSED ==> Copies(slots, size, e) == 1
    {
      hide SlotsOk, Location, Inserted, HasRoom, Refreshed, Displaced, AgedFrom;
      EpochCheck();
      checked := slots;
      OkSized(hash, slots, size, ever);
      dropped, states, moves := Place(e);
    }

    /** Put an element in its place, moving others if need be. Returns what was dropped, if anything. */
    method Place(e: Element)
      returns (ghost dropped: Option<Element>, ghost states: seq<Slots>, ghost moves: seq<Move>)
      requires Shaped() && Count(slots, size, true) + counter <= epochSize + Slack() - 1
               && Count(slots, size, false) <= epochSize + Slack()
      modifies this`slots, this`ever
      ensures Valid() && ever == old(ever) + {e} && old(slots).Sized(size)
              && Inserted(old(slots), slots, size, e, dropped)
      ensures if e != UNUSED && e in old(slots.table) then Refreshed(old(slots), slots, size, e)
              else e != UNUSED ==> Displaced(hash, size, depthLimit, old(slots), slots, e, states, moves, dropped)
      ensures HasRoom(hash, old(slots), size, e) ==> dropped == None && (e != UNUSED ==> e in slots.table)
      ensures dropped == None && e != UNUSED ==> Copies(slots, size, e) == 1
    {
      hide SlotsOk, Location;
      MoreKnown(hash, slots, size, ever, e);
      ever := ever + {e};
      OkSized(hash, slots, size, ever);
      var locs := ComputeHashes(hash, size, e);
      var at := Present(e, locs);
      if at.Some? {
        KeepOk(hash, slots, size, ever, at.value, true);
        PutCounts(slots, size, at.value, e, true);
        slots := Put(slots, at.value, e, true);
        assert slots.table[at.value] == e;
        LiveOnce(hash, slots, size, ever, at.value);
        dropped, states, moves := None, [], [];
        return;
      }
      dropped, states, moves := Displace(e, locs);
      DisplacedRoom(hash, size, depthLimit, e, states, moves, dropped);
      NotIn(states[0], size, e);
    }

    /** Put the element in a free slot of its own, or else take the place of another one and go on with
        that, up to the depth limit. */
    method Displace(e: Element, start: seq<nat>)
      returns (ghost dropped: Option<Element>, ghost states: seq<Slots>, ghost moves: seq<Move>)
      requires Shaped() && slots.Sized(size) && e in ever && (e == UNUSED || e !in slots.table)
      requires |start| == HASHES && forall j | 0 <= j < HASHES :: start[j] == Location(hash, size, e, j)
      modifies this`slots
      ensures Shaped() && slots.Sized(size)
      ensures Count(slots, size, true) <= Count(old(slots), size, true) + 1
              && Count(slots, size, false) <= Count(old(slots), size, false)
      ensures forall x :: Copies(slots, size, x) + One(dropped == Some(x)) == Copies(old(slots), size, x) + One(x == e)
      ensures Chain(hash, size, e, states, moves) && states[0] == old(slots) && states[|moves|] == slots
      ensures Ends(hash, size, depthLimit, states, moves, dropped)
    {
      hide SlotsOk, Location, Put, Copies, Count, IsNextIndex, Chain, Ends, Walking;
      var hand, recent, locs := e, true, start;
      var last: int := -1;
      states, moves := [slots], [];
      WalkingStart(hash, size, e, slots);
      for depth := 0 to depthLimit
        invariant Shaped() && slots.Sized(size) && (hand == UNUSED || (hand !in slots.table && hand in ever))
        invariant |locs| == HASHES && forall j | 0 <= j < HASHES :: locs[j] == Location(hash, size, hand, j)
        invariant forall x :: Copies(slots, size, x) + One(x == hand) == Copies(old(slots), size, x) + One(x == e)
        invariant Count(slots, size, true) + One(recent) == Count(old(slots), size, true) + 1
        invariant Count(slots, size, false) + One(!recent) == Count(old(slots), size, false)
        invariant |moves| == depth && |states| == depth + 1 && states[0] == old(slots) && states[depth] == slots
        invariant Walking(hash, size, e, states, moves, hand, recent, last)
      {
        var free := FreeSlot(locs);
        if free.Some? {
          var j := free.value;
          PutOk(hash, slots, size, ever, hand, j, recent);
          PutCounts(slots, size, locs[j], hand, recent);
          PutSized(slots, locs[j], hand, recent);
          WalkingFree(hash, size, depthLimit, e, states, moves, hand, recent, last, j);
          states, moves := states + [Put(slots, locs[j], hand, recent)], moves + [Move(hand, recent, locs[j])];
          slots := Put(slots, locs[j], hand, recent);
          return None, states, moves;
        }
        var j := NextIndex(locs, last);
        WalkingFull(hash, size, e, states, moves, hand, recent, last, locs, j);
        states, moves := states + [Put(slots, locs[j], hand, recent)], moves + [Move(hand, recent, locs[j])];
        last := locs[j];
        assert !slots.erasable[locs[j]];
        PutOk(hash, slots, size, ever, hand, j, recent);
        PutCounts(slots, size, locs[j], hand, recent);
        SwapOut(hash, slots, size, ever, hand, locs[j], recent);
        var out, outRecent := slots.table[locs[j]], slots.recent[locs[j]];
        slots := Put(slots, locs[j], hand, recent);
        hand, recent := out, outRecent;
        locs := ComputeHashes(hash, size, hand);
      }
      dropped := Some(hand);
      WalkingEnd(hash, size, depthLimit, e, states, moves, hand, recent, last);
    }

    method FreeSlot(locs: seq<nat>) returns (j: Option<nat>)
      requires slots.Sized(size) && |locs| == HASHES && forall j | 0 <= j < HASHES :: locs[j] < size
      ensures j.Some? ==>
              && j.value < HASHES && slots.erasable[locs[j.value]]
              && forall i | 0 <= i < j.value :: !slots.erasable[locs[i]]
      ensures j.None? ==> forall i | 0 <= i < HASHES :: !slots.erasable[locs[i]]
    {
      for i := 0 to HASHES
        invariant forall k | 0 <= k < i :: !slots.erasable[locs[k]]
      {
        if slots.erasable[locs[i]] {
          return Some(i);
        }
      }
      j := None;
    }

    /** Whether the element is in the table; if so, it may be marked erasable. */
    method Contains(e: Element, erase: bool) returns (found: bool)
      requires Valid()
      modifies this`slots
      ensures Valid() && slots.table == old(slots.table) && (!erase ==> slots == old(slots))
      ensures found && e != UNUSED ==> e in ever
      ensures e != UNUSED ==> (found <==> e in slots.table)
      ensures found && erase && e != UNUSED ==> Copies(slots, size, e) == 0
      ensures slots.recent == old(slots.recent) && (!found ==> slots == old(slots))
      ensures forall x | x != e :: Copies(slots, size, x) == Copies(old(slots), size, x)
    {
      hide SlotsOk, Location;
      OkSized(hash, slots, size, ever);
      var locs := ComputeHashes(hash, size, e);
      var at := Present(e, locs);
      found := at.Some?;
      if at.Some? {
        TableKnown(hash, slots, size, ever, at.value);
        if erase {
          ghost var s := slots;
          slots := slots.(erasable := slots.erasable[at.value := true]);
          FlagsOk(hash, s, slots, size, ever);
          MoreErasable(s, slots, size);
          ErasedOne(s, slots, size, at.value);
          if e != UNUSED { NoMore(hash, slots, size, ever, at.value); }
        }
      }
    }

    /** The slot the element is already in. */
    method Present(e: Element, locs: seq<nat>) returns (at: Option<nat>)
      requires Shaped() && slots.Sized(size) && |locs| == HASHES
               && forall j | 0 <= j < HASHES :: locs[j] == Location(hash, size, e, j)
      ensures at.Some? ==> at.value < size && slots.table[at.value] == e
      ensures at.None? ==> e == UNUSED || e !in slots.table
    {
      hide SlotsOk;
      for j := 0 to HASHES
        invariant forall i | 0 <= i < j :: slots.table[locs[i]] != e
      {
        if slots.table[locs[j]] == e {
          return Some(locs[j]);
        }
      }
      NotPresent(hash, slots, size, ever, e);
      at := None;
    }

    method CountRecent() returns (n: nat)
      requires size > 0 && slots.Sized(size)
      ensures n == Count(slots, size, true)
    {
      n := 0;
      for i := 0 to size
        invariant n == Count(slots, i, true)
      {
        if slots.recent[i] && !slots.erasable[i] {
          n := n + 1;
        }
      }
    }
  }

  lemma {:induction false} FewerCopies(s: Slots, s': Slots, n: nat)
    requires s.Sized(|s.table|) && n <= |s.table| && s'.Sized(|s.table|) && s'.table == s.table
    requires forall i | 0 <= i < |s.table| && s.erasable[i] :: s'.erasable[i]
    ensures forall x :: Copies(s', n, x) <= Copies(s, n, x)
  {
    if n > 0 { FewerCopies(s, s', n - 1); }
  }

  lemma MoreKnown(hash: (Element, nat) -> nat, s: Slots, size: nat, ever: set<Element>, e: Element)
    requires SlotsOk(hash, s, size, ever)
    ensures SlotsOk(hash, s, size, ever + {e})
  {
  }

  /** An element that is in the table is in one of its slots; for the unused element this is not known. */
  lemma NotPresent(hash: (Element, nat) -> nat, s: Slots, size: nat, ever: set<Element>, e: Element)
    requires SlotsOk(hash, s, size, ever) && (forall j | 0 <= j < HASHES :: s.table[Location(hash, size, e, j)] != e)
    ensures e == UNUSED || e !in s.table
  {
    if e != UNUSED {
      forall i | 0 <= i < |s.table| ensures s.table[i] != e {
        assert Placed(hash, s, i);
      }
    }
  }

  /** What an insertion does to the live elements: `e` was live and nothing changes, or it is added; and
      at most one of all these is dropped. */
  ghost predicate Inserted(s: Slots, s': Slots, size: nat, e: Element, dropped: Option<Element>) {
    && s.Sized(size) && s'.Sized(size)
    && ((dropped == None && Copies(s, size, e) > 0 && forall x :: Copies(s', size, x) == Copies(s, size, x))
        || forall x :: Copies(s', size, x) + One(dropped == Some(x)) == Copies(s, size, x) + One(x == e))
  }

  lemma PutSized(s: Slots, i: nat, e: Element, recent: bool)
    requires s.Sized(|s.table|) && i < |s.table|
    ensures Put(s, i, e, recent).Sized(|s.table|)
  {
  }

  lemma PutCounts(s: Slots, size: nat, i: nat, e: Element, recent: bool)
    requires s.Sized(size) && i < size
    ensures Put(s, i, e, recent).Sized(size)
    ensures forall x ::
            Copies(Put(s, i, e, recent), size, x) + One(!s.erasable[i] && s.table[i] == x) ==
            Copies(s, size, x) + One(x == e)
    ensures forall r :: Count(Put(s, i, e, recent), size, r) + Ones(s, i, r) == Count(s, size, r) + One(r == recent)
    ensures !s.erasable[i] ==> Copies(s, size, s.table[i]) > 0
  {
    forall x
      ensures Copies(Put(s, i, e, recent), size, x) + One(!s.erasable[i] && s.table[i] == x) ==
              Copies(s, size, x) + One(x == e)
    {
      CopiesPut(s, size, i, e, recent, x);
    }
    forall r ensures Count(Put(s, i, e, recent), size, r) + Ones(s, i, r) == Count(s, size, r) + One(r == recent) {
      CountPut(s, size, i, e, recent, r);
    }
    CopiesPut(s, size, i, s.table[i] + 1, recent, s.table[i]);
  }

  /** The element that is replaced is nowhere else. */
  lemma SwapOut(hash: (Element, nat) -> nat, s: Slots, size: nat, ever: set<Element>, e: Element, i: nat, recent: bool)
    requires SlotsOk(hash, s, size, ever) && i < size && (e == UNUSED || e !in s.table)
    ensures var out := s.table[i]; out == UNUSED || (out !in Put(s, i, e, recent).table && out in ever)
  {
    var out, t := s.table[i], Put(s, i, e, recent).table;
    if out != UNUSED {
      assert out in s.table;
      forall k | 0 <= k < |t| ensures t[k] != out {
        if k != i { assert s.table[k] != s.table[i]; }
      }
    }
  }

  // ---- Displacing

  /** An element put into a slot. */
  datatype Move = Move(hand: Element, recent: bool, at: nat)

  /** None of the eight slots of the element may be overwritten. */
  ghost predicate Full(hash: (Element, nat) -> nat, s: Slots, size: nat, e: Element)
    requires size > 0 && s.Sized(size)
  {
    forall j | 0 <= j < HASHES :: !s.erasable[Location(hash, size, e, j)]
  }

  /** The element is in the table, or one of its slots may be overwritten. */
  ghost predicate HasRoom(hash: (Element, nat) -> nat, s: Slots, size: nat, e: Element) {
    size > 0 && s.Sized(size) && ((e != UNUSED && e in s.table) || !Full(hash, s, size, e))
  }

  /** The first move puts `e` into one of its slots; all before the last meet eight slots that are full, and each puts
      what it finds there into the hand for the next. */
  ghost predicate Chain(hash: (Element, nat) -> nat, size: nat, e: Element, states: seq<Slots>, moves: seq<Move>) {
    && size > 0 && |states| == |moves| + 1 && (forall k | 0 <= k < |states| :: states[k].Sized(size))
    && (moves != [] ==> moves[0].hand == e && moves[0].recent)
    && (forall k | 0 <= k < |moves| :: Moved(hash, size, states[k], states[k + 1], moves[k]))
    && (forall k | 0 < k < |moves| :: Follows(hash, size, states[k - 1], LastAt(moves, k - 1), moves[k - 1], moves[k]))
  }

  /** Where the move before was to. */
  ghost function LastAt(moves: seq<Move>, k: nat): int
    requires k <= |moves|
  {
    if k == 0 then -1 else moves[k - 1].at
  }

  /** The move is to a slot of its element that is full like all of them, the one after that of the move before. */
  ghost predicate Bumps(hash: (Element, nat) -> nat, size: nat, s: Slots, last: int, m: Move)
    requires size > 0
  {
    && s.Sized(size) && m.at < size && Full(hash, s, size, m.hand)
    && exists j: nat :: j < HASHES && m.at == Location(hash, size, m.hand, j)
                        && IsNextIndex(ComputeHashes(hash, size, m.hand), last, j)
  }

  ghost predicate Moved(hash: (Element, nat) -> nat, size: nat, s: Slots, s': Slots, m: Move)
    requires size > 0
  {
    && s.Sized(size) && (exists j :: 0 <= j < HASHES && Location(hash, size, m.hand, j) == m.at)
    && s' == Put(s, m.at, m.hand, m.recent)
  }

  ghost predicate Follows(hash: (Element, nat) -> nat, size: nat, s: Slots, last: int, m: Move, next: Move)
    requires size > 0
  {
    Bumps(hash, size, s, last, m) && next.hand == s.table[m.at] && next.recent == s.recent[m.at]
  }

  /** Either the last move is into the first slot of its element that may be overwritten, or there were as many moves as
      are allowed, all into full slots, and what was in the last of them is dropped. */
  ghost predicate Ends(hash: (Element, nat) -> nat, size: nat, depthLimit: nat, states: seq<Slots>, moves: seq<Move>,
                       dropped: Option<Element>) {
    && size > 0 && moves != [] && |states| == |moves| + 1 && |moves| <= depthLimit
    && var s, m := states[|moves| - 1], moves[|moves| - 1];
       && s.Sized(size) && m.at < size
       && match dropped
          case None =>
            exists j :: 0 <= j < HASHES && m.at == Location(hash, size, m.hand, j) && s.erasable[m.at]
                        && forall i | 0 <= i < j :: !s.erasable[Location(hash, size, m.hand, i)]
          case Some(x) =>
            |moves| == depthLimit && Bumps(hash, size, s, LastAt(moves, |moves| - 1), m) && x == s.table[m.at]
  }

  /** The slot of the element stays, as a recent one. */
  ghost predicate Refreshed(s: Slots, s': Slots, size: nat, e: Element) {
    s.Sized(size) && exists i :: 0 <= i < size && s.table[i] == e && s' == Put(s, i, e, true)
  }

  /** The moves lead from `s` to `s'`. */
  ghost predicate Displaced(hash: (Element, nat) -> nat, size: nat, depthLimit: nat, s: Slots, s': Slots, e: Element,
                            states: seq<Slots>, moves: seq<Move>, dropped: Option<Element>) {
    && Chain(hash, size, e, states, moves) && states[0] == s && states[|moves|] == s'
    && Ends(hash, size, depthLimit, states, moves, dropped)
  }

  /** In the middle of displacing, with `hand` to be placed next. */
  ghost predicate Walking(hash: (Element, nat) -> nat, size: nat, e: Element, states: seq<Slots>, moves: seq<Move>,
                          hand: Element, recent: bool, last: int) {
    && Chain(hash, size, e, states, moves)
    && if moves == [] then hand == e && recent && last == -1
       else
         var s, m := states[|moves| - 1], moves[|moves| - 1];
         last == m.at && Follows(hash, size, s, LastAt(moves, |moves| - 1), m, Move(hand, recent, 0))
  }

  lemma WalkingStart(hash: (Element, nat) -> nat, size: nat, e: Element, s: Slots)
    requires size > 0 && s.Sized(size)
    ensures Walking(hash, size, e, [s], [], e, true, -1)
  {
  }

  /** One more move. */
  lemma WalkingOn(hash: (Element, nat) -> nat, size: nat, e: Element, states: seq<Slots>, moves: seq<Move>,
                  hand: Element, recent: bool, last: int, j: nat)
    requires Walking(hash, size, e, states, moves, hand, recent, last) && j < HASHES
    ensures states[|moves|].Sized(size)
    ensures var at := Location(hash, size, hand, j);
            Chain(hash, size, e, states + [Put(states[|moves|], at, hand, recent)], moves + [Move(hand, recent, at)])
  {
    hide Bumps, Put, Location;
    var s, at := states[|moves|], Location(hash, size, hand, j);
    var states', moves' := states + [Put(s, at, hand, recent)], moves + [Move(hand, recent, at)];
    PutSized(s, at, hand, recent);
    forall k | 0 <= k < |moves'| ensures Moved(hash, size, states'[k], states'[k + 1], moves'[k]) {
      if k < |moves| { assert Moved(hash, size, states[k], states[k + 1], moves[k]); }
    }
    forall k | 0 < k < |moves'|
      ensures Follows(hash, size, states'[k - 1], LastAt(moves', k - 1), moves'[k - 1], moves'[k])
    {
      assert LastAt(moves', k - 1) == LastAt(moves, k - 1);
      if k < |moves| { assert Follows(hash, size, states[k - 1], LastAt(moves, k - 1), moves[k - 1], moves[k]); }
    }
  }

  lemma WalkingFull(hash: (Element, nat) -> nat, size: nat, e: Element, states: seq<Slots>, moves: seq<Move>,
                    hand: Element, recent: bool, last: int, locs: seq<nat>, j: nat)
    requires Walking(hash, size, e, states, moves, hand, recent, last) && j < HASHES == |locs|
    requires size > 0 && |states| == |moves| + 1 && states[|moves|].Sized(size)
    requires forall i | 0 <= i < HASHES ::
             locs[i] == Location(hash, size, hand, i) && !states[|moves|].erasable[locs[i]]
    requires IsNextIndex(locs, last, j)
    ensures var s, at := states[|moves|], Location(hash, size, hand, j);
            Walking(hash, size, e, states + [Put(s, at, hand, recent)], moves + [Move(hand, recent, at)], s.table[at],
                    s.recent[at], at)
  {
    hide Put, Location, Chain, IsNextIndex;
    WalkingOn(hash, size, e, states, moves, hand, recent, last, j);
    assert ComputeHashes(hash, size, hand) == locs;
    assert LastAt(moves, |moves|) == last;
    var s, m := states[|moves|], Move(hand, recent, Location(hash, size, hand, j));
    assert Bumps(hash, size, s, last, m);
    var states', moves' := states + [Put(s, m.at, hand, recent)], moves + [m];
    assert states'[|moves|] == s && moves'[|moves|] == m && LastAt(moves', |moves|) == LastAt(moves, |moves|);
  }

  lemma WalkingFree(hash: (Element, nat) -> nat, size: nat, depthLimit: nat, e: Element, states: seq<Slots>,
                    moves: seq<Move>, hand: Element, recent: bool, last: int, j: nat)
    requires Walking(hash, size, e, states, moves, hand, recent, last) && j < HASHES && |moves| < depthLimit
    requires size > 0 && |states| == |moves| + 1 && states[|moves|].Sized(size)
    requires states[|moves|].erasable[Location(hash, size, hand, j)]
    requires forall i | 0 <= i < j :: !states[|moves|].erasable[Location(hash, size, hand, i)]
    ensures var s, at := states[|moves|], Location(hash, size, hand, j);
            var states', moves' := states + [Put(s, at, hand, recent)], moves + [Move(hand, recent, at)];
            Chain(hash, size, e, states', moves') && Ends(hash, size, depthLimit, states', moves', None)
  {
    hide Put, Location, Chain;
    WalkingOn(hash, size, e, states, moves, hand, recent, last, j);
  }

  lemma WalkingEnd(hash: (Element, nat) -> nat, size: nat, depthLimit: nat, e: Element, states: seq<Slots>,
                   moves: seq<Move>, hand: Element, recent: bool, last: int)
    requires Walking(hash, size, e, states, moves, hand, recent, last) && |moves| == depthLimit >= 1
    ensures Chain(hash, size, e, states, moves) && Ends(hash, size, depthLimit, states, moves, Some(hand))
  {
    hide Put, Location;
  }

  /** With room for it, the element is placed at once. */
  lemma DisplacedRoom(hash: (Element, nat) -> nat, size: nat, depthLimit: nat, e: Element, states: seq<Slots>,
                      moves: seq<Move>, dropped: Option<Element>)
    requires Chain(hash, size, e, states, moves) && Ends(hash, size, depthLimit, states, moves, dropped)
    ensures !Full(hash, states[0], size, e) ==> dropped == None && e in states[|moves|].table
  {
    hide Location;
    assert |moves| > 1 ==> Follows(hash, size, states[0], -1, moves[0], moves[1]);
    if !Full(hash, states[0], size, e) {
      assert |moves| == 1 && Moved(hash, size, states[0], states[1], moves[0]);
      assert states[1].table[moves[0].at] == e;
    }
  }

  /** An element in a slot that may not be overwritten is live once. */
  lemma LiveOnce(hash: (Element, nat) -> nat, s: Slots, size: nat, ever: set<Element>, i: nat)
    requires SlotsOk(hash, s, size, ever) && i < size && !s.erasable[i]
    ensures s.table[i] != UNUSED ==> Copies(s, size, s.table[i]) == 1
  {
    if s.table[i] != UNUSED { OnceAt(s, size, i); }
  }

  lemma {:induction false} OnceAt(s: Slots, n: nat, i: nat)
    requires s.Sized(|s.table|) && n <= |s.table| && i < |s.table| && Single(s.table) && !s.erasable[i]
             && s.table[i] != UNUSED
    ensures Copies(s, n, s.table[i]) == One(i < n)
  {
    if n > 0 {
      OnceAt(s, n - 1, i);
      assert n - 1 != i ==> s.table[n - 1] != s.table[i];
    }
  }

  lemma {:induction false} NotIn(s: Slots, n: nat, e: Element)
    requires s.Sized(|s.table|) && n <= |s.table|
    ensures e !in s.table ==> Copies(s, n, e) == 0
  {
    if n > 0 { NotIn(s, n - 1, e); }
  }

  /** What was just put into a slot is not moved again, if the eight slots are different. */
  lemma NotBack(locs: seq<nat>, last: int, j: nat)
    requires |locs| == HASHES && j < HASHES && IsNextIndex(locs, last, j)
    requires forall i, k | 0 <= i < k < |locs| :: locs[i] != locs[k]
    ensures locs[j] != last
  {
  }

  /** After the first index of the slot last used, cyclically; the second index if it is none of these slots. */
  ghost predicate IsNextIndex(locs: seq<nat>, last: int, j: nat) {
    if last in locs then exists i :: 0 <= i < |locs| && locs[i] == last && last !in locs[..i] && j == (i + 1) % HASHES
    else j == 1
  }

  /** The slot after the one last used, cyclically. */
  method NextIndex(locs: seq<nat>, last: int) returns (j: nat)
    requires |locs| == HASHES
    ensures j < HASHES && IsNextIndex(locs, last, j)
  {
    var i := 0;
    while i < HASHES && locs[i] != last
      invariant 0 <= i <= HASHES && forall k | 0 <= k < i :: locs[k] != last
    {
      i := i + 1;
    }
    j := (1 + i) % HASHES;
    assert i == HASHES ==> last !in locs;
  }

  lemma TableKnown(hash: (Element, nat) -> nat, s: Slots, size: nat, ever: set<Element>, i: nat)
    requires SlotsOk(hash, s, size, ever) && i < size
    ensures s.table[i] == UNUSED || s.table[i] in ever
  {
  }

  lemma {:induction false} ErasedOne(s: Slots, s': Slots, n: nat, i: nat)
    requires s.Sized(|s.table|) && n <= |s.table| && i < |s.table| && s' == s.(erasable := s.erasable[i := true])
    ensures s'.Sized(|s.table|) && forall x | x != s.table[i] :: Copies(s', n, x) == Copies(s, n, x)
  {
    if n > 0 { ErasedOne(s, s', n - 1, i); }
  }

  /** With its only slot erasable, the element is not live. */
  lemma NoMore(hash: (Element, nat) -> nat, s: Slots, size: nat, ever: set<Element>, i: nat)
    requires SlotsOk(hash, s, size, ever) && i < size && s.erasable[i] && s.table[i] != UNUSED
    ensures Copies(s, size, s.table[i]) == 0
  {
    NoneAt(s, size, i);
  }

  lemma {:induction false} NoneAt(s: Slots, n: nat, i: nat)
    requires s.Sized(|s.table|) && n <= |s.table| && i < |s.table| && Single(s.table) && s.erasable[i]
             && s.table[i] != UNUSED
    ensures Copies(s, n, s.table[i]) == 0
  {
    if n > 0 {
      NoneAt(s, n - 1, i);
      assert n - 1 != i ==> s.table[n - 1] != s.table[i];
    }
  }

  lemma OkSized(hash: (Element, nat) -> nat, s: Slots, size: nat, ever: set<Element>)
    requires SlotsOk(hash, s, size, ever)
    ensures s.Sized(size)
  {
  }

  lemma {:induction false} NoneLive(s: Slots, n: nat)
    requires s.Sized(|s.table|) && n <= |s.table| && forall i | 0 <= i < |s.table| :: s.erasable[i]
    ensures Count(s, n, true) == 0 && Count(s, n, false) == 0 && forall x :: Copies(s, n, x) == 0
  {
    if n > 0 { NoneLive(s, n - 1); }
  }
}
