/** The address manager. */
module AddrMans {
  import opened BinaryPowers
  import opened Options
  import opened AddrBook
  import opened AddrMoves

  const HORIZON: int := 30 * 24 * 3600
  const RETRIES: int := 3
  const MAX_FAILURES: int := 10
  const MIN_FAIL: int := 7 * 24 * 3600
  const REPLACEMENT: int := 4 * 3600
  const SET_TRIED_COLLISION_SIZE: nat := 10
  const TEST_WINDOW: int := 40 * 60

  /** Whether the statistics are bad enough to drop the entry. */
  predicate IsTerrible(e: AddrInfo, now: int) {
    if now - e.lastTry <= 60 then false
    else
      || e.time > now + 600
      || now - e.time > HORIZON
      || (e.lastSuccess == 0 && e.attempts >= RETRIES)
      || (now - e.lastSuccess > MIN_FAIL && e.attempts >= MAX_FAILURES)
  }

  /** An address as announced; `self` if by the node itself. */
  datatype Announcement = Announcement(addr: nat, network: nat, routable: bool, self: bool, time: int,
                                       services: set<nat>)

  datatype Verdict = Forget | Wait | Replace

  /** What to do about a recorded collision: forget it if the entry is gone or no longer valid, or the one in its way
      has connected recently; replace that one if testing it failed or was not possible in time; else wait. */
  ghost function Decide(h: Hashes, b: Book, id: nat, isValid: nat -> bool, now: int): Verdict {
    if id !in b.info || !isValid(b.info[id].addr) then Forget
    else
      var slot := h.TriedSlot(b.info[id].addr);
      if slot !in b.tried || b.tried[slot] !in b.info then Replace
      else
        var other := b.info[b.tried[slot]];
        if now - other.lastSuccess < REPLACEMENT then Forget
        else if now - other.lastTry < REPLACEMENT then if now - other.lastTry > 60 then Replace else Wait
        else if now - b.info[id].lastSuccess > TEST_WINDOW then Replace
        else Wait
  }

  /** The first record of an announced address. */
  function Announced(a: Announcement, source: nat, penalty: int): AddrInfo {
    AddrInfo(a.addr, a.network, source,
             if a.time - penalty > 0 then a.time - penalty else 0, a.services, 0, 0, 0, 0, 0, false, -1)
  }

  /** The record of a known address after an announcement: its services grow, and its time follows at intervals. */
  function Refreshed(e: AddrInfo, a: Announcement, penalty: int, now: int): AddrInfo {
    var interval := if now - a.time < 24 * 3600 then 3600 else 24 * 3600;
    var t := if a.time - penalty > 0 then a.time - penalty else 0;
    e.(time := if e.time < a.time - interval - penalty then t else e.time, services := e.services + a.services)
  }

  /** The announcement tells something about an entry that may have more slots. */
  predicate IsNews(e: AddrInfo, a: Announcement) {
    a.time > e.time && !e.inTried && e.refCount < NEW_BUCKETS_PER_ADDRESS
  }

  /** An entry in `n` slots gets another one for one in two to the power of `n` draws. */
  predicate Lucky(e: AddrInfo, draw: nat) {
    e.refCount <= 0 || draw % Pow2(e.refCount) == 0
  }

  /** An entry may enter a slot of the new table that is free, or whose entry is terrible, or has other slots when the
      new one has none. */
  ghost predicate MayEnter(b: Book, slot: Slot, id: nat, now: int) {
    || slot !in b.newTable
    || (b.newTable[slot] != id && b.newTable[slot] in b.info && id in b.info &&
        (IsTerrible(b.info[b.newTable[slot]], now)
         || (b.info[b.newTable[slot]].refCount > 1 && b.info[id].refCount == 0)))
  }

  /** The record after a successful connection. */
  function Succeeded(e: AddrInfo, time: int): AddrInfo {
    e.(lastSuccess := time, lastTry := time, attempts := 0)
  }

  /** The record after a connection attempt; a failure counts once per successful connection to anyone. */
  function Tried(e: AddrInfo, countFailure: bool, lastGood: int, time: int): AddrInfo {
    if countFailure && e.lastCountAttempt < lastGood then
      e.(lastTry := time, lastCountAttempt := time, attempts := e.attempts + 1)
    else e.(lastTry := time)
  }

  /** The record after a connection ended, which only moves the time on by more than twenty minutes. */
  function SeenAt(e: AddrInfo, time: int): AddrInfo {
    if time - e.time > 20 * 60 then e.(time := time) else e
  }

  /** Every recorded collision that still has its entry has an occupied tried slot. */
  ghost predicate CollisionsOk(h: Hashes, b: Book, collisions: set<nat>) {
    forall id | id in collisions :: id < b.idCount && (id in b.info ==> h.TriedSlot(b.info[id].addr) in b.tried)
  }

  lemma CollisionsStay(h: Hashes, b: Book, b': Book, collisions: set<nat>)
    requires CollisionsOk(h, b, collisions) && Evolves(b, b')
    ensures CollisionsOk(h, b', collisions)
  {
    hide Hashes.TriedSlot;
  }

  class AddrMan {
    const h: Hashes
    var idCount: nat
    var info: Infos
    var addrs: map<nat, nat>
    var random: seq<nat>
    var nTried: int
    var nNew: int
    var tried: Table
    var newTable: Table
    var counts: map<nat, Counts>
    var lastGood: int
    var collisions: set<nat>

    ghost function Snap(): Book
      reads this
    {
      Book(idCount, info, addrs, random, nTried, nNew, tried, newTable, counts)
    }

    ghost predicate Valid()
      reads this
    {
      Inv(h, Snap(), {}, {}) && CollisionsOk(h, Snap(), collisions)
    }

    constructor (h: Hashes)
      ensures Valid() && info == map[] && tried == map[] && newTable == map[] && collisions == {} && this.h == h
    {
      this.h := h;
      idCount, info, addrs, random, nTried, nNew := 0, map[], map[], [], 0, 0;
      tried, newTable, counts, lastGood, collisions := map[], map[], map[], 1, {};
      new;
      EmptyInv(h, Snap());
    }

    /** The id of an address. */
    method Find(addr: nat) returns (r: Option<nat>)
      requires AddrsOk(info, addrs)
      ensures r.Some? <==> addr in addrs
      ensures r.Some? ==> r.value in info && info[r.value].addr == addr
    {
      if addr in addrs {
        r := Some(addrs[addr]);
      } else {
        r := None;
      }
    }

    /** Make an entry for an address, not in any table yet. */
    method Create(e: AddrInfo) returns (id: nat)
      modifies this`idCount, this`info, this`addrs, this`random, this`nNew, this`counts
      ensures id == old(idCount) && Snap() == Created(old(Snap()), e)
    {
      id := idCount;
      idCount := idCount + 1;
      info := info[id := e.(randomPos := |random|)];
      addrs := addrs[e.addr := id];
      random := random + [id];
      nNew := nNew + 1;
      counts := AddNews(counts, e.network, 1);
    }

    method SwapRandom(i: nat, j: nat)
      requires i < |random| && j < |random| && random[i] in info && random[j] in info
      modifies this`info, this`random
      ensures Snap() == Swapped(old(Snap()), i, j)
    {
      if i == j {
        return;
      }
      var x, y := random[i], random[j];
      info := info[x := info[x].(randomPos := j)];
      info := info[y := info[y].(randomPos := i)];
      random := random[i := y];
      random := random[j := x];
    }

    /** Delete an entry that is in no table. */
    method Delete(id: nat)
      requires InPlace(Snap(), id) && !info[id].inTried && info[id].refCount == 0
      modifies this`info, this`random, this`addrs, this`nNew, this`counts
      ensures Snap() == Deleted(old(Snap()), id)
    {
      hide Swapped, Dropped;
      SwappedHas(Snap(), id);
      SwapRandom(info[id].randomPos, |random| - 1);
      DropLast(id);
    }

    /** Forget the entry at the end of the random order. */
    method DropLast(id: nat)
      requires id in info && random != []
      modifies this`info, this`random, this`addrs, this`nNew, this`counts
      ensures Snap() == Dropped(old(Snap()), id)
    {
      counts := AddNews(counts, info[id].network, -1);
      random := random[..|random| - 1];
      addrs := addrs - {info[id].addr};
      info := info - {id};
      nNew := nNew - 1;
    }

    /** Clear a slot of the new table, deleting the entry if that was its last one. */
    method ClearNew(slot: Slot, ghost limbo: set<nat>, ghost pending: set<nat>)
      requires Inv(h, Snap(), limbo, pending)
      modifies this`info, this`random, this`addrs, this`nNew, this`counts, this`newTable
      ensures CanClear(old(Snap()), slot) && Snap() == Cleared(old(Snap()), slot)
    {
      hide Inv, Deleted;
      ClearedInv(h, Snap(), limbo, pending, slot);
      if slot in newTable {
        SlotClearedInv(h, Snap(), limbo, pending, slot);
        var id := newTable[slot];
        assert info[id].refCount > 0;
        info := info[id := info[id].(refCount := info[id].refCount - 1)];
        newTable := newTable - {slot};
        if info[id].refCount == 0 {
          Delete(id);
        }
      }
    }

    /** Remove an entry from all its slots of the new table. */
    method TakeOutOfNew(id: nat)
      requires Inv(h, Snap(), {}, {}) && id in info && !info[id].inTried
      modifies this`info, this`newTable
      ensures Inv(h, Snap(), {}, {id}) && info == old(info)[id := old(info[id]).(refCount := 0)]
      ensures newTable == Without(old(newTable), id)
    {
      hide Inv, From;
      var start := h.NewBucket(info[id].addr, info[id].source);
      NoRefs(h, Snap(), {}, {}, id);
      ghost var e := info[id];
      SlotsFrom(newTable, id, start);
      var n := 0;
      while n < NEW_BUCKET_COUNT && info[id].refCount != 0
        invariant n <= NEW_BUCKET_COUNT && id in info && info == old(info)[id := e.(refCount := info[id].refCount)]
        invariant Inv(h, Snap(), {}, if info[id].refCount == 0 then {id} else {})
        invariant info[id].refCount >= 0 && From(newTable, id, start, n)
        invariant newTable.Keys <= old(newTable).Keys
                  && (forall slot | slot in newTable :: newTable[slot] == old(newTable)[slot])
        invariant forall slot | slot in old(newTable) && slot !in newTable :: old(newTable)[slot] == id
      {
        var bucket := (start + n) % NEW_BUCKET_COUNT;
        var slot := Slot(bucket, h.BucketPosition(true, bucket, info[id].addr));
        FromNext(h, Snap(), id, start, n);
        if slot in newTable && newTable[slot] == id {
          SlotClearedInv(h, Snap(), {}, {}, slot);
          newTable := newTable - {slot};
          info := info[id := info[id].(refCount := info[id].refCount - 1)];
          assert {} + {id} == {id};
        }
        n := n + 1;
      }
      if info[id].refCount != 0 {
        NoneFrom(h, Snap(), id, start);
      }
      NoSlots(h, Snap(), {}, {id}, id);
    }

    /** Take the entry out of a tried slot. */
    method Evict(slot: Slot) returns (id: nat)
      requires slot in tried && tried[slot] in info
      modifies this`info, this`nTried, this`counts, this`tried
      ensures id == old(tried[slot]) && Snap() == Evicted(old(Snap()), slot)
    {
      id := tried[slot];
      info := info[id := info[id].(inTried := false)];
      tried := tried - {slot};
      nTried := nTried - 1;
      counts := AddTrieds(counts, info[id].network, -1);
    }

    /** Put an entry that is counted nowhere into a free slot of the new table. */
    method EnterNew(slot: Slot, id: nat)
      requires id in info && slot !in newTable && info[id].refCount == 0
      modifies this`info, this`nNew, this`counts, this`newTable
      ensures Snap() == SlotAdded(Counted(old(Snap()), id), slot, id)
    {
      info := info[id := info[id].(refCount := 1)];
      newTable := newTable[slot := id];
      nNew := nNew + 1;
      counts := AddNews(counts, info[id].network, 1);
    }

    /** Move the entry in a tried slot back to the new table. */
    method Displace(slot: Slot, ghost id: nat)
      requires Inv(h, Snap(), {id}, {}) && slot in tried
      modifies this`info, this`random, this`addrs, this`nNew, this`nTried, this`counts, this`newTable, this`tried
      ensures CanDisplace(h, old(Snap()), slot) && Snap() == Displaced(h, old(Snap()), slot)
    {
      hide Inv, Cleared, CanClear, Evicted, SlotAdded, Counted;
      ghost var before := Snap();
      DisplacedInv(h, before, id, slot);
      EvictedInv(h, before, {id}, {}, slot);
      var addr, source := info[tried[slot]].addr, info[tried[slot]].source;
      var evict := Evict(slot);
      var bucket := h.NewBucket(addr, source);
      var newSlot := Slot(bucket, h.BucketPosition(true, bucket, addr));
      NoSlotsInLimbo(h, Snap(), {id} + {evict}, newSlot, evict);
      ClearNew(newSlot, {id} + {evict}, {});
      EnterNew(newSlot, evict);
    }

    /** No longer count an entry as new. */
    method Uncount(id: nat)
      requires id in info
      modifies this`nNew, this`counts
      ensures Snap() == Uncounted(old(Snap()), id)
    {
      nNew := nNew - 1;
      counts := AddNews(counts, info[id].network, -1);
    }

    /** Put an entry into a free slot of the tried table. */
    method EnterTried(slot: Slot, id: nat)
      requires id in info && slot !in tried
      modifies this`info, this`nTried, this`counts, this`tried
      ensures Snap() == MovedToTried(old(Snap()), slot, id)
    {
      tried := tried[slot := id];
      nTried := nTried + 1;
      info := info[id := info[id].(inTried := true)];
      counts := AddTrieds(counts, info[id].network, 1);
    }

    /** Move an entry that is in no slot of the new table to the tried table. */
    method Promote(id: nat)
      requires Inv(h, Snap(), {}, {id}) && id in info && info[id].lastSuccess > 0
      modifies this`info, this`random, this`addrs, this`nNew, this`nTried, this`counts, this`newTable, this`tried
      ensures CanPromote(h, old(Snap()), id) && Snap() == Promoted(h, old(Snap()), id)
    {
      hide Inv, Displaced, CanDisplace, MovedToTried, Hashes.TriedSlot;
      ghost var before := Snap();
      PromotedInv(h, before, id);
      UncountedInv(h, before, {}, {id}, id);
      NoRefs(h, before, {}, {id}, id);
      var slot := h.TriedSlot(info[id].addr);
      Uncount(id);
      assert info[id].refCount == 0;
      if slot in tried {
        assert {} + {id} == {id} && {id} - {id} == {};
        DisplacedInv(h, Snap(), id, slot);
        Displace(slot, id);
      }
      EnterTried(slot, id);
    }

    /** Add one announced address to the new table. Returns whether it was put into a bucket. */
    method AddSingle(a: Announcement, source: nat, penalty: int, now: int, draw: nat) returns (inserted: bool)
      requires Valid()
      modifies this
      ensures Valid() && Evolves(old(Snap()), Snap()) && lastGood == old(lastGood) && collisions == old(collisions)
      ensures AddResult(h, old(Snap()), Snap(), a, source, if a.self then 0 else penalty, now, draw, inserted)
    {
      hide Inv, CollisionsOk, Evolves, AddResult, EnterResult, MayEnter, Hashes.NewSlot, Hashes.NewBucket, IsTerrible;
      ghost var before := Snap();
      if !a.routable {
        EvolvesSame(before);
        AddNothing(h, before, a, source, if a.self then 0 else penalty, now, draw);
        return false;
      }
      ValidAddrs(h, before, {}, {});
      var found := Find(a.addr);
      var timePenalty := if a.self then 0 else penalty;
      if found.Some? {
        inserted := AddKnownTo(found.value, a, source, timePenalty, now, draw);
      } else {
        inserted := AddUnknownTo(a, source, timePenalty, now, draw);
      }
    }

    /** Refresh a known address, and put it into the bucket for the source if there is news. */
    method AddKnownTo(id: nat, a: Announcement, source: nat, penalty: int, now: int, draw: nat)
      returns (inserted: bool)
      requires Valid() && a.routable && a.addr in addrs && id == addrs[a.addr] && id in info && info[id].addr == a.addr
      modifies this
      ensures Valid() && Evolves(old(Snap()), Snap()) && lastGood == old(lastGood) && collisions == old(collisions)
      ensures AddResult(h, old(Snap()), Snap(), a, source, penalty, now, draw, inserted)
    {
      hide Inv, CollisionsOk, Evolves, AddResult, EnterResult, MayEnter, Hashes.NewSlot, Hashes.NewBucket, IsTerrible;
      ghost var before := Snap();
      var more := Refresh(id, a, penalty, now, draw);
      EvolvesTouch(before, id, info[id]);
      CollisionsStay(h, before, Snap(), collisions);
      if !more {
        AddRefreshed(h, before, a, source, penalty, now, draw);
        return false;
      }
      NoRefs(h, Snap(), {}, {}, id);
      ghost var middle := Snap();
      inserted := PutInNew(id, source, now);
      EnterFacts(h, middle, Snap(), id, h.NewSlot(a.addr, h.NewBucket(a.addr, source)), inserted);
      CollisionsStay(h, middle, Snap(), collisions);
      EvolvesOn(before, middle, Snap());
      AddKnown(h, before, Snap(), a, source, penalty, now, draw, inserted);
    }

    /** Make an entry for an unknown address, and put it into the bucket for the source, or forget it again. */
    method AddUnknownTo(a: Announcement, source: nat, penalty: int, now: int, ghost draw: nat)
      returns (inserted: bool)
      requires Valid() && a.routable && a.addr !in addrs
      modifies this
      ensures Valid() && Evolves(old(Snap()), Snap()) && lastGood == old(lastGood) && collisions == old(collisions)
      ensures AddResult(h, old(Snap()), Snap(), a, source, penalty, now, draw, inserted)
    {
      hide Inv, CollisionsOk, Evolves, AddResult, EnterResult, MayEnter, Hashes.NewSlot, Hashes.NewBucket, IsTerrible;
      ghost var before := Snap();
      var e := Announced(a, source, penalty);
      CreatedInv(h, before, {}, {}, e);
      EvolvesCreate(h, before, e);
      var id := Create(e);
      CollisionsStay(h, before, Snap(), collisions);
      assert {} + {id} == {id};
      ghost var middle := Snap();
      inserted := PutInNew(id, source, now);
      EnterFacts(h, middle, Snap(), id, h.NewSlot(a.addr, h.NewBucket(a.addr, source)), inserted);
      CollisionsStay(h, middle, Snap(), collisions);
      EvolvesOn(before, middle, Snap());
      AddUnknown(h, before, Snap(), a, source, penalty, now, draw, inserted);
    }

    /** Update a known address from an announcement; returns whether to look for another bucket. */
    method Refresh(id: nat, a: Announcement, penalty: int, now: int, draw: nat) returns (more: bool)
      requires Inv(h, Snap(), {}, {}) && id in info
      modifies this`info
      ensures id in info && info == old(info)[id := Refreshed(old(info[id]), a, penalty, now)]
      ensures more <==> IsNews(info[id], a) && Lucky(info[id], draw)
      ensures Inv(h, Snap(), {}, {})
    {
      hide Inv;
      NoRefs(h, Snap(), {}, {}, id);
      var e := info[id];
      var interval := if now - a.time < 24 * 3600 then 3600 else 24 * 3600;
      var t := if a.time - penalty > 0 then a.time - penalty else 0;
      var newTime := if e.time < a.time - interval - penalty then t else e.time;
      var e' := e.(time := newTime, services := e.services + a.services);
      TouchInv(h, Snap(), {}, {}, id, e');
      info := info[id := e'];
      if a.time <= info[id].time || info[id].inTried || info[id].refCount == NEW_BUCKETS_PER_ADDRESS {
        return false;
      }
      if info[id].refCount > 0 {
        var factor := Pow2(info[id].refCount);
        if draw % factor != 0 {
          return false;
        }
      }
      more := true;
    }

    /** Put an entry into a slot of the new table, over what is there. */
    method PutIn(slot: Slot, id: nat)
      requires id in info && (slot in newTable ==> newTable[slot] != id)
      requires Inv(h, Snap(), {}, if info[id].refCount == 0 then {id} else {})
      modifies this`info, this`random, this`addrs, this`nNew, this`counts, this`newTable
      ensures CanClear(old(Snap()), slot) && id in Cleared(old(Snap()), slot).info
      ensures Snap() == SlotAdded(Cleared(old(Snap()), slot), slot, id)
    {
      hide Inv, CanClear, Cleared, Deleted;
      ghost var pending := if info[id].refCount == 0 then {id} else {};
      ClearedFor(h, Snap(), pending, slot, id);
      ClearNew(slot, {}, pending);
      info := info[id := info[id].(refCount := info[id].refCount + 1)];
      newTable := newTable[slot := id];
    }

    /** Put an entry into the bucket for a source, if there is room or what is there may go. */
    method PutInNew(id: nat, source: nat, now: int) returns (inserted: bool)
      requires id in info && !info[id].inTried && info[id].refCount < NEW_BUCKETS_PER_ADDRESS
      requires Inv(h, Snap(), {}, if info[id].refCount == 0 then {id} else {})
      modifies this`info, this`random, this`addrs, this`nNew, this`counts, this`newTable
      ensures inserted <==>
              MayEnter(old(Snap()), h.NewSlot(old(info[id].addr), h.NewBucket(old(info[id].addr), source)), id, now)
      ensures EnterResult(h, old(Snap()), Snap(), id,
                          h.NewSlot(old(info[id].addr), h.NewBucket(old(info[id].addr), source)), inserted)
    {
      hide Inv, EnterResult, CanClear, Cleared, Deleted, SlotAdded, IsTerrible, Hashes.NewSlot, Hashes.NewBucket;
      ghost var before := Snap();
      ghost var pending := if info[id].refCount == 0 then {id} else {};
      var slot := h.NewSlot(info[id].addr, h.NewBucket(info[id].addr, source));
      inserted := slot !in newTable;
      OccupiedBy(h, before, pending, slot, id);
      NoRefs(h, before, {}, pending, id);
      if slot in newTable && newTable[slot] == id {
        EnterNothing(h, before, id, slot);
        return;
      }
      if !inserted {
        var existing := info[newTable[slot]];
        if IsTerrible(existing, now) || (existing.refCount > 1 && info[id].refCount == 0) {
          inserted := true;
        }
      }
      if inserted {
        EnterSlot(h, before, id, source, slot);
        PutIn(slot, id);
      } else if info[id].refCount == 0 {
        EnterDropped(h, before, id, slot);
        Delete(id);
      } else {
        EnterNothing(h, before, id, slot);
      }
    }

    /** Move an entry from the new table to the tried table; an entry in its way goes back to new. */
    method MakeTried(id: nat)
      requires Inv(h, Snap(), {}, {}) && id in info && !info[id].inTried && info[id].lastSuccess > 0
      modifies this`info, this`random, this`addrs, this`nNew, this`nTried, this`counts, this`newTable, this`tried
      ensures Inv(h, Snap(), {}, {}) && Evolves(old(Snap()), Snap())
      ensures id in info && info[id].inTried
      ensures MovesToTried(h, old(Snap()), Snap(), id)
    {
      hide Inv, Promoted, CanPromote;
      ghost var before := Snap();
      TakeOutOfNew(id);
      ghost var out := Snap();
      PromotedInv(h, out, id);
      PromotedMoves(h, out, id);
      Promote(id);
      EvolvesOn(before, out, Snap());
      RecordsOne(before.info, id, out.info[id]);
      KeepsOn(before.info, out.info, info);
      OccupantKnown(h, before, h.TriedSlot(before.info[id].addr), id);
    }

    /** Add announced addresses, one after the other. */
    method Add(announced: seq<Announcement>, source: nat, penalty: int, now: int, draws: nat -> nat)
      returns (any: bool, ghost books: seq<Book>, ghost taken: seq<bool>)
      requires Valid()
      modifies this
      ensures Valid() && Evolves(old(Snap()), Snap()) && lastGood == old(lastGood) && collisions == old(collisions)
      ensures |taken| == |announced| && AddResults(h, announced, source, penalty, now, draws, books, taken)
      ensures books[0] == old(Snap()) && books[|announced|] == Snap() && (any <==> true in taken)
      ensures tried == old(tried) && (!any ==> newTable == old(newTable))
    {
      hide Inv, CollisionsOk, Evolves, AddResult;
      EvolvesSame(Snap());
      any, books, taken := false, [Snap()], [];
      for i := 0 to |announced|
        invariant Valid() && Evolves(old(Snap()), Snap()) && lastGood == old(lastGood) && collisions == old(collisions)
        invariant |taken| == i && AddResults(h, announced, source, penalty, now, draws, books, taken)
        invariant books[0] == old(Snap()) && books[i] == Snap() && (any <==> true in taken)
        invariant tried == old(tried) && (!any ==> newTable == old(newTable))
      {
        ghost var before := Snap();
        var inserted := AddSingle(announced[i], source, penalty, now, draws(i));
        AddTables(h, before, Snap(), announced[i], source, if announced[i].self then 0 else penalty, now, draws(i),
                  inserted);
        EvolvesOn(old(Snap()), before, Snap());
        any, books, taken := any || inserted, books + [Snap()], taken + [inserted];
      }
    }

    /** Overwrite the statistics of an entry. */
    method Touch(id: nat, e: AddrInfo)
      requires Valid() && id in info && SamePlace(info[id], e) && e.inTried == info[id].inTried
               && e.refCount == info[id].refCount
      requires e.lastTry >= 0 && e.lastSuccess >= 0 && (e.inTried ==> e.lastSuccess > 0)
      modifies this`info
      ensures Valid() && Evolves(old(Snap()), Snap()) && info == old(info)[id := e]
    {
      hide Inv, CollisionsOk, Evolves;
      ghost var before := Snap();
      TouchInv(h, before, {}, {}, id, e);
      EvolvesTouch(before, id, e);
      info := info[id := e];
      CollisionsStay(h, before, Snap(), collisions);
    }

    /** A successful connection: move the address to the tried table, unless that would evict another
        one that is to be tested first; then note the collision. */
    method Good(addr: nat, testBeforeEvict: bool, time: int) returns (moved: bool)
      requires Valid() && time > 0
      modifies this
      ensures Valid() && Evolves(old(Snap()), Snap()) && lastGood == time
      ensures addr !in old(addrs) ==> !moved && Snap() == old(Snap()) && collisions == old(collisions)
      ensures addr in old(addrs) ==>
                var id := old(addrs[addr]);
                && id in old(info)
                && var touched := Touched(old(Snap()), id, Succeeded(old(info[id]), time));
                && var free := h.TriedSlot(addr) !in old(tried) || !testBeforeEvict;
                && (moved <==> !old(info[id]).inTried && free)
                && (moved ==> MovesToTried(h, touched, Snap(), id))
                && (!moved ==> Snap() == touched)
                && collisions == if !old(info[id]).inTried && !free && |old(collisions)| < SET_TRIED_COLLISION_SIZE
                                 then old(collisions) + {id} else old(collisions)
    {
      hide Inv, CollisionsOk, Evolves;
      ghost var start := Snap();
      EvolvesSame(start);
      lastGood := time;
      ValidAddrs(h, start, {}, {});
      var found := Find(addr);
      if found == None {
        return false;
      }
      var id := found.value;
      NoRefs(h, start, {}, {}, id);
      Touch(id, Succeeded(info[id], time));
      if info[id].inTried {
        return false;
      }
      assert info[id].refCount > 0;
      var bucket := h.TriedBucket(info[id].addr);
      var slot := Slot(bucket, h.BucketPosition(false, bucket, info[id].addr));
      ghost var touched := Snap();
      if testBeforeEvict && slot in tried {
        if |collisions| < SET_TRIED_COLLISION_SIZE {
          ValidIds(h, touched, id);
          CollisionAdded(h, touched, collisions, id);
          collisions := collisions + {id};
        }
        return false;
      }
      MakeTried(id);
      CollisionsStay(h, touched, Snap(), collisions);
      EvolvesOn(start, touched, Snap());
      moved := true;
    }

    /** A connection attempt. */
    method Attempt(addr: nat, countFailure: bool, time: int)
      requires Valid() && time >= 0
      modifies this`info
      ensures Valid() && Evolves(old(Snap()), Snap())
      ensures addr !in addrs ==> info == old(info)
      ensures addr in addrs ==>
              addrs[addr] in old(info)
              && info == old(info)[addrs[addr] := Tried(old(info)[addrs[addr]], countFailure, lastGood, time)]
    {
      hide Inv, CollisionsOk, Evolves;
      EvolvesSame(Snap());
      ValidAddrs(h, Snap(), {}, {});
      var found := Find(addr);
      if found.Some? {
        var id := found.value;
        NoRefs(h, Snap(), {}, {}, id);
        var e := info[id].(lastTry := time);
        if countFailure && e.lastCountAttempt < lastGood {
          e := e.(lastCountAttempt := time, attempts := e.attempts + 1);
        }
        Touch(id, e);
      }
    }

    /** A peer was connected until now. */
    method Connected(addr: nat, time: int)
      requires Valid()
      modifies this`info
      ensures Valid() && Evolves(old(Snap()), Snap())
      ensures addr !in addrs ==> info == old(info)
      ensures addr in addrs ==>
              addrs[addr] in old(info) && info == old(info)[addrs[addr] := SeenAt(old(info)[addrs[addr]], time)]
    {
      hide Inv, CollisionsOk, Evolves;
      EvolvesSame(Snap());
      ValidAddrs(h, Snap(), {}, {});
      var found := Find(addr);
      if found.Some? {
        var id := found.value;
        NoRefs(h, Snap(), {}, {}, id);
        if time - info[id].time > 20 * 60 {
          Touch(id, info[id].(time := time));
        }
      }
    }

    method SetServices(addr: nat, services: set<nat>)
      requires Valid()
      modifies this`info
      ensures Valid() && Evolves(old(Snap()), Snap())
      ensures addr !in addrs ==> info == old(info)
      ensures addr in addrs ==>
              addrs[addr] in old(info)
              && info == old(info)[addrs[addr] := old(info)[addrs[addr]].(services := services)]
    {
      hide Inv, CollisionsOk, Evolves;
      EvolvesSame(Snap());
      ValidAddrs(h, Snap(), {}, {});
      var found := Find(addr);
      if found.Some? {
        NoRefs(h, Snap(), {}, {}, found.value);
        Touch(found.value, info[found.value].(services := services));
      }
    }

    /** Addresses in random order, of good quality unless not `filtered`, at most a share of all. */
    method GetAddr(maxAddresses: nat, maxPct: nat, network: Option<nat>, filtered: bool, now: int)
      returns (out: seq<nat>)
      requires Valid()
      modifies this`info, this`random
      ensures Valid() && Evolves(old(Snap()), Snap()) && SameButRandom(old(info), info)
      ensures maxAddresses != 0 ==> |out| <= maxAddresses
      ensures maxPct != 0 && maxPct <= 100 ==> 100 * |out| <= maxPct * |old(info)|
      ensures forall i, j | 0 <= i < j < |out| :: out[i] != out[j]
      ensures forall i | 0 <= i < |out| :: Wanted(info, addrs, random, out[i], network, filtered, now)
      ensures |out| < Share(maxAddresses, maxPct, |old(info)|) ==>
              forall a | Wanted(info, addrs, random, a, network, filtered, now) :: a in out
    {
      hide Inv, CollisionsOk, Evolves, IsTerrible, SameButRandom, Listed;
      EvolvesSame(Snap());
      RandomSize(h, Snap());
      var nodes := |random|;
      if maxPct != 0 {
        nodes := (if maxPct < 100 then maxPct else 100) * nodes / 100;
      }
      if maxAddresses != 0 && maxAddresses < nodes {
        nodes := maxAddresses;
      }
      out := [];
      NoneListed(info, addrs, random[..0], network, filtered, now);
      var n := 0;
      while n < |random| && |out| < nodes
        invariant n <= |random| == |old(random)| && |out| <= nodes
        invariant Valid() && Evolves(old(Snap()), Snap()) && SameButRandom(old(info), info) && addrs == old(addrs)
        invariant Listed(info, addrs, random[..n], out, network, filtered, now)
        decreases |random| - n
      {
        ghost var before := Snap();
        out := TakeNext(n, out, network, filtered, now);
        n := n + 1;
        EvolvesOn(old(Snap()), before, Snap());
        RandomTwice(old(info), before.info, info);
      }
      AllListed(info, addrs, random, n, out, network, filtered, now);
    }

    /** Move a random one of the remaining entries to position `n`, and list it if wanted. */
    method TakeNext(n: nat, before: seq<nat>, network: Option<nat>, filtered: bool, now: int) returns (out: seq<nat>)
      requires Valid() && n < |random| && Listed(info, addrs, random[..n], before, network, filtered, now)
      modifies this`info, this`random
      ensures Valid() && Evolves(old(Snap()), Snap()) && SameButRandom(old(info), info) && |random| == |old(random)|
      ensures |before| <= |out| <= |before| + 1 && Listed(info, addrs, random[..n + 1], out, network, filtered, now)
    {
      hide Inv, CollisionsOk, Evolves, IsTerrible, SameButRandom, Listed;
      var draw := Draw(|random| - n);
      ghost var b := Snap();
      SwappedInv(h, b, {}, {}, n, n + draw);
      SwapRandom(n, n + draw);
      EvolvesSwap(b, n, n + draw);
      CollisionsStay(h, b, Snap(), collisions);
      assert random[..n] == b.random[..n];
      RandomNext(h, b, Snap(), n, before, network, filtered, now);
      var e := info[random[n]];
      out := before;
      if (network.None? || e.network == network.value) && !(filtered && IsTerrible(e, now)) {
        out := out + [e.addr];
      }
    }

    /** Decide about one collision; returns whether it is settled. */
    method Resolve(id: nat, isValid: nat -> bool, now: int) returns (settled: bool)
      requires Valid() && now > 0 && id in collisions
      modifies this
      ensures Valid() && Evolves(old(Snap()), Snap()) && collisions == old(collisions)
      ensures settled <==> Decide(h, old(Snap()), id, isValid, now) != Wait
      ensures ResolveResult(h, old(Snap()), Snap(), id, isValid, now)
      ensures lastGood == if Decide(h, old(Snap()), id, isValid, now) == Replace then now else old(lastGood)
    {
      hide Inv, CollisionsOk, Evolves, MovesToTried;
      EvolvesSame(Snap());
      ValidAddrs(h, Snap(), {}, {});
      if id !in info {
        return true;
      }
      var bucket := h.TriedBucket(info[id].addr);
      var slot := Slot(bucket, h.BucketPosition(false, bucket, info[id].addr));
      if !isValid(info[id].addr) {
        return true;
      }
      if slot in tried {
        InTried(h, Snap(), slot);
        var before := info[tried[slot]];
        if now - before.lastSuccess < REPLACEMENT {
          return true;
        } else if now - before.lastTry < REPLACEMENT {
          if now - before.lastTry > 60 {
            var moved := Good(info[id].addr, false, now);
            return true;
          }
          return false;
        } else if now - info[id].lastSuccess > TEST_WINDOW {
          var moved := Good(info[id].addr, false, now);
          return true;
        }
        return false;
      }
      var moved := Good(info[id].addr, false, now);
      settled := true;
    }

    /** Decide about all collisions that can be settled by now, in the order of their ids. */
    method ResolveCollisions(isValid: nat -> bool, now: int) returns (ghost ids: seq<nat>, ghost books: seq<Book>)
      requires Valid() && now > 0
      modifies this
      ensures Valid() && Evolves(old(Snap()), Snap())
      ensures InOrder(ids, old(collisions)) && ResolveResults(h, ids, books, isValid, now)
      ensures books[0] == old(Snap()) && books[|ids|] == Snap()
      ensures collisions == Waiting(h, ids, books, isValid, now)
      ensures forall i | 0 <= i < |books| :: Inv(h, books[i], {}, {})
    {
      hide Inv, CollisionsOk, Evolves, Decide, ResolveResult, Resolving;
      EvolvesSame(Snap());
      ghost var all := collisions;
      var todo := collisions;
      ids, books := [], [Snap()];
      ResolvingStart(h, Snap(), isValid, now, all);
      while todo != {}
        invariant Valid() && Evolves(old(Snap()), Snap()) && todo <= collisions
        invariant |books| == |ids| + 1 && books[0] == old(Snap()) && books[|ids|] == Snap()
        invariant forall i | 0 <= i < |books| :: Inv(h, books[i], {}, {})
        invariant Resolving(h, ids, books, isValid, now, all, todo, collisions)
        decreases |todo|
      {
        var id := Least(todo);
        ghost var before := Snap();
        var settled := Resolve(id, isValid, now);
        EvolvesOn(old(Snap()), before, Snap());
        ResolvingPush(h, ids, books, isValid, now, all, todo, collisions, id, Snap());
        todo, ids, books := todo - {id}, ids + [id], books + [Snap()];
        if settled {
          CollisionsLess(h, Snap(), collisions, collisions - {id});
          collisions := collisions - {id};
        }
      }
      ResolvingDone(h, ids, books, isValid, now, all, collisions);
    }

    /** The tried entry that some recorded collision is with, to be tested. */
    method SelectTriedCollision() returns (r: Option<AddrInfo>)
      requires Valid()
      modifies this`collisions
      ensures Valid()
      ensures r.Some? ==>
                && collisions == old(collisions)
                && exists id :: id in collisions && id in info && h.TriedSlot(info[id].addr) in tried &&
                                tried[h.TriedSlot(info[id].addr)] in info
                                && r.value == info[tried[h.TriedSlot(info[id].addr)]] && r.value.inTried
      ensures r.None? ==>
              collisions == {}
              || exists id :: id in old(collisions) && id !in info && collisions == old(collisions) - {id}
    {
      hide Inv, CollisionsOk;
      if collisions == {} {
        return None;
      }
      var id :| id in collisions;
      if id !in info {
        CollisionsLess(h, Snap(), collisions, collisions - {id});
        collisions := collisions - {id};
        return None;
      }
      CollisionIsReal(h, Snap(), collisions, id);
      var bucket := h.TriedBucket(info[id].addr);
      var slot := Slot(bucket, h.BucketPosition(false, bucket, info[id].addr));
      InTried(h, Snap(), slot);
      r := Some(info[tried[slot]]);
    }
  }

  /** What is done about a collision. */
  ghost predicate ResolveResult(h: Hashes, b: Book, b': Book, id: nat, isValid: nat -> bool, now: int) {
    if Decide(h, b, id, isValid, now) != Replace then b' == b
    else
      && id in b.info
      && var touched := Touched(b, id, Succeeded(b.info[id], now));
         if b.info[id].inTried then b' == touched else MovesToTried(h, touched, b', id)
  }

  /** The collisions `ids` are decided one after the other. */
  ghost predicate ResolveResults(h: Hashes, ids: seq<nat>, books: seq<Book>, isValid: nat -> bool, now: int) {
    && |books| == |ids| + 1
    && forall i | 0 <= i < |ids| :: ResolveResult(h, books[i], books[i + 1], ids[i], isValid, now)
  }

  /** Those that are neither forgotten nor replaced. */
  ghost function Waiting(h: Hashes, ids: seq<nat>, books: seq<Book>, isValid: nat -> bool, now: int): set<nat>
    requires |books| == |ids| + 1
  {
    set i | 0 <= i < |ids| && Decide(h, books[i], ids[i], isValid, now) == Wait :: ids[i]
  }

  lemma WaitingPush(h: Hashes, ids: seq<nat>, books: seq<Book>, isValid: nat -> bool, now: int, id: nat, b: Book)
    requires |books| == |ids| + 1
    ensures Waiting(h, ids + [id], books + [b], isValid, now) ==
            Waiting(h, ids, books, isValid, now)
            + if Decide(h, books[|ids|], id, isValid, now) == Wait then {id} else {}
  {
    hide Decide;
    var ids', books' := ids + [id], books + [b];
    forall i | 0 <= i < |ids| ensures ids'[i] == ids[i] && books'[i] == books[i] {}
    assert ids'[|ids|] == id && books'[|ids|] == books[|ids|];
    var all := Waiting(h, ids', books', isValid, now);
    forall x | x in Waiting(h, ids, books, isValid, now) ensures x in all {
      var i :| 0 <= i < |ids| && Decide(h, books[i], ids[i], isValid, now) == Wait && ids[i] == x;
      assert ids'[i] == x && books'[i] == books[i];
    }
  }

  /** `ids` are the members of `s`, in increasing order. */
  ghost predicate InOrder(ids: seq<nat>, s: set<nat>) {
    (forall i, j | 0 <= i < j < |ids| :: ids[i] < ids[j]) && forall x :: x in ids <==> x in s
  }

  lemma InOrderPush(ids: seq<nat>, s: set<nat>, todo: set<nat>, id: nat)
    requires InOrder(ids, s - todo) && todo <= s && id in todo && forall i | 0 <= i < |ids| :: ids[i] < id
    ensures InOrder(ids + [id], s - (todo - {id}))
  {
  }

  /** The collisions `all` are decided, except for those in `todo`, which are later. */
  ghost predicate Resolving(h: Hashes, ids: seq<nat>, books: seq<Book>, isValid: nat -> bool, now: int, all: set<nat>,
                            todo: set<nat>, collisions: set<nat>) {
    && todo <= all && InOrder(ids, all - todo) && (forall i, j | 0 <= i < |ids| && j in todo :: ids[i] < j)
    && ResolveResults(h, ids, books, isValid, now) && collisions == Waiting(h, ids, books, isValid, now) + todo
  }

  lemma ResolvingStart(h: Hashes, b: Book, isValid: nat -> bool, now: int, all: set<nat>)
    ensures Resolving(h, [], [b], isValid, now, all, all, all)
  {
    hide Decide, ResolveResult;
  }

  lemma ResolvingPush(h: Hashes, ids: seq<nat>, books: seq<Book>, isValid: nat -> bool, now: int, all: set<nat>,
                      todo: set<nat>, collisions: set<nat>, id: nat, b: Book)
    requires Resolving(h, ids, books, isValid, now, all, todo, collisions) && id in todo
    requires |books| == |ids| + 1 && ResolveResult(h, books[|ids|], b, id, isValid, now)
    requires forall j | j in todo :: id <= j
    ensures var rest := if Decide(h, books[|ids|], id, isValid, now) == Wait then collisions else collisions - {id};
            Resolving(h, ids + [id], books + [b], isValid, now, all, todo - {id}, rest) && todo - {id} <= rest
  {
    hide Decide, ResolveResult, Waiting, InOrder;
    WaitingPush(h, ids, books, isValid, now, id, b);
    WaitingDone(h, ids, books, isValid, now, all - todo);
    InOrderPush(ids, all, todo, id);
  }

  lemma WaitingDone(h: Hashes, ids: seq<nat>, books: seq<Book>, isValid: nat -> bool, now: int, s: set<nat>)
    requires InOrder(ids, s) && |books| == |ids| + 1
    ensures Waiting(h, ids, books, isValid, now) <= s
  {
    hide Decide;
  }

  lemma ResolvingDone(h: Hashes, ids: seq<nat>, books: seq<Book>, isValid: nat -> bool, now: int, all: set<nat>,
                      collisions: set<nat>)
    requires Resolving(h, ids, books, isValid, now, all, {}, collisions)
    ensures InOrder(ids, all) && ResolveResults(h, ids, books, isValid, now)
    ensures collisions == Waiting(h, ids, books, isValid, now)
  {
    hide Decide, ResolveResult, InOrder;
    assert all - {} == all;
  }

  method Least(s: set<nat>) returns (x: nat)
    requires s != {}
    ensures x in s && forall y | y in s :: x <= y
  {
    x :| x in s;
    var todo := s - {x};
    while todo != {}
      invariant x in s && todo <= s && forall y | y in s && y !in todo :: x <= y
      decreases |todo|
    {
      var y :| y in todo;
      if y < x { x := y; }
      todo := todo - {y};
    }
  }

  method Draw(n: nat) returns (i: nat)
    requires n > 0
    ensures i < n
  {
    i :| i < n;
  }

  /** How many of `n` addresses may be returned. */
  function Share(maxAddresses: nat, maxPct: nat, n: nat): nat {
    var nodes := if maxPct != 0 then (if maxPct < 100 then maxPct else 100) * n / 100 else n;
    if maxAddresses != 0 && maxAddresses < nodes then maxAddresses else nodes
  }

  /** `a` is the address of an entry among `seen` that passes the filters. */
  ghost predicate Wanted(info: Infos, addrs: map<nat, nat>, seen: seq<nat>, a: nat, network: Option<nat>,
                         filtered: bool, now: int) {
    && a in addrs && addrs[a] in info && addrs[a] in seen && (filtered ==> !IsTerrible(info[addrs[a]], now))
    && (network.Some? ==> info[addrs[a]].network == network.value)
  }

  /** The addresses collected so far come from different entries among `seen`. */
  ghost predicate Listed(info: Infos, addrs: map<nat, nat>, seen: seq<nat>, out: seq<nat>, network: Option<nat>,
                         filtered: bool, now: int) {
    && (forall i | 0 <= i < |out| :: Wanted(info, addrs, seen, out[i], network, filtered, now))
    && (forall i, j | 0 <= i < j < |out| :: out[i] != out[j])
    && (forall a | Wanted(info, addrs, seen, a, network, filtered, now) :: a in out)
  }

  lemma WantedStays(info: Infos, info': Infos, addrs: map<nat, nat>, seen: seq<nat>, id: nat, a: nat,
                    network: Option<nat>, filtered: bool, now: int)
    requires Wanted(info, addrs, seen, a, network, filtered, now) && SameButRandom(info, info')
    ensures Wanted(info', addrs, seen + [id], a, network, filtered, now)
  {
  }

  lemma WantedBefore(b: Book, b': Book, n: nat, a: nat, network: Option<nat>, filtered: bool, now: int)
    requires n < |b'.random| == |b.random| && b'.random[..n] == b.random[..n] && b'.addrs == b.addrs
             && SameButRandom(b.info, b'.info)
    requires Wanted(b'.info, b'.addrs, b'.random[..n + 1], a, network, filtered, now) && b'.addrs[a] != b'.random[n]
    ensures Wanted(b.info, b.addrs, b.random[..n], a, network, filtered, now)
  {
    assert b'.random[..n + 1] == b.random[..n] + [b'.random[n]];
  }

  lemma NoneListed(info: Infos, addrs: map<nat, nat>, seen: seq<nat>, network: Option<nat>, filtered: bool, now: int)
    requires seen == []
    ensures Listed(info, addrs, seen, [], network, filtered, now) && SameButRandom(info, info)
  {
  }

  lemma AllListed(info: Infos, addrs: map<nat, nat>, random: seq<nat>, n: nat, out: seq<nat>, network: Option<nat>,
                  filtered: bool, now: int)
    requires n <= |random| && Listed(info, addrs, random[..n], out, network, filtered, now)
    ensures forall i | 0 <= i < |out| :: Wanted(info, addrs, random, out[i], network, filtered, now)
    ensures forall i, j | 0 <= i < j < |out| :: out[i] != out[j]
    ensures n == |random| ==> forall a | Wanted(info, addrs, random, a, network, filtered, now) :: a in out
  {
    assert random[..|random|] == random;
    forall i | 0 <= i < |out| ensures Wanted(info, addrs, random, out[i], network, filtered, now) {
      assert Wanted(info, addrs, random[..n], out[i], network, filtered, now);
    }
  }

  lemma RandomTwice(a: Infos, b: Infos, c: Infos)
    requires SameButRandom(a, b) && SameButRandom(b, c)
    ensures SameButRandom(a, c)
  {
  }

  lemma RandomSize(h: Hashes, b: Book)
    requires Inv(h, b, {}, {})
    ensures |b.random| == |b.info|
  {
  }

  lemma EvolvesSwap(b: Book, i: nat, j: nat)
    requires i < |b.random| && j < |b.random| && b.random[i] in b.info && b.random[j] in b.info
             && SameButRandom(b.info, Swapped(b, i, j).info)
    ensures Evolves(b, Swapped(b, i, j))
  {
  }

  lemma ListedPush(info: Infos, addrs: map<nat, nat>, seen: seq<nat>, out: seq<nat>, x: nat, network: Option<nat>,
                   filtered: bool, now: int)
    requires forall i | 0 <= i < |out| :: Wanted(info, addrs, seen, out[i], network, filtered, now) && out[i] != x
    requires forall i, j | 0 <= i < j < |out| :: out[i] != out[j]
    requires forall a | Wanted(info, addrs, seen, a, network, filtered, now) :: a in out || a == x
    ensures var next := if Wanted(info, addrs, seen, x, network, filtered, now) then out + [x] else out;
            Listed(info, addrs, seen, next, network, filtered, now)
  {
    hide Wanted;
  }

  /** The entry moved to position `n` is not among those seen before, and may be added. */
  lemma RandomNext(h: Hashes, b: Book, b': Book, n: nat, out: seq<nat>, network: Option<nat>, filtered: bool, now: int)
    requires Inv(h, b', {}, {}) && n < |b'.random| == |b.random| && b'.random[..n] == b.random[..n]
             && b'.addrs == b.addrs
    requires SameButRandom(b.info, b'.info) && Listed(b.info, b.addrs, b.random[..n], out, network, filtered, now)
    ensures b'.random[n] in b'.info
    ensures var e := b'.info[b'.random[n]];
            var wanted := (network.None? || e.network == network.value) && !(filtered && IsTerrible(e, now));
            var next := if wanted then out + [e.addr] else out;
            Listed(b'.info, b'.addrs, b'.random[..n + 1], next, network, filtered, now)
  {
    hide Inv, IsTerrible, SameButRandom;
    var id := b'.random[n];
    assert b'.random[..n + 1] == b.random[..n] + [id];
    NotSeen(h, b', n);
    forall i | 0 <= i < |out|
      ensures Wanted(b'.info, b'.addrs, b'.random[..n + 1], out[i], network, filtered, now)
              && out[i] != b'.info[id].addr
    {
      WantedStays(b.info, b'.info, b.addrs, b.random[..n], id, out[i], network, filtered, now);
    }
    RandomComplete(h, b, b', n, out, network, filtered, now);
    ListedPush(b'.info, b'.addrs, b'.random[..n + 1], out, b'.info[id].addr, network, filtered, now);
  }

  lemma RandomComplete(h: Hashes, b: Book, b': Book, n: nat, out: seq<nat>, network: Option<nat>, filtered: bool,
                       now: int)
    requires Inv(h, b', {}, {}) && n < |b'.random| == |b.random| && b'.random[..n] == b.random[..n]
             && b'.addrs == b.addrs
    requires SameButRandom(b.info, b'.info) && Listed(b.info, b.addrs, b.random[..n], out, network, filtered, now)
    requires b'.random[n] in b'.info
    ensures forall a | Wanted(b'.info, b'.addrs, b'.random[..n + 1], a, network, filtered, now) ::
              a in out || (b'.addrs[a] == b'.random[n] && a == b'.info[b'.random[n]].addr)
  {
    hide Inv, IsTerrible, SameButRandom;
    ValidAddrs(h, b', {}, {});
    forall a | Wanted(b'.info, b'.addrs, b'.random[..n + 1], a, network, filtered, now) && b'.addrs[a] != b'.random[n]
      ensures a in out
    {
      WantedBefore(b, b', n, a, network, filtered, now);
    }
  }

  lemma NotSeen(h: Hashes, b: Book, n: nat)
    requires Inv(h, b, {}, {}) && n < |b.random|
    ensures b.random[n] in b.info && b.random[n] !in b.random[..n]
    ensures b.info[b.random[n]].addr in b.addrs && b.addrs[b.info[b.random[n]].addr] == b.random[n]
  {
    forall i | 0 <= i < n ensures b.random[i] != b.random[n] {
      assert b.info[b.random[i]].randomPos == i;
    }
  }

  /** A recorded collision is always a collision: the tried slot of its entry is occupied. */
  lemma CollisionIsReal(h: Hashes, b: Book, collisions: set<nat>, id: nat)
    requires Inv(h, b, {}, {}) && CollisionsOk(h, b, collisions) && id in collisions && id in b.info
    ensures h.TriedSlot(b.info[id].addr) in b.tried && b.tried[h.TriedSlot(b.info[id].addr)] in b.info
  {
  }

  lemma CollisionAdded(h: Hashes, b: Book, collisions: set<nat>, id: nat)
    requires CollisionsOk(h, b, collisions) && id in b.info && id < b.idCount && h.TriedSlot(b.info[id].addr) in b.tried
    ensures CollisionsOk(h, b, collisions + {id})
  {
    hide Hashes.TriedSlot;
  }

  lemma CollisionsLess(h: Hashes, b: Book, collisions: set<nat>, fewer: set<nat>)
    requires CollisionsOk(h, b, collisions) && fewer <= collisions
    ensures CollisionsOk(h, b, fewer)
  {
    hide Hashes.TriedSlot;
  }

  lemma SwappedHas(b: Book, id: nat)
    requires InPlace(b, id)
    ensures id in Swapped(b, b.info[id].randomPos, |b.random| - 1).info
            && Swapped(b, b.info[id].randomPos, |b.random| - 1).random != []
  {
  }

  lemma ValidIds(h: Hashes, b: Book, id: nat)
    requires Inv(h, b, {}, {}) && id in b.info
    ensures id < b.idCount
  {
  }

  lemma InTried(h: Hashes, b: Book, slot: Slot)
    requires Inv(h, b, {}, {}) && slot in b.tried
    ensures b.tried[slot] in b.info && b.info[b.tried[slot]].inTried
  {
  }

  lemma EvolvesSame(b: Book)
    ensures Evolves(b, b)
  {
  }

  lemma ValidAddrs(h: Hashes, b: Book, limbo: set<nat>, pending: set<nat>)
    requires Inv(h, b, limbo, pending)
    ensures AddrsOk(b.info, b.addrs)
    ensures forall id | id in b.info :: b.info[id].addr in b.addrs && b.addrs[b.info[id].addr] == id
  {
  }

  lemma EvolvesTouch(b: Book, id: nat, e: AddrInfo)
    requires id in b.info && e.addr == b.info[id].addr
    ensures Evolves(b, Touched(b, id, e))
  {
  }

  lemma EvolvesCreate(h: Hashes, b: Book, e: AddrInfo)
    ensures Evolves(b, Created(b, e))
  {
  }

  /** Clearing a slot for `id` leaves that entry as it was. */
  lemma ClearedFor(h: Hashes, b: Book, pending: set<nat>, slot: Slot, id: nat)
    requires Inv(h, b, {}, pending) && id in b.info && (slot in b.newTable ==> b.newTable[slot] != id)
    ensures CanClear(b, slot) && Inv(h, Cleared(b, slot), {}, pending) && slot !in Cleared(b, slot).newTable
    ensures id in Cleared(b, slot).info
            && Cleared(b, slot).info[id] == b.info[id].(randomPos := Cleared(b, slot).info[id].randomPos)
    ensures Evolves(b, Cleared(b, slot))
  {
    hide Inv;
    ClearedInv(h, b, {}, pending, slot);
  }

  /** What remains after trying to put an entry into a slot: it has the slot, or nothing changed, except that an
      entry without any slot is gone. */
  ghost predicate EnterResult(h: Hashes, b: Book, b': Book, id: nat, slot: Slot, inserted: bool) {
    && id in b.info && Inv(h, b', {}, {}) && Evolves(b, b') && KeepsRecords(b.info, b'.info) && b'.tried == b.tried
    && b'.newTable == (if inserted then b.newTable[slot := id] else b.newTable)
    && (id in b'.info <==> inserted || b.info[id].refCount > 0)
    && (id in b'.info ==> b.info[id].addr in b'.addrs && b'.addrs[b.info[id].addr] == id)
    && (id !in b'.info ==> b.info[id].addr !in b'.addrs)
  }

  lemma OccupiedBy(h: Hashes, b: Book, pending: set<nat>, slot: Slot, id: nat)
    requires Inv(h, b, {}, pending)
    ensures slot in b.newTable ==> b.newTable[slot] in b.info
    ensures slot in b.newTable && b.newTable[slot] == id ==> b.info[id].refCount > 0
  {
    hide Inv;
    if slot in b.newTable { SlotClearedInv(h, b, {}, pending, slot); }
  }

  lemma EnterNothing(h: Hashes, b: Book, id: nat, slot: Slot)
    requires id in b.info && b.info[id].refCount > 0 && Inv(h, b, {}, {})
    ensures EnterResult(h, b, b, id, slot, false)
  {
    hide Inv, Evolves, KeepsRecords;
    EvolvesSame(b);
    KeepsSame(b.info);
    ValidAddrs(h, b, {}, {});
  }

  lemma EnterDropped(h: Hashes, b: Book, id: nat, slot: Slot)
    requires id in b.info && b.info[id].refCount == 0 && Inv(h, b, {}, {id})
    ensures InPlace(b, id) && EnterResult(h, b, Deleted(b, id), id, slot, false)
  {
    hide Inv, Evolves, KeepsRecords, Deleted;
    DeletedInv(h, b, {}, {id}, id);
    DeletedMoves(b, id);
    EvolvesDelete(b, id);
    assert {id} - {id} == {};
    ValidAddrs(h, Deleted(b, id), {}, {});
  }

  lemma EnterSlot(h: Hashes, b: Book, id: nat, source: nat, slot: Slot)
    requires id in b.info && !b.info[id].inTried && b.info[id].refCount < NEW_BUCKETS_PER_ADDRESS
             && (slot in b.newTable ==> b.newTable[slot] != id)
    requires Inv(h, b, {}, if b.info[id].refCount == 0 then {id} else {})
    requires slot == h.NewSlot(b.info[id].addr, h.NewBucket(b.info[id].addr, source))
    ensures CanClear(b, slot) && id in Cleared(b, slot).info
    ensures EnterResult(h, b, SlotAdded(Cleared(b, slot), slot, id), id, slot, true)
  {
    hide Inv, Evolves, KeepsRecords, Cleared, CanClear;
    var pending := if b.info[id].refCount == 0 then {id} else {};
    ClearedFor(h, b, pending, slot, id);
    ClearedMoves(b, slot);
    var c := Cleared(b, slot);
    SlotAddedInv(h, c, {}, pending, slot, id);
    assert pending - {id} == {};
    EvolvesPut(b, slot, id);
    var d := SlotAdded(c, slot, id);
    RecordsOne(c.info, id, d.info[id]);
    KeepsOn(b.info, c.info, d.info);
    ValidAddrs(h, d, {}, {});
    assert d.info[id].addr == b.info[id].addr;
    assert d.newTable == b.newTable[slot := id];
  }

  /** What an announcement does. The tried table never changes; the new table changes only in the slot for this source,
      exactly if the address is put there. An unknown address is known afterwards exactly if it was put there; a known
      one has its record refreshed, and is put there exactly if that is news, the draw is a lucky one and it may enter.
      All other records stay. */
  ghost predicate AddResult(h: Hashes, b: Book, b': Book, a: Announcement, source: nat, penalty: int, now: int,
                            draw: nat, inserted: bool) {
    var slot := h.NewSlot(a.addr, h.NewBucket(a.addr, source));
    && b'.tried == b.tried && (!a.routable ==> b' == b && !inserted)
    && (a.addr in b.addrs ==> b.addrs[a.addr] in b.info)
    && (forall id | id in b'.info && b'.info[id].addr != a.addr ::
        id in b.info && Record(b'.info[id]) == Record(b.info[id]))
    && (inserted ==> a.addr in b'.addrs)
    && b'.newTable == (if inserted then b.newTable[slot := b'.addrs[a.addr]] else b.newTable)
    && (a.routable && a.addr !in b.addrs ==>
          && (inserted <==> slot !in b.newTable || (b.newTable[slot] in b.info &&
                            (IsTerrible(b.info[b.newTable[slot]], now) || b.info[b.newTable[slot]].refCount > 1)))
          && (a.addr in b'.addrs <==> inserted)
          && (inserted ==>
              b'.addrs[a.addr] in b'.info
              && Record(b'.info[b'.addrs[a.addr]]) == Record(Announced(a, source, penalty))))
    && (a.routable && a.addr in b.addrs ==>
          var id, e := b.addrs[a.addr], Refreshed(b.info[b.addrs[a.addr]], a, penalty, now);
          && a.addr in b'.addrs && b'.addrs[a.addr] == id && id in b'.info && Record(b'.info[id]) == Record(e)
          && (inserted <==> IsNews(e, a) && Lucky(e, draw) && MayEnter(Touched(b, id, e), slot, id, now)))
  }

  /** The announcements have their effects one after the other. */
  ghost predicate AddResults(h: Hashes, announced: seq<Announcement>, source: nat, penalty: int, now: int,
                             draws: nat -> nat, books: seq<Book>, taken: seq<bool>) {
    && |books| == |taken| + 1 && |taken| <= |announced|
    && forall i | 0 <= i < |taken| ::
         AddResult(h, books[i], books[i + 1], announced[i], source, if announced[i].self then 0 else penalty, now,
                   draws(i), taken[i])
  }

  lemma AddNothing(h: Hashes, b: Book, a: Announcement, source: nat, penalty: int, now: int, draw: nat)
    requires Inv(h, b, {}, {}) && !a.routable
    ensures AddResult(h, b, b, a, source, penalty, now, draw, false)
  {
    hide Inv, IsTerrible, Record, Refreshed, Announced;
    ValidAddrs(h, b, {}, {});
  }

  lemma AddRefreshed(h: Hashes, b: Book, a: Announcement, source: nat, penalty: int, now: int, draw: nat)
    requires Inv(h, b, {}, {}) && a.routable && a.addr in b.addrs && b.addrs[a.addr] in b.info
    requires var e := Refreshed(b.info[b.addrs[a.addr]], a, penalty, now); !IsNews(e, a) || !Lucky(e, draw)
    ensures var e := Refreshed(b.info[b.addrs[a.addr]], a, penalty, now);
            AddResult(h, b, Touched(b, b.addrs[a.addr], e), a, source, penalty, now, draw, false)
  {
    hide Inv, IsTerrible, Record, Announced, IsNews, Lucky, MayEnter;
    ValidAddrs(h, b, {}, {});
  }

  lemma EnterFacts(h: Hashes, b: Book, b': Book, id: nat, slot: Slot, inserted: bool)
    requires EnterResult(h, b, b', id, slot, inserted)
    ensures Inv(h, b', {}, {}) && Evolves(b, b')
  {
    hide Inv, Evolves, KeepsRecords;
  }

  lemma AddKnown(h: Hashes, b: Book, b': Book, a: Announcement, source: nat, penalty: int, now: int, draw: nat,
                 inserted: bool)
    requires Inv(h, b, {}, {}) && a.routable && a.addr in b.addrs && b.addrs[a.addr] in b.info
    requires var (id, e, slot) := (b.addrs[a.addr], Refreshed(b.info[b.addrs[a.addr]], a, penalty, now),
                                   h.NewSlot(a.addr, h.NewBucket(a.addr, source)));
             && IsNews(e, a) && Lucky(e, draw) && EnterResult(h, Touched(b, id, e), b', id, slot, inserted)
             && (inserted <==> MayEnter(Touched(b, id, e), slot, id, now))
    ensures AddResult(h, b, b', a, source, penalty, now, draw, inserted)
  {
    hide Inv, IsTerrible, Announced, MayEnter, Evolves, Hashes.NewSlot, Hashes.NewBucket;
    var id := b.addrs[a.addr];
    ValidAddrs(h, b, {}, {});
    NoRefs(h, b, {}, {}, id);
    assert id in b'.info;
  }

  lemma AddUnknown(h: Hashes, b: Book, b': Book, a: Announcement, source: nat, penalty: int, now: int, draw: nat,
                   inserted: bool)
    requires Inv(h, b, {}, {}) && a.routable && a.addr !in b.addrs
    requires var (id, c, slot) := (b.idCount, Created(b, Announced(a, source, penalty)),
                                   h.NewSlot(a.addr, h.NewBucket(a.addr, source)));
             EnterResult(h, c, b', id, slot, inserted) && (inserted <==> MayEnter(c, slot, id, now))
    ensures AddResult(h, b, b', a, source, penalty, now, draw, inserted)
  {
    hide Inv, IsTerrible, Evolves, Hashes.NewSlot, Hashes.NewBucket;
    var slot := h.NewSlot(a.addr, h.NewBucket(a.addr, source));
    OccupiedBy(h, b, {}, slot, b.idCount);
    NewId(h, b);
  }

  lemma AddTables(h: Hashes, b: Book, b': Book, a: Announcement, source: nat, penalty: int, now: int, draw: nat,
                  inserted: bool)
    requires AddResult(h, b, b', a, source, penalty, now, draw, inserted)
    ensures b'.tried == b.tried && (!inserted ==> b'.newTable == b.newTable) && (inserted ==> a.routable)
  {
    hide IsTerrible, Record, Announced, Refreshed, MayEnter, Hashes.NewSlot, Hashes.NewBucket;
  }

  lemma NewId(h: Hashes, b: Book)
    requires Inv(h, b, {}, {})
    ensures b.idCount !in b.info
  {
  }

  lemma EvolvesPut(b: Book, slot: Slot, id: nat)
    requires CanClear(b, slot) && Evolves(b, Cleared(b, slot)) && id in Cleared(b, slot).info
    ensures Evolves(b, SlotAdded(Cleared(b, slot), slot, id))
  {
    hide Cleared, CanClear;
  }

  lemma EvolvesDelete(b: Book, id: nat)
    requires InPlace(b, id) && SameButRandom(b.info - {id}, Deleted(b, id).info)
    ensures Evolves(b, Deleted(b, id))
  {
    DeletedFields(b, id);
  }

  /** The slots of the entry are in buckets not yet visited, counting from `start`. */
  ghost predicate From(newTable: Table, id: nat, start: nat, n: nat) {
    forall slot | slot in newTable && newTable[slot] == id ::
      (slot.bucket + NEW_BUCKET_COUNT - start) % NEW_BUCKET_COUNT >= n
  }

  lemma SlotsFrom(newTable: Table, id: nat, start: nat)
    ensures From(newTable, id, start, 0)
  {
  }

  lemma OffsetIs(start: nat, n: nat, bucket: nat)
    requires start < NEW_BUCKET_COUNT && n < NEW_BUCKET_COUNT && bucket < NEW_BUCKET_COUNT
    requires (bucket + NEW_BUCKET_COUNT - start) % NEW_BUCKET_COUNT == n
    ensures bucket == (start + n) % NEW_BUCKET_COUNT
  {
  }

  lemma FromNext(h: Hashes, b: Book, id: nat, start: nat, n: nat)
    requires Inv(h, b, {}, {}) && id in b.info && start < NEW_BUCKET_COUNT && n < NEW_BUCKET_COUNT
             && From(b.newTable, id, start, n)
    ensures var slot := h.NewSlot(b.info[id].addr, (start + n) % NEW_BUCKET_COUNT);
            && From(b.newTable - {slot}, id, start, n + 1)
            && ((slot in b.newTable ==> b.newTable[slot] != id) ==> From(b.newTable, id, start, n + 1))
  {
    hide Inv, Hashes.NewSlot;
    var slot := h.NewSlot(b.info[id].addr, (start + n) % NEW_BUCKET_COUNT);
    forall s | s in b.newTable && b.newTable[s] == id && (s.bucket + NEW_BUCKET_COUNT - start) % NEW_BUCKET_COUNT == n
      ensures s == slot
    {
      SlotIs(h, b, s);
      OffsetIs(start, n, s.bucket);
    }
  }

  lemma SlotIs(h: Hashes, b: Book, slot: Slot)
    requires Inv(h, b, {}, {}) && slot in b.newTable
    ensures b.newTable[slot] in b.info && slot.bucket < NEW_BUCKET_COUNT
            && slot == h.NewSlot(b.info[b.newTable[slot]].addr, slot.bucket)
  {
  }

  lemma NoneFrom(h: Hashes, b: Book, id: nat, start: nat)
    requires Inv(h, b, {}, {}) && id in b.info && start < NEW_BUCKET_COUNT
             && From(b.newTable, id, start, NEW_BUCKET_COUNT)
    ensures b.info[id].refCount == 0
  {
    assert SlotsOf(b.newTable, id) == {};
  }

  /** Clearing a slot does not touch an entry in limbo. */
  lemma NoSlotsInLimbo(h: Hashes, b: Book, limbo: set<nat>, slot: Slot, id: nat)
    requires Inv(h, b, limbo, {}) && id in limbo
    ensures CanClear(b, slot) && id in Cleared(b, slot).info && Cleared(b, slot).info[id].refCount == 0
    ensures slot !in Cleared(b, slot).newTable
  {
    hide Inv, Cleared;
    ClearedInv(h, b, limbo, {}, slot);
    ClearedKeeps(h, b, limbo, slot, id);
    NoRefs(h, b, limbo, {}, id);
  }

  lemma EmptyInv(h: Hashes, b: Book)
    requires b == Book(0, map[], map[], [], 0, 0, map[], map[], map[])
    ensures Inv(h, b, {}, {})
  {
    assert News(b.info, {}) == {} && Trieds(b.info) == {};
    forall network: nat ensures OfNetwork(b.info, {}, network) == {} {}
  }
}
