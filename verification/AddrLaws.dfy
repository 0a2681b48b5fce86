/** What the address manager's rules come to, told by the times in the records. */
module AddrLaws {
  import opened BinaryPowers
  import ArithUints
  import opened Options
  import opened AddrBook
  import opened AddrMoves
  import opened AddrMans

  // ---- Collisions

  /** The tried entry has not connected for four hours, and testing it failed: the last try was in the last four hours
      but more than a minute ago; or it was not tested, and the success of the other one is forty minutes old. */
  predicate Outlived(holder: AddrInfo, other: AddrInfo, now: int) {
    && now - holder.lastSuccess >= REPLACEMENT
    && (60 < now - holder.lastTry < REPLACEMENT
        || (now - holder.lastTry >= REPLACEMENT && now - other.lastSuccess > TEST_WINDOW))
  }

  /** The tried entry has not connected for four hours, but it is being tested, or there is still time to test it. */
  predicate Undecided(holder: AddrInfo, other: AddrInfo, now: int) {
    && now - holder.lastSuccess >= REPLACEMENT
    && (now - holder.lastTry <= 60 || (now - holder.lastTry >= REPLACEMENT && now - other.lastSuccess <= TEST_WINDOW))
  }

  /** The entry in the tried slot for `id`. */
  ghost function Holder(h: Hashes, b: Book, id: nat): Option<AddrInfo>
    requires id in b.info
  {
    var slot := h.TriedSlot(b.info[id].addr);
    if slot in b.tried && b.tried[slot] in b.info then Some(b.info[b.tried[slot]]) else None
  }

  /** A tried slot is taken over exactly if its entry is outlived by a valid newcomer, and then by that. */
  lemma ResolvedTried(h: Hashes, b: Book, b': Book, id: nat, isValid: nat -> bool, now: int)
    requires ResolveResult(h, b, b', id, isValid, now) && Inv(h, b, {}, {}) && id in b.info && Holder(h, b, id).Some?
    ensures var (slot, holder) := (h.TriedSlot(b.info[id].addr), Holder(h, b, id).value);
            b'.tried == if !b.info[id].inTried && isValid(b.info[id].addr) && Outlived(holder, b.info[id], now)
                        then b.tried[slot := id] else b.tried
  {
    hide Inv, Hashes.TriedSlot, KeepsRecords, BackSlot;
  }

  /** The collision is still undecided. */
  ghost predicate Open(h: Hashes, b: Book, id: nat, isValid: nat -> bool, now: int) {
    && id in b.info && isValid(b.info[id].addr) && Holder(h, b, id).Some?
    && Undecided(Holder(h, b, id).value, b.info[id], now)
  }

  lemma OpenIsWait(h: Hashes, b: Book, id: nat, isValid: nat -> bool, now: int)
    ensures Decide(h, b, id, isValid, now) == Wait <==> Open(h, b, id, isValid, now)
  {
    hide Hashes.TriedSlot;
  }

  /** The collisions that stay recorded are those that were open when their turn came. */
  lemma StillRecorded(h: Hashes, ids: seq<nat>, books: seq<Book>, isValid: nat -> bool, now: int, id: nat)
    requires |books| == |ids| + 1
    ensures id in Waiting(h, ids, books, isValid, now) <==>
            exists i :: 0 <= i < |ids| && ids[i] == id && Open(h, books[i], id, isValid, now)
  {
    hide Decide, Open;
    forall i | 0 <= i < |ids| ensures Decide(h, books[i], ids[i], isValid, now) == Wait <==>
                                      Open(h, books[i], ids[i], isValid, now) {
      OpenIsWait(h, books[i], ids[i], isValid, now);
    }
  }

  /** Only the record of `id` changes, to one of a success now. */
  lemma ResolvedRecords(h: Hashes, b: Book, b': Book, id: nat, isValid: nat -> bool, now: int, x: nat)
    requires ResolveResult(h, b, b', id, isValid, now) && x in b'.info
    ensures x in b.info && b'.info[x].addr == b.info[x].addr
    ensures Record(b'.info[x]) == Record(b.info[x]) || (x == id && b'.info[x].lastSuccess == now)
  {
    hide Decide, Hashes.TriedSlot, BackSlot;
    var touched := if id in b.info then Touched(b, id, Succeeded(b.info[id], now)) else b;
    if b' != b {
      assert x in touched.info && Record(b'.info[x]) == Record(touched.info[x]);
    }
  }

  /** The newcomer's success is recorded. */
  lemma ResolvedNow(h: Hashes, b: Book, b': Book, id: nat, isValid: nat -> bool, now: int)
    requires ResolveResult(h, b, b', id, isValid, now) && b'.tried != b.tried && id in b'.info
    ensures id in b.info && b'.info[id].lastSuccess == now
  {
    hide Decide, Hashes.TriedSlot, BackSlot;
    var touched := Touched(b, id, Succeeded(b.info[id], now));
    assert Record(b'.info[id]) == Record(touched.info[id]);
  }

  /** Where one tried slot stands after some collisions were resolved: it has its entry, whose times are as they were,
      or it was outlived by a newcomer that has it now. */
  ghost predicate Stands(h: Hashes, b: Book, b': Book, slot: Slot, ids: seq<nat>, isValid: nat -> bool, now: int) {
    && slot in b.tried && b.tried[slot] in b.info && slot in b'.tried && b'.tried[slot] in b'.info
    && var x, y := b.tried[slot], b'.tried[slot];
       if x == y then
         Record(b'.info[x]) == Record(b.info[x]) || now - b'.info[x].lastSuccess < REPLACEMENT
       else
         && y in ids && y in b.info && isValid(b.info[y].addr) && h.TriedSlot(b.info[y].addr) == slot
         && Outlived(b.info[x], b.info[y], now) && b'.info[y].lastSuccess == now
  }

  /** The records of those whose turn has not come are as they were. */
  ghost predicate Untouched(b: Book, b': Book, ids: seq<nat>) {
    forall x | x in b'.info :: x in b.info && b'.info[x].addr == b.info[x].addr &&
                               (x !in ids ==> Record(b'.info[x]) == Record(b.info[x]))
  }

  lemma UntouchedNext(h: Hashes, b: Book, b1: Book, b2: Book, ids: seq<nat>, id: nat, isValid: nat -> bool, now: int)
    requires Untouched(b, b1, ids) && ResolveResult(h, b1, b2, id, isValid, now)
    ensures Untouched(b, b2, ids + [id])
  {
    hide ResolveResult, Record;
    forall x | x in b2.info ensures x in b.info && b2.info[x].addr == b.info[x].addr &&
                                    (x !in ids + [id] ==> Record(b2.info[x]) == Record(b.info[x])) {
      ResolvedRecords(h, b1, b2, id, isValid, now, x);
      assert x !in ids + [id] ==> x !in ids && x != id;
    }
  }

  lemma TriedHolder(h: Hashes, b: Book, slot: Slot)
    requires Inv(h, b, {}, {}) && slot in b.tried
    ensures b.tried[slot] in b.info && h.TriedSlot(b.info[b.tried[slot]].addr) == slot
    ensures b.info[b.tried[slot]].inTried
  {
    hide IdsOk, AddrsOk, RandomOk, NewOk, CountsOk, PlacedOk, TimesOk, Hashes.TriedSlot;
  }

  /** One resolution changes at most the tried slot of its entry. */
  lemma ResolvedAt(h: Hashes, b: Book, b': Book, id: nat, isValid: nat -> bool, now: int)
    requires ResolveResult(h, b, b', id, isValid, now)
    ensures b'.tried == b.tried || (id in b.info && b'.tried == b.tried[h.TriedSlot(b.info[id].addr) := id])
  {
    hide Decide, Hashes.TriedSlot, KeepsRecords, BackSlot;
  }

  lemma OutlivedRecord(holder: AddrInfo, holder': AddrInfo, other: AddrInfo, other': AddrInfo, now: int)
    requires Outlived(holder', other', now) && Record(other') == Record(other)
    ensures now - holder'.lastSuccess >= REPLACEMENT
    ensures Record(holder') == Record(holder) ==> Outlived(holder, other, now)
  {
  }

  lemma StandsChanged(h: Hashes, b: Book, b1: Book, b2: Book, slot: Slot, ids: seq<nat>, id: nat,
                      isValid: nat -> bool, now: int)
    requires slot in b1.tried && slot in b2.tried && b2.tried[slot] != b1.tried[slot] && b2.tried[slot] in b2.info
    requires ResolveResult(h, b1, b2, id, isValid, now) && id !in ids && Untouched(b, b1, ids)
    requires Stands(h, b, b1, slot, ids, isValid, now) && Inv(h, b1, {}, {})
    ensures Stands(h, b, b2, slot, ids + [id], isValid, now)
  {
    hide Inv, ResolveResult, Hashes.TriedSlot, Outlived, Record;
    ResolvedAt(h, b1, b2, id, isValid, now);
    ResolvedTried(h, b1, b2, id, isValid, now);
    ResolvedNow(h, b1, b2, id, isValid, now);
    TriedHolder(h, b1, slot);
    OutlivedRecord(b.info[b.tried[slot]], b1.info[b1.tried[slot]], b.info[id], b1.info[id], now);
  }

  lemma StandsNext(h: Hashes, b: Book, b1: Book, b2: Book, slot: Slot, ids: seq<nat>, id: nat, isValid: nat -> bool,
                   now: int)
    requires ResolveResult(h, b1, b2, id, isValid, now) && id !in ids && Untouched(b, b1, ids)
    requires Stands(h, b, b1, slot, ids, isValid, now) && Inv(h, b1, {}, {}) && Inv(h, b2, {}, {})
    ensures Stands(h, b, b2, slot, ids + [id], isValid, now)
  {
    hide Inv, ResolveResult, Hashes.TriedSlot, Outlived;
    ResolvedAt(h, b1, b2, id, isValid, now);
    TriedHolder(h, b2, slot);
    var y := b2.tried[slot];
    if y != b1.tried[slot] {
      StandsChanged(h, b, b1, b2, slot, ids, id, isValid, now);
    } else {
      ResolvedRecords(h, b1, b2, id, isValid, now, y);
    }
  }

  /** All books on the way are consistent. */
  ghost predicate AllInv(h: Hashes, books: seq<Book>) {
    forall i | 0 <= i < |books| :: Inv(h, books[i], {}, {})
  }

  lemma {:induction false} StandsAfter(h: Hashes, ids: seq<nat>, books: seq<Book>, all: set<nat>,
                                       isValid: nat -> bool, now: int, slot: Slot, k: nat)
    requires InOrder(ids, all) && ResolveResults(h, ids, books, isValid, now) && AllInv(h, books) && k <= |ids|
    requires slot in books[0].tried
    ensures Stands(h, books[0], books[k], slot, ids[..k], isValid, now)
    ensures Untouched(books[0], books[k], ids[..k])
    decreases k
  {
    hide Inv, ResolveResult, Hashes.TriedSlot, Outlived, Record, Stands, Untouched;
    if k == 0 {
      TriedHolder(h, books[0], slot);
      StandsFirst(h, books[0], slot, ids[..0], isValid, now);
    } else {
      StandsAfter(h, ids, books, all, isValid, now, slot, k - 1);
      assert ids[..k - 1] + [ids[k - 1]] == ids[..k] && ids[k - 1] !in ids[..k - 1];
      StandsNext(h, books[0], books[k - 1], books[k], slot, ids[..k - 1], ids[k - 1], isValid, now);
      UntouchedNext(h, books[0], books[k - 1], books[k], ids[..k - 1], ids[k - 1], isValid, now);
    }
  }

  lemma StandsFirst(h: Hashes, b: Book, slot: Slot, ids: seq<nat>, isValid: nat -> bool, now: int)
    requires slot in b.tried && b.tried[slot] in b.info
    ensures Stands(h, b, b, slot, ids, isValid, now) && Untouched(b, b, ids)
  {
  }

  /** Only an entry that was outlived loses its tried slot, to a valid newcomer with a recorded collision. */
  ghost predicate FairlyResolved(h: Hashes, b: Book, b': Book, all: set<nat>, isValid: nat -> bool, now: int) {
    forall slot | slot in b.tried ::
      && b.tried[slot] in b.info && slot in b'.tried
      && var x, y := b.tried[slot], b'.tried[slot];
         y != x ==> && y in all && y in b.info && isValid(b.info[y].addr) && h.TriedSlot(b.info[y].addr) == slot
                    && Outlived(b.info[x], b.info[y], now)
  }

  lemma Fairly(h: Hashes, ids: seq<nat>, books: seq<Book>, all: set<nat>, isValid: nat -> bool, now: int)
    requires InOrder(ids, all) && ResolveResults(h, ids, books, isValid, now) && AllInv(h, books)
    ensures FairlyResolved(h, books[0], books[|ids|], all, isValid, now)
  {
    hide AllInv, ResolveResult, Hashes.TriedSlot, Outlived, Record;
    forall slot | slot in books[0].tried
      ensures Stands(h, books[0], books[|ids|], slot, ids, isValid, now)
    {
      assert ids[..|ids|] == ids;
      StandsAfter(h, ids, books, all, isValid, now, slot, |ids|);
    }
  }

  /** An entry that has connected in the last four hours keeps its tried slot. */
  lemma ConnectedStays(h: Hashes, b: Book, b': Book, all: set<nat>, isValid: nat -> bool, now: int, slot: Slot)
    requires FairlyResolved(h, b, b', all, isValid, now) && slot in b.tried && b.tried[slot] in b.info
    ensures now - b.info[b.tried[slot]].lastSuccess < REPLACEMENT ==>
            slot in b'.tried && b'.tried[slot] == b.tried[slot]
  {
    hide Hashes.TriedSlot;
  }

  // ---- Quality

  /** An entry is good enough if it was tried in the last minute; or if it was seen in the last thirty days, and not in
      the future, and tried in vain fewer than three times, or else fewer than ten times since a success or with a
      success in the last week. */
  lemma GoodEnough(e: AddrInfo, now: int)
    ensures !IsTerrible(e, now) <==>
            || now <= e.lastTry + 60
            || (now - 30 * 86400 <= e.time <= now + 600
                && (e.attempts < 3 || (e.lastSuccess != 0 && (e.attempts < 10 || now - 7 * 86400 <= e.lastSuccess))))
  {
  }

  /** After a success only the age of an entry counts. */
  lemma GoodAfterSuccess(e: AddrInfo, time: int, now: int)
    requires time > 0
    ensures IsTerrible(Succeeded(e, time), now) <==>
            now > time + 60 && !(now - 30 * 86400 <= e.time <= now + 600)
  {
  }

  /** Of two to the power of `n` draws in a row, exactly one gives an entry with `n` slots another one. */
  lemma LuckyOnce(e: AddrInfo, k: nat, r: nat)
    requires e.refCount >= 0 && r < Pow2(e.refCount)
    ensures Lucky(e, k * Pow2(e.refCount) + r) <==> r == 0
  {
    hide Pow2;
    var p := Pow2(e.refCount);
    ArithUints.ModShift(r, k, p);
    assert (k * p + r) % p == (r + k * p) % p;
    assert e.refCount == 0 ==> p == 1 by { PowOne(); }
  }

  lemma PowOne()
    ensures Pow2(0) == 1
  {
  }

  /** Between two successes with anyone, an entry fails at most once. */
  lemma FailsOnce(e: AddrInfo, lastGood: int, time: int, later: int)
    requires time >= lastGood
    ensures Tried(Tried(e, true, lastGood, time), true, lastGood, later).attempts ==
            Tried(e, true, lastGood, time).attempts
    ensures Tried(e, true, lastGood, time).attempts == e.attempts + if e.lastCountAttempt < lastGood then 1 else 0
    ensures Tried(e, false, lastGood, time).attempts == e.attempts
  {
  }

  /** An announcement takes the time of an entry forward by more than an hour or not at all, never beyond the announced
      time less the penalty, and leaves it at most a day behind that, or an hour if it was announced today. */
  lemma RefreshedTime(e: AddrInfo, a: Announcement, penalty: int, now: int)
    ensures var t := Refreshed(e, a, penalty, now).time;
            && (t == e.time || (t > e.time + 3600 && (t == a.time - penalty || t == 0)))
            && t >= a.time - penalty - 86400 && (now - a.time < 86400 ==> t >= a.time - penalty - 3600)
            && (now - a.time >= 86400 && t != e.time ==> t > e.time + 86400)
  {
  }

  /** A known address gets another slot exactly if the announcement is later than its time, it is not tried and in fewer
      than eight slots, the draw is lucky, and the slot is free or has another entry that is terrible. */
  lemma KnownEnters(h: Hashes, b: Book, b': Book, a: Announcement, source: nat, penalty: int, now: int, draw: nat,
                    inserted: bool)
    requires Inv(h, b, {}, {}) && a.routable && a.addr in b.addrs && b.addrs[a.addr] in b.info
    requires AddResult(h, b, b', a, source, penalty, now, draw, inserted)
    ensures var (id, slot) := (b.addrs[a.addr], h.NewSlot(a.addr, h.NewBucket(a.addr, source)));
            var e := b.info[id];
            (slot in b.newTable ==> b.newTable[slot] in b.info) &&
            (inserted <==>
             && a.time > Refreshed(e, a, penalty, now).time && !e.inTried && e.refCount < 8
             && draw % Pow2(e.refCount) == 0
             && (slot !in b.newTable || (b.newTable[slot] != id && IsTerrible(b.info[b.newTable[slot]], now))))
  {
    hide Inv, IsTerrible, Refreshed, Pow2, Hashes.NewSlot, Hashes.NewBucket;
    var slot := h.NewSlot(a.addr, h.NewBucket(a.addr, source));
    var id := b.addrs[a.addr];
    NoRefs(h, b, {}, {}, id);
    OccupiedBy(h, b, {}, slot, id);
    RefreshedPlace(b.info[id], a, penalty, now);
  }

  lemma RefreshedPlace(e: AddrInfo, a: Announcement, penalty: int, now: int)
    ensures var r := Refreshed(e, a, penalty, now); r.inTried == e.inTried && r.refCount == e.refCount
  {
  }

  /** An unknown address becomes known exactly if its slot is free or has an entry that is terrible or in several slots,
      with no tries, and the announced time less the penalty, but not below zero. */
  lemma UnknownEnters(h: Hashes, b: Book, b': Book, a: Announcement, source: nat, penalty: int, now: int, draw: nat,
                      inserted: bool)
    requires a.routable && a.addr !in b.addrs && AddResult(h, b, b', a, source, penalty, now, draw, inserted)
    ensures var slot := h.NewSlot(a.addr, h.NewBucket(a.addr, source));
            && (a.addr in b'.addrs <==> inserted)
            && (slot !in b.newTable ==> inserted)
            && (inserted ==>
                b'.addrs[a.addr] in b'.info &&
                var e := b'.info[b'.addrs[a.addr]];
                && e.addr == a.addr && e.source == source && e.services == a.services
                && e.attempts == e.lastTry == e.lastSuccess == 0
                && e.time >= 0 && e.time >= a.time - penalty && (e.time == 0 || e.time == a.time - penalty))
  {
    hide IsTerrible, Hashes.NewSlot, Hashes.NewBucket;
    if inserted {
      assert Record(b'.info[b'.addrs[a.addr]]) == Record(Announced(a, source, penalty));
    }
  }

  /** The end of a connection leaves the time of an entry at most twenty minutes behind, and never moves it back. */
  lemma SeenTime(e: AddrInfo, time: int)
    ensures var t := SeenAt(e, time).time; t >= e.time && time - t <= 1200 && (t == e.time || t == time > e.time + 1200)
  {
  }
}
