/** Where the operations of the address manager put entries, table by table. */
module AddrMoves {
  import opened AddrBook

  /** What an entry records, without where it is kept. */
  function Record(e: AddrInfo): AddrInfo {
    e.(refCount := 0, inTried := false, randomPos := 0)
  }

  /** No entry appears, and those that remain keep their records. */
  ghost predicate KeepsRecords(info: Infos, info': Infos) {
    forall id | id in info' :: id in info && Record(info'[id]) == Record(info[id])
  }

  lemma KeepsOn(a: Infos, b: Infos, c: Infos)
    requires KeepsRecords(a, b) && KeepsRecords(b, c)
    ensures KeepsRecords(a, c)
  {
    hide Record;
  }

  /** The table without an entry. */
  function Without(table: Table, id: nat): Table {
    map slot | slot in table && table[slot] != id :: table[slot]
  }

  lemma DeletedMoves(b: Book, id: nat)
    requires InPlace(b, id)
    ensures var b' := Deleted(b, id);
            && b'.newTable == b.newTable && b'.tried == b.tried && KeepsRecords(b.info, b'.info)
            && b'.addrs == b.addrs - {b.info[id].addr} && b'.info.Keys == b.info.Keys - {id}
  {
  }

  lemma ClearedMoves(b: Book, slot: Slot)
    requires CanClear(b, slot)
    ensures var b' := Cleared(b, slot);
            b'.newTable == b.newTable - {slot} && b'.tried == b.tried && KeepsRecords(b.info, b'.info)
  {
    hide KeepsRecords, Deleted;
    if slot in b.newTable {
      var id, b1 := b.newTable[slot], SlotCleared(b, slot);
      RecordsOne(b.info, id, b1.info[id]);
      if b1.info[id].refCount == 0 {
        DeletedMoves(b1, id);
        KeepsOn(b.info, b1.info, Deleted(b1, id).info);
      }
    } else {
      KeepsSame(b.info);
      assert b.newTable == b.newTable - {slot};
    }
  }

  lemma DisplacedMoves(h: Hashes, b: Book, slot: Slot)
    requires CanDisplace(h, b, slot)
    ensures var (b', id) := (Displaced(h, b, slot), b.tried[slot]);
            && b'.tried == b.tried - {slot} && b'.newTable == b.newTable[BackSlot(h, b.info[id]) := id]
            && KeepsRecords(b.info, b'.info)
  {
    hide Cleared, CanClear, KeepsRecords, BackSlot;
    var id := b.tried[slot];
    var b1, back := Evicted(b, slot), BackSlot(h, b.info[id]);
    var b2 := Cleared(b1, back);
    ClearedMoves(b1, back);
    RecordsOne(b.info, id, b1.info[id]);
    RecordsOne(b2.info, id, Displaced(h, b, slot).info[id]);
    KeepsOn(b.info, b1.info, b2.info);
    KeepsOn(b.info, b2.info, Displaced(h, b, slot).info);
  }

  lemma RecordsOne(info: Infos, id: nat, e: AddrInfo)
    requires id in info && Record(e) == Record(info[id])
    ensures KeepsRecords(info, info[id := e])
  {
  }

  /** The entry takes its slot of the tried table; one that was there goes back to its slot of the new table, over
      whatever is there. */
  lemma PromotedMoves(h: Hashes, b: Book, id: nat)
    requires CanPromote(h, b, id)
    ensures var (b', slot) := (Promoted(h, b, id), h.TriedSlot(b.info[id].addr));
            && b'.tried == b.tried[slot := id] && KeepsRecords(b.info, b'.info)
            && b'.newTable ==
               if slot in b.tried then b.newTable[BackSlot(h, b.info[b.tried[slot]]) := b.tried[slot]] else b.newTable
  {
    hide Displaced, CanDisplace, KeepsRecords, BackSlot, Hashes.TriedSlot;
    var slot, b1 := h.TriedSlot(b.info[id].addr), Uncounted(b, id);
    assert KeepsRecords(b.info, b.info) by { KeepsSame(b.info); }
    if slot in b.tried {
      DisplacedMoves(h, b1, slot);
      var b2 := Displaced(h, b1, slot);
      RecordsOne(b2.info, id, b2.info[id].(inTried := true));
      KeepsOn(b.info, b2.info, Promoted(h, b, id).info);
    } else {
      RecordsOne(b.info, id, b.info[id].(inTried := true));
    }
  }

  lemma KeepsSame(info: Infos)
    ensures KeepsRecords(info, info)
  {
  }

  /** The entry `id` leaves the new table for its slot of the tried table; an entry that is there goes back to the new
      table, over whatever is in its slot. No other slot changes. */
  ghost predicate MovesToTried(h: Hashes, b: Book, b': Book, id: nat) {
    && id in b.info && KeepsRecords(b.info, b'.info)
    && var slot := h.TriedSlot(b.info[id].addr);
    && b'.tried == b.tried[slot := id]
    && if slot in b.tried then
         && b.tried[slot] in b.info
         && b'.newTable == Without(b.newTable, id)[BackSlot(h, b.info[b.tried[slot]]) := b.tried[slot]]
       else b'.newTable == Without(b.newTable, id)
  }

  lemma NoSlots(h: Hashes, b: Book, limbo: set<nat>, pending: set<nat>, id: nat)
    requires Inv(h, b, limbo, pending) && id in b.info && b.info[id].refCount == 0
    ensures forall slot | slot in b.newTable :: b.newTable[slot] != id
  {
    hide IdsOk, AddrsOk, RandomOk, TriedOk, CountsOk, PlacedOk, TimesOk;
    assert SlotsOf(b.newTable, id) == {};
    forall slot | slot in b.newTable ensures b.newTable[slot] != id {
      assert slot !in SlotsOf(b.newTable, id);
    }
  }

  lemma OccupantKnown(h: Hashes, b: Book, slot: Slot, id: nat)
    requires Inv(h, b, {}, {}) && id in b.info && !b.info[id].inTried
    ensures slot in b.tried ==> b.tried[slot] in b.info && b.tried[slot] != id
  {
    hide IdsOk, AddrsOk, RandomOk, NewOk, CountsOk, PlacedOk, TimesOk;
  }
}
