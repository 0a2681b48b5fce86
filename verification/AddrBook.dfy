/** The tables of the address manager as values, and the invariant that ties them together. */
module AddrBook {

  const TRIED_BUCKET_COUNT: nat := 256
  const NEW_BUCKET_COUNT: nat := 1024
  const BUCKET_SIZE: nat := 64
  const NEW_BUCKETS_PER_ADDRESS: nat := 8

  /** What is known about an address. Addresses, networks and sources are named by numbers. */
  datatype AddrInfo = AddrInfo(addr: nat, network: nat, source: nat, time: int, services: set<nat>, lastTry: int,
                               lastCountAttempt: int, lastSuccess: int, attempts: int, refCount: int, inTried: bool,
                               randomPos: int)

  datatype Slot = Slot(bucket: nat, pos: nat)

  /** The keyed hashes, as arbitrary functions of the address, the source and the bucket. */
  datatype Hashes = Hashes(triedHash: nat -> nat, newHash: (nat, nat) -> nat, positionHash: (bool, nat, nat) -> nat) {
    function TriedBucket(addr: nat): nat { triedHash(addr) % TRIED_BUCKET_COUNT }

    function NewBucket(addr: nat, source: nat): nat { newHash(addr, source) % NEW_BUCKET_COUNT }

    function BucketPosition(isNew: bool, bucket: nat, addr: nat): nat {
      positionHash(isNew, bucket, addr) % BUCKET_SIZE
    }

    function TriedSlot(addr: nat): Slot { Slot(TriedBucket(addr), BucketPosition(false, TriedBucket(addr), addr)) }

    function NewSlot(addr: nat, bucket: nat): Slot { Slot(bucket, BucketPosition(true, bucket, addr)) }
  }

  type Infos = map<nat, AddrInfo>
  type Table = map<Slot, nat>

  datatype Counts = Counts(news: int, trieds: int)

  function CountsOf(counts: map<nat, Counts>, network: nat): Counts {
    if network in counts then counts[network] else Counts(0, 0)
  }

  // ---- The parts of the invariant

  ghost predicate IdsOk(info: Infos, idCount: nat) {
    forall id | id in info :: id < idCount
  }

  /** The address index and the entries point to each other. */
  ghost predicate AddrsOk(info: Infos, addrs: map<nat, nat>) {
    && (forall id | id in info :: info[id].addr in addrs && addrs[info[id].addr] == id)
    && (forall a | a in addrs :: addrs[a] in info && info[addrs[a]].addr == a)
  }

  /** The random order lists every entry once, at the position it has noted. */
  ghost predicate RandomOk(info: Infos, random: seq<nat>) {
    && |random| == |info|
    && (forall id | id in info :: 0 <= info[id].randomPos < |random| && random[info[id].randomPos] == id)
    && (forall i | 0 <= i < |random| :: random[i] in info && info[random[i]].randomPos == i)
  }

  /** Every tried entry is in its one slot of the tried table, with a success on record. */
  ghost predicate TriedOk(h: Hashes, info: Infos, tried: Table) {
    && (forall slot | slot in tried ::
        tried[slot] in info && info[tried[slot]].inTried && slot == h.TriedSlot(info[tried[slot]].addr))
    && (forall id | id in info && info[id].inTried ::
          && h.TriedSlot(info[id].addr) in tried && tried[h.TriedSlot(info[id].addr)] == id
          && info[id].refCount == 0 && info[id].lastSuccess > 0)
  }

  ghost function SlotsOf(table: Table, id: nat): set<Slot> {
    set slot | slot in table && table[slot] == id
  }

  /** The new table holds entries at their position in the bucket, and each counts its slots. */
  ghost predicate NewOk(h: Hashes, info: Infos, newTable: Table) {
    && (forall slot | slot in newTable ::
          && newTable[slot] in info && !info[newTable[slot]].inTried
          && slot.bucket < NEW_BUCKET_COUNT && slot == h.NewSlot(info[newTable[slot]].addr, slot.bucket))
    && (forall id | id in info ::
        info[id].refCount == |SlotsOf(newTable, id)| && info[id].refCount <= NEW_BUCKETS_PER_ADDRESS)
  }

  ghost function News(info: Infos, limbo: set<nat>): set<nat> {
    set id | id in info && !info[id].inTried && id !in limbo
  }

  ghost function Trieds(info: Infos): set<nat> {
    set id | id in info && info[id].inTried
  }

  ghost function OfNetwork(info: Infos, ids: set<nat>, network: nat): set<nat> {
    set id | id in ids && id in info && info[id].network == network
  }

  /** `total` is the number of `ids`, and `per` that of each network. */
  ghost predicate Tally(info: Infos, ids: set<nat>, total: int, per: nat -> int) {
    total == |ids| && forall network: nat :: per(network) == |OfNetwork(info, ids, network)|
  }

  ghost function NewsOf(counts: map<nat, Counts>): nat -> int {
    (network: nat) => CountsOf(counts, network).news
  }

  ghost function TriedsOf(counts: map<nat, Counts>): nat -> int {
    (network: nat) => CountsOf(counts, network).trieds
  }

  /** The numbers of new and tried entries, in all and per network; entries in `limbo` are not counted. */
  ghost predicate CountsOk(info: Infos, limbo: set<nat>, nNew: int, nTried: int, counts: map<nat, Counts>) {
    Tally(info, News(info, limbo), nNew, NewsOf(counts)) && Tally(info, Trieds(info), nTried, TriedsOf(counts))
  }

  ghost predicate TimesOk(info: Infos) {
    forall id | id in info :: info[id].lastTry >= 0 && info[id].lastSuccess >= 0
  }

  /** An entry that is in no table is one of `loose`. */
  ghost predicate PlacedOk(info: Infos, loose: set<nat>) {
    && (forall id | id in info && !info[id].inTried && info[id].refCount == 0 :: id in loose)
    && (forall id | id in loose && id in info :: !info[id].inTried && info[id].refCount == 0)
  }

  /** All tables together. */
  datatype Book = Book(idCount: nat, info: Infos, addrs: map<nat, nat>, random: seq<nat>, nTried: int, nNew: int,
                       tried: Table, newTable: Table, counts: map<nat, Counts>)

  /** The invariant, except that entries in `limbo` are counted nowhere, and those in `pending` are
      counted as new but in no bucket. */
  ghost predicate Inv(h: Hashes, b: Book, limbo: set<nat>, pending: set<nat>) {
    && IdsOk(b.info, b.idCount) && AddrsOk(b.info, b.addrs) && RandomOk(b.info, b.random)
    && TriedOk(h, b.info, b.tried) && NewOk(h, b.info, b.newTable)
    && CountsOk(b.info, limbo, b.nNew, b.nTried, b.counts)
    && PlacedOk(b.info, limbo + pending) && limbo <= b.info.Keys && TimesOk(b.info)
  }

  // ---- Tallies

  function AddNews(counts: map<nat, Counts>, network: nat, d: int): map<nat, Counts> {
    counts[network := Counts(CountsOf(counts, network).news + d, CountsOf(counts, network).trieds)]
  }

  function AddTrieds(counts: map<nat, Counts>, network: nat, d: int): map<nat, Counts> {
    counts[network := Counts(CountsOf(counts, network).news, CountsOf(counts, network).trieds + d)]
  }

  lemma AddedNews(counts: map<nat, Counts>, network: nat, d: int)
    ensures forall n: nat :: NewsOf(AddNews(counts, network, d))(n) == NewsOf(counts)(n) + if n == network then d else 0
    ensures forall n: nat :: TriedsOf(AddNews(counts, network, d))(n) == TriedsOf(counts)(n)
  {
  }

  lemma AddedTrieds(counts: map<nat, Counts>, network: nat, d: int)
    ensures forall n: nat ::
            TriedsOf(AddTrieds(counts, network, d))(n) == TriedsOf(counts)(n) + if n == network then d else 0
    ensures forall n: nat :: NewsOf(AddTrieds(counts, network, d))(n) == NewsOf(counts)(n)
  {
  }

  /** The networks of the listed entries are the same. */
  ghost predicate SameNetworks(info: Infos, info': Infos, ids: set<nat>) {
    forall id | id in ids && id in info :: id in info' && info'[id].network == info[id].network
  }

  lemma TallySame(info: Infos, info': Infos, ids: set<nat>, total: int, per: nat -> int, per': nat -> int)
    requires Tally(info, ids, total, per) && ids <= info.Keys && SameNetworks(info, info', ids)
    requires forall network: nat :: per'(network) == per(network)
    ensures Tally(info', ids, total, per')
  {
    forall network: nat ensures per'(network) == |OfNetwork(info', ids, network)| {
      assert OfNetwork(info', ids, network) == OfNetwork(info, ids, network);
    }
  }

  lemma TallyAdd(info: Infos, info': Infos, ids: set<nat>, id: nat, total: int, per: nat -> int, per': nat -> int)
    requires Tally(info, ids, total, per) && ids <= info.Keys && SameNetworks(info, info', ids) && id !in ids
             && id in info'
    requires forall network: nat :: per'(network) == per(network) + if network == info'[id].network then 1 else 0
    ensures Tally(info', ids + {id}, total + 1, per')
  {
    forall network: nat ensures per'(network) == |OfNetwork(info', ids + {id}, network)| {
      OfNetworkAdd(info, info', ids, id, network);
    }
  }

  lemma OfNetworkAdd(info: Infos, info': Infos, ids: set<nat>, id: nat, network: nat)
    requires ids <= info.Keys && SameNetworks(info, info', ids) && id !in ids && id in info'
    ensures |OfNetwork(info', ids + {id}, network)| ==
            |OfNetwork(info, ids, network)| + if network == info'[id].network then 1 else 0
  {
    if network == info'[id].network {
      assert OfNetwork(info', ids + {id}, network) == OfNetwork(info, ids, network) + {id};
    } else {
      assert OfNetwork(info', ids + {id}, network) == OfNetwork(info, ids, network);
    }
  }

  lemma TallyRemove(info: Infos, info': Infos, ids: set<nat>, id: nat, total: int, per: nat -> int, per': nat -> int)
    requires Tally(info, ids, total, per) && ids <= info.Keys && SameNetworks(info, info', ids - {id}) && id in ids
    requires forall network: nat :: per'(network) == per(network) - if network == info[id].network then 1 else 0
    ensures Tally(info', ids - {id}, total - 1, per')
  {
    forall network: nat ensures per'(network) == |OfNetwork(info', ids - {id}, network)| {
      OfNetworkRemove(info, info', ids, id, network);
    }
  }

  lemma OfNetworkRemove(info: Infos, info': Infos, ids: set<nat>, id: nat, network: nat)
    requires ids <= info.Keys && SameNetworks(info, info', ids - {id}) && id in ids
    ensures |OfNetwork(info', ids - {id}, network)| ==
            |OfNetwork(info, ids, network)| - if network == info[id].network then 1 else 0
  {
    if network == info[id].network {
      assert OfNetwork(info', ids - {id}, network) == OfNetwork(info, ids, network) - {id};
    } else {
      assert OfNetwork(info', ids - {id}, network) == OfNetwork(info, ids, network);
    }
  }

  // ---- Changing one entry

  /** What places an entry in the indexes. */
  ghost predicate SamePlace(e: AddrInfo, e': AddrInfo) {
    e'.addr == e.addr && e'.network == e.network && e'.randomPos == e.randomPos
  }

  lemma IdsSame(info: Infos, idCount: nat, id: nat, e: AddrInfo)
    requires id in info && IdsOk(info, idCount)
    ensures IdsOk(info[id := e], idCount) && info[id := e].Keys == info.Keys
  {
  }

  lemma AddrsSame(info: Infos, addrs: map<nat, nat>, id: nat, e: AddrInfo)
    requires id in info && SamePlace(info[id], e) && AddrsOk(info, addrs)
    ensures AddrsOk(info[id := e], addrs)
  {
  }

  lemma RandomSame(info: Infos, random: seq<nat>, id: nat, e: AddrInfo)
    requires id in info && SamePlace(info[id], e) && RandomOk(info, random)
    ensures RandomOk(info[id := e], random)
  {
    assert info[id := e].Keys == info.Keys;
    assert |info[id := e]| == |info|;
  }

  lemma TriedSame(h: Hashes, info: Infos, tried: Table, id: nat, e: AddrInfo)
    requires id in info && SamePlace(info[id], e) && TriedOk(h, info, tried)
    requires e.inTried == info[id].inTried && (e.inTried ==> e.refCount == 0 && e.lastSuccess > 0)
    ensures TriedOk(h, info[id := e], tried)
  {
  }

  lemma NewSame(h: Hashes, info: Infos, newTable: Table, id: nat, e: AddrInfo)
    requires id in info && SamePlace(info[id], e) && NewOk(h, info, newTable) && e.inTried == info[id].inTried
             && e.refCount == info[id].refCount
    ensures NewOk(h, info[id := e], newTable)
  {
  }

  lemma CountsSame(info: Infos, limbo: set<nat>, nNew: int, nTried: int, counts: map<nat, Counts>, id: nat, e: AddrInfo)
    requires id in info && SamePlace(info[id], e) && CountsOk(info, limbo, nNew, nTried, counts)
             && e.inTried == info[id].inTried
    ensures CountsOk(info[id := e], limbo, nNew, nTried, counts)
  {
    var info' := info[id := e];
    assert News(info', limbo) == News(info, limbo) && Trieds(info') == Trieds(info);
    hide Tally;
    TallySame(info, info', News(info, limbo), nNew, NewsOf(counts), NewsOf(counts));
    TallySame(info, info', Trieds(info), nTried, TriedsOf(counts), TriedsOf(counts));
  }

  /** Everything about an entry but its slots. */
  lemma EntrySame(h: Hashes, b: Book, limbo: set<nat>, pending: set<nat>, id: nat, e: AddrInfo)
    requires Inv(h, b, limbo, pending) && id in b.info && SamePlace(b.info[id], e) && e.inTried == b.info[id].inTried
    requires e.lastTry >= 0 && e.lastSuccess >= 0 && (e.inTried ==> e.refCount == 0 && e.lastSuccess > 0)
    ensures var info := b.info[id := e];
            && IdsOk(info, b.idCount) && AddrsOk(info, b.addrs) && RandomOk(info, b.random) && TriedOk(h, info, b.tried)
            && CountsOk(info, limbo, b.nNew, b.nTried, b.counts) && info.Keys == b.info.Keys && TimesOk(info)
  {
    assert TimesOk(b.info[id := e]);
    hide IdsOk, AddrsOk, RandomOk, TriedOk, NewOk, CountsOk, PlacedOk, TimesOk;
    IdsSame(b.info, b.idCount, id, e);
    AddrsSame(b.info, b.addrs, id, e);
    RandomSame(b.info, b.random, id, e);
    TriedSame(h, b.info, b.tried, id, e);
    CountsSame(b.info, limbo, b.nNew, b.nTried, b.counts, id, e);
  }

  /** Update statistics of an entry. */
  function Touched(b: Book, id: nat, e: AddrInfo): Book
    requires id in b.info
  {
    b.(info := b.info[id := e])
  }

  lemma TouchInv(h: Hashes, b: Book, limbo: set<nat>, pending: set<nat>, id: nat, e: AddrInfo)
    requires Inv(h, b, limbo, pending) && id in b.info && SamePlace(b.info[id], e)
    requires e.inTried == b.info[id].inTried && e.refCount == b.info[id].refCount
    requires e.lastTry >= 0 && e.lastSuccess >= 0 && (e.inTried ==> e.lastSuccess > 0)
    ensures Inv(h, Touched(b, id, e), limbo, pending)
  {
    hide IdsOk, AddrsOk, RandomOk, TriedOk, NewOk, CountsOk, PlacedOk, TimesOk;
    NoRefs(h, b, limbo, pending, id);
    PlacedChange(b.info, limbo + pending, id, e, limbo + pending);
    EntrySame(h, b, limbo, pending, id, e);
    NewSame(h, b.info, b.newTable, id, e);
  }

  lemma PlacedChange(info: Infos, loose: set<nat>, id: nat, e: AddrInfo, loose': set<nat>)
    requires id in info && PlacedOk(info, loose)
    requires loose' == if !e.inTried && e.refCount == 0 then loose + {id} else loose - {id}
    ensures PlacedOk(info[id := e], loose')
  {
  }

  lemma NoRefs(h: Hashes, b: Book, limbo: set<nat>, pending: set<nat>, id: nat)
    requires Inv(h, b, limbo, pending) && id in b.info
    ensures b.info[id].inTried ==> b.info[id].refCount == 0
    ensures b.info[id].lastTry >= 0 && b.info[id].lastSuccess >= 0
            && (b.info[id].inTried ==> b.info[id].lastSuccess > 0)
    ensures 0 <= b.info[id].refCount <= NEW_BUCKETS_PER_ADDRESS
    ensures id in limbo + pending <==> !b.info[id].inTried && b.info[id].refCount == 0
  {
  }

  // ---- The new table

  /** Put the entry in a free slot of the new table. */
  function SlotAdded(b: Book, slot: Slot, id: nat): Book
    requires id in b.info
  {
    b.(newTable := b.newTable[slot := id], info := b.info[id := b.info[id].(refCount := b.info[id].refCount + 1)])
  }

  lemma SlotAddedInv(h: Hashes, b: Book, limbo: set<nat>, pending: set<nat>, slot: Slot, id: nat)
    requires Inv(h, b, limbo, pending) && id in b.info && !b.info[id].inTried && id !in limbo
    requires slot !in b.newTable && slot.bucket < NEW_BUCKET_COUNT && slot == h.NewSlot(b.info[id].addr, slot.bucket)
    requires b.info[id].refCount < NEW_BUCKETS_PER_ADDRESS
    ensures Inv(h, SlotAdded(b, slot, id), limbo, pending - {id})
  {
    hide IdsOk, AddrsOk, RandomOk, TriedOk, NewOk, CountsOk, PlacedOk, TimesOk;
    NoRefs(h, b, limbo, pending, id);
    var b' := SlotAdded(b, slot, id);
    assert limbo + (pending - {id}) == (limbo + pending) - {id};
    PlacedChange(b.info, limbo + pending, id, b'.info[id], limbo + (pending - {id}));
    EntrySame(h, b, limbo, pending, id, b'.info[id]);
    SlotAddedNew(h, b, slot, id);
  }

  lemma SlotAddedNew(h: Hashes, b: Book, slot: Slot, id: nat)
    requires NewOk(h, b.info, b.newTable) && id in b.info && !b.info[id].inTried
    requires slot !in b.newTable && slot.bucket < NEW_BUCKET_COUNT && slot == h.NewSlot(b.info[id].addr, slot.bucket)
    requires b.info[id].refCount < NEW_BUCKETS_PER_ADDRESS
    ensures NewOk(h, SlotAdded(b, slot, id).info, SlotAdded(b, slot, id).newTable)
    ensures b.info[id].refCount >= 0
  {
    var b' := SlotAdded(b, slot, id);
    forall j ensures |SlotsOf(b'.newTable, j)| == |SlotsOf(b.newTable, j)| + if j == id then 1 else 0 {
      SlotsAdd(b.newTable, slot, id, j);
    }
    hide SlotsOf, Hashes.NewSlot;
  }

  lemma SlotsAdd(table: Table, slot: Slot, id: nat, j: nat)
    requires slot !in table
    ensures |SlotsOf(table[slot := id], j)| == |SlotsOf(table, j)| + if j == id then 1 else 0
  {
    if j == id {
      assert SlotsOf(table[slot := id], j) == SlotsOf(table, j) + {slot};
    } else {
      assert SlotsOf(table[slot := id], j) == SlotsOf(table, j);
    }
  }

  /** Take the entry out of a slot of the new table. */
  function SlotCleared(b: Book, slot: Slot): Book
    requires slot in b.newTable && b.newTable[slot] in b.info
  {
    var id := b.newTable[slot];
    b.(newTable := b.newTable - {slot}, info := b.info[id := b.info[id].(refCount := b.info[id].refCount - 1)])
  }

  lemma SlotClearedInv(h: Hashes, b: Book, limbo: set<nat>, pending: set<nat>, slot: Slot)
    requires Inv(h, b, limbo, pending) && slot in b.newTable
    ensures var id := b.newTable[slot];
            && id in b.info && b.info[id].refCount > 0 && !b.info[id].inTried && id !in limbo + pending
            && Inv(h, SlotCleared(b, slot), limbo, if b.info[id].refCount == 1 then pending + {id} else pending)
  {
    hide IdsOk, AddrsOk, RandomOk, TriedOk, NewOk, CountsOk, PlacedOk, TimesOk;
    var id := b.newTable[slot];
    SlotClearedNew(h, b, slot);
    NoRefs(h, b, limbo, pending, id);
    var b' := SlotCleared(b, slot);
    var pending' := if b.info[id].refCount == 1 then pending + {id} else pending;
    assert limbo + (pending + {id}) == limbo + pending + {id};
    assert (limbo + pending) - {id} == limbo + pending;
    PlacedChange(b.info, limbo + pending, id, b'.info[id], limbo + pending');
    EntrySame(h, b, limbo, pending, id, b'.info[id]);
  }

  lemma SlotClearedNew(h: Hashes, b: Book, slot: Slot)
    requires NewOk(h, b.info, b.newTable) && slot in b.newTable
    ensures b.newTable[slot] in b.info && b.info[b.newTable[slot]].refCount > 0 && !b.info[b.newTable[slot]].inTried
    ensures NewOk(h, SlotCleared(b, slot).info, SlotCleared(b, slot).newTable)
  {
    var id := b.newTable[slot];
    var b' := SlotCleared(b, slot);
    assert slot in SlotsOf(b.newTable, id);
    assert SlotsOf(b'.newTable, id) == SlotsOf(b.newTable, id) - {slot};
    forall j | j in b.info && j != id ensures SlotsOf(b'.newTable, j) == SlotsOf(b.newTable, j) {}
  }

  // ---- Creating and deleting entries

  /** A new entry, at the end of the random order. */
  function Created(b: Book, e: AddrInfo): Book {
    var id := b.idCount;
    b.(idCount := id + 1, info := b.info[id := e.(randomPos := |b.random|)], addrs := b.addrs[e.addr := id],
       random := b.random + [id], nNew := b.nNew + 1, counts := AddNews(b.counts, e.network, 1))
  }

  ghost predicate Blank(e: AddrInfo) {
    !e.inTried && e.refCount == 0 && e.lastTry >= 0 && e.lastSuccess >= 0
  }

  lemma CreatedInv(h: Hashes, b: Book, limbo: set<nat>, pending: set<nat>, e: AddrInfo)
    requires Inv(h, b, limbo, pending) && e.addr !in b.addrs && Blank(e)
    ensures Inv(h, Created(b, e), limbo, pending + {b.idCount})
  {
    hide IdsOk, AddrsOk, RandomOk, TriedOk, NewOk, CountsOk, PlacedOk, TimesOk;
    NotYet(b);
    CreatedIndexes(b, e);
    CreatedTables(h, b, e);
    CreatedCounts(b, limbo, e);
    CreatedPlaced(b, limbo + pending, e);
    assert limbo + pending + {b.idCount} == limbo + (pending + {b.idCount});
  }

  lemma NotYet(b: Book)
    requires IdsOk(b.info, b.idCount)
    ensures b.idCount !in b.info
  {
  }

  lemma CreatedIndexes(b: Book, e: AddrInfo)
    requires IdsOk(b.info, b.idCount) && AddrsOk(b.info, b.addrs) && RandomOk(b.info, b.random) && e.addr !in b.addrs
             && b.idCount !in b.info
    ensures var b' := Created(b, e);
            IdsOk(b'.info, b'.idCount) && AddrsOk(b'.info, b'.addrs) && RandomOk(b'.info, b'.random)
  {
    hide IdsOk, AddrsOk, RandomOk;
    var id, e' := b.idCount, e.(randomPos := |b.random|);
    MoreIds(b.info, id, e');
    MoreAddrs(b.info, b.addrs, id, e');
    MoreRandom(b.info, b.random, id, e');
  }

  lemma MoreIds(info: Infos, id: nat, e: AddrInfo)
    requires IdsOk(info, id)
    ensures IdsOk(info[id := e], id + 1)
  {
  }

  lemma MoreAddrs(info: Infos, addrs: map<nat, nat>, id: nat, e: AddrInfo)
    requires AddrsOk(info, addrs) && id !in info && e.addr !in addrs
    ensures AddrsOk(info[id := e], addrs[e.addr := id])
  {
  }

  lemma MoreRandom(info: Infos, random: seq<nat>, id: nat, e: AddrInfo)
    requires RandomOk(info, random) && id !in info && e.randomPos == |random|
    ensures RandomOk(info[id := e], random + [id])
  {
    assert info[id := e].Keys == info.Keys + {id};
    assert |info[id := e]| == |info| + 1;
  }

  lemma CreatedTables(h: Hashes, b: Book, e: AddrInfo)
    requires TriedOk(h, b.info, b.tried) && NewOk(h, b.info, b.newTable) && b.idCount !in b.info && Blank(e)
    ensures TriedOk(h, Created(b, e).info, b.tried) && NewOk(h, Created(b, e).info, b.newTable)
  {
    assert SlotsOf(b.newTable, b.idCount) == {};
  }

  lemma CreatedCounts(b: Book, limbo: set<nat>, e: AddrInfo)
    requires CountsOk(b.info, limbo, b.nNew, b.nTried, b.counts) && b.idCount !in b.info && limbo <= b.info.Keys
             && !e.inTried
    ensures var b' := Created(b, e); CountsOk(b'.info, limbo, b'.nNew, b'.nTried, b'.counts)
  {
    hide CountsOk;
    CountsMore(b.info, limbo, b.nNew, b.nTried, b.counts, b.idCount, e.(randomPos := |b.random|));
  }

  lemma CountsMore(info: Infos, limbo: set<nat>, nNew: int, nTried: int, counts: map<nat, Counts>, id: nat, e: AddrInfo)
    requires CountsOk(info, limbo, nNew, nTried, counts) && id !in info && id !in limbo && !e.inTried
    ensures CountsOk(info[id := e], limbo, nNew + 1, nTried, AddNews(counts, e.network, 1))
  {
    hide Tally, News, Trieds, NewsOf, TriedsOf, AddNews;
    var info', counts' := info[id := e], AddNews(counts, e.network, 1);
    AddedNews(counts, e.network, 1);
    NewsMore(info, limbo, id, e);
    NewsWithin(info, limbo);
    TallyAdd(info, info', News(info, limbo), id, nNew, NewsOf(counts), NewsOf(counts'));
    TallySame(info, info', Trieds(info), nTried, TriedsOf(counts), TriedsOf(counts'));
  }

  lemma NewsMore(info: Infos, limbo: set<nat>, id: nat, e: AddrInfo)
    requires id !in info && id !in limbo && !e.inTried
    ensures News(info[id := e], limbo) == News(info, limbo) + {id} && id !in News(info, limbo)
    ensures Trieds(info[id := e]) == Trieds(info)
  {
  }

  lemma NewsWithin(info: Infos, limbo: set<nat>)
    ensures News(info, limbo) <= info.Keys && Trieds(info) <= info.Keys
  {
  }

  lemma CreatedPlaced(b: Book, loose: set<nat>, e: AddrInfo)
    requires PlacedOk(b.info, loose) && TimesOk(b.info) && b.idCount !in b.info && Blank(e)
    ensures PlacedOk(Created(b, e).info, loose + {b.idCount}) && TimesOk(Created(b, e).info)
  {
  }

  /** Exchange two positions of the random order. */
  function Swapped(b: Book, i: nat, j: nat): Book
    requires i < |b.random| && j < |b.random| && b.random[i] in b.info && b.random[j] in b.info
  {
    if i == j then b
    else
      var x, y := b.random[i], b.random[j];
      var info := b.info[x := b.info[x].(randomPos := j)];
      b.(info := info[y := info[y].(randomPos := i)], random := b.random[i := y][j := x])
  }

  lemma SwapRandom(info: Infos, random: seq<nat>, i: nat, j: nat)
    requires RandomOk(info, random) && i < |random| && j < |random| && i != j
    ensures var x, y := random[i], random[j];
            && x in info && y in info && x != y
            && RandomOk(info[x := info[x].(randomPos := j)][y := info[y].(randomPos := i)], random[i := y][j := x])
  {
    var x, y := random[i], random[j];
    assert info[x].randomPos == i && info[y].randomPos == j;
    var info', random' := info[x := info[x].(randomPos := j)][y := info[y].(randomPos := i)], random[i := y][j := x];
    assert info'.Keys == info.Keys;
    assert |info'| == |info|;
    forall k | 0 <= k < |random'| ensures random'[k] in info' && info'[random'[k]].randomPos == k {
      assert info[random[k]].randomPos == k;
    }
    forall id | id in info' ensures 0 <= info'[id].randomPos < |random'| && random'[info'[id].randomPos] == id {
      assert random[info[id].randomPos] == id;
    }
  }

  /** Everything but the random position. */
  ghost predicate SameButRandom(info: Infos, info': Infos) {
    info'.Keys == info.Keys && forall id | id in info :: info'[id] == info[id].(randomPos := info'[id].randomPos)
  }

  lemma SwappedInv(h: Hashes, b: Book, limbo: set<nat>, pending: set<nat>, i: nat, j: nat)
    requires Inv(h, b, limbo, pending) && i < |b.random| && j < |b.random|
    ensures b.random[i] in b.info && b.random[j] in b.info && Inv(h, Swapped(b, i, j), limbo, pending)
    ensures SameButRandom(b.info, Swapped(b, i, j).info)
  {
    hide IdsOk, AddrsOk, RandomOk, TriedOk, NewOk, CountsOk, PlacedOk, TimesOk;
    InRandom(b.info, b.random, i);
    InRandom(b.info, b.random, j);
    if i != j { SwapRandom(b.info, b.random, i, j); }
    RandomOnly(h, b, Swapped(b, i, j).info, limbo, pending);
  }

  lemma InRandom(info: Infos, random: seq<nat>, i: nat)
    requires RandomOk(info, random) && i < |random|
    ensures random[i] in info && info[random[i]].randomPos == i
  {
  }

  lemma RandomOnly(h: Hashes, b: Book, info: Infos, limbo: set<nat>, pending: set<nat>)
    requires Inv(h, b, limbo, pending) && SameButRandom(b.info, info)
    ensures IdsOk(info, b.idCount) && AddrsOk(info, b.addrs) && TriedOk(h, info, b.tried) && NewOk(h, info, b.newTable)
    ensures CountsOk(info, limbo, b.nNew, b.nTried, b.counts) && PlacedOk(info, limbo + pending) && TimesOk(info)
  {
    hide IdsOk, AddrsOk, RandomOk, TriedOk, NewOk, CountsOk, PlacedOk, TimesOk;
    RandomOnlyIndexes(b.info, info, b.idCount, b.addrs, limbo + pending);
    RandomOnlyTables(h, b.info, info, b.tried, b.newTable);
    RandomOnlyCounts(b.info, info, limbo, b.nNew, b.nTried, b.counts);
  }

  lemma RandomOnlyIndexes(info: Infos, info': Infos, idCount: nat, addrs: map<nat, nat>, loose: set<nat>)
    requires IdsOk(info, idCount) && AddrsOk(info, addrs) && PlacedOk(info, loose) && TimesOk(info)
             && SameButRandom(info, info')
    ensures IdsOk(info', idCount) && AddrsOk(info', addrs) && PlacedOk(info', loose) && TimesOk(info')
  {
  }

  lemma RandomOnlyTables(h: Hashes, info: Infos, info': Infos, tried: Table, newTable: Table)
    requires TriedOk(h, info, tried) && NewOk(h, info, newTable) && SameButRandom(info, info')
    ensures TriedOk(h, info', tried) && NewOk(h, info', newTable)
  {
    hide SlotsOf, Hashes.TriedSlot, Hashes.NewSlot;
  }

  lemma RandomOnlyCounts(info: Infos, info': Infos, limbo: set<nat>, nNew: int, nTried: int, counts: map<nat, Counts>)
    requires CountsOk(info, limbo, nNew, nTried, counts) && SameButRandom(info, info')
    ensures CountsOk(info', limbo, nNew, nTried, counts)
  {
    hide Tally;
    assert News(info', limbo) == News(info, limbo) && Trieds(info') == Trieds(info);
    TallySame(info, info', News(info, limbo), nNew, NewsOf(counts), NewsOf(counts));
    TallySame(info, info', Trieds(info), nTried, TriedsOf(counts), TriedsOf(counts));
  }

  /** Remove the entry that is last in the random order. */
  function Dropped(b: Book, id: nat): Book
    requires id in b.info && b.random != []
  {
    b.(random := b.random[..|b.random| - 1], addrs := b.addrs - {b.info[id].addr}, info := b.info - {id},
       nNew := b.nNew - 1, counts := AddNews(b.counts, b.info[id].network, -1))
  }

  lemma DroppedInv(h: Hashes, b: Book, limbo: set<nat>, pending: set<nat>, id: nat)
    requires Inv(h, b, limbo, pending) && id in b.info && id in pending && id !in limbo
    requires b.info[id].randomPos == |b.random| - 1 && b.random != []
    ensures Inv(h, Dropped(b, id), limbo, pending - {id})
  {
    hide IdsOk, AddrsOk, RandomOk, TriedOk, NewOk, CountsOk, PlacedOk, TimesOk;
    NoRefs(h, b, limbo, pending, id);
    LessIndexes(b.info, b.idCount, b.addrs, id);
    LessRandom(b.info, b.random, id);
    LessTables(h, b.info, b.tried, b.newTable, id);
    CountsLess(b.info, limbo, b.nNew, b.nTried, b.counts, id);
    LessPlaced(b.info, limbo + pending, id);
    assert (limbo + pending) - {id} == limbo + (pending - {id});
  }

  lemma LessIndexes(info: Infos, idCount: nat, addrs: map<nat, nat>, id: nat)
    requires IdsOk(info, idCount) && AddrsOk(info, addrs) && id in info
    ensures IdsOk(info - {id}, idCount) && AddrsOk(info - {id}, addrs - {info[id].addr})
  {
  }

  lemma LessRandom(info: Infos, random: seq<nat>, id: nat)
    requires RandomOk(info, random) && id in info && random != [] && info[id].randomPos == |random| - 1
    ensures RandomOk(info - {id}, random[..|random| - 1])
  {
    var info', random' := info - {id}, random[..|random| - 1];
    assert info'.Keys == info.Keys - {id};
    assert |info'| == |info| - 1;
    assert random[|random| - 1] == id;
    forall j | j in info' ensures info'[j].randomPos < |random'| {
      assert random[info[j].randomPos] == j;
    }
    forall i | 0 <= i < |random'| ensures random'[i] in info' {
      assert info[random[i]].randomPos == i;
    }
  }

  lemma LessTables(h: Hashes, info: Infos, tried: Table, newTable: Table, id: nat)
    requires TriedOk(h, info, tried) && NewOk(h, info, newTable) && id in info && !info[id].inTried
             && info[id].refCount == 0
    ensures TriedOk(h, info - {id}, tried) && NewOk(h, info - {id}, newTable)
  {
    hide Hashes.TriedSlot, Hashes.NewSlot;
    assert SlotsOf(newTable, id) == {};
    forall slot | slot in newTable ensures newTable[slot] != id {
      assert slot !in SlotsOf(newTable, id);
    }
    hide SlotsOf;
  }

  lemma CountsLess(info: Infos, limbo: set<nat>, nNew: int, nTried: int, counts: map<nat, Counts>, id: nat)
    requires CountsOk(info, limbo, nNew, nTried, counts) && id in info && !info[id].inTried && id !in limbo
    ensures CountsOk(info - {id}, limbo, nNew - 1, nTried, AddNews(counts, info[id].network, -1))
  {
    hide Tally, NewsOf, TriedsOf, AddNews, AddTrieds;
    var info', counts' := info - {id}, AddNews(counts, info[id].network, -1);
    AddedNews(counts, info[id].network, -1);
    assert News(info', limbo) == News(info, limbo) - {id} && Trieds(info') == Trieds(info);
    assert id in News(info, limbo) && id !in Trieds(info);
    hide News, Trieds;
    NewsWithin(info, limbo);
    TallyRemove(info, info', News(info, limbo), id, nNew, NewsOf(counts), NewsOf(counts'));
    TallySame(info, info', Trieds(info), nTried, TriedsOf(counts), TriedsOf(counts'));
  }

  lemma LessPlaced(info: Infos, loose: set<nat>, id: nat)
    requires PlacedOk(info, loose) && TimesOk(info) && id in info
    ensures PlacedOk(info - {id}, loose - {id}) && TimesOk(info - {id})
  {
  }

  /** The entry is where it says in the random order. */
  predicate InPlace(b: Book, id: nat) {
    && id in b.info && 0 <= b.info[id].randomPos < |b.random|
    && b.random[b.info[id].randomPos] == id && b.random[|b.random| - 1] in b.info
  }

  /** Delete an entry. */
  function Deleted(b: Book, id: nat): Book
    requires InPlace(b, id)
  {
    Dropped(Swapped(b, b.info[id].randomPos, |b.random| - 1), id)
  }

  lemma DeletedInv(h: Hashes, b: Book, limbo: set<nat>, pending: set<nat>, id: nat)
    requires Inv(h, b, limbo, pending) && id in b.info && id in pending && id !in limbo
    ensures InPlace(b, id) && Inv(h, Deleted(b, id), limbo, pending - {id})
    ensures SameButRandom(b.info - {id}, Deleted(b, id).info)
  {
    hide IdsOk, AddrsOk, RandomOk, TriedOk, NewOk, CountsOk, PlacedOk, TimesOk;
    RandomAt(b.info, b.random, id);
    var last := |b.random| - 1;
    SwappedInv(h, b, limbo, pending, b.info[id].randomPos, last);
    var b1 := Swapped(b, b.info[id].randomPos, last);
    DroppedInv(h, b1, limbo, pending, id);
  }

  lemma RandomAt(info: Infos, random: seq<nat>, id: nat)
    requires RandomOk(info, random) && id in info
    ensures 0 <= info[id].randomPos < |random| && random[info[id].randomPos] == id && random[|random| - 1] in info
    ensures info[id].randomPos != |random| - 1 ==> random[|random| - 1] != id
  {
  }

  // ---- Between the tables

  /** No longer count the entry as new. */
  function Uncounted(b: Book, id: nat): Book
    requires id in b.info
  {
    b.(nNew := b.nNew - 1, counts := AddNews(b.counts, b.info[id].network, -1))
  }

  lemma UncountedInv(h: Hashes, b: Book, limbo: set<nat>, pending: set<nat>, id: nat)
    requires Inv(h, b, limbo, pending) && id in b.info && id in pending && id !in limbo
    ensures Inv(h, Uncounted(b, id), limbo + {id}, pending - {id})
  {
    hide IdsOk, AddrsOk, RandomOk, TriedOk, NewOk, CountsOk, PlacedOk, TimesOk;
    NoRefs(h, b, limbo, pending, id);
    assert limbo + {id} + (pending - {id}) == limbo + pending;
    CountsToLimbo(b.info, limbo, b.nNew, b.nTried, b.counts, id);
  }

  lemma CountsToLimbo(info: Infos, limbo: set<nat>, nNew: int, nTried: int, counts: map<nat, Counts>, id: nat)
    requires CountsOk(info, limbo, nNew, nTried, counts) && id in info && !info[id].inTried && id !in limbo
    ensures CountsOk(info, limbo + {id}, nNew - 1, nTried, AddNews(counts, info[id].network, -1))
  {
    hide Tally, NewsOf, TriedsOf, AddNews, AddTrieds;
    var counts' := AddNews(counts, info[id].network, -1);
    AddedNews(counts, info[id].network, -1);
    assert News(info, limbo + {id}) == News(info, limbo) - {id};
    assert id in News(info, limbo);
    NewsWithin(info, limbo);
    hide News, Trieds;
    TallyRemove(info, info, News(info, limbo), id, nNew, NewsOf(counts), NewsOf(counts'));
    TallySame(info, info, Trieds(info), nTried, TriedsOf(counts), TriedsOf(counts'));
  }

  /** Count the entry as new again. */
  function Counted(b: Book, id: nat): Book
    requires id in b.info
  {
    b.(nNew := b.nNew + 1, counts := AddNews(b.counts, b.info[id].network, 1))
  }

  lemma CountedInv(h: Hashes, b: Book, limbo: set<nat>, pending: set<nat>, id: nat)
    requires Inv(h, b, limbo, pending) && id in b.info && id in limbo
    ensures Inv(h, Counted(b, id), limbo - {id}, pending + {id})
  {
    hide IdsOk, AddrsOk, RandomOk, TriedOk, NewOk, CountsOk, PlacedOk, TimesOk;
    NoRefs(h, b, limbo, pending, id);
    assert limbo - {id} + (pending + {id}) == limbo + pending;
    CountsFromLimbo(b.info, limbo, b.nNew, b.nTried, b.counts, id);
  }

  lemma CountsFromLimbo(info: Infos, limbo: set<nat>, nNew: int, nTried: int, counts: map<nat, Counts>, id: nat)
    requires CountsOk(info, limbo, nNew, nTried, counts) && id in info && !info[id].inTried && id in limbo
    ensures CountsOk(info, limbo - {id}, nNew + 1, nTried, AddNews(counts, info[id].network, 1))
  {
    hide Tally, NewsOf, TriedsOf, AddNews, AddTrieds;
    var counts' := AddNews(counts, info[id].network, 1);
    AddedNews(counts, info[id].network, 1);
    assert News(info, limbo - {id}) == News(info, limbo) + {id};
    assert id !in News(info, limbo);
    NewsWithin(info, limbo);
    hide News, Trieds;
    TallyAdd(info, info, News(info, limbo), id, nNew, NewsOf(counts), NewsOf(counts'));
    TallySame(info, info, Trieds(info), nTried, TriedsOf(counts), TriedsOf(counts'));
  }

  /** Take the entry out of its tried slot. */
  function Evicted(b: Book, slot: Slot): Book
    requires slot in b.tried && b.tried[slot] in b.info
  {
    var id := b.tried[slot];
    b.(tried := b.tried - {slot}, info := b.info[id := b.info[id].(inTried := false)],
       nTried := b.nTried - 1, counts := AddTrieds(b.counts, b.info[id].network, -1))
  }

  lemma EvictedInv(h: Hashes, b: Book, limbo: set<nat>, pending: set<nat>, slot: Slot)
    requires Inv(h, b, limbo, pending) && slot in b.tried
    ensures var id := b.tried[slot];
            && id in b.info && id !in limbo + pending && b.info[id].inTried
            && Inv(h, Evicted(b, slot), limbo + {id}, pending)
  {
    hide IdsOk, AddrsOk, RandomOk, TriedOk, NewOk, CountsOk, PlacedOk, TimesOk;
    var id := b.tried[slot];
    TriedEntry(h, b.info, b.tried, slot);
    NoRefs(h, b, limbo, pending, id);
    var e := b.info[id].(inTried := false);
    IdsSame(b.info, b.idCount, id, e);
    AddrsSame(b.info, b.addrs, id, e);
    RandomSame(b.info, b.random, id, e);
    TimesSame(b.info, id, e);
    LeaveTried(h, b.info, b.tried, b.newTable, slot);
    CountsLeaveTried(b.info, limbo, b.nNew, b.nTried, b.counts, id);
    PlacedChange(b.info, limbo + pending, id, e, limbo + {id} + pending);
  }

  lemma TimesSame(info: Infos, id: nat, e: AddrInfo)
    requires TimesOk(info) && e.lastTry >= 0 && e.lastSuccess >= 0
    ensures TimesOk(info[id := e])
  {
  }

  lemma TriedEntry(h: Hashes, info: Infos, tried: Table, slot: Slot)
    requires TriedOk(h, info, tried) && slot in tried
    ensures tried[slot] in info && info[tried[slot]].inTried && slot == h.TriedSlot(info[tried[slot]].addr)
  {
  }

  lemma LeaveTried(h: Hashes, info: Infos, tried: Table, newTable: Table, slot: Slot)
    requires TriedOk(h, info, tried) && NewOk(h, info, newTable) && slot in tried && tried[slot] in info
    ensures var info' := info[tried[slot] := info[tried[slot]].(inTried := false)];
            TriedOk(h, info', tried - {slot}) && NewOk(h, info', newTable)
  {
    hide Hashes.TriedSlot, Hashes.NewSlot, SlotsOf;
    var id := tried[slot];
    var info', tried' := info[id := info[id].(inTried := false)], tried - {slot};
    forall s | s in tried' ensures tried'[s] != id {
      assert s == h.TriedSlot(info[tried[s]].addr);
      assert slot == h.TriedSlot(info[id].addr);
    }
    forall j | j in info' && info'[j].inTried ensures h.TriedSlot(info'[j].addr) in tried' {
      assert tried[h.TriedSlot(info[j].addr)] == j;
    }
  }

  lemma CountsLeaveTried(info: Infos, limbo: set<nat>, nNew: int, nTried: int, counts: map<nat, Counts>, id: nat)
    requires CountsOk(info, limbo, nNew, nTried, counts) && id in info && info[id].inTried && id !in limbo
    ensures CountsOk(info[id := info[id].(inTried := false)], limbo + {id}, nNew, nTried - 1,
                     AddTrieds(counts, info[id].network, -1))
  {
    hide Tally, NewsOf, TriedsOf, AddNews, AddTrieds;
    var info', counts' := info[id := info[id].(inTried := false)], AddTrieds(counts, info[id].network, -1);
    AddedTrieds(counts, info[id].network, -1);
    assert News(info', limbo + {id}) == News(info, limbo);
    assert Trieds(info') == Trieds(info) - {id};
    assert id in Trieds(info);
    NewsWithin(info, limbo);
    hide News, Trieds;
    TallySame(info, info', News(info, limbo), nNew, NewsOf(counts), NewsOf(counts'));
    TallyRemove(info, info', Trieds(info), id, nTried, TriedsOf(counts), TriedsOf(counts'));
  }

  /** Put the entry in its free tried slot. */
  function MovedToTried(b: Book, slot: Slot, id: nat): Book
    requires id in b.info
  {
    b.(tried := b.tried[slot := id], info := b.info[id := b.info[id].(inTried := true)],
       nTried := b.nTried + 1, counts := AddTrieds(b.counts, b.info[id].network, 1))
  }

  lemma MovedToTriedInv(h: Hashes, b: Book, limbo: set<nat>, pending: set<nat>, slot: Slot, id: nat)
    requires Inv(h, b, limbo, pending) && id in b.info && id in limbo && id !in pending
    requires slot == h.TriedSlot(b.info[id].addr) && slot !in b.tried && b.info[id].lastSuccess > 0
    ensures Inv(h, MovedToTried(b, slot, id), limbo - {id}, pending)
  {
    hide IdsOk, AddrsOk, RandomOk, TriedOk, NewOk, CountsOk, PlacedOk, TimesOk;
    NoRefs(h, b, limbo, pending, id);
    var e := b.info[id].(inTried := true);
    IdsSame(b.info, b.idCount, id, e);
    AddrsSame(b.info, b.addrs, id, e);
    RandomSame(b.info, b.random, id, e);
    TimesSame(b.info, id, e);
    EnterTried(h, b.info, b.tried, b.newTable, slot, id);
    CountsEnterTried(b.info, limbo, b.nNew, b.nTried, b.counts, id);
    assert limbo - {id} + pending == (limbo + pending) - {id};
    PlacedChange(b.info, limbo + pending, id, e, limbo - {id} + pending);
  }

  lemma EnterTried(h: Hashes, info: Infos, tried: Table, newTable: Table, slot: Slot, id: nat)
    requires TriedOk(h, info, tried) && NewOk(h, info, newTable) && id in info && !info[id].inTried
             && info[id].refCount == 0
    requires slot == h.TriedSlot(info[id].addr) && slot !in tried && info[id].lastSuccess > 0
    ensures var info' := info[id := info[id].(inTried := true)];
            TriedOk(h, info', tried[slot := id]) && NewOk(h, info', newTable)
  {
    hide Hashes.TriedSlot, Hashes.NewSlot;
    assert SlotsOf(newTable, id) == {};
    forall s | s in newTable ensures newTable[s] != id {
      assert s !in SlotsOf(newTable, id);
    }
    hide SlotsOf;
  }

  lemma CountsEnterTried(info: Infos, limbo: set<nat>, nNew: int, nTried: int, counts: map<nat, Counts>, id: nat)
    requires CountsOk(info, limbo, nNew, nTried, counts) && id in info && !info[id].inTried && id in limbo
    ensures CountsOk(info[id := info[id].(inTried := true)], limbo - {id}, nNew, nTried + 1,
                     AddTrieds(counts, info[id].network, 1))
  {
    hide Tally, NewsOf, TriedsOf, AddNews, AddTrieds;
    var info', counts' := info[id := info[id].(inTried := true)], AddTrieds(counts, info[id].network, 1);
    AddedTrieds(counts, info[id].network, 1);
    assert News(info', limbo - {id}) == News(info, limbo);
    assert Trieds(info') == Trieds(info) + {id};
    assert id !in Trieds(info);
    NewsWithin(info, limbo);
    hide News, Trieds;
    TallySame(info, info', News(info, limbo), nNew, NewsOf(counts), NewsOf(counts'));
    TallyAdd(info, info', Trieds(info), id, nTried, TriedsOf(counts), TriedsOf(counts'));
  }

  // ---- Larger steps

  predicate CanClear(b: Book, slot: Slot) {
    slot in b.newTable ==> InPlace(b, b.newTable[slot])
  }

  /** Clear a slot of the new table, deleting the entry if that was its last one. */
  function Cleared(b: Book, slot: Slot): Book
    requires CanClear(b, slot)
  {
    if slot !in b.newTable then b
    else
      var id, b1 := b.newTable[slot], SlotCleared(b, slot);
      if b1.info[id].refCount == 0 then Deleted(b1, id) else b1
  }

  /** What does not change when the entry `id` loses a slot, or is deleted. */
  ghost predicate KeepsOthers(b: Book, b': Book, id: nat) {
    && b'.idCount == b.idCount && b'.tried == b.tried
    && (forall j | j in b'.info :: j in b.info && b'.info[j].addr == b.info[j].addr)
    && (forall j | j in b.info && j != id ::
        j in b'.info && b'.info[j] == b.info[j].(randomPos := b'.info[j].randomPos))
  }

  lemma ClearedInv(h: Hashes, b: Book, limbo: set<nat>, pending: set<nat>, slot: Slot)
    requires Inv(h, b, limbo, pending)
    ensures CanClear(b, slot) && Inv(h, Cleared(b, slot), limbo, pending)
    ensures Cleared(b, slot).newTable == b.newTable - {slot}
    ensures slot in b.newTable ==>
            b.newTable[slot] in b.info && b.newTable[slot] !in limbo + pending && b.info[b.newTable[slot]].refCount > 0
    ensures slot in b.newTable ==> KeepsOthers(b, Cleared(b, slot), b.newTable[slot])
  {
    hide Inv, Deleted;
    if slot in b.newTable {
      var id := b.newTable[slot];
      SlotClearedInv(h, b, limbo, pending, slot);
      var b1 := SlotCleared(b, slot);
      PlaceOf(h, b, limbo, pending, id);
      if b1.info[id].refCount == 0 {
        DeletedInv(h, b1, limbo, pending + {id}, id);
        assert pending + {id} - {id} == pending;
        DeletedFields(b1, id);
      }
    } else {
      assert b.newTable - {slot} == b.newTable;
    }
  }

  lemma PlaceOf(h: Hashes, b: Book, limbo: set<nat>, pending: set<nat>, id: nat)
    requires Inv(h, b, limbo, pending) && id in b.info
    ensures InPlace(b, id)
  {
    RandomAt(b.info, b.random, id);
  }

  lemma DeletedFields(b: Book, id: nat)
    requires InPlace(b, id)
    ensures Deleted(b, id).newTable == b.newTable && Deleted(b, id).tried == b.tried
            && Deleted(b, id).idCount == b.idCount
  {
  }

  predicate CanDisplace(h: Hashes, b: Book, slot: Slot) {
    slot in b.tried && b.tried[slot] in b.info && CanClear(Evicted(b, slot), BackSlot(h, b.info[b.tried[slot]])) &&
    b.tried[slot] in Cleared(Evicted(b, slot), BackSlot(h, b.info[b.tried[slot]])).info
  }

  /** The slot of the new table an entry goes back to. */
  function BackSlot(h: Hashes, e: AddrInfo): Slot {
    h.NewSlot(e.addr, h.NewBucket(e.addr, e.source))
  }

  /** Move the entry in a tried slot back to the new table. */
  function Displaced(h: Hashes, b: Book, slot: Slot): Book
    requires CanDisplace(h, b, slot)
  {
    var id := b.tried[slot];
    var back := BackSlot(h, b.info[id]);
    SlotAdded(Counted(Cleared(Evicted(b, slot), back), id), back, id)
  }

  lemma DisplacedInv(h: Hashes, b: Book, id: nat, slot: Slot)
    requires Inv(h, b, {id}, {}) && slot in b.tried
    ensures CanDisplace(h, b, slot) && Inv(h, Displaced(h, b, slot), {id}, {})
    ensures var b' := Displaced(h, b, slot);
            && b'.tried == b.tried - {slot} && b'.idCount == b.idCount
            && id in b'.info && id in b.info && b'.info[id] == b.info[id].(randomPos := b'.info[id].randomPos)
            && (forall j | j in b'.info :: j in b.info && b'.info[j].addr == b.info[j].addr)
            && b.tried[slot] in b.info && b.info[b.tried[slot]].refCount == 0
  {
    hide Inv, Cleared, BackSlot, CanClear;
    EvictedInv(h, b, {id}, {}, slot);
    var evict := b.tried[slot];
    LimboIn(h, b, {id}, {});
    assert id != evict && {id} + {evict} == {id, evict};
    NoRefs(h, b, {id}, {}, evict);
    var b1, back := Evicted(b, slot), BackSlot(h, b.info[evict]);
    ClearedInv(h, b1, {id, evict}, {}, back);
    var b2 := Cleared(b1, back);
    ClearedKeeps(h, b1, {id, evict}, back, id);
    ClearedKeeps(h, b1, {id, evict}, back, evict);
    BackIn(h, b, {id, evict}, id, evict, b2, back);
  }

  lemma LimboIn(h: Hashes, b: Book, limbo: set<nat>, pending: set<nat>)
    requires Inv(h, b, limbo, pending)
    ensures limbo <= b.info.Keys
  {
  }

  /** Back into the new table. */
  lemma BackIn(h: Hashes, b: Book, limbo: set<nat>, id: nat, evict: nat, b2: Book, back: Slot)
    requires limbo == {id, evict} && id != evict && Inv(h, b2, limbo, {}) && evict in b2.info && id in b2.info
             && back !in b2.newTable
    requires evict in b.info && back == BackSlot(h, b.info[evict]) && b2.info[evict].addr == b.info[evict].addr
    ensures Inv(h, SlotAdded(Counted(b2, evict), back, evict), {id}, {})
    ensures SlotAdded(Counted(b2, evict), back, evict).tried == b2.tried
    ensures SlotAdded(Counted(b2, evict), back, evict).idCount == b2.idCount
    ensures SlotAdded(Counted(b2, evict), back, evict).info ==
            b2.info[evict := b2.info[evict].(refCount := b2.info[evict].refCount + 1)]
  {
    hide Inv;
    NoRefs(h, b2, limbo, {}, evict);
    CountedInv(h, b2, limbo, {}, evict);
    assert {id, evict} - {evict} == {id} && {} + {evict} == {evict} && {evict} - {evict} == {};
    SlotAddedInv(h, Counted(b2, evict), {id}, {evict}, back, evict);
  }

  lemma ClearedKeeps(h: Hashes, b: Book, limbo: set<nat>, slot: Slot, id: nat)
    requires Inv(h, b, limbo, {}) && id in limbo
    ensures CanClear(b, slot) && id in b.info && id in Cleared(b, slot).info
    ensures Cleared(b, slot).info[id] == b.info[id].(randomPos := Cleared(b, slot).info[id].randomPos)
    ensures forall j | j in Cleared(b, slot).info :: j in b.info && Cleared(b, slot).info[j].addr == b.info[j].addr
    ensures Cleared(b, slot).tried == b.tried && Cleared(b, slot).idCount == b.idCount
  {
    ClearedInv(h, b, limbo, {}, slot);
    assert limbo <= b.info.Keys;
    hide Inv;
  }

  /** Ids are given out once, an entry keeps its address, and an occupied tried slot stays occupied. */
  ghost predicate Evolves(b: Book, b': Book) {
    && b.idCount <= b'.idCount && b.tried.Keys <= b'.tried.Keys
    && forall id | id in b'.info :: (id in b.info && b'.info[id].addr == b.info[id].addr) || id >= b.idCount
  }

  lemma EvolvesOn(b: Book, b': Book, b'': Book)
    requires Evolves(b, b') && Evolves(b', b'')
    ensures Evolves(b, b'')
  {
  }

  predicate CanPromote(h: Hashes, b: Book, id: nat) {
    && id in b.info
    && var slot := h.TriedSlot(b.info[id].addr);
       slot in b.tried ==> CanDisplace(h, Uncounted(b, id), slot) && id in Displaced(h, Uncounted(b, id), slot).info
  }

  /** Move an entry that is in no slot of the new table to the tried table. */
  function Promoted(h: Hashes, b: Book, id: nat): Book
    requires CanPromote(h, b, id)
  {
    var slot, b1 := h.TriedSlot(b.info[id].addr), Uncounted(b, id);
    MovedToTried(if slot in b.tried then Displaced(h, b1, slot) else b1, slot, id)
  }

  lemma PromotedInv(h: Hashes, b: Book, id: nat)
    requires Inv(h, b, {}, {id}) && id in b.info && b.info[id].lastSuccess > 0
    ensures CanPromote(h, b, id) && Inv(h, Promoted(h, b, id), {}, {}) && Evolves(b, Promoted(h, b, id))
    ensures id in Promoted(h, b, id).info && Promoted(h, b, id).info[id].inTried
  {
    hide Inv, Displaced, CanDisplace, Hashes.TriedSlot;
    var slot, b1 := h.TriedSlot(b.info[id].addr), Uncounted(b, id);
    UncountedInv(h, b, {}, {id}, id);
    assert {} + {id} == {id} && {id} - {id} == {};
    var b2 := b1;
    if slot in b.tried {
      DisplacedInv(h, b1, id, slot);
      b2 := Displaced(h, b1, slot);
    }
    MovedToTriedInv(h, b2, {id}, {}, slot, id);
  }

  // ---- The consistency check

  /** What the consistency check of the program asks for, by the codes of its failures. */
  ghost predicate Consistent(h: Hashes, b: Book) {
    && |b.random| == b.nTried + b.nNew                                                              // -7
    && (forall id | id in b.info ::
          var e := b.info[id];
          && (e.inTried ==> e.lastSuccess != 0 && e.refCount == 0)                                  // -1, -2
          && (!e.inTried ==> 1 <= e.refCount <= NEW_BUCKETS_PER_ADDRESS)                            // -3, -4
          && e.addr in b.addrs && b.addrs[e.addr] == id                                             // -5
          && 0 <= e.randomPos < |b.random| && b.random[e.randomPos] == id                           // -14
          && e.lastTry >= 0 && e.lastSuccess >= 0)                                                  // -6, -8
    && |Trieds(b.info)| == b.nTried && |News(b.info, {})| == b.nNew                                 // -9, -10
    && (forall slot | slot in b.tried ::
        b.tried[slot] in Trieds(b.info) && slot == h.TriedSlot(b.info[b.tried[slot]].addr))  // -11, -17, -18
    && (forall slot | slot in b.newTable ::
          b.newTable[slot] in News(b.info, {})
          && slot.pos == h.BucketPosition(true, slot.bucket, b.info[b.newTable[slot]].addr))  // -12, -19
    && (forall id | id in Trieds(b.info) :: |SlotsOf(b.tried, id)| == 1)                            // -11, -13
    && (forall id | id in News(b.info, {}) :: |SlotsOf(b.newTable, id)| == b.info[id].refCount)     // -12, -15
    && (forall network: nat ::
          && CountsOf(b.counts, network).news == |OfNetwork(b.info, News(b.info, {}), network)|
          && CountsOf(b.counts, network).trieds == |OfNetwork(b.info, Trieds(b.info), network)|)    // -20, -21
  }

  /** With nothing in limbo or pending, the invariant gives all of it. */
  lemma InvIsConsistent(h: Hashes, b: Book)
    requires Inv(h, b, {}, {})
    ensures Consistent(h, b)
  {
    NoneLost(b.info);
    forall id | id in Trieds(b.info) ensures |SlotsOf(b.tried, id)| == 1 {
      OneTriedSlot(h, b.info, b.tried, id);
    }
    forall id | id in b.info ensures !b.info[id].inTried ==> b.info[id].refCount >= 1 {
      NoRefs(h, b, {}, {}, id);
    }
    forall network: nat
      ensures CountsOf(b.counts, network).news == |OfNetwork(b.info, News(b.info, {}), network)|
      ensures CountsOf(b.counts, network).trieds == |OfNetwork(b.info, Trieds(b.info), network)|
    {
      assert NewsOf(b.counts)(network) == CountsOf(b.counts, network).news;
      assert TriedsOf(b.counts)(network) == CountsOf(b.counts, network).trieds;
    }
  }

  lemma NoneLost(info: Infos)
    ensures |info| == |News(info, {})| + |Trieds(info)|
  {
    assert info.Keys == News(info, {}) + Trieds(info);
    assert News(info, {}) !! Trieds(info);
    assert |info| == |info.Keys|;
  }

  lemma OneTriedSlot(h: Hashes, info: Infos, tried: Table, id: nat)
    requires TriedOk(h, info, tried) && id in info && info[id].inTried
    ensures |SlotsOf(tried, id)| == 1
  {
    var slot := h.TriedSlot(info[id].addr);
    hide Hashes.TriedSlot;
    assert SlotsOf(tried, id) == {slot};
  }
}
