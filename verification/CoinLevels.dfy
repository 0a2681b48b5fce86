/** One level of a stack of coin caches as a value: what its entries and flags mean relative to
    the coins visible below it. */
module CoinLevels {
  import opened Coins

  /** The flags are valid for a cache above `below`: a spent entry is dirty and not fresh, a fresh
      one is dirty, the parent has no coin where an entry is fresh, and has the same coin where it
      is not dirty. A spent coin has no script left. */
  ghost predicate EntryOk(e: Plain, below: map<OutPoint, Coin>, k: OutPoint) {
    && (e.coin.IsSpent() ==> e.isDirty && !e.isFresh && e.coin.scriptUsage == 0)
    && (e.isFresh ==> e.isDirty && k !in below)
    && (!e.isDirty ==> k in below && below[k] == e.coin)
  }

  ghost predicate Sane(p: map<OutPoint, Plain>, below: map<OutPoint, Coin>) {
    forall k | k in p :: EntryOk(p[k], below, k)
  }

  /** All coins of the map are unspent. */
  ghost predicate Unspent(v: map<OutPoint, Coin>) {
    forall k | k in v :: !v[k].IsSpent()
  }

  /** The coins visible through the cache. */
  ghost function Show(p: map<OutPoint, Plain>, below: map<OutPoint, Coin>): map<OutPoint, Coin> {
    map k | k in p.Keys + below.Keys && (k in p ==> !p[k].coin.IsSpent()) :: if k in p then p[k].coin else below[k]
  }

  lemma ShowUnspent(p: map<OutPoint, Plain>, below: map<OutPoint, Coin>)
    requires Unspent(below)
    ensures Unspent(Show(p, below))
  {
  }

  lemma ShownAt(p: map<OutPoint, Plain>, below: map<OutPoint, Coin>, k: OutPoint)
    ensures k in Show(p, below) <==> if k in p then !p[k].coin.IsSpent() else k in below
  {
  }

  lemma SetEntry(p: map<OutPoint, Plain>, below: map<OutPoint, Coin>, k: OutPoint, e: Plain)
    requires Sane(p, below)
    ensures EntryOk(e, below, k) ==> Sane(p[k := e], below)
    ensures Show(p[k := e], below) == if e.coin.IsSpent() then Show(p, below) - {k} else Show(p, below)[k := e.coin]
  {
  }

  lemma DropEntry(p: map<OutPoint, Plain>, below: map<OutPoint, Coin>, k: OutPoint)
    requires Sane(p, below) && k in p
    ensures Sane(p - {k}, below)
    ensures Show(p - {k}, below) == if k in below then Show(p, below)[k := below[k]] else Show(p, below) - {k}
  {
  }

  lemma FetchShows(p: map<OutPoint, Plain>, below: map<OutPoint, Coin>, k: OutPoint)
    requires Sane(p, below) && Unspent(below) && k !in p && k in below
    ensures Sane(p[k := Plain(below[k], false, false)], below)
    ensures Show(p[k := Plain(below[k], false, false)], below) == Show(p, below)
  {
  }

  /** The entry `AddCoin` starts from. */
  ghost function EntryAt(p: map<OutPoint, Plain>, k: OutPoint): Plain {
    if k in p then p[k] else Plain(NO_COIN, false, false)
  }

  /** Adding a coin: fresh only if it may be, given that nothing below is to be overwritten. */
  ghost function Added(p: map<OutPoint, Plain>, k: OutPoint, coin: Coin, overwrite: bool): map<OutPoint, Plain> {
    var e := EntryAt(p, k);
    p[k := Plain(coin, true, e.isFresh || (!overwrite && !e.isDirty))]
  }

  lemma AddShows(p: map<OutPoint, Plain>, below: map<OutPoint, Coin>, k: OutPoint, coin: Coin, overwrite: bool)
    requires Sane(p, below) && !coin.IsSpent()
    requires !overwrite ==> EntryAt(p, k).coin.IsSpent() && (k !in p ==> k !in below)
    ensures Sane(Added(p, k, coin, overwrite), below)
    ensures Show(Added(p, k, coin, overwrite), below) == Show(p, below)[k := coin]
  {
    hide Show;
    var e := EntryAt(p, k);
    assert k in p ==> EntryOk(p[k], below, k);
    SetEntry(p, below, k, Plain(coin, true, e.isFresh || (!overwrite && !e.isDirty)));
  }

  ghost function Spent(p: map<OutPoint, Plain>, k: OutPoint): map<OutPoint, Plain> {
    if k in p && p[k].isFresh then p - {k} else p[k := Plain(NO_COIN, true, false)]
  }

  /** It makes no difference that the coin was fetched first. */
  lemma SpentAfterFetch(m: CoinsMap, k: OutPoint, coin: Coin)
    ensures Spent(Contents(m.Emplace(k, coin)), k) == Spent(Contents(m), k)
  {
    var m' := m.Emplace(k, coin);
    if k !in m.entries {
      assert Contents(m')[k := Plain(NO_COIN, true, false)] == Contents(m)[k := Plain(NO_COIN, true, false)];
    }
  }

  /** A coin that is added and spent before anything is written leaves no trace. */
  lemma AddedAndSpent(p: map<OutPoint, Plain>, k: OutPoint, coin: Coin)
    requires k !in p
    ensures Spent(Added(p, k, coin, false), k) == p
  {
  }

  lemma SpendShows(p: map<OutPoint, Plain>, below: map<OutPoint, Coin>, k: OutPoint)
    requires Sane(p, below) && k in p
    ensures Sane(Spent(p, k), below) && Show(Spent(p, k), below) == Show(p, below) - {k}
  {
    hide Show;
    assert EntryOk(p[k], below, k);
    DropEntry(p, below, k);
    SetEntry(p, below, k, Plain(NO_COIN, true, false));
  }

  lemma UncacheShows(p: map<OutPoint, Plain>, below: map<OutPoint, Coin>, k: OutPoint)
    requires Sane(p, below) && k in p && !p[k].isDirty
    ensures Sane(p - {k}, below) && Show(p - {k}, below) == Show(p, below)
  {
    assert EntryOk(p[k], below, k);
  }

  // ---- Writing one level into the next

  /** What the dirty entry `e` of the child makes of the entry of the parent. */
  ghost function Merged(p: map<OutPoint, Plain>, k: OutPoint, e: Plain): map<OutPoint, Plain> {
    if k !in p then
      if e.isFresh && e.coin.IsSpent() then p else p[k := Plain(e.coin, true, e.isFresh)]
    else if p[k].isFresh && e.coin.IsSpent() then p - {k}
    else p[k := Plain(e.coin, true, p[k].isFresh)]
  }

  /** The first `i` of the flagged entries of the child, written one after the other. */
  ghost function MergedFirsts(p: map<OutPoint, Plain>, child: map<OutPoint, Plain>, flagged: seq<OutPoint>, i: nat):
      map<OutPoint, Plain>
    requires i <= |flagged|
  {
    if i == 0 then p
    else
      var k := flagged[i - 1];
      var q := MergedFirsts(p, child, flagged, i - 1);
      if k in child && child[k].isDirty then Merged(q, k, child[k]) else q
  }

  lemma MergedNext(p: map<OutPoint, Plain>, child: map<OutPoint, Plain>, flagged: seq<OutPoint>, i: nat)
    requires i < |flagged| && flagged[i] in child && child[flagged[i]].isDirty
    ensures MergedFirsts(p, child, flagged, i + 1) ==
            Merged(MergedFirsts(p, child, flagged, i), flagged[i], child[flagged[i]])
    ensures MergedFirsts(p, child, flagged, 0) == p
  {
  }

  /** The visible coins with `k` set to what the entry says. */
  ghost function Apply(v: map<OutPoint, Coin>, k: OutPoint, e: Plain): map<OutPoint, Coin> {
    if e.coin.IsSpent() then v - {k} else v[k := e.coin]
  }

  /** Writing a valid dirty entry of the child changes what the parent shows to what the entry
      says, keeps the parent valid, and never meets an unspent coin under a fresh one. */
  lemma MergeShows(p: map<OutPoint, Plain>, below: map<OutPoint, Coin>, k: OutPoint, e: Plain)
    requires Sane(p, below) && EntryOk(e, Show(p, below), k) && e.isDirty
    ensures e.isFresh && k in p ==> p[k].coin.IsSpent()
    ensures Sane(Merged(p, k, e), below) && Show(Merged(p, k, e), below) == Apply(Show(p, below), k, e)
  {
    hide Show;
    assert k in p ==> EntryOk(p[k], below, k);
    ShownAt(p, below, k);
    SetEntry(p, below, k, Plain(e.coin, true, if k in p then p[k].isFresh else e.isFresh));
    if k in p && p[k].isFresh { DropEntry(p, below, k); }
  }

  /** Above `below`, with the dirty entries of `done` written to it. */
  ghost function Applied(v: map<OutPoint, Coin>, p: map<OutPoint, Plain>, done: set<OutPoint>): map<OutPoint, Coin> {
    map k | k in v.Keys + p.Keys && (if k in done && k in p then !p[k].coin.IsSpent() else k in v) ::
      if k in done && k in p then p[k].coin else v[k]
  }

  lemma AppliedNone(v: map<OutPoint, Coin>, p: map<OutPoint, Plain>)
    ensures Applied(v, p, {}) == v
  {
  }

  lemma AppliedMore(v: map<OutPoint, Coin>, p: map<OutPoint, Plain>, done: set<OutPoint>, k: OutPoint)
    requires k in p && k !in done
    ensures Applied(v, p, done + {k}) == Apply(Applied(v, p, done), k, p[k])
    ensures EntryOk(p[k], v, k) ==> EntryOk(p[k], Applied(v, p, done), k)
  {
  }

  /** When all dirty entries are written, the parent shows what the child showed. */
  lemma AppliedAll(v: map<OutPoint, Coin>, p: map<OutPoint, Plain>, done: set<OutPoint>)
    requires Sane(p, v) && forall k | k in p :: k in done <==> p[k].isDirty
    ensures Applied(v, p, done) == Show(p, v)
  {
    forall k | k in p ensures EntryOk(p[k], v, k) {}
  }

  /** What is left in the child after syncing: the unspent coins, unflagged. */
  ghost function Synced(p: map<OutPoint, Plain>): map<OutPoint, Plain> {
    map k | k in p && !p[k].coin.IsSpent() :: Plain(p[k].coin, false, false)
  }

  lemma SyncedSane(p: map<OutPoint, Plain>, v: map<OutPoint, Coin>)
    ensures Sane(Synced(p), Show(p, v)) && Show(Synced(p), Show(p, v)) == Show(p, v)
  {
  }

  // ---- Memory usage

  ghost function Any(s: set<OutPoint>): (k: OutPoint)
    requires s != {}
    ensures k in s
  {
    var k :| k in s;
    k
  }

  /** The script memory of all entries. */
  ghost function Usage(p: map<OutPoint, Plain>): nat {
    if p == map[] then 0 else
      assert p.Keys != {};
      var k := Any(p.Keys);
      p[k].coin.scriptUsage + Usage(p - {k})
  }

  lemma {:induction false} UsageRemove(p: map<OutPoint, Plain>, k: OutPoint)
    requires k in p
    ensures Usage(p) == p[k].coin.scriptUsage + Usage(p - {k})
    decreases |p|
  {
    assert p != map[];
    var j := Any(p.Keys);
    if j != k {
      assert p - {j} - {k} == p - {k} - {j};
      assert p - {k} != map[] by { assert j in p - {k}; }
      UsageRemove(p - {j}, k);
      UsageRemove(p - {k}, j);
    }
  }

  lemma UsageUpdate(p: map<OutPoint, Plain>, k: OutPoint, e: Plain)
    ensures Usage(p[k := e]) == Usage(p) - EntryAt(p, k).coin.scriptUsage + e.coin.scriptUsage
    ensures Usage(p) >= EntryAt(p, k).coin.scriptUsage
  {
    hide Usage;
    UsageRemove(p[k := e], k);
    if k in p {
      UsageRemove(p, k);
      assert p[k := e] - {k} == p - {k};
    } else {
      assert p[k := e] - {k} == p;
    }
  }

  // ---- A whole level

  /** The list holds exactly the flagged entries, the flags are valid, and both counters are exact. */
  ghost predicate LevelOk(m: CoinsMap, order: seq<OutPoint>, usage: nat, dirtyCount: nat, below: map<OutPoint, Coin>) {
    && Listed(m, order) && Sane(Contents(m), below) && Unspent(below)
    && usage == Usage(Contents(m)) && dirtyCount == |order|
  }

  lemma LevelEmpty(below: map<OutPoint, Coin>)
    requires Unspent(below)
    ensures LevelOk(EMPTY_MAP, [], 0, 0, below) && Show(Contents(EMPTY_MAP), below) == below
  {
    assert Contents(EMPTY_MAP) == map[];
  }

  /** Being flagged is being dirty. */
  lemma FlaggedIsDirty(m: CoinsMap, order: seq<OutPoint>, below: map<OutPoint, Coin>, k: OutPoint)
    requires Listed(m, order) && Sane(Contents(m), below) && k in m.entries
    ensures k in order <==> m.entries[k].isDirty
    ensures EntryOk(Plain(m.entries[k].coin, m.entries[k].isDirty, m.entries[k].isFresh), below, k)
  {
    assert EntryOk(Contents(m)[k], below, k);
  }

  lemma FetchLevel(m: CoinsMap, order: seq<OutPoint>, usage: nat, dirtyCount: nat, below: map<OutPoint, Coin>,
                   k: OutPoint)
    requires LevelOk(m, order, usage, dirtyCount, below) && k !in m.entries && k in below
    ensures LevelOk(m.Emplace(k, below[k]), order, usage + below[k].scriptUsage, dirtyCount, below)
    ensures Show(Contents(m.Emplace(k, below[k])), below) == Show(Contents(m), below)
  {
    hide Listed, Usage, Sane, Contents, CoinsMap.Emplace;
    EmplaceListed(m, order, k, below[k]);
    ContentsKeys(m);
    FetchShows(Contents(m), below, k);
    UsageUpdate(Contents(m), k, Plain(below[k], false, false));
  }

  lemma ContentsKeys(m: CoinsMap)
    ensures Contents(m).Keys == m.entries.Keys
    ensures forall k | k in m.entries ::
            Contents(m)[k] == Plain(m.entries[k].coin, m.entries[k].isDirty, m.entries[k].isFresh)
  {
  }

  /** What `AddCoin` does to the map once the entry is there. */
  function AddedMap(m: CoinsMap, k: OutPoint, coin: Coin, isFresh: bool): CoinsMap
    requires k in m.entries
  {
    var flagged := m.SetCoin(k, coin).AddFlags(k, true, false);
    if isFresh then flagged.AddFlags(k, false, true) else flagged
  }

  lemma AddedListed(m: CoinsMap, order: seq<OutPoint>, k: OutPoint, coin: Coin, isFresh: bool)
    requires Listed(m, order) && k in m.entries
    ensures Listed(AddedMap(m, k, coin, isFresh), if k in order then order else order + [k])
    ensures Contents(AddedMap(m, k, coin, isFresh)) ==
            Contents(m)[k := Plain(coin, true, m.entries[k].isFresh || isFresh)]
  {
    hide Listed, Contents;
    var m1 := m.SetCoin(k, coin);
    SetCoinListed(m, order, k, coin);
    FlagsListed(m1, order, k, true, false);
    var order' := if k in order then order else order + [k];
    var m2 := m1.AddFlags(k, true, false);
    ContentsKeys(m2);
    if isFresh {
      FlagsListed(m2, order', k, false, true);
    }
  }

  lemma AddLevel(m: CoinsMap, order: seq<OutPoint>, usage: nat, dirtyCount: nat, below: map<OutPoint, Coin>,
                 k: OutPoint, coin: Coin, overwrite: bool)
    requires LevelOk(m, order, usage, dirtyCount, below) && !coin.IsSpent()
    requires !overwrite ==> EntryAt(Contents(m), k).coin.IsSpent() && (k !in m.entries ==> k !in below)
    ensures var e := EntryAt(Contents(m), k);
            var m' := AddedMap(m.Emplace(k, NO_COIN), k, coin, !overwrite && !e.isDirty);
            && (e.isDirty ==> dirtyCount > 0) && usage >= e.coin.scriptUsage
            && LevelOk(m', if k in order then order else order + [k], usage - e.coin.scriptUsage + coin.scriptUsage,
                       dirtyCount - (if e.isDirty then 1 else 0) + 1, below)
            && Show(Contents(m'), below) == Show(Contents(m), below)[k := coin]
            && Contents(m') == Added(Contents(m), k, coin, overwrite)
  {
    hide Listed, Usage, Sane, Contents, AddedMap, Show;
    ContentsKeys(m);
    var e := EntryAt(Contents(m), k);
    var m1 := m.Emplace(k, NO_COIN);
    if k !in m.entries { EmplaceListed(m, order, k, NO_COIN); }
    ContentsKeys(m1);
    AddedListed(m1, order, k, coin, !overwrite && !e.isDirty);
    AddShows(Contents(m), below, k, coin, overwrite);
    UsageUpdate(Contents(m), k, Plain(coin, true, e.isFresh || (!overwrite && !e.isDirty)));
    InOrder(m, order, below, k);
    assert Contents(AddedMap(m1, k, coin, !overwrite && !e.isDirty)) == Added(Contents(m), k, coin, overwrite);
  }

  /** Membership in the list, whether or not there is an entry. */
  lemma InOrder(m: CoinsMap, order: seq<OutPoint>, below: map<OutPoint, Coin>, k: OutPoint)
    requires Listed(m, order) && Sane(Contents(m), below)
    ensures k in order <==> EntryAt(Contents(m), k).isDirty
    ensures k in order ==> |order| > 0
  {
    if k in m.entries {
      FlaggedIsDirty(m, order, below, k);
    }
  }

  /** What `SpendCoin` does to the map. */
  function SpentMap(m: CoinsMap, k: OutPoint): CoinsMap
    requires k in m.entries
  {
    if m.entries[k].isFresh then m.Erase(k)
    else
      var flagged := m.AddFlags(k, true, false);
      flagged.SetCoin(k, NO_COIN)
  }

  lemma SpendLevel(m: CoinsMap, order: seq<OutPoint>, usage: nat, dirtyCount: nat, below: map<OutPoint, Coin>,
                   k: OutPoint)
    returns (order': seq<OutPoint>)
    requires LevelOk(m, order, usage, dirtyCount, below) && k in m.entries
    ensures var e := m.entries[k];
            && (e.isDirty ==> dirtyCount > 0) && usage >= e.coin.scriptUsage
            && LevelOk(SpentMap(m, k), order', usage - e.coin.scriptUsage,
                       dirtyCount - (if e.isDirty then 1 else 0) + (if e.isFresh then 0 else 1), below)
            && Show(Contents(SpentMap(m, k)), below) == Show(Contents(m), below) - {k}
            && Contents(SpentMap(m, k)) == Spent(Contents(m), k)
  {
    hide Listed, Usage, Sane, Contents, Show, CoinsMap.Erase, CoinsMap.SetClean;
    var e := m.entries[k];
    ContentsKeys(m);
    FlaggedIsDirty(m, order, below, k);
    SpendShows(Contents(m), below, k);
    UsageUpdate(Contents(m), k, Plain(NO_COIN, true, false));
    if e.isFresh {
      order' := EraseListed(m, order, k);
      UsageRemove(Contents(m), k);
    } else {
      FlagsListed(m, order, k, true, false);
      var m1 := m.AddFlags(k, true, false);
      order' := if k in order then order else order + [k];
      ContentsKeys(m1);
      SetCoinListed(m1, order', k, NO_COIN);
    }
    assert Contents(SpentMap(m, k)) == Spent(Contents(m), k);
  }

  lemma UncacheLevel(m: CoinsMap, order: seq<OutPoint>, usage: nat, dirtyCount: nat, below: map<OutPoint, Coin>,
                     k: OutPoint)
    returns (order': seq<OutPoint>)
    requires LevelOk(m, order, usage, dirtyCount, below) && k in m.entries && !m.entries[k].isDirty
    ensures usage >= m.entries[k].coin.scriptUsage
    ensures LevelOk(m.Erase(k), order', usage - m.entries[k].coin.scriptUsage, dirtyCount, below)
    ensures Show(Contents(m.Erase(k)), below) == Show(Contents(m), below) && Contents(m.Erase(k)) == Contents(m) - {k}
  {
    hide Listed, Usage, Sane, Contents, Show, CoinsMap.Erase, CoinsMap.SetClean;
    ContentsKeys(m);
    FlaggedIsDirty(m, order, below, k);
    UncacheShows(Contents(m), below, k);
    UsageRemove(Contents(m), k);
    order' := EraseListed(m, order, k);
  }

  /** What a dirty entry of the child does to the parent's map. */
  function MergedMap(m: CoinsMap, k: OutPoint, coin: Coin, isFresh: bool): CoinsMap {
    if k !in m.entries then
      if isFresh && coin.IsSpent() then m else AddedMap(m.Emplace(k, NO_COIN), k, coin, isFresh)
    else if m.entries[k].isFresh && coin.IsSpent() then m.Erase(k)
    else
      var moved := m.SetCoin(k, coin);
      if m.entries[k].isDirty then moved else moved.AddFlags(k, true, false)
  }

  /** The changes of the counters that go with it. */
  function MergedUsage(m: CoinsMap, usage: nat, k: OutPoint, coin: Coin, isFresh: bool): int {
    if k !in m.entries then
      if isFresh && coin.IsSpent() then usage else usage + coin.scriptUsage
    else if m.entries[k].isFresh && coin.IsSpent() then usage - m.entries[k].coin.scriptUsage
    else usage - m.entries[k].coin.scriptUsage + coin.scriptUsage
  }

  function MergedCount(m: CoinsMap, dirtyCount: nat, k: OutPoint, coin: Coin, isFresh: bool): int {
    if k !in m.entries then
      if isFresh && coin.IsSpent() then dirtyCount else dirtyCount + 1
    else if m.entries[k].isFresh && coin.IsSpent() then dirtyCount - (if m.entries[k].isDirty then 1 else 0)
    else if m.entries[k].isDirty then dirtyCount else dirtyCount + 1
  }

  lemma MergedListed(m: CoinsMap, order: seq<OutPoint>, k: OutPoint, coin: Coin, isFresh: bool)
    returns (order': seq<OutPoint>)
    requires Listed(m, order)
    ensures Listed(MergedMap(m, k, coin, isFresh), order')
    ensures Contents(MergedMap(m, k, coin, isFresh)) == Merged(Contents(m), k, Plain(coin, true, isFresh))
    ensures if k !in m.entries then |order'| == |order| + (if isFresh && coin.IsSpent() then 0 else 1)
            else if m.entries[k].isFresh && coin.IsSpent() then |order'| == |order| - 1
            else |order'| == |order| + (if m.entries[k].Flagged() then 0 else 1)
  {
    hide Listed, Contents, CoinsMap.Erase, CoinsMap.SetClean, AddedMap, CoinsMap.AddFlags, CoinsMap.SetCoin,
         CoinsMap.Emplace;
    ContentsKeys(m);
    NotListed(m, order, k);
    order' := order;
    if k !in m.entries {
      if !(isFresh && coin.IsSpent()) {
        NewListed(m, order, k, coin, isFresh);
        order' := order + [k];
      }
    } else if m.entries[k].isFresh && coin.IsSpent() {
      order' := EraseListed(m, order, k);
    } else {
      ModifiedListed(m, order, k, coin);
      order' := if m.entries[k].isDirty || k in order then order else order + [k];
    }
  }

  lemma NewListed(m: CoinsMap, order: seq<OutPoint>, k: OutPoint, coin: Coin, isFresh: bool)
    requires Listed(m, order) && k !in m.entries
    ensures var m' := AddedMap(m.Emplace(k, NO_COIN), k, coin, isFresh);
            Listed(m', order + [k]) && Contents(m') == Contents(m)[k := Plain(coin, true, isFresh)]
  {
    hide Listed, Contents, AddedMap;
    EmplaceListed(m, order, k, NO_COIN);
    AddedListed(m.Emplace(k, NO_COIN), order, k, coin, isFresh);
  }

  lemma ModifiedListed(m: CoinsMap, order: seq<OutPoint>, k: OutPoint, coin: Coin)
    requires Listed(m, order) && k in m.entries
    ensures var m' := if m.entries[k].isDirty then m.SetCoin(k, coin) else m.SetCoin(k, coin).AddFlags(k, true, false);
            && Listed(m', if m.entries[k].isDirty || k in order then order else order + [k])
            && Contents(m') == Contents(m)[k := Plain(coin, true, m.entries[k].isFresh)]
  {
    hide Listed, Contents, CoinsMap.AddFlags;
    ContentsKeys(m);
    SetCoinListed(m, order, k, coin);
    if !m.entries[k].isDirty {
      FlagsListed(m.SetCoin(k, coin), order, k, true, false);
    }
  }

  lemma NotListed(m: CoinsMap, order: seq<OutPoint>, k: OutPoint)
    requires Listed(m, order)
    ensures k in order <==> k in m.entries && m.entries[k].Flagged()
  {
  }

  lemma MergeLevel(m: CoinsMap, order: seq<OutPoint>, usage: nat, dirtyCount: nat, below: map<OutPoint, Coin>,
                   k: OutPoint, e: Plain)
    returns (order': seq<OutPoint>)
    requires LevelOk(m, order, usage, dirtyCount, below) && EntryOk(e, Show(Contents(m), below), k) && e.isDirty
    ensures e.isFresh && k in m.entries ==> m.entries[k].coin.IsSpent()
    ensures k in m.entries ==> usage >= m.entries[k].coin.scriptUsage && (m.entries[k].isDirty ==> dirtyCount > 0)
    ensures MergedUsage(m, usage, k, e.coin, e.isFresh) >= 0 && MergedCount(m, dirtyCount, k, e.coin, e.isFresh) >= 0
    ensures LevelOk(MergedMap(m, k, e.coin, e.isFresh), order',
                    MergedUsage(m, usage, k, e.coin, e.isFresh), MergedCount(m, dirtyCount, k, e.coin, e.isFresh),
                    below)
    ensures Show(Contents(MergedMap(m, k, e.coin, e.isFresh)), below) == Apply(Show(Contents(m), below), k, e)
    ensures Contents(MergedMap(m, k, e.coin, e.isFresh)) == Merged(Contents(m), k, e)
  {
    hide Listed, Usage, Sane, Contents, Show, MergedMap, Apply;
    ContentsKeys(m);
    InOrder(m, order, below, k);
    if k in m.entries { FlaggedIsDirty(m, order, below, k); }
    MergeShows(Contents(m), below, k, e);
    order' := MergedListed(m, order, k, e.coin, e.isFresh);
    if k in m.entries { UsageRemove(Contents(m), k); }
    UsageUpdate(Contents(m), k, Plain(e.coin, true, if k in m.entries then m.entries[k].isFresh else e.isFresh));
  }

  // ---- Walking over the flagged entries

  /** The entries of `p`, those of `done` already synced. */
  ghost function PartSynced(p: map<OutPoint, Plain>, done: set<OutPoint>): map<OutPoint, Plain> {
    map k | k in p && !(k in done && p[k].coin.IsSpent()) :: if k in done then Plain(p[k].coin, false, false) else p[k]
  }

  ghost function Firsts(order: seq<OutPoint>, i: nat): set<OutPoint>
    requires i <= |order|
  {
    set k | k in order[..i]
  }

  lemma FirstsNext(order: seq<OutPoint>, i: nat)
    requires i < |order| && Unique(order)
    ensures Firsts(order, i + 1) == Firsts(order, i) + {order[i]} && order[i] !in Firsts(order, i)
  {
    assert order[..i + 1] == order[..i] + [order[i]];
  }

  /** The state of the walk, `i` entries done: `m` is the map being walked, `p` its contents before. */
  ghost predicate Walked(m: CoinsMap, p: map<OutPoint, Plain>, order: seq<OutPoint>, i: nat, erase: bool) {
    && i <= |order| && Unique(order)
    && if erase then Listed(m, order) && Contents(m) == p
       else Listed(m, order[i..]) && Contents(m) == PartSynced(p, Firsts(order, i))
  }

  lemma WalkStart(m: CoinsMap, order: seq<OutPoint>, erase: bool)
    requires Listed(m, order)
    ensures Walked(m, Contents(m), order, 0, erase) && m.first == LinkTo(order, 0)
  {
    LastIs(m, order);
    assert order[0..] == order;
    assert Firsts(order, 0) == {};
    assert Contents(m) == PartSynced(Contents(m), {});
  }

  lemma WalkAt(m: CoinsMap, p: map<OutPoint, Plain>, order: seq<OutPoint>, i: nat, erase: bool)
    requires Walked(m, p, order, i, erase) && i < |order|
    ensures order[i] in m.entries && order[i] in p && m.entries[order[i]].next == LinkTo(order, i + 1)
    ensures p[order[i]] == Plain(m.entries[order[i]].coin, m.entries[order[i]].isDirty, m.entries[order[i]].isFresh)
  {
    var k := order[i];
    if erase {
      ListedAt(m, order, i);
    } else {
      FirstsNext(order, i);
      assert order[i..][0] == k;
      ListedAt(m, order[i..], 0);
      assert LinkTo(order[i..], 1) == LinkTo(order, i + 1);
      PartSyncedAt(p, Firsts(order, i), k);
    }
  }

  lemma ListedAt(m: CoinsMap, order: seq<OutPoint>, i: nat)
    requires Listed(m, order) && i < |order|
    ensures order[i] in m.entries && m.entries[order[i]].next == LinkTo(order, i + 1)
    ensures var e := m.entries[order[i]];
            order[i] in Contents(m) && Contents(m)[order[i]] == Plain(e.coin, e.isDirty, e.isFresh)
  {
    assert Joint(m, order, i + 1);
  }

  lemma PartSyncedAt(p: map<OutPoint, Plain>, done: set<OutPoint>, k: OutPoint)
    requires k !in done
    ensures k in PartSynced(p, done) <==> k in p
    ensures k in p ==> PartSynced(p, done)[k] == p[k]
  {
  }

  /** What the cursor does to an entry it leaves behind. */
  function LeftBehind(m: CoinsMap, k: OutPoint, erase: bool): CoinsMap
    requires k in m.entries
  {
    if erase then m else if m.entries[k].coin.IsSpent() then m.Erase(k) else m.SetClean(k)
  }

  lemma WalkNext(m: CoinsMap, p: map<OutPoint, Plain>, order: seq<OutPoint>, i: nat, erase: bool)
    requires Walked(m, p, order, i, erase) && i < |order| && order[i] in m.entries
    ensures Walked(LeftBehind(m, order[i], erase), p, order, i + 1, erase)
  {
    hide CoinsMap.Erase, CoinsMap.SetClean, Listed, Contents;
    if !erase {
      var k := order[i];
      WalkAt(m, p, order, i, erase);
      FirstsNext(order, i);
      ContentsKeys(m);
      var rest;
      if m.entries[k].coin.IsSpent() {
        rest := EraseListed(m, order[i..], k);
      } else {
        rest := CleanListed(m, order[i..], k);
      }
      DropHead(order, i, rest);
      NextSynced(p, Firsts(order, i), k);
    }
  }

  lemma DropHead(order: seq<OutPoint>, i: nat, rest: seq<OutPoint>)
    requires Unique(order) && i < |order|
    requires exists j :: 0 <= j < |order[i..]| && order[i..][j] == order[i] && rest == Without(order[i..], j)
    ensures rest == order[i + 1..]
  {
    var j :| 0 <= j < |order[i..]| && order[i..][j] == order[i] && rest == Without(order[i..], j);
    assert order[i..][j] == order[i + j];
    assert j == 0;
  }

  lemma NextSynced(p: map<OutPoint, Plain>, done: set<OutPoint>, k: OutPoint)
    requires k in p && k !in done
    ensures PartSynced(p, done + {k}) ==
            if p[k].coin.IsSpent() then PartSynced(p, done) - {k}
            else PartSynced(p, done)[k := Plain(p[k].coin, false, false)]
  {
  }

  lemma WalkDone(m: CoinsMap, p: map<OutPoint, Plain>, order: seq<OutPoint>, below: map<OutPoint, Coin>)
    requires Walked(m, p, order, |order|, false) && Sane(p, below) && forall k | k in p :: k in order <==> p[k].isDirty
    ensures Listed(m, []) && Contents(m) == Synced(p)
  {
    assert order[|order|..] == [] && order[..|order|] == order;
    forall k | k in p ensures EntryOk(p[k], below, k) && (k in Firsts(order, |order|) <==> p[k].isDirty) {}
  }

  lemma SyncedWithout(p: map<OutPoint, Plain>, k: OutPoint)
    requires k in p
    ensures if p[k].coin.IsSpent() then Synced(p) == Synced(p - {k})
            else k in Synced(p) && Synced(p)[k].coin == p[k].coin && Synced(p) - {k} == Synced(p - {k})
  {
  }

  lemma SaneWithout(p: map<OutPoint, Plain>, below: map<OutPoint, Coin>, k: OutPoint)
    requires Sane(p, below) && k in p
    ensures Sane(p - {k}, below) && (p[k].coin.IsSpent() ==> p[k].coin.scriptUsage == 0)
  {
    assert EntryOk(p[k], below, k);
    forall j | j in p - {k} ensures EntryOk((p - {k})[j], below, j) { assert EntryOk(p[j], below, j); }
  }

  /** Erasing spent entries does not change the memory usage. */
  lemma {:induction false} SyncedUsage(p: map<OutPoint, Plain>, below: map<OutPoint, Coin>)
    requires Sane(p, below)
    ensures Usage(Synced(p)) == Usage(p)
    decreases |p|
  {
    if p == map[] {
      assert Synced(p) == map[];
    } else {
      hide Usage, Synced, Sane;
      var k := Any(p.Keys);
      SaneWithout(p, below, k);
      SyncedUsage(p - {k}, below);
      UsageRemove(p, k);
      SyncedWithout(p, k);
      if !p[k].coin.IsSpent() { UsageRemove(Synced(p), k); }
    }
  }
}
