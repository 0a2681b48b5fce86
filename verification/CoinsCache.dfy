/** Stacked write-back caches over a coin database. */
module CoinsCaches {
  import opened Options
  import opened Coins
  import opened CoinLevels

  /** The null block hash. */
  const NO_BLOCK: nat := 0

  /** The coin database at the bottom of a stack. */
  class CoinsDb {
    var coins: map<OutPoint, Coin>
    var block: nat

    ghost predicate Valid()
      reads this
    {
      Unspent(coins)
    }

    constructor ()
      ensures Valid() && coins == map[] && block == NO_BLOCK
    {
      coins, block := map[], NO_BLOCK;
    }

    method GetCoin(k: OutPoint) returns (r: Option<Coin>)
      ensures r == if k in coins then Some(coins[k]) else None
    {
      r := if k in coins then Some(coins[k]) else None;
    }

    /** Write the flagged entries of `child` to the database. */
    method BatchWrite(child: CoinsCache, willErase: bool, hash: nat)
      requires child.Valid() && child.below == Db(this) && hash != NO_BLOCK
      modifies this, child`coins, child`order, child`dirtyCount
      ensures coins == old(child.View()) && block == hash
      ensures child.WrittenFrom(old(child.coins), old(child.order), willErase)
    {
      hide LevelOk, Show, Contents, Walked, Applied, LeftBehind, Firsts;
      ghost var below, p, order := coins, Contents(child.coins), child.order;
      ghost var m := child.coins;
      BatchStart(m, order, child.usage, child.dirtyCount, below, willErase);
      var it := child.coins.first;
      ghost var i := 0;
      while it != Sentinel
        invariant i <= |order| && it == LinkTo(order, i)
        invariant Walked(child.coins, p, order, i, willErase) && child.dirtyCount == |order| - i
        invariant coins == Applied(below, p, Firsts(order, i))
        invariant child.order == order
        invariant willErase ==> child.coins == m
        decreases |order| - i
      {
        BatchNext(m, child.coins, p, order, i, willErase, below);
        var entry := child.coins.entries[it.key];
        if entry.isDirty {
          coins := if entry.coin.IsSpent() then coins - {it.key} else coins[it.key := entry.coin];
        }
        it := child.NextAndMaybeErase(it.key, willErase, p, order, i);
        i := i + 1;
      }
      BatchEnd(m, child.coins, p, order, i, willErase, below);
      if !willErase { child.order := []; }
      block := hash;
    }
  }

  /** The topmost hash that is set: the best block as seen from the top. */
  ghost function FirstSet(hashes: seq<nat>): nat {
    if hashes == [] then NO_BLOCK else if hashes[0] != NO_BLOCK then hashes[0] else FirstSet(hashes[1..])
  }

  /** The hashes once the best block was asked for: every unset one above the first set one is filled in. */
  ghost function Remembered(hashes: seq<nat>): seq<nat> {
    if hashes == [] || hashes[0] != NO_BLOCK then hashes else [FirstSet(hashes)] + Remembered(hashes[1..])
  }

  /** What a cache is backed by. */
  datatype Below = Db(db: CoinsDb) | Cache(cache: CoinsCache)

  class CoinsCache {
    const below: Below
    ghost const depth: nat
    /** The objects below this cache. */
    ghost const belowRepr: set<object>

    var coins: CoinsMap
    var usage: nat
    var dirtyCount: nat
    var block: nat
    /** The order of the flagged entries in the list. */
    ghost var order: seq<OutPoint>

    ghost function Repr(): set<object> {
      {this} + belowRepr
    }

    ghost predicate Chained() {
      && this !in belowRepr
      && match below
         case Db(d) => belowRepr == {d}
         case Cache(c) => c.depth < depth && belowRepr == c.Repr()
    }

    ghost predicate BelowValid()
      reads belowRepr
      decreases depth, 0
    {
      && Chained()
      && match below
         case Db(d) => d.Valid()
         case Cache(c) => c.Valid()
    }

    /** The coins visible below. */
    ghost function BelowView(): map<OutPoint, Coin>
      requires BelowValid()
      reads belowRepr
      decreases depth, 1
    {
      match below
      case Db(d) => d.coins
      case Cache(c) => c.View()
    }

    ghost predicate Valid()
      reads this, belowRepr
      decreases depth, 2
    {
      BelowValid() && LevelOk(coins, order, usage, dirtyCount, BelowView())
    }

    /** The coins visible through this cache. */
    ghost function View(): map<OutPoint, Coin>
      requires Valid()
      reads this, belowRepr
      decreases depth, 3
    {
      Show(Contents(coins), BelowView())
    }

    /** The coins visible at each level below, from the top. */
    ghost function BelowViews(): (v: seq<map<OutPoint, Coin>>)
      requires BelowValid()
      reads belowRepr
      ensures v != [] && v[0] == BelowView() && |v| == |BelowHashes()|
      decreases depth, 3
    {
      match below
      case Db(d) => [d.coins]
      case Cache(c) => assert c.Valid(); c.Views()
    }

    /** The coins visible at each level, from the top; the last level is the database. */
    ghost function Views(): (v: seq<map<OutPoint, Coin>>)
      requires Valid()
      reads this, belowRepr
      ensures |v| == |Hashes()| >= 2
      decreases depth, 4
    {
      [View()] + BelowViews()
    }

    /** The block hashes below, from the top. */
    ghost function BelowHashes(): seq<nat>
      requires BelowValid()
      reads belowRepr
      ensures BelowHashes() != []
      decreases depth, 1
    {
      match below
      case Db(d) => [d.block]
      case Cache(c) => assert c.Valid(); c.Hashes()
    }

    ghost function Hashes(): seq<nat>
      requires BelowValid()
      reads this, belowRepr
      decreases depth, 2
    {
      [block] + BelowHashes()
    }

    constructor OverDb(db: CoinsDb)
      requires db.Valid()
      ensures Valid() && below == Db(db) && View() == db.coins && coins == EMPTY_MAP && block == NO_BLOCK
    {
      below, depth, belowRepr := Db(db), 0, {db};
      coins, usage, dirtyCount, block, order := EMPTY_MAP, 0, 0, NO_BLOCK, [];
      new;
      LevelEmpty(db.coins);
    }

    constructor OverCache(base: CoinsCache)
      requires base.Valid()
      ensures Valid() && below == Cache(base) && View() == base.View() && coins == EMPTY_MAP && block == NO_BLOCK
    {
      below, depth, belowRepr := Cache(base), base.depth + 1, base.Repr();
      coins, usage, dirtyCount, block, order := EMPTY_MAP, 0, 0, NO_BLOCK, [];
      new;
      LevelEmpty(base.View());
    }

    /** Look a coin up below, which may populate the caches there. */
    method FetchFromBase(k: OutPoint) returns (r: Option<Coin>)
      requires Valid()
      modifies belowRepr
      ensures BelowValid() && BelowViews() == old(BelowViews()) && BelowHashes() == old(BelowHashes())
      ensures r == if k in BelowView() then Some(BelowView()[k]) else None
      decreases depth, 0
    {
      match below {
        case Db(d) => r := d.GetCoin(k);
        case Cache(c) => r := c.GetCoin(k);
      }
    }

    /** Make sure the cache has an entry for the coin, if there is one in it or below. */
    method FetchCoin(k: OutPoint) returns (found: bool)
      requires Valid()
      modifies Repr()
      ensures Valid() && View() == old(View()) && BelowViews() == old(BelowViews()) && Hashes() == old(Hashes())
      ensures found == (k in coins.entries) && found == (k in old(coins.entries) || k in BelowView())
      ensures coins == if found && k !in old(coins.entries) then old(coins).Emplace(k, BelowView()[k]) else old(coins)
      ensures order == old(order) && dirtyCount == old(dirtyCount)
      decreases depth, 1
    {
      hide LevelOk, Show, Contents;
      if k in coins.entries {
        return true;
      }
      var r := FetchFromBase(k);
      found := TakeFetched(k, r);
    }

    /** Insert a coin that was fetched from below. */
    method TakeFetched(k: OutPoint, r: Option<Coin>) returns (found: bool)
      requires Valid() && k !in coins.entries && r == if k in BelowView() then Some(BelowView()[k]) else None
      modifies this
      ensures Valid() && View() == old(View()) && BelowViews() == old(BelowViews()) && Hashes() == old(Hashes())
      ensures found == (k in coins.entries) && found == (k in BelowView())
      ensures coins == if found then old(coins).Emplace(k, BelowView()[k]) else old(coins)
      ensures order == old(order) && dirtyCount == old(dirtyCount)
    {
      hide LevelOk, Show, Contents;
      match r {
        case Some(coin) =>
          FetchLevel(coins, order, usage, dirtyCount, BelowView(), k);
          coins := coins.Emplace(k, coin);
          usage := usage + coin.scriptUsage;
          found := true;
        case None =>
          found := false;
      }
    }

    /** The coin, if it is unspent. */
    method GetCoin(k: OutPoint) returns (r: Option<Coin>)
      requires Valid()
      modifies Repr()
      ensures Valid() && View() == old(View()) && BelowViews() == old(BelowViews()) && Hashes() == old(Hashes())
      ensures r == if k in View() then Some(View()[k]) else None
      decreases depth, 2
    {
      hide LevelOk, Show, Contents;
      var found := FetchCoin(k);
      ShownEntry(coins, BelowView(), k);
      if found && !coins.entries[k].coin.IsSpent() {
        r := Some(coins.entries[k].coin);
      } else {
        r := None;
      }
    }

    /** Look the coin up without caching anything. */
    method PeekCoin(k: OutPoint) returns (r: Option<Coin>)
      requires Valid()
      ensures r == if k in View() then Some(View()[k]) else None
      decreases depth, 1
    {
      hide LevelOk, Show, Contents;
      ShownEntry(coins, BelowView(), k);
      if k in coins.entries {
        r := if coins.entries[k].coin.IsSpent() then None else Some(coins.entries[k].coin);
      } else {
        r := PeekBelow(k);
      }
    }

    method PeekBelow(k: OutPoint) returns (r: Option<Coin>)
      requires Valid()
      ensures r == if k in BelowView() then Some(BelowView()[k]) else None
      decreases depth, 0
    {
      hide LevelOk;
      match below {
        case Db(d) => r := d.GetCoin(k);
        case Cache(c) => r := c.PeekCoin(k);
      }
    }

    /** Whether there is an unspent coin. */
    method HaveCoin(k: OutPoint) returns (have: bool)
      requires Valid()
      modifies Repr()
      ensures Valid() && View() == old(View()) && BelowViews() == old(BelowViews()) && Hashes() == old(Hashes())
      ensures have <==> k in View()
    {
      hide LevelOk, Show, Contents;
      var found := FetchCoin(k);
      ShownEntry(coins, BelowView(), k);
      have := found && !coins.entries[k].coin.IsSpent();
    }

    /** The coin, or a spent one. */
    method AccessCoin(k: OutPoint) returns (coin: Coin)
      requires Valid()
      modifies Repr()
      ensures Valid() && View() == old(View()) && BelowViews() == old(BelowViews()) && Hashes() == old(Hashes())
      ensures if k in View() then coin == View()[k] else coin.IsSpent()
    {
      hide LevelOk, Show, Contents;
      var found := FetchCoin(k);
      ShownEntry(coins, BelowView(), k);
      coin := if found then coins.entries[k].coin else NO_COIN;
    }

    /** Add a coin. Without `overwrite` there must be none yet: if the cache itself has one, that is
        an error and nothing changes; that there is none below is up to the caller. */
    method AddCoin(k: OutPoint, coin: Coin, overwrite: bool) returns (thrown: bool)
      requires Valid() && !coin.IsSpent()
      requires !overwrite && k !in coins.entries ==> k !in BelowView()
      modifies this
      ensures Valid() && BelowViews() == old(BelowViews()) && Hashes() == old(Hashes())
      ensures thrown <==> !coin.unspendable && !overwrite && k in old(coins.entries) && k in old(View())
      ensures View() == if thrown || coin.unspendable then old(View()) else old(View())[k := coin]
      ensures Contents(coins) == if thrown || coin.unspendable then old(Contents(coins))
                                 else Added(old(Contents(coins)), k, coin, overwrite)
    {
      hide LevelOk, Show, Contents, AddedMap;
      if coin.unspendable {
        return false;
      }
      ContentsKeys(coins);
      ShownEntry(coins, BelowView(), k);
      var inserted := k !in coins.entries;
      var added := coins.Emplace(k, NO_COIN);
      var entry := added.entries[k];
      var isFresh := false;
      if !overwrite {
        if !entry.coin.IsSpent() {
          return true;
        }
        isFresh := !entry.isDirty;
      }
      AddLevel(coins, order, usage, dirtyCount, BelowView(), k, coin, overwrite);
      var dirty, used := dirtyCount, usage;
      if !inserted {
        dirty := dirty - (if entry.isDirty then 1 else 0);
        used := used - entry.coin.scriptUsage;
      }
      coins, order := AddedMap(added, k, coin, isFresh), if k in order then order else order + [k];
      dirtyCount, usage := dirty + 1, used + coin.scriptUsage;
      thrown := false;
    }

    /** Spend a coin. Also succeeds, without effect, on a coin that the cache knows to be spent. */
    method SpendCoin(k: OutPoint) returns (ok: bool, moved: Coin)
      requires Valid()
      modifies Repr()
      ensures Valid() && BelowViews() == old(BelowViews()) && Hashes() == old(Hashes())
      ensures View() == old(View()) - {k}
      ensures ok <==> k in old(coins.entries) || k in old(View())
      ensures if k in old(View()) then moved == old(View())[k] else moved.IsSpent()
      ensures Contents(coins) == if ok then Spent(old(Contents(coins)), k) else old(Contents(coins))
    {
      hide LevelOk, Show, Contents, Spent;
      ShownEntry(coins, BelowView(), k);
      ghost var m := coins;
      var found := FetchCoin(k);
      ShownEntry(coins, BelowView(), k);
      if !found {
        assert View() - {k} == View();
        return false, NO_COIN;
      }
      if k in BelowView() { SpentAfterFetch(m, k, BelowView()[k]); }
      moved := SpendCached(k);
      ok := true;
    }

    method SpendCached(k: OutPoint) returns (moved: Coin)
      requires Valid() && k in coins.entries
      modifies this
      ensures Valid() && BelowViews() == old(BelowViews()) && Hashes() == old(Hashes())
      ensures View() == old(View()) - {k} && moved == old(coins.entries[k].coin)
      ensures Contents(coins) == Spent(old(Contents(coins)), k)
    {
      hide LevelOk, Show, Contents, Spent, SpentMap;
      var entry := coins.entries[k];
      ghost var order' := SpendLevel(coins, order, usage, dirtyCount, BelowView(), k);
      var dirty := dirtyCount - (if entry.isDirty then 1 else 0);
      moved := entry.coin;
      if !entry.isFresh {
        dirty := dirty + 1;
      }
      coins, order := SpentMap(coins, k), order';
      dirtyCount, usage := dirty, usage - entry.coin.scriptUsage;
    }

    /** Drop an unmodified entry. */
    method Uncache(k: OutPoint)
      requires Valid()
      modifies this
      ensures Valid() && View() == old(View()) && BelowViews() == old(BelowViews()) && Hashes() == old(Hashes())
      ensures Contents(coins) == if k in old(coins.entries) && !old(coins.entries[k].isDirty)
                                 then old(Contents(coins)) - {k} else old(Contents(coins))
    {
      hide LevelOk, Show, Contents, CoinsMap.Erase;
      if k in coins.entries && !coins.entries[k].isDirty {
        ghost var order' := UncacheLevel(coins, order, usage, dirtyCount, BelowView(), k);
        usage := usage - coins.entries[k].coin.scriptUsage;
        Erased(coins, k);
        coins := coins.Erase(k);
        order := order';
      }
    }

    /** Discard everything cached. */
    method Reset()
      requires Valid()
      modifies this
      ensures Valid() && View() == BelowView() && BelowViews() == old(BelowViews())
              && Hashes() == [NO_BLOCK] + old(BelowHashes()) && coins == EMPTY_MAP
    {
      LevelUnspent(coins, order, usage, dirtyCount, BelowView());
      hide LevelOk, Show, Contents;
      LevelEmpty(BelowView());
      coins, order, usage, dirtyCount := EMPTY_MAP, [], 0, 0;
      block := NO_BLOCK;
    }

    /** The state after the flagged entries were written down: all of them unflagged and the spent
        ones gone, unless the whole map is to be erased anyway. */
    ghost predicate WrittenFrom(m: CoinsMap, flagged: seq<OutPoint>, willErase: bool)
      reads this
    {
      && dirtyCount == 0
      && if willErase then coins == m && order == flagged
         else Listed(coins, []) && order == [] && Contents(coins) == Synced(Contents(m))
    }

    /** Step to the next flagged entry, leaving `k` behind. */
    method NextAndMaybeErase(k: OutPoint, willErase: bool, ghost p: map<OutPoint, Plain>, ghost flagged: seq<OutPoint>,
                             ghost i: nat)
      returns (next: Link)
      requires Walked(coins, p, flagged, i, willErase) && i < |flagged| && flagged[i] == k
               && dirtyCount == |flagged| - i
      requires k in p && p[k].isDirty
      modifies this`coins, this`dirtyCount
      ensures next == LinkTo(flagged, i + 1)
      ensures Walked(coins, p, flagged, i + 1, willErase) && dirtyCount == |flagged| - (i + 1)
      ensures willErase ==> coins == old(coins)
    {
      hide Walked, Contents, Listed;
      WalkAt(coins, p, flagged, i, willErase);
      WalkNext(coins, p, flagged, i, willErase);
      var current := coins.entries[k];
      next := current.next;
      dirtyCount := dirtyCount - (if current.isDirty then 1 else 0);
      if !willErase {
        if current.coin.IsSpent() {
          coins := coins.Erase(k);
        } else {
          coins := coins.SetClean(k);
        }
      }
    }

    /** Write one dirty entry of a child into this cache. */
    method MergeEntry(k: OutPoint, coin: Coin, isFresh: bool) returns (thrown: bool)
      requires Valid() && EntryOk(Plain(coin, true, isFresh), View(), k)
      modifies this`coins, this`order, this`usage, this`dirtyCount
      ensures !thrown && Valid() && View() == Apply(old(View()), k, Plain(coin, true, isFresh))
      ensures Contents(coins) == Merged(old(Contents(coins)), k, Plain(coin, true, isFresh))
    {
      hide LevelOk, Show, Contents, AddedMap, CoinsMap.Erase, Apply, CoinsMap.AddFlags;
      ghost var order' := MergeLevel(coins, order, usage, dirtyCount, BelowView(), k, Plain(coin, true, isFresh));
      if k !in coins.entries {
        if !(isFresh && coin.IsSpent()) {
          coins := AddedMap(coins.Emplace(k, NO_COIN), k, coin, isFresh);
          dirtyCount := dirtyCount + 1;
          usage := usage + coin.scriptUsage;
        }
      } else {
        var entry := coins.entries[k];
        if isFresh && !entry.coin.IsSpent() {
          return true;
        }
        usage := usage - entry.coin.scriptUsage;
        if entry.isFresh && coin.IsSpent() {
          dirtyCount := dirtyCount - (if entry.isDirty then 1 else 0);
          coins := coins.Erase(k);
        } else {
          coins := coins.SetCoin(k, coin);
          usage := usage + coin.scriptUsage;
          if !entry.isDirty {
            coins := coins.AddFlags(k, true, false);
            dirtyCount := dirtyCount + 1;
          }
        }
      }
      order := order';
      thrown := false;
    }

    /** Write the flagged entries of `child` into this cache. No fresh entry meets an unspent coin. */
    method BatchWrite(child: CoinsCache, willErase: bool, hash: nat) returns (thrown: bool)
      requires child.Valid() && child.below == Cache(this) && Valid()
      modifies this, child`coins, child`order, child`dirtyCount
      ensures !thrown && Valid() && View() == old(child.View())
      ensures BelowViews() == old(BelowViews()) && Hashes() == [hash] + old(BelowHashes())
      ensures child.WrittenFrom(old(child.coins), old(child.order), willErase)
      ensures Contents(coins) == MergedFirsts(old(Contents(coins)), old(Contents(child.coins)), old(child.order),
                                              |old(child.order)|)
    {
      hide LevelOk, Show, Contents, Walked, Applied, Apply, LeftBehind, Firsts, EntryOk, Merged;
      ghost var below, p, flagged := View(), Contents(child.coins), child.order;
      ghost var m := child.coins;
      BatchStart(m, flagged, child.usage, child.dirtyCount, below, willErase);
      var it := child.coins.first;
      ghost var i := 0;
      while it != Sentinel
        invariant i <= |flagged| && it == LinkTo(flagged, i)
        invariant Walked(child.coins, p, flagged, i, willErase) && child.dirtyCount == |flagged| - i
        invariant Valid() && BelowViews() == old(BelowViews())
        invariant View() == Applied(below, p, Firsts(flagged, i))
        invariant child.order == flagged && Contents(coins) == MergedFirsts(old(Contents(coins)), p, flagged, i)
        invariant willErase ==> child.coins == m
        decreases |flagged| - i
      {
        BatchNext(m, child.coins, p, flagged, i, willErase, below);
        var entry := child.coins.entries[it.key];
        if entry.isDirty {
          thrown := MergeEntry(it.key, entry.coin, entry.isFresh);
          if thrown { return; }
          MergedNext(old(Contents(coins)), p, flagged, i);
        }
        it := child.NextAndMaybeErase(it.key, willErase, p, flagged, i);
        i := i + 1;
      }
      BatchEnd(m, child.coins, p, flagged, i, willErase, below);
      if !willErase { child.order := []; }
      block := hash;
      thrown := false;
    }

    /** Pass the flagged entries and the block hash to the base. */
    method WriteDown(willErase: bool) returns (thrown: bool)
      requires Valid() && (below.Db? ==> block != NO_BLOCK)
      modifies belowRepr, this`coins, this`order, this`dirtyCount
      ensures !thrown && BelowValid() && BelowView() == old(View()) && WrittenFrom(old(coins), old(order), willErase)
      ensures BelowViews() == old(BelowViews())[0 := old(View())] && BelowHashes() == old(BelowHashes())[0 := block]
    {
      hide LevelOk, Show, Contents;
      SyncLevel(coins, order, usage, dirtyCount, BelowView());
      match below {
        case Db(d) =>
          d.BatchWrite(this, willErase, block);
          thrown := false;
          assert BelowHashes() == old(BelowHashes())[0 := block] && BelowViews() == old(BelowViews())[0 := old(View())];
        case Cache(c) =>
          thrown := c.BatchWrite(this, willErase, block);
          assert BelowHashes() == c.Hashes() == [block] + c.BelowHashes();
          assert old(BelowHashes()) == old(c.Hashes()) && old(BelowViews()) == old(c.Views());
          assert BelowViews() == c.Views() == [c.View()] + c.BelowViews();
          assert BelowHashes() == old(BelowHashes())[0 := block] && BelowViews() == old(BelowViews())[0 := old(View())];
      }
    }

    /** Write everything down and empty the cache. What is visible stays the same, and becomes what
        is visible below. The block hash, set or not, goes down with it. */
    method Flush() returns (thrown: bool)
      requires Valid() && (below.Db? ==> block != NO_BLOCK)
      modifies Repr()
      ensures !thrown && Valid() && View() == BelowView() == old(View())
      ensures coins == EMPTY_MAP && usage == 0 && dirtyCount == 0
      ensures Views() == old(Views())[1 := old(View())] && Hashes() == old(Hashes())[1 := old(block)]
    {
      hide LevelOk, Show, Contents, Listed, Synced;
      SyncLevel(coins, order, usage, dirtyCount, BelowView());
      thrown := WriteDown(true);
      LevelEmpty(BelowView());
      coins, order, usage := EMPTY_MAP, [], 0;
    }

    /** Write everything down, keeping the unspent coins cached. */
    method Sync() returns (thrown: bool)
      requires Valid() && (below.Db? ==> block != NO_BLOCK)
      modifies Repr()
      ensures !thrown && Valid() && View() == BelowView() == old(View())
      ensures Contents(coins) == Synced(old(Contents(coins))) && dirtyCount == 0 && order == [] && usage == old(usage)
      ensures Views() == old(Views())[1 := old(View())] && Hashes() == old(Hashes())[1 := old(block)]
    {
      hide LevelOk, Show, Contents;
      ghost var p, v := Contents(coins), BelowView();
      SyncLevel(coins, order, usage, dirtyCount, v);
      thrown := WriteDown(false);
      SyncedLevel(coins, p, usage, v);
      ListEnds(coins);
      if coins.first != Sentinel {
        thrown := true;
      }
    }

    method SetBestBlock(hash: nat)
      requires Valid()
      modifies this
      ensures Valid() && View() == old(View()) && BelowViews() == old(BelowViews())
              && Hashes() == [hash] + old(BelowHashes())
      ensures block == hash
    {
      block := hash;
    }

    /** The best block, remembered once it has been looked up below. */
    method GetBestBlock() returns (hash: nat)
      requires Valid()
      modifies Repr()
      ensures Valid() && View() == old(View()) && BelowViews() == old(BelowViews())
      ensures hash == FirstSet(old(Hashes())) && Hashes() == Remembered(old(Hashes()))
      decreases depth
    {
      hide LevelOk, Show, Contents;
      FirstSetPush(block, BelowHashes());
      RememberedPush(block, BelowHashes());
      if block == NO_BLOCK {
        match below {
          case Db(d) =>
            FirstSetPush(d.block, []);
            RememberedPush(d.block, []);
            assert [d.block] + [] == [d.block];
            block := d.block;
          case Cache(c) =>
            var b := c.GetBestBlock();
            block := b;
        }
      }
      hash := block;
    }
  }

  lemma BatchStart(m: CoinsMap, order: seq<OutPoint>, usage: nat, dirtyCount: nat, below: map<OutPoint, Coin>,
                   willErase: bool)
    requires LevelOk(m, order, usage, dirtyCount, below)
    ensures Walked(m, Contents(m), order, 0, willErase) && m.first == LinkTo(order, 0) && dirtyCount == |order|
    ensures Applied(below, Contents(m), Firsts(order, 0)) == below
    ensures Ready(m, Contents(m), order, below)
  {
    WalkStart(m, order, willErase);
    assert Firsts(order, 0) == {};
    AppliedNone(below, Contents(m));
    forall k | k in m.entries ensures k in order <==> m.entries[k].isDirty {
      FlaggedIsDirty(m, order, below, k);
    }
  }

  /** `p` are the contents of the map to be written down, and `order` its dirty entries. */
  ghost predicate Ready(m: CoinsMap, p: map<OutPoint, Plain>, order: seq<OutPoint>, below: map<OutPoint, Coin>) {
    && p == Contents(m) && Sane(p, below)
    && (forall k | k in p :: k in order <==> p[k].isDirty)
    && (forall i | 0 <= i < |order| :: order[i] in p)
  }

  lemma BatchNext(m: CoinsMap, now: CoinsMap, p: map<OutPoint, Plain>, order: seq<OutPoint>, i: nat, willErase: bool,
                  below: map<OutPoint, Coin>)
    requires Ready(m, p, order, below) && Walked(now, p, order, i, willErase) && LinkTo(order, i) != Sentinel
    ensures i < |order| && LinkTo(order, i) == At(order[i])
    ensures var k := order[i];
            && k in now.entries && now.entries[k].isDirty && k in p && p[k].isDirty
            && p[k] == Plain(now.entries[k].coin, true, now.entries[k].isFresh)
            && EntryOk(p[k], Applied(below, p, Firsts(order, i)), k)
            && Applied(below, p, Firsts(order, i + 1)) == Apply(Applied(below, p, Firsts(order, i)), k, p[k])
  {
    var k := order[i];
    WalkAt(now, p, order, i, willErase);
    FirstsNext(order, i);
    assert k in order && EntryOk(p[k], below, k);
    hide Applied, Apply, EntryOk;
    AppliedMore(below, p, Firsts(order, i), k);
  }

  lemma BatchEnd(m: CoinsMap, now: CoinsMap, p: map<OutPoint, Plain>, order: seq<OutPoint>, i: nat, willErase: bool,
                 below: map<OutPoint, Coin>)
    requires Ready(m, p, order, below) && Walked(now, p, order, i, willErase) && i <= |order|
             && LinkTo(order, i) == Sentinel
    ensures i == |order| && Applied(below, p, Firsts(order, i)) == Show(p, below)
    ensures !willErase ==> Listed(now, []) && Contents(now) == Synced(p)
  {
    assert order[..i] == order;
    AppliedAll(below, p, Firsts(order, i));
    if !willErase { WalkDone(now, p, order, below); }
  }

  lemma SyncLevel(m: CoinsMap, order: seq<OutPoint>, usage: nat, dirtyCount: nat, below: map<OutPoint, Coin>)
    requires LevelOk(m, order, usage, dirtyCount, below)
    ensures usage == Usage(Synced(Contents(m))) && Sane(Contents(m), below) && Unspent(Show(Contents(m), below))
  {
    SyncedUsage(Contents(m), below);
    ShowUnspent(Contents(m), below);
  }

  lemma LevelUnspent(m: CoinsMap, order: seq<OutPoint>, usage: nat, dirtyCount: nat, below: map<OutPoint, Coin>)
    requires LevelOk(m, order, usage, dirtyCount, below)
    ensures Unspent(below)
  {
  }

  lemma SyncedLevel(m: CoinsMap, p: map<OutPoint, Plain>, usage: nat, below: map<OutPoint, Coin>)
    requires Listed(m, []) && Contents(m) == Synced(p) && Unspent(Show(p, below)) && usage == Usage(Synced(p))
    ensures LevelOk(m, [], usage, 0, Show(p, below)) && Show(Contents(m), Show(p, below)) == Show(p, below)
  {
    SyncedSane(p, below);
  }

  lemma ListEnds(m: CoinsMap)
    requires Listed(m, [])
    ensures m.first == Sentinel
  {
    LastIs(m, []);
  }

  lemma Erased(m: CoinsMap, k: OutPoint)
    requires k in m.entries
    ensures k !in m.Erase(k).entries
  {
  }

  lemma ShownEntry(m: CoinsMap, below: map<OutPoint, Coin>, k: OutPoint)
    ensures k in Show(Contents(m), below) <==> if k in m.entries then !m.entries[k].coin.IsSpent() else k in below
    ensures k in Show(Contents(m), below) ==>
            Show(Contents(m), below)[k] == if k in m.entries then m.entries[k].coin else below[k]
  {
  }

  lemma FirstSetPush(b: nat, rest: seq<nat>)
    ensures FirstSet([b] + rest) == if b != NO_BLOCK then b else FirstSet(rest)
  {
    assert ([b] + rest)[1..] == rest;
  }

  lemma RememberedPush(b: nat, rest: seq<nat>)
    ensures Remembered([b] + rest) == if b != NO_BLOCK then [b] + rest else [FirstSet([b] + rest)] + Remembered(rest)
  {
    assert ([b] + rest)[1..] == rest;
  }

  /** Flushing or syncing leaves the best block as it was exactly if the cache has one set, or the base has none of its
      own, or that is the one further below anyway. */
  lemma FlushKeepsBest(hashes: seq<nat>)
    requires |hashes| >= 2
    ensures FirstSet(hashes[1 := hashes[0]]) == FirstSet(hashes) <==>
            hashes[0] != NO_BLOCK || hashes[1] == NO_BLOCK || hashes[1] == FirstSet(hashes[2..])
  {
    var after := hashes[1 := hashes[0]];
    assert after[1..][1..] == hashes[2..] && hashes[1..][1..] == hashes[2..];
    if hashes[0] == NO_BLOCK {
      assert FirstSet(after) == FirstSet(after[1..]) == FirstSet(hashes[2..]);
      assert FirstSet(hashes) == FirstSet(hashes[1..]);
    }
  }
}
