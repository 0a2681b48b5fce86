/** Whole runs over a stack of caches, against a stack of plain maps. */
module CoinsRuns {
  import opened Options
  import opened Coins
  import opened CoinLevels
  import opened CoinsCaches

  /** Operations that leave the visible coins alone; they may be applied at any level of the stack. */
  datatype Upkeep =
    | Lookup(k: OutPoint)
    | Peek(k: OutPoint)
    | Uncache(k: OutPoint)
    | Flush
    | Sync
    | SetBest(hash: nat)
    | GetBest

  datatype Op =
    | Get(k: OutPoint)
    | Add(k: OutPoint, coin: Coin, overwrite: bool)
    | Spend(k: OutPoint)
    | Reset
    | Upkeep(level: nat, what: Upkeep)

  datatype Reply = Nothing | Found(coin: Option<Coin>) | Best(hash: nat)

  // ---- The plain maps

  type Coinset = map<OutPoint, Coin>

  /** The coins and the block hash of each level, from the top; the last level is the database. */
  datatype Layers = Layers(views: seq<Coinset>, hashes: seq<nat>)

  ghost predicate Sized(l: Layers) {
    |l.views| == |l.hashes| >= 2
  }

  ghost function Look(v: Coinset, k: OutPoint): Option<Coin> {
    if k in v then Some(v[k]) else None
  }

  /** Upkeep at a level that is not the database's. */
  ghost function Kept(l: Layers, level: nat, what: Upkeep): (r: Layers)
    requires Sized(l)
    ensures |r.views| == |l.views|
  {
    if level + 1 >= |l.views| then l
    else
      match what
      case Flush => Layers(l.views[level + 1 := l.views[level]], l.hashes[level + 1 := l.hashes[level]])
      case Sync => Layers(l.views[level + 1 := l.views[level]], l.hashes[level + 1 := l.hashes[level]])
      case SetBest(hash) => l.(hashes := l.hashes[level := hash])
      case GetBest => l.(hashes := l.hashes[..level] + Remembered(l.hashes[level..]))
      case _ => l
  }

  ghost function KeptReply(l: Layers, level: nat, what: Upkeep): Reply
    requires Sized(l)
  {
    if level + 1 >= |l.views| then Nothing
    else
      match what
      case Lookup(k) => Found(Look(l.views[level], k))
      case Peek(k) => Found(Look(l.views[level], k))
      case GetBest => Best(FirstSet(l.hashes[level..]))
      case _ => Nothing
  }

  /** The database takes no batch without a block hash. */
  ghost predicate CanKeep(l: Layers, level: nat, what: Upkeep)
    requires Sized(l)
  {
    (what.Flush? || what.Sync?) && level + 2 == |l.hashes| ==> l.hashes[level] != NO_BLOCK
  }

  ghost function After(l: Layers, op: Op): Layers
    requires Sized(l)
  {
    match op
    case Get(_) => l
    case Add(k, coin, _) => if coin.unspendable then l else l.(views := l.views[0 := l.views[0][k := coin]])
    case Spend(k) => l.(views := l.views[0 := l.views[0] - {k}])
    case Reset => Layers(l.views[0 := l.views[1]], l.hashes[0 := NO_BLOCK])
    case Upkeep(level, what) => Kept(l, level, what)
  }

  ghost function Answer(l: Layers, op: Op): Reply
    requires Sized(l)
  {
    match op
    case Get(k) => Found(Look(l.views[0], k))
    case Add(_, _, _) => Nothing
    case Spend(k) => Found(Look(l.views[0], k))
    case Reset => Nothing
    case Upkeep(level, what) => KeptReply(l, level, what)
  }

  /** Only unspent coins are added, and only to absent outputs unless overwriting is allowed. */
  ghost predicate Allowed(l: Layers, op: Op)
    requires Sized(l)
  {
    && (op.Add? ==> !op.coin.IsSpent() && (!op.overwrite ==> op.k !in l.views[0]))
    && (op.Upkeep? ==> CanKeep(l, op.level, op.what))
  }

  lemma RememberedSize(h: seq<nat>)
    ensures |Remembered(h)| == |h|
  {
  }

  lemma AfterSized(l: Layers, op: Op)
    requires Sized(l)
    ensures Sized(After(l, op))
  {
    if op.Upkeep? && op.what.GetBest? && op.level + 1 < |l.views| { RememberedSize(l.hashes[op.level..]); }
  }

  ghost function AfterAll(l: Layers, ops: seq<Op>): (r: Layers)
    requires Sized(l)
    ensures Sized(r)
  {
    if ops == [] then l
    else
      var before := AfterAll(l, ops[..|ops| - 1]);
      AfterSized(before, ops[|ops| - 1]);
      After(before, ops[|ops| - 1])
  }

  ghost predicate AllAllowed(l: Layers, ops: seq<Op>)
    requires Sized(l)
  {
    forall i | 0 <= i < |ops| :: Allowed(AfterAll(l, ops[..i]), ops[i])
  }

  // ---- The stack

  ghost function LayersOf(cache: CoinsCache): (l: Layers)
    requires cache.Valid()
    reads cache, cache.belowRepr
    ensures Sized(l) && l.views[0] == cache.View()
  {
    Layers(cache.Views(), cache.Hashes())
  }

  method Maintain(cache: CoinsCache, what: Upkeep) returns (reply: Reply)
    requires cache.Valid() && CanKeep(LayersOf(cache), 0, what)
    modifies cache.Repr()
    ensures cache.Valid() && LayersOf(cache) == Kept(old(LayersOf(cache)), 0, what)
    ensures reply == KeptReply(old(LayersOf(cache)), 0, what) && cache.View() == old(cache.View())
  {
    hide LevelOk, Show, Contents, FirstSet, Remembered;
    ghost var h := cache.Hashes();
    assert h[0] == cache.block && h[..0] == [] && h[0..] == h;
    assert |h| == 2 <==> cache.below.Db? by { Bottom(cache); }
    reply := Nothing;
    match what {
      case Lookup(k) =>
        var r := cache.GetCoin(k);
        reply := Found(r);
      case Peek(k) =>
        var r := cache.PeekCoin(k);
        reply := Found(r);
      case Uncache(k) => cache.Uncache(k);
      case Flush => var thrown := cache.Flush();
      case Sync => var thrown := cache.Sync();
      case SetBest(hash) => cache.SetBestBlock(hash);
      case GetBest =>
        var b := cache.GetBestBlock();
        reply := Best(b);
    }
  }

  lemma Bottom(cache: CoinsCache)
    requires cache.Valid()
    ensures |cache.Hashes()| == 2 <==> cache.below.Db?
  {
    if cache.below.Cache? {
      assert cache.below.cache.Valid();
      assert |cache.below.cache.Hashes()| >= 2;
    }
  }

  /** Upkeep at any level keeps what is visible at the top. */
  method MaintainAt(cache: CoinsCache, level: nat, what: Upkeep) returns (reply: Reply)
    requires cache.Valid() && CanKeep(LayersOf(cache), level, what)
    modifies cache.Repr()
    ensures cache.Valid() && LayersOf(cache) == Kept(old(LayersOf(cache)), level, what)
    ensures reply == KeptReply(old(LayersOf(cache)), level, what) && cache.View() == old(cache.View())
    decreases level
  {
    hide LevelOk, Show, Contents, FirstSet, Remembered, Kept, KeptReply;
    ghost var l := LayersOf(cache);
    if level == 0 {
      reply := Maintain(cache, what);
    } else if cache.below.Cache? {
      var c := cache.below.cache;
      assert c.Valid();
      ghost var lower := LayersOf(c);
      Stacked(cache, c);
      KeptPushed(cache.View(), cache.block, lower, level, what);
      reply := MaintainAt(c, level - 1, what);
      Stacked(cache, c);
    } else {
      Bottom(cache);
      KeptBeyond(l, level, what);
      reply := Nothing;
    }
  }

  ghost function Pushed(v: Coinset, b: nat, l: Layers): Layers {
    Layers([v] + l.views, [b] + l.hashes)
  }

  lemma Stacked(cache: CoinsCache, c: CoinsCache)
    requires cache.Valid() && cache.below == Cache(c)
    ensures c.Valid() && LayersOf(cache) == Pushed(cache.View(), cache.block, LayersOf(c))
  {
    assert c.Valid();
    assert cache.BelowViews() == c.Views();
    assert cache.BelowHashes() == c.Hashes();
    assert cache.Views() == [cache.View()] + c.Views();
    assert cache.Hashes() == [cache.block] + c.Hashes();
  }

  lemma KeptBeyond(l: Layers, level: nat, what: Upkeep)
    requires Sized(l) && level + 1 >= |l.views|
    ensures Kept(l, level, what) == l && KeptReply(l, level, what) == Nothing
  {
  }

  /** Upkeep below the top, seen from the level below. */
  lemma KeptPushed(v: Coinset, b: nat, l: Layers, level: nat, what: Upkeep)
    requires Sized(l) && level > 0
    ensures Kept(Pushed(v, b, l), level, what) == Pushed(v, b, Kept(l, level - 1, what))
    ensures KeptReply(Pushed(v, b, l), level, what) == KeptReply(l, level - 1, what)
    ensures CanKeep(Pushed(v, b, l), level, what) <==> CanKeep(l, level - 1, what)
    ensures Kept(l, level - 1, what).views[0] == l.views[0]
  {
    var p := Pushed(v, b, l);
    if level < |l.views| {
      assert p.hashes[level..] == l.hashes[level - 1..] && p.hashes[..level] == [b] + l.hashes[..level - 1];
    }
  }

  method Apply(cache: CoinsCache, op: Op) returns (reply: Reply)
    requires cache.Valid() && Allowed(LayersOf(cache), op)
    modifies cache.Repr()
    ensures cache.Valid() && LayersOf(cache) == After(old(LayersOf(cache)), op)
    ensures reply == Answer(old(LayersOf(cache)), op)
  {
    hide LevelOk, Show, Contents, FirstSet, Remembered, Kept, KeptReply, CanKeep;
    reply := Nothing;
    match op {
      case Get(k) =>
        var r := cache.GetCoin(k);
        reply := Found(r);
      case Add(k, coin, overwrite) =>
        ShownEntry(cache.coins, cache.BelowView(), k);
        var thrown := cache.AddCoin(k, coin, overwrite);
      case Spend(k) =>
        NoneSpent(cache.coins, cache.order, cache.usage, cache.dirtyCount, cache.BelowView());
        var ok, moved := cache.SpendCoin(k);
        reply := Found(if moved.IsSpent() then None else Some(moved));
      case Reset => cache.Reset();
      case Upkeep(level, what) => reply := MaintainAt(cache, level, what);
    }
  }

  lemma NoneSpent(m: CoinsMap, order: seq<OutPoint>, usage: nat, dirtyCount: nat, below: map<OutPoint, Coin>)
    requires LevelOk(m, order, usage, dirtyCount, below)
    ensures Unspent(Show(Contents(m), below))
  {
    ShowUnspent(Contents(m), below);
  }

  /** Every allowed run on a stack of caches of any depth, upkeep at any level included, gives the replies of the same
      run on plain maps, and leaves their coins and block hashes at every level. */
  method Run(cache: CoinsCache, ops: seq<Op>) returns (replies: seq<Reply>)
    requires cache.Valid() && AllAllowed(LayersOf(cache), ops)
    modifies cache.Repr()
    ensures cache.Valid() && LayersOf(cache) == AfterAll(old(LayersOf(cache)), ops)
    ensures |replies| == |ops|
    ensures forall i | 0 <= i < |ops| :: replies[i] == Answer(AfterAll(old(LayersOf(cache)), ops[..i]), ops[i])
  {
    hide LevelOk, Show, Contents, After, Answer, Allowed;
    ghost var l := LayersOf(cache);
    replies := [];
    for i := 0 to |ops|
      invariant cache.Valid() && LayersOf(cache) == AfterAll(l, ops[..i]) && |replies| == i
      invariant forall j | 0 <= j < i :: replies[j] == Answer(AfterAll(l, ops[..j]), ops[j])
    {
      assert ops[..i + 1][..i] == ops[..i];
      var reply := Apply(cache, ops[i]);
      replies := replies + [reply];
    }
    assert ops[..|ops|] == ops;
  }

  /** A cache over a database, with different block hashes. */
  method TwoHashes() returns (low: CoinsCache)
    ensures fresh(low) && fresh(low.Repr()) && low.Valid() && low.Hashes() == [2, 1]
  {
    hide LevelOk, Show, Contents;
    var db := new CoinsDb();
    low := new CoinsCache.OverDb(db);
    low.SetBestBlock(1);
    var thrown := low.Sync();
    assert low.BelowHashes() == low.Hashes()[1..] == [1];
    low.SetBestBlock(2);
  }

  /** A stack where flushing changes the best block: the cache has none set, its base has one, the database another. */
  method FlushLosesBest() returns (before: nat, after: nat)
    ensures before == 2 && after == 1
  {
    hide LevelOk, Show, Contents;
    var low := TwoHashes();
    before := low.GetBestBlock();
    var top := new CoinsCache.OverCache(low);
    assert top.Hashes() == [NO_BLOCK] + low.Hashes();
    var thrown := top.Flush();
    assert top.Hashes() == [NO_BLOCK, NO_BLOCK, 1] == [NO_BLOCK] + ([NO_BLOCK] + [1]);
    FirstSetPush(NO_BLOCK, [NO_BLOCK] + [1]);
    FirstSetPush(NO_BLOCK, [1]);
    after := top.GetBestBlock();
  }
}
