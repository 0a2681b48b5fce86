/** The tree of block headers with its skip pointers, and the active chain. */
module BlockChain {
  import opened BinaryPowers

  /** Turn the lowest one bit of `n` into a zero. */
  function InvertLowestOne(n: nat): nat {
    if n == 0 then 0 else if n % 2 == 1 then n - 1 else 2 * InvertLowestOne(n / 2)
  }

  lemma {:induction false} InvertLower(n: nat)
    requires n > 0
    ensures InvertLowestOne(n) < n
  {
    if n % 2 == 0 { InvertLower(n / 2); }
  }

  /** Bitwise and. */
  function BitAnd(x: nat, y: nat): nat {
    if x == 0 || y == 0 then 0 else 2 * BitAnd(x / 2, y / 2) + if x % 2 == 1 && y % 2 == 1 then 1 else 0
  }

  lemma {:induction false} AndSelf(x: nat)
    ensures BitAnd(x, x) == x
  {
    if x > 0 { AndSelf(x / 2); }
  }

  /** Clearing the lowest one bit is "and" with the number below, as the code computes it. */
  lemma {:induction false} InvertIsAnd(n: nat)
    requires n > 0
    ensures InvertLowestOne(n) == BitAnd(n, n - 1)
  {
    if n % 2 == 1 {
      assert (n - 1) / 2 == n / 2;
      AndSelf(n / 2);
    } else {
      assert (n - 1) / 2 == n / 2 - 1;
      InvertIsAnd(n / 2);
    }
  }

  /** The height a skip pointer jumps back to. */
  function GetSkipHeight(height: nat): nat {
    if height < 2 then 0
    else if height % 2 == 1 then InvertLowestOne(InvertLowestOne(height - 1)) + 1
    else InvertLowestOne(height)
  }

  lemma SkipHeightLower(height: nat)
    requires height > 0
    ensures GetSkipHeight(height) < height
  {
    if height >= 2 {
      if height % 2 == 1 {
        InvertLower(height - 1);
        if InvertLowestOne(height - 1) > 0 { InvertLower(InvertLowestOne(height - 1)); }
      } else {
        InvertLower(height);
      }
    }
  }

  class BlockIndex {
    const prev: BlockIndex?
    const height: nat
    var skip: BlockIndex?

    constructor (prev: BlockIndex?)
      requires prev != null ==> Rooted(prev)
      ensures Rooted(this) && this.prev == prev && skip == null
    {
      this.prev := prev;
      height := if prev == null then 0 else prev.height + 1;
      skip := null;
    }

    /** Set the skip pointer. */
    method BuildSkip(ghost tree: set<BlockIndex>)
      requires Skips(tree) && Rooted(this) && this !in tree && (prev != null ==> prev in tree) && skip == null
      modifies this
      ensures Skips(tree + {this})
    {
      if prev != null {
        SkipHeightLower(height);
        skip := GetAncestor(prev, GetSkipHeight(height), tree);
      }
    }
  }

  /** Heights count the blocks back to one without predecessor. */
  ghost predicate Rooted(b: BlockIndex)
    decreases b.height
  {
    if b.prev == null then b.height == 0 else b.height == b.prev.height + 1 && Rooted(b.prev)
  }

  /** Following the `prev` pointers down to height `h`. */
  ghost function AncestorAt(b: BlockIndex, h: nat): (a: BlockIndex)
    requires Rooted(b) && h <= b.height
    ensures Rooted(a) && a.height == h
    decreases b.height
  {
    if b.height == h then b else AncestorAt(b.prev, h)
  }

  lemma {:induction false} AncestorOfAncestor(b: BlockIndex, m: nat, h: nat)
    requires Rooted(b) && h <= m <= b.height
    ensures AncestorAt(AncestorAt(b, m), h) == AncestorAt(b, h)
    decreases b.height
  {
    if m < b.height { AncestorOfAncestor(b.prev, m, h); }
  }

  /** A set of blocks with their predecessors, and every skip pointer where it should be. */
  ghost predicate Skips(tree: set<BlockIndex>)
    reads tree
  {
    forall b | b in tree ::
      && Rooted(b)
      && if b.prev == null then b.skip == null else b.prev in tree && b.skip == AncestorAt(b, GetSkip(b))
  }

  ghost function GetSkip(b: BlockIndex): (h: nat)
    requires Rooted(b) && b.prev != null
    ensures h < b.height && h == GetSkipHeight(b.height)
  {
    SkipHeightLower(b.height);
    GetSkipHeight(b.height)
  }

  lemma {:induction false} AncestorIn(tree: set<BlockIndex>, b: BlockIndex, h: nat)
    requires Skips(tree) && b in tree && h <= b.height
    ensures Rooted(b) && AncestorAt(b, h) in tree
    decreases b.height
  {
    if h < b.height { AncestorIn(tree, b.prev, h); }
  }

  /** The ancestor at a height, found with skip pointers, is the one found by walking back. */
  method GetAncestor(b: BlockIndex, height: int, ghost tree: set<BlockIndex>) returns (a: BlockIndex?)
    requires Skips(tree) && b in tree
    ensures Rooted(b) && (a == null <==> height > b.height || height < 0)
    ensures a != null ==> a in tree && a == AncestorAt(b, height)
  {
    if height > b.height || height < 0 {
      return null;
    }
    var walk := b;
    var heightWalk := b.height;
    while heightWalk > height
      invariant walk in tree && Rooted(walk) && heightWalk == walk.height && height <= heightWalk
      invariant AncestorAt(walk, height) == AncestorAt(b, height)
      decreases heightWalk
    {
      var heightSkip := GetSkipHeight(heightWalk);
      var heightSkipPrev := GetSkipHeight(heightWalk - 1);
      SkipHeightLower(heightWalk);
      if walk.skip != null &&
         (heightSkip == height ||
          (heightSkip > height && !(heightSkipPrev < heightSkip - 2 && heightSkipPrev >= height))) {
        AncestorOfAncestor(walk, heightSkip, height);
        AncestorIn(tree, walk, heightSkip);
        walk := walk.skip;
        heightWalk := heightSkip;
      } else {
        walk := walk.prev;
        heightWalk := heightWalk - 1;
      }
    }
    a := walk;
  }

  // ---- Common ancestors

  /** All blocks of the tree descend from the same genesis block. */
  ghost predicate OneGenesis(tree: set<BlockIndex>) {
    forall a, b | a in tree && b in tree && a.height == 0 && b.height == 0 :: a == b
  }

  /** `c` is the last common ancestor of `a` and `b`. */
  ghost predicate IsFork(a: BlockIndex, b: BlockIndex, c: BlockIndex) {
    && Rooted(a) && Rooted(b) && c.height <= a.height && c.height <= b.height
    && AncestorAt(a, c.height) == c && AncestorAt(b, c.height) == c
    && DifferAbove(a, b, c.height)
  }

  /** At no height above `low` do `a` and `b` have the same ancestor. */
  ghost predicate DifferAbove(a: BlockIndex, b: BlockIndex, low: nat)
    requires Rooted(a) && Rooted(b)
  {
    forall h: nat | low < h <= a.height && h <= b.height :: AncestorAt(a, h) != AncestorAt(b, h)
  }

  lemma DifferLower(a: BlockIndex, b: BlockIndex, low: nat, h: nat)
    requires Rooted(a) && Rooted(b) && DifferAbove(a, b, low) && h < low <= a.height && low <= b.height
    requires AncestorAt(a, h) != AncestorAt(b, h) || (h + 1 == low && AncestorAt(a, low) != AncestorAt(b, low))
    ensures DifferAbove(a, b, h)
  {
    hide AncestorAt;
    forall j: nat | h < j <= a.height && j <= b.height ensures AncestorAt(a, j) != AncestorAt(b, j) {
      if AncestorAt(a, j) == AncestorAt(b, j) { EqualBelow(a, b, j, h); }
    }
  }

  /** Equal at one height means equal at all lower ones. */
  lemma EqualBelow(a: BlockIndex, b: BlockIndex, h: nat, j: nat)
    requires Rooted(a) && Rooted(b) && j <= h <= a.height && h <= b.height && AncestorAt(a, h) == AncestorAt(b, h)
    ensures AncestorAt(a, j) == AncestorAt(b, j)
  {
    AncestorOfAncestor(a, h, j);
    AncestorOfAncestor(b, h, j);
  }

  /** `x` and `y` are where the search from `a` and `b` has come to: equally high, and the two differ
      everywhere above. */
  ghost predicate Searching(a: BlockIndex, b: BlockIndex, x: BlockIndex, y: BlockIndex) {
    && Rooted(a) && Rooted(b) && x.height == y.height <= a.height && y.height <= b.height
    && x == AncestorAt(a, x.height) && y == AncestorAt(b, y.height)
    && DifferAbove(a, b, x.height)
  }

  lemma StartSearch(a: BlockIndex, b: BlockIndex, x: BlockIndex, y: BlockIndex)
    requires Rooted(a) && Rooted(b)
    requires var h := if a.height > b.height then b.height else a.height; x == AncestorAt(a, h) && y == AncestorAt(b, h)
    ensures Searching(a, b, x, y)
  {
  }

  lemma SelfAncestor(b: BlockIndex)
    requires Rooted(b)
    ensures AncestorAt(b, b.height) == b
  {
  }

  lemma SearchSkip(tree: set<BlockIndex>, a: BlockIndex, b: BlockIndex, x: BlockIndex, y: BlockIndex)
    requires Skips(tree) && OneGenesis(tree) && x in tree && y in tree && Searching(a, b, x, y) && x.skip != y.skip
    ensures x.skip != null && y.skip != null && x.skip in tree && y.skip in tree && x.skip.height < x.height
    ensures Searching(a, b, x.skip, y.skip)
  {
    assert x.prev != null && y.prev != null;
    var m := GetSkip(x);
    AncestorOfAncestor(a, x.height, m);
    AncestorOfAncestor(b, y.height, m);
    AncestorIn(tree, x, m);
    AncestorIn(tree, y, m);
    hide AncestorAt, DifferAbove;
    DifferLower(a, b, x.height, m);
  }

  lemma SearchPrev(tree: set<BlockIndex>, a: BlockIndex, b: BlockIndex, x: BlockIndex, y: BlockIndex)
    requires Skips(tree) && OneGenesis(tree) && x in tree && y in tree && Searching(a, b, x, y) && x != y
    ensures x.prev != null && y.prev != null && x.prev in tree && y.prev in tree && Searching(a, b, x.prev, y.prev)
  {
    hide AncestorAt, DifferAbove;
    assert x.prev != null && y.prev != null;
    PrevIs(a, x);
    PrevIs(b, y);
    DifferLower(a, b, x.height, x.height - 1);
  }

  lemma PrevIs(b: BlockIndex, x: BlockIndex)
    requires Rooted(b) && x.height <= b.height && x == AncestorAt(b, x.height) && x.prev != null
    ensures x.prev == AncestorAt(b, x.prev.height) && x.height == x.prev.height + 1
  {
    AncestorOfAncestor(b, x.height, x.height - 1);
  }

  /** The last common ancestor of two blocks. */
  method LastCommonAncestor(a: BlockIndex, b: BlockIndex, ghost tree: set<BlockIndex>) returns (c: BlockIndex)
    requires Skips(tree) && OneGenesis(tree) && a in tree && b in tree
    ensures c in tree && IsFork(a, b, c)
  {
    hide AncestorAt, DifferAbove;
    var x, y := a, b;
    if a.height > b.height {
      x := GetAncestor(a, b.height, tree);
    } else if b.height > a.height {
      y := GetAncestor(b, a.height, tree);
    }
    SelfAncestor(a);
    SelfAncestor(b);
    StartSearch(a, b, x, y);
    while x != y
      invariant x in tree && y in tree && Searching(a, b, x, y)
      decreases x.height
    {
      ghost var top := x.height;
      while x.skip != y.skip
        invariant x in tree && y in tree && Searching(a, b, x, y) && x != y && x.height <= top
        decreases x.height
      {
        SearchSkip(tree, a, b, x, y);
        x, y := x.skip, y.skip;
      }
      SearchPrev(tree, a, b, x, y);
      x, y := x.prev, y.prev;
    }
    c := x;
  }

  // ---- The active chain

  class Chain {
    var blocks: seq<BlockIndex>

    ghost predicate Valid()
      reads this
    {
      blocks != [] ==>
        var tip := blocks[|blocks| - 1];
        Rooted(tip) && tip.height == |blocks| - 1 && forall h | 0 <= h < |blocks| :: blocks[h] == AncestorAt(tip, h)
    }

    constructor ()
      ensures Valid() && blocks == []
    {
      blocks := [];
    }

    predicate Contains(b: BlockIndex)
      reads this
    {
      b.height < |blocks| && blocks[b.height] == b
    }

    /** Make `b` the tip, changing only the blocks that differ. */
    method SetTip(b: BlockIndex)
      requires Valid() && Rooted(b)
      modifies this
      ensures Valid() && |blocks| == b.height + 1 && blocks[b.height] == b
    {
      ghost var before := blocks;
      var resized: seq<BlockIndex?> := if b.height + 1 <= |blocks| then blocks[..b.height + 1]
          else blocks + seq(b.height + 1 - |blocks|, i => null);
      var p: BlockIndex? := b;
      while p != null && resized[p.height] != p
        invariant |resized| == b.height + 1
        invariant p != null ==> Rooted(p) && p.height <= b.height && p == AncestorAt(b, p.height)
        invariant forall h: nat | (p == null || p.height < h) && h <= b.height :: resized[h] == AncestorAt(b, h)
        invariant p != null ==> forall h: nat | h <= p.height && h < |before| :: resized[h] == before[h]
        invariant p != null ==> forall h: nat | |before| <= h <= p.height :: resized[h] == null
        decreases if p == null then 0 else p.height + 1
      {
        resized := resized[p.height := p];
        if p.prev != null { AncestorOfAncestor(b, p.height, p.height - 1); }
        p := p.prev;
      }
      if p != null {
        RestAgrees(before, b, p);
      }
      assert forall h | 0 <= h < |resized| :: resized[h] == AncestorAt(b, h);
      blocks := seq(b.height + 1, h requires 0 <= h < |resized| && resized[h] != null => resized[h]);
    }

    /** The last block of the chain that is an ancestor of `b`, or the block itself. */
    method FindFork(b: BlockIndex, ghost tree: set<BlockIndex>) returns (c: BlockIndex?)
      requires Valid() && Skips(tree) && OneGenesis(tree) && b in tree
               && (blocks != [] ==> blocks[|blocks| - 1] in tree)
      ensures c == null <==> blocks == []
      ensures c != null ==> Contains(c) && IsFork(blocks[|blocks| - 1], b, c)
    {
      c := b;
      if b.height > |blocks| - 1 {
        c := GetAncestor(b, |blocks| - 1, tree);
      }
      if blocks == [] {
        return;
      }
      ghost var tip := blocks[|blocks| - 1];
      while c != null && !Contains(c)
        invariant c != null && c in tree && Descending(tip, b, c)
        decreases if c == null then 0 else c.height + 1
      {
        DescendPrev(tree, tip, b, c);
        c := c.prev;
      }
    }
  }

  /** `c` is the ancestor of `b` the search has come to; above it, `b` and `tip` differ. */
  ghost predicate Descending(tip: BlockIndex, b: BlockIndex, c: BlockIndex) {
    && Rooted(tip) && Rooted(b) && c.height <= b.height && c.height <= tip.height && c == AncestorAt(b, c.height)
    && DifferAbove(tip, b, c.height)
  }

  lemma DescendPrev(tree: set<BlockIndex>, tip: BlockIndex, b: BlockIndex, c: BlockIndex)
    requires Skips(tree) && OneGenesis(tree) && tip in tree && c in tree && Descending(tip, b, c)
             && AncestorAt(tip, c.height) != c
    ensures c.prev != null && c.prev in tree && c.prev.height < c.height && Descending(tip, b, c.prev)
  {
    hide AncestorAt, DifferAbove;
    SameGenesis(tree, tip, c);
    PrevIs(b, c);
    DifferLower(tip, b, c.height, c.height - 1);
  }

  lemma SameGenesis(tree: set<BlockIndex>, tip: BlockIndex, c: BlockIndex)
    requires Skips(tree) && OneGenesis(tree) && tip in tree && c in tree && c.height <= tip.height
             && AncestorAt(tip, c.height) != c
    ensures c.height > 0 && c.prev != null && c.prev in tree
  {
    AncestorIn(tree, tip, 0);
  }

  /** Where the old chain has the block, it has all its ancestors. */
  lemma RestAgrees(before: seq<BlockIndex>, b: BlockIndex, p: BlockIndex)
    requires Rooted(b) && p.height <= b.height && p == AncestorAt(b, p.height)
    requires before != [] && p.height < |before| && before[p.height] == p
    requires var tip := before[|before| - 1];
             Rooted(tip) && tip.height == |before| - 1
             && forall h | 0 <= h < |before| :: before[h] == AncestorAt(tip, h)
    ensures forall h: nat | h <= p.height :: before[h] == AncestorAt(b, h)
  {
    var tip := before[|before| - 1];
    forall h: nat | h <= p.height ensures before[h] == AncestorAt(b, h) {
      AncestorOfAncestor(tip, p.height, h);
      AncestorOfAncestor(b, p.height, h);
    }
  }

  // ---- Locators

  /** How far back the entry after `n` others is, unless that is past the start. */
  ghost function Back(n: nat): nat {
    if n <= 11 then n else 9 + Pow2(n - 10)
  }

  lemma BackNext(n: nat, step: nat)
    requires step == if n <= 10 then 1 else Pow2(n - 10)
    ensures Back(n + 1) == Back(n) + step
  {
    if n == 11 { assert Pow2(1) == 2 * Pow2(0); assert Pow2(2) == 2 * Pow2(1); }
  }

  ghost predicate IsAncestor(b: BlockIndex, x: BlockIndex) {
    Rooted(b) && x.height <= b.height && x == AncestorAt(b, x.height)
  }

  /** The entries go back from the block to its genesis, in steps that double after the tenth. */
  ghost predicate IsLocator(b: BlockIndex, have: seq<BlockIndex>) {
    && have != [] && have[0] == b && have[|have| - 1].height == 0
    && (forall i | 0 <= i < |have| :: IsAncestor(b, have[i]))
    && (forall i, j | 0 <= i < j < |have| :: have[i].height > have[j].height)
    && (forall i | 0 <= i < |have| - 1 :: have[i].height == b.height - Back(i))
  }

  /** A locator has at most logarithmically many entries. */
  lemma LocatorIsShort(b: BlockIndex, have: seq<BlockIndex>)
    requires IsLocator(b, have)
    ensures |have| >= 14 ==> Pow2(|have| - 12) + 9 < b.height
  {
    if |have| >= 14 {
      assert have[|have| - 2].height == b.height - Back(|have| - 2);
      assert have[|have| - 2].height > have[|have| - 1].height;
    }
  }

  /** While collecting: the entries so far, and the block to be added next. */
  ghost predicate Collecting(b: BlockIndex, have: seq<BlockIndex>, at: BlockIndex) {
    && IsAncestor(b, at) && (have == [] ==> at == b) && (have != [] ==> have[0] == b)
    && (forall i | 0 <= i < |have| :: IsEntry(b, have[i], i, at.height))
    && (at.height == 0 || at.height == b.height - Back(|have|))
  }

  ghost predicate IsEntry(b: BlockIndex, x: BlockIndex, i: nat, above: nat) {
    IsAncestor(b, x) && x.height > above && x.height == b.height - Back(i)
  }

  lemma {:induction false} BackGrows(i: nat, j: nat)
    requires i < j
    ensures Back(i) < Back(j)
    decreases j
  {
    hide Back, Pow2;
    var step := if j - 1 <= 10 then 1 else Pow2(j - 1 - 10);
    BackNext(j - 1, step);
    if i < j - 1 { BackGrows(i, j - 1); }
  }

  method LocatorEntries(b: BlockIndex?, ghost tree: set<BlockIndex>) returns (have: seq<BlockIndex>)
    requires Skips(tree) && (b != null ==> b in tree)
    ensures b == null ==> have == []
    ensures b != null ==> IsLocator(b, have)
  {
    hide AncestorAt, Pow2, Back, Collecting, IsLocator, Skips;
    var step := 1;
    have := [];
    if b == null {
      return;
    }
    TreeRooted(tree, b);
    CollectStart(b);
    var at := b;
    while true
      invariant at in tree && Collecting(b, have, at)
      invariant step == if |have| <= 10 then 1 else Pow2(|have| - 10)
      decreases at.height
    {
      if at.height == 0 {
        CollectDone(b, have, at);
        have := have + [at];
        return;
      }
      NextStep(|have| + 1, step);
      var height := if at.height - step > 0 then at.height - step else 0;
      var next := GetAncestor(at, height, tree);
      AncestorFurther(b, have, at, height);
      CollectNext(b, have, at, next, step);
      have := have + [at];
      at := next;
      if |have| > 10 { step := step * 2; }
    }
  }

  lemma TreeRooted(tree: set<BlockIndex>, b: BlockIndex)
    requires Skips(tree) && b in tree
    ensures Rooted(b)
  {
  }

  lemma CollectStart(b: BlockIndex)
    requires Rooted(b)
    ensures Collecting(b, [], b)
  {
  }

  lemma CollectDone(b: BlockIndex, have: seq<BlockIndex>, at: BlockIndex)
    requires Collecting(b, have, at) && at.height == 0
    ensures IsLocator(b, have + [at])
  {
    hide IsAncestor, Back;
    var all := have + [at];
    assert forall i | 0 <= i < |have| :: all[i] == have[i] && IsEntry(b, have[i], i, at.height);
    forall i, j | 0 <= i < j < |all| ensures all[i].height > all[j].height {
      BackGrows(i, j);
    }
  }

  lemma CollectNext(b: BlockIndex, have: seq<BlockIndex>, at: BlockIndex, next: BlockIndex, step: nat)
    requires Collecting(b, have, at) && at.height > 0 && step > 0
             && step == if |have| <= 10 then 1 else Pow2(|have| - 10)
    requires IsAncestor(b, next) && next.height == if at.height - step > 0 then at.height - step else 0
    ensures Collecting(b, have + [at], next)
  {
    hide IsAncestor, Back, Pow2;
    BackNext(|have|, step);
    var more := have + [at];
    forall i | 0 <= i < |more| ensures IsEntry(b, more[i], i, next.height) {
      if i < |have| { assert more[i] == have[i] && IsEntry(b, have[i], i, at.height); }
    }
  }

  lemma AncestorFurther(b: BlockIndex, have: seq<BlockIndex>, at: BlockIndex, h: nat)
    requires Collecting(b, have, at) && Rooted(at) && h <= at.height
    ensures IsAncestor(b, AncestorAt(at, h))
  {
    AncestorOfAncestor(b, at.height, h);
  }

  lemma NextStep(n: nat, step: nat)
    requires n > 0 && step == if n - 1 <= 10 then 1 else Pow2(n - 1 - 10)
    ensures (if n > 10 then step * 2 else step) == if n <= 10 then 1 else Pow2(n - 10)
  {
    if n == 11 { assert Pow2(1) == 2 * Pow2(0); }
  }
}
