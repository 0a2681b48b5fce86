/** The effect of activating and deactivating a dependency on the data structure: the
    representation invariant is kept, and the forest it stands for changes as intended. */
module ForestUpdates {
  import opened FeeFracs
  import opened Clusters
  import opened Forests
  import opened ForestData

  // ---- Activation

  ghost predicate CanActivate(d: Data, e: Dep) {
    && e.parent in d.tx && e.child in d.tx
    && e.child in d.tx[e.parent].children
    && d.tx[e.parent].chunk != d.tx[e.child].chunk
    && d.tx[e.parent].chunk < |d.sets| && d.tx[e.child].chunk < |d.sets| && |d.reach| == |d.sets|
  }

  /** What the traversal of the two chunks does to the top set of dependency `h`. */
  function Grown(info: SetInfo, end: nat, other: SetInfo): SetInfo {
    if end in info.txns then info.Plus(other) else info
  }

  ghost function GrownInfo(d: Data, e: Dep, h: Dep): SetInfo
    requires CanActivate(d, e) && HasTop(d, h)
  {
    var top, bottom := d.sets[d.tx[e.parent].chunk], d.sets[d.tx[e.child].chunk];
    var info := d.sets[TopIdx(d, h)];
    if h.parent in top.txns then Grown(info, e.parent, bottom)
    else if h.parent in bottom.txns then Grown(info, e.child, top)
    else info
  }

  ghost function ActivatedTx(d: Data, e: Dep, t: nat): TxData
    requires CanActivate(d, e) && t in d.tx
  {
    var ip, ic := d.tx[e.parent].chunk, d.tx[e.child].chunk;
    var x := if d.tx[t].chunk == ip then d.tx[t].(chunk := ic) else d.tx[t];
    if t == e.parent then x.(depTop := x.depTop[e.child := ip], activeChildren := x.activeChildren + {e.child}) else x
  }

  ghost predicate TxsActivated(d: Data, e: Dep, d': Data)
    requires CanActivate(d, e)
  {
    d'.tx.Keys == d.tx.Keys && (forall t | t in d.tx :: d'.tx[t] == ActivatedTx(d, e, t))
  }

  ghost predicate SetsActivated(d: Data, e: Dep, d': Data)
    requires CanActivate(d, e)
  {
    var ip, ic := d.tx[e.parent].chunk, d.tx[e.child].chunk;
    && |d'.sets| == |d.sets|
    && (forall h | HasTop(d, h) :: d'.sets[TopIdx(d, h)] == GrownInfo(d, e, h))
    && (forall i | i in d.chunkIdxs && i < |d.sets| && i != ic :: d'.sets[i] == d.sets[i])
    && d'.sets[ic] == d.sets[ic].Plus(d.sets[ip])
  }

  ghost predicate ReachActivated(d: Data, e: Dep, d': Data)
    requires CanActivate(d, e) && |d'.sets| == |d.sets|
  {
    var ip, ic := d.tx[e.parent].chunk, d.tx[e.child].chunk;
    && |d'.reach| == |d.reach|
    && (forall i | 0 <= i < |d.reach| && i != ic :: d'.reach[i] == d.reach[i])
    && d'.reach[ic] == Reach(d.reach[ic].up + d.reach[ip].up - d'.sets[ic].txns,
                             d.reach[ic].down + d.reach[ip].down - d'.sets[ic].txns)
  }

  ghost predicate IsActivated(d: Data, e: Dep, d': Data)
    requires CanActivate(d, e)
  {
    && d'.chunkIdxs == d.chunkIdxs - {d.tx[e.parent].chunk}
    && TxsActivated(d, e, d') && SetsActivated(d, e, d') && ReachActivated(d, e, d')
  }

  lemma ReachUnion(g: Cluster, p: set<nat>, c: set<nat>)
    ensures var rp, rc := ReachOf(g, p), ReachOf(g, c);
            ReachOf(g, p + c) == Reach(rc.up + rp.up - (c + p), rc.down + rp.down - (c + p))
  {
    assert Parents(g, p + c) == Parents(g, p) + Parents(g, c);
    assert Children(g, p + c) == Children(g, p) + Children(g, c);
    assert p + c == c + p;
    var rp, rc := ReachOf(g, p), ReachOf(g, c);
    assert ReachOf(g, p + c).up == rc.up + rp.up - (c + p);
    assert ReachOf(g, p + c).down == rc.down + rp.down - (c + p);
  }

  lemma ActivatedTxOk(g: Cluster, d: Data, e: Dep, d': Data)
    requires TxOk(g, d) && CanActivate(d, e) && IsActivated(d, e, d')
    ensures TxOk(g, d')
  {
    hide Cluster.Parents, Cluster.Children, SetsActivated, ReachActivated;
  }

  lemma ActivatedChunksOk(g: Cluster, d: Data, e: Dep, d': Data)
    requires TxOk(g, d) && ChunksOk(g, d) && CanActivate(d, e) && IsActivated(d, e, d')
    ensures ChunksOk(g, d')
  {
    hide Cluster.Parents, Cluster.Children, GrownInfo, ReachOf;
    var ip, ic := d.tx[e.parent].chunk, d.tx[e.child].chunk;
    ReachUnion(g, d.sets[ip].txns, d.sets[ic].txns);
    assert d.sets[ip].txns + d.sets[ic].txns == d'.sets[ic].txns;
  }

  lemma ActiveAfter(g: Cluster, d: Data, e: Dep, d': Data, h: Dep)
    requires TxOk(g, d) && TopsOk(d) && CanActivate(d, e) && IsActivated(d, e, d')
    ensures IsActive(d', h) <==> h == e || IsActive(d, h)
    ensures HasTop(d', e) && TopIdx(d', e) == d.tx[e.parent].chunk
    ensures IsActive(d, h) && h != e ==> HasTop(d', h) && HasTop(d, h) && TopIdx(d', h) == TopIdx(d, h)
  {
    hide Cluster.Parents, Cluster.Children, GrownInfo, ReachActivated;
  }

  lemma NotYetActive(g: Cluster, d: Data, e: Dep)
    requires RepOk(g, d) && CanActivate(d, e)
    ensures !IsActive(d, e)
    ensures View(g, d).CanActivate(g, e)
  {
    hide Cluster.FeeOf, Closed, Connected, IsTop, ReachOf;
    ViewTops(g, d);
    ViewChunks(g, d);
    assert e.child in g.Children(e.parent);
    ActivatedFresh(View(g, d), g, e);
  }

  lemma ActivatedTopsOk(g: Cluster, d: Data, e: Dep, d': Data)
    requires TxOk(g, d) && TopsOk(d) && CanActivate(d, e) && IsActivated(d, e, d') && !IsActive(d, e)
    ensures TopsOk(d')
  {
    hide IsActivated;
    var ip := d.tx[e.parent].chunk;
    assert d'.chunkIdxs == d.chunkIdxs - {ip} && |d'.sets| == |d.sets| && ip in d.chunkIdxs by {
      ActivatedIdxs(g, d, e, d');
    }
    forall h ensures IsActive(d', h) <==> h == e || IsActive(d, h)
      ensures HasTop(d', e) && TopIdx(d', e) == ip
      ensures IsActive(d, h) && h != e ==> HasTop(d', h) && HasTop(d, h) && TopIdx(d', h) == TopIdx(d, h)
    {
      ActiveAfter(g, d, e, d', h);
    }
    forall k | 0 <= k < |d'.sets| && k !in d'.chunkIdxs
      ensures exists h :: HasTop(d', h) && TopIdx(d', h) == k
    {
      if k == ip {
        assert HasTop(d', e) && TopIdx(d', e) == k;
      } else {
        var h :| HasTop(d, h) && TopIdx(d, h) == k;
        assert IsActive(d, h);
        assert HasTop(d', h) && TopIdx(d', h) == k;
      }
    }
  }

  lemma ActivatedIdxs(g: Cluster, d: Data, e: Dep, d': Data)
    requires TxOk(g, d) && CanActivate(d, e) && IsActivated(d, e, d')
    ensures d'.chunkIdxs == d.chunkIdxs - {d.tx[e.parent].chunk} && |d'.sets| == |d.sets|
            && d.tx[e.parent].chunk in d.chunkIdxs
  {
  }

  ghost predicate InfoOk(g: Cluster, info: SetInfo) {
    info.txns <= g.feerate.Keys && info.feerate == g.FeeOf(info.txns)
  }

  lemma GrownOk(g: Cluster, info: SetInfo, end: nat, other: SetInfo)
    requires InfoOk(g, info) && InfoOk(g, other) && info.txns !! other.txns
    ensures InfoOk(g, Grown(info, end, other))
  {
    hide Cluster.FeeOf;
    g.FeeOfUnion(info.txns, other.txns);
  }

  /** The grown top set, with its fee and size, is the top set in the merged forest. */
  lemma GrownInfoOk(g: Cluster, d: Data, e: Dep, h: Dep)
    requires RepOk(g, d) && CanActivate(d, e) && HasTop(d, h)
    ensures var f := View(g, d);
            && f.CanActivate(g, e) && h in f.top
            && GrownInfo(d, e, h).txns == f.GrownTop(e, f.Part(f.chunk[e.parent]), f.Part(f.chunk[e.child]), h)
            && InfoOk(g, GrownInfo(d, e, h))
  {
    hide Cluster.FeeOf, Forest.Valid, View, TxOk, ChunksOk, TopsOk, Forest.Part;
    ViewTops(g, d);
    ViewChunks(g, d);
    NotYetActive(g, d, e);
    var f := View(g, d);
    var ip, ic, k := d.tx[e.parent].chunk, d.tx[e.child].chunk, TopIdx(d, h);
    TopDisjoint(g, f, h);
    PartMember(f, h.parent, ip);
    PartMember(f, h.parent, ic);
    if f.chunk[h.parent] == ip {
      GrownOk(g, d.sets[k], e.parent, d.sets[ic]);
    } else if f.chunk[h.parent] == ic {
      GrownOk(g, d.sets[k], e.child, d.sets[ip]);
    }
  }

  lemma PartMember(f: Forest, t: nat, i: nat)
    requires t in f.chunk
    ensures t in f.Part(i) <==> f.chunk[t] == i
  {
  }

  lemma TopDisjoint(g: Cluster, f: Forest, h: Dep)
    requires f.Valid(g) && h in f.top
    ensures h.parent in f.chunk && f.top[h] <= f.Part(f.chunk[h.parent])
    ensures forall i | i != f.chunk[h.parent] :: f.top[h] !! f.Part(i)
  {
    hide Closed, Connected, IsTop;
  }

  lemma ChunkSetsDisjoint(g: Cluster, d: Data, i: nat, j: nat)
    requires TxOk(g, d) && ChunksOk(g, d) && SetsOk(g, d) && i in d.chunkIdxs && j in d.chunkIdxs && i != j
    ensures i < |d.sets| && j < |d.sets| && d.sets[i].txns !! d.sets[j].txns
  {
    hide Cluster.FeeOf, ReachOf, Cluster.Parents, Cluster.Children;
  }

  lemma ActivatedSet(g: Cluster, d: Data, e: Dep, d': Data, k: nat)
    requires RepOk(g, d) && CanActivate(d, e) && IsActivated(d, e, d') && k < |d.sets|
    ensures InfoOk(g, d'.sets[k])
  {
    hide Cluster.FeeOf, TxOk, ChunksOk, View, GrownInfo, TxsActivated, ReachActivated;
    var ip, ic := d.tx[e.parent].chunk, d.tx[e.child].chunk;
    ViewChunks(g, d);
    if k == ic {
      ChunkSetsDisjoint(g, d, ic, ip);
      g.FeeOfUnion(d.sets[ic].txns, d.sets[ip].txns);
    } else if k !in d.chunkIdxs {
      var h :| HasTop(d, h) && TopIdx(d, h) == k;
      GrownInfoOk(g, d, e, h);
    }
  }

  lemma ActivatedView(g: Cluster, d: Data, e: Dep, d': Data)
    requires RepOk(g, d) && CanActivate(d, e) && IsActivated(d, e, d')
    ensures View(g, d).CanActivate(g, e)
    ensures View(g, d') == View(g, d).Activated(e)
  {
    var f, f' := View(g, d), View(g, d').(chunk := View(g, d').chunk);
    NotYetActive(g, d, e);
    ActivatedTxOk(g, d, e, d');
    ActivatedTopsOk(g, d, e, d');
    ActivatedViewChunk(g, d, e, d');
    ActivatedViewTop(g, d, e, d');
  }

  lemma ActivatedViewChunk(g: Cluster, d: Data, e: Dep, d': Data)
    requires RepOk(g, d) && CanActivate(d, e) && IsActivated(d, e, d')
    ensures e.parent in View(g, d).chunk && e.child in View(g, d).chunk
    ensures View(g, d').chunk == View(g, d).Activated(e).chunk
  {
    hide Cluster.FeeOf, Forest.Valid, HasTop, View, TxOk, ChunksOk, SetsOk, TopsOk, SetsActivated, ReachActivated;
    ViewChunks(g, d);
    ViewChunk(g, d');
    var f := View(g, d);
    forall t | t in f.chunk
      ensures View(g, d').chunk[t] == f.Activated(e).chunk[t]
    {
      assert d'.tx[t] == ActivatedTx(d, e, t);
    }
  }

  lemma ActivatedViewTop(g: Cluster, d: Data, e: Dep, d': Data)
    requires RepOk(g, d) && CanActivate(d, e) && IsActivated(d, e, d') && !IsActive(d, e) && TxOk(g, d') && TopsOk(d')
    ensures e.parent in View(g, d).chunk && e.child in View(g, d).chunk
    ensures View(g, d').top == View(g, d).Activated(e).top
  {
    hide Cluster.FeeOf, Forest.Valid, GrownInfo, TxOk, TopsOk, ChunksOk, SetsOk, View, TxsActivated, ReachActivated;
    ViewChunk(g, d);
    ViewTops(g, d);
    ViewTops(g, d');
    var f, f' := View(g, d), View(g, d');
    forall h
      ensures h in f'.top <==> h in f.Activated(e).top
      ensures h in f'.top ==> f'.top[h] == f.Activated(e).top[h]
    {
      ActiveAfter(g, d, e, d', h);
      if h == e {
        NewTopView(g, d, e, d');
      } else if h in f.top {
        GrownInfoOk(g, d, e, h);
      }
    }
  }

  lemma NewTopView(g: Cluster, d: Data, e: Dep, d': Data)
    requires RepOk(g, d) && CanActivate(d, e) && IsActivated(d, e, d')
    ensures d'.sets[d.tx[e.parent].chunk].txns == View(g, d).Part(View(g, d).chunk[e.parent])
  {
    hide Cluster.FeeOf, ReachOf, Forest.Valid, GrownInfo, ActivatedTx, Forest.Part;
    ViewChunks(g, d);
  }

  /** Activation keeps the representation invariant and merges the two chunks. */
  lemma ActivatedRep(g: Cluster, d: Data, e: Dep, d': Data)
    requires RepOk(g, d) && CanActivate(d, e) && IsActivated(d, e, d')
    ensures View(g, d).CanActivate(g, e)
    ensures RepOk(g, d') && View(g, d') == View(g, d).Activated(e)
  {
    hide Cluster.FeeOf, TopsOk, ChunksOk, TxOk, View, IsActivated, Forest.Activated;
    NotYetActive(g, d, e);
    ActivatedTxOk(g, d, e, d');
    ActivatedChunksOk(g, d, e, d');
    ActivatedTopsOk(g, d, e, d');
    ActivatedView(g, d, e, d');
    ActivatedValid(View(g, d), g, e);
    ActivatedIdxs(g, d, e, d');
    forall k | 0 <= k < |d'.sets|
      ensures InfoOk(g, d'.sets[k])
    {
      ActivatedSet(g, d, e, d', k);
    }
  }

  // ---- The traversal during activation

  /** The records of the transactions in `done` point to the merged chunk. */
  ghost predicate TxsMoved(d: Data, to: nat, done: set<nat>, tx: map<nat, TxData>) {
    && tx.Keys == d.tx.Keys
    && forall t | t in tx :: tx[t] == if t in done then d.tx[t].(chunk := to) else d.tx[t]
  }

  /** The top sets of the dependencies of `done` have grown, all others are as before. */
  ghost predicate SetsGrown(d: Data, e: Dep, done: set<nat>, sets: seq<SetInfo>)
    requires CanActivate(d, e)
  {
    && |sets| == |d.sets|
    && (forall h | HasTop(d, h) ::
        sets[TopIdx(d, h)] == if h.parent in done then GrownInfo(d, e, h) else d.sets[TopIdx(d, h)])
    && (forall i | i in d.chunkIdxs && i < |d.sets| :: sets[i] == d.sets[i])
  }

  /** The active dependencies of a transaction have their own entries in the table of sets. */
  ghost predicate OwnTops(x: TxData, n: nat) {
    && (forall c | c in x.activeChildren :: c in x.depTop && x.depTop[c] < n)
    && (forall c, c' | c in x.activeChildren && c' in x.activeChildren && x.depTop[c] == x.depTop[c'] :: c == c')
  }

  /** Only the top sets of one transaction's dependencies have changed, to `change` of before. */
  ghost predicate ChangedAt(x: TxData, sets: seq<SetInfo>, sets': seq<SetInfo>, change: SetInfo -> SetInfo)
    requires OwnTops(x, |sets|)
  {
    && |sets'| == |sets|
    && (forall c | c in x.activeChildren :: sets'[x.depTop[c]] == change(sets[x.depTop[c]]))
    && (forall k | 0 <= k < |sets| && (forall c | c in x.activeChildren :: x.depTop[c] != k) :: sets'[k] == sets[k])
  }

  lemma HasOwnTops(d: Data, t: nat)
    requires TopsOk(d) && t in d.tx
    ensures OwnTops(d.tx[t], |d.sets|)
    ensures forall c | c in d.tx[t].activeChildren :: HasTop(d, Dep(t, c)) && TopIdx(d, Dep(t, c)) == d.tx[t].depTop[c]
  {
    forall c | c in d.tx[t].activeChildren
      ensures HasTop(d, Dep(t, c)) && TopIdx(d, Dep(t, c)) == d.tx[t].depTop[c]
    {
      assert IsActive(d, Dep(t, c));
    }
  }

  /** Only the dependencies of `t` have their top sets among the entries of `t`. */
  lemma ChangedElsewhere(d: Data, t: nat, sets: seq<SetInfo>, sets': seq<SetInfo>, change: SetInfo -> SetInfo, k: nat)
    requires TopsOk(d) && t in d.tx && |sets| == |d.sets| && k < |sets|
    requires OwnTops(d.tx[t], |sets|) && ChangedAt(d.tx[t], sets, sets', change)
    requires k in d.chunkIdxs || exists h :: HasTop(d, h) && TopIdx(d, h) == k && h.parent != t
    ensures sets'[k] == sets[k]
  {
    forall c | c in d.tx[t].activeChildren ensures d.tx[t].depTop[c] != k {
      HasOwnTops(d, t);
      if k !in d.chunkIdxs {
        var h :| HasTop(d, h) && TopIdx(d, h) == k && h.parent != t;
        assert HasTop(d, Dep(t, c));
      }
    }
  }

  lemma SetsUngrown(d: Data, e: Dep)
    requires CanActivate(d, e)
    ensures SetsGrown(d, e, {}, d.sets)
  {
  }

  lemma GrowStep(d: Data, e: Dep, done: set<nat>, t: nat, x: TxData, end: nat, other: SetInfo, sets: seq<SetInfo>,
                 sets': seq<SetInfo>)
    requires TopsOk(d) && CanActivate(d, e) && t in d.tx && t !in done && SetsGrown(d, e, done, sets)
    requires x.depTop == d.tx[t].depTop && x.activeChildren == d.tx[t].activeChildren
    requires OwnTops(x, |sets|) && ChangedAt(x, sets, sets', info => Grown(info, end, other))
    requires forall h | HasTop(d, h) && h.parent == t :: GrownInfo(d, e, h) == Grown(d.sets[TopIdx(d, h)], end, other)
    ensures SetsGrown(d, e, done + {t}, sets')
  {
    hide TopsOk, GrownInfo, CanActivate;
    assert OwnTops(d.tx[t], |sets|) && ChangedAt(d.tx[t], sets, sets', info => Grown(info, end, other));
    forall h | HasTop(d, h)
      ensures sets'[TopIdx(d, h)] == if h.parent in done + {t} then GrownInfo(d, e, h) else d.sets[TopIdx(d, h)]
    {
      if h.parent == t {
        assert h == Dep(t, h.child);
        HasOwnTops(d, t);
      } else {
        ChangedElsewhere(d, t, sets, sets', info => Grown(info, end, other), TopIdx(d, h));
      }
    }
    forall i | i in d.chunkIdxs && i < |d.sets| ensures sets'[i] == d.sets[i] {
      ChangedElsewhere(d, t, sets, sets', info => Grown(info, end, other), i);
    }
  }

  lemma BottomApart(g: Cluster, d: Data, e: Dep)
    requires RepOk(g, d) && CanActivate(d, e)
    ensures d.sets[d.tx[e.parent].chunk].txns !! d.sets[d.tx[e.child].chunk].txns
  {
    hide RepOk;
    ChunkRange(g, d, e);
  }

  lemma NotMoved(d: Data, to: nat, done: set<nat>, tx: map<nat, TxData>, t: nat)
    requires TxsMoved(d, to, done, tx) && t in d.tx && t !in done
    ensures t in tx && tx[t] == d.tx[t]
  {
  }

  lemma GrownSizes(d: Data, e: Dep, top: set<nat>, bottom: set<nat>, tx: map<nat, TxData>, sets: seq<SetInfo>)
    requires CanActivate(d, e) && TxsMoved(d, d.tx[e.child].chunk, top, tx) && SetsGrown(d, e, top + bottom, sets)
    ensures tx.Keys == d.tx.Keys && |sets| == |d.sets|
  {
  }

  lemma ChunkRange(g: Cluster, d: Data, e: Dep)
    requires RepOk(g, d) && CanActivate(d, e)
    ensures var ip, ic := d.tx[e.parent].chunk, d.tx[e.child].chunk;
            && ip in d.chunkIdxs && ic in d.chunkIdxs
            && d.sets[ip].txns <= d.tx.Keys && d.sets[ic].txns <= d.tx.Keys && d.sets[ip].txns !! d.sets[ic].txns
            && (forall t | t in d.tx :: t in d.sets[ip].txns <==> d.tx[t].chunk == ip)
  {
    hide Cluster.FeeOf, View, TopsOk, ReachOf, Cluster.Parents, Cluster.Children;
  }

  lemma OwnChunks(g: Cluster, d: Data, e: Dep)
    requires RepOk(g, d) && CanActivate(d, e)
    ensures d.tx[e.parent].chunk in d.chunkIdxs && d.tx[e.child].chunk in d.chunkIdxs
    ensures e.parent in d.sets[d.tx[e.parent].chunk].txns
  {
    hide RepOk;
    ChunkRange(g, d, e);
  }

  /** The traversal of the parent's chunk handles the dependencies of `t`. */
  lemma TopTraversal(g: Cluster, d: Data, e: Dep, done: set<nat>, t: nat, sets: seq<SetInfo>)
    requires RepOk(g, d) && CanActivate(d, e) && t in d.sets[d.tx[e.parent].chunk].txns && SetsGrown(d, e, done, sets)
    ensures t in d.tx && OwnTops(d.tx[t], |sets|) && TopsOk(d)
    ensures forall h | HasTop(d, h) && h.parent == t ::
              GrownInfo(d, e, h) == Grown(d.sets[TopIdx(d, h)], e.parent, d.sets[d.tx[e.child].chunk])
  {
    hide TxOk, ChunksOk, SetsOk, TopsOk, View, Forest.Valid;
    ChunkRange(g, d, e);
    HasOwnTops(d, t);
  }

  lemma BottomTraversal(g: Cluster, d: Data, e: Dep, done: set<nat>, t: nat, sets: seq<SetInfo>)
    requires RepOk(g, d) && CanActivate(d, e) && t in d.sets[d.tx[e.child].chunk].txns && SetsGrown(d, e, done, sets)
    ensures t !in d.sets[d.tx[e.parent].chunk].txns
    ensures t in d.tx && OwnTops(d.tx[t], |sets|) && TopsOk(d)
    ensures forall h | HasTop(d, h) && h.parent == t ::
              GrownInfo(d, e, h) == Grown(d.sets[TopIdx(d, h)], e.child, d.sets[d.tx[e.parent].chunk])
  {
    hide TxOk, ChunksOk, SetsOk, TopsOk, View, Forest.Valid;
    ChunkRange(g, d, e);
    HasOwnTops(d, t);
  }

  /** After both traversals, the remaining updates complete the activation. */
  lemma Traversed(g: Cluster, d: Data, e: Dep, tx: map<nat, TxData>, sets: seq<SetInfo>, d': Data)
    requires RepOk(g, d) && CanActivate(d, e)
    requires var ip, ic := d.tx[e.parent].chunk, d.tx[e.child].chunk;
             && TxsMoved(d, ic, d.sets[ip].txns, tx) && SetsGrown(d, e, d.sets[ip].txns + d.sets[ic].txns, sets)
             && d'.chunkIdxs == d.chunkIdxs - {ip}
             && d'.tx == tx[e.parent := tx[e.parent].(depTop := tx[e.parent].depTop[e.child := ip],
                                                      activeChildren := tx[e.parent].activeChildren + {e.child})]
             && d'.sets == sets[ic := d.sets[ic].Plus(d.sets[ip])]
             && ReachActivated(d, e, d')
    ensures IsActivated(d, e, d')
  {
    hide TxOk, ChunksOk, SetsOk, View, Forest.Valid;
    ChunkRange(g, d, e);
  }

  // ---- Deactivation

  ghost predicate CanDeactivate(d: Data, e: Dep) {
    && HasTop(d, e) && d.tx[e.parent].chunk < |d.sets| && |d.reach| == |d.sets|
    && TopIdx(d, e) != d.tx[e.parent].chunk
  }

  function Shrunk(info: SetInfo, end: nat, other: SetInfo): SetInfo {
    if end in info.txns then info.Minus(other) else info
  }

  ghost function ShrunkInfo(d: Data, e: Dep, h: Dep): SetInfo
    requires CanDeactivate(d, e) && HasTop(d, h)
  {
    var top := d.sets[TopIdx(d, e)];
    var bottom := d.sets[d.tx[e.parent].chunk].Minus(top);
    var info := d.sets[TopIdx(d, h)];
    if h.parent in top.txns then Shrunk(info, e.parent, bottom)
    else if h.parent in bottom.txns then Shrunk(info, e.child, top)
    else info
  }

  ghost function DeactivatedTx(d: Data, e: Dep, t: nat): TxData
    requires CanDeactivate(d, e) && t in d.tx
  {
    var x := if t in d.sets[TopIdx(d, e)].txns then d.tx[t].(chunk := TopIdx(d, e)) else d.tx[t];
    if t == e.parent then x.(activeChildren := x.activeChildren - {e.child}) else x
  }

  ghost predicate TxsDeactivated(d: Data, e: Dep, d': Data)
    requires CanDeactivate(d, e)
  {
    d'.tx.Keys == d.tx.Keys && (forall t | t in d.tx :: d'.tx[t] == DeactivatedTx(d, e, t))
  }

  ghost predicate SetsDeactivated(d: Data, e: Dep, d': Data)
    requires CanDeactivate(d, e)
  {
    var ip, ic := TopIdx(d, e), d.tx[e.parent].chunk;
    && |d'.sets| == |d.sets|
    && (forall h | HasTop(d, h) && h != e :: d'.sets[TopIdx(d, h)] == ShrunkInfo(d, e, h))
    && (forall i | i in d.chunkIdxs && i < |d.sets| && i != ic :: d'.sets[i] == d.sets[i])
    && d'.sets[ip] == d.sets[ip]
    && d'.sets[ic] == d.sets[ic].Minus(d.sets[ip])
  }

  ghost predicate ReachDeactivated(g: Cluster, d: Data, e: Dep, d': Data)
    requires CanDeactivate(d, e) && |d'.sets| == |d.sets|
  {
    var ip, ic := TopIdx(d, e), d.tx[e.parent].chunk;
    && |d'.reach| == |d.reach|
    && (forall i | 0 <= i < |d.reach| && i != ic && i != ip :: d'.reach[i] == d.reach[i])
    && d'.reach[ic] == ReachOf(g, d'.sets[ic].txns)
    && d'.reach[ip] == ReachOf(g, d'.sets[ip].txns)
  }

  ghost predicate IsDeactivated(g: Cluster, d: Data, e: Dep, d': Data)
    requires CanDeactivate(d, e)
  {
    && d'.chunkIdxs == d.chunkIdxs + {TopIdx(d, e)}
    && TxsDeactivated(d, e, d') && SetsDeactivated(d, e, d') && ReachDeactivated(g, d, e, d')
  }

  /** The view of the dependency to be deactivated. */
  lemma DeactivateView(g: Cluster, d: Data, e: Dep)
    requires RepOk(g, d) && HasTop(d, e)
    ensures CanDeactivate(d, e)
    ensures View(g, d).CanDeactivate(e, TopIdx(d, e))
    ensures e in g.deps
    ensures View(g, d).top[e] == d.sets[TopIdx(d, e)].txns
    ensures View(g, d).top[e] < View(g, d).Part(d.tx[e.parent].chunk)
    ensures View(g, d).Part(d.tx[e.parent].chunk) == d.sets[d.tx[e.parent].chunk].txns
    ensures e.parent in d.sets[TopIdx(d, e)].txns
    ensures View(g, d).chunk[e.parent] == d.tx[e.parent].chunk
  {
    hide Cluster.FeeOf, Closed, Connected, IsTop, ReachOf, View, Forest.Part, Forest.Valid;
    ViewTops(g, d);
    ViewChunks(g, d);
    assert IsActive(d, e);
    DepInGraph(g, d, e);
    DeactivatedSides(View(g, d), g, e);
    TopEnds(View(g, d).Active(), e, View(g, d).top[e]);
  }

  lemma TopEnds(a: set<Dep>, e: Dep, t: set<nat>)
    requires IsTop(a, e, t)
    ensures e.parent in t && e.child !in t
  {
  }

  lemma DepInGraph(g: Cluster, d: Data, e: Dep)
    requires TxOk(g, d) && IsActive(d, e)
    ensures e in g.deps
  {
    assert e.child in g.Children(e.parent);
  }

  lemma DeactivatedTxOk(g: Cluster, d: Data, e: Dep, d': Data)
    requires TxOk(g, d) && CanDeactivate(d, e) && IsDeactivated(g, d, e, d')
    ensures TxOk(g, d')
  {
    hide Cluster.Parents, Cluster.Children, SetsDeactivated, ReachDeactivated;
  }

  lemma DeactivatedChunksOk(g: Cluster, d: Data, e: Dep, d': Data)
    requires TxOk(g, d) && ChunksOk(g, d) && CanDeactivate(d, e) && IsDeactivated(g, d, e, d')
    requires TopIdx(d, e) !in d.chunkIdxs && {} < d.sets[TopIdx(d, e)].txns < d.sets[d.tx[e.parent].chunk].txns
    ensures ChunksOk(g, d')
  {
    hide Cluster.Parents, Cluster.Children, ShrunkInfo, ReachOf;
    var ip, ic := TopIdx(d, e), d.tx[e.parent].chunk;
    forall i | i in d'.chunkIdxs
      ensures i < |d'.sets| && d'.sets[i].txns != {}
      ensures forall t | t in d'.tx :: t in d'.sets[i].txns <==> d'.tx[t].chunk == i
      ensures d'.reach[i] == ReachOf(g, d'.sets[i].txns)
    {
      if i == ip {
      } else if i == ic {
      } else {
      }
    }
  }

  lemma ActiveAfterDeactivate(g: Cluster, d: Data, e: Dep, d': Data, h: Dep)
    requires TxOk(g, d) && TopsOk(d) && CanDeactivate(d, e) && IsDeactivated(g, d, e, d')
    ensures IsActive(d', h) <==> h != e && IsActive(d, h)
    ensures IsActive(d', h) ==> HasTop(d', h) && HasTop(d, h) && TopIdx(d', h) == TopIdx(d, h)
  {
    hide Cluster.Parents, Cluster.Children, ShrunkInfo, ReachDeactivated;
  }

  lemma DeactivatedIdxs(g: Cluster, d: Data, e: Dep, d': Data)
    requires CanDeactivate(d, e) && IsDeactivated(g, d, e, d')
    ensures d'.chunkIdxs == d.chunkIdxs + {TopIdx(d, e)} && |d'.sets| == |d.sets|
  {
  }

  lemma DeactivatedTopsOk(g: Cluster, d: Data, e: Dep, d': Data)
    requires TxOk(g, d) && TopsOk(d) && CanDeactivate(d, e) && IsDeactivated(g, d, e, d')
    ensures TopsOk(d')
  {
    hide IsDeactivated;
    DeactivatedIdxs(g, d, e, d');
    forall h
      ensures IsActive(d', h) <==> h != e && IsActive(d, h)
      ensures IsActive(d', h) ==> HasTop(d', h) && HasTop(d, h) && TopIdx(d', h) == TopIdx(d, h)
    {
      ActiveAfterDeactivate(g, d, e, d', h);
    }
    forall k | 0 <= k < |d'.sets| && k !in d'.chunkIdxs
      ensures exists h :: HasTop(d', h) && TopIdx(d', h) == k
    {
      var h :| HasTop(d, h) && TopIdx(d, h) == k;
      assert IsActive(d', h);
      assert HasTop(d', h) && TopIdx(d', h) == k;
    }
  }

  lemma ShrunkOk(g: Cluster, info: SetInfo, end: nat, other: SetInfo)
    requires InfoOk(g, info) && InfoOk(g, other) && (end in info.txns ==> other.txns <= info.txns)
    ensures InfoOk(g, Shrunk(info, end, other))
  {
    hide Cluster.FeeOf;
    if end in info.txns {
      g.FeeOfUnion(info.txns - other.txns, other.txns);
      assert info.txns - other.txns + other.txns == info.txns;
    }
  }

  lemma MinusOk(g: Cluster, info: SetInfo, other: SetInfo)
    requires InfoOk(g, info) && InfoOk(g, other) && other.txns <= info.txns
    ensures InfoOk(g, info.Minus(other))
  {
    hide Cluster.FeeOf;
    g.FeeOfUnion(info.txns - other.txns, other.txns);
    assert info.txns - other.txns + other.txns == info.txns;
  }

  /** The shrunk top set, with its fee and size, is the top set in the split forest. */
  lemma ShrunkInfoOk(g: Cluster, d: Data, e: Dep, h: Dep)
    requires RepOk(g, d) && CanDeactivate(d, e) && HasTop(d, h) && h != e
    ensures var f := View(g, d);
            && e in f.top && h in f.top && e.parent in f.chunk
            && ShrunkInfo(d, e, h).txns == f.ShrunkTop(e, f.top[e], f.Part(f.chunk[e.parent]) - f.top[e], h)
            && InfoOk(g, ShrunkInfo(d, e, h))
  {
    hide Cluster.FeeOf, Forest.Valid, View, TxOk, ChunksOk, TopsOk, Forest.Part;
    ViewTops(g, d);
    ViewChunks(g, d);
    DeactivateView(g, d, e);
    var f := View(g, d);
    DeactivatedTopOf(f, g, e, h);
    var top, info := d.sets[TopIdx(d, e)], d.sets[TopIdx(d, h)];
    var bottom := d.sets[d.tx[e.parent].chunk].Minus(top);
    MinusOk(g, d.sets[d.tx[e.parent].chunk], top);
    if h.parent in top.txns {
      ShrunkOk(g, info, e.parent, bottom);
    } else if h.parent in bottom.txns {
      ShrunkOk(g, info, e.child, top);
    }
  }

  lemma DeactivatedSet(g: Cluster, d: Data, e: Dep, d': Data, k: nat)
    requires RepOk(g, d) && CanDeactivate(d, e) && IsDeactivated(g, d, e, d') && k < |d.sets|
    ensures InfoOk(g, d'.sets[k])
  {
    hide Cluster.FeeOf, TxOk, ChunksOk, View, ShrunkInfo, TxsDeactivated, ReachDeactivated;
    var ip, ic := TopIdx(d, e), d.tx[e.parent].chunk;
    DeactivateView(g, d, e);
    if k == ic {
      MinusOk(g, d.sets[ic], d.sets[ip]);
    } else if k !in d.chunkIdxs && k != ip {
      var h :| HasTop(d, h) && TopIdx(d, h) == k;
      ShrunkInfoOk(g, d, e, h);
    }
  }

  lemma DeactivatedViewChunk(g: Cluster, d: Data, e: Dep, d': Data)
    requires RepOk(g, d) && CanDeactivate(d, e) && IsDeactivated(g, d, e, d')
    ensures e in View(g, d).top && e.parent in View(g, d).chunk
    ensures View(g, d').chunk == View(g, d).Deactivated(e, TopIdx(d, e)).chunk
  {
    hide Cluster.FeeOf, Forest.Valid, View, TxOk, ChunksOk, SetsOk, TopsOk, SetsDeactivated, ReachDeactivated;
    DeactivateView(g, d, e);
    ViewChunk(g, d);
    ViewChunk(g, d');
    var f := View(g, d);
    forall t | t in f.chunk
      ensures View(g, d').chunk[t] == f.Deactivated(e, TopIdx(d, e)).chunk[t]
    {
      assert d'.tx[t] == DeactivatedTx(d, e, t);
    }
  }

  lemma DeactivatedViewTop(g: Cluster, d: Data, e: Dep, d': Data)
    requires RepOk(g, d) && CanDeactivate(d, e) && IsDeactivated(g, d, e, d') && TxOk(g, d') && TopsOk(d')
    ensures e in View(g, d).top && e.parent in View(g, d).chunk
    ensures View(g, d').top == View(g, d).Deactivated(e, TopIdx(d, e)).top
  {
    hide Cluster.FeeOf, Forest.Valid, ShrunkInfo, TxOk, TopsOk, ChunksOk, SetsOk, View, TxsDeactivated,
         ReachDeactivated;
    DeactivateView(g, d, e);
    ViewTops(g, d);
    ViewTops(g, d');
    var f, f' := View(g, d), View(g, d');
    var f1 := f.Deactivated(e, TopIdx(d, e));
    forall h
      ensures h in f'.top <==> h in f1.top
      ensures h in f'.top ==> f'.top[h] == f1.top[h]
    {
      ActiveAfterDeactivate(g, d, e, d', h);
      if h in f1.top {
        ShrunkInfoOk(g, d, e, h);
      }
    }
  }

  /** Deactivation keeps the representation invariant and splits the chunk. */
  lemma DeactivatedRep(g: Cluster, d: Data, e: Dep, d': Data)
    requires RepOk(g, d) && CanDeactivate(d, e) && IsDeactivated(g, d, e, d')
    ensures View(g, d).CanDeactivate(e, TopIdx(d, e))
    ensures RepOk(g, d') && View(g, d') == View(g, d).Deactivated(e, TopIdx(d, e))
  {
    hide Cluster.FeeOf, ChunksOk, TxOk, View, IsDeactivated, Forest.Deactivated, Forest.Valid;
    DeactivateView(g, d, e);
    DeactivatedTxOk(g, d, e, d');
    DeactivatedChunksOk(g, d, e, d');
    DeactivatedTopsOk(g, d, e, d');
    DeactivatedViewChunk(g, d, e, d');
    DeactivatedViewTop(g, d, e, d');
    DeactivatedValid(View(g, d), g, e, TopIdx(d, e));
    DeactivatedIdxs(g, d, e, d');
    forall k | 0 <= k < |d'.sets|
      ensures InfoOk(g, d'.sets[k])
    {
      DeactivatedSet(g, d, e, d', k);
    }
  }

  // ---- The traversal during deactivation

  /** The data structure with the dependency marked inactive, before the traversal. */
  ghost function Cut(d: Data, e: Dep): Data
    requires CanDeactivate(d, e)
  {
    var ip, ic := TopIdx(d, e), d.tx[e.parent].chunk;
    Data(d.chunkIdxs + {ip},
         d.tx[e.parent := d.tx[e.parent].(activeChildren := d.tx[e.parent].activeChildren - {e.child})],
         d.sets[ic := d.sets[ic].Minus(d.sets[ip])],
         d.reach)
  }

  lemma CutActive(d: Data, e: Dep, h: Dep)
    requires CanDeactivate(d, e)
    ensures IsActive(Cut(d, e), h) <==> h != e && IsActive(d, h)
    ensures HasTop(Cut(d, e), h) <==> h != e && HasTop(d, h)
    ensures HasTop(Cut(d, e), h) ==> TopIdx(Cut(d, e), h) == TopIdx(d, h)
  {
  }

  lemma CutTopsOk(d: Data, e: Dep)
    requires TopsOk(d) && CanDeactivate(d, e)
    ensures TopsOk(Cut(d, e))
  {
    hide Cut;
    var d1 := Cut(d, e);
    assert d1.chunkIdxs == d.chunkIdxs + {TopIdx(d, e)} && |d1.sets| == |d.sets| by { CutShape(d, e); }
    forall h
      ensures IsActive(d1, h) <==> h != e && IsActive(d, h)
      ensures HasTop(d1, h) <==> h != e && HasTop(d, h)
      ensures HasTop(d1, h) ==> TopIdx(d1, h) == TopIdx(d, h)
    {
      CutActive(d, e, h);
    }
    forall k | 0 <= k < |d1.sets| && k !in d1.chunkIdxs
      ensures exists h :: HasTop(d1, h) && TopIdx(d1, h) == k
    {
      var h :| HasTop(d, h) && TopIdx(d, h) == k;
      assert HasTop(d1, h) && TopIdx(d1, h) == k;
    }
  }

  lemma CutShape(d: Data, e: Dep)
    requires CanDeactivate(d, e)
    ensures Cut(d, e).chunkIdxs == d.chunkIdxs + {TopIdx(d, e)} && |Cut(d, e).sets| == |d.sets|
    ensures Cut(d, e).tx.Keys == d.tx.Keys
  {
  }

  ghost predicate SetsShrunk(d: Data, e: Dep, done: set<nat>, sets: seq<SetInfo>)
    requires CanDeactivate(d, e)
  {
    var d1 := Cut(d, e);
    && |sets| == |d1.sets|
    && (forall h | HasTop(d1, h) && HasTop(d, h) ::
          sets[TopIdx(d1, h)] == if h.parent in done then ShrunkInfo(d, e, h) else d1.sets[TopIdx(d1, h)])
    && (forall i | i in d1.chunkIdxs && i < |d1.sets| :: sets[i] == d1.sets[i])
  }

  lemma SetsUnshrunk(d: Data, e: Dep)
    requires CanDeactivate(d, e)
    ensures SetsShrunk(d, e, {}, Cut(d, e).sets)
  {
  }

  lemma ShrinkStep(d: Data, e: Dep, done: set<nat>, t: nat, x: TxData, end: nat, other: SetInfo, sets: seq<SetInfo>,
                   sets': seq<SetInfo>)
    requires TopsOk(d) && CanDeactivate(d, e) && t in Cut(d, e).tx && t !in done && SetsShrunk(d, e, done, sets)
    requires x.depTop == Cut(d, e).tx[t].depTop && x.activeChildren == Cut(d, e).tx[t].activeChildren
    requires OwnTops(x, |sets|) && ChangedAt(x, sets, sets', info => Shrunk(info, end, other))
    requires forall h | HasTop(d, h) && h != e && h.parent == t ::
             ShrunkInfo(d, e, h) == Shrunk(Cut(d, e).sets[TopIdx(d, h)], end, other)
    ensures SetsShrunk(d, e, done + {t}, sets')
  {
    hide TopsOk, ShrunkInfo, CanDeactivate, Cut;
    var d1 := Cut(d, e);
    CutTopsOk(d, e);
    assert OwnTops(d1.tx[t], |sets|) && ChangedAt(d1.tx[t], sets, sets', info => Shrunk(info, end, other));
    forall h | HasTop(d1, h) && HasTop(d, h)
      ensures sets'[TopIdx(d1, h)] == if h.parent in done + {t} then ShrunkInfo(d, e, h) else d1.sets[TopIdx(d1, h)]
    {
      CutActive(d, e, h);
      if h.parent == t {
        assert h == Dep(t, h.child);
        HasOwnTops(d1, t);
      } else {
        ChangedElsewhere(d1, t, sets, sets', info => Shrunk(info, end, other), TopIdx(d1, h));
      }
    }
    forall i | i in d1.chunkIdxs && i < |d1.sets| ensures sets'[i] == d1.sets[i] {
      ChangedElsewhere(d1, t, sets, sets', info => Shrunk(info, end, other), i);
    }
  }

  lemma SplitRange(g: Cluster, d: Data, e: Dep)
    requires RepOk(g, d) && CanDeactivate(d, e)
    ensures var ip, ic := TopIdx(d, e), d.tx[e.parent].chunk;
            && ic in d.chunkIdxs && ip !in d.chunkIdxs
            && d.sets[ip].txns <= d.sets[ic].txns <= d.tx.Keys
            && e.parent in d.sets[ip].txns
  {
    hide Cluster.FeeOf, View, TopsOk, ReachOf, Cluster.Parents, Cluster.Children, Forest.Valid, Forest.Part;
    DeactivateView(g, d, e);
    ViewChunks(g, d);
    ViewTops(g, d);
  }

  /** The traversals handle the dependencies of `t`. */
  lemma SplitTraversal(g: Cluster, d: Data, e: Dep, done: set<nat>, t: nat, sets: seq<SetInfo>)
    requires RepOk(g, d) && CanDeactivate(d, e) && t in d.sets[d.tx[e.parent].chunk].txns
             && SetsShrunk(d, e, done, sets)
    ensures t in d.tx && t in Cut(d, e).tx && OwnTops(Cut(d, e).tx[t], |sets|) && TopsOk(d)
    ensures var top := d.sets[TopIdx(d, e)];
            var bottom := d.sets[d.tx[e.parent].chunk].Minus(top);
            && (t in top.txns ==> forall h | HasTop(d, h) && h != e && h.parent == t ::
                  ShrunkInfo(d, e, h) == Shrunk(Cut(d, e).sets[TopIdx(d, h)], e.parent, bottom))
            && (t !in top.txns ==> forall h | HasTop(d, h) && h != e && h.parent == t ::
                  ShrunkInfo(d, e, h) == Shrunk(Cut(d, e).sets[TopIdx(d, h)], e.child, top))
  {
    hide TxOk, ChunksOk, SetsOk, View, Forest.Valid;
    SplitRange(g, d, e);
    CutTopsOk(d, e);
    CutShape(d, e);
    HasOwnTops(Cut(d, e), t);
    forall h | HasTop(d, h) && h != e
      ensures Cut(d, e).sets[TopIdx(d, h)] == d.sets[TopIdx(d, h)]
    {
      assert IsActive(d, h);
    }
  }

  /** Parents and children of the transactions of a set, as the traversal gathers them. */
  lemma Gathered(g: Cluster, s: set<nat>, t: nat)
    ensures Parents(g, s + {t}) == Parents(g, s) + g.Parents(t)
    ensures Children(g, s + {t}) == Children(g, s) + g.Children(t)
  {
  }

  /** After both traversals, the deactivation is complete. */
  lemma SplitTraversed(g: Cluster, d: Data, e: Dep, d': Data)
    requires RepOk(g, d) && CanDeactivate(d, e)
    requires var ip, ic := TopIdx(d, e), d.tx[e.parent].chunk;
             && TxsMoved(Cut(d, e), ip, d.sets[ip].txns, d'.tx)
             && SetsShrunk(d, e, d.sets[ic].txns, d'.sets)
             && d'.chunkIdxs == d.chunkIdxs + {ip}
             && |d'.reach| == |d.reach|
             && (forall i | 0 <= i < |d.reach| && i != ic && i != ip :: d'.reach[i] == d.reach[i])
             && d'.reach[ip] == ReachOf(g, d.sets[ip].txns)
             && d'.reach[ic] == ReachOf(g, d.sets[ic].txns - d.sets[ip].txns)
    ensures IsDeactivated(g, d, e, d')
  {
    hide RepOk, ReachOf;
    SplitRange(g, d, e);
    SplitTops(g, d, e);
    forall h | HasTop(d, h) && h != e
      ensures d'.sets[TopIdx(d, h)] == ShrunkInfo(d, e, h)
    {
      CutActive(d, e, h);
      UnsplitTop(g, d, e, h);
    }
  }

  lemma SplitTops(g: Cluster, d: Data, e: Dep)
    requires RepOk(g, d) && CanDeactivate(d, e)
    ensures TopIdx(d, e) < |d.sets|
    ensures forall h | HasTop(d, h) :: TopIdx(d, h) != d.tx[e.parent].chunk
  {
    hide Cluster.FeeOf, View, ReachOf, Cluster.Parents, Cluster.Children, Forest.Valid;
    forall h | HasTop(d, h) ensures TopIdx(d, h) != d.tx[e.parent].chunk {
      assert IsActive(d, h);
    }
  }

  lemma UnsplitTop(g: Cluster, d: Data, e: Dep, h: Dep)
    requires RepOk(g, d) && CanDeactivate(d, e) && HasTop(d, h) && h != e
    ensures h.parent !in d.sets[d.tx[e.parent].chunk].txns ==> ShrunkInfo(d, e, h) == d.sets[TopIdx(d, h)]
  {
    hide RepOk;
    SplitRange(g, d, e);
  }

  lemma NoParents(g: Cluster)
    ensures Parents(g, {}) == {} && Children(g, {}) == {}
  {
  }

  lemma SplitNeighbours(g: Cluster, d: Data, e: Dep, t: nat)
    requires RepOk(g, d) && CanDeactivate(d, e) && t in d.tx
    ensures t in Cut(d, e).tx && Cut(d, e).tx[t].parents == g.Parents(t) && Cut(d, e).tx[t].children == g.Children(t)
  {
    hide Cluster.FeeOf, View, ReachOf, Cluster.Parents, Cluster.Children, Forest.Valid, TopsOk;
  }

  lemma ReachIs(g: Cluster, s: set<nat>)
    ensures ReachOf(g, s) == Reach(Parents(g, s) - s, Children(g, s) - s)
  {
  }
}
