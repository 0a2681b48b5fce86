/** The initial state: every transaction in its own chunk. */
module ForestStart {
  import opened Clusters
  import opened Forests
  import opened ForestData
  import opened Linearizations

  function Fill(n: nat): (s: set<nat>)
    ensures forall i: nat :: i in s <==> i < n
  {
    if n == 0 then {} else Fill(n - 1) + {n - 1}
  }

  /** `order[i]` is the transaction of chunk `i`. */
  ghost predicate Numbered(g: Cluster, order: seq<nat>, tx: map<nat, TxData>, sets: seq<SetInfo>) {
    && tx.Keys == g.txns == g.feerate.Keys && |order| == |sets|
    && (forall i | 0 <= i < |order| ::
          order[i] in tx && tx[order[i]].chunk == i && sets[i] == SetInfo({order[i]}, g.feerate[order[i]]))
  }

  ghost predicate AllAlone(g: Cluster, d: Data, order: seq<nat>) {
    && Numbered(g, order, d.tx, d.sets)
    && d.chunkIdxs == Fill(|d.sets|)
    && (forall t | t in d.tx ::
          && d.tx[t].chunk < |order| && order[d.tx[t].chunk] == t
          && d.tx[t] == TxData(map[], g.Parents(t), g.Children(t), {}, d.tx[t].chunk))
    && |d.reach| == |d.sets|
    && (forall i | 0 <= i < |order| :: d.reach[i] == Reach(g.Parents(order[i]), g.Children(order[i])))
  }

  lemma AloneReach(g: Cluster, t: nat)
    requires g.Valid()
    ensures ReachOf(g, {t}) == Reach(g.Parents(t), g.Children(t))
  {
    assert Parents(g, {t}) == g.Parents(t);
    assert Children(g, {t}) == g.Children(t);
    assert t !in g.Parents(t) && t !in g.Children(t);
  }

  lemma AlonePart(g: Cluster, d: Data, order: seq<nat>, t: nat)
    requires AllAlone(g, d, order) && t in View(g, d).chunk
    ensures View(g, d).Part(View(g, d).chunk[t]) == {t}
  {
    hide HasTop, Cluster.Parents, Cluster.Children;
    var f := View(g, d);
    assert f.chunk[t] == d.tx[t].chunk;
    forall u | u in f.Part(f.chunk[t]) ensures u == t {
      assert d.tx[u].chunk == d.tx[t].chunk;
    }
    assert t in f.Part(f.chunk[t]);
  }

  lemma AloneForest(g: Cluster, d: Data, order: seq<nat>)
    requires g.Valid() && AllAlone(g, d, order)
    ensures View(g, d).Valid(g)
    ensures Singletons(View(g, d), {})
  {
    hide Cluster.Parents, Cluster.Children;
    var f := View(g, d);
    assert f.top.Keys == {};
    forall t | t in f.chunk ensures f.Part(f.chunk[t]) == {t} {
      AlonePart(g, d, order, t);
    }
    forall i | i in f.chunk.Values ensures Connected(f.Active(), f.Part(i)) {
      var t :| t in f.chunk && f.chunk[t] == i;
    }
  }

  lemma AloneChunks(g: Cluster, d: Data, order: seq<nat>)
    requires g.Valid() && AllAlone(g, d, order)
    ensures ChunksOk(g, d) && TxOk(g, d)
  {
    hide Cluster.Parents, Cluster.Children, ReachOf;
    forall i | i in d.chunkIdxs
      ensures d.sets[i].txns != {}
      ensures d.reach[i] == ReachOf(g, d.sets[i].txns)
    {
      assert order[i] in d.sets[i].txns;
      AloneReach(g, order[i]);
    }
  }

  lemma AloneSets(g: Cluster, d: Data, order: seq<nat>)
    requires g.Valid() && AllAlone(g, d, order)
    ensures SetsOk(g, d) && TopsOk(d)
  {
    hide Cluster.FeeOf, Cluster.Parents, Cluster.Children;
    forall k | 0 <= k < |d.sets|
      ensures d.sets[k].txns <= g.txns && d.sets[k].feerate == g.FeeOf(d.sets[k].txns)
    {
      g.FeeOfSingleton(order[k]);
    }
  }

  lemma AloneRep(g: Cluster, d: Data, order: seq<nat>)
    requires g.Valid() && AllAlone(g, d, order)
    ensures RepOk(g, d)
  {
    hide View, AllAlone, TxOk, ChunksOk, SetsOk, TopsOk;
    AloneForest(g, d, order);
    AloneChunks(g, d, order);
    AloneSets(g, d, order);
  }

  /** The transactions in `order` are registered with their parents. */
  ghost predicate Linked(g: Cluster, order: seq<nat>, tx: map<nat, TxData>, sets: seq<SetInfo>) {
    && Numbered(g, order, tx, sets)
    && (forall t | t in tx ::
          && tx[t].depTop == map[] && tx[t].activeChildren == {}
          && tx[t].children == g.Children(t) * Elems(order))
    && (forall i | 0 <= i < |order| :: tx[order[i]].parents == g.Parents(order[i]))
  }

  /** Register `t` as a child of its parents. */
  method LinkParents(g: Cluster, t: nat, before: map<nat, TxData>) returns (tx: map<nat, TxData>)
    requires g.Valid() && t in g.txns && before.Keys == g.txns
    ensures tx.Keys == before.Keys
    ensures forall u | u in before ::
            tx[u] == if u in g.Parents(t) then before[u].(children := before[u].children + {t}) else before[u]
  {
    tx := before;
    var todo := g.Parents(t);
    while todo != {}
      invariant todo <= g.Parents(t) && tx.Keys == before.Keys
      invariant forall u | u in before ::
                tx[u] == if u in g.Parents(t) - todo then before[u].(children := before[u].children + {t})
                else before[u]
      decreases |todo|
    {
      var p :| p in todo;
      tx := tx[p := tx[p].(children := tx[p].children + {t})];
      todo := todo - {p};
    }
  }

  lemma ChildIffParent(g: Cluster, p: nat, c: nat)
    ensures c in g.Children(p) <==> p in g.Parents(c)
  {
    assert Dep(p, c) in g.deps <==> c in g.Children(p);
    assert Dep(p, c) in g.deps <==> p in g.Parents(c);
  }

  lemma LinkStep(g: Cluster, order: seq<nat>, t: nat, tx: map<nat, TxData>, sets: seq<SetInfo>, tx1: map<nat, TxData>,
                 tx2: map<nat, TxData>)
    requires g.Valid() && Linked(g, order, tx, sets) && t in g.txns && t !in Elems(order)
    requires tx1.Keys == tx.Keys
    requires forall u | u in tx ::
             tx1[u] == if u in g.Parents(t) then tx[u].(children := tx[u].children + {t}) else tx[u]
    requires tx2 == tx1[t := tx1[t].(parents := g.Parents(t), chunk := |sets|)]
    ensures Linked(g, order + [t], tx2, sets + [SetInfo({t}, g.feerate[t])])
  {
    hide Cluster.Parents, Cluster.Children;
    AppendElems(order, t);
    forall u | u in tx2 ensures tx2[u].children == g.Children(u) * Elems(order + [t]) {
      ChildIffParent(g, u, t);
    }
    forall i | 0 <= i < |order| ensures order[i] != t {
      assert order[i] in Elems(order);
    }
  }

  lemma LinkDone(g: Cluster, d: Data, order: seq<nat>)
    requires g.Valid() && Linked(g, order, d.tx, d.sets) && Elems(order) == g.txns
    requires d.chunkIdxs == Fill(|d.sets|) && |d.reach| == |d.sets|
    requires forall i | 0 <= i < |order| :: d.reach[i] == Reach(d.tx[order[i]].parents, d.tx[order[i]].children)
    ensures AllAlone(g, d, order)
  {
    forall t | t in d.tx
      ensures d.tx[t].chunk < |order| && order[d.tx[t].chunk] == t
      ensures d.tx[t] == TxData(map[], g.Parents(t), g.Children(t), {}, d.tx[t].chunk)
    {
      var i :| 0 <= i < |order| && order[i] == t;
      assert d.tx[order[i]].chunk == i && d.tx[order[i]].parents == g.Parents(order[i]);
      assert g.Children(t) * g.txns == g.Children(t);
    }
  }

  lemma NoneLinked(g: Cluster)
    requires g.Valid()
    ensures Linked(g, [], Blank(g), [])
  {
  }

  /** Fill in one transaction, and give it a chunk of its own. */
  method AddTx(g: Cluster, t: nat, order: seq<nat>, before: map<nat, TxData>, sets: seq<SetInfo>)
    returns (tx: map<nat, TxData>, sets': seq<SetInfo>)
    requires g.Valid() && Linked(g, order, before, sets) && t in g.txns && t !in Elems(order)
    ensures Linked(g, order + [t], tx, sets') && Elems(order + [t]) == Elems(order) + {t}
  {
    var tx1 := LinkParents(g, t, before);
    tx := tx1[t := tx1[t].(parents := g.Parents(t), chunk := |sets|)];
    sets' := sets + [SetInfo({t}, g.feerate[t])];
    LinkStep(g, order, t, before, sets, tx1, tx);
    AppendElems(order, t);
  }

  lemma LinkedSizes(g: Cluster, order: seq<nat>, tx: map<nat, TxData>, sets: seq<SetInfo>)
    requires Linked(g, order, tx, sets)
    ensures |order| == |sets| && tx.Keys == g.txns
  {
  }

  /** The records before any transaction is filled in. */
  function Blank(g: Cluster): map<nat, TxData> {
    map t | t in g.txns :: TxData(map[], {}, {}, {}, 0)
  }

  /** Fill in parents and children, and give each transaction a chunk of its own. */
  method LinkAll(g: Cluster) returns (tx: map<nat, TxData>, sets: seq<SetInfo>, order: seq<nat>)
    requires g.Valid()
    ensures Linked(g, order, tx, sets) && Elems(order) == g.txns && |order| == |sets| && tx.Keys == g.txns
  {
    hide Linked, Elems, Blank;
    tx, sets, order := Blank(g), [], [];
    NoneLinked(g);
    NoElems();
    var todo := g.txns;
    while todo != {}
      invariant Linked(g, order, tx, sets)
      invariant todo !! Elems(order) && todo + Elems(order) == g.txns
      decreases |todo|
    {
      var t :| t in todo;
      tx, sets := AddTx(g, t, order, tx, sets);
      order := order + [t];
      todo := todo - {t};
    }
    LinkedSizes(g, order, tx, sets);
  }

  lemma NoElems()
    ensures Elems([]) == {}
  {
  }

  /** The neighbours of the singleton chunks. */
  method ReachAll(g: Cluster, tx: map<nat, TxData>, order: seq<nat>) returns (reach: seq<Reach>)
    requires Elems(order) == tx.Keys
    ensures |reach| == |order|
    ensures forall i | 0 <= i < |order| ::
            order[i] in tx && reach[i] == Reach(tx[order[i]].parents, tx[order[i]].children)
  {
    reach := [];
    var k := 0;
    while k < |order|
      invariant 0 <= k <= |order| && |reach| == k
      invariant forall i | 0 <= i < k ::
                order[i] in tx && reach[i] == Reach(tx[order[i]].parents, tx[order[i]].children)
    {
      assert order[k] in Elems(order);
      reach := reach + [Reach(tx[order[k]].parents, tx[order[k]].children)];
      k := k + 1;
    }
  }
}
