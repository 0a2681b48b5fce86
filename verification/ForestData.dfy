/** The linearizer's data structure as a value: per-transaction records, the table of sets
    (chunks and top sets), and the out-of-chunk neighbours of each chunk. */
module ForestData {
  import opened FeeFracs
  import opened Clusters
  import opened Forests

  /** A set of transactions with its combined fee and size. */
  datatype SetInfo = SetInfo(txns: set<nat>, feerate: FeeFrac) {
    function Plus(other: SetInfo): SetInfo {
      SetInfo(txns + other.txns, feerate.Plus(other.feerate))
    }

    function Minus(other: SetInfo): SetInfo {
      SetInfo(txns - other.txns, feerate.Minus(other.feerate))
    }
  }

  /** `depTop[c]` is the index of the top set of the active dependency of child `c`. */
  datatype TxData = TxData(depTop: map<nat, nat>, parents: set<nat>, children: set<nat>,
                           activeChildren: set<nat>, chunk: nat)

  /** Transactions a chunk depends on, and that depend on it. */
  datatype Reach = Reach(up: set<nat>, down: set<nat>)

  datatype Data = Data(chunkIdxs: set<nat>, tx: map<nat, TxData>, sets: seq<SetInfo>, reach: seq<Reach>)

  ghost predicate IsActive(d: Data, e: Dep) {
    e.parent in d.tx && e.child in d.tx[e.parent].activeChildren
  }

  ghost predicate HasTop(d: Data, e: Dep) {
    && IsActive(d, e)
    && e.child in d.tx[e.parent].depTop
    && d.tx[e.parent].depTop[e.child] < |d.sets|
  }

  ghost function TopIdx(d: Data, e: Dep): nat
    requires HasTop(d, e)
  {
    d.tx[e.parent].depTop[e.child]
  }

  ghost function Parents(g: Cluster, s: set<nat>): set<nat> {
    set e | e in g.deps && e.child in s :: e.parent
  }

  ghost function Children(g: Cluster, s: set<nat>): set<nat> {
    set e | e in g.deps && e.parent in s :: e.child
  }

  /** Out-of-chunk neighbours of a set. */
  ghost function ReachOf(g: Cluster, s: set<nat>): Reach {
    Reach(Parents(g, s) - s, Children(g, s) - s)
  }

  /** The forest the data structure stands for. */
  ghost function View(g: Cluster, d: Data): Forest {
    Forest(map t | t in d.tx :: d.tx[t].chunk,
           map e | e in g.deps && HasTop(d, e) :: d.sets[TopIdx(d, e)].txns)
  }

  // ---- The representation invariant

  ghost predicate TxOk(g: Cluster, d: Data) {
    && d.tx.Keys == g.txns
    && forall t | t in d.tx ::
         && d.tx[t].parents == g.Parents(t) && d.tx[t].children == g.Children(t)
         && d.tx[t].activeChildren <= d.tx[t].children
         && d.tx[t].chunk in d.chunkIdxs
  }

  ghost predicate ChunksOk(g: Cluster, d: Data) {
    && |d.reach| == |d.sets|
    && forall i | i in d.chunkIdxs ::
         && i < |d.sets| && d.sets[i].txns != {}
         && (forall t | t in d.tx :: t in d.sets[i].txns <==> d.tx[t].chunk == i)
         && d.reach[i] == ReachOf(g, d.sets[i].txns)
  }

  ghost predicate SetsOk(g: Cluster, d: Data) {
    && g.feerate.Keys == g.txns
    && forall k | 0 <= k < |d.sets| ::
         d.sets[k].txns <= g.txns && d.sets[k].feerate == g.FeeOf(d.sets[k].txns)
  }

  /** Every set index is a chunk, or the top set of exactly one active dependency. */
  ghost predicate TopsOk(d: Data) {
    && (forall e | IsActive(d, e) :: HasTop(d, e) && TopIdx(d, e) !in d.chunkIdxs)
    && (forall e, h | HasTop(d, e) && HasTop(d, h) && TopIdx(d, e) == TopIdx(d, h) :: e == h)
    && (forall k | 0 <= k < |d.sets| && k !in d.chunkIdxs :: exists e :: HasTop(d, e) && TopIdx(d, e) == k)
  }

  ghost predicate RepOk(g: Cluster, d: Data) {
    && g.Valid()
    && TxOk(g, d) && ChunksOk(g, d) && SetsOk(g, d) && TopsOk(d)
    && View(g, d).Valid(g)
  }

  lemma ViewChunk(g: Cluster, d: Data)
    ensures View(g, d).chunk.Keys == d.tx.Keys
    ensures forall t | t in d.tx :: View(g, d).chunk[t] == d.tx[t].chunk
  {
    hide HasTop;
  }

  lemma ViewPart(g: Cluster, d: Data, i: nat)
    requires TxOk(g, d) && ChunksOk(g, d) && SetsOk(g, d) && i in d.chunkIdxs
    ensures View(g, d).Part(i) == d.sets[i].txns
    ensures i in View(g, d).chunk.Values
  {
    hide Cluster.FeeOf, ReachOf, HasTop, Cluster.Parents, Cluster.Children;
    var f, s := View(g, d), d.sets[i].txns;
    assert s <= d.tx.Keys;
    forall t ensures t in f.Part(i) <==> t in s {
    }
    var t := Pick(s);
    assert f.chunk[t] == i;
  }

  lemma ViewChunks(g: Cluster, d: Data)
    requires TxOk(g, d) && ChunksOk(g, d) && SetsOk(g, d)
    ensures View(g, d).chunk.Keys == g.txns
    ensures d.tx.Keys == g.txns
    ensures forall t | t in g.txns ::
              View(g, d).chunk[t] == d.tx[t].chunk && d.tx[t].chunk in d.chunkIdxs && d.tx[t].chunk < |d.sets|
    ensures forall i | i in d.chunkIdxs :: View(g, d).Part(i) == d.sets[i].txns
    ensures View(g, d).chunk.Values == d.chunkIdxs
  {
    hide Cluster.FeeOf, SetsOk, ReachOf, HasTop, Cluster.Parents, Cluster.Children, Forest.Part;
    forall i | i in d.chunkIdxs ensures View(g, d).Part(i) == d.sets[i].txns && i in View(g, d).chunk.Values {
      ViewPart(g, d, i);
    }
  }

  lemma ViewTops(g: Cluster, d: Data)
    requires TxOk(g, d) && TopsOk(d)
    ensures forall e :: e in View(g, d).top <==> IsActive(d, e)
    ensures forall e | IsActive(d, e) :: HasTop(d, e) && View(g, d).top[e] == d.sets[TopIdx(d, e)].txns
  {
    forall e | IsActive(d, e) ensures e in g.deps {
      assert e.child in g.Children(e.parent);
    }
  }
}
