/** Coins, cache entries with their flags, and the doubly linked list of flagged entries. */
module Coins {

  datatype OutPoint = OutPoint(txid: nat, n: nat)

  /** An output, or the null coin. Of the script, the cache uses its memory usage and whether it
      can be spent at all. */
  datatype Coin = Coin(value: int, scriptUsage: nat, unspendable: bool, height: nat, coinbase: bool) {
    predicate IsSpent() {
      value == -1
    }
  }

  const NO_COIN := Coin(-1, 0, false, 0, false)

  datatype Link = Null | Sentinel | At(key: OutPoint)

  datatype CacheEntry = CacheEntry(coin: Coin, isDirty: bool, isFresh: bool, prev: Link, next: Link) {
    predicate Flagged() {
      isDirty || isFresh
    }
  }

  /** The cached entries; `first` and `last` are the links of the list's sentinel. */
  datatype CoinsMap = CoinsMap(entries: map<OutPoint, CacheEntry>, first: Link, last: Link) {

    function SetNext(at: Link, link: Link): CoinsMap {
      match at
      case Sentinel => this.(first := link)
      case At(k) => if k in entries then this.(entries := entries[k := entries[k].(next := link)]) else this
      case Null => this
    }

    function SetPrev(at: Link, link: Link): CoinsMap {
      match at
      case Sentinel => this.(last := link)
      case At(k) => if k in entries then this.(entries := entries[k := entries[k].(prev := link)]) else this
      case Null => this
    }

    /** Set flags, linking the entry at the end of the list if it had none. */
    function AddFlags(k: OutPoint, isDirty: bool, isFresh: bool): CoinsMap
      requires k in entries
    {
      var e := entries[k];
      var linked := if e.Flagged() then this else LinkLast(this, k);
      linked.(entries := linked.entries[k := linked.entries[k].(isDirty := e.isDirty || isDirty,
                                                                isFresh := e.isFresh || isFresh)])
    }

    /** Clear the flags, unlinking the entry. */
    function SetClean(k: OutPoint): CoinsMap
      requires k in entries
    {
      var e := entries[k];
      if !e.Flagged() then this
      else
        var unlinked := Unlinked(this, k);
        unlinked.(entries := unlinked.entries[k := CacheEntry(e.coin, false, false, Null, Null)])
    }

    /** Erase an entry; its destructor unlinks it. */
    function Erase(k: OutPoint): CoinsMap
      requires k in entries
    {
      var clean := SetClean(k);
      clean.(entries := clean.entries - {k})
    }

    /** Add an unflagged entry, if there is none. */
    function Emplace(k: OutPoint, coin: Coin): CoinsMap {
      if k in entries then this else this.(entries := entries[k := CacheEntry(coin, false, false, Null, Null)])
    }

    function SetCoin(k: OutPoint, coin: Coin): CoinsMap
      requires k in entries
    {
      this.(entries := entries[k := entries[k].(coin := coin)])
    }
  }

  const EMPTY_MAP := CoinsMap(map[], Sentinel, Sentinel)

  // ---- The list

  ghost predicate Unique(order: seq<OutPoint>) {
    forall i, j | 0 <= i < j < |order| :: order[i] != order[j]
  }

  ghost function LinkTo(order: seq<OutPoint>, i: int): Link {
    if 0 <= i < |order| then At(order[i]) else Sentinel
  }

  ghost function NextOf(m: CoinsMap, at: Link): Link {
    match at
    case Sentinel => m.first
    case At(k) => if k in m.entries then m.entries[k].next else Null
    case Null => Null
  }

  ghost function PrevOf(m: CoinsMap, at: Link): Link {
    match at
    case Sentinel => m.last
    case At(k) => if k in m.entries then m.entries[k].prev else Null
    case Null => Null
  }

  /** The links before and after position `i`: both directions, sentinel included. */
  ghost predicate Joint(m: CoinsMap, order: seq<OutPoint>, i: int) {
    NextOf(m, LinkTo(order, i - 1)) == LinkTo(order, i) && PrevOf(m, LinkTo(order, i)) == LinkTo(order, i - 1)
  }

  /** The entries of `order` are linked in this order, through the sentinel. */
  ghost predicate Chain(m: CoinsMap, order: seq<OutPoint>) {
    && Unique(order) && (forall i | 0 <= i < |order| :: order[i] in m.entries)
    && forall i | 0 <= i <= |order| :: Joint(m, order, i)
  }

  /** The list holds exactly the flagged entries; the others have no links. */
  ghost predicate Listed(m: CoinsMap, order: seq<OutPoint>) {
    && Chain(m, order)
    && forall k | k in m.entries :: k in order <==> m.entries[k].Flagged()
  }

  /** What an entry holds besides its links. */
  datatype Plain = Plain(coin: Coin, isDirty: bool, isFresh: bool)

  ghost function Contents(m: CoinsMap): map<OutPoint, Plain> {
    map k | k in m.entries :: Plain(m.entries[k].coin, m.entries[k].isDirty, m.entries[k].isFresh)
  }

  /** `at` is the sentinel or an entry. */
  ghost predicate Valid(m: CoinsMap, at: Link) {
    at != Null && (at.At? ==> at.key in m.entries)
  }

  lemma SetNextLinks(m: CoinsMap, at: Link, link: Link, x: Link)
    requires Valid(m, at)
    ensures var m' := m.SetNext(at, link);
            && NextOf(m', x) == (if x == at then link else NextOf(m, x)) && PrevOf(m', x) == PrevOf(m, x)
            && m'.entries.Keys == m.entries.Keys && Contents(m') == Contents(m)
  {
  }

  lemma SetPrevLinks(m: CoinsMap, at: Link, link: Link, x: Link)
    requires Valid(m, at)
    ensures var m' := m.SetPrev(at, link);
            && PrevOf(m', x) == (if x == at then link else PrevOf(m, x)) && NextOf(m', x) == NextOf(m, x)
            && m'.entries.Keys == m.entries.Keys && Contents(m') == Contents(m)
  {
  }

  lemma LinkInjective(order: seq<OutPoint>, i: int, j: int)
    requires Unique(order) && -1 <= i < |order| && -1 <= j < |order| && i != j
    ensures LinkTo(order, i) != LinkTo(order, j)
  {
  }

  // ---- Linking at the end

  function LinkLast(m: CoinsMap, k: OutPoint): CoinsMap
    requires k in m.entries
  {
    var linked := m.(entries := m.entries[k := m.entries[k].(prev := m.last, next := Sentinel)]);
    linked.SetNext(m.last, At(k)).SetPrev(Sentinel, At(k))
  }

  lemma LinkLastLinks(m: CoinsMap, k: OutPoint, x: Link)
    requires k in m.entries && Valid(m, m.last) && m.last != At(k)
    ensures var m' := LinkLast(m, k);
            && NextOf(m', x) == (if x == m.last then At(k) else if x == At(k) then Sentinel else NextOf(m, x))
            && PrevOf(m', x) == (if x == Sentinel then At(k) else if x == At(k) then m.last else PrevOf(m, x))
            && m'.entries.Keys == m.entries.Keys && Contents(m') == Contents(m)
  {
    var m0 := m.(entries := m.entries[k := m.entries[k].(prev := m.last, next := Sentinel)]);
    assert Contents(m0) == Contents(m);
    SetNextLinks(m0, m.last, At(k), x);
    SetPrevLinks(m0.SetNext(m.last, At(k)), Sentinel, At(k), x);
  }

  lemma ChainAppend(m: CoinsMap, order: seq<OutPoint>, k: OutPoint)
    requires Chain(m, order) && k in m.entries && k !in order
    ensures Chain(LinkLast(m, k), order + [k]) && Contents(LinkLast(m, k)) == Contents(m)
  {
    var m', order', n := LinkLast(m, k), order + [k], |order|;
    hide LinkLast, NextOf, PrevOf;
    LastIs(m, order);
    LinkLastLinks(m, k, Sentinel);
    forall i | 0 <= i <= n + 1 ensures Joint(m', order', i) {
      LinkLastLinks(m, k, LinkTo(order', i - 1));
      LinkLastLinks(m, k, LinkTo(order', i));
      if i < n {
        assert Joint(m, order, i);
        LinkInjective(order, i - 1, n - 1);
      }
    }
  }

  lemma LastIs(m: CoinsMap, order: seq<OutPoint>)
    requires Chain(m, order)
    ensures m.last == LinkTo(order, |order| - 1) && Valid(m, m.last) && m.first == LinkTo(order, 0)
  {
    assert Joint(m, order, |order|) && Joint(m, order, 0);
  }

  // ---- Unlinking

  ghost function Without(order: seq<OutPoint>, j: nat): seq<OutPoint>
    requires j < |order|
  {
    order[..j] + order[j + 1..]
  }

  lemma WithoutUnique(order: seq<OutPoint>, j: nat)
    requires Unique(order) && j < |order|
    ensures Unique(Without(order, j)) && forall k :: k in Without(order, j) <==> k in order && k != order[j]
  {
    var order' := Without(order, j);
    assert forall i | 0 <= i < |order'| :: order'[i] == order[if i < j then i else i + 1];
    forall k | k in order && k != order[j] ensures k in order' {
      var i :| 0 <= i < |order| && order[i] == k;
      assert order'[if i < j then i else i - 1] == k;
    }
  }

  lemma WithoutLink(order: seq<OutPoint>, j: nat, i: int)
    requires j < |order| && -1 <= i < |order|
    ensures LinkTo(Without(order, j), i) == LinkTo(order, if i < j then i else i + 1)
  {
  }

  function Unlinked(m: CoinsMap, k: OutPoint): CoinsMap
    requires k in m.entries
  {
    m.SetPrev(m.entries[k].next, m.entries[k].prev).SetNext(m.entries[k].prev, m.entries[k].next)
  }

  lemma ChainRemove(m: CoinsMap, order: seq<OutPoint>, j: nat)
    requires Chain(m, order) && j < |order|
    ensures Chain(Unlinked(m, order[j]), Without(order, j)) && Contents(Unlinked(m, order[j])) == Contents(m)
  {
    var n, order' := |order|, Without(order, j);
    var before, after := LinkTo(order, j - 1), LinkTo(order, j + 1);
    assert Joint(m, order, j) && Joint(m, order, j + 1);
    var m1 := m.SetPrev(after, before);
    var m' := m1.SetNext(before, after);
    assert Unlinked(m, order[j]) == m';
    hide NextOf, PrevOf;
    SetPrevLinks(m, after, before, Sentinel);
    SetNextLinks(m1, before, after, Sentinel);
    WithoutUnique(order, j);
    assert forall i | 0 <= i < |order'| :: order'[i] == order[if i < j then i else i + 1];
    forall i | 0 <= i <= |order'| ensures Joint(m', order', i) {
      RemoveJoint(m, order, j, i);
    }
  }

  lemma RemoveJoint(m: CoinsMap, order: seq<OutPoint>, j: nat, i: nat)
    requires Chain(m, order) && j < |order| && i <= |order| - 1
    ensures var before, after := LinkTo(order, j - 1), LinkTo(order, j + 1);
            Joint(m.SetPrev(after, before).SetNext(before, after), Without(order, j), i)
  {
    var before, after := LinkTo(order, j - 1), LinkTo(order, j + 1);
    var m1 := m.SetPrev(after, before);
    hide NextOf, PrevOf, Without;
    WithoutLink(order, j, i - 1);
    WithoutLink(order, j, i);
    var l, r := LinkTo(Without(order, j), i - 1), LinkTo(Without(order, j), i);
    SetPrevLinks(m, after, before, l);
    SetPrevLinks(m, after, before, r);
    SetNextLinks(m1, before, after, l);
    SetNextLinks(m1, before, after, r);
    if i < j {
      assert Joint(m, order, i);
      LinkInjective(order, i - 1, j - 1);
      if j + 1 < |order| { LinkInjective(order, i, j + 1); }
    } else if i > j {
      assert Joint(m, order, i + 1);
      LinkInjective(order, i, j - 1);
      if i + 1 < |order| { LinkInjective(order, i + 1, j + 1); } else { assert r == Sentinel; }
    }
  }

  // ---- What the operations do to contents and list

  /** Same links, whatever else changed. */
  lemma ChainSame(m: CoinsMap, m': CoinsMap, order: seq<OutPoint>)
    requires Chain(m, order) && m'.first == m.first && m'.last == m.last
    requires forall k | k in order && k in m.entries ::
             k in m'.entries && m'.entries[k].prev == m.entries[k].prev && m'.entries[k].next == m.entries[k].next
    ensures Chain(m', order)
  {
    forall i | 0 <= i <= |order| ensures Joint(m', order, i) {
      assert Joint(m, order, i);
      assert i > 0 ==> order[i - 1] in order;
      assert i < |order| ==> order[i] in order;
    }
  }

  lemma FlagsListed(m: CoinsMap, order: seq<OutPoint>, k: OutPoint, isDirty: bool, isFresh: bool)
    requires Listed(m, order) && k in m.entries && (isDirty || isFresh)
    ensures var e, m' := m.entries[k], m.AddFlags(k, isDirty, isFresh);
            && Listed(m', if k in order then order else order + [k])
            && Contents(m') == Contents(m)[k := Plain(e.coin, e.isDirty || isDirty, e.isFresh || isFresh)]
  {
    hide LinkLast, Joint;
    var e := m.entries[k];
    var linked := if e.Flagged() then m else LinkLast(m, k);
    var order' := if k in order then order else order + [k];
    if !e.Flagged() { ChainAppend(m, order, k); }
    SameKeys(m, linked);
    SetFlagsListed(m, linked, order', k, e.isDirty || isDirty, e.isFresh || isFresh);
  }

  lemma SetFlagsListed(m: CoinsMap, linked: CoinsMap, order: seq<OutPoint>, k: OutPoint, isDirty: bool, isFresh: bool)
    requires Chain(linked, order) && Contents(linked) == Contents(m) && k in linked.entries && k in order
             && (isDirty || isFresh)
    requires forall j | j in m.entries && j != k :: j in order <==> m.entries[j].Flagged()
    ensures var m' := linked.(entries := linked.entries[k := linked.entries[k].(isDirty := isDirty,
                                                                                isFresh := isFresh)]);
            Listed(m', order) && k in m.entries
            && Contents(m') == Contents(m)[k := Plain(m.entries[k].coin, isDirty, isFresh)]
  {
    hide Chain;
    var m' := linked.(entries := linked.entries[k := linked.entries[k].(isDirty := isDirty, isFresh := isFresh)]);
    SameKeys(m, linked);
    ChainSame(linked, m', order);
    forall j | j in m'.entries ensures j in order <==> m'.entries[j].Flagged() {
      SameAt(m, linked, j);
    }
    SameAt(m, linked, k);
    assert Contents(m') == Contents(linked)[k := Plain(linked.entries[k].coin, isDirty, isFresh)];
  }

  lemma SameAt(m: CoinsMap, m': CoinsMap, k: OutPoint)
    requires Contents(m') == Contents(m) && k in m.entries && k in m'.entries
    ensures m'.entries[k].coin == m.entries[k].coin && m'.entries[k].isDirty == m.entries[k].isDirty
            && m'.entries[k].isFresh == m.entries[k].isFresh
  {
    assert Contents(m')[k] == Contents(m)[k];
  }

  lemma SameKeys(m: CoinsMap, m': CoinsMap)
    requires Contents(m') == Contents(m)
    ensures m'.entries.Keys == m.entries.Keys
  {
    assert Contents(m').Keys == m'.entries.Keys && Contents(m).Keys == m.entries.Keys;
  }

  /** The list without `k`. */
  ghost predicate Dropped(order: seq<OutPoint>, k: OutPoint, order': seq<OutPoint>) {
    && |order'| == |order| - (if k in order then 1 else 0)
    && forall j :: j in order' <==> j in order && j != k
  }

  lemma CleanListed(m: CoinsMap, order: seq<OutPoint>, k: OutPoint) returns (order': seq<OutPoint>)
    requires Listed(m, order) && k in m.entries
    ensures Listed(m.SetClean(k), order') && Dropped(order, k, order')
    ensures k in order ==> exists i :: 0 <= i < |order| && order[i] == k && order' == Without(order, i)
    ensures Contents(m.SetClean(k)) == Contents(m)[k := Plain(m.entries[k].coin, false, false)]
  {
    var m' := m.SetClean(k);
    var e := m.entries[k];
    if !e.Flagged() {
      order' := order;
      assert Contents(m)[k] == Plain(e.coin, false, false);
    } else {
      var j :| 0 <= j < |order| && order[j] == k;
      order' := Without(order, j);
      var u := Unlinked(m, k);
      ChainRemove(m, order, j);
      WithoutUnique(order, j);
      hide Unlinked, Chain, Without;
      SameKeys(m, u);
      ChainSame(u, m', order');
      forall i | i in m'.entries ensures i in order' <==> m'.entries[i].Flagged() {
        SameAt(m, u, i);
      }
      assert Contents(m') == Contents(u)[k := Plain(e.coin, false, false)];
    }
  }

  lemma EraseListed(m: CoinsMap, order: seq<OutPoint>, k: OutPoint) returns (order': seq<OutPoint>)
    requires Listed(m, order) && k in m.entries
    ensures Listed(m.Erase(k), order') && Dropped(order, k, order')
    ensures k in order ==> exists i :: 0 <= i < |order| && order[i] == k && order' == Without(order, i)
    ensures Contents(m.Erase(k)) == Contents(m) - {k}
  {
    order' := CleanListed(m, order, k);
    var c := m.SetClean(k);
    hide CoinsMap.SetClean, Chain;
    SameKeysExcept(m, c, k);
    ChainSame(c, m.Erase(k), order');
    assert Contents(m.Erase(k)) == Contents(c) - {k};
  }

  lemma SameKeysExcept(m: CoinsMap, m': CoinsMap, k: OutPoint)
    requires k in m.entries && Contents(m').Keys == Contents(m).Keys
    ensures m'.entries.Keys == m.entries.Keys
  {
    assert Contents(m').Keys == m'.entries.Keys && Contents(m).Keys == m.entries.Keys;
  }

  lemma EmplaceListed(m: CoinsMap, order: seq<OutPoint>, k: OutPoint, coin: Coin)
    requires Listed(m, order) && k !in m.entries
    ensures Listed(m.Emplace(k, coin), order)
            && Contents(m.Emplace(k, coin)) == Contents(m)[k := Plain(coin, false, false)]
    ensures k !in order
  {
    hide Joint;
    ChainSame(m, m.Emplace(k, coin), order);
  }

  lemma SetCoinListed(m: CoinsMap, order: seq<OutPoint>, k: OutPoint, coin: Coin)
    requires Listed(m, order) && k in m.entries
    ensures Listed(m.SetCoin(k, coin), order)
    ensures Contents(m.SetCoin(k, coin)) == Contents(m)[k := Contents(m)[k].(coin := coin)]
  {
    hide Joint;
    ChainSame(m, m.SetCoin(k, coin), order);
  }
}
