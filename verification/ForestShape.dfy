/** What a well-formed forest looks like from the outside: its chunks and top sets are the
    components a search through active dependencies finds, and every chunk is a tree. */
module ForestShape {
  import opened Clusters
  import opened Forests

  /** One round of the consistency check's search: both ends of every dependency that touches
      the set. */
  ghost function Grow(active: set<Dep>, s: set<nat>): set<nat> {
    s + (set d | d in active && (d.parent in s || d.child in s) :: d.parent)
      + (set d | d in active && (d.parent in s || d.child in s) :: d.child)
  }

  ghost function Search(active: set<Dep>, s: set<nat>, rounds: nat): set<nat> {
    if rounds == 0 then s else Grow(active, Search(active, s, rounds - 1))
  }

  lemma GrowFixed(a: set<Dep>, s: set<nat>)
    ensures Grow(a, s) == s <==> Closed(a, s)
  {
    forall d | d in a && Grow(a, s) == s ensures !Crosses(d, s) {
      if d.parent in s || d.child in s {
        assert d.parent in Grow(a, s) && d.child in Grow(a, s);
      }
    }
    if Closed(a, s) {
      forall d | d in a ensures d.parent in s <==> d.child in s { assert !Crosses(d, s); }
    }
  }

  lemma {:induction false} SearchInside(a: set<Dep>, x: nat, c: set<nat>, rounds: nat)
    requires x in c && Closed(a, c)
    ensures {x} <= Search(a, {x}, rounds) <= c
  {
    if rounds > 0 {
      SearchInside(a, x, c, rounds - 1);
      forall d | d in a ensures d.parent in c <==> d.child in c { assert !Crosses(d, c); }
    }
  }

  lemma {:induction false} SearchGrows(a: set<Dep>, s: set<nat>, rounds: nat)
    requires s != {}
    ensures Closed(a, Search(a, s, rounds)) || |Search(a, s, rounds)| > rounds
  {
    hide Grow, Closed;
    if rounds > 0 {
      SearchGrows(a, s, rounds - 1);
      GrowCount(a, Search(a, s, rounds - 1));
    }
  }

  lemma GrowCount(a: set<Dep>, s: set<nat>)
    ensures if Closed(a, s) then Grow(a, s) == s else |Grow(a, s)| > |s|
  {
    GrowFixed(a, s);
    Strict(s, Grow(a, s));
  }

  lemma Strict<T>(a: set<T>, b: set<T>)
    requires a <= b
    ensures |a| <= |b| && (a != b ==> |a| < |b|)
  {
    assert b == a + (b - a);
    if a != b {
      assert b - a != {};
    }
  }

  /** The search from any member finds exactly the connected closed set it lies in. */
  lemma SearchFinds(a: set<Dep>, x: nat, c: set<nat>, rounds: nat)
    requires x in c && Closed(a, c) && Connected(a, c) && rounds >= |c|
    ensures Search(a, {x}, rounds) == c
  {
    hide Search;
    var s := Search(a, {x}, rounds);
    SearchInside(a, x, c, rounds);
    SearchGrows(a, {x}, rounds);
    Strict(s, c);
  }

  /** Chunks are the components of the active dependencies; the top set of an active dependency
      is the component of its parent once the dependency is gone. */
  lemma SearchAgrees(f: Forest, g: Cluster, rounds: nat)
    requires f.Valid(g) && rounds >= |g.txns|
    ensures forall t | t in f.chunk :: Search(f.Active(), {t}, rounds) == f.Part(f.chunk[t])
    ensures forall d | d in f.top :: Search(f.Active() - {d}, {d.parent}, rounds) == f.top[d]
  {
    hide Search, Closed, Connected, IsTop;
    forall t | t in f.chunk ensures Search(f.Active(), {t}, rounds) == f.Part(f.chunk[t]) {
      Strict(f.Part(f.chunk[t]), g.txns);
      PartClosed(f, f.chunk[t]);
      SearchFinds(f.Active(), t, f.Part(f.chunk[t]), rounds);
    }
    forall d | d in f.top ensures Search(f.Active() - {d}, {d.parent}, rounds) == f.top[d] {
      Strict(f.top[d], g.txns);
      DeactivatedSides(f, g, d);
      TopParent(f.Active(), d, f.top[d]);
      SearchFinds(f.Active() - {d}, d.parent, f.top[d], rounds);
    }
  }

  lemma TopParent(a: set<Dep>, d: Dep, t: set<nat>)
    requires IsTop(a, d, t)
    ensures d.parent in t && d.child !in t
  {
  }

  // ---- Counting dependencies

  ghost predicate Tree(a: set<Dep>, c: set<nat>) {
    && c != {}
    && (forall e | e in a :: e.parent in c && e.child in c)
    && Connected(a, c)
    && (forall e | e in a :: exists t: set<nat> :: t <= c && IsTop(a, e, t))
  }

  ghost function Inside(a: set<Dep>, s: set<nat>): set<Dep> {
    set e | e in a && e.parent in s
  }

  lemma ConnectedInside(a: set<Dep>, s: set<nat>)
    requires Closed(a, s) && Connected(a, s)
    ensures Connected(Inside(a, s), s)
  {
    forall u: set<nat> | u <= s && Closed(Inside(a, s), u)
      ensures u == {} || u == s
    {
      forall e | e in a ensures !Crosses(e, u) {
        assert !Crosses(e, s);
        if e.parent in s { assert e in Inside(a, s); }
      }
      assert Closed(a, u);
    }
  }

  lemma TopInside(a: set<Dep>, s: set<nat>, e: Dep, t: set<nat>)
    requires IsTop(a, e, t)
    ensures IsTop(Inside(a, s), e, t)
  {
    forall h | h in Inside(a, s) - {e} ensures !Crosses(h, t) {
      assert h in a - {e};
    }
  }

  /** One side of a cut tree is a tree. */
  lemma SideTree(a: set<Dep>, c: set<nat>, d: Dep, t: set<nat>)
    requires Tree(a, c) && d in a && t <= c && Closed(a - {d}, t) && Closed(a - {d}, c - t) && Crosses(d, t)
    requires Connected(a - {d}, t) && Connected(a - {d}, c - t)
    ensures Tree(Inside(a - {d}, t), t)
  {
    hide Connected, IsTop, Closed;
    var a' := Inside(a - {d}, t);
    ConnectedInside(a - {d}, t);
    AllInside(a, c);
    forall e | e in a'
      ensures e.parent in t && e.child in t
      ensures exists u: set<nat> :: u <= t && IsTop(a', e, u)
    {
      NotCrossing(a - {d}, e, t);
      var u :| u <= c && IsTop(a, e, u);
      CrossesOther(d, c, t);
      CutTop(a, c, d, c - t, e, u);
      var near := if d.parent in c - t then d.child else d.parent;
      var u' := if near in u then u - (c - t) else u;
      TopInside(a - {d}, t, e, u');
      assert u' <= t;
    }
  }

  lemma CrossesOther(d: Dep, c: set<nat>, t: set<nat>)
    requires d.parent in c && d.child in c && Crosses(d, t)
    ensures Crosses(d, c - t)
  {
  }

  lemma AllInside(a: set<Dep>, c: set<nat>)
    requires forall e | e in a :: e.parent in c && e.child in c
    ensures Closed(a, c)
  {
  }

  lemma SplitCount(a: set<Dep>, d: Dep, t: set<nat>, b: set<nat>)
    requires d in a && t !! b && forall e | e in a :: e.parent in t + b
    ensures |a| == |Inside(a - {d}, t)| + |Inside(a - {d}, b)| + 1
  {
    assert a == Inside(a - {d}, t) + Inside(a - {d}, b) + {d};
    assert Inside(a - {d}, t) !! Inside(a - {d}, b);
  }

  lemma LonelyVertex(c: set<nat>)
    requires Connected({}, c) && c != {}
    ensures |c| == 1
  {
    var x := Pick(c);
    assert Closed({}, {x});
    assert c == {x};
  }

  /** A tree of N vertices has N - 1 dependencies. */
  lemma {:induction false} TreeCount(a: set<Dep>, c: set<nat>)
    requires Tree(a, c)
    ensures |a| == |c| - 1
    decreases |a|
  {
    hide Connected, Closed;
    if a == {} {
      LonelyVertex(c);
    } else {
      var d :| d in a;
      var t: set<nat> :| t <= c && IsTop(a, d, t);
      AllInside(a, c);
      SidesConnected(a, c, d, t);
      SideTree(a, c, d, t);
      assert c - (c - t) == t;
      SideTree(a, c, d, c - t);
      SplitCount(a, d, t, c - t);
      TreeCount(Inside(a - {d}, t), t);
      TreeCount(Inside(a - {d}, c - t), c - t);
      assert c == t + (c - t);
    }
  }

  /** A chunk of N transactions has N - 1 active dependencies. */
  lemma ChunkIsTree(f: Forest, g: Cluster, i: nat)
    requires f.Valid(g) && i in f.chunk.Values
    ensures Tree(Inside(f.Active(), f.Part(i)), f.Part(i))
    ensures |set d | d in f.top && f.chunk[d.parent] == i| == |f.Part(i)| - 1
  {
    hide Connected, Closed, IsTop;
    var a := Inside(f.Active(), f.Part(i));
    PartClosed(f, i);
    ConnectedInside(f.Active(), f.Part(i));
    PartNonEmpty(f, i);
    forall e | e in a
      ensures e.parent in f.Part(i) && e.child in f.Part(i)
      ensures exists t: set<nat> :: t <= f.Part(i) && IsTop(a, e, t)
    {
      TopInside(f.Active(), f.Part(i), e, f.top[e]);
      assert f.top[e] <= f.Part(i);
    }
    TreeCount(a, f.Part(i));
    assert a == set d | d in f.top && f.chunk[d.parent] == i;
  }
}
