/** The spanning-forest state as a value: which chunk each transaction is in, and the top set of
    every active dependency.

    Connectivity is stated without paths. A set is closed when no active dependency leaves it; a
    chunk is a closed set without closed proper parts; an active dependency is a bridge, with its
    top set on the parent's side. */
module Forests {
  import opened Clusters

  ghost predicate Crosses(d: Dep, s: set<nat>) {
    (d.parent in s) != (d.child in s)
  }

  ghost predicate Closed(active: set<Dep>, s: set<nat>) {
    forall d | d in active :: !Crosses(d, s)
  }

  ghost predicate Connected(active: set<Dep>, c: set<nat>) {
    forall s: set<nat> :: s <= c && Closed(active, s) ==> s == {} || s == c
  }

  /** `t` is one side of the bridge `d`: only `d` leaves it, and it holds the parent. */
  ghost predicate IsTop(active: set<Dep>, d: Dep, t: set<nat>) {
    && d.parent in t && d.child !in t
    && Closed(active - {d}, t)
  }

  datatype Forest = Forest(chunk: map<nat, nat>, top: map<Dep, set<nat>>) {

    ghost function Active(): set<Dep> {
      top.Keys
    }

    ghost function Part(i: nat): set<nat> {
      set t | t in chunk && chunk[t] == i
    }

    ghost predicate ChunksClosed() {
      forall d | d in top :: d.parent in chunk && d.child in chunk && chunk[d.parent] == chunk[d.child]
    }

    ghost predicate ChunksConnected() {
      forall i | i in chunk.Values :: Connected(Active(), Part(i))
    }

    ghost predicate TopsExact() {
      forall d | d in top :: IsTop(Active(), d, top[d])
    }

    /** Top sets lie inside the chunk of their dependency. */
    ghost predicate TopsInside() {
      forall d, t | d in top && d.parent in chunk && t in top[d] :: t in chunk && chunk[t] == chunk[d.parent]
    }

    ghost predicate Valid(g: Cluster) {
      && chunk.Keys == g.txns
      && top.Keys <= g.deps
      && ChunksClosed()
      && ChunksConnected()
      && TopsExact()
      && TopsInside()
    }

    /** The top set after activating `d`, which joins chunk `p` (above) and chunk `c` (below). */
    ghost function GrownTop(d: Dep, p: set<nat>, c: set<nat>, e: Dep): set<nat>
      requires e in top
    {
      if e.parent in p && d.parent in top[e] then top[e] + c
      else if e.parent in c && d.child in top[e] then top[e] + p
      else top[e]
    }

    ghost predicate CanActivate(g: Cluster, d: Dep) {
      d in g.deps && d.parent in chunk && d.child in chunk && chunk[d.parent] != chunk[d.child]
    }

    /** The child's chunk absorbs the parent's. */
    ghost function Activated(d: Dep): Forest
      requires d.parent in chunk && d.child in chunk
    {
      var p, c := Part(chunk[d.parent]), Part(chunk[d.child]);
      Forest(map t | t in chunk :: if t in p then chunk[d.child] else chunk[t],
             (map e | e in top :: GrownTop(d, p, c, e))[d := p])
    }

    /** The top set after deactivating `d`, which splits a chunk in `t` and `b`. */
    ghost function ShrunkTop(d: Dep, t: set<nat>, b: set<nat>, e: Dep): set<nat>
      requires e in top
    {
      if e.parent in t && d.parent in top[e] then top[e] - b
      else if e.parent in b && d.child in top[e] then top[e] - t
      else top[e]
    }

    ghost predicate CanDeactivate(d: Dep, ip: nat) {
      d in top && d.parent in chunk && ip !in chunk.Values
    }

    /** The top set becomes a chunk of its own, with index `ip`. */
    ghost function Deactivated(d: Dep, ip: nat): Forest
      requires d in top && d.parent in chunk
    {
      var t := top[d];
      var b := Part(chunk[d.parent]) - t;
      Forest(map u | u in chunk :: if u in t then ip else chunk[u],
             map e | e in top && e != d :: ShrunkTop(d, t, b, e))
    }
  }

  lemma PartClosed(f: Forest, i: nat)
    requires f.ChunksClosed()
    ensures Closed(f.Active(), f.Part(i))
  {
  }

  lemma PartNonEmpty(f: Forest, i: nat)
    requires i in f.chunk.Values
    ensures f.Part(i) != {}
  {
    var t :| t in f.chunk && f.chunk[t] == i;
    assert t in f.Part(i);
  }

  // ---- Activation

  /** Two chunks joined by one dependency are connected. */
  lemma JoinConnected(a: set<Dep>, p: set<nat>, c: set<nat>, d: Dep)
    requires Closed(a, p) && Closed(a, c) && Connected(a, p) && Connected(a, c)
    requires d.parent in p && d.child in c
    ensures Connected(a + {d}, p + c)
  {
    forall s: set<nat> | s <= p + c && Closed(a + {d}, s)
      ensures s == {} || s == p + c
    {
      forall e | e in a
        ensures !Crosses(e, s * p) && !Crosses(e, s * c)
      {
        assert e in a + {d} && !Crosses(e, p) && !Crosses(e, c) && !Crosses(e, s);
      }
      assert Closed(a, s * p) && Closed(a, s * c);
      assert s == s * p + s * c;
      assert d in a + {d} && !Crosses(d, s);
    }
  }

  lemma ConnectedMore(a: set<Dep>, a': set<Dep>, c: set<nat>)
    requires Connected(a, c) && a <= a'
    ensures Connected(a', c)
  {
    forall s: set<nat> | s <= c && Closed(a', s)
      ensures s == {} || s == c
    {
      assert Closed(a, s);
    }
  }

  /** Joining chunks `p` and `c` by `d`: the top set of a dependency inside `p` grows by all of
      `c` exactly if the new dependency hangs off it. */
  lemma JoinTop(a: set<Dep>, p: set<nat>, c: set<nat>, d: Dep, e: Dep, t: set<nat>)
    requires Closed(a, p) && Closed(a, c) && p !! c && IsTop(a, e, t) && t <= p
    requires e in a && d !in a && ((d.parent in p && d.child in c) || (d.parent in c && d.child in p))
    ensures var near := if d.parent in p then d.parent else d.child;
            IsTop(a + {d}, e, if near in t then t + c else t)
  {
    var near := if d.parent in p then d.parent else d.child;
    var t' := if near in t then t + c else t;
    forall h | h in a + {d} - {e}
      ensures !Crosses(h, t')
    {
      if h != d {
        assert h in a - {e} && !Crosses(h, t);
        assert !Crosses(h, p) && !Crosses(h, c);
      }
    }
    assert !Crosses(e, p);
  }

  lemma OtherTop(a: set<Dep>, d: Dep, e: Dep, t: set<nat>)
    requires IsTop(a, e, t) && d.parent !in t && d.child !in t
    ensures IsTop(a + {d}, e, t)
  {
    forall h | h in a + {d} - {e}
      ensures !Crosses(h, t)
    {
      if h != d {
        assert h in a - {e};
      }
    }
  }

  lemma ActivatedFresh(f: Forest, g: Cluster, d: Dep)
    requires f.Valid(g) && f.CanActivate(g, d)
    ensures d !in f.top
    ensures f.Activated(d).Active() == f.Active() + {d}
    ensures f.Activated(d).Part(f.chunk[d.child]) == f.Part(f.chunk[d.parent]) + f.Part(f.chunk[d.child])
    ensures forall i | i != f.chunk[d.child] && i != f.chunk[d.parent] :: f.Activated(d).Part(i) == f.Part(i)
    ensures f.Activated(d).chunk.Values == f.chunk.Values - {f.chunk[d.parent]}
  {
    hide Connected, IsTop;
    var f' := f.Activated(d);
    forall i | i in f.chunk.Values && i != f.chunk[d.parent] ensures i in f'.chunk.Values {
      var t :| t in f.chunk && f.chunk[t] == i;
      assert f'.chunk[t] == i;
    }
    assert f'.chunk[d.child] == f.chunk[d.child];
  }

  lemma ActivatedConnected(f: Forest, g: Cluster, d: Dep)
    requires f.Valid(g) && f.CanActivate(g, d)
    ensures f.Activated(d).ChunksConnected()
  {
    hide Connected, IsTop, Closed;
    var f' := f.Activated(d);
    ActivatedFresh(f, g, d);
    var p, c := f.Part(f.chunk[d.parent]), f.Part(f.chunk[d.child]);
    forall i | i in f'.chunk.Values
      ensures Connected(f'.Active(), f'.Part(i))
    {
      if i == f.chunk[d.child] {
        PartClosed(f, f.chunk[d.parent]);
        PartClosed(f, i);
        JoinConnected(f.Active(), p, c, d);
      } else {
        ConnectedMore(f.Active(), f'.Active(), f.Part(i));
      }
    }
  }

  lemma ActivatedTopOf(f: Forest, g: Cluster, d: Dep, e: Dep)
    requires f.Valid(g) && f.CanActivate(g, d) && e in f.top && d !in f.top
    ensures var p, c := f.Part(f.chunk[d.parent]), f.Part(f.chunk[d.child]);
            IsTop(f.Active() + {d}, e, f.GrownTop(d, p, c, e))
  {
    hide Connected, IsTop, Closed;
    var p, c := f.Part(f.chunk[d.parent]), f.Part(f.chunk[d.child]);
    PartClosed(f, f.chunk[d.parent]);
    PartClosed(f, f.chunk[d.child]);
    if e.parent in p {
      JoinTop(f.Active(), p, c, d, e, f.top[e]);
    } else if e.parent in c {
      JoinTop(f.Active(), c, p, d, e, f.top[e]);
    } else {
      OtherTop(f.Active(), d, e, f.top[e]);
    }
  }

  lemma ActivatedTops(f: Forest, g: Cluster, d: Dep)
    requires f.Valid(g) && f.CanActivate(g, d)
    ensures f.Activated(d).TopsExact()
    ensures f.Activated(d).TopsInside()
  {
    hide Connected, IsTop, Closed;
    var f' := f.Activated(d);
    ActivatedFresh(f, g, d);
    forall e | e in f'.top
      ensures IsTop(f'.Active(), e, f'.top[e])
    {
      if e == d {
        NewTop(f, g, d);
      } else {
        ActivatedTopOf(f, g, d, e);
      }
    }
  }

  lemma NewTop(f: Forest, g: Cluster, d: Dep)
    requires f.Valid(g) && f.CanActivate(g, d) && d !in f.top
    ensures IsTop(f.Active() + {d}, d, f.Part(f.chunk[d.parent]))
  {
    hide Connected;
    PartClosed(f, f.chunk[d.parent]);
    assert f.Active() + {d} - {d} == f.Active();
  }

  /** Activating an inactive dependency between two chunks merges them into one chunk of a
      well-formed forest. */
  lemma ActivatedValid(f: Forest, g: Cluster, d: Dep)
    requires f.Valid(g) && f.CanActivate(g, d)
    ensures d !in f.top
    ensures f.Activated(d).Valid(g)
  {
    hide Connected, IsTop, Closed;
    ActivatedFresh(f, g, d);
    ActivatedConnected(f, g, d);
    ActivatedTops(f, g, d);
  }

  // ---- Deactivation

  /** A part closed under everything but `d` is trivial, if `d` connects it to the rest. */
  lemma SideSplit(a: set<Dep>, c: set<nat>, d: Dep, t: set<nat>, s: set<nat>)
    requires Connected(a, c) && d in a && t <= c && Closed(a - {d}, t) && Crosses(d, t)
    requires s <= t && Closed(a - {d}, s) && d.parent in c && d.child in c
    ensures s == {} || s == t
  {
    var u := if Crosses(d, s) then t - s else s;
    forall e | e in a ensures !Crosses(e, u) {
      if e != d {
        assert e in a - {d} && !Crosses(e, s) && !Crosses(e, t);
      }
    }
    assert Closed(a, u);
    assert u <= c && u != c;
  }

  /** An active dependency cuts its chunk in exactly two connected sides. */
  lemma SidesConnected(a: set<Dep>, c: set<nat>, d: Dep, t: set<nat>)
    requires Closed(a, c) && Connected(a, c) && d in a && IsTop(a, d, t) && t <= c
    ensures d.child in c
    ensures Closed(a - {d}, t) && Connected(a - {d}, t)
    ensures Closed(a - {d}, c - t) && Connected(a - {d}, c - t)
  {
    hide Connected;
    assert !Crosses(d, c);
    forall e | e in a - {d} ensures !Crosses(e, c - t) {
      assert !Crosses(e, t) && !Crosses(e, c);
    }
    SideConnected(a, c, d, t);
    SideConnected(a, c, d, c - t);
  }

  lemma SideConnected(a: set<Dep>, c: set<nat>, d: Dep, t: set<nat>)
    requires Connected(a, c) && d in a && t <= c && Closed(a - {d}, t) && Crosses(d, t)
    requires d.parent in c && d.child in c
    ensures Connected(a - {d}, t)
  {
    hide Closed;
    forall s: set<nat> | s <= t && Closed(a - {d}, s)
      ensures s == {} || s == t
    {
      SideSplit(a, c, d, t, s);
    }
  }

  /** Another dependency's top set contains all of the far side of `d`, or none of it; removing
      that far side leaves the top set with respect to the remaining dependencies. */
  lemma CutTop(a: set<Dep>, c: set<nat>, d: Dep, far: set<nat>, e: Dep, t: set<nat>)
    requires d in a && e in a && d != e && Closed(a, c) && far <= c
    requires Closed(a - {d}, far) && Connected(a - {d}, far) && Crosses(d, far)
    requires IsTop(a, e, t) && t <= c && e.parent !in far && e.child !in far
    ensures var near := if d.parent in far then d.child else d.parent;
            var t' := if near in t then t - far else t;
            IsTop(a - {d}, e, t') && t' !! far && (near in t ==> far <= t)
  {
    var near := if d.parent in far then d.child else d.parent;
    var t' := if near in t then t - far else t;
    assert !Crosses(d, t);
    forall h | h in a - {d} ensures !Crosses(h, t * far) && (h != e ==> !Crosses(h, t')) {
      assert !Crosses(h, far);
      if h != e {
        assert h in a - {e} && !Crosses(h, t);
      }
    }
    assert Closed(a - {d}, t * far);
    var away := if d.parent in far then d.parent else d.child;
    assert away in t * far <==> near in t;
    assert t * far == {} || t * far == far;
    if near !in t {
      forall x | x in t ensures x !in far { assert x in t * far <==> x in far; }
    }
    assert Closed(a - {d} - {e}, t');
  }

  lemma ConnectedElsewhere(a: set<Dep>, d: Dep, c: set<nat>)
    requires Connected(a, c) && d.parent !in c && d.child !in c
    ensures Connected(a - {d}, c)
  {
    forall s: set<nat> | s <= c && Closed(a - {d}, s)
      ensures s == {} || s == c
    {
      forall e | e in a ensures !Crosses(e, s) {
        assert e == d || e in a - {d};
      }
      assert Closed(a, s);
    }
  }

  lemma FewerTop(a: set<Dep>, d: Dep, e: Dep, t: set<nat>)
    requires IsTop(a, e, t)
    ensures IsTop(a - {d}, e, t)
  {
    forall h | h in a - {d} - {e} ensures !Crosses(h, t) {
      assert h in a - {e};
    }
  }

  lemma DeactivatedParts(f: Forest, g: Cluster, d: Dep, ip: nat)
    requires f.Valid(g) && f.CanDeactivate(d, ip)
    ensures var ic, f' := f.chunk[d.parent], f.Deactivated(d, ip);
            && f.top[d] <= f.Part(ic)
            && f'.Active() == f.Active() - {d}
            && f'.Part(ip) == f.top[d]
            && f'.Part(ic) == f.Part(ic) - f.top[d]
            && (forall i | i != ip && i != ic :: f'.Part(i) == f.Part(i))
            && f'.chunk.Values == f.chunk.Values + {ip}
            && f'.chunk[d.parent] == ip && f'.chunk[d.child] == ic
  {
    hide Connected, Closed;
    var ic, f' := f.chunk[d.parent], f.Deactivated(d, ip);
    assert IsTop(f.Active(), d, f.top[d]);
    forall t | t in f.chunk ensures f'.chunk[t] in f.chunk.Values + {ip} {
    }
    forall i | i in f.chunk.Values ensures i in f'.chunk.Values {
      if i == ic {
        assert f'.chunk[d.child] == ic;
      } else {
        var t :| t in f.chunk && f.chunk[t] == i;
        assert f'.chunk[t] == i;
      }
    }
    assert f'.chunk[d.parent] == ip;
  }

  lemma DeactivatedSides(f: Forest, g: Cluster, d: Dep)
    requires f.Valid(g) && d in f.top
    ensures var ic := f.chunk[d.parent];
            && f.top[d] <= f.Part(ic)
            && IsTop(f.Active(), d, f.top[d])
            && d.child in f.Part(ic)
            && Closed(f.Active() - {d}, f.top[d]) && Connected(f.Active() - {d}, f.top[d])
            && Closed(f.Active() - {d}, f.Part(ic) - f.top[d]) && Connected(f.Active() - {d}, f.Part(ic) - f.top[d])
  {
    hide Connected, Closed, IsTop;
    var ic := f.chunk[d.parent];
    PartClosed(f, ic);
    SidesConnected(f.Active(), f.Part(ic), d, f.top[d]);
  }

  lemma DeactivatedConnected(f: Forest, g: Cluster, d: Dep, ip: nat)
    requires f.Valid(g) && f.CanDeactivate(d, ip)
    ensures f.Deactivated(d, ip).ChunksConnected()
  {
    hide Connected, Closed, IsTop;
    var f' := f.Deactivated(d, ip);
    DeactivatedParts(f, g, d, ip);
    DeactivatedSides(f, g, d);
    forall i | i in f'.chunk.Values
      ensures Connected(f'.Active(), f'.Part(i))
    {
      if i != ip && i != f.chunk[d.parent] {
        ConnectedElsewhere(f.Active(), d, f.Part(i));
      }
    }
  }

  lemma DeactivatedTopOf(f: Forest, g: Cluster, d: Dep, e: Dep)
    requires f.Valid(g) && d in f.top && e in f.top && e != d
    ensures var t := f.top[d];
            var b := f.Part(f.chunk[d.parent]) - t;
            && IsTop(f.Active() - {d}, e, f.ShrunkTop(d, t, b, e))
            && (e.parent in t ==> f.ShrunkTop(d, t, b, e) <= t && e.child in t)
            && (e.parent in b ==> f.ShrunkTop(d, t, b, e) <= b && e.child in b)
            && (e.parent !in t + b ==> f.ShrunkTop(d, t, b, e) == f.top[e] && e.child !in t + b)
            && (e.parent in t && d.parent in f.top[e] ==> b <= f.top[e])
            && (e.parent in b && d.child in f.top[e] ==> t <= f.top[e])
  {
    hide Connected, Closed;
    var a, c, t := f.Active(), f.Part(f.chunk[d.parent]), f.top[d];
    var b := c - t;
    DeactivatedSides(f, g, d);
    PartClosed(f, f.chunk[d.parent]);
    NotCrossing(a - {d}, e, t);
    NotCrossing(a - {d}, e, b);
    if e.parent in t {
      CutTop(a, c, d, b, e, f.top[e]);
    } else if e.parent in b {
      CutTop(a, c, d, t, e, f.top[e]);
    } else {
      FewerTop(a, d, e, f.top[e]);
    }
  }

  lemma NotCrossing(a: set<Dep>, e: Dep, s: set<nat>)
    requires Closed(a, s) && e in a
    ensures e.parent in s <==> e.child in s
  {
    assert !Crosses(e, s);
  }

  /** Deactivating an active dependency splits its chunk in two, again a well-formed forest. */
  lemma DeactivatedValid(f: Forest, g: Cluster, d: Dep, ip: nat)
    requires f.Valid(g) && f.CanDeactivate(d, ip)
    ensures f.Deactivated(d, ip).Valid(g)
  {
    hide Connected, Closed, IsTop;
    var f' := f.Deactivated(d, ip);
    DeactivatedParts(f, g, d, ip);
    DeactivatedConnected(f, g, d, ip);
    forall e | e in f'.top
      ensures IsTop(f'.Active(), e, f'.top[e])
      ensures f'.chunk[e.parent] == f'.chunk[e.child]
      ensures forall t | t in f'.top[e] :: t in f'.chunk && f'.chunk[t] == f'.chunk[e.parent]
    {
      DeactivatedTopOf(f, g, d, e);
    }
  }
}
