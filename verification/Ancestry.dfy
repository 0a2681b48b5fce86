/** Ancestor relations, their reduction to direct dependencies, and the cluster this gives. */
module Ancestry {
  import opened FeeFracs
  import opened Clusters
  import opened Linearizations

  /** `up[t]` holds `t`, its ancestors, and with any transaction also that one's ancestors. */
  ghost predicate IsOrder(up: map<nat, set<nat>>) {
    && (forall t | t in up :: t in up[t] && up[t] <= up.Keys)
    && (forall t, a | t in up && a in up[t] && a in up :: up[a] <= up[t])
  }

  ghost predicate IsAcyclic(up: map<nat, set<nat>>) {
    forall t, a | t in up && a in up[t] && a in up && t in up[a] :: a == t
  }

  /** The members whose ancestors include `t`. */
  ghost function DownOf(up: map<nat, set<nat>>, t: nat): set<nat> {
    set c | c in up && t in up[c]
  }

  ghost function Down(up: map<nat, set<nat>>): map<nat, set<nat>> {
    map t | t in up :: DownOf(up, t)
  }

  lemma DownIsOrder(up: map<nat, set<nat>>)
    requires IsOrder(up)
    ensures IsOrder(Down(up)) && Down(Down(up)) == up && (IsAcyclic(up) ==> IsAcyclic(Down(up)))
  {
    forall t | t in up ensures DownOf(Down(up), t) == up[t] {
      forall a ensures a in DownOf(Down(up), t) <==> a in up[t] {
        assert a in up[t] ==> a in up;
      }
    }
  }

  /** The strict ancestors of `t` that are not ancestors of another strict ancestor of `t`. */
  ghost predicate IsReduced(up: map<nat, set<nat>>, t: nat, p: nat) {
    t in up && p in up[t] && p != t && forall q | q in up && q in up[t] && q != t && q != p :: p !in up[q]
  }

  ghost function Reduced(up: map<nat, set<nat>>, t: nat): set<nat>
    requires t in up
  {
    set p | p in up[t] && IsReduced(up, t, p)
  }

  lemma ProperSubset(a: set<nat>, b: set<nat>, t: nat)
    requires a <= b && t in b && t !in a
    ensures |a| < |b|
  {
    assert b == a + (b - a);
    assert t in b - a;
  }

  /** Every strict ancestor is reached through a reduced parent. */
  lemma {:induction false} ReducedCovers(up: map<nat, set<nat>>, t: nat, a: nat) returns (p: nat)
    requires IsOrder(up) && IsAcyclic(up) && t in up && a in up[t] && a != t
    ensures p in Reduced(up, t) && a in up[p]
    decreases |up[t]| - |up[a]|
  {
    if IsReduced(up, t, a) {
      p := a;
    } else {
      var q :| q in up && q in up[t] && q != t && q != a && a in up[q];
      ProperSubset(up[a], up[q], q);
      ProperSubset(up[q], up[t], t);
      p := ReducedCovers(up, t, q);
    }
  }

  /** Reduced parents and reduced children are each other's converse. */
  lemma ReducedConverse(up: map<nat, set<nat>>, t: nat, p: nat)
    requires IsOrder(up) && IsAcyclic(up)
    ensures IsReduced(up, t, p) <==> IsReduced(Down(up), p, t)
  {
    DownIsOrder(up);
    assert p in up && t in up ==> (t in Down(up)[p] <==> p in up[t]);
  }

  /** The cluster with the reduced parents as its dependencies. */
  ghost function ClusterOf(up: map<nat, set<nat>>, fees: map<nat, FeeFrac>): Cluster {
    Cluster(up.Keys, set t, p | t in up && p in Reduced(up, t) :: Dep(p, t), fees)
  }

  lemma ClusterDep(up: map<nat, set<nat>>, fees: map<nat, FeeFrac>, d: Dep)
    requires IsOrder(up)
    ensures d in ClusterOf(up, fees).deps <==> IsReduced(up, d.child, d.parent)
  {
  }

  /** Closed under parents is closed under ancestors. */
  lemma ClosedIff(up: map<nat, set<nat>>, fees: map<nat, FeeFrac>, s: set<nat>)
    requires IsOrder(up) && IsAcyclic(up) && s <= up.Keys
    ensures ClusterOf(up, fees).AncestorClosed(s) <==> forall t | t in s && t in up :: up[t] <= s
  {
    hide Reduced, IsReduced;
    var g := ClusterOf(up, fees);
    if g.AncestorClosed(s) {
      forall t, a | t in s && t in up && a in up[t] ensures a in s {
        ClosedReaches(up, fees, s, t, a);
      }
    } else {
      var d :| d in g.deps && d.child in s && d.parent !in s;
      ReducedIsAncestor(up, fees, d);
    }
  }

  lemma ReducedIsAncestor(up: map<nat, set<nat>>, fees: map<nat, FeeFrac>, d: Dep)
    requires d in ClusterOf(up, fees).deps
    ensures d.child in up && d.parent in up[d.child] && d.parent != d.child
  {
  }

  lemma {:induction false} ClosedReaches(up: map<nat, set<nat>>, fees: map<nat, FeeFrac>, s: set<nat>, t: nat, a: nat)
    requires IsOrder(up) && IsAcyclic(up) && ClusterOf(up, fees).AncestorClosed(s) && t in s && t in up && a in up[t]
    ensures a in s
    decreases |up[t]|
  {
    hide Reduced, IsReduced;
    if a != t {
      var p := ReducedCovers(up, t, a);
      assert Dep(p, t) in ClusterOf(up, fees).deps;
      ReducedIsAncestor(up, fees, Dep(p, t));
      ProperSubset(up[p], up[t], t);
      ClosedReaches(up, fees, s, p, a);
    }
  }

  lemma ClusterValid(up: map<nat, set<nat>>, fees: map<nat, FeeFrac>)
    requires IsOrder(up) && fees.Keys == up.Keys && forall t | t in fees :: fees[t].size > 0
    ensures ClusterOf(up, fees).Valid()
  {
    forall d | d in ClusterOf(up, fees).deps ensures d.parent in up && d.child in up && d.parent != d.child {
      ReducedIsAncestor(up, fees, d);
    }
  }

  /** No transaction of a set is without parents in it only if there is a cycle. */
  lemma ClusterAcyclic(up: map<nat, set<nat>>, fees: map<nat, FeeFrac>)
    requires IsOrder(up) && IsAcyclic(up)
    ensures ClusterOf(up, fees).Acyclic()
  {
    hide Reduced, IsReduced;
    var g := ClusterOf(up, fees);
    forall q: set<nat> | q <= g.txns && q != {} ensures exists t :: t in q && g.Parents(t) !! q {
      var t := Minimal(up, q);
      forall p | p in g.Parents(t) ensures p !in q {
        ReducedIsAncestor(up, fees, Dep(p, t));
        assert p !in up[t] * q;
      }
    }
  }

  lemma {:induction false} Minimal(up: map<nat, set<nat>>, q: set<nat>) returns (t: nat)
    requires IsOrder(up) && IsAcyclic(up) && q <= up.Keys && q != {}
    ensures t in q && up[t] * q == {t}
    decreases |q|
  {
    var u := Pick(q);
    var r := up[u] * q - {u};
    if r == {} {
      t := u;
    } else {
      ProperSubset(r, q, u);
      t := Minimal(up, r);
      assert u !in up[t];
      forall a | a in up[t] * q ensures a == t {
        assert a in up[t] * r;
      }
    }
  }

  /** An order is a linearization when no transaction comes before one of its ancestors. */
  ghost predicate AncestorsFirst(up: map<nat, set<nat>>, l: seq<nat>) {
    forall i, j | 0 <= i < j < |l| && l[i] in up :: l[j] !in up[l[i]]
  }

  lemma LinearizationIff(up: map<nat, set<nat>>, fees: map<nat, FeeFrac>, l: seq<nat>)
    requires IsOrder(up) && IsAcyclic(up) && ClusterOf(up, fees).Valid() && Distinct(l) && Elems(l) == up.Keys
    ensures IsLinearization(ClusterOf(up, fees), l) <==> AncestorsFirst(up, l)
  {
    hide Reduced, IsReduced;
    var g := ClusterOf(up, fees);
    if AncestorsFirst(up, l) {
      forall i, j | 0 <= i < j < |l| ensures Dep(l[j], l[i]) !in g.deps {
        if Dep(l[j], l[i]) in g.deps { ReducedIsAncestor(up, fees, Dep(l[j], l[i])); }
      }
    }
    if IsLinearization(g, l) {
      forall i, j | 0 <= i < j < |l| && l[i] in up ensures l[j] !in up[l[i]] {
        PrefixClosed(g, l, i + 1);
        ClosedIff(up, fees, Elems(l[..i + 1]));
        assert l[..i + 1][i] == l[i];
        assert l[i] in Elems(l[..i + 1]);
      }
    }
  }
}
