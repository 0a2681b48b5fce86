/** A cluster of transactions with direct dependencies between them, as the linearizer sees it. */
module Clusters {
  import opened FeeFracs

  ghost function Pick(s: set<nat>): (t: nat)
    requires s != {}
    ensures t in s
  {
    var t :| t in s;
    t
  }

  /** Transaction `child` spends an output of transaction `parent`. */
  datatype Dep = Dep(parent: nat, child: nat)

  datatype Cluster = Cluster(txns: set<nat>, deps: set<Dep>, feerate: map<nat, FeeFrac>) {

    ghost predicate Valid() {
      && feerate.Keys == txns
      && (forall t | t in txns :: feerate[t].size > 0)
      && (forall d | d in deps :: d.parent in txns && d.child in txns && d.parent != d.child)
    }

    /** No dependency cycles: every non-empty set of transactions has a member without parents
        in the set. */
    ghost predicate Acyclic() {
      forall q: set<nat> :: q <= txns && q != {} ==> exists t :: t in q && Parents(t) !! q
    }

    function Parents(t: nat): set<nat> {
      set d | d in deps && d.child == t :: d.parent
    }

    function Children(t: nat): set<nat> {
      set d | d in deps && d.parent == t :: d.child
    }

    /** `s` includes all parents of its members. */
    ghost predicate AncestorClosed(s: set<nat>) {
      s <= txns && forall d | d in deps && d.child in s :: d.parent in s
    }

    /** Total fee and size of a set of transactions. */
    ghost function FeeOf(s: set<nat>): FeeFrac
      requires s <= feerate.Keys
    {
      if s == {} then EMPTY else feerate[Pick(s)].Plus(FeeOf(s - {Pick(s)}))
    }

    lemma FeeOfEmpty()
      ensures FeeOf({}) == EMPTY
    {
    }

    lemma {:induction false} FeeOfRemove(s: set<nat>, t: nat)
      requires s <= feerate.Keys && t in s
      ensures FeeOf(s) == feerate[t].Plus(FeeOf(s - {t}))
      decreases |s|
    {
      var u := Pick(s);
      if u != t {
        assert s - {u} - {t} == s - {t} - {u};
        FeeOfRemove(s - {u}, t);
        FeeOfRemove(s - {t}, u);
      }
    }

    lemma {:induction false} FeeOfUnion(a: set<nat>, b: set<nat>)
      requires a <= feerate.Keys && b <= feerate.Keys && a !! b
      ensures FeeOf(a + b) == FeeOf(a).Plus(FeeOf(b))
      decreases |a|
    {
      hide FeeOf;
      FeeOfEmpty();
      if a == {} {
        assert a + b == b;
      } else {
        var t := Pick(a);
        assert a + b - {t} == (a - {t}) + b;
        FeeOfUnion(a - {t}, b);
        FeeOfRemove(a, t);
        FeeOfRemove(a + b, t);
      }
    }

    lemma FeeOfSingleton(t: nat)
      requires t in feerate
      ensures FeeOf({t}) == feerate[t]
    {
      hide FeeOf;
      FeeOfEmpty();
      FeeOfRemove({t}, t);
      assert {t} - {t} == {};
    }

    lemma {:induction false} SizePositive(s: set<nat>)
      requires Valid() && s <= txns && s != {}
      ensures FeeOf(s).size > 0
      decreases |s|
    {
      hide FeeOf;
      FeeOfEmpty();
      var t := Pick(s);
      FeeOfRemove(s, t);
      if s - {t} != {} {
        SizePositive(s - {t});
      }
    }
    /** Feerate of a non-empty set of transactions. */
    ghost function RateOf(s: set<nat>): real
      requires Valid() && s <= txns && s != {}
    {
      SizePositive(s);
      Rate(FeeOf(s))
    }

    /** What the set pays above the threshold feerate `lam`. */
    ghost function GainOf(s: set<nat>, lam: real): real
      requires s <= feerate.Keys
    {
      Gain(FeeOf(s), lam)
    }

    lemma GainOfEmpty(lam: real)
      ensures GainOf({}, lam) == 0.0
    {
      FeeOfEmpty();
    }

    lemma GainOfUnion(a: set<nat>, b: set<nat>, lam: real)
      requires a <= feerate.Keys && b <= feerate.Keys && a !! b
      ensures GainOf(a + b, lam) == GainOf(a, lam) + GainOf(b, lam)
    {
      hide FeeOf;
      FeeOfUnion(a, b);
      GainPlus(FeeOf(a), FeeOf(b), lam);
    }

    /** Inclusion-exclusion. */
    lemma GainOfModular(a: set<nat>, b: set<nat>, lam: real)
      requires a <= feerate.Keys && b <= feerate.Keys
      ensures GainOf(a + b, lam) + GainOf(a * b, lam) == GainOf(a, lam) + GainOf(b, lam)
    {
      hide FeeOf;
      GainOfUnion(a, b - a, lam);
      GainOfUnion(b - a, a * b, lam);
      assert a + (b - a) == a + b && (b - a) + a * b == b;
    }

    lemma GainOfSign(s: set<nat>, lam: real)
      requires Valid() && s <= txns && s != {}
      ensures GainOf(s, lam) > 0.0 <==> RateOf(s) > lam
      ensures GainOf(s, lam) == 0.0 <==> RateOf(s) == lam
    {
      SizePositive(s);
      GainSign(FeeOf(s), lam);
    }

    lemma RateOfUnion(a: set<nat>, b: set<nat>)
      requires Valid() && a <= txns && b <= txns && a !! b && a != {} && b != {}
      ensures RateOf(a) < RateOf(b) ==> RateOf(a) < RateOf(a + b) < RateOf(b)
      ensures RateOf(a) == RateOf(b) ==> RateOf(a + b) == RateOf(a)
      ensures RateOf(a) > RateOf(b) ==> RateOf(b) < RateOf(a + b) < RateOf(a)
    {
      FeeOfUnion(a, b);
      SizePositive(a);
      SizePositive(b);
      Mediant(FeeOf(a), FeeOf(b));
    }
  }
}
