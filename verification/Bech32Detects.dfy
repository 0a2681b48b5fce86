/** The checksum code detects any three errors within 1023 consecutive symbols. */
module Bech32Detects {
  import opened Bech32Code
  import opened Bech32Field
  import opened Bech32Powers
  import opened Bech32Errors

  // ---- Evaluating residues

  /** The residue, as a polynomial over the symbols, at `b`. */
  ghost function Value(c: bv32, b: bv32): bv32 {
    Horner(LiftAll(Unpack(c)), b)
  }

  /** The coefficients after a step: those before, moved up, plus multiples of the generator's. */
  lemma StepCoefficients(c: bv32, v: bv32)
    requires IsResidue(c) && v < 32
    ensures var s := Unpack(c);
            Unpack(Step(c, v)) ==
            [Xor(s[1], Product(s[0], 29)), Xor(s[2], Product(s[0], 22)), Xor(s[3], Product(s[0], 20)),
             Xor(s[4], Product(s[0], 21)), Xor(s[5], Product(s[0], 29)), Xor(v, Product(s[0], 18))]
  {
    hide Step, PackSix, Xor, Product;
    UnpackSymbols(c);
    PackUnpack(c);
    var s := Unpack(c);
    StepIsDivision(s[0], s[1], s[2], s[3], s[4], s[5], v);
    ProductSymbol(s[0], 29);
    ProductSymbol(s[0], 22);
    ProductSymbol(s[0], 20);
    ProductSymbol(s[0], 21);
    ProductSymbol(s[0], 18);
    XorSymbol(s[1], Product(s[0], 29));
    XorSymbol(s[2], Product(s[0], 22));
    XorSymbol(s[3], Product(s[0], 20));
    XorSymbol(s[4], Product(s[0], 21));
    XorSymbol(s[5], Product(s[0], 29));
    XorSymbol(v, Product(s[0], 18));
    hide Unpack;
    UnpackSix(Xor(s[1], Product(s[0], 29)), Xor(s[2], Product(s[0], 22)), Xor(s[3], Product(s[0], 20)),
              Xor(s[4], Product(s[0], 21)), Xor(s[5], Product(s[0], 29)), Xor(v, Product(s[0], 18)));
  }

  lemma LiftedStep(x: bv32, c: bv32, k: bv32)
    requires k < 32
    ensures Lift(Xor(x, Product(c, k))) == Xor(Lift(x), Times(Lift(c), Lift(k)))
  {
    hide Lift, Xor, Product, Times;
    LiftXor(x, Product(c, k));
    LiftProduct(c, k);
  }

  ghost predicate Combined(t: seq<bv32>, x: seq<bv32>, c: bv32, k: seq<bv32>) {
    |t| == |x| == |k| && forall i | 0 <= i < |t| :: k[i] < 32 && t[i] == Xor(x[i], Product(c, k[i]))
  }

  lemma StepCombined(c: bv32, v: bv32)
    requires IsResidue(c) && v < 32
    ensures Combined(Unpack(Step(c, v)), Unpack(c)[1..] + [v], Unpack(c)[0], TAIL)
  {
    hide Step, Xor, Product;
    StepCoefficients(c, v);
    hide Unpack;
  }

  lemma LiftedCombination(t: seq<bv32>, x: seq<bv32>, c: bv32, k: seq<bv32>)
    requires Combined(t, x, c, k)
    ensures LiftAll(t) == XorAll(LiftAll(x), Scale(Lift(c), LiftAll(k)))
  {
    hide Lift, Xor, Product, Times;
    forall i | 0 <= i < |t| ensures Lift(t[i]) == Xor(Lift(x[i]), Times(Lift(c), Lift(k[i]))) {
      LiftedStep(x[i], c, k[i]);
    }
  }

  /** A step multiplies the value at a root by the root, and adds the symbol. */
  lemma StepValue(c: bv32, v: bv32, b: bv32)
    requires IsResidue(c) && v < 32 && IsRoot(b)
    ensures Value(Step(c, v), b) == Xor(Times(Value(c, b), b), Lift(v))
  {
    hide Step, Xor, Product, Times, Lift, InField, Horner, Power;
    var s := Unpack(c);
    StepCombined(c, v);
    hide Unpack;
    var t, x := s[1..] + [v], Lift(s[0]);
    LiftedCombination(Unpack(Step(c, v)), t, s[0], TAIL);
    assert |LiftAll(t)| == 6 == |Scale(x, LiftAll(TAIL))|;
    HornerXor(LiftAll(t), Scale(x, LiftAll(TAIL)), b);
    LiftAllInField(TAIL);
    HornerScale(x, LiftAll(TAIL), b);
    LiftInField(s[0]);
    HornerFirst(x, LiftAll(t), b);
    XorCommutative(Times(x, Power(b, 6)), Horner(LiftAll(t), b));
    assert [x] + LiftAll(t) == LiftAll(s) + [Lift(v)];
    HornerLast(LiftAll(s), Lift(v), b);
  }

  lemma HornerLast(s: seq<bv32>, v: bv32, b: bv32)
    ensures Horner(s + [v], b) == Xor(Times(Horner(s, b), b), v)
  {
    hide Times, Xor;
    assert (s + [v])[..|s|] == s;
  }

  lemma {:induction false} RunValue(d: seq<bv32>, b: bv32)
    requires Symbols(d) && IsRoot(b)
    ensures Value(Run(0, d), b) == Horner(LiftAll(d), b)
    decreases |d|
  {
    hide Step, Times, Xor, Lift, IsRoot;
    if d == [] {
      assert Value(0, b) == 0 by { ZeroValue(b); }
    } else {
      var n := |d| - 1;
      hide Value;
      RunValue(d[..n], b);
      RunResidue(0, d[..n]);
      StepValue(Run(0, d[..n]), d[n], b);
      assert LiftAll(d)[..n] == LiftAll(d[..n]);
    }
  }

  lemma ZeroValue(b: bv32)
    ensures Value(0, b) == 0
  {
    var s := Unpack(0);
    assert s == [0, 0, 0, 0, 0, 0];
    LiftZero(0);
    hide Lift, Horner;
    HornerZeros(LiftAll(s), b);
  }

  // ---- Three terms

  lemma CancelLast(a: bv32, b: bv32, c: bv32, a': bv32, b': bv32)
    requires Xor(Xor(a, b), c) == 0 && Xor(Xor(a', b'), c) == 0
    ensures Xor(a, a') == Xor(b, b')
  {
    hide Xor;
    XorEqual(Xor(a, b), c);
    XorEqual(Xor(a', b'), c);
    XorEqual(Xor(a, b), Xor(a', b'));
    Exchange(a, b, a', b');
    XorEqual(Xor(a, a'), Xor(b, b'));
  }

  /** Three terms whose sums with the powers 0, 1 and 2 of different factors all vanish: the first is zero. */
  lemma FirstVanishes(u: bv32, v: bv32, w: bv32, x: bv32, y: bv32, z: bv32)
    requires InField(u) && InField(v) && InField(w) && InField(x) && InField(y) && InField(z)
    requires x != y && x != z
    requires Xor(Xor(u, v), w) == 0
    requires Xor(Xor(Times(u, x), Times(v, y)), Times(w, z)) == 0
    requires Xor(Xor(Times(Times(u, x), x), Times(Times(v, y), y)), Times(Times(w, z), z)) == 0
    ensures u == 0
  {
    hide Times, Xor, InField;
    var a, b := Times(u, Xor(z, x)), Times(v, Xor(z, y));
    assert a == b by { Differences(u, v, w, x, y, z); }
    TimesInField(u, x);
    TimesInField(v, y);
    TimesInField(w, z);
    Differences(Times(u, x), Times(v, y), Times(w, z), x, y, z);
    XorInField(z, x);
    XorInField(z, y);
    Reorder(u, x, Xor(z, x));
    Reorder(v, y, Xor(z, y));
    assert Times(a, x) == Times(b, y);
    TimesInField(u, Xor(z, x));
    TimesAddRight(a, x, y);
    XorEqual(Times(a, x), Times(a, y));
    XorInField(x, y);
    NoZeroDivisors(a, Xor(x, y));
    XorEqual(x, y);
    NoZeroDivisors(u, Xor(z, x));
    XorEqual(z, x);
  }

  lemma Reorder(u: bv32, x: bv32, s: bv32)
    requires InField(u) && InField(x) && InField(s)
    ensures Times(Times(u, x), s) == Times(Times(u, s), x)
  {
    hide Times, InField;
    TimesAssociates(u, x, s);
    TimesCommutes(x, s);
    TimesAssociates(u, s, x);
  }

  lemma Differences(u: bv32, v: bv32, w: bv32, x: bv32, y: bv32, z: bv32)
    requires Xor(Xor(u, v), w) == 0 && Xor(Xor(Times(u, x), Times(v, y)), Times(w, z)) == 0
    ensures Times(u, Xor(z, x)) == Times(v, Xor(z, y))
  {
    hide Times, Xor;
    TimesAddLeft(Xor(u, v), w, z);
    TimesAddLeft(u, v, z);
    TimesZero(z);
    CancelLast(Times(u, z), Times(v, z), Times(w, z), Times(u, x), Times(v, y));
    TimesAddRight(u, z, x);
    TimesAddRight(v, z, y);
  }

  // ---- Three errors

  ghost predicate Outside(d: seq<bv32>, p: nat, q: nat, r: nat) {
    forall i | 0 <= i < |d| && i != p && i != q && i != r :: d[i] == 0
  }

  /** A polynomial with at most three terms. */
  lemma ThreeTerms(s: seq<bv32>, p: nat, q: nat, r: nat, b: bv32)
    requires p < q < r < |s| && AllInField(s) && InField(b) && Outside(s, p, q, r)
    ensures var n := |s| - 1;
            Horner(s, b) ==
              Xor(Xor(Times(s[p], Power(b, n - p)), Times(s[q], Power(b, n - q))), Times(s[r], Power(b, n - r)))
  {
    hide Times, Xor, Power, InField, Horner;
    var s1 := s[r := 0];
    var s2 := s1[q := 0];
    var s3 := s2[p := 0];
    Zero();
    HornerPoint(s, r, b);
    HornerPoint(s1, q, b);
    HornerPoint(s2, p, b);
    HornerZeros(s3, b);
    XorSelf(Times(s[p], Power(b, |s| - 1 - p)));
  }

  lemma Zero()
    ensures InField(0)
  {
  }

  /** The powers of the three roots. */
  lemma RootPowers(l: bv32, k: nat)
    requires InField(l)
    ensures var u, x := Times(l, Power(13, k)), Power(2, k);
            InField(u) && InField(x) && Times(l, Power(26, k)) == Times(u, x)
            && Times(l, Power(52, k)) == Times(Times(u, x), x)
  {
    RootProducts();
    hide Times, Power, InField;
    PowerInField(13, k);
    PowerInField(26, k);
    PowerInField(2, k);
    PowerTimes(13, 2, k);
    PowerTimes(26, 2, k);
    TimesInField(l, Power(13, k));
    TimesAssociates(l, Power(13, k), Power(2, k));
    TimesAssociates(l, Power(26, k), Power(2, k));
  }

  lemma RootProducts()
    ensures InField(13) && InField(26) && InField(52) && InField(2) && Times(13, 2) == 26 && Times(26, 2) == 52
  {
    TwiceIs(13);
    TwiceIs(26);
  }

  /** A sequence with residue zero is zero at every root. */
  lemma ZeroAtRoot(d: seq<bv32>, b: bv32)
    requires Symbols(d) && IsRoot(b) && Run(0, d) == 0
    ensures InField(b) && Horner(LiftAll(d), b) == 0
  {
    RunValue(d, b);
    hide Times, Xor, Power, Lift, Horner, Value, Run;
    ZeroValue(b);
  }

  ghost function TermAt(d: seq<bv32>, i: nat, b: bv32): bv32
    requires i < |d|
  {
    Times(Lift(d[i]), Power(b, |d| - 1 - i))
  }

  lemma SumAt(d: seq<bv32>, p: nat, q: nat, r: nat, b: bv32)
    requires p < q < r < |d| && Outside(d, p, q, r) && InField(b) && Horner(LiftAll(d), b) == 0
    ensures Xor(Xor(TermAt(d, p, b), TermAt(d, q, b)), TermAt(d, r, b)) == 0
  {
    hide Times, Xor, Power, Lift, Horner, InField;
    LiftAllInField(d);
    LiftZero(0);
    ThreeTerms(LiftAll(d), p, q, r, b);
  }

  lemma TermsVanish(d: seq<bv32>, p: nat, q: nat, r: nat)
    requires p < q < r < |d| && r - p < 1023 && Symbols(d) && Outside(d, p, q, r) && Run(0, d) == 0
    ensures d[p] == 0 && d[q] == 0 && d[r] == 0
  {
    hide Times, Xor, Power, Lift, IsRoot, InField, Run, Outside;
    Root13();
    Root26();
    Root52();
    ZeroAtRoot(d, 13);
    ZeroAtRoot(d, 26);
    ZeroAtRoot(d, 52);
    hide Horner;
    SumAt(d, p, q, r, 13);
    SumAt(d, p, q, r, 26);
    SumAt(d, p, q, r, 52);
    var n := |d| - 1;
    LiftInField(d[p]);
    LiftInField(d[q]);
    LiftInField(d[r]);
    RootPowers(Lift(d[p]), n - p);
    RootPowers(Lift(d[q]), n - q);
    RootPowers(Lift(d[r]), n - r);
    PowersDiffer(n - q, n - p);
    PowersDiffer(n - r, n - p);
    PowersDiffer(n - r, n - q);
    AllVanish(TermAt(d, p, 13), TermAt(d, q, 13), TermAt(d, r, 13), Power(2, n - p), Power(2, n - q), Power(2, n - r));
    FactorVanishes(d[p], n - p);
    FactorVanishes(d[q], n - q);
    FactorVanishes(d[r], n - r);
  }

  lemma AllVanish(u: bv32, v: bv32, w: bv32, x: bv32, y: bv32, z: bv32)
    requires InField(u) && InField(v) && InField(w) && InField(x) && InField(y) && InField(z)
    requires x != y && x != z && y != z
    requires Xor(Xor(u, v), w) == 0
    requires Xor(Xor(Times(u, x), Times(v, y)), Times(w, z)) == 0
    requires Xor(Xor(Times(Times(u, x), x), Times(Times(v, y), y)), Times(Times(w, z), z)) == 0
    ensures u == 0 && v == 0 && w == 0
  {
    hide Times, Xor, InField;
    FirstVanishes(u, v, w, x, y, z);
    XorCommutative(u, v);
    XorCommutative(Times(u, x), Times(v, y));
    XorCommutative(Times(Times(u, x), x), Times(Times(v, y), y));
    FirstVanishes(v, u, w, y, x, z);
    XorSelf(0);
    XorSelf(w);
  }

  lemma FactorVanishes(x: bv32, k: nat)
    requires x < 32 && Times(Lift(x), Power(13, k)) == 0
    ensures x == 0
  {
    hide Times, Power, Lift;
    PowerInField(13, k);
    PowerNonZero(13, k);
    LiftInField(x);
    NoZeroDivisors(Lift(x), Power(13, k));
    LiftZero(x);
  }

  /** `v` and `w` are equal except at three places. */
  ghost predicate DifferAt(v: seq<bv32>, w: seq<bv32>, p: nat, q: nat, r: nat) {
    |v| == |w| && forall i | 0 <= i < |v| && i != p && i != q && i != r :: v[i] == w[i]
  }

  /** Any three errors within 1023 consecutive symbols change the residue. */
  lemma ThreeErrorsDetected(c: bv32, v: seq<bv32>, w: seq<bv32>, p: nat, q: nat, r: nat)
    requires Symbols(v) && Symbols(w) && DifferAt(v, w, p, q, r) && v != w
    requires p < q < r < |v| && r - p < 1023
    ensures Run(c, v) != Run(c, w)
  {
    hide Run;
    var d := XorAll(v, w);
    DifferenceAt(v, w, p, q, r);
    RunLinear(c, c, v, w);
    XorSelf(c);
    hide Xor;
    XorEqual(Run(c, v), Run(c, w));
    if Run(0, d) == 0 { TermsVanish(d, p, q, r); }
  }

  lemma DifferenceAt(v: seq<bv32>, w: seq<bv32>, p: nat, q: nat, r: nat)
    requires Symbols(v) && Symbols(w) && DifferAt(v, w, p, q, r) && v != w && p < q < r < |v|
    ensures var d := XorAll(v, w);
            Symbols(d) && Outside(d, p, q, r) && (d[p] != 0 || d[q] != 0 || d[r] != 0)
  {
    hide Xor;
    var d := XorAll(v, w);
    forall i | 0 <= i < |d| ensures d[i] < 32 && (d[i] == 0 <==> v[i] == w[i]) {
      XorEqual(v[i], w[i]);
      XorSymbol(v[i], w[i]);
    }
    var i :| 0 <= i < |v| && v[i] != w[i];
  }
}
