/** Which errors the checksum code detects, by evaluating residues at three consecutive roots of the generator. */
module Bech32Errors {
  import opened Bech32Code
  import opened Bech32Field
  import opened Bech32Powers

  // ---- Symbols as field elements

  /** The element of the field of 1024 elements that a symbol stands for. */
  function Lift(x: bv32): bv32 {
    Xor(Xor(Xor(Xor(Term(x, 1, 1), Term(x, 2, 333)), Term(x, 4, 643)), Term(x, 8, 615)), Term(x, 16, 290))
  }

  lemma LiftXor(a: bv32, b: bv32)
    ensures Lift(Xor(a, b)) == Xor(Lift(a), Lift(b))
  {
    hide Xor, Term;
    TermLinear(a, b, 1, 1);
    TermLinear(a, b, 2, 333);
    TermLinear(a, b, 4, 643);
    TermLinear(a, b, 8, 615);
    TermLinear(a, b, 16, 290);
    var a1, b1 := Term(a, 1, 1), Term(b, 1, 1);
    var a2, b2 := Xor(a1, Term(a, 2, 333)), Xor(b1, Term(b, 2, 333));
    var a3, b3 := Xor(a2, Term(a, 4, 643)), Xor(b2, Term(b, 4, 643));
    var a4, b4 := Xor(a3, Term(a, 8, 615)), Xor(b3, Term(b, 8, 615));
    Exchange(a1, b1, Term(a, 2, 333), Term(b, 2, 333));
    Exchange(a2, b2, Term(a, 4, 643), Term(b, 4, 643));
    Exchange(a3, b3, Term(a, 8, 615), Term(b, 8, 615));
    Exchange(a4, b4, Term(a, 16, 290), Term(b, 16, 290));
  }

  lemma LiftInField(x: bv32)
    ensures InField(Lift(x))
  {
  }

  lemma LiftZero(x: bv32)
    requires x < 32
    ensures Lift(x) == 0 <==> x == 0
  {
  }

  // ---- Polynomials

  /** The value of the polynomial with coefficients `s`, highest first. */
  ghost function Horner(s: seq<bv32>, b: bv32): bv32 {
    if s == [] then 0 else Xor(Times(Horner(s[..|s| - 1], b), b), s[|s| - 1])
  }

  ghost predicate AllInField(s: seq<bv32>) {
    forall i | 0 <= i < |s| :: InField(s[i])
  }

  lemma {:induction false} HornerInField(s: seq<bv32>, b: bv32)
    requires AllInField(s) && InField(b)
    ensures InField(Horner(s, b))
    decreases |s|
  {
    hide Times, Xor;
    if s != [] {
      var n := |s| - 1;
      HornerInField(s[..n], b);
      TimesInField(Horner(s[..n], b), b);
      XorInField(Times(Horner(s[..n], b), b), s[n]);
    }
  }

  lemma {:induction false} HornerXor(s: seq<bv32>, t: seq<bv32>, b: bv32)
    requires |s| == |t|
    ensures Horner(XorAll(s, t), b) == Xor(Horner(s, b), Horner(t, b))
    decreases |s|
  {
    hide Times, Xor;
    if s == [] {
      XorSelf(0);
    } else {
      var n := |s| - 1;
      assert XorAll(s, t)[..n] == XorAll(s[..n], t[..n]);
      HornerXor(s[..n], t[..n], b);
      var x, y := Horner(s[..n], b), Horner(t[..n], b);
      TimesAddLeft(x, y, b);
      Exchange(Times(x, b), Times(y, b), s[n], t[n]);
    }
  }

  ghost function Scale(c: bv32, s: seq<bv32>): seq<bv32> {
    seq(|s|, i requires 0 <= i < |s| => Times(c, s[i]))
  }

  lemma {:induction false} HornerScale(c: bv32, s: seq<bv32>, b: bv32)
    requires AllInField(s) && InField(b)
    ensures Horner(Scale(c, s), b) == Times(c, Horner(s, b))
    decreases |s|
  {
    hide Times, Xor, InField;
    if s == [] {
      TimesZero(c);
    } else {
      var n := |s| - 1;
      assert Scale(c, s)[..n] == Scale(c, s[..n]);
      HornerScale(c, s[..n], b);
      HornerInField(s[..n], b);
      TimesAssociates(c, Horner(s[..n], b), b);
      TimesAddRight(c, Times(Horner(s[..n], b), b), s[n]);
    }
  }

  /** The leading coefficient, apart. */
  lemma {:induction false} HornerFirst(c: bv32, t: seq<bv32>, b: bv32)
    requires InField(c) && InField(b)
    ensures Horner([c] + t, b) == Xor(Times(c, Power(b, |t|)), Horner(t, b))
    decreases |t|
  {
    hide Times, Xor, InField;
    if t == [] {
      TimesOne(c);
      XorSelf(c);
      TimesZero(b);
      assert [c] + t == [c] && [c][..0] == [];
    } else {
      var n := |t| - 1;
      assert ([c] + t)[..n + 1] == [c] + t[..n];
      HornerFirst(c, t[..n], b);
      PowerInField(b, n);
      var x, y := Times(c, Power(b, n)), Horner(t[..n], b);
      TimesAddLeft(x, y, b);
      TimesAssociates(c, Power(b, n), b);
      XorAssociative(Times(x, b), Times(y, b), t[n]);
    }
  }

  /** One coefficient, apart. */
  lemma {:induction false} HornerPoint(s: seq<bv32>, p: nat, b: bv32)
    requires p < |s| && AllInField(s) && InField(b)
    ensures Horner(s, b) == Xor(Horner(s[p := 0], b), Times(s[p], Power(b, |s| - 1 - p)))
    decreases |s|
  {
    hide Times, Xor, InField;
    var n := |s| - 1;
    if p == n {
      assert s[p := 0][..n] == s[..n];
      TimesOne(s[p]);
      XorSelf(Times(Horner(s[..n], b), b));
    } else {
      assert s[p := 0][..n] == s[..n][p := 0];
      HornerPoint(s[..n], p, b);
      PowerInField(b, n - 1 - p);
      var x, y := Horner(s[..n][p := 0], b), Times(s[p], Power(b, n - 1 - p));
      TimesAddLeft(x, y, b);
      TimesAssociates(s[p], Power(b, n - 1 - p), b);
      XorAssociative(Times(x, b), Times(y, b), s[n]);
      XorCommutative(Times(y, b), s[n]);
      XorAssociative(Times(x, b), s[n], Times(y, b));
    }
  }

  lemma {:induction false} HornerZeros(s: seq<bv32>, b: bv32)
    requires AllZero(s)
    ensures Horner(s, b) == 0
    decreases |s|
  {
    hide Times, Xor;
    if s != [] {
      HornerZeros(s[..|s| - 1], b);
      TimesZero(b);
      XorSelf(0);
    }
  }

  // ---- The roots of the generator

  ghost function LiftAll(s: seq<bv32>): seq<bv32> {
    seq(|s|, i requires 0 <= i < |s| => Lift(s[i]))
  }

  lemma LiftAllInField(s: seq<bv32>)
    ensures AllInField(LiftAll(s))
  {
    hide Lift, InField;
    forall i | 0 <= i < |s| ensures InField(LiftAll(s)[i]) { LiftInField(s[i]); }
  }

  /** The coefficients of the generator below the leading one. */
  const TAIL: seq<bv32> := [29, 22, 20, 21, 29, 18]

  /** `b` is a root: its sixth power is the value of the tail. */
  ghost predicate IsRoot(b: bv32) {
    InField(b) && Power(b, 6) == Horner(LiftAll(TAIL), b)
  }

  /** Multiplication by the element of symbol 2, written out. */
  function By333(x: bv32): bv32 {
    Xor(Xor(Xor(Xor(Xor(Xor(Xor(Xor(Xor(Term(x, 1, 333), Term(x, 2, 666)), Term(x, 4, 785)), Term(x, 8, 7)),
                            Term(x, 16, 14)), Term(x, 32, 28)), Term(x, 64, 56)), Term(x, 128, 112)),
                            Term(x, 256, 224)), Term(x, 512, 448))
  }

  lemma Twice333()
    ensures Twice(333) == 666 && Twice(666) == 785 && Twice(785) == 7 && Twice(7) == 14 && Twice(14) == 28
            && Twice(28) == 56 && Twice(56) == 112 && Twice(112) == 224 && Twice(224) == 448
  {
  }

  lemma Weights333()
    ensures TwiceN(333, 0) == 333 && TwiceN(333, 1) == 666 && TwiceN(333, 2) == 785 && TwiceN(333, 3) == 7
            && TwiceN(333, 4) == 14 && TwiceN(333, 5) == 28 && TwiceN(333, 6) == 56 && TwiceN(333, 7) == 112
            && TwiceN(333, 8) == 224 && TwiceN(333, 9) == 448
  {
    Twice333();
    hide Twice;
    assert TwiceN(333, 2) == 785;
    assert TwiceN(333, 4) == 14;
    assert TwiceN(333, 6) == 56;
    assert TwiceN(333, 8) == 224;
  }

  lemma Times333(x: bv32)
    ensures Times(x, 333) == By333(x)
  {
    hide Xor, Term, TwiceN;
    Weights333();
    XorSelf(Term(x, 1, 333));
    assert TimesN(x, 333, 1) == Term(x, 1, 333);
    assert TimesN(x, 333, 2) == Xor(TimesN(x, 333, 1), Term(x, 2, 666));
    assert TimesN(x, 333, 3) == Xor(TimesN(x, 333, 2), Term(x, 4, 785));
    assert TimesN(x, 333, 4) == Xor(TimesN(x, 333, 3), Term(x, 8, 7));
    assert TimesN(x, 333, 5) == Xor(TimesN(x, 333, 4), Term(x, 16, 14));
    assert TimesN(x, 333, 6) == Xor(TimesN(x, 333, 5), Term(x, 32, 28));
    assert TimesN(x, 333, 7) == Xor(TimesN(x, 333, 6), Term(x, 64, 56));
    assert TimesN(x, 333, 8) == Xor(TimesN(x, 333, 7), Term(x, 128, 112));
    assert TimesN(x, 333, 9) == Xor(TimesN(x, 333, 8), Term(x, 256, 224));
  }

  lemma LiftDoubled(x: bv32)
    requires x < 32
    ensures Lift(Doubled(x)) == By333(Lift(x))
  {
  }

  lemma Lifts()
    ensures By333(1) == 333 && By333(333) == 643 && By333(643) == 615 && By333(615) == 290
  {
  }

  lemma LiftTerm(a: bv32, mask: bv32, k: bv32)
    ensures Lift(Term(a, mask, k)) == Term(a, mask, Lift(k))
  {
    hide Lift;
    assert Lift(0) == 0 by { LiftZero(0); }
  }

  lemma DoubledSymbol(x: bv32)
    requires x < 32
    ensures Doubled(x) < 32
  {
  }

  lemma LiftNext(x: bv32, d: bv32, l: bv32, l': bv32)
    requires d < 32 && InField(l) && Lift(d) == Times(Lift(x), l) && l' == By333(l)
    ensures Lift(Doubled(d)) == Times(Lift(x), l')
  {
    hide Lift, Times, By333, InField;
    LiftDoubled(d);
    Times333(Lift(d));
    Times333(l);
    Small333();
    TimesAssociates(Lift(x), l, 333);
  }

  lemma Small333()
    ensures InField(333) && InField(643) && InField(615) && InField(290) && InField(1)
  {
  }

  /** The multiples of a symbol by the weights of the bits. */
  lemma LiftWeights(b: bv32)
    requires b < 32
    ensures Lift(b) == Times(Lift(b), 1) && Lift(Doubled(b)) == Times(Lift(b), 333)
    ensures Lift(Doubled(Doubled(b))) == Times(Lift(b), 643)
            && Lift(Doubled(Doubled(Doubled(b)))) == Times(Lift(b), 615)
    ensures Lift(Doubled(Doubled(Doubled(Doubled(b))))) == Times(Lift(b), 290)
  {
    hide Lift, Times, By333, InField, Doubled;
    Lifts();
    Small333();
    LiftInField(b);
    TimesOne(Lift(b));
    var b1 := Doubled(b);
    var b2 := Doubled(b1);
    var b3 := Doubled(b2);
    DoubledSymbol(b);
    DoubledSymbol(b1);
    DoubledSymbol(b2);
    LiftNext(b, b, 1, 333);
    LiftNext(b, b1, 333, 643);
    LiftNext(b, b2, 643, 615);
    LiftNext(b, b3, 615, 290);
  }

  lemma TimesTermLeft(a: bv32, mask: bv32, k: bv32, c: bv32)
    requires InField(k) && InField(c)
    ensures Times(Term(a, mask, k), c) == Term(a, mask, Times(c, k))
  {
    hide Times, Term, InField;
    TimesTerm(c, a, mask, k);
    TimesCommutes(k, c);
  }

  /** Lifting is multiplicative. */
  lemma LiftProduct(a: bv32, b: bv32)
    requires b < 32
    ensures Lift(Product(a, b)) == Times(Lift(a), Lift(b))
  {
    hide Xor, Times, InField, Doubled, Term;
    LiftWeights(b);
    Small333();
    var c := Lift(b);
    var b1 := Doubled(b);
    var b2 := Doubled(b1);
    var b3 := Doubled(b2);
    var b4 := Doubled(b3);
    var p1 := Term(a, 1, b);
    var p2 := Xor(p1, Term(a, 2, b1));
    var p3 := Xor(p2, Term(a, 4, b2));
    var p4 := Xor(p3, Term(a, 8, b3));
    assert Product(a, b) == Xor(p4, Term(a, 16, b4));
    var l2 := Xor(Term(a, 1, 1), Term(a, 2, 333));
    var l3 := Xor(l2, Term(a, 4, 643));
    var l4 := Xor(l3, Term(a, 8, 615));
    assert Lift(a) == Xor(l4, Term(a, 16, 290));
    hide Lift, Product;
    LiftInField(b);
    LiftTerm(a, 1, b);
    LiftTerm(a, 2, b1);
    LiftTerm(a, 4, b2);
    LiftTerm(a, 8, b3);
    LiftTerm(a, 16, b4);
    LiftXor(p1, Term(a, 2, b1));
    LiftXor(p2, Term(a, 4, b2));
    LiftXor(p3, Term(a, 8, b3));
    LiftXor(p4, Term(a, 16, b4));
    TimesTermLeft(a, 1, 1, c);
    TimesTermLeft(a, 2, 333, c);
    TimesTermLeft(a, 4, 643, c);
    TimesTermLeft(a, 8, 615, c);
    TimesTermLeft(a, 16, 290, c);
    TimesAddLeft(Term(a, 1, 1), Term(a, 2, 333), c);
    TimesAddLeft(l2, Term(a, 4, 643), c);
    TimesAddLeft(l3, Term(a, 8, 615), c);
    TimesAddLeft(l4, Term(a, 16, 290), c);
  }

  lemma HornerSix(s0: bv32, s1: bv32, s2: bv32, s3: bv32, s4: bv32, s5: bv32, b: bv32)
    ensures Horner([s0, s1, s2, s3, s4, s5], b) ==
            Xor(Times(Xor(Times(Xor(Times(Xor(Times(Xor(Times(s0, b), s1), b), s2), b), s3), b), s4), b), s5)
  {
    hide Times, Xor;
    XorSelf(s0);
    TimesZero(b);
    assert [s0, s1, s2, s3, s4, s5][..5] == [s0, s1, s2, s3, s4];
    assert [s0, s1, s2, s3, s4][..4] == [s0, s1, s2, s3];
    assert [s0, s1, s2, s3][..3] == [s0, s1, s2];
    assert [s0, s1, s2][..2] == [s0, s1];
    assert [s0, s1][..1] == [s0] && [s0][..0] == [];
    assert Horner([s0], b) == s0;
    assert Horner([s0, s1], b) == Xor(Times(s0, b), s1);
    assert Horner([s0, s1, s2], b) == Xor(Times(Horner([s0, s1], b), b), s2);
    assert Horner([s0, s1, s2, s3], b) == Xor(Times(Horner([s0, s1, s2], b), b), s3);
    assert Horner([s0, s1, s2, s3, s4], b) == Xor(Times(Horner([s0, s1, s2, s3], b), b), s4);
  }

  lemma PowerSix(b: bv32)
    requires InField(b)
    ensures Power(b, 6) == Times(Times(Times(Times(Times(b, b), b), b), b), b)
  {
    hide Times;
    OneTimes(b);
    assert Power(b, 0) == 1;
    assert Power(b, 1) == b;
    assert Power(b, 2) == Times(b, b);
    assert Power(b, 3) == Times(Power(b, 2), b);
    assert Power(b, 4) == Times(Power(b, 3), b);
    assert Power(b, 5) == Times(Power(b, 4), b);
  }

  lemma LiftedTail()
    ensures Lift(29) == 455 && Lift(22) == 748 && Lift(20) == 929 && Lift(21) == 928 && Lift(18) == 111
    ensures LiftAll(TAIL) == [455, 748, 929, 928, 455, 111]
  {
  }

  // The root 13.

  function By13(x: bv32): bv32 {
    Xor(Xor(Xor(Xor(Xor(Xor(Xor(Xor(Xor(Term(x, 1, 13), Term(x, 2, 26)), Term(x, 4, 52)), Term(x, 8, 104)),
                            Term(x, 16, 208)), Term(x, 32, 416)), Term(x, 64, 832)), Term(x, 128, 165)),
                            Term(x, 256, 330)), Term(x, 512, 660))
  }

  lemma Twice13()
    ensures Twice(13) == 26 && Twice(26) == 52 && Twice(52) == 104 && Twice(104) == 208 && Twice(208) == 416
            && Twice(416) == 832 && Twice(832) == 165 && Twice(165) == 330 && Twice(330) == 660
  {
  }

  lemma Weights13()
    ensures TwiceN(13, 0) == 13 && TwiceN(13, 1) == 26 && TwiceN(13, 2) == 52 && TwiceN(13, 3) == 104
            && TwiceN(13, 4) == 208 && TwiceN(13, 5) == 416 && TwiceN(13, 6) == 832 && TwiceN(13, 7) == 165
            && TwiceN(13, 8) == 330 && TwiceN(13, 9) == 660
  {
    Twice13();
    hide Twice;
    assert TwiceN(13, 2) == 52;
    assert TwiceN(13, 4) == 208;
    assert TwiceN(13, 6) == 832;
    assert TwiceN(13, 8) == 330;
  }

  lemma Times13(x: bv32)
    ensures Times(x, 13) == By13(x)
  {
    hide Xor, Term, TwiceN;
    Weights13();
    XorSelf(Term(x, 1, 13));
    assert TimesN(x, 13, 1) == Term(x, 1, 13);
    assert TimesN(x, 13, 2) == Xor(TimesN(x, 13, 1), Term(x, 2, 26));
    assert TimesN(x, 13, 3) == Xor(TimesN(x, 13, 2), Term(x, 4, 52));
    assert TimesN(x, 13, 4) == Xor(TimesN(x, 13, 3), Term(x, 8, 104));
    assert TimesN(x, 13, 5) == Xor(TimesN(x, 13, 4), Term(x, 16, 208));
    assert TimesN(x, 13, 6) == Xor(TimesN(x, 13, 5), Term(x, 32, 416));
    assert TimesN(x, 13, 7) == Xor(TimesN(x, 13, 6), Term(x, 64, 832));
    assert TimesN(x, 13, 8) == Xor(TimesN(x, 13, 7), Term(x, 128, 165));
    assert TimesN(x, 13, 9) == Xor(TimesN(x, 13, 8), Term(x, 256, 330));
  }

  lemma Products13()
    ensures By13(13) == 81 && By13(81) == 925 && By13(925) == 1018 && By13(1018) == 313 && By13(313) == 95
    ensures By13(455) == 652 && By13(96) == 736 && By13(321) == 519 && By13(423) == 108 && By13(427) == 48
  {
  }

  lemma Sums13()
    ensures Xor(652, 748) == 96 && Xor(736, 929) == 321 && Xor(519, 928) == 423 && Xor(108, 455) == 427
            && Xor(48, 111) == 95
  {
  }

  lemma Root13()
    ensures IsRoot(13)
  {
    assert InField(13);
    hide Times, By13, Xor, Lift, LiftAll, Horner, Power;
    Products13();
    Sums13();
    LiftedTail();
    PowerSix(13);
    HornerSix(455, 748, 929, 928, 455, 111, 13);
    Times13(13);
    Times13(81);
    Times13(96);
    Times13(313);
    Times13(321);
    Times13(423);
    Times13(427);
    Times13(455);
    Times13(925);
    Times13(1018);
  }

  // The root 26.

  function By26(x: bv32): bv32 {
    Xor(Xor(Xor(Xor(Xor(Xor(Xor(Xor(Xor(Term(x, 1, 26), Term(x, 2, 52)), Term(x, 4, 104)), Term(x, 8, 208)),
                            Term(x, 16, 416)), Term(x, 32, 832)), Term(x, 64, 165)), Term(x, 128, 330)),
                            Term(x, 256, 660)), Term(x, 512, 781))
  }

  lemma Twice26()
    ensures Twice(26) == 52 && Twice(52) == 104 && Twice(104) == 208 && Twice(208) == 416 && Twice(416) == 832
            && Twice(832) == 165 && Twice(165) == 330 && Twice(330) == 660 && Twice(660) == 781
  {
  }

  lemma Weights26()
    ensures TwiceN(26, 0) == 26 && TwiceN(26, 1) == 52 && TwiceN(26, 2) == 104 && TwiceN(26, 3) == 208
            && TwiceN(26, 4) == 416 && TwiceN(26, 5) == 832 && TwiceN(26, 6) == 165 && TwiceN(26, 7) == 330
            && TwiceN(26, 8) == 660 && TwiceN(26, 9) == 781
  {
    Twice26();
    hide Twice;
    assert TwiceN(26, 2) == 104;
    assert TwiceN(26, 4) == 416;
    assert TwiceN(26, 6) == 165;
    assert TwiceN(26, 8) == 660;
  }

  lemma Times26(x: bv32)
    ensures Times(x, 26) == By26(x)
  {
    hide Xor, Term, TwiceN;
    Weights26();
    XorSelf(Term(x, 1, 26));
    assert TimesN(x, 26, 1) == Term(x, 1, 26);
    assert TimesN(x, 26, 2) == Xor(TimesN(x, 26, 1), Term(x, 2, 52));
    assert TimesN(x, 26, 3) == Xor(TimesN(x, 26, 2), Term(x, 4, 104));
    assert TimesN(x, 26, 4) == Xor(TimesN(x, 26, 3), Term(x, 8, 208));
    assert TimesN(x, 26, 5) == Xor(TimesN(x, 26, 4), Term(x, 16, 416));
    assert TimesN(x, 26, 6) == Xor(TimesN(x, 26, 5), Term(x, 32, 832));
    assert TimesN(x, 26, 7) == Xor(TimesN(x, 26, 6), Term(x, 64, 165));
    assert TimesN(x, 26, 8) == Xor(TimesN(x, 26, 7), Term(x, 128, 330));
    assert TimesN(x, 26, 9) == Xor(TimesN(x, 26, 8), Term(x, 256, 660));
  }

  lemma Products26()
    ensures By26(26) == 324 && By26(324) == 601 && By26(601) == 706 && By26(706) == 726 && By26(726) == 798
    ensures By26(455) == 829 && By26(465) == 705 && By26(352) == 369 && By26(721) == 856 && By26(671) == 881
  {
  }

  lemma Sums26()
    ensures Xor(829, 748) == 465 && Xor(705, 929) == 352 && Xor(369, 928) == 721 && Xor(856, 455) == 671
            && Xor(881, 111) == 798
  {
  }

  lemma Root26()
    ensures IsRoot(26)
  {
    assert InField(26);
    hide Times, By26, Xor, Lift, LiftAll, Horner, Power;
    Products26();
    Sums26();
    LiftedTail();
    PowerSix(26);
    HornerSix(455, 748, 929, 928, 455, 111, 26);
    Times26(26);
    Times26(324);
    Times26(352);
    Times26(455);
    Times26(465);
    Times26(601);
    Times26(671);
    Times26(706);
    Times26(721);
    Times26(726);
  }

  // The root 52.

  function By52(x: bv32): bv32 {
    Xor(Xor(Xor(Xor(Xor(Xor(Xor(Xor(Xor(Term(x, 1, 52), Term(x, 2, 104)), Term(x, 4, 208)), Term(x, 8, 416)),
                            Term(x, 16, 832)), Term(x, 32, 165)), Term(x, 64, 330)), Term(x, 128, 660)),
                            Term(x, 256, 781)), Term(x, 512, 63))
  }

  lemma Twice52()
    ensures Twice(52) == 104 && Twice(104) == 208 && Twice(208) == 416 && Twice(416) == 832 && Twice(832) == 165
            && Twice(165) == 330 && Twice(330) == 660 && Twice(660) == 781 && Twice(781) == 63
  {
  }

  lemma Weights52()
    ensures TwiceN(52, 0) == 52 && TwiceN(52, 1) == 104 && TwiceN(52, 2) == 208 && TwiceN(52, 3) == 416
            && TwiceN(52, 4) == 832 && TwiceN(52, 5) == 165 && TwiceN(52, 6) == 330 && TwiceN(52, 7) == 660
            && TwiceN(52, 8) == 781 && TwiceN(52, 9) == 63
  {
    Twice52();
    hide Twice;
    assert TwiceN(52, 2) == 208;
    assert TwiceN(52, 4) == 832;
    assert TwiceN(52, 6) == 330;
    assert TwiceN(52, 8) == 781;
  }

  lemma Times52(x: bv32)
    ensures Times(x, 52) == By52(x)
  {
    hide Xor, Term, TwiceN;
    Weights52();
    XorSelf(Term(x, 1, 52));
    assert TimesN(x, 52, 1) == Term(x, 1, 52);
    assert TimesN(x, 52, 2) == Xor(TimesN(x, 52, 1), Term(x, 2, 104));
    assert TimesN(x, 52, 3) == Xor(TimesN(x, 52, 2), Term(x, 4, 208));
    assert TimesN(x, 52, 4) == Xor(TimesN(x, 52, 3), Term(x, 8, 416));
    assert TimesN(x, 52, 5) == Xor(TimesN(x, 52, 4), Term(x, 16, 832));
    assert TimesN(x, 52, 6) == Xor(TimesN(x, 52, 5), Term(x, 32, 165));
    assert TimesN(x, 52, 7) == Xor(TimesN(x, 52, 6), Term(x, 64, 330));
    assert TimesN(x, 52, 8) == Xor(TimesN(x, 52, 7), Term(x, 128, 660));
    assert TimesN(x, 52, 9) == Xor(TimesN(x, 52, 8), Term(x, 256, 781));
  }

  lemma Products52()
    ensures By52(52) == 821 && By52(821) == 51 && By52(51) == 953 && By52(953) == 983 && By52(983) == 800
    ensures By52(455) == 95 && By52(691) == 274 && By52(691) == 274 && By52(690) == 294 && By52(225) == 847
  {
  }

  lemma Sums52()
    ensures Xor(95, 748) == 691 && Xor(274, 929) == 691 && Xor(274, 928) == 690 && Xor(294, 455) == 225
            && Xor(847, 111) == 800
  {
  }

  lemma Root52()
    ensures IsRoot(52)
  {
    assert InField(52);
    hide Times, By52, Xor, Lift, LiftAll, Horner, Power;
    Products52();
    Sums52();
    LiftedTail();
    PowerSix(52);
    HornerSix(455, 748, 929, 928, 455, 111, 52);
    Times52(51);
    Times52(52);
    Times52(225);
    Times52(455);
    Times52(690);
    Times52(691);
    Times52(821);
    Times52(953);
    Times52(983);
  }
}
