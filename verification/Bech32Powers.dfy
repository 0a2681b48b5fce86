/** Powers in the field of 1024 elements: every non-zero element is invertible, and the generator has order 1023. */
module Bech32Powers {
  import opened Bech32Code
  import opened Bech32Field
  import opened BinaryPowers

  function Power(a: bv32, k: nat): bv32 {
    if k == 0 then 1 else Times(Power(a, k - 1), a)
  }

  lemma {:induction false} PowerInField(a: bv32, k: nat)
    requires InField(a)
    ensures InField(Power(a, k))
  {
    hide Times;
    if k > 0 {
      PowerInField(a, k - 1);
      TimesInField(Power(a, k - 1), a);
    }
  }

  lemma OneTimes(a: bv32)
    requires InField(a)
    ensures Times(1, a) == a
  {
    hide Times;
    TimesCommutes(1, a);
    TimesOne(a);
  }

  lemma {:induction false} PowerAdd(a: bv32, m: nat, n: nat)
    requires InField(a)
    ensures Power(a, m + n) == Times(Power(a, m), Power(a, n))
    decreases n
  {
    hide Times, InField;
    PowerInField(a, m);
    if n == 0 {
      TimesOne(Power(a, m));
    } else {
      PowerAdd(a, m, n - 1);
      PowerInField(a, n - 1);
      TimesAssociates(Power(a, m), Power(a, n - 1), a);
    }
  }

  /** (a b)(c d) = (a c)(b d). */
  lemma TimesExchange(a: bv32, b: bv32, c: bv32, d: bv32)
    requires InField(a) && InField(b) && InField(c) && InField(d)
    ensures Times(Times(a, b), Times(c, d)) == Times(Times(a, c), Times(b, d))
  {
    hide Times, InField;
    TimesInField(c, d);
    TimesInField(b, d);
    TimesAssociates(a, b, Times(c, d));
    TimesAssociates(b, c, d);
    TimesCommutes(b, c);
    TimesAssociates(c, b, d);
    TimesAssociates(a, c, Times(b, d));
  }

  lemma {:induction false} PowerTimes(a: bv32, b: bv32, k: nat)
    requires InField(a) && InField(b)
    ensures Power(Times(a, b), k) == Times(Power(a, k), Power(b, k))
  {
    hide Times, InField;
    if k == 0 {
      One();
      TimesOne(1);
    } else {
      PowerTimes(a, b, k - 1);
      PowerInField(a, k - 1);
      PowerInField(b, k - 1);
      TimesExchange(Power(a, k - 1), Power(b, k - 1), a, b);
    }
  }

  lemma One()
    ensures InField(1) && InField(2) && InField(0)
  {
  }

  // ---- Squares

  /** The square, as a linear map: the squares of the coordinates' weights. */
  function Squared(x: bv32): bv32 {
    Xor(Xor(Xor(Xor(Xor(Xor(Xor(Xor(Xor(Term(x, 1, 1), Term(x, 2, 4)), Term(x, 4, 16)), Term(x, 8, 64)),
                            Term(x, 16, 256)),
      Term(x, 32, 549)), Term(x, 64, 763)), Term(x, 128, 387)), Term(x, 256, 41)), Term(x, 512, 164))
  }

  lemma SquareXor(a: bv32, b: bv32)
    requires InField(a) && InField(b)
    ensures Times(Xor(a, b), Xor(a, b)) == Xor(Times(a, a), Times(b, b))
  {
    hide Times, Xor, InField;
    var s, t, c := Times(a, a), Times(b, b), Times(a, b);
    TimesAddLeft(a, b, Xor(a, b));
    TimesAddRight(a, a, b);
    TimesAddRight(b, a, b);
    TimesCommutes(b, a);
    XorCommutative(c, t);
    Exchange(s, c, t, c);
    XorSelf(c);
    XorSelf(Xor(s, t));
  }

  /** The square of the weight of bit `i`. */
  lemma WeightSquare(i: nat)
    ensures Times(TwiceN(1, i), TwiceN(1, i)) == TwiceN(1, 2 * i)
  {
    hide Times, InField;
    One();
    TwiceNInField(1, i);
    TimesTwiceN(TwiceN(1, i), 1, i);
    TimesOne(TwiceN(1, i));
    TwiceNAdd(1, i, i);
  }

  lemma {:induction false} TwiceNAdd(x: bv32, m: nat, n: nat)
    ensures TwiceN(TwiceN(x, m), n) == TwiceN(x, m + n)
    decreases n
  {
    hide Twice;
    if n > 0 { TwiceNAdd(x, m, n - 1); }
  }

  ghost function SquareN(x: bv32, n: nat): bv32
    requires n <= 10
  {
    if n == 0 then 0 else Xor(SquareN(x, n - 1), Term(x, Bit(n - 1), TwiceN(1, 2 * (n - 1))))
  }

  lemma {:induction false} SquareOfSum(x: bv32, n: nat)
    requires n <= 10
    ensures Times(TimesN(x, 1, n), TimesN(x, 1, n)) == SquareN(x, n)
  {
    hide Times, Xor, Term, TwiceN, Bit, InField;
    One();
    if n == 0 {
      TimesZero(0);
    } else {
      SquareOfSum(x, n - 1);
      var m, k := Bit(n - 1), TwiceN(1, n - 1);
      TimesNInField(x, 1, n - 1);
      TwiceNInField(1, n - 1);
      TermInField(x, m, k);
      SquareXor(TimesN(x, 1, n - 1), Term(x, m, k));
      TimesTerm(Term(x, m, k), x, m, k);
      TimesTerm(k, x, m, k);
      TermTerm(x, m, Times(k, k));
      WeightSquare(n - 1);
    }
  }

  lemma TermInField(a: bv32, mask: bv32, k: bv32)
    requires InField(k)
    ensures InField(Term(a, mask, k))
  {
  }

  lemma TermTerm(a: bv32, mask: bv32, k: bv32)
    ensures Term(a, mask, Term(a, mask, k)) == Term(a, mask, k)
  {
  }

  lemma TwiceSteps()
    ensures Twice(512) == 549 && Twice(549) == 623 && Twice(623) == 763 && Twice(763) == 979 && Twice(979) == 387
    ensures Twice(387) == 774 && Twice(774) == 41 && Twice(41) == 82 && Twice(82) == 164
  {
  }

  lemma EvenWeights()
    ensures TwiceN(1, 10) == 549 && TwiceN(1, 12) == 763 && TwiceN(1, 14) == 387 && TwiceN(1, 16) == 41
            && TwiceN(1, 18) == 164
  {
    PowersOfTwo();
    TwiceSteps();
    hide Twice;
    assert TwiceN(1, 10) == Twice(TwiceN(1, 9));
    assert TwiceN(1, 12) == Twice(Twice(TwiceN(1, 10)));
    assert TwiceN(1, 14) == Twice(Twice(TwiceN(1, 12)));
    assert TwiceN(1, 16) == Twice(Twice(TwiceN(1, 14)));
    assert TwiceN(1, 18) == Twice(Twice(TwiceN(1, 16)));
  }

  lemma SquareNIs(x: bv32)
    ensures SquareN(x, 10) == Squared(x)
  {
    hide Xor, Term, TwiceN;
    PowersOfTwo();
    EvenWeights();
    XorSelf(Term(x, 1, 1));
    assert SquareN(x, 1) == Term(x, 1, 1);
    assert SquareN(x, 2) == Xor(SquareN(x, 1), Term(x, 2, 4));
    assert SquareN(x, 3) == Xor(SquareN(x, 2), Term(x, 4, 16));
    assert SquareN(x, 4) == Xor(SquareN(x, 3), Term(x, 8, 64));
    assert SquareN(x, 5) == Xor(SquareN(x, 4), Term(x, 16, 256));
    assert SquareN(x, 6) == Xor(SquareN(x, 5), Term(x, 32, 549));
    assert SquareN(x, 7) == Xor(SquareN(x, 6), Term(x, 64, 763));
    assert SquareN(x, 8) == Xor(SquareN(x, 7), Term(x, 128, 387));
    assert SquareN(x, 9) == Xor(SquareN(x, 8), Term(x, 256, 41));
  }

  lemma SquareIs(x: bv32)
    requires InField(x)
    ensures Times(x, x) == Squared(x)
  {
    hide TimesN, Squared, SquareN;
    SquareOfSum(x, 10);
    TimesOne(x);
    SquareNIs(x);
  }

  /** Only zero and one are their own squares. */
  lemma OwnSquare(u: bv32)
    requires InField(u) && Squared(u) == u
    ensures u == 0 || u == 1
  {
  }

  // ---- The 1024th power

  ghost function Squarings(a: bv32, n: nat): bv32 {
    if n == 0 then a else Squared(Squarings(a, n - 1))
  }

  lemma {:induction false} SquaringsArePower(a: bv32, n: nat)
    requires InField(a)
    ensures Squarings(a, n) == Power(a, Pow2(n)) && InField(Squarings(a, n))
  {
    hide Times, Squared, InField;
    One();
    if n == 0 {
      assert Power(a, 1) == Times(Power(a, 0), a) == a by { OneTimes(a); }
    } else {
      SquaringsArePower(a, n - 1);
      SquareIs(Squarings(a, n - 1));
      PowerAdd(a, Pow2(n - 1), Pow2(n - 1));
      PowerInField(a, Pow2(n));
    }
  }

  lemma GeneratorSquarings()
    ensures Squared(2) == 4 && Squared(4) == 16 && Squared(16) == 256 && Squared(256) == 41 && Squared(41) == 612
    ensures Squared(612) == 106 && Squared(106) == 154 && Squared(154) == 199 && Squared(199) == 877
            && Squared(877) == 2
  {
  }

  lemma GeneratorPowers()
    ensures Power(2, 1) == 2 && Power(2, 4) == 16 && Power(2, 8) == 256 && Power(2, 16) == 41 && Power(2, 32) == 612
    ensures Power(2, 64) == 106 && Power(2, 256) == 199 && Power(2, 1024) == 2
  {
    hide Power, Squared;
    GeneratorSquarings();
    One();
    SquaringsArePower(2, 0);
    SquaringsArePower(2, 2);
    SquaringsArePower(2, 3);
    SquaringsArePower(2, 4);
    SquaringsArePower(2, 5);
    SquaringsArePower(2, 6);
    SquaringsArePower(2, 8);
    SquaringsArePower(2, 10);
    assert Squarings(2, 2) == 16 && Squarings(2, 3) == 256 && Squarings(2, 4) == 41 && Squarings(2, 5) == 612;
    assert Squarings(2, 6) == 106 && Squarings(2, 8) == 199 && Squarings(2, 10) == 2;
    assert Pow2(2) == 4 && Pow2(3) == 8 && Pow2(4) == 16 && Pow2(5) == 32 && Pow2(6) == 64 && Pow2(8) == 256
           && Pow2(10) == 1024;
  }

  lemma SquaredXor(a: bv32, b: bv32)
    requires InField(a) && InField(b)
    ensures Squared(Xor(a, b)) == Xor(Squared(a), Squared(b))
  {
    hide Squared, Times, Xor, InField;
    XorInField(a, b);
    SquareIs(a);
    SquareIs(b);
    SquareIs(Xor(a, b));
    SquareXor(a, b);
  }

  lemma {:induction false} SquaringsXor(a: bv32, b: bv32, n: nat)
    requires InField(a) && InField(b)
    ensures Squarings(Xor(a, b), n) == Xor(Squarings(a, n), Squarings(b, n))
  {
    hide Squared, Xor, InField;
    if n > 0 {
      SquaringsXor(a, b, n - 1);
      SquaringsArePower(a, n - 1);
      SquaringsArePower(b, n - 1);
      SquaredXor(Squarings(a, n - 1), Squarings(b, n - 1));
    }
  }

  lemma TwiceIs(x: bv32)
    requires InField(x)
    ensures Twice(x) == Times(x, 2)
  {
    hide Times;
    assert Twice(1) == 2;
    hide Twice;
    TimesTwice(x, 1);
    TimesOne(x);
  }

  lemma Pow2Ten()
    ensures Pow2(10) == 1024
  {
    assert Pow2(5) == 32;
  }

  lemma {:induction false} WeightFixed(i: nat)
    ensures Squarings(TwiceN(1, i), 10) == TwiceN(1, i)
  {
    hide Times, Twice, InField, Power, Squared, Squarings;
    One();
    Pow2Ten();
    TwiceNInField(1, i);
    SquaringsArePower(TwiceN(1, i), 10);
    if i == 0 {
      PowerOfOne(1024);
    } else {
      var x := TwiceN(1, i - 1);
      WeightFixed(i - 1);
      TwiceNInField(1, i - 1);
      SquaringsArePower(x, 10);
      TwiceIs(x);
      PowerTimes(x, 2, 1024);
      GeneratorPowers();
    }
  }

  lemma {:induction false} PowerOfOne(k: nat)
    ensures Power(1, k) == 1
  {
    hide Times, InField;
    One();
    if k > 0 {
      PowerOfOne(k - 1);
      TimesOne(1);
    }
  }

  lemma SquaringsTerm(a: bv32, mask: bv32, k: bv32, n: nat)
    requires InField(k)
    ensures Squarings(Term(a, mask, k), n) == Term(a, mask, Squarings(k, n))
  {
    hide Squarings;
    SquaringsZero(n);
  }

  lemma {:induction false} SquaringsZero(n: nat)
    ensures Squarings(0, n) == 0
  {
    assert Squared(0) == 0 by { SquaredZero(); }
    hide Squared;
    if n > 0 { SquaringsZero(n - 1); }
  }

  lemma SquaredZero()
    ensures Squared(0) == 0
  {
  }

  lemma {:induction false} SumFixed(a: bv32, n: nat)
    requires n <= 10
    ensures Squarings(TimesN(a, 1, n), 10) == TimesN(a, 1, n)
  {
    hide Squarings, Xor, Term, TwiceN, Bit, InField;
    One();
    if n == 0 {
      SquaringsZero(10);
    } else {
      var m, k := Bit(n - 1), TwiceN(1, n - 1);
      SumFixed(a, n - 1);
      TimesNInField(a, 1, n - 1);
      TwiceNInField(1, n - 1);
      TermInField(a, m, k);
      SquaringsXor(TimesN(a, 1, n - 1), Term(a, m, k), 10);
      SquaringsTerm(a, m, k, 10);
      WeightFixed(n - 1);
    }
  }

  /** Every element is its own 1024th power. */
  lemma PowerFixed(a: bv32)
    requires InField(a)
    ensures Power(a, 1024) == a
  {
    hide TimesN, Squarings, Power;
    Pow2Ten();
    SumFixed(a, 10);
    TimesOne(a);
    SquaringsArePower(a, 10);
  }

  // ---- Inverses

  /** The 1023rd power of a non-zero element is one. */
  lemma PowerOrder(a: bv32)
    requires InField(a) && a != 0
    ensures Power(a, 1023) == 1
  {
    hide Times, InField, Squared;
    var u, w := Power(a, 1023), Power(a, 1022);
    PowerFixed(a);
    PowerInField(a, 1023);
    PowerInField(a, 1022);
    assert u == Times(w, a) && Times(u, a) == a;
    TimesCommutes(u, a);
    TimesAssociates(w, a, u);
    assert Times(u, u) == u;
    SquareIs(u);
    OwnSquare(u);
    TimesZero(a);
  }

  lemma NoZeroDivisors(a: bv32, b: bv32)
    requires InField(a) && InField(b) && Times(a, b) == 0
    ensures a == 0 || b == 0
  {
    if a != 0 {
      hide Times, InField;
      PowerOrder(a);
      var w := Power(a, 1022);
      PowerInField(a, 1022);
      TimesAssociates(w, a, b);
      assert Power(a, 1023) == Times(w, a);
      OneTimes(b);
      TimesZero(w);
    }
  }

  lemma {:induction false} PowerNonZero(a: bv32, k: nat)
    requires InField(a) && a != 0
    ensures Power(a, k) != 0
  {
    hide Times, InField;
    if k > 0 {
      PowerNonZero(a, k - 1);
      PowerInField(a, k - 1);
      if Times(Power(a, k - 1), a) == 0 { NoZeroDivisors(Power(a, k - 1), a); }
    }
  }

  // ---- The order of the generator

  ghost predicate Cycles(d: nat) {
    Power(2, d) == 1
  }

  lemma {:induction false} CyclesMultiple(d: nat, q: nat)
    requires Cycles(d)
    ensures Cycles(d * q)
    decreases q
  {
    hide Power, Times, InField;
    One();
    if q == 0 {
      assert Power(2, 0) == 1 by { PowerZero(); }
      assert d * q == 0;
    } else {
      CyclesMultiple(d, q - 1);
      assert d * q == d * (q - 1) + d;
      PowerAdd(2, d * (q - 1), d);
      TimesOne(1);
    }
  }

  lemma PowerZero()
    ensures Power(2, 0) == 1
  {
  }

  lemma CyclesRest(x: nat, d: nat)
    requires Cycles(x) && Cycles(d) && d > 0
    ensures Cycles(x % d)
  {
    hide Power, Times, InField;
    One();
    CyclesMultiple(d, x / d);
    var m, r := d * (x / d), x % d;
    assert x == m + r;
    PowerAdd(2, m, r);
    PowerInField(2, r);
    OneTimes(Power(2, r));
  }

  lemma {:induction false} LeastCycle(d: nat) returns (m: nat)
    requires d > 0 && Cycles(d)
    ensures 0 < m <= d && Cycles(m) && forall x | 0 < x < m :: !Cycles(x)
  {
    hide Cycles;
    if x: nat :| 0 < x < d && Cycles(x) {
      m := LeastCycle(x);
    } else {
      m := d;
    }
  }

  lemma GeneratorNext(k: nat, x: bv32)
    requires Power(2, k) == x && InField(x)
    ensures Power(2, k + 1) == Twice(x)
  {
    hide Times, Twice;
    TwiceIs(x);
  }

  lemma GeneratorDouble(k: nat, x: bv32)
    requires Power(2, k) == x && InField(x)
    ensures Power(2, 2 * k) == Squared(x)
  {
    hide Times, Squared, InField;
    One();
    PowerAdd(2, k, k);
    SquareIs(x);
  }

  lemma MoreTwice()
    ensures Twice(41) == 82 && Twice(47) == 94 && Twice(75) == 150 && Twice(82) == 164 && Twice(164) == 328
            && Twice(211) == 422 && Twice(328) == 656 && Twice(612) == 749 && Twice(656) == 773 && Twice(773) == 47
            && Twice(894) == 217
  {
  }

  lemma MoreSquared()
    ensures Squared(94) == 943 && Squared(156) == 211 && Squared(422) == 923 && Squared(773) == 156
            && Squared(923) == 75 && Squared(943) == 894
  {
  }

  lemma Power23()
    ensures Power(2, 23) == 94
  {
    MoreTwice();
    MoreSquared();
    GeneratorPowers();
    hide Power, Twice, Squared;
    GeneratorNext(16, 41);
    GeneratorNext(17, 82);
    GeneratorNext(18, 164);
    GeneratorNext(19, 328);
    GeneratorNext(20, 656);
    GeneratorNext(21, 773);
    GeneratorNext(22, 47);
  }

  lemma Power93()
    ensures Power(2, 93) == 217
  {
    MoreTwice();
    MoreSquared();
    Power23();
    hide Power, Twice, Squared;
    GeneratorDouble(23, 94);
    GeneratorDouble(46, 943);
    GeneratorNext(92, 894);
  }

  lemma Power21()
    ensures Power(2, 21) == 773
  {
    MoreTwice();
    MoreSquared();
    GeneratorPowers();
    hide Power, Twice, Squared;
    GeneratorNext(16, 41);
    GeneratorNext(17, 82);
    GeneratorNext(18, 164);
    GeneratorNext(19, 328);
    GeneratorNext(20, 656);
  }

  lemma Power341()
    ensures Power(2, 341) == 150
  {
    MoreTwice();
    MoreSquared();
    Power21();
    hide Power, Twice, Squared;
    GeneratorDouble(21, 773);
    GeneratorDouble(42, 156);
    GeneratorNext(84, 211);
    GeneratorDouble(85, 422);
    GeneratorDouble(170, 923);
    GeneratorNext(340, 75);
  }

  lemma Power33()
    ensures Power(2, 33) == 749
  {
    MoreTwice();
    MoreSquared();
    GeneratorPowers();
    hide Power, Twice, Squared;
    GeneratorNext(32, 612);
  }

  lemma KeyPowers()
    ensures !Cycles(33) && !Cycles(93) && !Cycles(341) && Cycles(1023)
  {
    hide Power;
    Power33();
    Power93();
    Power341();
    One();
    PowerOrder(2);
  }

  /** The proper divisors of 1023 = 3 * 11 * 31 divide 33, 93 or 341. */
  lemma ProperDivisor(m: nat)
    requires 0 < m < 1023 && 1023 % m == 0
    ensures 33 % m == 0 || 93 % m == 0 || 341 % m == 0
  {
    var q := 1023 / m;
    assert 1023 == m * q;
    if m <= 33 {
      SmallDivisor(m);
    } else {
      ProductBounds(m, q);
      LargeDivisor(m, q);
    }
  }

  lemma ProductBounds(m: nat, q: nat)
    ensures m >= 34 && q >= 31 ==> m * q >= 1054
    ensures q <= 1 ==> m * q <= m
  {
  }

  lemma SmallDivisor(m: nat)
    requires 0 < m <= 33 && 1023 % m == 0
    ensures 33 % m == 0 || 93 % m == 0
  {
    assert m == 1 || m == 3 || m == 11 || m == 31 || m == 33;
  }

  lemma LargeDivisor(m: nat, q: nat)
    requires 2 <= q <= 31 && 1023 == m * q
    ensures 33 % m == 0 || 93 % m == 0 || 341 % m == 0
  {
    assert q == 3 || q == 11 || q == 31;
  }

  /** The generator has order 1023. */
  lemma GeneratorOrder(d: nat)
    requires 0 < d < 1023
    ensures Power(2, d) != 1
  {
    hide Power;
    if Cycles(d) {
      hide Cycles;
      KeyPowers();
      var m := LeastCycle(d);
      CyclesRest(1023, m);
      assert 1023 % m == 0;
      ProperDivisor(m);
      CyclesDivided(m, 33);
      CyclesDivided(m, 93);
      CyclesDivided(m, 341);
    }
  }

  lemma CyclesDivided(m: nat, n: nat)
    requires m > 0 && Cycles(m)
    ensures n % m == 0 ==> Cycles(n)
  {
    hide Cycles;
    CyclesMultiple(m, n / m);
    if n % m == 0 { assert n == m * (n / m); }
  }

  /** Different powers, less than 1023 apart, are different. */
  lemma PowersDiffer(i: nat, j: nat)
    requires i < j < i + 1023
    ensures Power(2, i) != Power(2, j)
  {
    hide Power, Times, InField;
    One();
    var d := j - i;
    PowerAdd(2, i, d);
    PowerInField(2, i);
    PowerInField(2, d);
    GeneratorOrder(d);
    if Power(2, i) == Power(2, j) {
      var x, y := Power(2, i), Power(2, d);
      TimesOne(x);
      TimesAddRight(x, y, 1);
      XorSelf(x);
      XorInField(y, 1);
      NoZeroDivisors(x, Xor(y, 1));
      PowerNonZero(2, i);
      XorEqual(y, 1);
    }
  }
}
