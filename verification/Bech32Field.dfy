/** The field of 1024 elements, with a root `e` of the polynomial e^10 + e^9 + e^5 + e^2 + 1 as generator. Elements are
    the bits of their coordinates; `e` itself is 2. */
module Bech32Field {
  import opened Bech32Code

  ghost predicate InField(x: bv32) {
    x < 1024
  }

  /** The bit of weight `i`. */
  function Bit(i: nat): bv32
    requires i < 10
  {
    match i
    case 0 => 1
    case 1 => 2
    case 2 => 4
    case 3 => 8
    case 4 => 16
    case 5 => 32
    case 6 => 64
    case 7 => 128
    case 8 => 256
    case 9 => 512
  }

  lemma BitIsOne(i: nat)
    requires i < 10
    ensures IsBit(Bit(i))
  {
  }

  ghost predicate IsBit(mask: bv32) {
    mask == 1 || mask == 2 || mask == 4 || mask == 8 || mask == 16 || mask == 32 || mask == 64 || mask == 128
    || mask == 256 || mask == 512
  }

  lemma BitOfXor(b: bv32, d: bv32, mask: bv32)
    requires IsBit(mask)
    ensures (Xor(b, d) & mask != 0) <==> ((b & mask != 0) != (d & mask != 0))
  {
    if OneBit(mask) { BitXor(b, d, mask); } else { HighBitXor(b, d, mask); }
  }

  lemma HighBitXor(b: bv32, d: bv32, mask: bv32)
    requires mask == 32 || mask == 64 || mask == 128 || mask == 256 || mask == 512
    ensures (Xor(b, d) & mask != 0) <==> ((b & mask != 0) != (d & mask != 0))
  {
  }

  /** The coefficient `k` if the bit is set, for any bit. */
  lemma TermXor(b: bv32, d: bv32, mask: bv32, k: bv32)
    requires IsBit(mask)
    ensures Term(Xor(b, d), mask, k) == Xor(Term(b, mask, k), Term(d, mask, k))
  {
    hide Xor;
    BitOfXor(b, d, mask);
    XorSelf(k);
    XorSelf(0);
  }

  lemma TermOfXor(a: bv32, mask: bv32, k: bv32, l: bv32)
    ensures Term(a, mask, Xor(k, l)) == Xor(Term(a, mask, k), Term(a, mask, l))
  {
    hide Xor;
    XorSelf(0);
  }

  // ---- Multiplication by the generator

  function Moved(x: bv32): bv32 {
    (x & 511) << 1
  }

  lemma MovedXor(a: bv32, b: bv32)
    ensures Moved(Xor(a, b)) == Xor(Moved(a), Moved(b))
  {
  }

  /** Multiplication by `e`. */
  function Twice(x: bv32): bv32 {
    Xor(Moved(x), Term(x, 512, 0x225))
  }

  lemma TwiceXor(a: bv32, b: bv32)
    ensures Twice(Xor(a, b)) == Xor(Twice(a), Twice(b))
  {
    hide Xor, Moved, Term;
    MovedXor(a, b);
    TermXor(a, b, 512, 0x225);
    Exchange(Moved(a), Moved(b), Term(a, 512, 0x225), Term(b, 512, 0x225));
  }

  lemma TwiceZero()
    ensures Twice(0) == 0
  {
  }

  lemma TwiceTerm(a: bv32, mask: bv32, k: bv32)
    ensures Twice(Term(a, mask, k)) == Term(a, mask, Twice(k))
  {
    hide Twice;
    TwiceZero();
  }

  lemma TwiceInField(x: bv32)
    requires InField(x)
    ensures InField(Twice(x))
  {
  }

  function TwiceN(x: bv32, n: nat): bv32 {
    if n == 0 then x else Twice(TwiceN(x, n - 1))
  }

  lemma {:induction false} TwiceNTwice(x: bv32, n: nat)
    ensures TwiceN(Twice(x), n) == Twice(TwiceN(x, n))
  {
    hide Twice;
    if n > 0 { TwiceNTwice(x, n - 1); }
  }

  lemma {:induction false} TwiceNXor(a: bv32, b: bv32, n: nat)
    ensures TwiceN(Xor(a, b), n) == Xor(TwiceN(a, n), TwiceN(b, n))
  {
    hide Twice, Xor;
    if n > 0 {
      TwiceNXor(a, b, n - 1);
      TwiceXor(TwiceN(a, n - 1), TwiceN(b, n - 1));
    }
  }

  // ---- Multiplication

  /** The product with the lowest `n` bits of `a`. */
  function TimesN(a: bv32, b: bv32, n: nat): bv32
    requires n <= 10
  {
    if n == 0 then 0 else Xor(TimesN(a, b, n - 1), Term(a, Bit(n - 1), TwiceN(b, n - 1)))
  }

  function Times(a: bv32, b: bv32): bv32 {
    TimesN(a, b, 10)
  }

  lemma {:induction false} TimesNLeft(a: bv32, a': bv32, b: bv32, n: nat)
    requires n <= 10
    ensures TimesN(Xor(a, a'), b, n) == Xor(TimesN(a, b, n), TimesN(a', b, n))
  {
    hide Xor, Term, TwiceN, Bit;
    if n == 0 {
      XorSelf(0);
    } else {
      TimesNLeft(a, a', b, n - 1);
      BitIsOne(n - 1);
      var m, k := Bit(n - 1), TwiceN(b, n - 1);
      TermXor(a, a', m, k);
      Exchange(TimesN(a, b, n - 1), TimesN(a', b, n - 1), Term(a, m, k), Term(a', m, k));
    }
  }

  lemma {:induction false} TimesNRight(a: bv32, b: bv32, b': bv32, n: nat)
    requires n <= 10
    ensures TimesN(a, Xor(b, b'), n) == Xor(TimesN(a, b, n), TimesN(a, b', n))
  {
    hide Xor, Term, TwiceN, Bit;
    if n == 0 {
      XorSelf(0);
    } else {
      TimesNRight(a, b, b', n - 1);
      TwiceNXor(b, b', n - 1);
      var m, k, l := Bit(n - 1), TwiceN(b, n - 1), TwiceN(b', n - 1);
      TermOfXor(a, m, k, l);
      Exchange(TimesN(a, b, n - 1), TimesN(a, b', n - 1), Term(a, m, k), Term(a, m, l));
    }
  }

  lemma {:induction false} TimesNTwice(a: bv32, b: bv32, n: nat)
    requires n <= 10
    ensures TimesN(a, Twice(b), n) == Twice(TimesN(a, b, n))
  {
    hide Xor, Term, TwiceN, Bit, Twice;
    if n == 0 {
      TwiceZero();
    } else {
      TimesNTwice(a, b, n - 1);
      TwiceNTwice(b, n - 1);
      var m, k := Bit(n - 1), TwiceN(b, n - 1);
      TwiceTerm(a, m, k);
      TwiceXor(TimesN(a, b, n - 1), Term(a, m, k));
    }
  }

  lemma TimesAddLeft(a: bv32, a': bv32, b: bv32)
    ensures Times(Xor(a, a'), b) == Xor(Times(a, b), Times(a', b))
  {
    TimesNLeft(a, a', b, 10);
  }

  lemma TimesAddRight(a: bv32, b: bv32, b': bv32)
    ensures Times(a, Xor(b, b')) == Xor(Times(a, b), Times(a, b'))
  {
    TimesNRight(a, b, b', 10);
  }

  lemma TimesTwice(a: bv32, b: bv32)
    ensures Times(a, Twice(b)) == Twice(Times(a, b))
  {
    TimesNTwice(a, b, 10);
  }

  lemma {:induction false} TimesNZero(a: bv32, n: nat)
    requires n <= 10
    ensures TimesN(a, 0, n) == 0 && TimesN(0, a, n) == 0
  {
    hide Xor, Bit, Twice;
    if n > 0 {
      TimesNZero(a, n - 1);
      TwiceNZero(n - 1);
      XorSelf(0);
      assert Term(0, Bit(n - 1), TwiceN(a, n - 1)) == 0 by { NoBit(Bit(n - 1)); }
    }
  }

  lemma NoBit(mask: bv32)
    ensures 0 & mask == 0
  {
  }

  lemma {:induction false} TwiceNZero(n: nat)
    ensures TwiceN(0, n) == 0
  {
    hide Twice;
    TwiceZero();
    if n > 0 { TwiceNZero(n - 1); }
  }

  lemma TimesZero(a: bv32)
    ensures Times(a, 0) == 0 && Times(0, a) == 0
  {
    TimesNZero(a, 10);
  }

  lemma PowersOfTwo()
    ensures TwiceN(1, 0) == 1 && TwiceN(1, 1) == 2 && TwiceN(1, 2) == 4 && TwiceN(1, 3) == 8 && TwiceN(1, 4) == 16
    ensures TwiceN(1, 5) == 32 && TwiceN(1, 6) == 64 && TwiceN(1, 7) == 128 && TwiceN(1, 8) == 256
            && TwiceN(1, 9) == 512
  {
    assert Twice(1) == 2 && Twice(2) == 4 && Twice(4) == 8 && Twice(8) == 16 && Twice(16) == 32;
    assert Twice(32) == 64 && Twice(64) == 128 && Twice(128) == 256 && Twice(256) == 512;
    hide Twice;
    assert TwiceN(1, 3) == 8;
    assert TwiceN(1, 5) == 32;
    assert TwiceN(1, 7) == 128;
  }

  lemma LowHalf(a: bv32)
    ensures Xor(Xor(Xor(Xor(Term(a, 1, 1), Term(a, 2, 2)), Term(a, 4, 4)), Term(a, 8, 8)), Term(a, 16, 16)) == a & 31
  {
  }

  lemma HighHalf(a: bv32)
    requires InField(a)
    ensures Xor(Xor(Xor(Xor(Xor(a & 31, Term(a, 32, 32)), Term(a, 64, 64)), Term(a, 128, 128)), Term(a, 256, 256)),
                Term(a, 512, 512)) == a
  {
  }

  lemma TimesOneLow(a: bv32)
    ensures TimesN(a, 1, 5) == a & 31
  {
    hide Xor, Term, TwiceN;
    PowersOfTwo();
    LowHalf(a);
    XorSelf(Term(a, 1, 1));
    assert TimesN(a, 1, 1) == Term(a, 1, 1);
    assert TimesN(a, 1, 2) == Xor(Term(a, 1, 1), Term(a, 2, 2));
    assert TimesN(a, 1, 3) == Xor(TimesN(a, 1, 2), Term(a, 4, 4));
    assert TimesN(a, 1, 4) == Xor(TimesN(a, 1, 3), Term(a, 8, 8));
  }

  lemma TimesOne(a: bv32)
    requires InField(a)
    ensures Times(a, 1) == a
  {
    hide Xor, Term, TwiceN;
    PowersOfTwo();
    TimesOneLow(a);
    HighHalf(a);
    assert TimesN(a, 1, 6) == Xor(a & 31, Term(a, 32, 32));
    assert TimesN(a, 1, 7) == Xor(TimesN(a, 1, 6), Term(a, 64, 64));
    assert TimesN(a, 1, 8) == Xor(TimesN(a, 1, 7), Term(a, 128, 128));
    assert TimesN(a, 1, 9) == Xor(TimesN(a, 1, 8), Term(a, 256, 256));
  }

  lemma TimesTerm(a: bv32, b: bv32, mask: bv32, k: bv32)
    ensures Times(a, Term(b, mask, k)) == Term(b, mask, Times(a, k))
            && Times(Term(b, mask, k), a) == Term(b, mask, Times(k, a))
  {
    hide Times;
    TimesZero(a);
  }

  lemma {:induction false} TimesTwiceN(a: bv32, b: bv32, n: nat)
    ensures Times(a, TwiceN(b, n)) == TwiceN(Times(a, b), n)
  {
    hide Times, Twice;
    if n > 0 {
      TimesTwiceN(a, b, n - 1);
      TimesTwice(a, TwiceN(b, n - 1));
    }
  }

  lemma {:induction false} TimesSwap(a: bv32, b: bv32, n: nat)
    requires InField(a) && n <= 10
    ensures Times(a, TimesN(b, 1, n)) == TimesN(b, a, n)
  {
    hide Times, Xor, Term, TwiceN, Bit;
    if n == 0 {
      TimesZero(a);
    } else {
      TimesSwap(a, b, n - 1);
      var m, k := Bit(n - 1), TwiceN(1, n - 1);
      TimesAddRight(a, TimesN(b, 1, n - 1), Term(b, m, k));
      TimesTerm(a, b, m, k);
      TimesTwiceN(a, 1, n - 1);
      TimesOne(a);
    }
  }

  lemma TimesCommutes(a: bv32, b: bv32)
    requires InField(a) && InField(b)
    ensures Times(a, b) == Times(b, a)
  {
    hide TimesN;
    TimesSwap(a, b, 10);
    TimesOne(b);
  }

  lemma XorInField(a: bv32, b: bv32)
    requires InField(a) && InField(b)
    ensures InField(Xor(a, b))
  {
  }

  lemma {:induction false} TwiceNInField(x: bv32, n: nat)
    requires InField(x)
    ensures InField(TwiceN(x, n))
  {
    hide Twice;
    if n > 0 {
      TwiceNInField(x, n - 1);
      TwiceInField(TwiceN(x, n - 1));
    }
  }

  lemma {:induction false} TimesNInField(a: bv32, b: bv32, n: nat)
    requires InField(b) && n <= 10
    ensures InField(TimesN(a, b, n))
  {
    hide Xor, TwiceN, Bit;
    if n > 0 {
      TimesNInField(a, b, n - 1);
      TwiceNInField(b, n - 1);
      XorInField(TimesN(a, b, n - 1), Term(a, Bit(n - 1), TwiceN(b, n - 1)));
    }
  }

  lemma TimesInField(a: bv32, b: bv32)
    requires InField(b)
    ensures InField(Times(a, b))
  {
    TimesNInField(a, b, 10);
  }

  lemma TwiceTimes(a: bv32, b: bv32)
    requires InField(a) && InField(b)
    ensures Times(Twice(a), b) == Twice(Times(a, b))
  {
    hide Times, Twice, InField;
    TwiceInField(a);
    TimesCommutes(Twice(a), b);
    TimesTwice(b, a);
    TimesCommutes(a, b);
  }

  lemma {:induction false} TwiceNTimes(a: bv32, b: bv32, n: nat)
    requires InField(a) && InField(b)
    ensures Times(TwiceN(a, n), b) == TwiceN(Times(a, b), n)
  {
    hide Times, Twice, InField;
    if n > 0 {
      TwiceNTimes(a, b, n - 1);
      TwiceNInField(a, n - 1);
      TwiceTimes(TwiceN(a, n - 1), b);
    }
  }

  lemma {:induction false} TimesNTimes(a: bv32, b: bv32, c: bv32, n: nat)
    requires InField(b) && InField(c) && n <= 10
    ensures Times(TimesN(a, b, n), c) == TimesN(a, Times(b, c), n)
  {
    hide Times, Xor, Term, TwiceN, Bit, InField;
    if n == 0 {
      TimesZero(c);
    } else {
      TimesNTimes(a, b, c, n - 1);
      var m, k := Bit(n - 1), TwiceN(b, n - 1);
      TimesAddLeft(TimesN(a, b, n - 1), Term(a, m, k), c);
      TimesTerm(c, a, m, k);
      TwiceNTimes(b, c, n - 1);
    }
  }

  lemma TimesAssociates(a: bv32, b: bv32, c: bv32)
    requires InField(b) && InField(c)
    ensures Times(Times(a, b), c) == Times(a, Times(b, c))
  {
    TimesNTimes(a, b, c, 10);
  }
}
