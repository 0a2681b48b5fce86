/** Comparison, bit length and division of limb numbers. */
module ArithDivides {
  import opened ArithShifts
  import opened ArithUints
  import opened Limbs
  import opened BinaryPowers

  // ---- Comparison

  lemma HigherDecides(s: seq<Limb>, t: seq<Limb>, i: nat)
    requires |s| == |t| && i < |s| && (forall k | i < k < |s| :: s[k] == t[k]) && s[i] < t[i]
    ensures Val(s) < Val(t)
  {
    hide Val, Pow;
    ValSplit(s, i + 1);
    ValSplit(t, i + 1);
    assert s[i + 1..] == t[i + 1..];
    ValTake(s, i);
    ValTake(t, i);
    ValBound(s[..i]);
    MulGap(s[i], t[i], Pow(i));
  }

  /** The sign of the difference. */
  method CompareTo(a: array<Limb>, b: array<Limb>) returns (r: int)
    requires a.Length == b.Length
    ensures r == if Val(a[..]) < Val(b[..]) then -1 else if Val(a[..]) > Val(b[..]) then 1 else 0
  {
    hide Val;
    var i := a.Length - 1;
    while i >= 0
      invariant -1 <= i < a.Length && forall k | i < k < a.Length :: a[k] == b[k]
    {
      if a[i] < b[i] {
        HigherDecides(a[..], b[..], i);
        return -1;
      }
      if a[i] > b[i] {
        HigherDecides(b[..], a[..], i);
        return 1;
      }
      i := i - 1;
    }
    assert a[..] == b[..];
    return 0;
  }

  // ---- Bit length

  /** `r` is the position of the highest bit of `x`, plus one. */
  ghost predicate IsBits(x: nat, r: nat) {
    x < Pow2(r) && (r > 0 ==> Pow2(r - 1) <= x)
  }

  lemma BitsUnique(x: nat, r: nat, t: nat)
    requires IsBits(x, r) && IsBits(x, t)
    ensures r == t
  {
    hide Pow2;
    if r < t { Pow2Mono(r, t - 1); }
    if t < r { Pow2Mono(t, r - 1); }
  }

  lemma BitClear(x: nat, k: nat)
    requires x < Pow2(k + 1) && (x / Pow2(k)) % 2 == 0
    ensures x < Pow2(k)
  {
    var p := Pow2(k);
    var q, r := x / p, x % p;
    assert x == q * p + r;
    if q >= 1 { MulMono(2, q, p); }
  }

  lemma BitSet(x: nat, k: nat)
    requires (x / Pow2(k)) % 2 == 1
    ensures Pow2(k) <= x
  {
    hide Pow2;
    var p := Pow2(k);
    var q, r := x / p, x % p;
    assert x == q * p + r;
    assert q >= 1;
    MulMono(1, q, p);
  }

  method LimbBits(x: Limb) returns (r: nat)
    requires x != 0
    ensures IsBits(x, r) && 1 <= r <= 32
  {
    hide Pow2;
    var nbits := 31;
    Pow2Is();
    while nbits > 0
      invariant 0 <= nbits <= 31 && x < Pow2(nbits + 1)
    {
      if (x / Pow2(nbits)) % 2 == 1 {
        BitSet(x, nbits);
        return nbits + 1;
      }
      BitClear(x, nbits);
      nbits := nbits - 1;
    }
    assert Pow2(0) == 1 by { Pow2Zero(); }
    return 1;
  }

  lemma TopLimb(s: seq<Limb>, pos: nat, r: nat)
    requires pos < |s| && (forall t | pos < t < |s| :: s[t] == 0) && IsBits(s[pos], r) && r > 0
    ensures IsBits(Val(s), 32 * pos + r)
  {
    hide Val, Pow2;
    ValSplit(s, pos + 1);
    ValZero(s[pos + 1..]);
    ValTake(s, pos);
    ValBound(s[..pos]);
    var p, x := Pow(pos), s[pos];
    Pow2Add(32 * pos, r);
    Pow2Add(32 * pos, r - 1);
    Regroup(p, Pow2(r), 1);
    Regroup(p, Pow2(r - 1), 1);
    MulMono(Pow2(r - 1), x, p);
    MulGap(x, Pow2(r), p);
  }

  method Bits(a: array<Limb>) returns (r: nat)
    ensures IsBits(Val(a[..]), r) && r <= 32 * a.Length
  {
    hide Val, Pow2, IsBits;
    var pos := a.Length - 1;
    while pos >= 0
      invariant -1 <= pos < a.Length && forall t | pos < t < a.Length :: a[t] == 0
    {
      if a[pos] != 0 {
        var nbits := LimbBits(a[pos]);
        TopLimb(a[..], pos, nbits);
        return 32 * pos + nbits;
      }
      pos := pos - 1;
    }
    ValZero(a[..]);
    assert IsBits(0, 0) by { NoBits(); }
    return 0;
  }

  lemma NoBits()
    ensures IsBits(0, 0)
  {
  }

  // ---- Division

  /** The quotient's limbs are clear below bit `shift`, and at it. */
  ghost predicate ClearUpTo(q: seq<Limb>, shift: nat) {
    && (forall t | 0 <= t < |q| && t < shift / 32 :: q[t] == 0)
    && (shift / 32 < |q| ==> q[shift / 32] % Pow2(shift % 32 + 1) == 0)
  }

  lemma ClearNext(q: seq<Limb>, r: seq<Limb>, shift: nat, taken: bool)
    requires ClearUpTo(q, shift + 1) && (shift + 1) / 32 < |q| == |r|
    requires r == if taken then q[(shift + 1) / 32 := r[(shift + 1) / 32]] else q
    requires taken ==> r[(shift + 1) / 32] == q[(shift + 1) / 32] + Pow2((shift + 1) % 32)
    ensures ClearUpTo(r, shift)
  {
    hide Pow2;
    var k, b := (shift + 1) / 32, (shift + 1) % 32;
    if b > 0 {
      assert shift / 32 == k && shift % 32 == b - 1;
      var p := Pow2(b);
      DoublePow(b);
      Halve(q[k], p);
      if taken { PlusMultiple(q[k], p); }
    } else {
      assert shift / 32 == k - 1;
      assert r[k - 1] == 0;
    }
  }

  lemma DoublePow(b: nat)
    ensures Pow2(b + 1) == 2 * Pow2(b)
  {
  }

  lemma Halve(x: nat, p: nat)
    requires p > 0 && x % (2 * p) == 0
    ensures x % p == 0
  {
    var q := x / (2 * p);
    assert x == (2 * p) * q;
    Regroup(2, p, q);
    Regroup(p, 2 * q, 1);
    Regroup(2, p, 1);
    Regroup(p, 2, q);
    ModIs(0, 2 * q, p, x);
  }

  lemma PlusMultiple(x: nat, p: nat)
    requires p > 0 && x % p == 0
    ensures (x + p) % p == 0
  {
    var q := x / p;
    assert x == q * p;
    Distribute(q, 1, p);
    ModIs(0, q + 1, p, x + p);
  }

  /** The bit at `shift` is not set, and setting it adds its weight. */
  lemma SetBit(q: seq<Limb>, shift: nat)
    requires ClearUpTo(q, shift) && shift / 32 < |q|
    ensures var (k, b) := (shift / 32, shift % 32);
            && Disjoint(q[k], Pow2(b), b + 1) && q[k] + Pow2(b) < BASE
            && Pow2(b) * Pow(k) == Pow2(shift)
  {
    hide Pow2, Pow;
    var k, b := shift / 32, shift % 32;
    DoublePow(b);
    ShiftFactor(shift);
    LimbRoom(q[k], b + 1);
  }

  lemma LimbRoom(x: Limb, k: nat)
    requires k <= 32 && x % Pow2(k) == 0
    ensures x + Pow2(k) <= BASE
  {
    hide Pow2;
    PowOne(k);
    var p, m := Pow2(k), Pow2(32 - k);
    var q := x / p;
    assert x == q * p;
    if q < m {
      MulGap(q, m, p);
      Regroup(m, p, 1);
    } else {
      MulMono(m, q, p);
      Regroup(m, p, 1);
    }
  }

  /** What holds of the quotient, the remainder and the shifted divisor before the step for bit `shift`. */
  ghost predicate Dividing(orig: nat, b: nat, q: nat, num: nat, shift: int) {
    && -1 <= shift && orig == q * b + num && num < b * Pow2(shift + 1)
  }

  lemma DivideStep(orig: nat, b: nat, q: nat, num: nat, shift: nat)
    requires Dividing(orig, b, q, num, shift)
    ensures num >= b * Pow2(shift) ==> Dividing(orig, b, q + Pow2(shift), num - b * Pow2(shift), shift - 1)
    ensures num < b * Pow2(shift) ==> Dividing(orig, b, q, num, shift - 1)
  {
    var p := Pow2(shift);
    assert b * (2 * p) == 2 * (b * p);
    Distribute(q, p, b);
    Regroup(p, b, 1);
  }

  lemma DivideDone(orig: nat, b: nat, q: nat, num: nat)
    requires b > 0 && Dividing(orig, b, q, num, -1)
    ensures q == orig / b && num == orig % b
  {
    assert b * Pow2(0) == b;
    ModIs(num, q, b, orig);
  }

  lemma DivideStart(orig: nat, b: nat, numBits: nat, divBits: nat)
    requires IsBits(orig, numBits) && IsBits(b, divBits) && 0 < divBits <= numBits
    ensures Dividing(orig, b, 0, orig, numBits - divBits)
    ensures b * Pow2(numBits - divBits) < Pow2(numBits)
  {
    hide Pow2;
    var shift := numBits - divBits;
    Pow2Add(divBits, shift);
    Pow2Add(divBits - 1, shift + 1);
    MulGap(b, Pow2(divBits), Pow2(shift));
    MulMono(Pow2(divBits - 1), b, Pow2(shift + 1));
  }

  lemma SmallQuotient(orig: nat, b: nat, numBits: nat, divBits: nat)
    requires IsBits(orig, numBits) && IsBits(b, divBits) && divBits > numBits
    ensures b > 0 && orig / b == 0
  {
    hide Pow2;
    Pow2Mono(numBits, divBits - 1);
    ModIs(orig, 0, b, orig);
  }

  lemma HalfDivisor(b: nat, shift: nat)
    requires shift > 0
    ensures (b * Pow2(shift)) / Pow2(1) == b * Pow2(shift - 1)
  {
    var p := Pow2(shift - 1);
    assert Pow2(shift) == 2 * p && Pow2(1) == 2;
    assert b * (2 * p) == 2 * (b * p);
  }

  /** The remainder after the divisor is taken off does not wrap. */
  lemma NoBorrow(num: nat, d: nat, p: nat)
    requires d <= num < p
    ensures (num - d) % p == num - d
  {
    ModIs(num - d, 0, p, num - d);
  }

  /** Division rounding down; none by zero. The second operand may be the first. */
  method DivideBy(a: array<Limb>, b: array<Limb>) returns (ok: bool)
    requires a.Length == b.Length
    modifies a
    ensures ok <==> old(Val(b[..])) != 0
    ensures ok ==> Val(a[..]) == old(Val(a[..])) / old(Val(b[..]))
  {
    hide Val, Pow, Pow2, IsBits, Dividing, ClearUpTo;
    ghost var orig, d := Val(a[..]), Val(b[..]);
    var div := new Limb[b.Length];
    Copy(div, b);
    var num := new Limb[a.Length];
    Copy(num, a);
    Clear(a);
    ValZero(a[..]);
    var numBits := Bits(num);
    var divBits := Bits(div);
    ZeroBits(d, divBits);
    if divBits == 0 { return false; }
    if divBits > numBits {
      SmallQuotient(orig, d, numBits, divBits);
      return true;
    }
    var shift := numBits - divBits;
    DivideStart(orig, d, numBits, divBits);
    ShiftLeft(div, shift);
    Aligned(d * Pow2(shift), numBits, a.Length);
    ClearStart(a[..], shift);
    while shift >= 0
      invariant -1 <= shift < 32 * a.Length && fresh(div) && fresh(num) && div != num
                && div.Length == num.Length == a.Length
      invariant Dividing(orig, d, Val(a[..]), Val(num[..]), shift)
      invariant shift >= 0 ==> Val(div[..]) == d * Pow2(shift) && ClearUpTo(a[..], shift)
    {
      DivideStep(orig, d, Val(a[..]), Val(num[..]), shift);
      DivideOne(a, num, div, shift);
      ghost var x := Val(div[..]);
      ShiftRight(div, 1);
      if shift > 0 { HalfDivisor(d, shift); }
      shift := shift - 1;
    }
    DivideDone(orig, d, Val(a[..]), Val(num[..]));
    return true;
  }

  /** Take the divisor off if it fits, and set the bit. */
  method DivideOne(a: array<Limb>, num: array<Limb>, div: array<Limb>, shift: nat)
    requires a.Length == num.Length == div.Length && a != num && num != div && a != div && shift < 32 * a.Length
    requires ClearUpTo(a[..], shift)
    modifies a, num
    ensures var (fits, d) := (old(Val(num[..])) >= Val(div[..]), Val(div[..]));
            && Val(num[..]) == (if fits then old(Val(num[..])) - d else old(Val(num[..])))
            && Val(a[..]) == (if fits then old(Val(a[..])) + Pow2(shift) else old(Val(a[..])))
    ensures shift > 0 ==> ClearUpTo(a[..], shift - 1)
  {
    hide Val, Pow, Pow2, ClearUpTo;
    ghost var before := a[..];
    var order := CompareTo(num, div);
    if order >= 0 {
      ValBound(num[..]);
      NoBorrow(Val(num[..]), Val(div[..]), Pow(num.Length));
      SubtractFrom(num, div);
      SetBit(before, shift);
      ghost var q := OrInto(a, shift / 32, Pow2(shift % 32), shift % 32 + 1);
      ValUpdate(before, shift / 32, before[shift / 32] + Pow2(shift % 32));
    }
    if shift > 0 { ClearNext(before, a[..], shift - 1, order >= 0); }
  }

  lemma ZeroBits(x: nat, r: nat)
    requires IsBits(x, r)
    ensures r == 0 <==> x == 0
  {
  }

  lemma Aligned(x: nat, bits: nat, n: nat)
    requires x < Pow2(bits) && bits <= 32 * n
    ensures x % Pow(n) == x
  {
    Pow2Mono(bits, 32 * n);
    ModIs(x, 0, Pow(n), x);
  }

  lemma ClearStart(q: seq<Limb>, shift: nat)
    requires forall t | 0 <= t < |q| :: q[t] == 0
    ensures ClearUpTo(q, shift)
  {
    hide Pow2;
    ModIs(0, 0, Pow2(shift % 32 + 1), 0);
  }
}
