/** Shifts, comparison, bit length and division of limb numbers. */
module ArithShifts {
  import opened ArithUints
  import opened Limbs
  import opened BinaryPowers

  // ---- Placing the two parts of a shifted limb

  lemma PowOne(k: nat)
    requires k <= 32
    ensures Pow2(k) * Pow2(32 - k) == BASE
  {
    hide Pow2;
    Pow2Add(k, 32 - k);
    Pow2Is();
  }

  /** A limb moved up by `s` bits falls into two limbs. */
  lemma SplitShift(x: Limb, s: nat)
    requires s <= 32
    ensures var (hi, lo) := (x / Pow2(32 - s), (x * Pow2(s)) % BASE);
            && hi < Pow2(s) && lo % Pow2(s) == 0 && lo + Pow2(s) <= BASE
            && x * Pow2(s) == hi * BASE + lo
  {
    hide Pow2;
    PowOne(s);
    var p, q := Pow2(s), Pow2(32 - s);
    var hi, r := x / q, x % q;
    var m := hi * q;
    assert x == m + r;
    Distribute(m, r, p);
    Regroup(hi, q, p);
    Regroup(q, p, 1);
    assert x * p == hi * BASE + r * p;
    MulGap(r, q, p);
    assert r * p + p <= BASE by { Regroup(q, p, 1); }
    MulNonNegative(r, p);
    ModIs(r * p, hi, BASE, x * p);
    ModIs(0, r, p, r * p);
    if hi >= p { QuotientBound(x, q, p, hi, r); }
  }

  lemma QuotientBound(x: nat, q: nat, p: nat, hi: nat, r: nat)
    requires x == hi * q + r && p * q == BASE
    ensures hi >= p ==> x >= BASE
  {
    if hi >= p { MulMono(p, hi, q); }
  }

  ghost predicate Disjoint(x: nat, y: nat, k: nat) {
    (x < Pow2(k) && y % Pow2(k) == 0) || (y < Pow2(k) && x % Pow2(k) == 0)
  }

  lemma OrSum(x: nat, y: nat, k: nat)
    requires Disjoint(x, y, k)
    ensures BitOr(x, y) == x + y
  {
    if x < Pow2(k) && y % Pow2(k) == 0 {
      OrIsSum(x, y, k);
    } else {
      OrIsSum(y, x, k);
      OrCommutes(x, y);
    }
  }

  lemma {:induction false} OrCommutes(x: nat, y: nat)
    ensures BitOr(x, y) == BitOr(y, x)
    decreases x
  {
    if x != 0 && y != 0 { OrCommutes(x / 2, y / 2); }
  }

  /** "Or" `v` into limb `e`, unless that is beyond the width. */
  method OrInto(a: array<Limb>, e: nat, v: Limb, ghost k: nat) returns (ghost q: nat)
    requires e < a.Length ==> Disjoint(a[e], v, k) && a[e] + v < BASE
    modifies a
    ensures Val(a[..]) + q * Pow(a.Length) == old(Val(a[..])) + v * Pow(e)
    ensures a[..] == if e < a.Length then old(a[..])[e := old(a[e]) + v] else old(a[..])
  {
    hide Pow, Val, Disjoint, Pow2, BitOr;
    ghost var before := a[..];
    if e < a.Length {
      OrSum(a[e], v, k);
      ValUpdate(before, e, before[e] + v);
      a[e] := BitOr(a[e], v);
      assert a[..] == before[e := before[e] + v];
      q := 0;
    } else {
      q := v * Pow(e - a.Length);
      PowAdd(e - a.Length, a.Length);
      Regroup(v, Pow(e - a.Length), Pow(a.Length));
    }
  }

  method Clear(a: array<Limb>)
    modifies a
    ensures forall i | 0 <= i < a.Length :: a[i] == 0
  {
    for i := 0 to a.Length
      invariant forall t | 0 <= t < i :: a[t] == 0
    {
      a[i] := 0;
    }
  }

  // ---- Shifting up

  ghost predicate UpState(a: seq<Limb>, i: nat, k: nat, s: nat) {
    && (forall t | 0 <= t < |a| && t > i + k :: a[t] == 0)
    && (i + k < |a| ==> a[i + k] < Pow2(s))
  }

  /** Shift left, modulo the width. */
  method ShiftLeft(a: array<Limb>, shift: nat)
    modifies a
    ensures Val(a[..]) == (old(Val(a[..])) * Pow2(shift)) % Pow(a.Length)
  {
    hide Pow, Val, Pow2;
    ghost var n := a.Length;
    var x := a[..];
    Clear(a);
    ValZero(a[..]);
    var k, s := shift / 32, shift % 32;
    ghost var q: nat := 0;
    ghost var f := Pow2(s) * Pow(k);
    assert x[..0] == [] && Val([]) == 0 by { ValZero([]); }
    for i := 0 to a.Length
      invariant UpState(a[..], i, k, s)
      invariant Val(a[..]) + q * Pow(n) == Val(x[..i]) * f
    {
      ghost var q1, q2 := UpStep(a, x[i], i, k, s);
      ValTake(x, i);
      Distribute(Val(x[..i]), x[i] * Pow(i), f);
      Distribute(q, q1, Pow(n));
      Distribute(q + q1, q2, Pow(n));
      q := q + q1 + q2;
    }
    assert x[..n] == x;
    ShiftFactor(shift);
    ValBound(a[..]);
    ModIs(Val(a[..]), q, Pow(n), Val(x) * f);
  }

  lemma ShiftFactor(shift: nat)
    ensures Pow2(shift) == Pow2(shift % 32) * Pow(shift / 32)
  {
    hide Pow2;
    Pow2Add(shift % 32, 32 * (shift / 32));
  }

  lemma UpWeight(x: Limb, i: nat, k: nat, s: nat)
    requires s <= 32
    ensures (x / Pow2(32 - s)) * Pow(i + k + 1) + ((x * Pow2(s)) % BASE) * Pow(i + k) ==
            (x * Pow(i)) * (Pow2(s) * Pow(k))
  {
    hide Pow, Pow2;
    SplitShift(x, s);
    var hi, lo, p := x / Pow2(32 - s), (x * Pow2(s)) % BASE, Pow(i + k);
    PowNext(i + k);
    Regroup(hi, BASE, p);
    Distribute(hi * BASE, lo, p);
    PowAdd(k, i);
    Shuffle(x, Pow(i), Pow2(s), Pow(k));
  }

  method UpStep(a: array<Limb>, x: Limb, i: nat, k: nat, s: nat) returns (ghost q1: nat, ghost q2: nat)
    requires s < 32 && i < a.Length && UpState(a[..], i, k, s)
    modifies a
    ensures UpState(a[..], i + 1, k, s)
    ensures Val(a[..]) + q1 * Pow(a.Length) + q2 * Pow(a.Length) ==
            old(Val(a[..])) + (x * Pow(i)) * (Pow2(s) * Pow(k))
  {
    hide Pow, Val, Pow2, UpState;
    SplitShift(x, s);
    UpWeight(x, i, k, s);
    var hi, lo := x / Pow2(32 - s), (x * Pow2(s)) % BASE;
    ghost var before := a[..];
    UpReady(before, i, k, s, hi, lo);
    if s != 0 {
      q1 := OrInto(a, i + k + 1, hi, s);
    } else {
      q1 := 0;
    }
    ghost var middle := a[..];
    q2 := OrInto(a, i + k, lo, s);
    UpNext(before, middle, a[..], i, k, s, hi, lo);
  }

  lemma UpReady(a: seq<Limb>, i: nat, k: nat, s: nat, hi: Limb, lo: Limb)
    requires s < 32 && UpState(a, i, k, s) && hi < Pow2(s) && lo % Pow2(s) == 0 && lo + Pow2(s) <= BASE
    ensures i + k + 1 < |a| ==> a[i + k + 1] == 0 && Disjoint(a[i + k + 1], hi, s)
    ensures i + k < |a| ==> Disjoint(a[i + k], lo, s) && a[i + k] + lo < BASE
    ensures s == 0 ==> hi == 0
  {
    hide Pow2;
    assert Pow2(0) == 1 by { Pow2Zero(); }
  }

  lemma UpNext(before: seq<Limb>, middle: seq<Limb>, after: seq<Limb>, i: nat, k: nat, s: nat, hi: Limb, lo: Limb)
    requires UpState(before, i, k, s) && hi < Pow2(s) && (s == 0 ==> hi == 0) && |before| == |middle| == |after|
    requires i + k < |before| ==> before[i + k] + lo < BASE
    requires middle == if i + k + 1 < |before| then before[i + k + 1 := hi] else before
    requires after == if i + k < |before| then middle[i + k := middle[i + k] + lo] else middle
    ensures UpState(after, i + 1, k, s)
  {
    hide Pow2;
  }

  // ---- Shifting down

  ghost predicate DownState(a: seq<Limb>, i: nat, k: nat, s: nat)
    requires s <= 32
  {
    && (forall t | 0 <= t < |a| && t >= i - k :: a[t] == 0)
    && (k < i <= |a| ==> a[i - k - 1] < Pow2(32 - s))
  }

  /** Shift right, rounding down. */
  method ShiftRight(a: array<Limb>, shift: nat)
    modifies a
    ensures Val(a[..]) == old(Val(a[..])) / Pow2(shift)
  {
    hide Pow, Val, Pow2;
    var x := a[..];
    Clear(a);
    ValZero(a[..]);
    var k, s := shift / 32, shift % 32;
    ghost var f, rem := Pow2(s) * Pow(k), 0;
    assert x[..0] == [] && Val([]) == 0 by { ValZero([]); }
    FactorPositive(s, k);
    for i := 0 to a.Length
      invariant DownState(a[..], i, k, s)
      invariant Val(a[..]) * f + rem == Val(x[..i]) && 0 <= rem < f && (i <= k ==> Val(a[..]) == 0)
    {
      ValTake(x, i);
      if i < k {
        rem := Val(x[..i + 1]);
        LowBound(x, i + 1, k, s);
      } else {
        ghost var before := Val(a[..]);
        ghost var less := DownStep(a, x[i], i, k, s);
        ghost var added := Val(a[..]) - before;
        Distribute(before, added, f);
        if i == k { FirstRemainder(x, i, s, x[i] % Pow2(s)); }
        rem := rem + less;
      }
    }
    assert x[..a.Length] == x;
    ShiftFactor(shift);
    ModIs(rem, Val(a[..]), f, Val(x));
  }

  lemma FactorPositive(s: nat, k: nat)
    ensures Pow2(s) * Pow(k) > 0
  {
    hide Pow, Pow2;
    MulGap(0, Pow2(s), Pow(k));
  }

  lemma LowBound(x: seq<Limb>, i: nat, k: nat, s: nat)
    requires i <= |x| && i <= k
    ensures Val(x[..i]) < Pow2(s) * Pow(k)
  {
    hide Val, Pow2;
    ValBound(x[..i]);
    Pow2Mono(32 * i, 32 * k);
    MulMono(1, Pow2(s), Pow(k));
  }

  lemma FirstRemainder(x: seq<Limb>, k: nat, s: nat, r: nat)
    requires k < |x| && r < Pow2(s)
    ensures Val(x[..k]) + r * Pow(k) < Pow2(s) * Pow(k)
  {
    hide Val, Pow, Pow2;
    ValBound(x[..k]);
    MulGap(r, Pow2(s), Pow(k));
  }

  /** A limb moved down: what falls to limbs `i - k` and below it, times the factor. */
  lemma DownWeight(x: Limb, i: nat, k: nat, s: nat)
    requires s <= 32 && k < i
    ensures ((x / Pow2(s)) * Pow(i - k) + ((x * Pow2(32 - s)) % BASE) * Pow(i - k - 1)) * (Pow2(s) * Pow(k)) ==
            x * Pow(i)
  {
    hide Pow, Pow2;
    UpWeight(x, i - k - 1, 0, 32 - s);
    PowOne(s);
    PowNext(0);
    PowNext(i - 1);
    PowAdd(i - k - 1, k);
    var p, q, t, u := Pow2(32 - s), Pow2(s), Pow(i - k - 1), Pow(k);
    assert (x * t) * (p * 1) == (x * t) * p;
    Shuffle(x * t, p, q, u);
    assert ((x * t) * p) * (q * u) == ((x * t) * q) * (u * p);
    DownAlgebra(x, t, p, q, u);
  }

  lemma DownAlgebra(x: int, t: int, p: int, q: int, u: int)
    ensures ((x * t) * p) * (q * u) == x * ((q * p) * (t * u))
  {
    calc {
      ((x * t) * p) * (q * u);
      { Regroup(x * t, p, q * u); Regroup(p, q, u); Regroup(p, q, 1); }
      (x * t) * ((q * p) * u);
      { Regroup(x, t, (q * p) * u); }
      x * (t * ((q * p) * u));
      { Regroup(t, q * p, u); Regroup(t, q * p, 1); Regroup(q * p, t, u); }
      x * ((q * p) * (t * u));
    }
  }

  lemma DownFirst(x: Limb, k: nat, s: nat)
    ensures ((x / Pow2(s)) * Pow(0)) * (Pow2(s) * Pow(k)) + (x % Pow2(s)) * Pow(k) == x * Pow(k)
  {
    hide Pow, Pow2;
    PowNext(0);
    var p, t := Pow2(s), Pow(k);
    var hi, r := x / p, x % p;
    var m := hi * p;
    assert x == m + r;
    Regroup(hi, p, t);
    Distribute(m, r, t);
  }

  method DownStep(a: array<Limb>, x: Limb, i: nat, k: nat, s: nat) returns (ghost less: nat)
    requires s < 32 && k <= i < a.Length && DownState(a[..], i, k, s)
    modifies a
    ensures DownState(a[..], i + 1, k, s)
    ensures less == if i == k then (x % Pow2(s)) * Pow(k) else 0
    ensures (Val(a[..]) - old(Val(a[..]))) * (Pow2(s) * Pow(k)) + less == x * Pow(i)
  {
    hide Pow, Val, Pow2, DownState;
    SplitShift(x, 32 - s);
    var hi, lo := x / Pow2(s), (x * Pow2(32 - s)) % BASE;
    ghost var before := a[..];
    DownReady(before, i, k, s, hi, lo);
    ghost var q1, q2: nat := 0, 0;
    if i > k && s != 0 {
      q1 := OrInto(a, i - k - 1, lo, 32 - s);
    }
    ghost var middle := a[..];
    q2 := OrInto(a, i - k, hi, 32 - s);
    less := if i == k then (x % Pow2(s)) * Pow(k) else 0;
    DownNext(before, middle, a[..], i, k, s, hi, lo);
    DownSum(before, middle, a[..], i, k, s, x);
  }

  lemma DownReady(a: seq<Limb>, i: nat, k: nat, s: nat, hi: Limb, lo: Limb)
    requires s < 32 && k <= i < |a| && DownState(a, i, k, s)
    requires hi < Pow2(32 - s) && lo % Pow2(32 - s) == 0 && lo + Pow2(32 - s) <= BASE
    ensures i > k ==> Disjoint(a[i - k - 1], lo, 32 - s) && a[i - k - 1] + lo < BASE
    ensures a[i - k] == 0 && Disjoint(a[i - k], hi, 32 - s)
    ensures s == 0 ==> lo == 0
  {
    hide Pow2;
    Pow2Is();
  }

  lemma DownNext(before: seq<Limb>, middle: seq<Limb>, after: seq<Limb>, i: nat, k: nat, s: nat, hi: Limb, lo: Limb)
    requires s < 32 && k <= i < |before| == |middle| == |after| && DownState(before, i, k, s) && hi < Pow2(32 - s)
    requires i > k ==> before[i - k - 1] + lo < BASE
    requires middle == if i > k && s != 0 then before[i - k - 1 := before[i - k - 1] + lo] else before
    requires after == middle[i - k := middle[i - k] + hi]
    ensures DownState(after, i + 1, k, s)
  {
    hide Pow2;
  }

  lemma DownSum(before: seq<Limb>, middle: seq<Limb>, after: seq<Limb>, i: nat, k: nat, s: nat, x: Limb)
    requires s < 32 && k <= i < |before| == |middle| == |after| && before[i - k] == 0
    requires i > k ==> before[i - k - 1] + (x * Pow2(32 - s)) % BASE < BASE
    requires s == 0 ==> (x * Pow2(32 - s)) % BASE == 0
    requires middle ==
             if i > k && s != 0 then before[i - k - 1 := before[i - k - 1] + (x * Pow2(32 - s)) % BASE] else before
    requires after == middle[i - k := middle[i - k] + x / Pow2(s)]
    ensures (Val(after) - Val(before)) * (Pow2(s) * Pow(k)) + (if i == k then (x % Pow2(s)) * Pow(k) else 0) ==
            x * Pow(i)
  {
    hide Val, Pow, Pow2;
    var hi, lo := x / Pow2(s), (x * Pow2(32 - s)) % BASE;
    ValUpdate(middle, i - k, hi);
    if i == k {
      DownFirst(x, k, s);
    } else {
      DownWeight(x, i, k, s);
      if s != 0 {
        ValUpdate(before, i - k - 1, before[i - k - 1] + lo);
      }
    }
  }
}
