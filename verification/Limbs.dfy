/** Numbers as sequences of 32-bit limbs, least significant first. */
module Limbs {
  import opened BinaryPowers

  const BASE: nat := 0x1_0000_0000

  type Limb = x: nat | x < 0x1_0000_0000

  /** The weight of limb `n`. */
  function Pow(n: nat): (r: nat)
    ensures r > 0
  {
    Pow2(32 * n)
  }

  /** The number that the limbs stand for. */
  function Val(s: seq<Limb>): nat {
    if s == [] then 0 else Val(s[..|s| - 1]) + s[|s| - 1] * Pow(|s| - 1)
  }

  // ---- Powers

  lemma Pow2Is()
    ensures Pow2(8) == 256 && Pow2(16) == 0x1_0000 && Pow2(32) == BASE
  {
    assert Pow2(4) == 16;
    Pow2Add(4, 4);
    Pow2Add(8, 8);
    Pow2Add(16, 16);
  }

  lemma PowNext(n: nat)
    ensures Pow(n + 1) == BASE * Pow(n) && Pow(0) == 1
  {
    hide Pow2;
    Pow2Is();
    Pow2Add(32, 32 * n);
    assert Pow2(0) == 1 by { Pow2Zero(); }
  }

  lemma PowAdd(a: nat, b: nat)
    ensures Pow(a + b) == Pow(a) * Pow(b)
  {
    hide Pow2;
    Pow2Add(32 * a, 32 * b);
  }

  // ---- Arithmetic facts

  lemma MulMono(a: nat, b: nat, p: nat)
    requires a <= b
    ensures a * p <= b * p
  {
  }

  lemma Distribute(a: int, b: int, p: int)
    ensures (a + b) * p == a * p + b * p && p * (a + b) == p * a + p * b
  {
  }

  lemma Regroup(a: int, b: int, c: int)
    ensures (a * b) * c == a * (b * c) && a * b == b * a
  {
  }

  /** The remainder is the number below `p` that differs by a multiple of `p`. */
  lemma ModIs(r: nat, q: int, p: nat, x: nat)
    requires p > 0 && r < p && r + q * p == x
    ensures r == x % p && q == x / p
  {
    var q', r' := x / p, x % p;
    assert x == q' * p + r';
    if q < q' { MulGap(q, q', p); }
    if q' < q { MulGap(q', q, p); }
  }

  lemma MulGap(a: int, b: int, p: nat)
    requires a < b
    ensures a * p + p <= b * p
  {
    Distribute(b - a - 1, a + 1, p);
    Distribute(a, 1, p);
    assert (b - a - 1) * p >= 0 by { MulNonNegative(b - a - 1, p); }
  }

  lemma MulNonNegative(a: nat, b: nat)
    ensures a * b >= 0
  {
  }

  // ---- Values

  lemma {:induction false} ValBound(s: seq<Limb>)
    ensures Val(s) < Pow(|s|)
    decreases |s|
  {
    hide Pow;
    if s == [] {
      PowNext(0);
    } else {
      var n := |s| - 1;
      ValBound(s[..n]);
      PowNext(n);
      MulGap(s[n], BASE, Pow(n));
    }
  }

  lemma {:induction false} ValUpdate(s: seq<Limb>, k: nat, v: Limb)
    requires k < |s|
    ensures Val(s[k := v]) == Val(s) + (v - s[k]) * Pow(k)
    decreases |s|
  {
    hide Pow;
    var n := |s| - 1;
    if k == n {
      assert s[k := v][..n] == s[..n];
      Distribute(v - s[k], s[k], Pow(k));
    } else {
      assert s[k := v][..n] == s[..n][k := v];
      ValUpdate(s[..n], k, v);
    }
  }

  lemma {:induction false} ValSplit(s: seq<Limb>, k: nat)
    requires k <= |s|
    ensures Val(s) == Val(s[..k]) + Pow(k) * Val(s[k..])
    decreases |s|
  {
    hide Pow;
    if k == |s| {
      assert s[..k] == s;
    } else {
      var n := |s| - 1;
      ValSplit(s[..n], k);
      assert s[..n][..k] == s[..k] && s[..n][k..] == s[k..][..n - k];
      PowAdd(k, n - k);
      var p, q, t := Pow(k), Pow(n - k), s[n];
      Distribute(Val(s[k..n]), t * q, p);
      assert s[k..][..n - k] == s[k..n];
      assert t * Pow(n) == p * (t * q) by { Regroup(t, p, q); Regroup(p, t, q); Regroup(t, p, 1); }
    }
  }

  lemma {:induction false} ValZero(s: seq<Limb>)
    requires forall i | 0 <= i < |s| :: s[i] == 0
    ensures Val(s) == 0
    decreases |s|
  {
    if s != [] { ValZero(s[..|s| - 1]); }
  }

  // ---- Bits

  /** Bitwise or. */
  function BitOr(x: nat, y: nat): nat {
    if x == 0 then y else if y == 0 then x
    else 2 * BitOr(x / 2, y / 2) + if x % 2 == 1 || y % 2 == 1 then 1 else 0
  }

  /** Numbers without common bits are added by "or". */
  lemma {:induction false} OrIsSum(x: nat, y: nat, k: nat)
    requires x < Pow2(k) && y % Pow2(k) == 0
    ensures BitOr(x, y) == x + y
    decreases k
  {
    if x != 0 && y != 0 {
      var p := Pow2(k - 1);
      HalfMultiple(y, p);
      OrIsSum(x / 2, y / 2, k - 1);
    }
  }

  lemma HalfMultiple(y: nat, p: nat)
    requires p > 0 && y % (2 * p) == 0
    ensures y % 2 == 0 && (y / 2) % p == 0
  {
    var q := y / (2 * p);
    assert y == (2 * p) * q;
    Regroup(2, p, q);
    assert y / 2 == p * q;
    Regroup(p, q, 1);
    ModIs(0, q, p, y / 2);
  }
}
