/** Arithmetic on fixed-width unsigned integers, limb by limb and in place, against arithmetic on integers. */
module ArithUints {
  import opened Limbs

  lemma ValTake(s: seq<Limb>, i: nat)
    requires i < |s|
    ensures Val(s[..i + 1]) == Val(s[..i]) + s[i] * Pow(i)
  {
    assert s[..i + 1][..i] == s[..i];
  }

  // ---- Addition

  lemma AddStep(carry: nat, x: nat, y: nat, p: nat)
    ensures var n := carry + x + y; (n % BASE) * p + (n / BASE) * (BASE * p) == carry * p + x * p + y * p
  {
    var n := carry + x + y;
    var q, r := n / BASE, n % BASE;
    Regroup(q, BASE, p);
    Distribute(q * BASE, r, p);
    Distribute(carry + x, y, p);
    Distribute(carry, x, p);
  }

  /** Addition modulo the width. The second operand may be the first. */
  method AddTo(a: array<Limb>, b: array<Limb>)
    requires a.Length == b.Length
    modifies a
    ensures Val(a[..]) == old(Val(a[..]) + Val(b[..])) % Pow(a.Length)
  {
    hide Pow, Val;
    ghost var x, y := a[..], b[..];
    var carry: nat := 0;
    assert a[..0] == x[..0] == y[..0] == [];
    assert Val([]) == 0 by { ValZero([]); }
    for i := 0 to a.Length
      invariant carry <= 1 && a[i..] == x[i..] && b[i..] == y[i..]
      invariant Val(a[..i]) + carry * Pow(i) == Val(x[..i]) + Val(y[..i])
    {
      var n := carry + a[i] + b[i];
      assert n < BASE * BASE;
      ghost var before := a[..i];
      AddStep(carry, x[i], y[i], Pow(i));
      PowNext(i);
      ValTake(x, i);
      ValTake(y, i);
      a[i] := n % BASE;
      carry := n / BASE;
      assert a[..i] == before;
      ValTake(a[..], i);
      assert a[..][..i] == a[..i] && a[..][..i + 1] == a[..i + 1];
    }
    assert a[..a.Length] == a[..] && x[..a.Length] == x && y[..a.Length] == y;
    ValBound(a[..]);
    ModIs(Val(a[..]), carry, Pow(a.Length), Val(x) + Val(y));
  }

  // ---- Complement, increment, negation, subtraction

  /** The bitwise complement. */
  method Not(a: array<Limb>) returns (r: array<Limb>)
    ensures fresh(r) && r.Length == a.Length
    ensures Val(r[..]) + Val(a[..]) == Pow(a.Length) - 1
  {
    hide Pow, Val;
    r := new Limb[a.Length];
    assert Val([]) == 0 by { ValZero([]); }
    assert a[..0] == r[..0] == [];
    PowNext(0);
    for i := 0 to a.Length
      invariant Val(r[..i]) + Val(a[..i]) == Pow(i) - 1
    {
      ghost var before := r[..i];
      r[i] := BASE - 1 - a[i];
      assert r[..i] == before;
      ValTake(a[..], i);
      ValTake(r[..], i);
      assert a[..][..i] == a[..i] && a[..][..i + 1] == a[..i + 1];
      assert r[..][..i] == r[..i] && r[..][..i + 1] == r[..i + 1];
      PowNext(i);
      Distribute(r[i], a[i], Pow(i));
      Distribute(BASE - 1, 1, Pow(i));
    }
    assert a[..a.Length] == a[..] && r[..a.Length] == r[..];
  }

  method Increment(a: array<Limb>)
    modifies a
    ensures Val(a[..]) == (old(Val(a[..])) + 1) % Pow(a.Length)
  {
    hide Pow, Val;
    ghost var x := a[..];
    var i := 0;
    PowNext(0);
    ghost var carry := true;
    while i < a.Length
      invariant 0 <= i <= a.Length && carry
      invariant Val(a[..]) + Pow(i) == Val(x) + 1
    {
      ghost var before := a[..];
      var v: Limb := if a[i] == BASE - 1 then 0 else a[i] + 1;
      a[i] := v;
      assert a[..] == before[i := v];
      ValUpdate(before, i, v);
      PowNext(i);
      Distribute(BASE - 1, 1, Pow(i));
      if v != 0 {
        carry := false;
        break;
      }
      i := i + 1;
    }
    ValBound(a[..]);
    ModIs(Val(a[..]), if carry then 1 else 0, Pow(a.Length), Val(x) + 1);
  }

  /** The two's complement. */
  method Negated(a: array<Limb>) returns (r: array<Limb>)
    ensures fresh(r) && r.Length == a.Length
    ensures Val(r[..]) == (Pow(a.Length) - Val(a[..])) % Pow(a.Length)
  {
    hide Pow, Val;
    ghost var x := a[..];
    r := Not(a);
    Increment(r);
    assert a[..] == x;
  }

  method SubtractFrom(a: array<Limb>, b: array<Limb>)
    requires a.Length == b.Length
    modifies a
    ensures Val(a[..]) == old(Val(a[..]) - Val(b[..])) % Pow(a.Length)
  {
    hide Pow, Val;
    ghost var x, y := a[..], b[..];
    var c := Negated(b);
    ghost var p, z := Pow(a.Length), Val(c[..]);
    AddTo(a, c);
    SubtractMod(Val(x), Val(y), z, p);
  }

  lemma SubtractMod(x: nat, y: nat, z: nat, p: nat)
    requires p > 0 && z == (p - y) % p
    ensures (x + z) % p == (x - y) % p
  {
    var q := (p - y) / p;
    var m := q * p;
    assert p - y == m + z;
    Distribute(1, -q, p);
    assert (1 - q) * p == p - m;
    ModShift(x - y, 1 - q, p);
  }

  lemma ModShift(x: int, q: int, p: nat)
    requires p > 0
    ensures (x + q * p) % p == x % p
  {
    var k, r := x / p, x % p;
    Distribute(k, q, p);
    var y := x + q * p;
    assert y == (k + q) * p + r;
    var k', r' := y / p, y % p;
    assert y == k' * p + r';
    if k + q < k' { MulGap(k + q, k', p); }
    if k' < k + q { MulGap(k', k + q, p); }
  }

  // ---- Multiplication

  lemma MulStep(carry: nat, w: nat, x: nat, y: nat, p: nat)
    ensures var n := carry + w + x * y;
            (n % BASE - w) * p + (n / BASE) * (BASE * p) == carry * p + (x * y) * p
  {
    var n := carry + w + x * y;
    var q, r := n / BASE, n % BASE;
    Regroup(q, BASE, p);
    Distribute(q * BASE, r - w, p);
    Distribute(carry, x * y, p);
  }

  /** A product of two limbs and two more limbs fit in 64 bits. */
  lemma NoOverflow(carry: nat, w: nat, x: nat, y: nat)
    requires carry < BASE && w < BASE && x < BASE && y < BASE
    ensures 0 <= x * y && carry + w + x * y < BASE * BASE
  {
    MulMono(x, BASE - 1, y);
    MulMono(y, BASE - 1, BASE - 1);
  }

  method MultiplyBySmall(a: array<Limb>, b: Limb)
    modifies a
    ensures Val(a[..]) == (old(Val(a[..])) * b) % Pow(a.Length)
  {
    hide Pow, Val;
    ghost var x := a[..];
    var carry: nat := 0;
    assert a[..0] == x[..0] == [];
    assert Val([]) == 0 by { ValZero([]); }
    for i := 0 to a.Length
      invariant carry < BASE && a[i..] == x[i..]
      invariant Val(a[..i]) + carry * Pow(i) == Val(x[..i]) * b
    {
      NoOverflow(carry, 0, b, a[i]);
      var n := carry + b * a[i];
      ghost var before := a[..i];
      MulStep(carry, 0, b, x[i], Pow(i));
      PowNext(i);
      ValTake(x, i);
      Distribute(Val(x[..i]), x[i] * Pow(i), b);
      Regroup(b, x[i], Pow(i));
      Regroup(x[i], Pow(i), b);
      Regroup(b, x[i] * Pow(i), 1);
      a[i] := n % BASE;
      carry := n / BASE;
      assert a[..i] == before;
      ValTake(a[..], i);
      assert a[..][..i] == a[..i] && a[..][..i + 1] == a[..i + 1];
    }
    assert a[..a.Length] == a[..] && x[..a.Length] == x;
    ValBound(a[..]);
    ModIs(Val(a[..]), carry, Pow(a.Length), Val(x) * b);
  }

  lemma RowStep(c: Limb, y: seq<Limb>, i: nat, j: nat)
    requires i < |y|
    ensures Row(c, j, y[..i + 1]) == Row(c, j, y[..i]) + (c * y[i]) * Pow(i + j)
  {
    hide Pow, Val;
    ValTake(y, i);
    PowAdd(i, j);
    var p, q, v := Pow(i), Pow(j), y[i];
    Distribute(Val(y[..i]), v * p, c * q);
    assert (c * q) * (v * p) == (c * v) * (p * q) by { Shuffle(c, q, v, p); }
  }

  lemma Shuffle(a: int, b: int, c: int, d: int)
    ensures (a * b) * (c * d) == (a * c) * (d * b)
  {
    calc {
      (a * b) * (c * d);
      { Regroup(a, b, c * d); }
      a * (b * (c * d));
      { Regroup(b, c, d); Regroup(b * c, d, 1); Regroup(b, c, 1); }
      a * ((c * b) * d);
      { Regroup(c, b, d); Regroup(b, d, 1); }
      a * (c * (d * b));
      { Regroup(a, c, d * b); }
      (a * c) * (d * b);
    }
  }

  ghost function Row(c: Limb, j: nat, y: seq<Limb>): nat {
    c * Pow(j) * Val(y)
  }

  /** The 64-bit intermediate result of one step. */
  function MulAdd(carry: Limb, w: Limb, c: Limb, v: Limb): (n: nat)
    ensures n < BASE * BASE
  {
    NoOverflow(carry, w, c, v);
    carry + w + c * v
  }

  ghost function Scaled(k: nat, i: nat): nat {
    k * Pow(i)
  }

  lemma RowUpdate(s: seq<Limb>, c: Limb, y: seq<Limb>, i: nat, j: nat, k: Limb, v: int, low: Limb)
    requires i < |y| && i + j < |s| && low == MulAdd(k, s[i + j], c, y[i]) % BASE
    requires Val(s) + Scaled(k, i + j) == v + Row(c, j, y[..i])
    ensures Val(s[i + j := low]) + Scaled(MulAdd(k, s[i + j], c, y[i]) / BASE, i + j + 1) == v + Row(c, j, y[..i + 1])
  {
    hide Pow, Val;
    MulStep(k, s[i + j], c, y[i], Pow(i + j));
    PowNext(i + j);
    RowStep(c, y, i, j);
    ValUpdate(s, i + j, low);
  }

  /** Add `c` times `b`, moved up by `j` limbs, to `r`. */
  method AddRow(r: array<Limb>, c: Limb, b: array<Limb>, j: nat) returns (ghost carry: nat)
    requires j <= r.Length == b.Length && r != b
    modifies r
    ensures Val(r[..]) + Scaled(carry, r.Length) == old(Val(r[..])) + Row(c, j, b[..r.Length - j])
  {
    hide Pow, Val, Row, Scaled, MulAdd;
    ghost var x, y := r[..], b[..];
    var k: Limb := 0;
    assert Row(c, j, y[..0]) == 0 && Scaled(0, j) == 0 by { assert y[..0] == []; RowEmpty(c, j); }
    for i := 0 to r.Length - j
      invariant b[..] == y && Val(r[..]) + Scaled(k, i + j) == Val(x) + Row(c, j, y[..i])
    {
      ghost var before := r[..];
      var n := MulAdd(k, r[i + j], c, b[i]);
      var low: Limb := n % BASE;
      RowUpdate(before, c, y, i, j, k, Val(x), low);
      r[i + j] := low;
      assert r[..] == before[i + j := low];
      k := n / BASE;
    }
    carry := k;
    assert y[..r.Length - j] == b[..r.Length - j];
  }

  lemma RowEmpty(c: Limb, j: nat)
    ensures Row(c, j, []) == 0 && Scaled(0, j) == 0
  {
  }

  lemma RowRest(c: Limb, y: seq<Limb>, j: nat)
    requires j <= |y|
    ensures c * Pow(j) * Val(y) == Row(c, j, y[..|y| - j]) + (c * Val(y[|y| - j..])) * Pow(|y|)
  {
    hide Pow, Val;
    var k := |y| - j;
    ValSplit(y, k);
    PowAdd(k, j);
    Distribute(Val(y[..k]), Pow(k) * Val(y[k..]), c * Pow(j));
    Shuffle(c, Pow(j), Val(y[k..]), Pow(k));
    Regroup(Pow(k), Val(y[k..]), 1);
  }

  /** Multiplication modulo the width. The second operand may be the first. */
  method MultiplyBy(a: array<Limb>, b: array<Limb>)
    requires a.Length == b.Length
    modifies a
    ensures Val(a[..]) == old(Val(a[..]) * Val(b[..])) % Pow(a.Length)
  {
    hide Pow, Val;
    ghost var x, y, p := a[..], b[..], Pow(a.Length);
    var r := new Limb[a.Length](_ => 0);
    ghost var q: nat := 0;
    ValZero(r[..]);
    assert x[..0] == [] && Val([]) == 0 by { ValZero([]); }
    for j := 0 to a.Length
      invariant a[..] == x && b[..] == y && fresh(r) && r.Length == |x|
      invariant Val(r[..]) + q * p == Val(x[..j]) * Val(y)
    {
      ghost var carry := AddRow(r, a[j], b, j);
      RowRest(x[j], y, j);
      ValTake(x, j);
      assert y[..|y| - j] == b[..r.Length - j];
      Distribute(Val(x[..j]), x[j] * Pow(j), Val(y));
      ghost var more := x[j] * Val(y[|y| - j..]);
      assert Scaled(carry, r.Length) == carry * p;
      Distribute(carry, more, p);
      Distribute(q, carry + more, p);
      q := q + carry + more;
    }
    assert x[..a.Length] == x;
    ValBound(r[..]);
    ModIs(Val(r[..]), q, p, Val(x) * Val(y));
    Copy(a, r);
  }

  method Copy(a: array<Limb>, r: array<Limb>)
    requires a.Length == r.Length
    modifies a
    ensures a[..] == old(r[..])
  {
    ghost var x := r[..];
    for i := 0 to a.Length
      invariant a[..i] == x[..i] && r[i..] == x[i..]
    {
      a[i] := r[i];
    }
    assert a[..] == a[..a.Length] && x[..a.Length] == x;
  }
}
