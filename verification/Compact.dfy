/** The compact encoding of difficulty targets, and the work of a target. */
module Compacts {
  import opened ArithDivides
  import opened ArithShifts
  import opened ArithUints
  import opened Limbs
  import opened BinaryPowers

  const SIGN: nat := 0x80_0000
  const SIZE_UNIT: nat := 0x100_0000

  function Times(a: nat, b: nat): nat {
    a * b
  }

  function Over(a: nat, b: nat): nat
    requires b > 0
  {
    a / b
  }

  /** 256 to the power `k`. */
  function Bytes(k: nat): (r: nat)
    ensures r > 0
  {
    Pow2(8 * k)
  }

  lemma BytesAdd(a: nat, b: nat)
    ensures Bytes(a + b) == Bytes(a) * Bytes(b)
  {
    hide Pow2;
    Pow2Add(8 * a, 8 * b);
  }

  lemma BytesAre()
    ensures Bytes(0) == 1 && Bytes(1) == 256 && Bytes(2) == 0x1_0000 && Bytes(3) == 0x100_0000
  {
    Pow2Is();
    Pow2Add(16, 8);
    assert Pow2(0) == 1;
  }

  lemma BytesMono(a: nat, b: nat)
    requires a <= b
    ensures Bytes(a) <= Bytes(b)
  {
    Pow2Mono(8 * a, 8 * b);
  }

  lemma BytesOfWidth()
    ensures Bytes(32) == Pow(8)
  {
  }

  // ---- What a compact number stands for

  function SizePart(n: nat): nat {
    n / SIZE_UNIT
  }

  function WordPart(n: nat): nat {
    n % SIGN
  }

  predicate SignPart(n: nat) {
    (n / SIGN) % 2 == 1
  }

  /** The number that `n` encodes, without its sign. */
  function CompactValue(n: nat): nat {
    var (size, word) := (SizePart(n), WordPart(n));
    if size <= 3 then Over(word, Bytes(3 - size)) else Times(word, Bytes(size - 3))
  }

  lemma ScaledCompare(w: nat, c: nat, p: nat)
    requires p > 0
    ensures w * p >= c * p <==> w >= c
  {
    if w >= c { MulMono(c, w, p); } else { MulGap(w, c, p); }
  }

  predicate Overflows(word: nat, size: nat) {
    word != 0 && (size > 34 || (word > 0xff && size > 33) || (word > 0xffff && size > 32))
  }

  lemma OverflowIff(word: nat, size: nat)
    requires word < SIGN && size > 3
    ensures Overflows(word, size) <==> word * Bytes(size - 3) >= Bytes(32)
  {
    hide Bytes;
    BytesAre();
    var p := Bytes(size - 3);
    if size >= 35 {
      BytesMono(32, size - 3);
      ScaledCompare(word, 1, p);
      if word == 0 { assert word * p == 0; }
    } else if size == 34 {
      BytesAdd(1, 31);
      ScaledCompare(word, 256, p);
    } else if size == 33 {
      BytesAdd(2, 30);
      ScaledCompare(word, 0x1_0000, p);
    } else {
      BytesAdd(3, size - 3);
      BytesMono(size, 32);
      ScaledCompare(word, 0x100_0000, p);
    }
  }

  lemma OneLimb(s: seq<Limb>)
    requires |s| > 0 && forall i | 0 < i < |s| :: s[i] == 0
    ensures Val(s) == s[0]
  {
    hide Pow;
    ValSplit(s, 1);
    ValZero(s[1..]);
    ValTake(s, 0);
    PowNext(0);
    assert s[..0] == [];
  }

  method FromLimb(v: Limb) returns (a: array<Limb>)
    ensures fresh(a) && a.Length == 8 && Val(a[..]) == v
  {
    hide Val;
    a := new Limb[8](_ => 0);
    a[0] := v;
    OneLimb(a[..]);
  }

  /** The overflow flag says exactly that the number needs more than 256 bits. */
  method SetCompact(n: Limb) returns (a: array<Limb>, negative: bool, overflow: bool)
    ensures fresh(a) && a.Length == 8 && Val(a[..]) == CompactValue(n) % Pow(8)
    ensures overflow <==> CompactValue(n) >= Pow(8)
    ensures negative <==> CompactValue(n) != 0 && SignPart(n)
  {
    hide Val, Pow, Pow2, Bytes;
    var size := n / SIZE_UNIT;
    var word: Limb := n % SIGN;
    BytesOfWidth();
    if size <= 3 {
      SmallWord(word, 3 - size);
      word := word / Bytes(3 - size);
      a := FromLimb(word);
      SmallFits(word);
    } else {
      a := FromLimb(word);
      ShiftLeft(a, 8 * (size - 3));
      OverflowIff(word, size);
      assert Bytes(size - 3) == Pow2(8 * (size - 3)) by { BytesIs(size - 3); }
      NonZeroProduct(word, Bytes(size - 3));
    }
    negative := word != 0 && (n / SIGN) % 2 == 1;
    overflow := word != 0 && (size > 34 || (word > 0xff && size > 33) || (word > 0xffff && size > 32));
  }

  lemma BytesIs(k: nat)
    ensures Bytes(k) == Pow2(8 * k)
  {
  }

  lemma NonZeroProduct(w: nat, p: nat)
    requires p > 0
    ensures w * p != 0 <==> w != 0
  {
    ScaledCompare(w, 1, p);
  }

  lemma SmallWord(word: nat, k: nat)
    requires word < SIGN
    ensures word / Bytes(k) < SIGN
  {
    hide Bytes;
    var p := Bytes(k);
    var q, r := word / p, word % p;
    assert word == q * p + r;
    MulMono(1, p, q);
    Regroup(p, q, 1);
  }

  lemma SmallFits(word: nat)
    requires word < SIGN
    ensures word < Pow(8) && word % Pow(8) == word
  {
    hide Bytes, Pow;
    BytesAre();
    BytesMono(3, 32);
    BytesOfWidth();
    ModIs(word, 0, Pow(8), word);
  }

  // ---- Encoding

  function BitLength(x: nat): nat {
    if x == 0 then 0 else BitLength(x / 2) + 1
  }

  lemma {:induction false} BitLengthIs(x: nat)
    ensures IsBits(x, BitLength(x))
    decreases x
  {
    if x > 0 { BitLengthIs(x / 2); }
  }

  /** The number of bytes of `x`. */
  function ByteLength(x: nat): nat {
    (BitLength(x) + 7) / 8
  }

  lemma ByteLengthIs(x: nat)
    requires x > 0
    ensures ByteLength(x) > 0 && Bytes(ByteLength(x) - 1) <= x < Bytes(ByteLength(x))
  {
    hide Pow2, BitLength;
    var b, s := BitLength(x), ByteLength(x);
    BitLengthIs(x);
    assert b > 0 by { ZeroBits(x, b); }
    Pow2Mono(b, 8 * s);
    Pow2Mono(8 * (s - 1), b - 1);
  }

  lemma ByteLengthUnique(x: nat, s: nat)
    requires s > 0 && Bytes(s - 1) <= x < Bytes(s)
    ensures ByteLength(x) == s
  {
    hide Bytes, ByteLength;
    ByteLengthIs(x);
    var t := ByteLength(x);
    if s < t { BytesMono(s, t - 1); }
    if t < s { BytesMono(t, s - 1); }
  }

  /** The three leading bytes. */
  function Mantissa(x: nat): nat {
    var s := ByteLength(x);
    if s <= 3 then Times(x, Bytes(3 - s)) else Over(x, Bytes(s - 3))
  }

  /** The compact encoding: a mantissa that would look negative loses its last byte. */
  function CompactOf(x: nat): nat {
    var (s, m) := (ByteLength(x), Mantissa(x));
    if m >= SIGN then (s + 1) * SIZE_UNIT + m / 256 else s * SIZE_UNIT + m
  }

  lemma QuotientRange(x: nat, p: nat, lo: nat, hi: nat)
    requires p > 0 && lo * p <= x < hi * p
    ensures lo <= x / p < hi && (x / p) * p <= x < (x / p) * p + p
  {
    var q, r := x / p, x % p;
    assert x == q * p + r;
    if q < lo { MulGap(q, lo, p); }
    if q >= hi { MulMono(hi, q, p); }
  }

  lemma MantissaRange(x: nat)
    requires x > 0
    ensures 0x1_0000 <= Mantissa(x) < 0x100_0000
  {
    hide Bytes, ByteLength;
    ByteLengthIs(x);
    BytesAre();
    var s := ByteLength(x);
    if s <= 3 {
      var p := Bytes(3 - s);
      BytesAdd(s - 1, 3 - s);
      BytesAdd(s, 3 - s);
      MulMono(Bytes(s - 1), x, p);
      MulGap(x, Bytes(s), p);
    } else {
      BytesAdd(2, s - 3);
      BytesAdd(3, s - 3);
      QuotientRange(x, Bytes(s - 3), 0x1_0000, 0x100_0000);
    }
  }

  lemma PackedParts(s: nat, m: nat)
    requires m < SIGN
    ensures var n := s * SIZE_UNIT + m; SizePart(n) == s && WordPart(n) == m && !SignPart(n)
  {
  }

  /** The size and mantissa that `CompactOf` packs. */
  lemma CompactParts(x: nat)
    ensures var (s, m) := (ByteLength(x), Mantissa(x));
            SizePart(CompactOf(x)) == (if m >= SIGN then s + 1 else s) &&
            WordPart(CompactOf(x)) == (if m >= SIGN then m / 256 else m) && !SignPart(CompactOf(x))
  {
    hide Mantissa, ByteLength, SizePart, WordPart, SignPart;
    if x == 0 { MantissaZero(); } else { MantissaRange(x); }
    var s, m := ByteLength(x), Mantissa(x);
    if m >= SIGN { PackedParts(s + 1, m / 256); } else { PackedParts(s, m); }
  }

  lemma MantissaZero()
    ensures ByteLength(0) == 0 && Mantissa(0) == 0
  {
  }

  // ---- Encoding and decoding again

  lemma ExactQuotient(x: nat, p: nat)
    requires p > 0
    ensures Over(Times(x, p), p) == x
  {
    ModIs(0, x, p, x * p);
  }

  /** A number whose encoding keeps all its bytes is decoded exactly. */
  lemma ExactWhenShort(x: nat)
    requires var s := ByteLength(x); s <= 2 || (s == 3 && Mantissa(x) < SIGN)
    ensures CompactValue(CompactOf(x)) == x
  {
    hide Bytes, ByteLength, Times, Over, CompactOf, SizePart, WordPart;
    CompactParts(x);
    var s, m := ByteLength(x), Mantissa(x);
    ExactQuotient(x, Bytes(3 - s));
    if m >= SIGN {
      var p := Bytes(2 - s);
      BytesAdd(1, 2 - s);
      BytesAre();
      assert m / 256 == Times(x, p) by { DropByte(x, p, m); }
      ExactQuotient(x, p);
    }
  }

  lemma DropByte(x: nat, p: nat, m: nat)
    requires m == Times(x, 256 * p)
    ensures m / 256 == Times(x, p)
  {
    assert x * (256 * p) == 256 * (x * p);
  }

  /** The size and leading part of a longer number: the part has at least fifteen bits, and the number is less than
      one unit above it. */
  lemma LongParts(x: nat)
    requires var s := ByteLength(x); s > 3 || (s == 3 && Mantissa(x) >= SIGN)
    ensures var (n, x') := (CompactOf(x), CompactValue(CompactOf(x)));
            && SizePart(n) > 3 && 0x8000 <= WordPart(n) && x' == Times(WordPart(n), Bytes(SizePart(n) - 3))
            && x' <= x < x' + Bytes(SizePart(n) - 3)
  {
    hide Bytes, ByteLength, Times, Over, CompactOf, SizePart, WordPart;
    CompactParts(x);
    if x == 0 { MantissaZero(); }
    MantissaRange(x);
    var s, m := ByteLength(x), Mantissa(x);
    var p := Bytes(s - 3);
    LongMantissa(x, s, m, p);
    if m >= SIGN {
      BytesAdd(1, s - 3);
      BytesAre();
      DropLast(x, m, p);
    }
  }

  lemma LongMantissa(x: nat, s: nat, m: nat, p: nat)
    requires s == ByteLength(x) && s >= 3 && m == Mantissa(x) && p == Bytes(s - 3)
    ensures Times(m, p) <= x < Times(m, p) + p
  {
    hide Bytes, ByteLength;
    BytesAre();
    if s > 3 {
      var q, r := x / p, x % p;
      assert x == q * p + r;
    }
  }

  lemma DropLast(x: nat, m: nat, p: nat)
    requires Times(m, p) <= x < Times(m, p) + p
    ensures Times(m / 256, 256 * p) <= x < Times(m / 256, 256 * p) + 256 * p
  {
    var q, r := m / 256, m % 256;
    assert q * (256 * p) == (256 * q) * p;
    Distribute(256 * q, r, p);
    MulGap(r, 256, p);
    MulNonNegative(r, p);
  }

  /** Decoding what was encoded rounds down, by less than one part in 2^15. */
  lemma CompactRounds(x: nat)
    ensures var x' := CompactValue(CompactOf(x)); x' <= x && (x > 0 ==> (x - x') * 0x8000 < x)
  {
    hide ByteLength, Mantissa, CompactOf, CompactValue, Bytes, SizePart, WordPart;
    var s := ByteLength(x);
    if s <= 2 || (s == 3 && Mantissa(x) < SIGN) {
      ExactWhenShort(x);
    } else {
      LongParts(x);
      var n := CompactOf(x);
      MulMono(0x8000, WordPart(n), Bytes(SizePart(n) - 3));
    }
  }

  /** Encoding again what was decoded changes nothing. */
  lemma CompactIdempotent(x: nat)
    ensures CompactOf(CompactValue(CompactOf(x))) == CompactOf(x)
  {
    hide ByteLength, Mantissa, CompactValue, Bytes, SizePart, WordPart, Times;
    var s, m := ByteLength(x), Mantissa(x);
    if s <= 2 || (s == 3 && m < SIGN) {
      ExactWhenShort(x);
    } else {
      LongParts(x);
      CompactParts(x);
      if x == 0 { MantissaZero(); }
      MantissaRange(x);
      var y := CompactValue(CompactOf(x));
      if m < SIGN {
        Reencode(y, m, s);
      } else {
        BytesAdd(1, s - 3);
        BytesAre();
        assert y == Times(256 * (m / 256), Bytes(s - 3)) by { MoveByte(m / 256, Bytes(s - 3)); }
        Reencode(y, 256 * (m / 256), s);
      }
    }
  }

  lemma MoveByte(w: nat, p: nat)
    ensures Times(w, 256 * p) == Times(256 * w, p)
  {
    assert w * (256 * p) == (256 * w) * p;
  }

  lemma Reencode(y: nat, m: nat, s: nat)
    requires s >= 3 && 0x1_0000 <= m < 0x100_0000 && y == Times(m, Bytes(s - 3))
    ensures ByteLength(y) == s && Mantissa(y) == m
  {
    hide ByteLength, Bytes;
    var p := Bytes(s - 3);
    BytesAre();
    BytesAdd(2, s - 3);
    BytesAdd(3, s - 3);
    MulMono(0x1_0000, m, p);
    MulGap(m, 0x100_0000, p);
    ByteLengthUnique(y, s);
    if s > 3 { ExactQuotient(m, p); }
  }

  // ---- The encoder

  function LowWords(a: seq<Limb>): nat
    requires |a| >= 2
  {
    a[0] + a[1] * BASE
  }

  lemma LowPart(a: seq<Limb>)
    requires |a| >= 2
    ensures Val(a) == LowWords(a) + Pow(2) * Val(a[2..])
  {
    hide Pow;
    PowNext(0);
    PowNext(1);
    ValSplit(a, 2);
    ValTake(a, 0);
    ValTake(a, 1);
    assert a[..0] == [];
  }

  lemma LowWordsAre(a: seq<Limb>)
    requires |a| >= 2 && Val(a) < Pow(2)
    ensures LowWords(a) == Val(a)
  {
    hide Pow, Val;
    LowPart(a);
    var v := Val(a[2..]);
    if v > 0 { MulMono(1, v, Pow(2)); }
  }

  lemma TwoLimbs()
    ensures Pow(2) == BASE * BASE
  {
    hide Pow;
    PowNext(0);
    PowNext(1);
  }

  lemma BitsAreLength(x: nat, r: nat)
    requires IsBits(x, r)
    ensures r == BitLength(x)
  {
    BitLengthIs(x);
    BitsUnique(x, r, BitLength(x));
  }

  lemma WidthBytes(x: nat)
    requires x < Pow(8)
    ensures ByteLength(x) <= 32
  {
    hide Bytes, ByteLength, Pow;
    if x == 0 {
      MantissaZero();
    } else {
      ByteLengthIs(x);
      BytesOfWidth();
      if ByteLength(x) > 32 { BytesMono(32, ByteLength(x) - 1); }
    }
  }

  /** The leading bytes, from the limbs. */
  method ReadMantissa(a: array<Limb>, size: nat) returns (m: Limb)
    requires a.Length == 8 && size == ByteLength(Val(a[..]))
    ensures m == Mantissa(Val(a[..])) && m < SIZE_UNIT
  {
    hide Val, Pow, Pow2, Bytes, ByteLength, LowWords;
    ghost var x := Val(a[..]);
    if x == 0 { MantissaZero(); } else { MantissaRange(x); }
    TwoLimbs();
    if size <= 3 {
      SmallNumber(x);
      LowWordsAre(a[..]);
      m := (LowWords(a[..]) * Bytes(3 - size)) % BASE;
    } else {
      var bn := new Limb[8];
      Copy(bn, a);
      ShiftRight(bn, 8 * (size - 3));
      BytesIs(size - 3);
      LowWordsAre(bn[..]);
      m := LowWords(bn[..]) % BASE;
    }
  }

  lemma SmallNumber(x: nat)
    requires ByteLength(x) <= 3
    ensures x < BASE
  {
    hide Bytes, ByteLength;
    BytesAre();
    if x > 0 {
      ByteLengthIs(x);
      BytesMono(ByteLength(x), 3);
    }
  }

  /** The compact encoding of a 256-bit number, with a sign. */
  method GetCompact(a: array<Limb>, negative: bool) returns (n: Limb)
    requires a.Length == 8
    ensures var (x, c) := (Val(a[..]), CompactOf(Val(a[..])));
            n == if negative && WordPart(c) != 0 then c + SIGN else c
  {
    hide Val, Pow, Pow2, Bytes, ByteLength, Mantissa, BitOr, WordPart;
    ghost var x := Val(a[..]);
    var bits := Bits(a);
    BitsAreLength(x, bits);
    var size := (bits + 7) / 8;
    assert size == ByteLength(x) by { ByteLengthOf(x); }
    ValBound(a[..]);
    WidthBytes(x);
    var m := ReadMantissa(a, size);
    if (m / SIGN) % 2 == 1 {
      m := m / 256;
      size := size + 1;
    }
    assert m < SIGN && size < 256;
    PackOr(m, size);
    var c := BitOr(m, size * SIZE_UNIT);
    assert c == CompactOf(x);
    PackedParts(size, m);
    SignOr(size, m);
    n := BitOr(c, if negative && c % SIGN != 0 then SIGN else 0);
    assert WordPart(c) == m == c % SIGN by { WordIs(c); }
  }

  lemma WordIs(n: nat)
    ensures WordPart(n) == n % SIGN
  {
  }

  lemma ByteLengthOf(x: nat)
    ensures ByteLength(x) == (BitLength(x) + 7) / 8
  {
  }

  lemma PackOr(m: nat, size: nat)
    requires m < SIGN
    ensures BitOr(m, size * SIZE_UNIT) == size * SIZE_UNIT + m
  {
    hide Pow2, BitOr;
    BytesAre();
    BytesIs(3);
    OrIsSum(m, size * SIZE_UNIT, 24);
  }

  lemma OrStep(x: nat, y: nat)
    ensures BitOr(x, y) == 2 * BitOr(x / 2, y / 2) + if x % 2 == 1 || y % 2 == 1 then 1 else 0
  {
  }

  lemma {:induction false} OrSwap(x: nat, y: nat, z: nat)
    ensures BitOr(BitOr(x, y), z) == BitOr(BitOr(x, z), y)
    decreases x + y + z
  {
    if x + y + z > 0 {
      OrSwap(x / 2, y / 2, z / 2);
      OrSwapStep(x, y, z);
    }
  }

  lemma OrSwapStep(x: nat, y: nat, z: nat)
    requires BitOr(BitOr(x / 2, y / 2), z / 2) == BitOr(BitOr(x / 2, z / 2), y / 2)
    ensures BitOr(BitOr(x, y), z) == BitOr(BitOr(x, z), y)
  {
    hide BitOr;
    OrStep(x, y);
    OrStep(x, z);
    OrStep(BitOr(x, y), z);
    OrStep(BitOr(x, z), y);
  }

  lemma SignIs()
    ensures Pow2(23) == SIGN
  {
    Pow2Is();
    Pow2Add(16, 7);
    assert Pow2(7) == 128 by {
      assert Pow2(3) == 8;
      assert Pow2(4) == 16;
      Pow2Add(3, 4);
    }
  }

  lemma SignOr(size: nat, m: nat)
    requires m < SIGN
    ensures BitOr(size * SIZE_UNIT + m, SIGN) == size * SIZE_UNIT + m + SIGN
            && BitOr(size * SIZE_UNIT + m, 0) == size * SIZE_UNIT + m
  {
    hide Pow2, BitOr;
    SignIs();
    BytesAre();
    BytesIs(3);
    PackOr(m, size);
    OrSwap(m, size * SIZE_UNIT, SIGN);
    OrIsSum(m, SIGN, 23);
    OrIsSum(m + SIGN, size * SIZE_UNIT, 24);
    assert BitOr(size * SIZE_UNIT + m, 0) == size * SIZE_UNIT + m by { OrNothing(size * SIZE_UNIT + m); }
  }

  lemma OrNothing(x: nat)
    ensures BitOr(x, 0) == x
  {
  }

  // ---- The work of a target

  method EqualTo(a: array<Limb>, b: nat) returns (r: bool)
    requires a.Length >= 2 && b < BASE * BASE
    ensures r <==> Val(a[..]) == b
  {
    hide Val, Pow;
    LowPart(a[..]);
    TwoLimbs();
    var i := a.Length - 1;
    while i >= 2
      invariant 1 <= i < a.Length && forall t | i < t < a.Length :: a[t] == 0
    {
      if a[i] != 0 {
        HighLimb(a[..], i);
        return false;
      }
      i := i - 1;
    }
    ValZero(a[2..]);
    assert a[..][2..] == a[2..];
    if a[1] != b / BASE { return false; }
    if a[0] != b % BASE { return false; }
    return true;
  }

  lemma HighLimb(a: seq<Limb>, i: nat)
    requires 2 <= i < |a| && a[i] != 0
    ensures Val(a) >= Pow(2)
  {
    hide Val, Pow2;
    ValSplit(a, i + 1);
    ValTake(a, i);
    MulMono(1, a[i], Pow(i));
    Pow2Mono(64, 32 * i);
    MulNonNegative(Pow(i + 1), Val(a[i + 1..]));
  }

  /** The expected number of hashes for a target: 2^256 divided by one more than the target, rounded down. */
  function BitsProof(bits: nat): nat {
    var t := CompactValue(bits);
    if t == 0 || SignPart(bits) || t >= Pow(8) then 0 else Pow(8) / (t + 1)
  }

  lemma NotTheMaximum(n: nat)
    ensures CompactValue(n) != Pow(8) - 1
  {
    hide Bytes, Pow, Over, Times, SizePart, WordPart;
    BytesOfWidth();
    BytesAre();
    BytesAdd(1, 31);
    var size, word := SizePart(n), WordPart(n);
    if size <= 3 {
      WordIs(n);
      SmallWord(word, 3 - size);
      OverIs(word, Bytes(3 - size));
      BytesMono(4, 32);
      BytesAdd(1, 3);
    } else {
      BytesAdd(1, size - 4);
      MoveByte(word, Bytes(size - 4));
      EvenTimes(word, Bytes(size - 4));
    }
  }

  lemma OverIs(a: nat, b: nat)
    requires b > 0
    ensures Over(a, b) == a / b
  {
  }

  lemma EvenTimes(w: nat, p: nat)
    ensures Times(256 * w, p) % 256 == 0
  {
    assert (256 * w) * p == 256 * (w * p);
  }

  lemma ProofQuotient(t: nat, w: nat)
    requires 0 < t && t + 1 < w
    ensures (w - 1 - t) / (t + 1) + 1 == w / (t + 1) && w / (t + 1) < w
  {
    var d := t + 1;
    var q, r := (w - d) / d, (w - d) % d;
    assert w - d == q * d + r;
    Distribute(q, 1, d);
    ModIs(r, q + 1, d, w);
    MulMono(2, d, q + 1);
    Regroup(d, q + 1, 1);
  }

  /** The work of a target, without ever dividing by zero. */
  method GetBitsProof(bits: Limb) returns (r: array<Limb>)
    ensures fresh(r) && r.Length == 8 && Val(r[..]) == BitsProof(bits)
  {
    hide Val, Pow, CompactValue, SignPart;
    var target, negative, overflow := SetCompact(bits);
    ghost var t, w := CompactValue(bits), Pow(8);
    var zero := EqualTo(target, 0);
    ValBound(target[..]);
    if t < w { NoBorrow(t, 0, w); }
    if negative || overflow || zero {
      r := FromLimb(0);
      return;
    }
    NotTheMaximum(bits);
    ProofQuotient(t, w);
    r := Not(target);
    var next := new Limb[8];
    Copy(next, target);
    var one := FromLimb(1);
    AddTo(next, one);
    NoBorrow(t + 1, 0, w);
    var ok := DivideBy(r, next);
    AddTo(r, one);
    NoBorrow(w / (t + 1), 0, w);
  }
}
