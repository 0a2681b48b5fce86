/** The checksum code of Bech32 and Bech32m: arithmetic on the bit-packed residue. */
module Bech32Code {

  function Xor(a: bv32, b: bv32): bv32 {
    a ^ b
  }

  lemma XorAssociative(a: bv32, b: bv32, c: bv32)
    ensures Xor(Xor(a, b), c) == Xor(a, Xor(b, c))
  {
  }

  lemma XorCommutative(a: bv32, b: bv32)
    ensures Xor(a, b) == Xor(b, a)
  {
  }

  lemma Exchange(a: bv32, a': bv32, b: bv32, b': bv32)
    ensures Xor(Xor(a, a'), Xor(b, b')) == Xor(Xor(a, b), Xor(a', b'))
  {
    hide Xor;
    XorAssociative(a, a', Xor(b, b'));
    XorAssociative(a', b, b');
    XorCommutative(a', b);
    XorAssociative(b, a', b');
    XorAssociative(a, b, Xor(a', b'));
  }

  lemma XorSelf(k: bv32)
    ensures Xor(k, k) == 0 && Xor(k, 0) == k && Xor(0, k) == k
  {
  }

  // ---- One step

  /** `k` if the bit of `b` is set. */
  function Term(b: bv32, mask: bv32, k: bv32): bv32 {
    if b & mask != 0 then k else 0
  }

  ghost predicate OneBit(mask: bv32) {
    mask == 1 || mask == 2 || mask == 4 || mask == 8 || mask == 16
  }

  lemma BitXor(b: bv32, d: bv32, mask: bv32)
    requires OneBit(mask)
    ensures (Xor(b, d) & mask != 0) <==> ((b & mask != 0) != (d & mask != 0))
  {
  }

  lemma TermLinear(b: bv32, d: bv32, mask: bv32, k: bv32)
    requires OneBit(mask)
    ensures Term(Xor(b, d), mask, k) == Xor(Term(b, mask, k), Term(d, mask, k))
  {
    hide Xor;
    BitXor(b, d, mask);
    XorSelf(k);
    XorSelf(0);
  }

  /** The multiples of the generator's tail selected by the bits of the leading coefficient. */
  function Mix(b: bv32): bv32 {
    Xor(Xor(Xor(Xor(Term(b, 1, 0x3b6a57b2), Term(b, 2, 0x26508e6d)), Term(b, 4, 0x1ea119fa)), Term(b, 8, 0x3d4233dd)),
        Term(b, 16, 0x2a1462b3))
  }

  lemma MixLinear(b: bv32, d: bv32)
    ensures Mix(Xor(b, d)) == Xor(Mix(b), Mix(d))
  {
    hide Xor, Term;
    TermLinear(b, d, 1, 0x3b6a57b2);
    TermLinear(b, d, 2, 0x26508e6d);
    TermLinear(b, d, 4, 0x1ea119fa);
    TermLinear(b, d, 8, 0x3d4233dd);
    TermLinear(b, d, 16, 0x2a1462b3);
    var b1, d1 := Term(b, 1, 0x3b6a57b2), Term(d, 1, 0x3b6a57b2);
    var b2, d2 := Xor(b1, Term(b, 2, 0x26508e6d)), Xor(d1, Term(d, 2, 0x26508e6d));
    var b3, d3 := Xor(b2, Term(b, 4, 0x1ea119fa)), Xor(d2, Term(d, 4, 0x1ea119fa));
    var b4, d4 := Xor(b3, Term(b, 8, 0x3d4233dd)), Xor(d3, Term(d, 8, 0x3d4233dd));
    Exchange(b1, d1, Term(b, 2, 0x26508e6d), Term(d, 2, 0x26508e6d));
    Exchange(b2, d2, Term(b, 4, 0x1ea119fa), Term(d, 4, 0x1ea119fa));
    Exchange(b3, d3, Term(b, 8, 0x3d4233dd), Term(d, 8, 0x3d4233dd));
    Exchange(b4, d4, Term(b, 16, 0x2a1462b3), Term(d, 16, 0x2a1462b3));
  }

  /** The residue with its leading coefficient removed and the others moved up. */
  function Shifted(c: bv32): bv32 {
    (c & 0x1ffffff) << 5
  }

  function Leading(c: bv32): bv32 {
    c >> 25
  }

  lemma ShiftLinear(c: bv32, d: bv32)
    ensures Shifted(Xor(c, d)) == Xor(Shifted(c), Shifted(d)) && Leading(Xor(c, d)) == Xor(Leading(c), Leading(d))
  {
  }

  /** Append the symbol `v`: multiply by x, add, and reduce. */
  function Step(c: bv32, v: bv32): bv32 {
    Xor(Xor(Shifted(c), v), Mix(Leading(c)))
  }

  lemma StepLinear(c: bv32, d: bv32, v: bv32, w: bv32)
    ensures Step(Xor(c, d), Xor(v, w)) == Xor(Step(c, v), Step(d, w))
  {
    hide Xor, Mix, Shifted, Leading;
    ShiftLinear(c, d);
    MixLinear(Leading(c), Leading(d));
    Exchange(Shifted(c), Shifted(d), v, w);
    Exchange(Xor(Shifted(c), v), Xor(Shifted(d), w), Mix(Leading(c)), Mix(Leading(d)));
  }

  ghost predicate IsResidue(c: bv32) {
    c < 0x40000000
  }

  lemma StepResidue(c: bv32, v: bv32)
    requires IsResidue(c) && v < 32
    ensures IsResidue(Step(c, v))
  {
  }

  /** Without input, only the zero residue steps to zero. */
  lemma StepInjective(c: bv32)
    requires IsResidue(c) && Step(c, 0) == 0
    ensures c == 0
  {
  }

  lemma StepZero()
    ensures Step(0, 0) == 0
  {
  }

  // ---- Sequences of symbols

  function Run(c: bv32, v: seq<bv32>): bv32 {
    if v == [] then c else Step(Run(c, v[..|v| - 1]), v[|v| - 1])
  }

  lemma {:induction false} RunConcat(c: bv32, v: seq<bv32>, w: seq<bv32>)
    ensures Run(c, v + w) == Run(Run(c, v), w)
    decreases |w|
  {
    hide Step;
    if w == [] {
      assert v + w == v;
    } else {
      var n := |w| - 1;
      assert (v + w)[..|v + w| - 1] == v + w[..n];
      RunConcat(c, v, w[..n]);
    }
  }

  ghost predicate Symbols(v: seq<bv32>) {
    forall i | 0 <= i < |v| :: v[i] < 32
  }

  ghost function XorAll(v: seq<bv32>, w: seq<bv32>): seq<bv32>
    requires |v| == |w|
  {
    seq(|v|, i requires 0 <= i < |v| && |v| == |w| => Xor(v[i], w[i]))
  }

  /** The residue of a sum is the sum of the residues. */
  lemma {:induction false} RunLinear(c: bv32, d: bv32, v: seq<bv32>, w: seq<bv32>)
    requires |v| == |w|
    ensures Run(Xor(c, d), XorAll(v, w)) == Xor(Run(c, v), Run(d, w))
    decreases |v|
  {
    hide Step, Xor;
    if v != [] {
      var n := |v| - 1;
      assert XorAll(v, w)[..n] == XorAll(v[..n], w[..n]);
      RunLinear(c, d, v[..n], w[..n]);
      StepLinear(Run(c, v[..n]), Run(d, w[..n]), v[n], w[n]);
    }
  }

  lemma {:induction false} RunResidue(c: bv32, v: seq<bv32>)
    requires IsResidue(c) && Symbols(v)
    ensures IsResidue(Run(c, v))
    decreases |v|
  {
    hide Step;
    if v != [] {
      RunResidue(c, v[..|v| - 1]);
      StepResidue(Run(c, v[..|v| - 1]), v[|v| - 1]);
    }
  }

  ghost predicate AllZero(v: seq<bv32>) {
    forall i | 0 <= i < |v| :: v[i] == 0
  }

  lemma {:induction false} RunZeros(c: bv32, v: seq<bv32>)
    requires IsResidue(c) && AllZero(v)
    ensures c == 0 <==> Run(c, v) == 0
    decreases |v|
  {
    hide Step;
    if v != [] {
      var before := Run(c, v[..|v| - 1]);
      RunZeros(c, v[..|v| - 1]);
      RunResidue(c, v[..|v| - 1]);
      StepZero();
      if Step(before, 0) == 0 { StepInjective(before); }
    }
  }

  function PackSix(s0: bv32, s1: bv32, s2: bv32, s3: bv32, s4: bv32, s5: bv32): bv32 {
    (s0 << 25) | (s1 << 20) | (s2 << 15) | (s3 << 10) | (s4 << 5) | s5
  }

  function Pack(s: seq<bv32>): bv32
    requires |s| == 6
  {
    PackSix(s[0], s[1], s[2], s[3], s[4], s[5])
  }

  /** Six symbols are their own residue. */
  lemma RunSix(s: seq<bv32>)
    requires |s| == 6 && Symbols(s)
    ensures Run(0, s) == Pack(s)
  {
    hide PackSix;
    assert Run(0, s) == Step(Step(Step(Step(Step(Step(0, s[0]), s[1]), s[2]), s[3]), s[4]), s[5]) by {
      hide Step;
      assert s[..5][..4] == s[..4] && s[..4][..3] == s[..3] && s[..3][..2] == s[..2] && s[..2][..1] == s[..1]
             && s[..1][..0] == [];
      assert Run(0, s[..1]) == Step(0, s[0]);
      assert Run(0, s[..2]) == Step(Run(0, s[..1]), s[1]);
      assert Run(0, s[..3]) == Step(Run(0, s[..2]), s[2]);
      assert Run(0, s[..4]) == Step(Run(0, s[..3]), s[3]);
      assert Run(0, s[..5]) == Step(Run(0, s[..4]), s[4]);
    }
    StepsPack(s[0], s[1], s[2], s[3], s[4], s[5]);
  }

  lemma StepsPack(s0: bv32, s1: bv32, s2: bv32, s3: bv32, s4: bv32, s5: bv32)
    requires s0 < 32 && s1 < 32 && s2 < 32 && s3 < 32 && s4 < 32 && s5 < 32
    ensures Step(Step(Step(Step(Step(Step(0, s0), s1), s2), s3), s4), s5) == PackSix(s0, s1, s2, s3, s4, s5)
  {
  }

  lemma PackZero(s0: bv32, s1: bv32, s2: bv32, s3: bv32, s4: bv32, s5: bv32)
    requires s0 < 32 && s1 < 32 && s2 < 32 && s3 < 32 && s4 < 32 && s5 < 32
    requires PackSix(s0, s1, s2, s3, s4, s5) == 0
    ensures s0 == 0 && s1 == 0 && s2 == 0 && s3 == 0 && s4 == 0 && s5 == 0
  {
  }

  /** `v` and `w` are equal except within six symbols from `at`. */
  ghost predicate DifferWithin(v: seq<bv32>, w: seq<bv32>, at: nat) {
    |v| == |w| && at + 6 <= |v| && forall i | 0 <= i < |v| && !(at <= i < at + 6) :: v[i] == w[i]
  }

  /** Two different symbol sequences that differ only within six consecutive symbols never have the same
      residue, from whatever residue they start. */
  lemma BurstDetected(c: bv32, v: seq<bv32>, w: seq<bv32>, at: nat)
    requires Symbols(v) && Symbols(w) && DifferWithin(v, w, at) && v != w
    ensures Run(c, v) != Run(c, w)
  {
    var d := XorAll(v, w);
    hide Step, Run;
    BurstDifference(v, w, at);
    RunLinear(c, c, v, w);
    XorSelf(c);
    BurstNonZero(d, at);
    XorEqual(Run(c, v), Run(c, w));
  }

  lemma XorEqual(a: bv32, b: bv32)
    ensures Xor(a, b) == 0 <==> a == b
  {
  }

  lemma BurstDifference(v: seq<bv32>, w: seq<bv32>, at: nat)
    requires Symbols(v) && Symbols(w) && DifferWithin(v, w, at) && v != w
    ensures var d := XorAll(v, w);
            && |d| == |v| && Symbols(d) && AllZero(d[..at]) && AllZero(d[at + 6..])
            && exists i :: at <= i < at + 6 && d[i] != 0
  {
    hide Xor;
    var d := XorAll(v, w);
    forall i | 0 <= i < |d| ensures d[i] < 32 && (d[i] == 0 <==> v[i] == w[i]) {
      XorEqual(v[i], w[i]);
      XorSymbol(v[i], w[i]);
    }
    var i :| 0 <= i < |v| && v[i] != w[i];
  }

  lemma XorSymbol(a: bv32, b: bv32)
    requires a < 32 && b < 32
    ensures Xor(a, b) < 32
  {
  }

  lemma BurstNonZero(d: seq<bv32>, at: nat)
    requires Symbols(d) && at + 6 <= |d| && AllZero(d[..at]) && AllZero(d[at + 6..])
             && exists i :: at <= i < at + 6 && d[i] != 0
    ensures Run(0, d) != 0
  {
    hide Step, Run, Pack;
    var a, s, b := d[..at], d[at..at + 6], d[at + 6..];
    assert d == a + s + b;
    RunConcat(0, a + s, b);
    RunConcat(0, a, s);
    RunZeros(0, a);
    RunSix(s);
    var i :| at <= i < at + 6 && d[i] != 0;
    assert s[i - at] != 0;
    PackNonZero(s, i - at);
    RunResidue(0, s);
    RunZeros(Pack(s), b);
  }

  lemma PackNonZero(s: seq<bv32>, i: nat)
    requires |s| == 6 && Symbols(s) && i < 6
    ensures Pack(s) == 0 ==> s[i] == 0
  {
    if Pack(s) == 0 { PackZero(s[0], s[1], s[2], s[3], s[4], s[5]); }
  }

  // ---- Division in GF(32)[x]

  /** Multiplication by 2 in GF(32), whose elements are polynomials over GF(2) modulo x^5 + x^3 + 1. */
  function Doubled(a: bv32): bv32 {
    if a & 16 != 0 then Xor(a << 1, 41) else a << 1
  }

  function Product(a: bv32, b: bv32): bv32 {
    Xor(Xor(Xor(Xor(Term(a, 1, b), Term(a, 2, Doubled(b))), Term(a, 4, Doubled(Doubled(b)))),
      Term(a, 8, Doubled(Doubled(Doubled(b))))), Term(a, 16, Doubled(Doubled(Doubled(Doubled(b))))))
  }

  lemma MixIsMultiple(c: bv32)
    requires c < 32
    ensures Mix(c) ==
            PackSix(Product(c, 29), Product(c, 22), Product(c, 20), Product(c, 21), Product(c, 29), Product(c, 18))
  {
  }

  lemma PackShifted(c0: bv32, c1: bv32, c2: bv32, c3: bv32, c4: bv32, c5: bv32, v: bv32)
    requires c0 < 32 && c1 < 32 && c2 < 32 && c3 < 32 && c4 < 32 && c5 < 32 && v < 32
    ensures Xor(Shifted(PackSix(c0, c1, c2, c3, c4, c5)), v) == PackSix(c1, c2, c3, c4, c5, v)
    ensures Leading(PackSix(c0, c1, c2, c3, c4, c5)) == c0
  {
  }

  lemma PackXor(s0: bv32, s1: bv32, s2: bv32, s3: bv32, s4: bv32, s5: bv32,
                t0: bv32, t1: bv32, t2: bv32, t3: bv32, t4: bv32, t5: bv32)
    requires s0 < 32 && s1 < 32 && s2 < 32 && s3 < 32 && s4 < 32 && s5 < 32
    requires t0 < 32 && t1 < 32 && t2 < 32 && t3 < 32 && t4 < 32 && t5 < 32
    ensures Xor(PackSix(s0, s1, s2, s3, s4, s5), PackSix(t0, t1, t2, t3, t4, t5)) ==
            PackSix(Xor(s0, t0), Xor(s1, t1), Xor(s2, t2), Xor(s3, t3), Xor(s4, t4), Xor(s5, t5))
  {
    hide Xor, PackSix, Append;
    XorSymbol(s0, t0);
    XorSymbol(s1, t1);
    XorSymbol(s2, t2);
    XorSymbol(s3, t3);
    XorSymbol(s4, t4);
    XorSymbol(s5, t5);
    PackAppends(s0, s1, s2, s3, s4, s5);
    PackAppends(t0, t1, t2, t3, t4, t5);
    PackAppends(Xor(s0, t0), Xor(s1, t1), Xor(s2, t2), Xor(s3, t3), Xor(s4, t4), Xor(s5, t5));
    AppendLinear(s0, t0, s1, t1);
    var (a, b) := (Append(s0, s1), Append(t0, t1));
    AppendLinear(a, b, s2, t2);
    var (a', b') := (Append(a, s2), Append(b, t2));
    AppendLinear(a', b', s3, t3);
    AppendLinear(Append(a', s3), Append(b', t3), s4, t4);
    AppendLinear(Append(Append(a', s3), s4), Append(Append(b', t3), t4), s5, t5);
  }

  function Append(c: bv32, v: bv32): bv32 {
    Xor(Shifted(c), v)
  }

  lemma AppendLinear(c: bv32, d: bv32, v: bv32, w: bv32)
    ensures Append(Xor(c, d), Xor(v, w)) == Xor(Append(c, v), Append(d, w))
  {
    hide Xor, Shifted, Leading;
    ShiftLinear(c, d);
    Exchange(Shifted(c), Shifted(d), v, w);
  }

  lemma PackAppends(s0: bv32, s1: bv32, s2: bv32, s3: bv32, s4: bv32, s5: bv32)
    requires s0 < 32 && s1 < 32 && s2 < 32 && s3 < 32 && s4 < 32 && s5 < 32
    ensures PackSix(s0, s1, s2, s3, s4, s5) == Append(Append(Append(Append(Append(s0, s1), s2), s3), s4), s5)
  {
  }

  lemma ProductSymbol(a: bv32, b: bv32)
    requires a < 32 && b < 32
    ensures Product(a, b) < 32
  {
  }

  /** One step of `PolyMod` is one step of the division by
      x^6 + {29}x^5 + {22}x^4 + {20}x^3 + {21}x^2 + {29}x + {18} over GF(32). */
  lemma StepIsDivision(c0: bv32, c1: bv32, c2: bv32, c3: bv32, c4: bv32, c5: bv32, v: bv32)
    requires c0 < 32 && c1 < 32 && c2 < 32 && c3 < 32 && c4 < 32 && c5 < 32 && v < 32
    ensures Step(PackSix(c0, c1, c2, c3, c4, c5), v) ==
            PackSix(Xor(c1, Product(c0, 29)), Xor(c2, Product(c0, 22)), Xor(c3, Product(c0, 20)),
                    Xor(c4, Product(c0, 21)), Xor(c5, Product(c0, 29)), Xor(v, Product(c0, 18)))
  {
    hide PackSix, Xor, Product, Mix, Shifted, Leading;
    PackShifted(c0, c1, c2, c3, c4, c5, v);
    MixIsMultiple(c0);
    ProductSymbol(c0, 29);
    ProductSymbol(c0, 22);
    ProductSymbol(c0, 20);
    ProductSymbol(c0, 21);
    ProductSymbol(c0, 18);
    PackXor(c1, c2, c3, c4, c5, v,
            Product(c0, 29), Product(c0, 22), Product(c0, 20), Product(c0, 21), Product(c0, 29), Product(c0, 18));
  }

  // ---- Checksums

  /** The symbols packed in `c`. */
  function Unpack(c: bv32): (s: seq<bv32>)
    ensures |s| == 6
  {
    [(c >> 25) & 31, (c >> 20) & 31, (c >> 15) & 31, (c >> 10) & 31, (c >> 5) & 31, c & 31]
  }

  lemma UnpackSymbols(c: bv32)
    ensures Symbols(Unpack(c))
  {
    UnpackBounds(c);
  }

  lemma UnpackBounds(c: bv32)
    ensures (c >> 25) & 31 < 32 && (c >> 20) & 31 < 32 && (c >> 15) & 31 < 32 && (c >> 10) & 31 < 32
            && (c >> 5) & 31 < 32 && c & 31 < 32
  {
  }

  lemma UnpackSix(s0: bv32, s1: bv32, s2: bv32, s3: bv32, s4: bv32, s5: bv32)
    requires s0 < 32 && s1 < 32 && s2 < 32 && s3 < 32 && s4 < 32 && s5 < 32
    ensures Unpack(PackSix(s0, s1, s2, s3, s4, s5)) == [s0, s1, s2, s3, s4, s5]
  {
    var c := PackSix(s0, s1, s2, s3, s4, s5);
    UnpackParts(s0, s1, s2, s3, s4, s5);
  }

  lemma UnpackParts(s0: bv32, s1: bv32, s2: bv32, s3: bv32, s4: bv32, s5: bv32)
    requires s0 < 32 && s1 < 32 && s2 < 32 && s3 < 32 && s4 < 32 && s5 < 32
    ensures var c := PackSix(s0, s1, s2, s3, s4, s5);
            (c >> 25) & 31 == s0 && (c >> 20) & 31 == s1 && (c >> 15) & 31 == s2 && (c >> 10) & 31 == s3
            && (c >> 5) & 31 == s4 && c & 31 == s5
  {
  }

  lemma PackUnpack(c: bv32)
    requires IsResidue(c)
    ensures PackSix((c >> 25) & 31, (c >> 20) & 31, (c >> 15) & 31, (c >> 10) & 31, (c >> 5) & 31, c & 31) == c
  {
  }

  /** `Pack` and `Unpack` are inverses. */
  lemma PackIff(s: seq<bv32>, c: bv32)
    requires |s| == 6 && Symbols(s) && IsResidue(c)
    ensures Pack(s) == c <==> s == Unpack(c)
  {
    hide PackSix;
    PackUnpack(c);
    if Pack(s) == c {
      UnpackSix(s[0], s[1], s[2], s[3], s[4], s[5]);
      assert s == [s[0], s[1], s[2], s[3], s[4], s[5]];
    }
  }

  const ZEROS: seq<bv32> := [0, 0, 0, 0, 0, 0]

  /** The six symbols that complete `p` to the residue `k`. */
  function Checksum(p: seq<bv32>, k: bv32): seq<bv32> {
    Unpack(Xor(Run(1, p + ZEROS), k))
  }

  lemma XorZeros(p: seq<bv32>, c: seq<bv32>)
    requires |c| == 6
    ensures XorAll(p + ZEROS, seq(|p|, _ => 0) + c) == p + c
  {
    hide Xor;
    var q: seq<bv32> := seq(|p|, _ => 0);
    var r := XorAll(p + ZEROS, q + c);
    forall i | 0 <= i < |p| + 6 ensures r[i] == (p + c)[i] {
      if i < |p| { XorSelf(p[i]); } else { XorSelf(c[i - |p|]); }
    }
  }

  lemma AppendSix(p: seq<bv32>, c: seq<bv32>)
    requires |c| == 6 && Symbols(c)
    ensures Run(1, p + c) == Xor(Run(1, p + ZEROS), Pack(c))
  {
    hide Step, Run, Pack, XorAll;
    var q: seq<bv32> := seq(|p|, _ => 0);
    XorZeros(p, c);
    RunLinear(1, 0, p + ZEROS, q + c);
    XorSelf(1);
    RunConcat(0, q, c);
    RunZeros(0, q);
    RunSix(c);
  }

  lemma XorMove(a: bv32, b: bv32, k: bv32)
    ensures Xor(a, b) == k <==> b == Xor(a, k)
  {
    XorAssociative(a, a, b);
    XorAssociative(a, a, k);
    XorSelf(a);
    XorSelf(b);
    XorSelf(k);
    hide Xor;
  }

  lemma XorResidue(a: bv32, b: bv32)
    requires IsResidue(a) && IsResidue(b)
    ensures IsResidue(Xor(a, b))
  {
  }

  /** Exactly one choice of the last six symbols gives the residue `k`. */
  lemma ChecksumUnique(p: seq<bv32>, c: seq<bv32>, k: bv32)
    requires Symbols(p) && |c| == 6 && Symbols(c) && IsResidue(k)
    ensures Run(1, p + c) == k <==> c == Checksum(p, k)
  {
    hide Step, Run, Pack, Unpack, Xor;
    var r := Run(1, p + ZEROS);
    AppendSix(p, c);
    XorMove(r, Pack(c), k);
    RunResidue(1, p + ZEROS);
    XorResidue(r, k);
    PackIff(c, Xor(r, k));
  }
}
