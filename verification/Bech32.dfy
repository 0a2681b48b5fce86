/** Bech32 and Bech32m strings: encoding, decoding, and which errors the checksum excludes. */
module Bech32 {
  import opened Bech32Chars
  import opened Bech32Code
  import opened Options

  datatype Encoding = BECH32 | BECH32M

  datatype DecodeResult = Invalid | Decoded(encoding: Encoding, hrp: string, values: seq<bv32>)

  const CHECKSUM_SIZE := 6
  const SEPARATOR := '1'

  function EncodingConstant(e: Encoding): bv32 {
    if e.BECH32? then 1 else 0x2bc830a3
  }

  // ---- What a string means

  ghost predicate Ascii(s: string) {
    forall i | 0 <= i < |s| :: s[i] as nat < 128
  }

  ghost predicate Bytes(s: string) {
    forall i | 0 <= i < |s| :: s[i] as nat < 256
  }

  /** The character, which is signed, shifted right by five and stored as a byte. */
  function HighBits(c: char): bv32
    requires c as nat < 256
  {
    if c as nat < 128 then (c as nat / 32) as bv32 else (248 + c as nat / 32) as bv32
  }

  function LowBits(c: char): bv32
    requires c as nat < 256
  {
    (c as nat % 32) as bv32
  }

  lemma BitsAreSymbols(c: char)
    requires c as nat < 128
    ensures HighBits(c) < 32 && LowBits(c) < 32
  {
  }

  ghost function HighAll(hrp: string): seq<bv32>
    requires Bytes(hrp)
  {
    seq(|hrp|, i requires 0 <= i < |hrp| => HighBits(hrp[i]))
  }

  ghost function LowAll(hrp: string): seq<bv32>
    requires Bytes(hrp)
  {
    seq(|hrp|, i requires 0 <= i < |hrp| => LowBits(hrp[i]))
  }

  /** The symbols that the checksum covers. */
  ghost function Prepared(hrp: string, values: seq<bv32>): seq<bv32>
    requires Bytes(hrp)
  {
    HighAll(hrp) + [0] + LowAll(hrp) + values
  }

  lemma PreparedSymbols(hrp: string, values: seq<bv32>)
    requires Ascii(hrp) && Symbols(values)
    ensures Symbols(Prepared(hrp, values))
  {
    hide HighBits, LowBits;
    forall i | 0 <= i < |hrp| ensures HighAll(hrp)[i] < 32 && LowAll(hrp)[i] < 32 {
      BitsAreSymbols(hrp[i]);
    }
  }

  function CharOf(v: bv32): char
    requires v < 32
  {
    IndexBound(v);
    CHARSET[v as nat]
  }

  lemma IndexBound(v: bv32)
    requires v < 32
    ensures v as nat < 32 && |CHARSET| == 32
  {
  }

  ghost function Text(values: seq<bv32>): string
    requires Symbols(values)
  {
    seq(|values|, i requires 0 <= i < |values| => CharOf(values[i]))
  }

  ghost function ChecksumOf(e: Encoding, hrp: string, values: seq<bv32>): (c: seq<bv32>)
    requires Bytes(hrp)
    ensures |c| == 6 && Symbols(c)
  {
    var k := Xor(Run(1, Prepared(hrp, values) + ZEROS), EncodingConstant(e));
    UnpackSymbols(k);
    Checksum(Prepared(hrp, values), EncodingConstant(e))
  }

  /** The string for a payload. */
  ghost function Encoded(e: Encoding, hrp: string, values: seq<bv32>): string
    requires Bytes(hrp) && Symbols(values)
  {
    hrp + [SEPARATOR] + Text(values + ChecksumOf(e, hrp, values))
  }

  predicate IsLower(c: char) {
    'a' <= c <= 'z'
  }

  predicate IsUpper(c: char) {
    'A' <= c <= 'Z'
  }

  predicate IsPrintable(c: char) {
    33 <= c as nat <= 126
  }

  /** `s` is printable, without both upper and lower case letters. */
  ghost predicate WellSpelled(s: string) {
    && (forall i | 0 <= i < |s| :: IsPrintable(s[i]))
    && (forall i, j | 0 <= i < |s| && 0 <= j < |s| :: !(IsLower(s[i]) && IsUpper(s[j])))
  }

  ghost function Lowered(s: string): string {
    seq(|s|, i requires 0 <= i < |s| => LowerCase(s[i]))
  }

  /** `s` is an encoding of the payload, up to writing all of it in upper case. */
  ghost predicate Means(s: string, limit: nat, e: Encoding, hrp: string, values: seq<bv32>) {
    && WellSpelled(s) && |s| <= limit
    && hrp != [] && Ascii(hrp) && Symbols(values)
    && Lowered(s) == Encoded(e, hrp, values)
  }

  // ---- Checksums

  /** The residue of the symbols, as the code computes it. */
  method PolyMod(v: seq<bv32>) returns (c: bv32)
    ensures c == Run(1, v)
  {
    hide Shifted, Leading;
    c := 1;
    for i := 0 to |v|
      invariant c == Run(1, v[..i])
    {
      c := PolyStep(c, v[i]);
      assert v[..i + 1][..i] == v[..i];
    }
    assert v[..|v|] == v;
  }

  function XorIf(c: bv32, c0: bv32, mask: bv32, k: bv32): bv32 {
    if c0 & mask != 0 then c ^ k else c
  }

  lemma XorIfTerm(c: bv32, c0: bv32, mask: bv32, k: bv32)
    ensures XorIf(c, c0, mask, k) == Xor(c, Term(c0, mask, k))
  {
    XorSelf(c);
  }

  lemma FirstPart(c: bv32, v: bv32)
    ensures ((c & 0x1ffffff) << 5) ^ v == Xor(Shifted(c), v) && c >> 25 == Leading(c)
  {
  }

  method PolyStep(before: bv32, v: bv32) returns (c: bv32)
    ensures c == Step(before, v)
  {
    hide Xor, Term, XorIf, Step, Shifted, Leading;
    var c0 := before >> 25;
    c := ((before & 0x1ffffff) << 5) ^ v;
    FirstPart(before, v);
    XorIfTerm(c, c0, 1, 0x3b6a57b2);
    c := XorIf(c, c0, 1, 0x3b6a57b2);
    XorIfTerm(c, c0, 2, 0x26508e6d);
    c := XorIf(c, c0, 2, 0x26508e6d);
    XorIfTerm(c, c0, 4, 0x1ea119fa);
    c := XorIf(c, c0, 4, 0x1ea119fa);
    XorIfTerm(c, c0, 8, 0x3d4233dd);
    c := XorIf(c, c0, 8, 0x3d4233dd);
    XorIfTerm(c, c0, 16, 0x2a1462b3);
    c := XorIf(c, c0, 16, 0x2a1462b3);
    StepInOrder(before, v);
  }

  lemma StepInOrder(c: bv32, v: bv32)
    ensures var b := Leading(c);
            Step(c, v) ==
            Xor(Xor(Xor(Xor(Xor(Xor(Shifted(c), v), Term(b, 1, 0x3b6a57b2)), Term(b, 2, 0x26508e6d)),
                        Term(b, 4, 0x1ea119fa)),
                    Term(b, 8, 0x3d4233dd)), Term(b, 16, 0x2a1462b3))
  {
    hide Xor, Shifted, Leading, Term;
    var b, d := Leading(c), Xor(Shifted(c), v);
    var t1, t2, t3, t4, t5 :=
      Term(b, 1, 0x3b6a57b2), Term(b, 2, 0x26508e6d), Term(b, 4, 0x1ea119fa), Term(b, 8, 0x3d4233dd),
      Term(b, 16, 0x2a1462b3);
    XorAssociative(d, t1, t2);
    XorAssociative(d, Xor(t1, t2), t3);
    XorAssociative(d, Xor(Xor(t1, t2), t3), t4);
    XorAssociative(d, Xor(Xor(Xor(t1, t2), t3), t4), t5);
  }

  method PreparePolynomialCoefficients(hrp: string, values: seq<bv32>) returns (r: seq<bv32>)
    requires Bytes(hrp)
    ensures r == Prepared(hrp, values)
  {
    hide HighBits, LowBits;
    r := [];
    for i := 0 to |hrp|
      invariant r == HighAll(hrp)[..i]
    {
      r := r + [HighBits(hrp[i])];
    }
    r := r + [0];
    for i := 0 to |hrp|
      invariant r == HighAll(hrp) + [0] + LowAll(hrp)[..i]
    {
      r := r + [LowBits(hrp[i])];
    }
    r := r + values;
  }

  lemma ConstantsDiffer()
    ensures EncodingConstant(BECH32) != EncodingConstant(BECH32M)
    ensures IsResidue(EncodingConstant(BECH32)) && IsResidue(EncodingConstant(BECH32M))
  {
  }

  method VerifyChecksum(hrp: string, values: seq<bv32>) returns (r: Option<Encoding>)
    requires Bytes(hrp)
    ensures forall e :: r == Some(e) <==> Run(1, Prepared(hrp, values)) == EncodingConstant(e)
  {
    hide Prepared, Run;
    var prepared := PreparePolynomialCoefficients(hrp, values);
    var check := PolyMod(prepared);
    ConstantsDiffer();
    if check == EncodingConstant(BECH32) { return Some(BECH32); }
    if check == EncodingConstant(BECH32M) { return Some(BECH32M); }
    return None;
  }

  method CreateChecksum(e: Encoding, hrp: string, values: seq<bv32>) returns (r: seq<bv32>)
    requires Bytes(hrp)
    ensures r == ChecksumOf(e, hrp, values)
  {
    hide Prepared, Run;
    var prepared := PreparePolynomialCoefficients(hrp, values);
    var residue := PolyMod(prepared + ZEROS);
    var mod := residue ^ EncodingConstant(e);
    // The loop over the six groups of five bits, unrolled.
    r := [(mod >> 25) & 31, (mod >> 20) & 31, (mod >> 15) & 31, (mod >> 10) & 31, (mod >> 5) & 31, mod & 31];
  }

  // ---- Encoding

  method Encode(e: Encoding, hrp: string, values: seq<bv32>) returns (r: string)
    requires Bytes(hrp) && Symbols(values) && forall i | 0 <= i < |hrp| :: !IsUpper(hrp[i])
    ensures r == Encoded(e, hrp, values)
  {
    hide ChecksumOf, CharOf;
    r := hrp + [SEPARATOR];
    var checksum := CreateChecksum(e, hrp, values);
    var all := values + checksum;
    for i := 0 to |values|
      invariant r == hrp + [SEPARATOR] + Text(all)[..i]
    {
      r := r + [CharOf(values[i])];
    }
    for i := 0 to |checksum|
      invariant r == hrp + [SEPARATOR] + Text(all)[..|values| + i]
    {
      r := r + [CharOf(checksum[i])];
    }
  }

  // ---- Decoding

  predicate IsLetter(c: char) {
    IsLower(c) || IsUpper(c)
  }

  ghost predicate IsFirstLetter(s: string, f: nat) {
    f < |s| && IsLetter(s[f]) && forall i | 0 <= i < f :: !IsLetter(s[i])
  }

  ghost predicate OtherCase(c: char, d: char) {
    (IsLower(c) && IsUpper(d)) || (IsUpper(c) && IsLower(d))
  }

  /** `s[i]` is unprintable, or a letter in another case than the first letter. */
  ghost predicate Misspelled(s: string, i: nat) {
    i < |s| && (!IsPrintable(s[i]) || exists f: nat :: IsFirstLetter(s, f) && OtherCase(s[i], s[f]))
  }

  ghost predicate FoundCase(s: string, i: nat, lower: bool, upper: bool, f: nat)
    requires i <= |s|
  {
    if lower || upper then f < i && IsFirstLetter(s, f) && (lower <==> IsLower(s[f])) && (upper <==> IsUpper(s[f]))
    else forall k | 0 <= k < i :: !IsLetter(s[k])
  }

  lemma MisspelledAt(s: string, i: nat, lower: bool, upper: bool, f: nat)
    requires i < |s| && FoundCase(s, i, lower, upper, f)
    ensures Misspelled(s, i) <==> !IsPrintable(s[i]) || (lower && IsUpper(s[i])) || (upper && IsLower(s[i]))
  {
    if lower || upper {
      assert forall g: nat | IsFirstLetter(s, g) :: g == f;
    } else if IsLetter(s[i]) {
      assert forall g: nat | IsFirstLetter(s, g) :: g == i;
    }
  }

  lemma WellSpelledIff(s: string, lower: bool, upper: bool, f: nat)
    requires FoundCase(s, |s|, lower, upper, f)
    ensures WellSpelled(s) <==> forall i: nat :: !Misspelled(s, i)
  {
    if WellSpelled(s) {
      forall i: nat ensures !Misspelled(s, i) {}
    }
    if forall i: nat :: !Misspelled(s, i) {
      forall i: nat | i < |s| ensures IsPrintable(s[i]) && (IsLower(s[i]) ==> !upper) && (IsUpper(s[i]) ==> !lower) {
        assert !Misspelled(s, i);
        if lower || upper { assert !OtherCase(s[i], s[f]); }
      }
    }
  }

  method CheckCharacters(s: string) returns (errors: seq<nat>)
    ensures forall i: nat :: i in errors <==> Misspelled(s, i)
    ensures errors == [] <==> WellSpelled(s)
  {
    hide Misspelled, WellSpelled;
    errors := [];
    var lower, upper := false, false;
    ghost var f := 0;
    for i := 0 to |s|
      invariant FoundCase(s, i, lower, upper, f)
      invariant forall k: nat :: k in errors <==> k < i && Misspelled(s, k)
    {
      var c := s[i];
      MisspelledAt(s, i, lower, upper, f);
      ghost var before := errors;
      if IsLower(c) {
        if upper { errors := errors + [i]; } else { f := if lower then f else i; lower := true; }
      } else if IsUpper(c) {
        if lower { errors := errors + [i]; } else { f := if upper then f else i; upper := true; }
      } else if c as nat < 33 || c as nat > 126 {
        errors := errors + [i];
      }
    }
    WellSpelledIff(s, lower, upper, f);
    assert forall i: nat :: Misspelled(s, i) ==> i < |s| by { MisspelledBound(s); }
    if errors != [] { assert errors[0] in errors; }
  }

  lemma MisspelledBound(s: string)
    ensures forall i: nat :: Misspelled(s, i) ==> i < |s|
  {
  }

  lemma NatBv(r: nat)
    requires r < 32
    ensures r as bv32 < 32 && (r as bv32) as nat == r
  {
  }

  lemma BvNat(v: bv32)
    requires v < 32
    ensures (v as nat) as bv32 == v
  {
  }

  function ValueOf(c: char): Option<bv32>
    requires c as nat < 128
  {
    RevRoundTrip(c);
    var rev := CharsetRev(c as nat);
    if rev == -1 then None else Some(rev as bv32)
  }

  lemma ValueOfSound(c: char)
    requires c as nat < 128 && ValueOf(c).Some?
    ensures ValueOf(c).value < 32 && CharOf(ValueOf(c).value) == LowerCase(c)
  {
    hide CharsetRev, LowerCase;
    RevRoundTrip(c);
    NatBv(CharsetRev(c as nat));
  }

  lemma ValueOfComplete(c: char, v: bv32)
    requires c as nat < 128 && v < 32 && CharOf(v) == LowerCase(c)
    ensures ValueOf(c) == Some(v)
  {
    hide CharsetRev, LowerCase;
    RevIgnoresCase(c);
    IndexBound(v);
    CharsetRoundTrip(v as nat);
    BvNat(v);
  }

  lemma CharOfInjective(v: bv32, w: bv32)
    requires v < 32 && w < 32 && CharOf(v) == CharOf(w)
    ensures v == w
  {
    hide CharsetRev;
    IndexBound(v);
    IndexBound(w);
    CharsetRoundTrip(v as nat);
    CharsetRoundTrip(w as nat);
    BvNat(v);
    BvNat(w);
  }

  lemma TextInjective(v: seq<bv32>, w: seq<bv32>)
    requires Symbols(v) && Symbols(w) && Text(v) == Text(w)
    ensures v == w
  {
    hide CharOf;
    assert |v| == |Text(v)| == |Text(w)| == |w|;
    forall i | 0 <= i < |v| ensures v[i] == w[i] {
      assert Text(v)[i] == CharOf(v[i]) && Text(w)[i] == CharOf(w[i]);
      CharOfInjective(v[i], w[i]);
    }
  }

  /** The symbols that `s` spells, in either case. */
  method ReadValues(s: string) returns (r: Option<seq<bv32>>)
    requires Ascii(s)
    ensures r.Some? ==> Symbols(r.value) && Text(r.value) == Lowered(s)
    ensures r.None? ==> forall v :: Symbols(v) ==> Text(v) != Lowered(s)
  {
    hide CharOf, ValueOf, LowerCase;
    var values := [];
    for i := 0 to |s|
      invariant |values| == i && Symbols(values)
      invariant forall k | 0 <= k < i :: CharOf(values[k]) == LowerCase(s[k])
    {
      var value := ValueOf(s[i]);
      if value.None? {
        forall v | Symbols(v) ensures Text(v) != Lowered(s) {
          NotText(s, i, v);
        }
        return None;
      }
      ValueOfSound(s[i]);
      values := values + [value.value];
    }
    assert Text(values) == Lowered(s);
    r := Some(values);
  }

  lemma NotText(s: string, i: nat, v: seq<bv32>)
    requires i < |s| && Ascii(s) && ValueOf(s[i]).None? && Symbols(v)
    ensures Text(v) != Lowered(s)
  {
    hide CharOf, ValueOf, LowerCase;
    if |v| == |s| {
      assert Text(v)[i] == CharOf(v[i]) && Lowered(s)[i] == LowerCase(s[i]);
      if CharOf(v[i]) == LowerCase(s[i]) { ValueOfComplete(s[i], v[i]); }
    } else {
      assert |Text(v)| == |v| && |Lowered(s)| == |s|;
    }
  }

  method FindSeparator(s: string) returns (r: Option<nat>)
    ensures r.Some? ==> IsLast(s, r.value)
    ensures r.None? ==> SEPARATOR !in s
  {
    var i := |s|;
    while i > 0
      invariant 0 <= i <= |s|
      invariant forall k | i <= k < |s| :: s[k] != SEPARATOR
    {
      i := i - 1;
      if s[i] == SEPARATOR { return Some(i); }
    }
    r := None;
  }

  /** `s[pos]` is the last separator. */
  ghost predicate IsLast(s: string, pos: nat) {
    pos < |s| && s[pos] == SEPARATOR && forall k | pos < k < |s| :: s[k] != SEPARATOR
  }

  lemma TextNoSeparator(v: seq<bv32>)
    requires Symbols(v)
    ensures SEPARATOR !in Text(v)
  {
    hide CharOf;
    forall i | 0 <= i < |v| ensures Text(v)[i] != SEPARATOR {
      CharOfNoSeparator(v[i]);
    }
  }

  lemma CharOfNoSeparator(v: bv32)
    requires v < 32
    ensures CharOf(v) != SEPARATOR
  {
    IndexBound(v);
    CharsetIsCode(v as nat);
  }

  lemma LoweredSeparator(c: char)
    ensures LowerCase(c) == SEPARATOR <==> c == SEPARATOR
  {
  }

  /** The parts of a string that means something are where decoding looks for them. */
  lemma MeansShape(s: string, limit: nat, e: Encoding, hrp: string, values: seq<bv32>)
    requires Means(s, limit, e, hrp, values)
    ensures 0 < |hrp| && |hrp| + CHECKSUM_SIZE < |s| && IsLast(s, |hrp|)
    ensures Lowered(s[..|hrp|]) == hrp && Lowered(s[|hrp| + 1..]) == Text(values + ChecksumOf(e, hrp, values))
  {
    hide LowerCase, ChecksumOf, WellSpelled, CharOf;
    var pos, t := |hrp|, Text(values + ChecksumOf(e, hrp, values));
    var l := Lowered(s);
    TextNoSeparator(values + ChecksumOf(e, hrp, values));
    assert |l| == |s| == pos + 1 + |t|;
    forall k | 0 <= k < |s| ensures l[k] == LowerCase(s[k]) && (l[k] == SEPARATOR <==> s[k] == SEPARATOR) {
      LoweredSeparator(s[k]);
    }
    assert forall k | pos < k < |s| :: l[k] == t[k - pos - 1];
    assert l[pos] == SEPARATOR;
    assert Lowered(s[..pos]) == l[..pos];
    assert Lowered(s[pos + 1..]) == l[pos + 1..] == t;
  }

  ghost predicate HasParts(s: string, limit: nat, pos: nat, hrp: string, all: seq<bv32>) {
    && WellSpelled(s) && |s| <= limit && IsLast(s, pos) && 0 < pos && |all| >= CHECKSUM_SIZE
    && Ascii(hrp) && Symbols(all)
    && Lowered(s[..pos]) == hrp && Lowered(s[pos + 1..]) == Text(all)
  }

  lemma PartsUnique(s: string, limit: nat, pos: nat, hrp: string, all: seq<bv32>, e: Encoding, h: string, v: seq<bv32>)
    requires HasParts(s, limit, pos, hrp, all)
    ensures Means(s, limit, e, h, v) ==>
              h == hrp && v == all[..|all| - 6] && Run(1, Prepared(hrp, all)) == EncodingConstant(e)
  {
    hide LowerCase, WellSpelled, CharOf, Run, ChecksumOf, Text, Lowered, Prepared, Encoded;
    if Means(s, limit, e, h, v) {
      MeansShape(s, limit, e, h, v);
      assert pos == |h|;
      var c := ChecksumOf(e, h, v);
      TextInjective(all, v + c);
      assert v == (v + c)[..|all| - 6];
      PreparedSymbols(h, v);
      PreparedAppend(h, v, c);
      ConstantsDiffer();
      ChecksumOfIs(e, h, v);
      ChecksumUnique(Prepared(h, v), c, EncodingConstant(e));
    }
  }

  lemma PreparedAppend(hrp: string, v: seq<bv32>, c: seq<bv32>)
    requires Ascii(hrp)
    ensures Prepared(hrp, v + c) == Prepared(hrp, v) + c
  {
  }

  lemma ChecksumOfIs(e: Encoding, hrp: string, v: seq<bv32>)
    requires Ascii(hrp)
    ensures ChecksumOf(e, hrp, v) == Checksum(Prepared(hrp, v), EncodingConstant(e))
  {
  }

  lemma PartsMean(s: string, limit: nat, pos: nat, hrp: string, all: seq<bv32>, e: Encoding)
    requires HasParts(s, limit, pos, hrp, all) && Run(1, Prepared(hrp, all)) == EncodingConstant(e)
    ensures Means(s, limit, e, hrp, all[..|all| - 6])
  {
    hide LowerCase, WellSpelled, CharOf, Run, ChecksumOf, Text, Prepared;
    var v, c := all[..|all| - 6], all[|all| - 6..];
    assert all == v + c;
    PreparedSymbols(hrp, v);
    PreparedAppend(hrp, v, c);
    ConstantsDiffer();
    ChecksumOfIs(e, hrp, v);
    ChecksumUnique(Prepared(hrp, v), c, EncodingConstant(e));
    LoweredSeparator(s[pos]);
    assert Lowered(s) == Lowered(s[..pos]) + [LowerCase(s[pos])] + Lowered(s[pos + 1..]);
    assert Lowered(s) == Encoded(e, hrp, v);
  }

  ghost predicate Meaningless(s: string, limit: nat) {
    forall e, h, v :: !Means(s, limit, e, h, v)
  }

  lemma BadSpelling(s: string, limit: nat)
    requires !WellSpelled(s) || |s| > limit
    ensures Meaningless(s, limit)
  {
  }

  lemma BadSeparator(s: string, limit: nat)
    requires forall pos: nat | IsLast(s, pos) :: pos == 0 || pos + CHECKSUM_SIZE >= |s|
    ensures Meaningless(s, limit)
  {
    hide Means;
    forall e, h, v ensures !Means(s, limit, e, h, v) {
      if Means(s, limit, e, h, v) { MeansShape(s, limit, e, h, v); }
    }
  }

  lemma BadCharacter(s: string, limit: nat, pos: nat)
    requires IsLast(s, pos) && forall v :: Symbols(v) ==> Text(v) != Lowered(s[pos + 1..])
    ensures Meaningless(s, limit)
  {
    hide Text, Lowered, Encoded, WellSpelled, ChecksumOf;
    forall e, h, v ensures !Means(s, limit, e, h, v) {
      if Means(s, limit, e, h, v) {
        MeansShape(s, limit, e, h, v);
      }
    }
  }

  lemma BadChecksum(s: string, limit: nat, pos: nat, hrp: string, all: seq<bv32>)
    requires HasParts(s, limit, pos, hrp, all) && forall e :: Run(1, Prepared(hrp, all)) != EncodingConstant(e)
    ensures Meaningless(s, limit)
  {
    hide HasParts, Means, Run, Prepared;
    forall e, h, v ensures !Means(s, limit, e, h, v) {
      PartsUnique(s, limit, pos, hrp, all, e, h, v);
    }
  }

  lemma GoodChecksum(s: string, limit: nat, pos: nat, hrp: string, all: seq<bv32>, e: Encoding)
    requires HasParts(s, limit, pos, hrp, all) && Run(1, Prepared(hrp, all)) == EncodingConstant(e)
    ensures forall e', h, v :: Means(s, limit, e', h, v) <==> e' == e && h == hrp && v == all[..|all| - 6]
  {
    hide Means, Run, Prepared, WellSpelled, Text, Lowered;
    PartsMean(s, limit, pos, hrp, all, e);
    ConstantsDiffer();
    forall e', h, v ensures Means(s, limit, e', h, v) ==> e' == e && h == hrp && v == all[..|all| - 6] {
      PartsUnique(s, limit, pos, hrp, all, e', h, v);
    }
  }

  lemma WellSpelledAscii(s: string)
    requires WellSpelled(s)
    ensures Ascii(s) && Ascii(Lowered(s))
  {
  }

  /** Decoding inverts encoding: it returns the one payload that the string means, and is invalid if there is none. */
  method Decode(s: string, limit: nat) returns (r: DecodeResult)
    ensures forall e, h, v :: r == Decoded(e, h, v) <==> Means(s, limit, e, h, v)
  {
    hide LowerCase, WellSpelled, Run, Means, Text, CharOf, Prepared, EncodingConstant;
    var errors := CheckCharacters(s);
    if errors != [] {
      BadSpelling(s, limit);
      return Invalid;
    }
    var at := FindSeparator(s);
    if |s| > limit {
      BadSpelling(s, limit);
      return Invalid;
    }
    if at.None? || at.value == 0 || at.value + CHECKSUM_SIZE >= |s| {
      assert at.None? ==> forall pos: nat :: !IsLast(s, pos);
      BadSeparator(s, limit);
      return Invalid;
    }
    var pos := at.value;
    WellSpelledAscii(s);
    var read := ReadValues(s[pos + 1..]);
    if read.None? {
      BadCharacter(s, limit, pos);
      return Invalid;
    }
    var all := read.value;
    assert |all| == |Text(all)| == |Lowered(s[pos + 1..])| == |s| - pos - 1 by { TextLength(all); }
    var hrp := "";
    for i := 0 to pos
      invariant hrp == Lowered(s[..i])
    {
      hrp := hrp + [LowerCase(s[i])];
    }
    assert hrp == Lowered(s)[..pos];
    var found := VerifyChecksum(hrp, all);
    if found.None? {
      BadChecksum(s, limit, pos, hrp, all);
      return Invalid;
    }
    GoodChecksum(s, limit, pos, hrp, all, found.value);
    r := Decoded(found.value, hrp, all[..|all| - CHECKSUM_SIZE]);
  }

  lemma TextLength(v: seq<bv32>)
    requires Symbols(v)
    ensures |Text(v)| == |v|
  {
  }

  // ---- What the format promises

  /** What is encoded is decoded again. */
  method RoundTrip(e: Encoding, hrp: string, values: seq<bv32>, limit: nat) returns (s: string, r: DecodeResult)
    requires hrp != [] && Symbols(values) && |hrp| + 1 + |values| + CHECKSUM_SIZE <= limit
    requires forall i | 0 <= i < |hrp| :: IsPrintable(hrp[i]) && !IsUpper(hrp[i])
    ensures r == Decoded(e, hrp, values)
  {
    hide Encoded;
    s := Encode(e, hrp, values);
    r := Decode(s, limit);
    EncodedMeans(e, hrp, values, limit);
  }

  lemma EncodedMeans(e: Encoding, hrp: string, values: seq<bv32>, limit: nat)
    requires hrp != [] && Symbols(values) && |hrp| + 1 + |values| + CHECKSUM_SIZE <= limit
    requires forall i | 0 <= i < |hrp| :: IsPrintable(hrp[i]) && !IsUpper(hrp[i])
    ensures Ascii(hrp) && Means(Encoded(e, hrp, values), limit, e, hrp, values)
  {
    hide ChecksumOf, CharOf;
    var all := values + ChecksumOf(e, hrp, values);
    var s := Encoded(e, hrp, values);
    forall i | 0 <= i < |s| ensures IsPrintable(s[i]) && !IsUpper(s[i]) {
      if i > |hrp| {
        assert s[i] == CharOf(all[i - |hrp| - 1]);
        CharOfPlain(all[i - |hrp| - 1]);
      }
    }
    assert Lowered(s) == s;
  }

  lemma CharOfPlain(v: bv32)
    requires v < 32
    ensures IsPrintable(CharOf(v)) && !IsUpper(CharOf(v))
  {
    IndexBound(v);
    CharsetIsCode(v as nat);
  }

  /** Two strings with the same text up to the separator that mean something in the same encoding are not different
      only within six consecutive characters. */
  lemma BurstNeverPasses(s: string, t: string, limit: nat, e: Encoding, hrp: string, v: seq<bv32>, w: seq<bv32>,
                         at: nat)
    requires Means(s, limit, e, hrp, v) && Means(t, limit, e, hrp, w)
    requires |s| == |t| && |hrp| < at && at + 6 <= |s|
    requires forall i | 0 <= i < |s| && !(at <= i < at + 6) :: LowerCase(s[i]) == LowerCase(t[i])
    ensures Lowered(s) == Lowered(t) && v == w
  {
    hide Run, Prepared, ChecksumOf, Text, WellSpelled, LowerCase, CharOf, Encoded;
    var n := |hrp| + 1;
    var a, b := v + ChecksumOf(e, hrp, v), w + ChecksumOf(e, hrp, w);
    MeansShape(s, limit, e, hrp, v);
    MeansShape(t, limit, e, hrp, w);
    TextLength(a);
    TextLength(b);
    SameOutside(s, t, n, at, a, b);
    MeansResidue(s, limit, e, hrp, v);
    MeansResidue(t, limit, e, hrp, w);
    SameResidue(hrp, a, b, at - n);
    assert v == a[..|a| - 6] && w == b[..|b| - 6];
    assert Lowered(s) == Encoded(e, hrp, v);
  }

  lemma SameResidue(hrp: string, a: seq<bv32>, b: seq<bv32>, at: nat)
    requires Ascii(hrp) && Symbols(a) && Symbols(b) && DifferWithin(a, b, at)
    requires Run(1, Prepared(hrp, a)) == Run(1, Prepared(hrp, b))
    ensures a == b
  {
    hide Run, Prepared;
    var p := Prepared(hrp, []);
    PreparedSymbols(hrp, a);
    PreparedSymbols(hrp, b);
    PreparedAppend(hrp, [], a);
    PreparedAppend(hrp, [], b);
    assert [] + a == a && [] + b == b;
    assert a == (p + a)[|p|..] && b == (p + b)[|p|..];
    if p + a != p + b {
      BurstDetected(1, p + a, p + b, |p| + at);
    }
  }

  lemma SameOutside(s: string, t: string, n: nat, at: nat, a: seq<bv32>, b: seq<bv32>)
    requires Symbols(a) && Symbols(b) && |s| == |t| && n <= at && at + 6 <= |s|
    requires Lowered(s[n..]) == Text(a) && Lowered(t[n..]) == Text(b)
    requires forall i | 0 <= i < |s| && !(at <= i < at + 6) :: LowerCase(s[i]) == LowerCase(t[i])
    ensures DifferWithin(a, b, at - n)
  {
    hide CharOf, LowerCase;
    assert |a| == |Text(a)| == |s| - n && |b| == |Text(b)| == |t| - n;
    forall i | 0 <= i < |a| && !(at - n <= i < at - n + 6) ensures a[i] == b[i] {
      assert Text(a)[i] == CharOf(a[i]) && Text(b)[i] == CharOf(b[i]);
      assert Lowered(s[n..])[i] == LowerCase(s[n + i]) && Lowered(t[n..])[i] == LowerCase(t[n + i]);
      CharOfInjective(a[i], b[i]);
    }
  }

  lemma MeansResidue(s: string, limit: nat, e: Encoding, hrp: string, v: seq<bv32>)
    requires Means(s, limit, e, hrp, v)
    ensures Run(1, Prepared(hrp, v + ChecksumOf(e, hrp, v))) == EncodingConstant(e)
  {
    hide Run, Prepared, ChecksumOf, Text, WellSpelled, LowerCase, CharOf, Encoded;
    var c := ChecksumOf(e, hrp, v);
    PreparedSymbols(hrp, v);
    PreparedAppend(hrp, v, c);
    ConstantsDiffer();
    ChecksumOfIs(e, hrp, v);
    ChecksumUnique(Prepared(hrp, v), c, EncodingConstant(e));
  }
}
