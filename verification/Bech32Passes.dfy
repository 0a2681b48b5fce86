/** Which other strings a checked string cannot have come from. */
module Bech32Passes {
  import opened Bech32
  import opened Bech32Chars
  import opened Bech32Code
  import opened Bech32Detects

  /** `s` and `t` differ, but for case, at most in three characters. */
  ghost predicate ThreeDiffer(s: string, t: string, p: nat, q: nat, r: nat) {
    |s| == |t| && forall i | 0 <= i < |s| && i != p && i != q && i != r :: LowerCase(s[i]) == LowerCase(t[i])
  }

  lemma SymbolsDiffer(s: string, t: string, n: nat, a: seq<bv32>, b: seq<bv32>, p: nat, q: nat, r: nat)
    requires Symbols(a) && Symbols(b) && n <= p < q < r < |s| && ThreeDiffer(s, t, p, q, r)
    requires Lowered(s[n..]) == Text(a) && Lowered(t[n..]) == Text(b)
    ensures DifferAt(a, b, p - n, q - n, r - n)
  {
    hide CharOf, LowerCase;
    assert |a| == |Text(a)| == |s| - n && |b| == |Text(b)| == |t| - n;
    forall i | 0 <= i < |a| && i != p - n && i != q - n && i != r - n ensures a[i] == b[i] {
      assert Text(a)[i] == CharOf(a[i]) && Text(b)[i] == CharOf(b[i]);
      assert Lowered(s[n..])[i] == LowerCase(s[n + i]) && Lowered(t[n..])[i] == LowerCase(t[n + i]);
      CharOfInjective(a[i], b[i]);
    }
  }

  lemma DifferAfter(h: seq<bv32>, a: seq<bv32>, b: seq<bv32>, p: nat, q: nat, r: nat)
    requires DifferAt(a, b, p, q, r)
    ensures DifferAt(h + a, h + b, |h| + p, |h| + q, |h| + r)
  {
  }

  lemma SameAfter(h: seq<bv32>, a: seq<bv32>, b: seq<bv32>, p: nat, q: nat, r: nat)
    requires Symbols(h + a) && Symbols(h + b) && DifferAt(a, b, p, q, r)
    requires p < q < r < |a| && r - p < 1023
    requires Run(1, h + a) == Run(1, h + b)
    ensures a == b
  {
    hide Run;
    DifferAfter(h, a, b, p, q, r);
    if h + a != h + b {
      ThreeErrorsDetected(1, h + a, h + b, |h| + p, |h| + q, |h| + r);
    }
    assert a == (h + a)[|h|..] && b == (h + b)[|h|..];
  }

  lemma SameSymbols(hrp: string, a: seq<bv32>, b: seq<bv32>, p: nat, q: nat, r: nat)
    requires Ascii(hrp) && Symbols(a) && Symbols(b) && DifferAt(a, b, p, q, r)
    requires p < q < r < |a| && r - p < 1023
    requires Run(1, Prepared(hrp, a)) == Run(1, Prepared(hrp, b))
    ensures a == b
  {
    hide Run, Prepared;
    PreparedSymbols(hrp, a);
    PreparedSymbols(hrp, b);
    PreparedAppend(hrp, [], a);
    PreparedAppend(hrp, [], b);
    assert [] + a == a && [] + b == b;
    SameAfter(Prepared(hrp, []), a, b, p, q, r);
  }

  /** Two strings with the same text up to the separator that mean something in the same encoding are not different
      in at most three characters that lie within 1023. */
  lemma ThreeErrorsNeverPass(s: string, t: string, limit: nat, e: Encoding, hrp: string, v: seq<bv32>, w: seq<bv32>,
                             p: nat, q: nat, r: nat)
    requires Means(s, limit, e, hrp, v) && Means(t, limit, e, hrp, w)
    requires ThreeDiffer(s, t, p, q, r) && |hrp| < p < q < r < |s| && r - p < 1023
    ensures Lowered(s) == Lowered(t) && v == w
  {
    hide Run, Prepared, ChecksumOf, Text, WellSpelled, LowerCase, CharOf, Encoded;
    var n := |hrp| + 1;
    var a, b := v + ChecksumOf(e, hrp, v), w + ChecksumOf(e, hrp, w);
    MeansShape(s, limit, e, hrp, v);
    MeansShape(t, limit, e, hrp, w);
    TextLength(a);
    TextLength(b);
    SymbolsDiffer(s, t, n, a, b, p, q, r);
    MeansResidue(s, limit, e, hrp, v);
    MeansResidue(t, limit, e, hrp, w);
    SameSymbols(hrp, a, b, p - n, q - n, r - n);
    assert v == a[..|a| - 6] && w == b[..|b| - 6];
    assert Lowered(s) == Encoded(e, hrp, v);
  }
  // ---- Errors before the separator

  lemma HighIs(c: char)
    requires c as nat < 128
    ensures c as nat / 32 < 32 && HighBits(c) as nat == c as nat / 32
  {
    NatBv(c as nat / 32);
  }

  lemma LowIs(c: char)
    requires c as nat < 128
    ensures LowBits(c) as nat == c as nat % 32
  {
    NatBv(c as nat % 32);
  }

  lemma BitsDetermine(c: char, d: char)
    requires c as nat < 128 && d as nat < 128 && HighBits(c) == HighBits(d) && LowBits(c) == LowBits(d)
    ensures c == d
  {
    hide HighBits, LowBits;
    HighIs(c);
    HighIs(d);
    LowIs(c);
    LowIs(d);
    var m, n := c as nat, d as nat;
    assert m == 32 * (m / 32) + m % 32 && n == 32 * (n / 32) + n % 32;
  }

  /** `s` and `t` differ, but for case, at most in two characters. */
  ghost predicate TwoDiffer(s: string, t: string, i: nat, j: nat) {
    |s| == |t| && forall k | 0 <= k < |s| && k != i && k != j :: LowerCase(s[k]) == LowerCase(t[k])
  }

  /** A wrong character before the separator changes two symbols. */
  lemma PreparedDiffer(g: string, h: string, a: seq<bv32>, b: seq<bv32>, i: nat, j: nat)
    requires Ascii(g) && Ascii(h) && |g| == |h| && |a| == |b| && i < |g| && j < |a|
    requires forall k | 0 <= k < |g| && k != i :: g[k] == h[k]
    requires forall k | 0 <= k < |a| && k != j :: a[k] == b[k]
    ensures DifferAt(Prepared(g, a), Prepared(h, b), i, |g| + 1 + i, 2 * |g| + 1 + j)
  {
    hide HighBits, LowBits;
  }

  lemma PreparedParts(g: string, a: seq<bv32>, i: nat)
    requires Ascii(g) && i < |g|
    ensures var p, n := Prepared(g, a), |g|;
            && |p| == 2 * n + 1 + |a| && p[i] == HighBits(g[i]) && p[n + 1 + i] == LowBits(g[i]) && p[2 * n + 1..] == a
  {
    hide HighBits, LowBits;
  }

  lemma PartsDiffer(s: string, t: string, g: string, h: string, a: seq<bv32>, b: seq<bv32>, i: nat, j: nat)
    requires Symbols(a) && Symbols(b) && TwoDiffer(s, t, i, j) && |g| == |h| && i < |g| < j < |s|
    requires Lowered(s) == g + [SEPARATOR] + Text(a) && Lowered(t) == h + [SEPARATOR] + Text(b)
    ensures |a| == |b| == |s| - |g| - 1
    ensures forall k | 0 <= k < |g| && k != i :: g[k] == h[k]
    ensures forall k | 0 <= k < |a| && k != j - |g| - 1 :: a[k] == b[k]
  {
    hide CharOf, LowerCase;
    TextLength(a);
    TextLength(b);
    var n := |g|;
    forall k | 0 <= k < n && k != i ensures g[k] == h[k] {
      assert Lowered(s)[k] == g[k] && Lowered(t)[k] == h[k];
    }
    forall k | 0 <= k < |a| && k != j - n - 1 ensures a[k] == b[k] {
      assert Lowered(s)[n + 1 + k] == CharOf(a[k]) && Lowered(t)[n + 1 + k] == CharOf(b[k]);
      CharOfInjective(a[k], b[k]);
    }
  }

  lemma SamePrepared(g: string, h: string, a: seq<bv32>, b: seq<bv32>, i: nat, j: nat)
    requires Ascii(g) && Ascii(h) && |g| == |h| && |a| == |b| && i < |g| && j < |a| && Symbols(a) && Symbols(b)
    requires forall k | 0 <= k < |g| && k != i :: g[k] == h[k]
    requires forall k | 0 <= k < |a| && k != j :: a[k] == b[k]
    requires Run(1, Prepared(g, a)) == Run(1, Prepared(h, b)) && 2 * |g| + 1 + j - i < 1023
    ensures g == h && a == b
  {
    hide Run, Prepared, HighBits, LowBits, DifferAt;
    PreparedSymbols(g, a);
    PreparedSymbols(h, b);
    PreparedDiffer(g, h, a, b, i, j);
    PreparedParts(g, a, i);
    PreparedParts(h, b, i);
    if Prepared(g, a) != Prepared(h, b) {
      ThreeErrorsDetected(1, Prepared(g, a), Prepared(h, b), i, |g| + 1 + i, 2 * |g| + 1 + j);
    }
    BitsDetermine(g[i], h[i]);
  }

  /** Nor are they different in one character before the separator and one after it. */
  lemma PrefixErrorNeverPasses(s: string, t: string, limit: nat, e: Encoding, g: string, h: string, v: seq<bv32>,
                               w: seq<bv32>, i: nat, j: nat)
    requires Means(s, limit, e, g, v) && Means(t, limit, e, h, w) && |g| == |h|
    requires TwoDiffer(s, t, i, j) && i < |g| < j < |s| && |g| + j - i < 1023
    ensures Lowered(s) == Lowered(t) && g == h && v == w
  {
    hide Run, Prepared, ChecksumOf, Text, WellSpelled, LowerCase, CharOf;
    var a, b := v + ChecksumOf(e, g, v), w + ChecksumOf(e, h, w);
    PartsDiffer(s, t, g, h, a, b, i, j);
    MeansResidue(s, limit, e, g, v);
    MeansResidue(t, limit, e, h, w);
    SamePrepared(g, h, a, b, i, j - |g| - 1);
    assert v == a[..|a| - 6] && w == b[..|b| - 6];
  }
}
