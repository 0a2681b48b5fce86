/** Comparing two feerate diagrams point by point. */
module CompareChunks {
  import opened FeeFracs
  import opened ChunkLists

  datatype Ordering = Less | Equal | Greater | Unordered

  /** The diagram of `a` is somewhere higher, up to size `m`. */
  ghost predicate HigherUpTo(a: seq<FeeFrac>, b: seq<FeeFrac>, m: real)
    requires Sized(a) && Sized(b)
  {
    exists x: real :: 0.0 <= x <= m && At(a, x) > At(b, x)
  }

  ghost predicate SomewhereHigher(a: seq<FeeFrac>, b: seq<FeeFrac>)
    requires Sized(a) && Sized(b)
  {
    exists x: real :: 0.0 <= x && At(a, x) > At(b, x)
  }

  // ---- One step

  ghost function Reached(a: seq<FeeFrac>, b: seq<FeeFrac>, i: nat, j: nat): int
    requires i <= |a| && j <= |b|
  {
    var m, n := Sum(a[..i]).size, Sum(b[..j]).size;
    if m > n then m else n
  }

  /** The diagrams are compared up to the later of the points passed; each has its next point beyond it. */
  ghost predicate Walked(a: seq<FeeFrac>, b: seq<FeeFrac>, i: nat, j: nat, aBetter: bool, bBetter: bool) {
    && Sized(a) && Sized(b) && i <= |a| && j <= |b|
    && (i < |a| ==> Sum(b[..j]).size < Sum(a[..i + 1]).size)
    && (j < |b| ==> Sum(a[..i]).size < Sum(b[..j + 1]).size)
    && var m := Reached(a, b, i, j) as real;
       (aBetter <==> HigherUpTo(a, b, m)) && (bBetter <==> HigherUpTo(b, a, m))
  }

  lemma WalkedSwap(a: seq<FeeFrac>, b: seq<FeeFrac>, i: nat, j: nat, aBetter: bool, bBetter: bool)
    requires Walked(a, b, i, j, aBetter, bBetter)
    ensures Walked(b, a, j, i, bBetter, aBetter)
  {
    hide HigherUpTo;
  }

  lemma WalkedNone(a: seq<FeeFrac>, b: seq<FeeFrac>)
    requires Sized(a) && Sized(b)
    ensures Walked(a, b, 0, 0, false, false)
  {
    hide At;
    AtSum(a, 0);
    AtSum(b, 0);
    if a != [] { SumNext(a, 0); }
    if b != [] { SumNext(b, 0); }
    forall x: real | 0.0 <= x <= 0.0 ensures At(a, x) == At(b, x) {
      assert x == 0.0;
    }
  }

  /** The chunk that the diagram follows after its first `j` chunks; level after the last. */
  function Following(b: seq<FeeFrac>, j: nat): FeeFrac {
    if j < |b| then b[j] else FeeFrac(0, 1)
  }

  lemma AtFollowing(b: seq<FeeFrac>, j: nat, x: real)
    requires Sized(b) && j <= |b| && Sum(b[..j]).size as real <= x
    requires j < |b| ==> x <= Sum(b[..j + 1]).size as real
    ensures At(b, x) == LineAt(Sum(b[..j]), Following(b, j), x)
  {
    if j < |b| {
      AtPiece(b, j, x);
    } else {
      assert b[..j] == b;
      AtEnd(b, x);
      assert Rate(FeeFrac(0, 1)) == 0.0;
    }
  }

  /** Between two sizes, the difference of two lines is between those at the ends. */
  lemma LinesBetween(a: FeeFrac, c: FeeFrac, b: FeeFrac, d: FeeFrac, m: real, x: real, p: real)
    requires c.size > 0 && d.size > 0 && m <= x <= p
    ensures LineAt(a, c, x) > LineAt(b, d, x) ==> LineAt(a, c, m) > LineAt(b, d, m) || LineAt(a, c, p) > LineAt(b, d, p)
  {
    var k := Rate(c) - Rate(d);
    var e := a.fee as real - b.fee as real - Rate(c) * a.size as real + Rate(d) * b.size as real;
    LineForm(a, c, b, d, m);
    LineForm(a, c, b, d, x);
    LineForm(a, c, b, d, p);
    hide LineAt, Rate;
    if k > 0.0 {
      assert k * p >= k * x;
    } else {
      assert k * m >= k * x;
    }
  }

  lemma LineForm(a: FeeFrac, c: FeeFrac, b: FeeFrac, d: FeeFrac, x: real)
    requires c.size > 0 && d.size > 0
    ensures LineAt(a, c, x) - LineAt(b, d, x) ==
            a.fee as real - b.fee as real - Rate(c) * a.size as real + Rate(d) * b.size as real
              + (Rate(c) - Rate(d)) * x
  {
  }

  /** The point `p` is above the line from `a` with the feerate of `d` exactly if the line from `a` to it is steeper. */
  lemma PointAboveLine(p: FeeFrac, a: FeeFrac, d: FeeFrac)
    requires d.size > 0 && p.size > a.size
    ensures d.Lower(p.Minus(a)) <==> p.fee as real > LineAt(a, d, p.size as real)
    ensures p.Minus(a).Lower(d) <==> p.fee as real < LineAt(a, d, p.size as real)
  {
    var s := p.Minus(a);
    CompareIsRate(s, d);
    CompareIsRate(d, s);
    var w := p.size as real - a.size as real;
    assert w == s.size as real > 0.0;
    assert Rate(s) * w == p.fee as real - a.fee as real;
    SlopeSign(Rate(s), Rate(d), w);
  }

  lemma SlopeSign(q: real, r: real, w: real)
    requires w > 0.0
    ensures q * w > r * w <==> q > r
    ensures q * w < r * w <==> q < r
  {
    assert q * w - r * w == (q - r) * w;
  }

  /** One side is compared up to its next point. */
  lemma HigherNext(a: seq<FeeFrac>, b: seq<FeeFrac>, i: nat, j: nat, m: real, p: real, up: bool)
    requires Sized(a) && Sized(b) && i <= |a| && j <= |b| && 0.0 <= m <= p
    requires Sum(a[..i]).size as real <= m && Sum(b[..j]).size as real <= m
    requires i < |a| ==> p <= Sum(a[..i + 1]).size as real
    requires j < |b| ==> p <= Sum(b[..j + 1]).size as real
    requires up <==> At(a, p) > At(b, p)
    ensures HigherUpTo(a, b, p) <==> HigherUpTo(a, b, m) || up
  {
    hide At, LineAt, Sum;
    if HigherUpTo(a, b, p) {
      var x: real :| 0.0 <= x <= p && At(a, x) > At(b, x);
      if x > m {
        AtFollowing(a, i, m);
        AtFollowing(a, i, x);
        AtFollowing(a, i, p);
        AtFollowing(b, j, m);
        AtFollowing(b, j, x);
        AtFollowing(b, j, p);
        LinesBetween(Sum(a[..i]), Following(a, i), Sum(b[..j]), Following(b, j), m, x, p);
      }
    }
  }

  /** The next point of `a`, if it is not beyond that of `b`. */
  lemma WalkedNext(a: seq<FeeFrac>, b: seq<FeeFrac>, i: nat, j: nat, aBetter: bool, bBetter: bool)
    requires Walked(a, b, i, j, aBetter, bBetter) && i < |a|
    requires j < |b| ==> Sum(a[..i + 1]).size <= Sum(b[..j + 1]).size
    ensures var slope := Sum(a[..i + 1]).Minus(Sum(b[..j]));
            var both := j < |b| && Sum(a[..i + 1]).size == Sum(b[..j + 1]).size;
            && slope.size > 0
            && Walked(a, b, i + 1, if both then j + 1 else j, aBetter || Following(b, j).Lower(slope),
                      bBetter || slope.Lower(Following(b, j)))
  {
    hide HigherUpTo, At, LineAt, FeeFrac.Lower;
    var p, pb := Sum(a[..i + 1]), Sum(b[..j]);
    var both := j < |b| && p.size == Sum(b[..j + 1]).size;
    var j' := if both then j + 1 else j;
    var m := Reached(a, b, i, j);
    SumGrows(a, i, i + 1);
    SumGrows(b, j, j);
    if i + 1 < |a| { SumGrows(a, i + 1, i + 2); }
    if j' < |b| { SumGrows(b, j', j' + 1); }
    assert Reached(a, b, i + 1, j') == p.size;
    AtSum(a, i + 1);
    AtFollowing(b, j, p.size as real);
    PointAboveLine(p, pb, Following(b, j));
    HigherNext(a, b, i, j, m as real, p.size as real, Following(b, j).Lower(p.Minus(pb)));
    HigherNext(b, a, j, i, m as real, p.size as real, p.Minus(pb).Lower(Following(b, j)));
  }

  /** After both last points nothing changes. */
  lemma WalkedAll(a: seq<FeeFrac>, b: seq<FeeFrac>, aBetter: bool, bBetter: bool)
    requires Walked(a, b, |a|, |b|, aBetter, bBetter)
    ensures aBetter <==> SomewhereHigher(a, b)
    ensures bBetter <==> SomewhereHigher(b, a)
  {
    hide At, Sum;
    assert a[..|a|] == a && b[..|b|] == b;
    var m := Reached(a, b, |a|, |b|) as real;
    AtEnd(a, m);
    AtEnd(b, m);
    SumGrows(a, |a|, |a|);
    forall x: real | x > m ensures At(a, x) == At(a, m) && At(b, x) == At(b, m) {
      AtEnd(a, x);
      AtEnd(b, x);
    }
  }

  lemma WalkedSome(a: seq<FeeFrac>, b: seq<FeeFrac>, i: nat, j: nat, aBetter: bool, bBetter: bool)
    requires Walked(a, b, i, j, aBetter, bBetter)
    ensures aBetter ==> SomewhereHigher(a, b)
    ensures bBetter ==> SomewhereHigher(b, a)
  {
    hide At;
  }

  // ---- The comparison

  /** Which diagram is somewhere higher. */
  method CompareChunks(chunks0: seq<FeeFrac>, chunks1: seq<FeeFrac>) returns (r: Ordering)
    requires Sized(chunks0) && Sized(chunks1)
    ensures r == Greater <==> SomewhereHigher(chunks0, chunks1) && !SomewhereHigher(chunks1, chunks0)
    ensures r == Less <==> SomewhereHigher(chunks1, chunks0) && !SomewhereHigher(chunks0, chunks1)
    ensures r == Equal <==> !SomewhereHigher(chunks0, chunks1) && !SomewhereHigher(chunks1, chunks0)
  {
    hide Walked, Sum, FeeFrac.Lower;
    var chunk := [chunks0, chunks1];
    var next, accum, better := [0, 0], [EMPTY, EMPTY], [false, false];
    WalkedNone(chunks0, chunks1);
    SumNone(chunks0);
    SumNone(chunks1);
    while next[0] < |chunks0| || next[1] < |chunks1|
      invariant |next| == |accum| == |better| == 2
      invariant 0 <= next[0] <= |chunks0| && 0 <= next[1] <= |chunks1|
      invariant accum[0] == Sum(chunks0[..next[0]]) && accum[1] == Sum(chunks1[..next[1]])
      invariant Walked(chunks0, chunks1, next[0], next[1], better[0], better[1]) && !(better[0] && better[1])
      decreases |chunks0| - next[0] + |chunks1| - next[1]
    {
      var done0, done1 := next[0] == |chunks0|, next[1] == |chunks1|;
      var side := if done0 then 1 else if done1 then 0
                  else if chunks0[next[0]].Plus(accum[0]).size > chunks1[next[1]].Plus(accum[1]).size then 1 else 0;
      var other := 1 - side;
      ghost var i, j := next[side], next[other];
      if side == 1 { WalkedSwap(chunks0, chunks1, next[0], next[1], better[0], better[1]); }
      SumNext(chunk[side], i);
      if !done0 && !done1 { SumNext(chunk[other], j); }
      WalkedNext(chunk[side], chunk[other], i, j, better[side], better[other]);
      var pointP, pointA := chunk[side][next[side]].Plus(accum[side]), accum[other];
      var slopeAp := pointP.Minus(pointA);
      var slopeAb := FeeFrac(0, 1);
      if !done0 && !done1 {
        var pointB := chunk[other][next[other]].Plus(accum[other]);
        slopeAb := pointB.Minus(pointA);
        if pointB.size == pointP.size {
          accum, next := accum[other := pointB], next[other := next[other] + 1];
        }
      }
      if slopeAb.Lower(slopeAp) { better := better[side := true]; }
      if slopeAp.Lower(slopeAb) { better := better[other := true]; }
      accum, next := accum[side := pointP], next[side := next[side] + 1];
      if side == 1 { WalkedSwap(chunks1, chunks0, next[1], next[0], better[1], better[0]); }
      if better[0] && better[1] {
        WalkedSome(chunks0, chunks1, next[0], next[1], true, true);
        return Unordered;
      }
    }
    WalkedAll(chunks0, chunks1, better[0], better[1]);
    r := if better[0] then Greater else if better[1] then Less else Equal;
  }

  lemma SumNone(cs: seq<FeeFrac>)
    ensures Sum(cs[..0]) == EMPTY
  {
  }
}
