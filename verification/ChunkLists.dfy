/** Feerate diagrams of lists of chunks: as piecewise linear functions of the size, and through what the chunks pay
    above every threshold feerate. For lists in order of feerate, comparing one is comparing the other. */
module ChunkLists {
  import opened FeeFracs

  ghost predicate Sized(cs: seq<FeeFrac>) {
    forall i | 0 <= i < |cs| :: cs[i].size > 0
  }

  /** In order of feerate. */
  ghost predicate Descending(cs: seq<FeeFrac>) {
    Sized(cs) && forall i, j | 0 <= i < j < |cs| :: Rate(cs[i]) >= Rate(cs[j])
  }

  function Sum(cs: seq<FeeFrac>): FeeFrac {
    if cs == [] then EMPTY else Sum(cs[..|cs| - 1]).Plus(cs[|cs| - 1])
  }

  lemma SumNext(cs: seq<FeeFrac>, i: nat)
    requires i < |cs|
    ensures Sum(cs[..i + 1]) == Sum(cs[..i]).Plus(cs[i])
  {
    assert cs[..i + 1][..i] == cs[..i];
  }

  lemma {:induction false} SumGrows(cs: seq<FeeFrac>, i: nat, j: nat)
    requires Sized(cs) && i <= j <= |cs|
    ensures 0 <= Sum(cs[..i]).size <= Sum(cs[..j]).size && (i < j ==> Sum(cs[..i]).size < Sum(cs[..j]).size)
    decreases j
  {
    if i < j {
      SumGrows(cs, i, j - 1);
      SumNext(cs, j - 1);
    } else if i > 0 {
      SumGrows(cs, i - 1, i - 1);
      SumNext(cs, i - 1);
    }
  }

  // ---- The diagram

  /** The line from `a` on with the feerate of `c`. */
  ghost function LineAt(a: FeeFrac, c: FeeFrac, x: real): real
    requires c.size > 0
  {
    a.fee as real + Rate(c) * (x - a.size as real)
  }

  /** The fee of the diagram at size `x`: through the sums of the first chunks, linear between them, and level after the
      last. */
  ghost function At(cs: seq<FeeFrac>, x: real): real
    requires Sized(cs)
  {
    if cs == [] then 0.0
    else
      var n := |cs| - 1;
      var before := Sum(cs[..n]);
      if x < before.size as real then At(cs[..n], x)
      else if x < Sum(cs).size as real then LineAt(before, cs[n], x)
      else Sum(cs).fee as real
  }

  lemma LineEnds(a: FeeFrac, c: FeeFrac)
    requires c.size > 0
    ensures LineAt(a, c, a.size as real) == a.fee as real
    ensures LineAt(a, c, a.Plus(c).size as real) == a.Plus(c).fee as real
  {
    assert Rate(c) * c.size as real == c.fee as real;
    assert a.Plus(c).size as real - a.size as real == c.size as real;
  }

  /** On the piece of chunk `i`. */
  lemma {:induction false} AtPiece(cs: seq<FeeFrac>, i: nat, x: real)
    requires Sized(cs) && i < |cs| && Sum(cs[..i]).size as real <= x <= Sum(cs[..i + 1]).size as real
    ensures At(cs, x) == LineAt(Sum(cs[..i]), cs[i], x)
    decreases |cs|
  {
    var n := |cs| - 1;
    hide LineAt;
    SumNext(cs, i);
    LineEnds(Sum(cs[..i]), cs[i]);
    if i < n {
      assert cs[..n][..i] == cs[..i] && cs[..n][..i + 1] == cs[..i + 1];
      SumGrows(cs, i + 1, n);
      AtPiece(cs[..n], i, x);
      LineEnds(Sum(cs[..n]), cs[n]);
    } else {
      assert cs[..n + 1] == cs;
    }
  }

  lemma AtEnd(cs: seq<FeeFrac>, x: real)
    requires Sized(cs) && x >= Sum(cs).size as real
    ensures At(cs, x) == Sum(cs).fee as real
  {
    assert cs[..|cs|] == cs;
    if cs != [] { SumGrows(cs, |cs| - 1, |cs|); }
  }

  /** At the sum of the first chunks. */
  lemma AtSum(cs: seq<FeeFrac>, i: nat)
    requires Sized(cs) && i <= |cs|
    ensures At(cs, Sum(cs[..i]).size as real) == Sum(cs[..i]).fee as real
  {
    if i == |cs| {
      assert cs[..i] == cs;
      AtEnd(cs, Sum(cs).size as real);
    } else {
      SumGrows(cs, i, i + 1);
      AtPiece(cs, i, Sum(cs[..i]).size as real);
      LineEnds(Sum(cs[..i]), cs[i]);
    }
  }

  /** Every size up to the total is on some piece. */
  lemma {:induction false} PieceOf(cs: seq<FeeFrac>, x: real) returns (i: nat)
    requires Sized(cs) && cs != [] && 0.0 <= x <= Sum(cs).size as real
    ensures i < |cs| && Sum(cs[..i]).size as real <= x <= Sum(cs[..i + 1]).size as real
    decreases |cs|
  {
    var n := |cs| - 1;
    assert cs[..n + 1] == cs;
    if x >= Sum(cs[..n]).size as real {
      i := n;
    } else {
      i := PieceOf(cs[..n], x);
      assert cs[..n][..i] == cs[..i] && cs[..n][..i + 1] == cs[..i + 1];
    }
  }

  // ---- What the chunks pay above a threshold

  /** The fee for size `x` at feerate `lam`. */
  ghost function Rise(lam: real, x: real): real {
    lam * x
  }

  ghost function Height(cs: seq<FeeFrac>, lam: real): real {
    if cs == [] then 0.0 else Height(cs[..|cs| - 1], lam) + Pos(Gain(cs[|cs| - 1], lam))
  }

  lemma {:induction false} HeightGrows(cs: seq<FeeFrac>, i: nat, lam: real)
    requires i <= |cs|
    ensures Height(cs[..i], lam) <= Height(cs, lam)
    decreases |cs|
  {
    if i == |cs| {
      assert cs[..i] == cs;
    } else {
      assert cs[..|cs| - 1][..i] == cs[..i];
      HeightGrows(cs[..|cs| - 1], i, lam);
    }
  }

  lemma HeightNext(cs: seq<FeeFrac>, i: nat, lam: real)
    requires i < |cs|
    ensures Height(cs[..i + 1], lam) == Height(cs[..i], lam) + Pos(Gain(cs[i], lam))
  {
    assert cs[..i + 1][..i] == cs[..i];
  }

  lemma {:induction false} SumBelowHeight(cs: seq<FeeFrac>, i: nat, lam: real)
    requires i <= |cs|
    ensures Gain(Sum(cs[..i]), lam) <= Height(cs[..i], lam)
    decreases i
  {
    hide Gain;
    if i == 0 {
      assert Gain(EMPTY, lam) == 0.0 by { GainNone(lam); }
    } else {
      SumBelowHeight(cs, i - 1, lam);
      SumNext(cs, i - 1);
      HeightNext(cs, i - 1, lam);
      GainPlus(Sum(cs[..i - 1]), cs[i - 1], lam);
    }
  }

  lemma GainNone(lam: real)
    ensures Gain(EMPTY, lam) == 0.0
  {
  }

  /** A part of a chunk pays a part of what the chunk pays. */
  lemma PartGain(c: FeeFrac, y: real, lam: real)
    requires c.size > 0 && 0.0 <= y <= c.size as real
    ensures Rate(c) * y - lam * y <= Pos(Gain(c, lam))
  {
    var d := Rate(c) - lam;
    assert Gain(c, lam) == d * c.size as real by { assert Rate(c) * c.size as real == c.fee as real; }
    assert Rate(c) * y - lam * y == d * y;
    if d > 0.0 {
      assert d * y <= d * c.size as real;
    } else {
      assert d * y <= 0.0;
    }
  }

  lemma GainIs(a: FeeFrac, lam: real)
    ensures Gain(a, lam) == a.fee as real - Rise(lam, a.size as real)
  {
  }

  lemma LineBelow(a: FeeFrac, c: FeeFrac, x: real, lam: real)
    requires c.size > 0 && a.size as real <= x <= a.Plus(c).size as real
    ensures LineAt(a, c, x) <= Gain(a, lam) + Pos(Gain(c, lam)) + Rise(lam, x)
  {
    var y := x - a.size as real;
    PartGain(c, y, lam);
    assert lam * x == lam * a.size as real + lam * y;
  }

  /** The diagram is below every line that is as high as the threshold allows. */
  lemma AtBelowHeight(cs: seq<FeeFrac>, x: real, lam: real)
    requires Sized(cs) && 0.0 <= x <= Sum(cs).size as real
    ensures At(cs, x) <= Height(cs, lam) + Rise(lam, x)
  {
    if cs == [] {
      assert x == 0.0;
    } else {
      hide Gain, LineAt, At, Height, Pos, Rise;
      var i := PieceOf(cs, x);
      AtPiece(cs, i, x);
      SumBelowHeight(cs, i, lam);
      HeightNext(cs, i, lam);
      HeightGrows(cs, i + 1, lam);
      SumNext(cs, i);
      LineBelow(Sum(cs[..i]), cs[i], x, lam);
    }
  }

  lemma {:induction false} HeightIsSum(cs: seq<FeeFrac>, lam: real)
    requires forall i | 0 <= i < |cs| :: Gain(cs[i], lam) >= 0.0
    ensures Height(cs, lam) == Gain(Sum(cs), lam)
    decreases |cs|
  {
    hide Gain;
    if cs == [] {
      GainNone(lam);
    } else {
      var n := |cs| - 1;
      HeightIsSum(cs[..n], lam);
      GainPlus(Sum(cs[..n]), cs[n], lam);
    }
  }

  lemma {:induction false} HeightStays(cs: seq<FeeFrac>, i: nat, lam: real)
    requires i <= |cs| && forall j | i <= j < |cs| :: Gain(cs[j], lam) <= 0.0
    ensures Height(cs, lam) == Height(cs[..i], lam)
    decreases |cs|
  {
    hide Gain;
    if i == |cs| {
      assert cs[..i] == cs;
    } else {
      assert cs[..|cs| - 1][..i] == cs[..i];
      HeightStays(cs[..|cs| - 1], i, lam);
    }
  }

  /** If the first `i` chunks are those above the threshold, they pay what all pay above it. */
  lemma HeightAt(cs: seq<FeeFrac>, i: nat, lam: real)
    requires Sized(cs) && i <= |cs|
    requires forall j | 0 <= j < |cs| :: if j < i then Rate(cs[j]) >= lam else Rate(cs[j]) <= lam
    ensures Height(cs, lam) == Gain(Sum(cs[..i]), lam)
  {
    hide Gain, Rate;
    forall j | 0 <= j < |cs| ensures if j < i then Gain(cs[j], lam) >= 0.0 else Gain(cs[j], lam) <= 0.0 {
      GainSign(cs[j], lam);
    }
    HeightStays(cs, i, lam);
    HeightIsSum(cs[..i], lam);
  }

  /** On the piece of a chunk, the diagram is as high as its feerate allows. */
  lemma AtIsHeight(cs: seq<FeeFrac>, i: nat, x: real)
    requires Descending(cs) && i < |cs| && Sum(cs[..i]).size as real <= x <= Sum(cs[..i + 1]).size as real
    ensures At(cs, x) == Height(cs, Rate(cs[i])) + Rise(Rate(cs[i]), x)
  {
    hide Rate;
    var lam, a := Rate(cs[i]), Sum(cs[..i]);
    AtPiece(cs, i, x);
    HeightAt(cs, i, lam);
    assert lam * x == lam * a.size as real + lam * (x - a.size as real);
  }

  /** How many of the first chunks are above the threshold. */
  lemma {:induction false} Above(cs: seq<FeeFrac>, lam: real) returns (i: nat)
    requires Descending(cs)
    ensures i <= |cs| && forall j | 0 <= j < |cs| :: if j < i then Rate(cs[j]) >= lam else Rate(cs[j]) <= lam
    decreases |cs|
  {
    hide Rate;
    if cs == [] {
      i := 0;
    } else {
      var n := |cs| - 1;
      if Rate(cs[n]) >= lam {
        i := n + 1;
      } else {
        i := Above(cs[..n], lam);
      }
    }
  }

  /** Above every threshold, some point of the diagram is as high as the chunks pay. */
  lemma HeightReached(cs: seq<FeeFrac>, lam: real) returns (i: nat)
    requires Descending(cs)
    ensures i <= |cs| && 0 <= Sum(cs[..i]).size <= Sum(cs).size
    ensures At(cs, Sum(cs[..i]).size as real) == Height(cs, lam) + Rise(lam, Sum(cs[..i]).size as real)
  {
    hide Rate, Gain, Rise, At, Height;
    i := Above(cs, lam);
    HeightAt(cs, i, lam);
    AtSum(cs, i);
    GainIs(Sum(cs[..i]), lam);
    SumGrows(cs, i, |cs|);
    assert cs[..|cs|] == cs;
  }

  // ---- Comparing

  /** The diagram of `cs` is nowhere lower. */
  ghost predicate NowhereLower(cs: seq<FeeFrac>, ds: seq<FeeFrac>)
    requires Sized(cs) && Sized(ds)
  {
    forall x: real | x >= 0.0 :: At(cs, x) >= At(ds, x)
  }

  /** Above no threshold the chunks `cs` pay less. */
  ghost predicate PaysAtLeast(cs: seq<FeeFrac>, ds: seq<FeeFrac>) {
    forall lam: real :: Height(cs, lam) >= Height(ds, lam)
  }

  lemma HigherDiagram(cs: seq<FeeFrac>, ds: seq<FeeFrac>, lam: real)
    requires Descending(cs) && Descending(ds) && Sum(cs).size == Sum(ds).size && NowhereLower(cs, ds)
    ensures Height(cs, lam) >= Height(ds, lam)
  {
    hide Rate, At, Height, Rise;
    var i := HeightReached(ds, lam);
    var x := Sum(ds[..i]).size as real;
    assert At(cs, x) >= At(ds, x);
    AtBelowHeight(cs, x, lam);
  }

  lemma HigherOnPiece(cs: seq<FeeFrac>, ds: seq<FeeFrac>, i: nat, x: real)
    requires Descending(cs) && Sized(ds) && i < |cs| && Height(cs, Rate(cs[i])) >= Height(ds, Rate(cs[i]))
    requires Sum(cs[..i]).size as real <= x <= Sum(cs[..i + 1]).size as real && 0.0 <= x <= Sum(ds).size as real
    ensures At(cs, x) >= At(ds, x)
  {
    hide Rise, At, Height, LineAt, Rate;
    AtIsHeight(cs, i, x);
    AtBelowHeight(ds, x, Rate(cs[i]));
  }

  lemma HigherPayment(cs: seq<FeeFrac>, ds: seq<FeeFrac>, x: real)
    requires Descending(cs) && Descending(ds) && Sum(cs) == Sum(ds) && PaysAtLeast(cs, ds) && x >= 0.0
    ensures At(cs, x) >= At(ds, x)
  {
    hide Rate, At, Height, LineAt;
    if x >= Sum(cs).size as real {
      AtEnd(cs, x);
      AtEnd(ds, x);
    } else {
      assert cs != [];
      var i := PieceOf(cs, x);
      HigherOnPiece(cs, ds, i, x);
    }
  }

  /** A diagram is nowhere lower exactly if its chunks pay at least as much above every threshold. */
  lemma DiagramsAreThresholds(cs: seq<FeeFrac>, ds: seq<FeeFrac>)
    requires Descending(cs) && Descending(ds) && Sum(cs) == Sum(ds)
    ensures NowhereLower(cs, ds) <==> PaysAtLeast(cs, ds)
  {
    hide Rate, At, Height;
    if NowhereLower(cs, ds) {
      forall lam: real ensures Height(cs, lam) >= Height(ds, lam) {
        HigherDiagram(cs, ds, lam);
      }
    }
    if PaysAtLeast(cs, ds) {
      forall x: real | x >= 0.0 ensures At(cs, x) >= At(ds, x) {
        HigherPayment(cs, ds, x);
      }
    }
  }
}
