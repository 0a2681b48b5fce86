/** Fee/size pairs, their feerate ordering, and the weight a set of transactions has above a
    feerate threshold.

    The program compares feerates by cross-multiplication (`ByRatio`). The specifications use the
    real quotient instead; `CompareIsRate` connects the two. */
module FeeFracs {

  datatype FeeFrac = FeeFrac(fee: int, size: int) {
    function Plus(other: FeeFrac): FeeFrac {
      FeeFrac(fee + other.fee, size + other.size)
    }

    function Minus(other: FeeFrac): FeeFrac {
      FeeFrac(fee - other.fee, size - other.size)
    }

    /** `ByRatio{this} < ByRatio{other}`. */
    predicate Lower(other: FeeFrac) {
      fee * other.size < other.fee * size
    }

    /** `ByRatio{this} == ByRatio{other}`. */
    predicate SameRatio(other: FeeFrac) {
      fee * other.size == other.fee * size
    }
  }

  const EMPTY := FeeFrac(0, 0)

  ghost function Rate(f: FeeFrac): real
    requires f.size > 0
  {
    f.fee as real / f.size as real
  }

  /** What `f` pays above the threshold feerate `lam`. */
  ghost function Gain(f: FeeFrac, lam: real): real {
    f.fee as real - lam * f.size as real
  }

  ghost function Pos(x: real): real {
    if x > 0.0 then x else 0.0
  }

  lemma QuotientSign(a: real, b: real, lam: real)
    requires b > 0.0
    ensures a - lam * b > 0.0 <==> a / b > lam
    ensures a - lam * b == 0.0 <==> a / b == lam
  {
    var q := a / b;
    assert a == q * b;
    assert a - lam * b == (q - lam) * b;
  }

  lemma GainSign(f: FeeFrac, lam: real)
    requires f.size > 0
    ensures Gain(f, lam) > 0.0 <==> Rate(f) > lam
    ensures Gain(f, lam) == 0.0 <==> Rate(f) == lam
  {
    QuotientSign(f.fee as real, f.size as real, lam);
  }

  lemma GainPlus(a: FeeFrac, b: FeeFrac, lam: real)
    ensures Gain(a.Plus(b), lam) == Gain(a, lam) + Gain(b, lam)
  {
    assert (a.size + b.size) as real == a.size as real + b.size as real;
    assert lam * (a.size as real + b.size as real) == lam * a.size as real + lam * b.size as real;
  }

  lemma CrossSign(a: real, b: real, c: real, d: real)
    requires b > 0.0 && d > 0.0
    ensures a * d < c * b <==> a / b < c / d
    ensures a * d == c * b <==> a / b == c / d
  {
    var q, r := a / b, c / d;
    assert a == q * b && c == r * d;
    assert a * d - c * b == (q - r) * (b * d);
    assert b * d > 0.0;
  }

  /** Cross-multiplied comparison is comparison of the quotients. */
  lemma CompareIsRate(a: FeeFrac, b: FeeFrac)
    requires a.size > 0 && b.size > 0
    ensures a.Lower(b) <==> Rate(a) < Rate(b)
    ensures a.SameRatio(b) <==> Rate(a) == Rate(b)
  {
    CrossSign(a.fee as real, a.size as real, b.fee as real, b.size as real);
    assert (a.fee * b.size) as real == a.fee as real * b.size as real;
    assert (b.fee * a.size) as real == b.fee as real * a.size as real;
  }

  /** The feerate of a sum lies between the feerates of its parts, strictly if they differ. */
  lemma Mediant(a: FeeFrac, b: FeeFrac)
    requires a.size > 0 && b.size > 0
    ensures Rate(a) < Rate(b) ==> Rate(a) < Rate(a.Plus(b)) < Rate(b)
    ensures Rate(a) == Rate(b) ==> Rate(a.Plus(b)) == Rate(a)
    ensures Rate(a) > Rate(b) ==> Rate(b) < Rate(a.Plus(b)) < Rate(a)
  {
    var s := a.Plus(b);
    GainPlus(a, b, Rate(a));
    GainPlus(a, b, Rate(b));
    GainSign(a, Rate(a));
    GainSign(b, Rate(a));
    GainSign(s, Rate(a));
    GainSign(a, Rate(b));
    GainSign(b, Rate(b));
    GainSign(s, Rate(b));
  }
}
