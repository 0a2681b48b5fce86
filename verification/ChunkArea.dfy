/** The area under a feerate diagram, and by how much it grows when the diagram rises at one threshold. */
module ChunkArea {
  import opened FeeFracs
  import opened ChunkLists

  /** Twice the area below the piece of chunk `c` after the chunks that sum to `a`. */
  ghost function Trapezoid(a: FeeFrac, c: FeeFrac): real {
    c.size as real * (a.fee as real + a.Plus(c).fee as real)
  }

  /** Twice the area under the diagram. */
  ghost function TwiceArea(cs: seq<FeeFrac>): real {
    if cs == [] then 0.0
    else TwiceArea(cs[..|cs| - 1]) + Trapezoid(Sum(cs[..|cs| - 1]), cs[|cs| - 1])
  }

  // ---- The area in pieces of size one

  /** Twice the area under the diagram from size `a` to size `b`. */
  ghost function Between(cs: seq<FeeFrac>, a: nat, b: nat): real
    requires Sized(cs) && a <= b
    decreases b
  {
    if a == b then 0.0 else Between(cs, a, b - 1) + At(cs, (b - 1) as real) + At(cs, b as real)
  }

  lemma {:induction false} BetweenSplit(cs: seq<FeeFrac>, a: nat, b: nat, c: nat)
    requires Sized(cs) && a <= b <= c
    ensures Between(cs, a, c) == Between(cs, a, b) + Between(cs, b, c)
    decreases c
  {
    hide At;
    if b < c { BetweenSplit(cs, a, b, c - 1); }
  }

  lemma {:induction false} AtPrefix(cs: seq<FeeFrac>, n: nat, x: real)
    requires Sized(cs) && n <= |cs| && x <= Sum(cs[..n]).size as real
    ensures At(cs, x) == At(cs[..n], x)
    decreases |cs|
  {
    if n == |cs| {
      assert cs[..n] == cs;
    } else {
      var k := |cs| - 1;
      assert cs[..k][..n] == cs[..n];
      SumGrows(cs, n, k);
      AtPrefix(cs[..k], n, x);
      if x == Sum(cs[..k]).size as real {
        AtEnd(cs[..k], x);
        AtSum(cs, k);
      }
    }
  }

  lemma {:induction false} BetweenPrefix(cs: seq<FeeFrac>, n: nat, b: nat)
    requires Sized(cs) && n <= |cs| && b <= Sum(cs[..n]).size
    ensures Between(cs, 0, b) == Between(cs[..n], 0, b)
    decreases b
  {
    hide At, Sum;
    if b > 0 {
      BetweenPrefix(cs, n, b - 1);
      AtPrefix(cs, n, (b - 1) as real);
      AtPrefix(cs, n, b as real);
    }
  }

  lemma LineStep(a: FeeFrac, c: FeeFrac, k: nat)
    requires c.size > 0
    ensures LineAt(a, c, (a.size + k) as real) == a.fee as real + Rate(c) * k as real
  {
    assert (a.size + k) as real - a.size as real == k as real;
  }

  /** Twice the area of the first `n` units below a line through `u` with slope `k`. */
  ghost function Units(u: real, k: real, n: nat): real {
    2.0 * u * n as real + k * (n * n) as real
  }

  /** On one piece, the area of the first `k` units. */
  lemma {:induction false} PieceUnits(cs: seq<FeeFrac>, i: nat, k: nat)
    requires Sized(cs) && i < |cs| && k <= cs[i].size
    ensures Sum(cs[..i]).size >= 0
    ensures var a := Sum(cs[..i]);
            Between(cs, a.size, a.size + k) == Units(a.fee as real, Rate(cs[i]), k)
    decreases k
  {
    hide At, LineAt, Rate;
    var a, q := Sum(cs[..i]), Rate(cs[i]);
    SumGrows(cs, i, i);
    SumNext(cs, i);
    if k > 0 {
      PieceUnits(cs, i, k - 1);
      AtPiece(cs, i, (a.size + k - 1) as real);
      AtPiece(cs, i, (a.size + k) as real);
      LineStep(a, cs[i], k - 1);
      LineStep(a, cs[i], k);
      UnitSum(a.fee as real, q, k);
    }
  }

  lemma UnitSum(f: real, q: real, k: nat)
    requires k > 0
    ensures Units(f, q, k - 1) + (f + q * (k - 1) as real) + (f + q * k as real) == Units(f, q, k)
  {
    var x := k as real;
    assert (k - 1) as real == x - 1.0;
    assert ((k - 1) * (k - 1)) as real == (x - 1.0) * (x - 1.0);
    assert (k * k) as real == x * x;
    assert q * ((x - 1.0) * (x - 1.0)) == q * (x * x) - 2.0 * (q * x) + q;
    assert q * (x - 1.0) == q * x - q;
  }

  lemma PieceArea(cs: seq<FeeFrac>, i: nat)
    requires Sized(cs) && i < |cs|
    ensures Sum(cs[..i]).size >= 0
    ensures var a := Sum(cs[..i]); Between(cs, a.size, a.size + cs[i].size) == Trapezoid(a, cs[i])
  {
    hide At;
    var a, c := Sum(cs[..i]), cs[i];
    PieceUnits(cs, i, c.size);
    var s, f := c.size as real, c.fee as real;
    assert (c.size * c.size) as real == s * s;
    assert Rate(c) * s == f;
    assert Rate(c) * (s * s) == (Rate(c) * s) * s;
  }

  lemma {:induction false} AreaInUnits(cs: seq<FeeFrac>)
    requires Sized(cs)
    ensures Sum(cs).size >= 0 && Between(cs, 0, Sum(cs).size) == TwiceArea(cs)
    decreases |cs|
  {
    hide At, Trapezoid;
    if cs != [] {
      var n := |cs| - 1;
      AreaInUnits(cs[..n]);
      var a := Sum(cs[..n]);
      BetweenPrefix(cs, n, a.size);
      PieceArea(cs, n);
      BetweenSplit(cs, 0, a.size, a.size + cs[n].size);
    }
  }

  // ---- Concavity

  lemma LineWeights(h: real, lam: real, a: real, x: real, b: real, va: real, vx: real, vb: real)
    requires a <= x <= b && va <= h + Rise(lam, a) && vb <= h + Rise(lam, b) && vx == h + Rise(lam, x)
    ensures Rise(b - a, vx) >= Rise(b - x, va) + Rise(x - a, vb)
  {
    assert (b - x) * va <= (b - x) * (h + lam * a);
    assert (x - a) * vb <= (x - a) * (h + lam * b);
    assert (b - x) * (h + lam * a) + (x - a) * (h + lam * b) == (b - a) * (h + lam * x);
  }

  lemma Concave(cs: seq<FeeFrac>, a: real, x: real, b: real)
    requires Descending(cs) && cs != [] && 0.0 <= a <= x <= b <= Sum(cs).size as real
    ensures Rise(b - a, At(cs, x)) >= Rise(b - x, At(cs, a)) + Rise(x - a, At(cs, b))
  {
    hide At, Height, Rate, Rise, LineAt;
    var i := PieceOf(cs, x);
    var lam := Rate(cs[i]);
    AtIsHeight(cs, i, x);
    AtBelowHeight(cs, a, lam);
    AtBelowHeight(cs, b, lam);
    LineWeights(Height(cs, lam), lam, a, x, b, At(cs, a), At(cs, x), At(cs, b));
  }

  /** The difference of the diagrams. */
  ghost function Over(ds: seq<FeeFrac>, cs: seq<FeeFrac>, x: nat): real
    requires Sized(ds) && Sized(cs)
  {
    At(ds, x as real) - At(cs, x as real)
  }

  /** The difference is above the line through `u` at size `a` with slope `k`, up to size `b`. */
  ghost predicate AboveLine(ds: seq<FeeFrac>, cs: seq<FeeFrac>, a: nat, b: nat, u: real, k: real)
    requires Sized(ds) && Sized(cs)
  {
    forall x: nat | a <= x <= b :: Over(ds, cs, x) >= u + Rise(k, (x - a) as real)
  }

  lemma {:induction false} AreaAboveLine(ds: seq<FeeFrac>, cs: seq<FeeFrac>, a: nat, b: nat, u: real, k: real, n: nat)
    requires Sized(ds) && Sized(cs) && AboveLine(ds, cs, a, b, u, k) && a + n <= b
    ensures Between(ds, a, a + n) - Between(cs, a, a + n) >= Units(u, k, n)
    decreases n
  {
    hide At;
    if n > 0 {
      AreaAboveLine(ds, cs, a, b, u, k, n - 1);
      assert Over(ds, cs, a + n - 1) >= u + k * (n - 1) as real;
      assert Over(ds, cs, a + n) >= u + k * n as real;
      UnitSum(u, k, n);
    }
  }

  /** Then twice the area grows by the size times what the ends are up. */
  lemma AreaBelowLine(ds: seq<FeeFrac>, cs: seq<FeeFrac>, a: nat, b: nat, u: real, v: real, k: real)
    requires Sized(ds) && Sized(cs) && a <= b && AboveLine(ds, cs, a, b, u, k) && Rise(k, (b - a) as real) == v - u
    ensures Between(ds, a, b) - Between(cs, a, b) >= Rise((b - a) as real, u + v)
  {
    hide At, AboveLine, Between, Rise, Units;
    AreaAboveLine(ds, cs, a, b, u, k, b - a);
    Closed(b - a, u, v, k);
  }

  lemma Closed(n: nat, u: real, v: real, k: real)
    requires Rise(k, n as real) == v - u
    ensures Units(u, k, n) == Rise(n as real, u + v)
  {
    var w := n as real;
    assert (n * n) as real == w * w;
    assert k * (w * w) == (k * w) * w == (v - u) * w;
  }

  lemma {:induction false} AreaNotLess(ds: seq<FeeFrac>, cs: seq<FeeFrac>, a: nat, b: nat)
    requires Sized(ds) && Sized(cs) && NowhereLower(ds, cs) && a <= b
    ensures Between(ds, a, b) >= Between(cs, a, b)
    decreases b
  {
    hide At;
    if a < b {
      AreaNotLess(ds, cs, a, b - 1);
      assert At(ds, (b - 1) as real) >= At(cs, (b - 1) as real) && At(ds, b as real) >= At(cs, b as real);
    }
  }

  // ---- The area grows

  /** The diagram of `ds` is `u` above the line that is as high as `lam` allows for `cs`. */
  ghost predicate UpBy(ds: seq<FeeFrac>, cs: seq<FeeFrac>, lam: real, x: nat, u: real)
    requires Sized(ds) && Sized(cs)
  {
    At(ds, x as real) >= Height(cs, lam) + Rise(lam, x as real) + u
  }

  /** What it is up at two sizes, it is up at least in proportion between them. */
  lemma UpBetween(ds: seq<FeeFrac>, cs: seq<FeeFrac>, lam: real, a: nat, b: nat, u: real, v: real, k: real)
    requires Descending(ds) && ds != [] && Sized(cs) && Sum(ds) == Sum(cs) && a <= b <= Sum(ds).size
    requires UpBy(ds, cs, lam, a, u) && UpBy(ds, cs, lam, b, v) && Rise(k, (b - a) as real) == v - u
    ensures AboveLine(ds, cs, a, b, u, k)
  {
    hide At, Height, Rise, Sum, UpBy;
    forall x: nat | a <= x <= b ensures Over(ds, cs, x) >= u + Rise(k, (x - a) as real) {
      UpAt(ds, cs, lam, a, b, u, v, k, x);
    }
  }

  lemma UpAt(ds: seq<FeeFrac>, cs: seq<FeeFrac>, lam: real, a: nat, b: nat, u: real, v: real, k: real, x: nat)
    requires Descending(ds) && ds != [] && Sized(cs) && Sum(ds) == Sum(cs) && a <= x <= b <= Sum(ds).size
    requires UpBy(ds, cs, lam, a, u) && UpBy(ds, cs, lam, b, v) && Rise(k, (b - a) as real) == v - u
    ensures Over(ds, cs, x) >= u + Rise(k, (x - a) as real)
  {
    hide At, Height, Rise, Sum;
    AtBelowHeight(cs, x as real, lam);
    Concave(ds, a as real, x as real, b as real);
    assert (b - a) as real == b as real - a as real && (x - a) as real == x as real - a as real;
    Proportion(Height(cs, lam), lam, a as real, x as real, b as real, At(ds, a as real), At(ds, x as real),
               At(ds, b as real), At(cs, x as real), u, v, k);
  }

  lemma Proportion(h: real, lam: real, a: real, x: real, b: real, va: real, vx: real, vb: real, w: real, u: real,
                   v: real, k: real)
    requires a <= x <= b && Rise(b - a, vx) >= Rise(b - x, va) + Rise(x - a, vb) && (a == b ==> vx == va)
    requires va >= h + Rise(lam, a) + u && vb >= h + Rise(lam, b) + v && w <= h + Rise(lam, x)
    requires Rise(k, b - a) == v - u
    ensures vx - w >= u + Rise(k, x - a)
  {
    if a == b {
      assert x - a == 0.0;
    } else {
      Weighted(h, lam, a, x, b, va, vx, vb, w, u, v);
      var d, r := b - a, x - a;
      assert (b - x) * u + (x - a) * v == d * u + r * (v - u);
      assert r * (v - u) == r * (k * d) == d * (k * r);
      assert d * (vx - w) >= d * (u + k * r);
      Divide(d, vx - w, u + k * r);
    }
  }

  lemma Weighted(h: real, lam: real, a: real, x: real, b: real, va: real, vx: real, vb: real, w: real, u: real, v: real)
    requires a <= x <= b && Rise(b - a, vx) >= Rise(b - x, va) + Rise(x - a, vb)
    requires va >= h + Rise(lam, a) + u && vb >= h + Rise(lam, b) + v && w <= h + Rise(lam, x)
    ensures (b - a) * (vx - w) >= (b - x) * u + (x - a) * v
  {
    assert (b - x) * va >= (b - x) * (h + lam * a + u);
    assert (x - a) * vb >= (x - a) * (h + lam * b + v);
    assert (b - a) * w <= (b - a) * (h + lam * x);
    assert (b - x) * (h + lam * a + u) + (x - a) * (h + lam * b + v) ==
           (b - a) * (h + lam * x) + (b - x) * u + (x - a) * v;
    assert (b - a) * (vx - w) == (b - a) * vx - (b - a) * w;
  }

  lemma Divide(d: real, p: real, q: real)
    requires d > 0.0 && d * p >= d * q
    ensures p >= q
  {
    assert d * (p - q) >= 0.0;
  }

  ghost function Slope(u: real, v: real, n: nat): real {
    if n == 0 then 0.0 else (v - u) / n as real
  }

  lemma SlopeRises(u: real, v: real, n: nat)
    requires n == 0 ==> u == v
    ensures Rise(Slope(u, v, n), n as real) == v - u
  {
  }

  /** From a size where it is up by `u` to one where it is up by `v`. */
  lemma AreaFromTo(ds: seq<FeeFrac>, cs: seq<FeeFrac>, lam: real, a: nat, b: nat, u: real, v: real)
    requires Descending(ds) && ds != [] && Sized(cs) && Sum(ds) == Sum(cs) && a <= b <= Sum(ds).size
    requires UpBy(ds, cs, lam, a, u) && UpBy(ds, cs, lam, b, v) && (a == b ==> u == v)
    ensures Between(ds, a, b) - Between(cs, a, b) >= Rise((b - a) as real, u + v)
  {
    hide At, Height, Rise, UpBy, AboveLine, Between, Slope, Sum;
    var k := Slope(u, v, b - a);
    SlopeRises(u, v, b - a);
    UpBetween(ds, cs, lam, a, b, u, v, k);
    AreaBelowLine(ds, cs, a, b, u, v, k);
  }

  /** If the diagram is nowhere lower and pays `h` more above the feerate of one of the old chunks, twice the area grows
      by at least `h` times the size of that chunk. */
  lemma AreaGrows(ds: seq<FeeFrac>, cs: seq<FeeFrac>, k: nat, h: real)
    requires Descending(ds) && Descending(cs) && Sum(ds) == Sum(cs) && NowhereLower(ds, cs) && k < |cs|
    requires h >= 0.0 && Height(ds, Rate(cs[k])) == Height(cs, Rate(cs[k])) + h
    ensures TwiceArea(ds) >= TwiceArea(cs) + Rise(h, cs[k].size as real)
  {
    hide At, Height, Rise, Between, TwiceArea, Rate, NowhereLower, UpBy;
    var lam := Rate(cs[k]);
    var y := Apex(ds, cs, lam, h);
    ChunkRange(cs, k);
    var p, q := Sum(cs[..k]).size, Sum(cs[..k + 1]).size;
    OnLine(ds, cs, k, p);
    OnLine(ds, cs, k, q);
    NotEmpty(ds, cs, k);
    AreaThree(ds, cs, lam, p, q, y, h);
  }

  /** Some point of `ds` is up by `h`. */
  lemma Apex(ds: seq<FeeFrac>, cs: seq<FeeFrac>, lam: real, h: real) returns (y: nat)
    requires Descending(ds) && Sized(cs) && Height(ds, lam) == Height(cs, lam) + h
    ensures y <= Sum(ds).size && UpBy(ds, cs, lam, y, h)
  {
    hide At, Height, Rise;
    var i := HeightReached(ds, lam);
    y := Sum(ds[..i]).size;
  }

  lemma ChunkRange(cs: seq<FeeFrac>, k: nat)
    requires Sized(cs) && k < |cs|
    ensures 0 <= Sum(cs[..k]).size && Sum(cs[..k + 1]).size == Sum(cs[..k]).size + cs[k].size <= Sum(cs).size
  {
    SumGrows(cs, 0, k);
    SumGrows(cs, k + 1, |cs|);
    SumNext(cs, k);
    assert cs[..|cs|] == cs;
  }

  lemma NotEmpty(ds: seq<FeeFrac>, cs: seq<FeeFrac>, k: nat)
    requires Sized(cs) && k < |cs| && Sum(ds) == Sum(cs)
    ensures ds != []
  {
    ChunkRange(cs, k);
  }

  /** At the ends of the chunk the old diagram is on the line, and the new one not below it. */
  lemma OnLine(ds: seq<FeeFrac>, cs: seq<FeeFrac>, k: nat, x: nat)
    requires Sized(ds) && Descending(cs) && NowhereLower(ds, cs) && k < |cs|
    requires Sum(cs[..k]).size <= x <= Sum(cs[..k + 1]).size
    ensures UpBy(ds, cs, Rate(cs[k]), x, 0.0)
  {
    hide At, Height, Rise, Rate;
    AtIsHeight(cs, k, x as real);
    assert At(ds, x as real) >= At(cs, x as real);
  }

  lemma Parts(cs: seq<FeeFrac>, lo: nat, y: nat, hi: nat)
    requires Sized(cs) && lo <= y <= hi <= Sum(cs).size
    ensures TwiceArea(cs) ==
            Between(cs, 0, lo) + Between(cs, lo, y) + Between(cs, y, hi) + Between(cs, hi, Sum(cs).size)
  {
    hide TwiceArea, Between, At;
    AreaInUnits(cs);
    BetweenSplit(cs, 0, lo, Sum(cs).size);
    BetweenSplit(cs, lo, y, Sum(cs).size);
    BetweenSplit(cs, y, hi, Sum(cs).size);
  }

  /** The triangle over the chunk from `p` to `q` with its apex at `y`, wherever that is. */
  lemma AreaThree(ds: seq<FeeFrac>, cs: seq<FeeFrac>, lam: real, p: nat, q: nat, y: nat, h: real)
    requires Descending(ds) && ds != [] && Sized(cs) && Sum(ds) == Sum(cs) && NowhereLower(ds, cs)
    requires p <= q <= Sum(ds).size && y <= Sum(ds).size && h >= 0.0
    requires UpBy(ds, cs, lam, p, 0.0) && UpBy(ds, cs, lam, q, 0.0) && UpBy(ds, cs, lam, y, h)
    ensures TwiceArea(ds) >= TwiceArea(cs) + Rise(h, (q - p) as real)
  {
    hide At, Height, Rise, Between, TwiceArea, NowhereLower, UpBy, Sum;
    var lo, hi := if p < y then p else y, if q > y then q else y;
    var u, v := if p < y then 0.0 else h, if q > y then 0.0 else h;
    AreaFromTo(ds, cs, lam, lo, y, u, h);
    AreaFromTo(ds, cs, lam, y, hi, h, v);
    AreaNotLess(ds, cs, 0, lo);
    AreaNotLess(ds, cs, hi, Sum(cs).size);
    Parts(ds, lo, y, hi);
    Parts(cs, lo, y, hi);
    Widths(p, q, y, lo, hi, h, u, v);
  }

  lemma Widths(p: nat, q: nat, y: nat, lo: nat, hi: nat, h: real, u: real, v: real)
    requires p <= q && h >= 0.0 && u >= 0.0 && v >= 0.0
    requires lo == (if p < y then p else y) && hi == if q > y then q else y
    ensures Rise((y - lo) as real, u + h) + Rise((hi - y) as real, h + v) >= Rise(h, (q - p) as real)
  {
    var a, b := (y - lo) as real, (hi - y) as real;
    assert a + b >= (q - p) as real;
    assert a * (u + h) >= a * h && b * (h + v) >= b * h;
    assert a * h + b * h == h * (a + b);
    assert h * (a + b) >= h * (q - p) as real;
  }
}
