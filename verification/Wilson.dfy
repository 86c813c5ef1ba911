/**
 The 95% Wilson score interval of `wilsonInterval`, over exact reals.

 The square root is a parameter with its defining property, so every statement holds for the real
 square root and nothing is said about rounding.
 */
module Wilson {

  import opened Common

  datatype Interval = Interval(lower: real, upper: real, sampleSize: nat)

  const Z: real := 1.959963984540054

  function Max(a: real, b: real): real { if a < b then b else a }

  function Min(a: real, b: real): real { if a < b then a else b }

  function Proportion(s: nat, n: nat): real
    requires n > 0
  {
    s as real / n as real
  }

  /** What `Math.sqrt` is applied to. */
  function Radicand(s: nat, n: nat): real
    requires n > 0
  {
    var p := Proportion(s, n);
    (p * (1.0 - p) + Z * Z / (4.0 * n as real)) / n as real
  }

  predicate IsRoot(root: real, x: real) {
    root >= 0.0 && root * root == x
  }

  function Denominator(n: nat): (d: real)
    requires n > 0
    ensures d > 1.0
  {
    1.0 + Z * Z / n as real
  }

  function Center(s: nat, n: nat): real
    requires n > 0
  {
    (Proportion(s, n) + Z * Z / (2.0 * n as real)) / Denominator(n)
  }

  function Half(n: nat, root: real): real
    requires n > 0
  {
    Z * root / Denominator(n)
  }

  /** `None` is `BENCHMARK_INTERVAL_COUNTS_INVALID`. */
  function WilsonInterval(successes: int, sampleSize: int, root: real): Option<Interval> {
    if successes < 0 || sampleSize < successes then None
    else if sampleSize == 0 then Some(Interval(0.0, 1.0, 0))
    else
      var c, h := Center(successes, sampleSize), Half(sampleSize, root);
      Some(Interval(Max(0.0, c - h), Min(1.0, c + h), sampleSize))
  }

  // ---------------------------------------------------------------- the score test

  /**
   How far the observed proportion lies from a hypothetical proportion `x`, in squared standard
   errors of `x`, minus the critical value: the score test rejects `x` when this is positive.
   `w` is `z^2 / n`.
   */
  function Score(p: real, w: real, x: real): real {
    (p - x) * (p - x) - w * x * (1.0 - x)
  }

  function W(n: nat): (w: real)
    requires n > 0
    ensures w > 0.0
  {
    Z * Z / n as real
  }

  /** `Center` and `Half` in terms of `p` and `w`. */
  ghost predicate Solves(p: real, w: real, c: real, h: real) {
    && h >= 0.0 && (1.0 + w) * c == p + w / 2.0
    && ((1.0 + w) * h) * ((1.0 + w) * h) == w * (p * (1.0 - p) + w / 4.0)
  }

  lemma HalfSquared(s: nat, n: nat, root: real)
    requires n > 0 && IsRoot(root, Radicand(s, n))
    ensures (Z * root) * (Z * root) == W(n) * (Proportion(s, n) * (1.0 - Proportion(s, n)) + W(n) / 4.0)
  {
    var p, w, m := Proportion(s, n), W(n), n as real;
    var inner := p * (1.0 - p) + w / 4.0;
    assert Z * Z / (4.0 * m) == w / 4.0;
    assert root * root == inner / m;
    assert (Z * root) * (Z * root) == (Z * Z) * (root * root);
    assert (Z * Z) * (inner / m) == (Z * Z / m) * inner;
  }

  lemma Halved(a: real, m: real)
    requires m > 0.0
    ensures a / (2.0 * m) == a / m / 2.0
  {
  }

  lemma Quotient(a: real, d: real)
    requires d > 0.0
    ensures d * (a / d) == a && (a >= 0.0 ==> a / d >= 0.0)
  {
  }

  lemma FormulaSolves(s: nat, n: nat, root: real)
    requires n > 0 && IsRoot(root, Radicand(s, n))
    ensures Solves(Proportion(s, n), W(n), Center(s, n), Half(n, root))
  {
    hide Proportion, Radicand;
    HalfSquared(s, n, root);
    var p, w, d := Proportion(s, n), W(n), Denominator(n);
    Halved(Z * Z, n as real);
    Quotient(p + w / 2.0, d);
    Quotient(Z * root, d);
    Scale(Z, root);
  }

  /** Completing the square. */
  lemma ScoreIsQuadratic(p: real, w: real, c: real, h: real, x: real)
    requires w > 0.0 && Solves(p, w, c, h)
    ensures Score(p, w, x) == (1.0 + w) * ((x - c) * (x - c) - h * h)
  {
    var d := 1.0 + w;
    var y := d * x;
    var u := d * c;
    assert u == p + w / 2.0;
    assert (y - u) * (y - u) == d * d * ((x - c) * (x - c));
    assert (d * h) * (d * h) == d * d * (h * h);
    assert (y - u) * (y - u) - (d * h) * (d * h) == d * (d * ((x - c) * (x - c) - h * h));
    Expanded(p, w, x);
    assert d * Score(p, w, x) == d * (d * ((x - c) * (x - c) - h * h));
  }

  lemma Expanded(p: real, w: real, x: real)
    ensures var y := (1.0 + w) * x - (p + w / 2.0);
            y * y - w * (p * (1.0 - p) + w / 4.0) == (1.0 + w) * Score(p, w, x)
  {
    var a := (1.0 + w) * x;
    var b := p + w / 2.0;
    assert (a - b) * (a - b) == a * a - 2.0 * a * b + b * b;
    assert a * a == x * x + 2.0 * w * x * x + w * w * x * x;
    assert a * b == x * p + x * w / 2.0 + w * x * p + w * w * x / 2.0;
    assert b * b == p * p + p * w + w * w / 4.0;
    assert Score(p, w, x) == p * p - 2.0 * p * x + x * x - w * x + w * x * x;
  }

  lemma SquareBound(y: real, h: real)
    requires h >= 0.0
    ensures y * y - h * h <= 0.0 <==> -h <= y <= h
    ensures y * y - h * h == 0.0 <==> y == h || y == -h
  {
    assert y * y - h * h == (y - h) * (y + h);
  }

  lemma ProductSign(d: real, q: real)
    requires d > 0.0
    ensures d * q <= 0.0 <==> q <= 0.0
    ensures d * q == 0.0 <==> q == 0.0
  {
  }

  /** The score test keeps exactly the proportions between the two unclamped endpoints, which are its zeros. */
  lemma ScoreSign(p: real, w: real, c: real, h: real, x: real)
    requires w > 0.0 && Solves(p, w, c, h)
    ensures Score(p, w, x) <= 0.0 <==> c - h <= x <= c + h
    ensures Score(p, w, x) == 0.0 <==> x == c - h || x == c + h
  {
    ScoreIsQuadratic(p, w, c, h, x);
    ProductSign(1.0 + w, (x - c) * (x - c) - h * h);
    SquareBound(x - c, h);
  }

  lemma ScoreOutside(p: real, w: real, x: real)
    requires w > 0.0 && 0.0 <= p <= 1.0 && (x < 0.0 || x > 1.0)
    ensures Score(p, w, x) > 0.0
  {
    assert x * (1.0 - x) < 0.0 by {
      if x < 0.0 {
        Scale(1.0 - x, x);
      } else {
        Scale(x, 1.0 - x);
      }
    }
    Scale(w, x * (1.0 - x));
    assert w * x * (1.0 - x) == w * (x * (1.0 - x));
    SquareIsPositive(p - x);
  }

  lemma SquareIsPositive(y: real)
    requires y != 0.0
    ensures y * y > 0.0
  {
    if y > 0.0 {
      Scale(y, y);
    } else {
      Scale(-y, -y);
    }
  }

  lemma ScoreAtObserved(p: real, w: real)
    requires w > 0.0 && 0.0 <= p <= 1.0
    ensures Score(p, w, p) <= 0.0
  {
    if p > 0.0 {
      Scale(p, 1.0 - p);
    }
    Scale(w, p * (1.0 - p));
    assert w * p * (1.0 - p) == w * (p * (1.0 - p));
  }

  lemma Scale(w: real, y: real)
    requires w > 0.0
    ensures y < 0.0 ==> w * y < 0.0
    ensures y > 0.0 ==> w * y > 0.0
    ensures y == 0.0 ==> w * y == 0.0
  {
  }

  lemma ProportionBounds(s: nat, n: nat)
    requires s <= n && n > 0
    ensures 0.0 <= Proportion(s, n) <= 1.0
  {
  }

  // ---------------------------------------------------------------- main results

  /**
   For all counts with a nonempty sample: the clamps never change an endpoint, the interval lies
   in [0, 1] around the observed proportion, and it holds exactly the proportions the score test
   at this level does not reject; its two endpoints are the test's zeros.
   */
  lemma IntervalIsScoreTest(s: nat, n: nat, root: real, x: real)
    requires s <= n && n > 0 && IsRoot(root, Radicand(s, n))
    ensures var i := WilsonInterval(s, n, root);
            && i.Some? && i.value.lower == Center(s, n) - Half(n, root) && i.value.upper == Center(s, n) + Half(n, root)
            && 0.0 <= i.value.lower <= Proportion(s, n) <= i.value.upper <= 1.0
            && (i.value.lower <= x <= i.value.upper <==> Score(Proportion(s, n), W(n), x) <= 0.0)
            && (x == i.value.lower || x == i.value.upper <==> Score(Proportion(s, n), W(n), x) == 0.0)
  {
    var p, w, c, h := Proportion(s, n), W(n), Center(s, n), Half(n, root);
    ProportionBounds(s, n);
    FormulaSolves(s, n, root);
    ScoreSign(p, w, c, h, c - h);
    ScoreSign(p, w, c, h, c + h);
    ScoreSign(p, w, c, h, p);
    ScoreAtObserved(p, w);
    if c - h < 0.0 {
      ScoreOutside(p, w, c - h);
    }
    if c + h > 1.0 {
      ScoreOutside(p, w, c + h);
    }
    ScoreSign(p, w, c, h, x);
  }

  /** Both endpoints solve the equation of the 95% score interval, at the quantile the code uses. */
  lemma EndpointsSolve(s: nat, n: nat, root: real)
    requires s <= n && n > 0 && IsRoot(root, Radicand(s, n))
    ensures var i, p := WilsonInterval(s, n, root), Proportion(s, n);
            && i.Some?
            && (p - i.value.lower) * (p - i.value.lower) == 1.959963984540054 * 1.959963984540054 / n as real * i.value.lower * (1.0 - i.value.lower)
            && (p - i.value.upper) * (p - i.value.upper) == 1.959963984540054 * 1.959963984540054 / n as real * i.value.upper * (1.0 - i.value.upper)
  {
    hide Radicand, Center, Half, Proportion, Score, IsRoot, WilsonInterval;
    IntervalIsScoreTest(s, n, root, 0.0);
    var i, p := WilsonInterval(s, n, root).value, Proportion(s, n);
    IntervalIsScoreTest(s, n, root, i.lower);
    IntervalIsScoreTest(s, n, root, i.upper);
    ZeroMeans(p, W(n), i.lower);
    ZeroMeans(p, W(n), i.upper);
  }

  lemma ZeroMeans(p: real, w: real, x: real)
    requires Score(p, w, x) == 0.0
    ensures (p - x) * (p - x) == w * x * (1.0 - x)
  {
  }

  lemma MirroredCenter(s: nat, n: nat)
    requires s <= n && n > 0
    ensures Proportion(n - s, n) == 1.0 - Proportion(s, n) && Center(n - s, n) == 1.0 - Center(s, n)
  {
    MirroredProportion(s, n);
    hide Proportion;
    Halved(Z * Z, n as real);
    SumOfQuotients(Proportion(s, n) + W(n) / 2.0, Proportion(n - s, n) + W(n) / 2.0, Denominator(n));
  }

  lemma MirroredProportion(s: nat, n: nat)
    requires s <= n && n > 0
    ensures Proportion(n - s, n) == 1.0 - Proportion(s, n)
  {
    assert (n - s) as real == n as real - s as real;
    SumOfQuotients(s as real, (n - s) as real, n as real);
  }

  lemma SumOfQuotients(a: real, b: real, d: real)
    requires d > 0.0 && a + b == d
    ensures a / d + b / d == 1.0
  {
  }

  lemma MirroredRadicand(s: nat, n: nat)
    requires s <= n && n > 0
    ensures Radicand(n - s, n) == Radicand(s, n)
  {
    MirroredCenter(s, n);
    hide Proportion, Center;
    MirroredProduct(Proportion(s, n), Proportion(n - s, n));
  }

  lemma MirroredProduct(p: real, q: real)
    requires q == 1.0 - p
    ensures q * (1.0 - q) == p * (1.0 - p)
  {
  }

  lemma MirroredEnds(s: nat, n: nat, root: real)
    requires s <= n && n > 0 && IsRoot(root, Radicand(s, n)) && IsRoot(root, Radicand(n - s, n))
    requires Center(n - s, n) == 1.0 - Center(s, n)
    ensures var i, j := WilsonInterval(s, n, root), WilsonInterval(n - s, n, root);
            i.Some? && j.Some? && j.value.lower == 1.0 - i.value.upper && j.value.upper == 1.0 - i.value.lower
  {
    hide Radicand, Center, Half, W, Proportion, Score, IsRoot;
    IntervalIsScoreTest(s, n, root, 0.0);
    IntervalIsScoreTest(n - s, n, root, 0.0);
  }

  /** Counting failures instead of successes mirrors the interval. */
  lemma IntervalMirrors(s: nat, n: nat, root: real)
    requires s <= n && n > 0 && IsRoot(root, Radicand(s, n))
    ensures IsRoot(root, Radicand(n - s, n))
    ensures var i, j := WilsonInterval(s, n, root), WilsonInterval(n - s, n, root);
            i.Some? && j.Some? && j.value.lower == 1.0 - i.value.upper && j.value.upper == 1.0 - i.value.lower
  {
    MirroredCenter(s, n);
    MirroredRadicand(s, n);
    MirroredEnds(s, n, root);
  }

  lemma ScoreCloser(p: real, q: real, w: real, x: real)
    requires x <= p <= q || q <= p <= x
    ensures Score(p, w, x) <= Score(q, w, x)
  {
    SquareGrows(p - x, q - x);
  }

  lemma SquareGrows(a: real, b: real)
    requires 0.0 <= a <= b || b <= a <= 0.0
    ensures a * a <= b * b
  {
    assert b * b - a * a == (b - a) * (b + a);
  }

  lemma ProportionGrows(s: nat, t: nat, n: nat)
    requires s <= t && n > 0
    ensures Proportion(s, n) <= Proportion(t, n)
  {
  }

  /** More successes never lower either endpoint. */
  lemma IntervalIsMonotone(s: nat, t: nat, n: nat, rootS: real, rootT: real)
    requires s <= t <= n && n > 0 && IsRoot(rootS, Radicand(s, n)) && IsRoot(rootT, Radicand(t, n))
    ensures var i, j := WilsonInterval(s, n, rootS), WilsonInterval(t, n, rootT);
            i.Some? && j.Some? && i.value.lower <= j.value.lower && i.value.upper <= j.value.upper
  {
    hide Radicand, Center, Half, W, Proportion, Score, IsRoot;
    var p, q, w := Proportion(s, n), Proportion(t, n), W(n);
    ProportionGrows(s, t, n);
    var i, j := WilsonInterval(s, n, rootS), WilsonInterval(t, n, rootT);
    var low, high := j.value.lower, i.value.upper;
    IntervalIsScoreTest(t, n, rootT, low);
    IntervalIsScoreTest(s, n, rootS, low);
    IntervalIsScoreTest(s, n, rootS, high);
    IntervalIsScoreTest(t, n, rootT, high);
    if low < p {
      ScoreCloser(p, q, w, low);
    }
    if high > q {
      ScoreCloser(q, p, w, high);
    }
  }
}
