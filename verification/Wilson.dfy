/** `harness/stats.py`, `wilson_interval`, over the reals. */
module Wilson {
  ghost predicate IsSqrt(sqrt: real -> real) { forall x: real :: x >= 0.0 ==> sqrt(x) >= 0.0 && sqrt(x) * sqrt(x) == x }

  datatype Interval = Interval(low: real, high: real)

  function Denom(n: real, z: real): real
    requires n > 0.0
  {
    1.0 + z * z / n
  }

  lemma DenomPositive(n: real, z: real)
    requires n > 0.0
    ensures Denom(n, z) >= 1.0
  {
    assert z * z >= 0.0;
  }

  function Radicand(p: real, n: real, z: real): real
    requires n > 0.0
  {
    p * (1.0 - p) / n + z * z / (4.0 * n * n)
  }

  function Centre(p: real, n: real, z: real): real
    requires n > 0.0
  {
    DenomPositive(n, z);
    (p + z * z / (2.0 * n)) / Denom(n, z)
  }

  function Margin(p: real, n: real, z: real, sqrt: real -> real): real
    requires n > 0.0
  {
    DenomPositive(n, z);
    z * sqrt(Radicand(p, n, z)) / Denom(n, z)
  }

  /** The bounds before they are clamped. */
  function Bounds(p: real, n: real, z: real, sqrt: real -> real): Interval
    requires n > 0.0
  {
    Interval(Centre(p, n, z) - Margin(p, n, z, sqrt), Centre(p, n, z) + Margin(p, n, z, sqrt))
  }

  function Clamp(i: Interval): Interval {
    Interval(if i.low > 0.0 then i.low else 0.0, if i.high < 1.0 then i.high else 1.0)
  }

  function WilsonInterval(successes: int, trials: int, z: real, sqrt: real -> real): Interval {
    if trials <= 0 then Interval(0.0, 0.0)
    else Clamp(Bounds(successes as real / trials as real, trials as real, z, sqrt))
  }

  // ---- Algebra ----

  lemma MulNonNeg(a: real, b: real)
    requires a >= 0.0 && b >= 0.0
    ensures a * b >= 0.0
  {
  }

  lemma MulPos(a: real, b: real)
    requires a > 0.0 && b > 0.0
    ensures a * b > 0.0
  {
  }

  lemma DivTimes(a: real, b: real)
    requires b != 0.0
    ensures a / b * b == a
  {
  }

  lemma DivUnique(t: real, k: real, u: real)
    requires k != 0.0 && u * k == t
    ensures t / k == u
  {
    DivTimes(t, k);
    assert (t / k - u) * k == 0.0;
  }

  lemma DivNonNeg(a: real, b: real)
    requires a >= 0.0 && b > 0.0
    ensures a / b >= 0.0
  {
    DivTimes(a, b);
    SignOfFactor(a / b, b);
  }

  lemma SignOfFactor(a: real, b: real)
    requires b > 0.0
    ensures a * b >= 0.0 ==> a >= 0.0
  {
    if a < 0.0 { MulPos(-a, b); }
  }

  lemma MulDiv(t: real, q: real, n: real)
    requires n != 0.0
    ensures t * (q / n) == t / n * q
  {
    DivTimes(q, n);
    DivTimes(t, n);
    DivUnique(t * q, n, t * (q / n));
    DivUnique(t * q, n, t / n * q);
  }

  lemma HalfDiv(t: real, n: real)
    requires n > 0.0
    ensures t / (2.0 * n) == t / n / 2.0
  {
    DivTimes(t, n);
    DivUnique(t, 2.0 * n, t / n / 2.0);
  }

  lemma QuarterDiv(t: real, n: real)
    requires n > 0.0
    ensures 4.0 * n * n > 0.0 && t / (4.0 * n * n) == t / n / n / 4.0
  {
    var k := FourSquares(n);
    DivTimes(t, n);
    DivTimes(t / n, n);
    QuarterFrom(t, n, t / n, t / n / n, t / n / n / 4.0, k);
  }

  lemma QuarterFrom(t: real, n: real, w: real, v: real, u: real, k: real)
    requires w * n == t && v * n == w && u * 4.0 == v && k == 4.0 * n * n && k > 0.0
    ensures t / k == u
  {
    FourTimes(u, n, v, w, t, k);
    DivUnique(t, k, u);
  }

  lemma FourSquares(n: real) returns (k: real)
    requires n > 0.0
    ensures k == 4.0 * n * n && k > 0.0
  {
    var m := 4.0 * n;
    MulPos(m, n);
    k := m * n;
  }

  lemma FourTimes(u: real, n: real, v: real, w: real, t: real, k: real)
    requires u * 4.0 == v && v * n == w && w * n == t && k == 4.0 * n * n
    ensures u * k == t
  {
    assert u * (4.0 * n * n) == u * 4.0 * n * n;
  }

  lemma Quarter(t: real, v: real, s: real)
    requires t * v == s
    ensures t * (v / 4.0) == s / 4.0
  {
  }

  lemma Distribute(t: real, a: real, b: real, x: real, y: real)
    requires t * a == x && t * b == y
    ensures t * (a + b) == x + y
  {
  }

  /** With w = z*z/n, the bounds are where the square of `D*x - (p + w/2)` is `w*p*(1-p) + w*w/4`. */
  lemma Square(p: real, w: real, x: real)
    ensures
      var d, y := 1.0 + w, (1.0 + w) * x - (p + w / 2.0);
      y * y - (w * (p * (1.0 - p)) + w * w / 4.0) == d * ((p - x) * (p - x) - w * (x * (1.0 - x)))
  {
    var d, a := 1.0 + w, p + w / 2.0;
    var y := d * x - a;
    assert y * y == d * x * (d * x) - 2.0 * (d * x) * a + a * a;
    assert d * x * (d * x) == d * (d * x * x);
    assert a * a == p * p + p * w + w * w / 4.0;
    assert w * (p * (1.0 - p)) == w * p - w * p * p;
    assert a * a - (w * (p * (1.0 - p)) + w * w / 4.0) == d * (p * p);
    assert 2.0 * (d * x) * a == d * (2.0 * p * x + w * x);
    assert (p - x) * (p - x) - w * (x * (1.0 - x)) == d * x * x - (2.0 * p * x + w * x) + p * p;
    assert d * (d * x * x - (2.0 * p * x + w * x) + p * p) == d * (d * x * x) - d * (2.0 * p * x + w * x) + d * (p * p);
  }

  lemma Spread(t: real, q: real, n: real)
    requires n > 0.0 && t >= 0.0 && q >= 0.0
    ensures 4.0 * n * n > 0.0 && q / n + t / (4.0 * n * n) >= 0.0
    ensures t * (q / n + t / (4.0 * n * n)) == t / n * q + t / n * (t / n) / 4.0
  {
    QuarterDiv(t, n);
    DivNonNeg(q, n);
    DivNonNeg(t, n);
    DivNonNeg(t / n, n);
    MulDiv(t, q, n);
    MulDiv(t, t / n, n);
    Quarter(t, t / n / n, t / n * (t / n));
    Distribute(t, q / n, t / n / n / 4.0, t / n * q, t / n * (t / n) / 4.0);
  }

  /** What is under the root, times z squared. */
  lemma RadicandTimes(p: real, n: real, z: real)
    requires n > 0.0 && 0.0 <= p <= 1.0
    ensures
      var w := z * z / n;
      Radicand(p, n, z) >= 0.0 && z * z * Radicand(p, n, z) == w * (p * (1.0 - p)) + w * w / 4.0
  {
    MulNonNeg(p, 1.0 - p);
    Spread(z * z, p * (1.0 - p), n);
  }

  lemma SquareOfProduct(a: real, b: real)
    ensures (a * b) * (a * b) == (a * a) * (b * b)
  {
  }

  lemma SquareOrder(y: real, m: real)
    requires m >= 0.0
    ensures y * y <= m * m <==> -m <= y <= m
  {
    assert m * m - y * y == (m - y) * (m + y);
    if -m <= y <= m {
      MulNonNeg(m - y, m + y);
    } else if y > m {
      MulPos(y - m, y + m);
      assert (m - y) * (m + y) == -((y - m) * (y + m));
    } else {
      var u, v := -y - m, m - y;
      MulPos(u, v);
      assert m * m - y * y == -(u * v);
    }
  }

  lemma ScaleOrder(a: real, b: real, d: real)
    requires d > 0.0
    ensures a <= b <==> a * d <= b * d
  {
    if a <= b { MulNonNeg(b - a, d); } else { MulPos(a - b, d); }
  }

  // ---- What the interval is ----

  /** The centre and the margin, told by what they are after scaling. */
  ghost predicate Shaped(c: real, g: real, p: real, w: real) {
    && 0.0 <= p <= 1.0 && w >= 0.0 && c * (1.0 + w) == p + w / 2.0
    && g * (1.0 + w) >= 0.0 && (g * (1.0 + w)) * (g * (1.0 + w)) == w * (p * (1.0 - p)) + w * w / 4.0
  }

  /** Scaled by the denominator, the centre and the margin are free of division. */
  lemma Scaled(p: real, n: real, z: real, sqrt: real -> real)
    requires n > 0.0 && 0.0 <= p <= 1.0 && IsSqrt(sqrt) && z > 0.0
    ensures Shaped(Centre(p, n, z), Margin(p, n, z, sqrt), p, z * z / n)
  {
    var d, r := Denom(n, z), Radicand(p, n, z);
    MulPos(z, z);
    DivNonNeg(z * z, n);
    RadicandTimes(p, n, z);
    HalfDiv(z * z, n);
    ScaledFrom(p, z * z / n, z * z / (2.0 * n), d, z, sqrt(r), r, Centre(p, n, z), Margin(p, n, z, sqrt));
  }

  lemma ScaledFrom(p: real, w: real, h: real, d: real, z: real, s: real, r: real, c: real, g: real)
    requires 0.0 <= p <= 1.0 && w >= 0.0 && h == w / 2.0 && d == 1.0 + w && z > 0.0 && s >= 0.0 && s * s == r
    requires z * z * r == w * (p * (1.0 - p)) + w * w / 4.0 && c == (p + h) / d && g == z * s / d
    ensures Shaped(c, g, p, w)
  {
    DivTimes(p + h, d);
    MarginTimes(z, s, r, d, g);
  }

  lemma MarginTimes(z: real, s: real, r: real, d: real, g: real)
    requires z > 0.0 && s >= 0.0 && s * s == r && d > 0.0 && g == z * s / d
    ensures g * d >= 0.0 && (g * d) * (g * d) == z * z * r
  {
    DivTimes(z * s, d);
    MulNonNeg(z, s);
    SquareOfProduct(z, s);
  }

  lemma InScale(c: real, g: real, p: real, w: real, x: real)
    requires Shaped(c, g, p, w)
    ensures
      var m, y := g * (1.0 + w), (1.0 + w) * x - (p + w / 2.0);
      && (c - g <= x <==> -m <= y) && (x <= c + g <==> y <= m)
      && (x <= c - g <==> y <= -m) && (c + g <= x <==> m <= y)
  {
    var d := 1.0 + w;
    ScaleOrder(c - g, x, d);
    ScaleOrder(x, c + g, d);
    ScaleOrder(x, c - g, d);
    ScaleOrder(c + g, x, d);
    assert (c - g) * d == c * d - g * d && (c + g) * d == c * d + g * d;
  }

  lemma InsideShape(c: real, g: real, p: real, w: real, x: real)
    requires Shaped(c, g, p, w)
    ensures c - g <= x <= c + g <==> (p - x) * (p - x) - w * (x * (1.0 - x)) <= 0.0
  {
    var d, m := 1.0 + w, g * (1.0 + w);
    assert m >= 0.0 && d > 0.0 && m * m == w * (p * (1.0 - p)) + w * w / 4.0;
    InScale(c, g, p, w, x);
    hide Shaped;
    Square(p, w, x);
    InsideScaled(d * x - (p + w / 2.0), m, d, (p - x) * (p - x) - w * (x * (1.0 - x)));
  }

  lemma InsideScaled(y: real, m: real, d: real, q: real)
    requires m >= 0.0 && d > 0.0 && y * y - m * m == d * q
    ensures -m <= y <= m <==> q <= 0.0
  {
    SquareOrder(y, m);
    ScaleOrder(q, 0.0, d);
  }

  lemma ShapeWithin(c: real, g: real, p: real, w: real)
    requires Shaped(c, g, p, w)
    ensures 0.0 <= c - g <= p <= c + g <= 1.0
  {
    var m := g * (1.0 + w);
    assert c - g <= p <= c + g by {
      MulNonNeg(p, 1.0 - p);
      MulNonNeg(w, p * (1.0 - p));
      InsideShape(c, g, p, w, p);
    }
    assert 0.0 <= c - g by {
      BelowCentre(p, w, m);
      InScale(c, g, p, w, 0.0);
    }
    assert c + g <= 1.0 by {
      AboveCentre(p, w, m);
      InScale(c, g, p, w, 1.0);
    }
  }

  /** A rate lies between the unclamped bounds exactly when it is within z standard errors, its own, of the estimate. */
  lemma InsideIff(p: real, n: real, z: real, sqrt: real -> real, x: real)
    requires n > 0.0 && 0.0 <= p <= 1.0 && IsSqrt(sqrt) && z > 0.0
    ensures
      var b := Bounds(p, n, z, sqrt);
      b.low <= x <= b.high <==> n * ((p - x) * (p - x)) <= z * z * (x * (1.0 - x))
  {
    Scaled(p, n, z, sqrt);
    InsideShape(Centre(p, n, z), Margin(p, n, z, sqrt), p, z * z / n, x);
    TimesTrials(p, n, z, x);
  }

  lemma TimesTrials(p: real, n: real, z: real, x: real)
    requires n > 0.0
    ensures
      (p - x) * (p - x) - z * z / n * (x * (1.0 - x)) <= 0.0 <==> n * ((p - x) * (p - x)) <= z * z * (x * (1.0 - x))
  {
    var e, v, w := (p - x) * (p - x), x * (1.0 - x), z * z / n;
    DivTimes(z * z, n);
    assert (w * v) * n == (w * n) * v;
    assert (e - w * v) * n == n * e - z * z * v;
    ScaleOrder(e - w * v, 0.0, n);
  }

  /** The unclamped bounds already lie between zero and one, with the estimate between them. */
  lemma BoundsWithin(p: real, n: real, z: real, sqrt: real -> real)
    requires n > 0.0 && 0.0 <= p <= 1.0 && IsSqrt(sqrt) && z > 0.0
    ensures
      var b := Bounds(p, n, z, sqrt);
      0.0 <= b.low <= p <= b.high <= 1.0
  {
    Scaled(p, n, z, sqrt);
    ShapeWithin(Centre(p, n, z), Margin(p, n, z, sqrt), p, z * z / n);
  }

  lemma BelowCentre(p: real, w: real, m: real)
    requires w >= 0.0 && 0.0 <= p <= 1.0 && m >= 0.0 && m * m == w * (p * (1.0 - p)) + w * w / 4.0
    ensures m <= p + w / 2.0
  {
    var a := p + w / 2.0;
    Square(p, w, 0.0);
    MulNonNeg(p, p);
    MulNonNeg(1.0 + w, p * p);
    assert (0.0 - a) * (0.0 - a) == a * a;
    SquareOrder(m, a);
  }

  lemma AboveCentre(p: real, w: real, m: real)
    requires w >= 0.0 && 0.0 <= p <= 1.0 && m >= 0.0 && m * m == w * (p * (1.0 - p)) + w * w / 4.0
    ensures m <= 1.0 + w - (p + w / 2.0)
  {
    var e := 1.0 + w - (p + w / 2.0);
    Square(p, w, 1.0);
    MulNonNeg(1.0 - p, 1.0 - p);
    MulNonNeg(1.0 + w, (1.0 - p) * (1.0 - p));
    assert (p - 1.0) * (p - 1.0) == (1.0 - p) * (1.0 - p);
    SquareOrder(m, e);
  }

  /** So the clamps never change anything, and for every count the estimate is inside the published interval. */
  lemma ClampsNeverBite(successes: int, trials: int, z: real, sqrt: real -> real)
    requires 0 <= successes <= trials && trials > 0 && IsSqrt(sqrt) && z > 0.0
    ensures
      var p := successes as real / trials as real;
      var i := WilsonInterval(successes, trials, z, sqrt);
      i == Bounds(p, trials as real, z, sqrt) && 0.0 <= i.low <= p <= i.high <= 1.0
  {
    EstimateInUnit(successes, trials);
    BoundsWithin(successes as real / trials as real, trials as real, z, sqrt);
  }

  lemma EstimateInUnit(successes: int, trials: int)
    requires 0 <= successes <= trials && trials > 0
    ensures 0.0 <= successes as real / trials as real <= 1.0
  {
    var s, n := successes as real, trials as real;
    DivTimes(s, n);
    ScaleOrder(0.0, s / n, n);
    ScaleOrder(s / n, 1.0, n);
  }

  lemma MirroredBounds(p: real, n: real, z: real, sqrt: real -> real)
    requires n > 0.0
    ensures
      var i, j := Bounds(p, n, z, sqrt), Bounds(1.0 - p, n, z, sqrt);
      j.low == 1.0 - i.high && j.high == 1.0 - i.low
  {
    DenomPositive(n, z);
    HalfDiv(z * z, n);
    assert Radicand(1.0 - p, n, z) == Radicand(p, n, z) by { assert (1.0 - p) * (1.0 - (1.0 - p)) == p * (1.0 - p); }
    assert Margin(1.0 - p, n, z, sqrt) == Margin(p, n, z, sqrt);
    MirroredCentre(p, z * z / n, z * z / (2.0 * n));
  }

  lemma MirroredCentre(p: real, w: real, h: real)
    requires 1.0 + w > 0.0 && h == w / 2.0
    ensures (1.0 - p + h) / (1.0 + w) == 1.0 - (p + h) / (1.0 + w)
  {
    var d := 1.0 + w;
    DivTimes(p + h, d);
    assert (1.0 - (p + h) / d) * d == d - (p + h);
    DivUnique(1.0 - p + h, d, 1.0 - (p + h) / d);
  }

  /** Counting failures instead of successes mirrors the interval. */
  lemma Mirrored(successes: int, trials: int, z: real, sqrt: real -> real)
    requires 0 <= successes <= trials && trials > 0 && IsSqrt(sqrt) && z > 0.0
    ensures
      var i, j := WilsonInterval(successes, trials, z, sqrt), WilsonInterval(trials - successes, trials, z, sqrt);
      j.low == 1.0 - i.high && j.high == 1.0 - i.low
  {
    hide Bounds, WilsonInterval;
    var s, n := successes as real, trials as real;
    ClampsNeverBite(successes, trials, z, sqrt);
    ClampsNeverBite(trials - successes, trials, z, sqrt);
    DivTimes(s, n);
    DivUnique(n - s, n, 1.0 - s / n);
    assert (trials - successes) as real == n - s;
    MirroredBounds(s / n, n, z, sqrt);
  }
}
