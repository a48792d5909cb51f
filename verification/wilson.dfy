/** The Wilson score interval for a pass rate, in exact arithmetic.  `root` stands for the square
    root the code takes; it is any non-negative number whose square is the radicand. */
module Wilson {
  const Z: real := 1.959963984540054

  function Rate(successes: int, trials: int): real
    requires trials > 0
  {
    successes as real / trials as real
  }

  /** z squared over the number of trials. */
  function Weight(trials: int): (w: real)
    requires trials > 0
    ensures w > 0.0
  {
    Z * Z / trials as real
  }

  function Radicand(successes: int, trials: int): real
    requires trials > 0
  {
    var p := Rate(successes, trials);
    (p * (1.0 - p) + Z * Z / (4.0 * trials as real)) / trials as real
  }

  ghost predicate IsRoot(root: real, x: real) { root >= 0.0 && root * root == x }

  function Center(successes: int, trials: int): real
    requires trials > 0
  {
    (Rate(successes, trials) + Z * Z / (2.0 * trials as real)) / (1.0 + Weight(trials))
  }

  function Margin(trials: int, root: real): real
    requires trials > 0
  {
    Z * root / (1.0 + Weight(trials))
  }

  function Max(a: real, b: real): real { if a >= b then a else b }

  function Min(a: real, b: real): real { if a <= b then a else b }

  /** `wilson_pass_rate_ci`. */
  function Interval(successes: int, trials: int, root: real): (ends: (real, real))
    ensures trials <= 0 ==> ends == (0.0, 0.0)
  {
    if trials <= 0 then (0.0, 0.0) else
      (Max(0.0, Center(successes, trials) - Margin(trials, root)),
       Min(1.0, Center(successes, trials) + Margin(trials, root)))
  }

  // ---------------------------------------------------------------------------------------
  // The interval is where the score test accepts
  // ---------------------------------------------------------------------------------------

  /** The score test's statistic does not exceed z: the squared distance of the observed rate
      from `x` is at most z squared times the variance at `x`. */
  ghost predicate Accepts(p: real, w: real, x: real) {
    (x - p) * (x - p) <= w * (x * (1.0 - x))
  }

  lemma SquareOrder(a: real, m: real)
    requires m >= 0.0
    ensures a * a <= m * m <==> -m <= a <= m
  {
    var b := if a >= 0.0 then a else -a;
    assert b * b == a * a;
    if b <= m { MulLoose(b, m); } else { MulStrict(m, b); }
  }

  lemma MulStrict(a: real, b: real)
    requires 0.0 <= a < b
    ensures a * a < b * b
  {
    assert (b - a) * b > 0.0 && a * (b - a) >= 0.0;
    assert (b - a) * b == b * b - a * b && a * (b - a) == a * b - a * a;
  }

  lemma MulLoose(a: real, b: real)
    requires 0.0 <= a <= b
    ensures a * a <= b * b
  {
    if a < b { MulStrict(a, b); }
  }

  /** How far `x` lies from the centre, in units of the common denominator. */
  function Offset(p: real, w: real, x: real): real { (1.0 + w) * x - (p + w / 2.0) }

  /** The squared margin in the same units. */
  function Spread(p: real, w: real): real { w * (p * (1.0 - p) + w / 4.0) }

  lemma CompleteTheSquare(p: real, w: real, x: real)
    ensures Offset(p, w, x) * Offset(p, w, x) - Spread(p, w)
      == (1.0 + w) * ((x - p) * (x - p) - w * (x * (1.0 - x)))
  {
    var u, v := (1.0 + w) * x, p + w / 2.0;
    assert (u - v) * (u - v) == u * u - 2.0 * (u * v) + v * v;
    assert v * v == p * p + p * w + w * w / 4.0;
    assert Spread(p, w) == w * p - w * (p * p) + w * w / 4.0;
    assert v * v - Spread(p, w) == (1.0 + w) * (p * p);
    assert u * u == (1.0 + w) * ((1.0 + w) * (x * x));
    assert u * v == (1.0 + w) * (x * v);
    assert x * v == x * p + x * w / 2.0;
    assert (x - p) * (x - p) == x * x - 2.0 * (x * p) + p * p;
    assert w * (x * (1.0 - x)) == w * x - w * (x * x);
    var inner := (1.0 + w) * (x * x) - 2.0 * (x * v) + p * p;
    assert inner == (x - p) * (x - p) - w * (x * (1.0 - x));
    assert u * u - 2.0 * (u * v) + (1.0 + w) * (p * p) == (1.0 + w) * inner;
    assert Offset(p, w, x) * Offset(p, w, x) - Spread(p, w) == (1.0 + w) * inner by {
      assert Offset(p, w, x) == u - v;
    }
  }

  lemma ScaledBounds(d: real, x: real, c: real, m: real)
    requires d > 0.0
    ensures -(d * m) <= d * x - d * c <= d * m <==> c - m <= x <= c + m
  {
    assert d * x - d * c == d * (x - c);
    SignOfProduct(d, x - c - m);
    SignOfProduct(d, c - m - x);
    assert d * (x - c - m) == d * (x - c) - d * m;
    assert d * (c - m - x) == -(d * (x - c)) - d * m;
  }

  lemma SignOfProduct(d: real, y: real)
    requires d > 0.0
    ensures d * y <= 0.0 <==> y <= 0.0
  {
    if y > 0.0 { assert d * y > 0.0; }
  }

  /** Center and margin over the common denominator. */
  lemma InUnits(successes: int, trials: int, root: real, x: real)
    requires trials > 0 && IsRoot(root, Radicand(successes, trials))
    ensures var p, w := Rate(successes, trials), Weight(trials);
      && (1.0 + w) * x - (1.0 + w) * Center(successes, trials) == Offset(p, w, x)
      && (1.0 + w) * Margin(trials, root) == Z * root
      && (Z * root) * (Z * root) == Spread(p, w)
  {
    var n, p, w := trials as real, Rate(successes, trials), Weight(trials);
    assert Z * Z / (2.0 * n) == w / 2.0;
    assert Z * Z / (4.0 * n) == w / 4.0;
    assert Center(successes, trials) == (p + w / 2.0) / (1.0 + w);
    Cancel(p + w / 2.0, 1.0 + w);
    Cancel(Z * root, 1.0 + w);
    assert (Z * root) * (Z * root) == (Z * Z) * (root * root);
    var y := p * (1.0 - p) + w / 4.0;
    assert root * root == y / n;
    assert (Z * Z) * (y / n) == (Z * Z / n) * y;
  }

  lemma Cancel(a: real, d: real)
    requires d > 0.0
    ensures d * (a / d) == a
  {
  }

  /** The interval, before its ends are clamped, is exactly the set of rates the score test
      accepts: the definition of the Wilson interval. */
  lemma IntervalIsScoreTest(successes: int, trials: int, root: real, x: real)
    requires trials > 0 && IsRoot(root, Radicand(successes, trials))
    ensures Center(successes, trials) - Margin(trials, root) <= x <= Center(successes, trials) + Margin(trials, root)
      <==> Accepts(Rate(successes, trials), Weight(trials), x)
  {
    var p, w, c, m, r := Units(successes, trials, root, x);
    BoundsAccept(p, w, x, c, m, r);
  }

  lemma Units(successes: int, trials: int, root: real, x: real) returns (p: real, w: real, c: real, m: real, r: real)
    requires trials > 0 && IsRoot(root, Radicand(successes, trials))
    ensures p == Rate(successes, trials) && w == Weight(trials)
    ensures c == Center(successes, trials) && m == Margin(trials, root) && w > 0.0 && r >= 0.0
    ensures (1.0 + w) * x - (1.0 + w) * c == Offset(p, w, x) && (1.0 + w) * m == r && r * r == Spread(p, w)
  {
    InUnits(successes, trials, root, x);
    p, w, c, m := Rate(successes, trials), Weight(trials), Center(successes, trials), Margin(trials, root);
    r := Z * root;
  }

  lemma BoundsAccept(p: real, w: real, x: real, c: real, m: real, r: real)
    requires w > 0.0 && r >= 0.0
    requires (1.0 + w) * x - (1.0 + w) * c == Offset(p, w, x)
    requires (1.0 + w) * m == r && r * r == Spread(p, w)
    ensures c - m <= x <= c + m <==> Accepts(p, w, x)
  {
    ScaledBounds(1.0 + w, x, c, m);
    SquareOrder(Offset(p, w, x), r);
    OffsetAccepts(p, w, x);
  }

  lemma OffsetAccepts(p: real, w: real, x: real)
    requires w > 0.0
    ensures Offset(p, w, x) * Offset(p, w, x) <= Spread(p, w) <==> Accepts(p, w, x)
  {
    var gap := (x - p) * (x - p) - w * (x * (1.0 - x));
    CompleteTheSquare(p, w, x);
    SignOfProduct(1.0 + w, gap);
  }

  /** The score test accepts no rate outside [0, 1], so the clamps never change the interval. */
  lemma AcceptedAreRates(p: real, w: real, x: real)
    requires w > 0.0 && Accepts(p, w, x)
    ensures 0.0 <= x <= 1.0
  {
    assert (x - p) * (x - p) >= 0.0;
    if x < 0.0 { NegativeProduct(w, -x, 1.0 - x); }
    if x > 1.0 { NegativeProduct(w, x, x - 1.0); }
  }

  lemma NegativeProduct(w: real, a: real, b: real)
    requires w > 0.0 && a > 0.0 && b > 0.0
    ensures w * (a * b) > 0.0 && w * (-(a * b)) < 0.0
  {
    assert a * b > 0.0;
  }

  /** For every number of successes among the trials: the interval contains the observed rate,
      lies within [0, 1], and neither clamp changes it. */
  lemma IntervalIsSound(successes: int, trials: int, root: real)
    requires 0 <= successes <= trials && trials > 0 && IsRoot(root, Radicand(successes, trials))
    ensures var (low, high) := Interval(successes, trials, root);
      && 0.0 <= low <= Rate(successes, trials) <= high <= 1.0
      && low == Center(successes, trials) - Margin(trials, root)
      && high == Center(successes, trials) + Margin(trials, root)
  {
    var p, w := Rate(successes, trials), Weight(trials);
    var c, m := Center(successes, trials), Margin(trials, root);
    RateInUnit(successes, trials);
    assert (p - p) * (p - p) == 0.0;
    assert p * (1.0 - p) >= 0.0;
    assert w * (p * (1.0 - p)) >= 0.0;
    IntervalIsScoreTest(successes, trials, root, p);
    IntervalIsScoreTest(successes, trials, root, c - m);
    IntervalIsScoreTest(successes, trials, root, c + m);
    AcceptedAreRates(p, w, c - m);
    AcceptedAreRates(p, w, c + m);
  }

  lemma RateInUnit(successes: int, trials: int)
    requires 0 <= successes <= trials && trials > 0
    ensures 0.0 <= Rate(successes, trials) <= 1.0
  {
    var n := trials as real;
    Cancel(successes as real, n);
    SignOfProduct(n, Rate(successes, trials) - 1.0);
    SignOfProduct(n, -Rate(successes, trials));
    assert n * (Rate(successes, trials) - 1.0) == successes as real - n;
    assert n * (-Rate(successes, trials)) == -(successes as real);
  }
}
