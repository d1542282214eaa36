/** The two Newton solvers of the StableSwap pool, for two coins.
    Throughout, S = a + b, P = 4ab and ann = 4 * amp. The true invariant is the root of
    D^3 + (ann - 1) * P * D = ann * S * P. */
module StableMath {
  import opened Arithmetic
  import opened Outcomes

  const MAX_ITERATIONS: nat := 256
  const MAX_AMPLIFICATION: nat := 1_000_000

  /** Where a Newton loop ended: the value it returns, and whether the convergence
      test (as opposed to running out of iterations) returned it. */
  datatype Newton = Newton(value: int, settled: bool)

  predicate Near(x: int, y: int) { -1 <= x - y <= 1 }

  // ---------------------------------------------------------------- compute_d

  function Prod(a: int, b: int): int { 4 * a * b }

  /** First of the two nested floors of d_p. */
  function DpHalf(a: int, d: int): int
    requires a > 0
  {
    d * d / (a * 2)
  }

  function Dp(a: int, b: int, d: int): int
    requires a > 0 && b > 0
  {
    DpHalf(a, d) * d / (b * 2)
  }

  function DNumerator(s: int, ann: int, d: int, dp: int): int { (ann * s + dp * 2) * d }

  function DDenominator(ann: int, d: int, dp: int): int { (ann - 1) * d + 3 * dp }

  function DStep(a: int, b: int, ann: int, d: int): int
    requires a > 0 && b > 0
    requires DDenominator(ann, d, Dp(a, b, d)) != 0
  {
    DNumerator(a + b, ann, d, Dp(a, b, d)) / DDenominator(ann, d, Dp(a, b, d))
  }

  /** The left side of the invariant equation minus its right side. */
  function DExcess(a: int, b: int, ann: int, w: int): int
  {
    w * w * w + ((ann - 1) * w) * Prod(a, b) - (ann * (a + b)) * Prod(a, b)
  }

  /** What every value the loop goes on from satisfies. */
  ghost predicate DInv(a: int, b: int, ann: int, d: int)
  {
    1 <= d <= a + b && Prod(a, b) <= d * d && DExcess(a, b, ann, d + 1) > 0
  }

  /** What every value the loop may return satisfies: never a whole unit below the root. */
  ghost predicate DBound(a: int, b: int, ann: int, d: int)
  {
    1 <= d <= a + b && Prod(a, b) < (d + 1) * (d + 1) && DExcess(a, b, ann, d + 1) > 0
  }

  lemma SumSquare(a: int, b: int)
    ensures Prod(a, b) <= (a + b) * (a + b)
  {
    Square(a - b);
    assert (a + b) * (a + b) == Prod(a, b) + (a - b) * (a - b);
  }

  lemma DpAtLeast(a: int, b: int, d: int)
    requires a > 0 && b > 0 && d > 0 && Prod(a, b) <= d * d
    ensures Dp(a, b, d) >= d
  {
    assert (b * 2) * (a * 2) == Prod(a, b);
    FloorAtLeast(b * 2, d * d, a * 2);
    MulMono(b * 2, DpHalf(a, d), d);
    FloorAtLeast(d, DpHalf(a, d) * d, b * 2);
  }

  lemma DpAtMost(a: int, b: int, d: int)
    requires a > 0 && b > 0 && d > 0
    ensures 0 <= DpHalf(a, d) && 0 <= Dp(a, b, d)
    ensures Dp(a, b, d) * Prod(a, b) <= d * d * d
  {
    var h, dp := DpHalf(a, d), Dp(a, b, d);
    Square(d);
    FloorDiv(d * d, a * 2);
    FloorAtLeast(0, d * d, a * 2);
    MulNonNeg(h, d);
    FloorDiv(h * d, b * 2);
    FloorAtLeast(0, h * d, b * 2);
    MulMono(dp * (b * 2), h * d, a * 2);
    MulMono(h * (a * 2), d * d, d);
    assert dp * (b * 2) * (a * 2) == dp * Prod(a, b) by { Regroup(dp, a, b); }
    assert h * d * (a * 2) == h * (a * 2) * d;
  }

  lemma Regroup(x: int, a: int, b: int)
    ensures x * (b * 2) * (a * 2) == x * (4 * a * b)
  {
    assert (b * 2) * (a * 2) == 4 * a * b;
  }

  lemma StepUpper(ann: int, s: int, d: int, dp: int)
    requires 0 <= d <= s && d <= dp
    ensures DNumerator(s, ann, d, dp) <= s * DDenominator(ann, d, dp)
  {
    var x := ann * s * d;
    assert DNumerator(s, ann, d, dp) == x + 2 * (dp * d);
    assert s * DDenominator(ann, d, dp) == x - s * d + 3 * (s * dp);
    MulMono(d, dp, s);
    MulMono(d, s, dp);
  }

  lemma CubeBound(w: int, d: int)
    requires 0 <= w && 0 <= d
    ensures d * d * (3 * w - 2 * d) <= w * w * w
  {
    var e := w - d;
    Square(e);
    MulNonNeg(e * e, w + 2 * d);
    CubeIdentity(w, d);
  }

  lemma CubeIdentity(w: int, d: int)
    ensures (w - d) * (w - d) * (w + 2 * d) == w * w * w - d * d * (3 * w - 2 * d)
  {
    assert (w - d) * (w - d) == w * w - 2 * w * d + d * d;
    assert (w * w - 2 * w * d + d * d) * w == w * w * w - 2 * w * d * w + d * d * w;
    assert (w * w - 2 * w * d + d * d) * (2 * d) == 2 * w * w * d - 4 * w * d * d + 2 * d * d * d;
    assert d * d * (3 * w - 2 * d) == 3 * w * d * d - 2 * d * d * d;
  }

  lemma StepLinear(ann: int, s: int, d: int, dp: int, w: int)
    requires DNumerator(s, ann, d, dp) < w * DDenominator(ann, d, dp)
    ensures (ann * s) * d < ((ann - 1) * w) * d + dp * (3 * w - 2 * d)
  {
    assert DNumerator(s, ann, d, dp) == (ann * s) * d + 2 * (dp * d);
    assert w * DDenominator(ann, d, dp) == ((ann - 1) * w) * d + 3 * (dp * w);
    assert dp * (3 * w - 2 * d) == 3 * (dp * w) - 2 * (dp * d);
  }

  lemma StepNotFarBelow(ann: int, s: int, d: int, dp: int, w: int)
    requires 4 <= ann && 1 <= d <= s && 0 <= dp
    requires (ann * s) * d < ((ann - 1) * w) * d + dp * (3 * w - 2 * d)
    ensures 2 * d <= 3 * w
  {
    var t := 3 * w - 2 * d;
    if t < 0 {
      assert dp * t <= 0 by { MulNonNeg(dp, -t); }
      MulCancelLt(ann * s, (ann - 1) * w, d);
      MulMono(w, s, ann - 1);
    }
  }

  /** Multiplying by p and dividing by d, with dp * p <= d^3 put in. */
  lemma ScaleStep(x: int, m: int, p: int, d: int, dp: int, t: int)
    requires 1 <= p && 1 <= d && 0 <= t
    requires dp * p <= d * d * d
    requires x * d < m * d + dp * t
    ensures x * p < m * p + d * d * t
  {
    ScaleLt(x * d, m * d + dp * t, p);
    ScaleRegroup(x, m, p, d, dp, t);
    MulMono(dp * p, d * d * d, t);
    MulCancelLt(x * p, m * p + d * d * t, d);
  }

  lemma ScaleLt(x: int, y: int, p: int)
    requires x < y && 1 <= p
    ensures x * p < y * p
  {
    MulMono(x + 1, y, p);
    assert (x + 1) * p == x * p + p;
  }

  lemma ScaleRegroup(x: int, m: int, p: int, d: int, dp: int, t: int)
    ensures x * d * p == x * p * d
    ensures (m * d + dp * t) * p == m * p * d + dp * p * t
    ensures (m * p + d * d * t) * d == m * p * d + d * d * d * t
  {
    assert (m * d + dp * t) * p == m * d * p + dp * t * p;
    assert (m * p + d * d * t) * d == m * p * d + d * d * t * d;
  }

  /** The floored step is never a whole unit below the root. */
  lemma StepLower(ann: int, s: int, p: int, d: int, dp: int, w: int)
    requires 4 <= ann && 1 <= p && 1 <= d <= s && 0 <= w && 0 <= dp
    requires dp * p <= d * d * d
    requires DNumerator(s, ann, d, dp) < w * DDenominator(ann, d, dp)
    ensures (ann * s) * p < w * w * w + ((ann - 1) * w) * p
  {
    StepLinear(ann, s, d, dp, w);
    StepNotFarBelow(ann, s, d, dp, w);
    ScaleStep(ann * s, (ann - 1) * w, p, d, dp, 3 * w - 2 * d);
    CubeBound(w, d);
  }

  /** A w with w^2 <= P that is not a whole unit below the root lies above s. */
  lemma ExcessAbove(ann: int, s: int, p: int, w: int)
    requires 4 <= ann && 1 <= p && 0 <= w && w * w <= p
    requires (ann * s) * p < w * w * w + ((ann - 1) * w) * p
    ensures s < w
  {
    MulMono(w * w, p, w);
    assert (ann - 1) * w == ann * w - w;
    assert ((ann - 1) * w) * p == (ann * w) * p - w * p by { assert (ann * w - w) * p == (ann * w) * p - w * p; }
    MulCancelLt(ann * s, ann * w, p);
    MulCancelLt(s, w, ann);
  }

  /** Not being a whole unit below the root forces w^2 > P. */
  lemma ExcessSquare(ann: int, s: int, p: int, w: int)
    requires 4 <= ann && 1 <= p && 0 <= w && 0 <= s && p <= s * s
    requires (ann * s) * p < w * w * w + ((ann - 1) * w) * p
    ensures p < w * w
  {
    if w * w <= p {
      ExcessAbove(ann, s, p, w);
      SquareLt(s, w);
    }
  }

  /** A step below sqrt(P) can only land on s - 1. */
  lemma Landing(ann: int, s: int, p: int, d: int)
    requires 4 <= ann && 4 <= p <= s * s && 1 <= d && 1 <= s
    requires d * d < p
    requires (ann * s) * p < (d + 1) * (d + 1) * (d + 1) + ((ann - 1) * (d + 1)) * p
    ensures d == s - 1
  {
    if s <= d {
      SquareLe(s, d);
    } else if d < s - 1 {
      LandingGap(ann, s, p, d + 1);
      LandingClash(d, p);
    }
  }

  /** Below s the excess must be paid for by w (w^2 - p). */
  lemma LandingGap(ann: int, s: int, p: int, w: int)
    requires 4 <= ann && 1 <= p && w < s
    requires (ann * s) * p < w * w * w + ((ann - 1) * w) * p
    ensures 4 * p < w * (w * w - p)
  {
    var k := ann * (s - w);
    MulMono(1, s - w, ann);
    MulMono(4, k, p);
    assert k * p == (ann * s) * p - (ann * w) * p by { assert k == ann * s - ann * w; }
    assert ((ann - 1) * w) * p == (ann * w) * p - w * p by { assert (ann - 1) * w == ann * w - w; }
    assert w * (w * w - p) == w * w * w - w * p;
  }

  /** ... but w^2 - p <= 2d is too small for that. */
  lemma LandingClash(d: int, p: int)
    requires 1 <= d && d * d < p
    ensures (d + 1) * ((d + 1) * (d + 1) - p) <= 4 * p
  {
    assert (d + 1) * (d + 1) == d * d + 2 * d + 1;
    MulMono((d + 1) * (d + 1) - p, 2 * d, d + 1);
    assert (2 * d) * (d + 1) == 2 * (d * d) + 2 * d;
    Square(d - 1);
    assert (d - 1) * (d - 1) == d * d - 2 * d + 1;
  }

  lemma DenominatorPos(a: int, b: int, ann: int, d: int)
    requires a > 0 && b > 0 && 4 <= ann && 1 <= d
    ensures DDenominator(ann, d, Dp(a, b, d)) > 0
  {
    DpAtMost(a, b, d);
    MulPos(ann - 1, d);
  }

  /** The step stays between 0 and the sum of the reserves. */
  lemma StepRange(a: int, b: int, ann: int, d: int)
    requires a > 0 && b > 0 && 4 <= ann && 1 <= d <= a + b && Prod(a, b) <= d * d
    requires DDenominator(ann, d, Dp(a, b, d)) > 0
    ensures 0 <= DStep(a, b, ann, d) <= a + b
  {
    var s, dp := a + b, Dp(a, b, d);
    var num, den := DNumerator(s, ann, d, dp), DDenominator(ann, d, dp);
    DpAtLeast(a, b, d);
    StepUpper(ann, s, d, dp);
    assert (s + 1) * den == s * den + den;
    FloorAtMost(s, num, den);
    assert 0 <= num by { MulNonNeg(ann, s); MulNonNeg(ann * s + dp * 2, d); }
    FloorAtLeast(0, num, den);
  }

  lemma StepExcess(a: int, b: int, ann: int, d: int)
    requires a > 0 && b > 0 && 4 <= ann && 1 <= d <= a + b
    requires DDenominator(ann, d, Dp(a, b, d)) > 0
    requires 0 <= DStep(a, b, ann, d)
    ensures DExcess(a, b, ann, DStep(a, b, ann, d) + 1) > 0
  {
    var s, dp, d' := a + b, Dp(a, b, d), DStep(a, b, ann, d);
    var num, den := DNumerator(s, ann, d, dp), DDenominator(ann, d, dp);
    DpAtMost(a, b, d);
    PositiveProd(a, b);
    FloorBelow(num, den);
    StepLower(ann, s, Prod(a, b), d, dp, d' + 1);
  }

  /** One step from a value the loop goes on from: it is defined, it satisfies the
      bound, and unless the convergence test returns it, the loop may go on from it. */
  lemma DStepBound(a: int, b: int, ann: int, d: int)
    requires a > 0 && b > 0 && 4 <= ann && DInv(a, b, ann, d)
    ensures DDenominator(ann, d, Dp(a, b, d)) > 0
    ensures DBound(a, b, ann, DStep(a, b, ann, d))
    ensures Near(DStep(a, b, ann, d), d) || DInv(a, b, ann, DStep(a, b, ann, d))
  {
    DenominatorPos(a, b, ann, d);
    StepRange(a, b, ann, d);
    StepExcess(a, b, ann, d);
    SumSquare(a, b);
    PositiveProd(a, b);
    DLanded(a, b, ann, d, DStep(a, b, ann, d));
  }

  lemma DLanded(a: int, b: int, ann: int, d: int, d': int)
    requires a > 0 && b > 0 && 4 <= ann
    requires 1 <= d <= a + b && Prod(a, b) <= d * d
    requires 0 <= d' <= a + b && DExcess(a, b, ann, d' + 1) > 0
    requires 4 <= Prod(a, b) <= (a + b) * (a + b)
    ensures DBound(a, b, ann, d')
    ensures Near(d', d) || DInv(a, b, ann, d')
  {
    ExcessSquare(ann, a + b, Prod(a, b), d' + 1);
    if d' * d' < Prod(a, b) {
      Landing(ann, a + b, Prod(a, b), d');
      if d <= d' { SquareLe(d, d'); }
    }
  }

  lemma PositiveProd(a: int, b: int)
    requires a > 0 && b > 0
    ensures Prod(a, b) >= 4
  {
    MulPos(a, b);
    assert Prod(a, b) == 4 * (a * b);
  }

  // How far above the root a converged value can be.

  /** Upper side of the sandwich: the slack is what the two nested floors of d_p and the
      last step can hide. */
  ghost predicate DUpper(a: int, b: int, ann: int, e: int)
  {
    DExcess(a, b, ann, e) <= 2 * a * (e + 2) + Prod(a, b) + 6 * e + 5
  }

  lemma DpAbove(a: int, b: int, d: int)
    requires a > 0 && b > 0 && d > 0
    ensures Dp(a, b, d) * Prod(a, b) > d * d * d - 2 * a * d - Prod(a, b)
  {
    var h, dp := DpHalf(a, d), Dp(a, b, d);
    FloorDiv(d * d, a * 2);
    FloorDiv(h * d, b * 2);
    assert (h * (a * 2) + a * 2) * d == h * d * (a * 2) + 2 * a * d;
    MulMono(d * d, h * (a * 2) + a * 2, d);
    ScaleLt(h * d, dp * (b * 2) + b * 2, a * 2);
    assert (dp * (b * 2) + b * 2) * (a * 2) == dp * (b * 2) * (a * 2) + Prod(a, b);
    Regroup(dp, a, b);
  }

  /** The inequality of a step, times p. */
  lemma SettledTimesP(x: int, m: int, p: int, d: int, dp: int, t: int)
    requires 1 <= p && m * d + dp * t <= x * d
    ensures (m * p) * d + (dp * p) * t <= (x * p) * d
  {
    MulMono(m * d + dp * t, x * d, p);
    ScaleRegroup(x, m, p, d, dp, t);
  }

  /** d_p's lower bound, times t. */
  lemma SettledTimesT(p: int, d: int, dp: int, t: int, u: int)
    requires 0 <= t <= d + 3 && 1 <= p <= d * d
    requires d * d * d - u * d - p <= dp * p
    ensures (d * d * t) * d - (u * t) * d - p * d - 3 * (d * d) <= (dp * p) * t
  {
    MulMono(d * d * d - u * d - p, dp * p, t);
    Distribute3(d * d * d, u * d, p, t);
    assert d * d * d * t == (d * d * t) * d;
    assert u * d * t == (u * t) * d;
    MulMono(t, d + 3, p);
    assert (d + 3) * p == p * d + 3 * p;
  }

  /** From e * den <= num, with d_p's lower bound put in and d divided out. */
  lemma SettledScale(x: int, m: int, p: int, d: int, dp: int, t: int, u: int)
    requires 1 <= d && 0 <= t <= d + 3 && 1 <= p <= d * d
    requires d * d * d - u * d - p <= dp * p
    requires m * d + dp * t <= x * d
    ensures m * p + d * d * t <= x * p + u * t + p + 3 * d
  {
    SettledTimesP(x, m, p, d, dp, t);
    SettledTimesT(p, d, dp, t, u);
    DivideOut(m * p, d * d * t, x * p, u * t, p, d);
  }

  lemma DivideOut(mp: int, q: int, xp: int, ut: int, p: int, d: int)
    requires 1 <= d && mp * d + q * d - ut * d - p * d - 3 * (d * d) <= xp * d
    ensures mp + q <= xp + ut + p + 3 * d
  {
    assert (mp + q) * d == mp * d + q * d;
    Distribute4(xp, ut, p, 3 * d, d);
    MulCancelLe(mp + q, xp + ut + p + 3 * d, d);
  }

  lemma Distribute3(x: int, y: int, z: int, t: int)
    ensures (x - y - z) * t == x * t - y * t - z * t
  {}

  lemma Distribute4(x: int, y: int, z: int, w: int, t: int)
    ensures (x + y + z + w) * t == x * t + y * t + z * t + w * t
  {}

  /** A neighbouring cube, expanded: e^3 = d^2 (3e - 2d) + (e - d)^2 (e + 2d). */
  lemma NearCube(e: int, d: int)
    requires Near(e, d) && 1 <= d && 1 <= e
    ensures e * e * e <= d * d * (3 * e - 2 * d) + 3 * e + 2
  {
    if e == d + 1 {
      assert e * e == d * d + 2 * d + 1;
      assert e * e * e == (d * d + 2 * d + 1) * d + e * e;
    } else if e == d - 1 {
      assert e * e == d * d - 2 * d + 1;
      assert e * e * e == (d * d - 2 * d + 1) * d - e * e;
    }
  }

  lemma SettledCore(ann: int, s: int, a: int, p: int, d: int, dp: int, e: int)
    requires 0 < a && 1 <= d && 2 <= e && Near(e, d) && 1 <= p <= d * d
    requires d * d * d - 2 * a * d - p < dp * p
    requires ((ann - 1) * e) * d + dp * (3 * e - 2 * d) <= (ann * s) * d
    ensures e * e * e + ((ann - 1) * e) * p - (ann * s) * p <= 2 * a * (e + 2) + p + 6 * e + 5
  {
    var t := 3 * e - 2 * d;
    SettledScale(ann * s, (ann - 1) * e, p, d, dp, t, 2 * a);
    NearCube(e, d);
    MulMono(t, e + 2, 2 * a);
    SettledSum(e * e * e, ((ann - 1) * e) * p, d * d * t, (ann * s) * p, 2 * a * t, p, d, e, 2 * a * (e + 2));
  }

  lemma SettledSum(cube: int, mp: int, ddt: int, xp: int, ut: int, p: int, d: int, e: int, bound: int)
    requires mp + ddt <= xp + ut + p + 3 * d
    requires cube <= ddt + 3 * e + 2 && ut <= bound && d <= e + 1
    ensures cube + mp - xp <= bound + p + 6 * e + 5
  {}

  lemma BoundAtLeastTwo(a: int, b: int, e: int)
    requires a > 0 && b > 0 && 1 <= e && Prod(a, b) < (e + 1) * (e + 1)
    ensures 2 <= e
  {
    PositiveProd(a, b);
  }

  /** A value returned by the convergence test is also bounded from above. */
  lemma SettledUpper(a: int, b: int, ann: int, d: int, e: int)
    requires a > 0 && b > 0 && 4 <= ann && 1 <= d && Prod(a, b) <= d * d
    requires DDenominator(ann, d, Dp(a, b, d)) > 0 && e == DStep(a, b, ann, d)
    requires Near(e, d) && DBound(a, b, ann, e)
    ensures DUpper(a, b, ann, e)
  {
    BoundAtLeastTwo(a, b, e);
    SettledSetup(a, b, ann, d, e);
    SettledCore(ann, a + b, a, Prod(a, b), d, Dp(a, b, d), e);
  }

  lemma SettledSetup(a: int, b: int, ann: int, d: int, e: int)
    requires a > 0 && b > 0 && 1 <= d
    requires DDenominator(ann, d, Dp(a, b, d)) > 0 && e == DStep(a, b, ann, d)
    ensures 1 <= Prod(a, b)
    ensures d * d * d - 2 * a * d - Prod(a, b) < Dp(a, b, d) * Prod(a, b)
    ensures ((ann - 1) * e) * d + Dp(a, b, d) * (3 * e - 2 * d) <= (ann * (a + b)) * d
  {
    var s, dp := a + b, Dp(a, b, d);
    PositiveProd(a, b);
    FloorDiv(DNumerator(s, ann, d, dp), DDenominator(ann, d, dp));
    SettledLinear(ann, s, d, dp, e);
    DpAbove(a, b, d);
  }

  lemma SettledLinear(ann: int, s: int, d: int, dp: int, e: int)
    requires e * DDenominator(ann, d, dp) <= DNumerator(s, ann, d, dp)
    ensures ((ann - 1) * e) * d + dp * (3 * e - 2 * d) <= (ann * s) * d
  {
    assert DNumerator(s, ann, d, dp) == (ann * s) * d + 2 * (dp * d);
    assert e * DDenominator(ann, d, dp) == ((ann - 1) * e) * d + 3 * (dp * e);
    assert dp * (3 * e - 2 * d) == 3 * (dp * e) - 2 * (dp * d);
  }

  /** Everything one iteration of compute_d needs and gives. */
  lemma DIterate(a: int, b: int, ann: int, d: int)
    requires a > 0 && b > 0 && 4 <= ann && DInv(a, b, ann, d)
    ensures DBound(a, b, ann, d)
    ensures DDenominator(ann, d, Dp(a, b, d)) > 0
    ensures DBound(a, b, ann, DStep(a, b, ann, d))
    ensures Near(DStep(a, b, ann, d), d) ==> DUpper(a, b, ann, DStep(a, b, ann, d))
    ensures !Near(DStep(a, b, ann, d), d) ==> DInv(a, b, ann, DStep(a, b, ann, d))
  {
    SquareLt(d, d + 1);
    DStepBound(a, b, ann, d);
    if Near(DStep(a, b, ann, d), d) {
      SettledUpper(a, b, ann, d, DStep(a, b, ann, d));
    }
  }

  /** The loop of compute_d from the value d with `fuel` iterations left. */
  function NewtonD(a: int, b: int, ann: int, d: int, fuel: nat): Newton
    requires a > 0 && b > 0 && 4 <= ann && DInv(a, b, ann, d)
    decreases fuel, d
  {
    DIterate(a, b, ann, d);
    if fuel == 0 then Newton(d, false)
    else
      var d' := DStep(a, b, ann, d);
      if Near(d', d) then Newton(d', true) else NewtonD(a, b, ann, d', fuel - 1)
  }

  lemma {:induction false} NewtonDBounds(a: int, b: int, ann: int, d: int, fuel: nat)
    requires a > 0 && b > 0 && 4 <= ann && DInv(a, b, ann, d)
    ensures DBound(a, b, ann, NewtonD(a, b, ann, d, fuel).value)
    ensures NewtonD(a, b, ann, d, fuel).settled ==> DUpper(a, b, ann, NewtonD(a, b, ann, d, fuel).value)
    decreases fuel
  {
    DIterate(a, b, ann, d);
    if fuel > 0 && !Near(DStep(a, b, ann, d), d) {
      NewtonDBounds(a, b, ann, DStep(a, b, ann, d), fuel - 1);
    }
  }

  lemma DStartInv(a: int, b: int, ann: int)
    requires a > 0 && b > 0 && 4 <= ann
    ensures DInv(a, b, ann, a + b)
  {
    var s, p, w := a + b, Prod(a, b), a + b + 1;
    SumSquare(a, b);
    PositiveProd(a, b);
    SquareLe(s, w);
    MulMono(p, w * w, w);
    assert ((ann - 1) * w) * p == (ann * w) * p - w * p by {
      assert (ann - 1) * w == ann * w - w;
      assert (ann * w - w) * p == (ann * w) * p - w * p;
    }
    ScaleLt(s, w, ann);
    ScaleLt(ann * s, ann * w, p);
  }

  /** compute_d on positive reserves. */
  function DNewton(a: int, b: int, amp: int): Newton
    requires a > 0 && b > 0 && 1 <= amp
  {
    DStartInv(a, b, 4 * amp);
    NewtonD(a, b, 4 * amp, a + b, MAX_ITERATIONS)
  }

  lemma DNewtonRange(a: int, b: int, amp: int)
    requires a > 0 && b > 0 && 1 <= amp
    ensures 1 <= DNewton(a, b, amp).value <= a + b
  {
    DNewtonBounds(a, b, amp);
  }

  lemma EqualStep(a: int, ann: int)
    requires a > 0 && 4 <= ann
    ensures Dp(a, a, 2 * a) == 2 * a
    ensures DDenominator(ann, 2 * a, 2 * a) > 0
    ensures DStep(a, a, ann, 2 * a) == 2 * a
  {
    var s := 2 * a;
    FloorAtLeast(s, s * s, s);
    FloorAtMost(s, s * s, s);
    assert DpHalf(a, s) == s && Dp(a, a, s) == s;
    MulPos(ann, s);
    var den := DDenominator(ann, s, s);
    assert den == ann * s + 2 * s;
    assert DNumerator(s, ann, s, s) == s * den by { assert ann * s + s * 2 == den; }
    FloorAtLeast(s, s * den, den);
    assert (s + 1) * den == s * den + den;
    FloorAtMost(s, s * den, den);
  }

  /** The sandwich: D is at most the sum of the reserves, its square plus one step exceeds
      4ab, it is never a whole unit below the true invariant, and a converged D exceeds it
      by no more than the floors can hide. */
  lemma DNewtonBounds(a: int, b: int, amp: int)
    requires a > 0 && b > 0 && 1 <= amp
    ensures 1 <= DNewton(a, b, amp).value <= a + b
    ensures DBound(a, b, 4 * amp, DNewton(a, b, amp).value)
    ensures DNewton(a, b, amp).settled ==> DUpper(a, b, 4 * amp, DNewton(a, b, amp).value)
  {
    DStartInv(a, b, 4 * amp);
    NewtonDBounds(a, b, 4 * amp, a + b, MAX_ITERATIONS);
  }

  /** Equal reserves are a fixed point of the very first step. */
  lemma EqualReserves(a: int, amp: int)
    requires a > 0 && 1 <= amp
    ensures DNewton(a, a, amp) == Newton(2 * a, true)
  {
    DStartInv(a, a, 4 * amp);
    EqualStep(a, 4 * amp);
    assert Near(DStep(a, a, 4 * amp, 2 * a), 2 * a);
  }

  // The loop need not converge.

  /** One step from d lands on e, two or more away. */
  ghost predicate Hops(a: int, b: int, ann: int, d: int, e: int)
    requires a > 0 && b > 0
  {
    DDenominator(ann, d, Dp(a, b, d)) != 0 && DStep(a, b, ann, d) == e && !Near(e, d)
  }

  lemma OneStep(a: int, b: int, ann: int, d: int, e: int, fuel: nat)
    requires a > 0 && b > 0 && 4 <= ann && DInv(a, b, ann, d) && fuel > 0 && Hops(a, b, ann, d, e)
    ensures DInv(a, b, ann, e)
    ensures NewtonD(a, b, ann, d, fuel) == NewtonD(a, b, ann, e, fuel - 1)
  {
    DIterate(a, b, ann, d);
  }

  lemma NoFuel(a: int, b: int, ann: int, d: int)
    requires a > 0 && b > 0 && 4 <= ann && DInv(a, b, ann, d)
    ensures NewtonD(a, b, ann, d, 0) == Newton(d, false)
  {}

  /** Two values that hop to each other: the loop runs out of iterations. */
  lemma {:induction false} TwoCycle(a: int, b: int, ann: int, d: int, e: int, fuel: nat)
    requires a > 0 && b > 0 && 4 <= ann && DInv(a, b, ann, d)
    requires Hops(a, b, ann, d, e) && Hops(a, b, ann, e, d)
    ensures NewtonD(a, b, ann, d, fuel) == Newton(if fuel % 2 == 0 then d else e, false)
    decreases fuel
  {
    hide *;
    if fuel == 0 {
      NoFuel(a, b, ann, d);
    } else {
      OneStep(a, b, ann, d, e, fuel);
      TwoCycle(a, b, ann, e, d, fuel - 1);
    }
  }

  /** A step at reserves (584, 1) and amplification 1, with its two floors. */
  lemma StrayStep(a: int, b: int, ann: int, d: int, h: int, dp: int, e: int)
    requires a == 584 && b == 1 && ann == 4 && 0 < d && 0 <= dp
    requires d * d / 1168 == h && h * d / 2 == dp && (2340 + dp * 2) * d / (3 * d + 3 * dp) == e
    requires !Near(e, d)
    ensures Hops(a, b, ann, d, e)
  {}

  /** Reserves (584, 1), amplification 1: after six steps the loop goes back and forth between
      162 and 164 until the iterations run out. */
  lemma NeedNotConverge(a: int, b: int, amp: int)
    requires a == 584 && b == 1 && amp == 1
    ensures DNewton(a, b, amp) == Newton(162, false)
  {
    DStartInv(a, b, 4 * amp);
    WalkToCycle(a, b, 4 * amp, MAX_ITERATIONS);
  }

  lemma StrayPath(a: int, b: int, ann: int)
    requires a == 584 && b == 1 && ann == 4
    ensures Hops(a, b, ann, 585, 392) && Hops(a, b, ann, 392, 269) && Hops(a, b, ann, 269, 198)
    ensures Hops(a, b, ann, 198, 169) && Hops(a, b, ann, 169, 164) && Hops(a, b, ann, 164, 162)
    ensures Hops(a, b, ann, 162, 164)
  {
    StrayStep(a, b, ann, 585, 293, 85702, 392);
    StrayStep(a, b, ann, 392, 131, 25676, 269);
    StrayStep(a, b, ann, 269, 61, 8204, 198);
    StrayStep(a, b, ann, 198, 33, 3267, 169);
    StrayStep(a, b, ann, 169, 24, 2028, 164);
    StrayStep(a, b, ann, 164, 23, 1886, 162);
    StrayStep(a, b, ann, 162, 22, 1782, 164);
  }

  lemma WalkToCycle(a: int, b: int, ann: int, fuel: nat)
    requires a == 584 && b == 1 && ann == 4 && fuel >= 6 && fuel % 2 == 0 && DInv(a, b, ann, 585)
    ensures NewtonD(a, b, ann, 585, fuel) == Newton(162, false)
  {
    hide *;
    StrayPath(a, b, ann);
    OneStep(a, b, ann, 585, 392, fuel);
    OneStep(a, b, ann, 392, 269, fuel - 1);
    OneStep(a, b, ann, 269, 198, fuel - 2);
    OneStep(a, b, ann, 198, 169, fuel - 3);
    OneStep(a, b, ann, 169, 164, fuel - 4);
    OneStep(a, b, ann, 164, 162, fuel - 5);
    TwoCycle(a, b, ann, 162, 164, fuel - 6);
  }

  /** The code's loop. None stands for the abort on a division by an empty reserve. */
  method ComputeD(a: nat, b: nat, amp: nat) returns (r: Option<nat>)
    requires 1 <= amp
    ensures a + b == 0 ==> r == Some(0)
    ensures a + b != 0 && (a == 0 || b == 0) ==> r == None
    ensures a > 0 && b > 0 ==> r == Some(DNewton(a, b, amp).value)
  {
    var s := a + b;
    if s == 0 { return Some(0); }
    if a == 0 || b == 0 { return None; }
    var ann := amp * 2 * 2;
    var d := s;
    DStartInv(a, b, ann);
    for i := 0 to MAX_ITERATIONS
      invariant DInv(a, b, ann, d)
      invariant NewtonD(a, b, ann, d, MAX_ITERATIONS - i) == DNewton(a, b, amp)
    {
      DStepBound(a, b, ann, d);
      var dp := d;
      dp := dp * d / (a * 2);
      dp := dp * d / (b * 2);
      var dPrev := d;
      d := (ann * s + dp * 2) * d / ((ann - 1) * d + 3 * dp);
      if d > dPrev {
        if d - dPrev <= 1 { return Some(d); }
      } else {
        if dPrev - d <= 1 { return Some(d); }
      }
    }
    return Some(d);
  }

  // ---------------------------------------------------------------- u128 range of compute_d

  const RESERVE_RANGE: nat := 0x400_0000_0000  // 2^42

  predicate Fits(x: int) { 0 <= x <= U128_MAX }

  /** Every intermediate value of one iteration, in the order the code forms them. */
  ghost predicate DStepFits(a: int, b: int, ann: int, d: int)
    requires a > 0 && b > 0
  {
    var h, dp, s := DpHalf(a, d), Dp(a, b, d), a + b;
    && Fits(d * d) && Fits(a * 2) && Fits(h)
    && Fits(h * d) && Fits(b * 2) && Fits(dp)
    && Fits(ann * s) && Fits(dp * 2) && Fits(ann * s + dp * 2) && Fits(DNumerator(s, ann, d, dp))
    && Fits((ann - 1) * d) && Fits(3 * dp) && Fits(DDenominator(ann, d, dp))
  }

  /** ... and of every iteration the loop makes from d. */
  ghost predicate DRunFits(a: int, b: int, ann: int, d: int, fuel: nat)
    requires a > 0 && b > 0 && 4 <= ann && DInv(a, b, ann, d)
    decreases fuel
  {
    DIterate(a, b, ann, d);
    fuel == 0 ||
    (DStepFits(a, b, ann, d) &&
     (Near(DStep(a, b, ann, d), d) || DRunFits(a, b, ann, DStep(a, b, ann, d), fuel - 1)))
  }

  /** 4ab >= 2(a + b), because (a - 1)(b - 1) >= 0. */
  lemma ProdAtLeastSum(a: int, b: int)
    requires a > 0 && b > 0
    ensures Prod(a, b) >= 2 * (a + b)
  {
    MulNonNeg(a - 1, b - 1);
    assert (a - 1) * (b - 1) == a * b - a - b + 1;
    assert Prod(a, b) == 4 * (a * b);
  }

  lemma CubeLe(d: int, s: int)
    requires 0 <= d <= s
    ensures d * d * d <= s * s * s
  {
    SquareLe(d, s);
    MulMono(d * d, s * s, d);
    MulMono(d, s, s * s);
  }

  lemma CubeOverSum(dp: int, p: int, d: int, s: int)
    requires 0 <= dp && 1 <= d <= s && 2 * s <= p && dp * p <= d * d * d
    ensures 2 * dp <= s * s
  {
    CubeLe(d, s);
    MulMono(2 * s, p, dp);
    assert (2 * s) * dp == (2 * dp) * s;
    MulCancelLe(2 * dp, s * s, s);
  }

  /** d_p <= s^2 / 2. */
  lemma DpHalfSquare(a: int, b: int, d: int)
    requires a > 0 && b > 0 && 1 <= d <= a + b
    ensures 2 * Dp(a, b, d) <= (a + b) * (a + b)
  {
    DpAtMost(a, b, d);
    ProdAtLeastSum(a, b);
    CubeOverSum(Dp(a, b, d), Prod(a, b), d, a + b);
  }

  lemma HalfCube(h: int, a: int, d: int, s: int)
    requires a > 0 && 1 <= d <= s && h == d * d / (a * 2)
    ensures 0 <= h <= h * d
    ensures 2 * (h * d) <= s * s * s
  {
    Square(d);
    FloorDiv(d * d, a * 2);
    FloorAtLeast(0, d * d, a * 2);
    MulMono(1, d, h);
    MulMono(2, a * 2, h);
    MulMono(2 * h, d * d, d);
    assert (2 * h) * d == 2 * (h * d);
    CubeLe(d, s);
  }

  lemma DStepInRange(a: int, b: int, ann: int, d: int)
    requires a > 0 && b > 0 && 4 <= ann <= 4 * MAX_AMPLIFICATION
    requires a + b <= RESERVE_RANGE && 1 <= d <= a + b
    ensures DStepFits(a, b, ann, d)
  {
    var s, dp, h := a + b, Dp(a, b, d), DpHalf(a, d);
    var k: int := RESERVE_RANGE;
    DpAtMost(a, b, d);
    DpHalfSquare(a, b, d);
    HalfCube(h, a, d, s);
    SquareLe(s, k);
    SquareLe(d, k);
    CubeLe(s, k);
    MulNonNeg(ann, s);
    assert ann * s <= 4 * MAX_AMPLIFICATION * k by {
      MulMono(ann, 4 * MAX_AMPLIFICATION, s);
      MulMono(s, k, 4 * MAX_AMPLIFICATION);
    }
    assert 0 <= (ann - 1) * d <= 4 * MAX_AMPLIFICATION * k by {
      MulNonNeg(ann - 1, d);
      MulMono(ann - 1, 4 * MAX_AMPLIFICATION, d);
      MulMono(d, k, 4 * MAX_AMPLIFICATION);
    }
    NumeratorInRange(ann * s + dp * 2, d);
  }

  lemma NumeratorInRange(x: int, d: int)
    requires 0 <= x <= 4 * MAX_AMPLIFICATION * RESERVE_RANGE + RESERVE_RANGE * RESERVE_RANGE
    requires 0 <= d <= RESERVE_RANGE
    ensures Fits(x * d)
  {
    MulNonNeg(x, d);
    MulMono(x, 4 * MAX_AMPLIFICATION * RESERVE_RANGE + RESERVE_RANGE * RESERVE_RANGE, d);
    MulMono(d, RESERVE_RANGE, 4 * MAX_AMPLIFICATION * RESERVE_RANGE + RESERVE_RANGE * RESERVE_RANGE);
  }

  /** The checked u128 arithmetic of compute_d never aborts while a + b <= 2^42. */
  lemma {:induction false} DRunInRange(a: int, b: int, ann: int, d: int, fuel: nat)
    requires a > 0 && b > 0 && 4 <= ann <= 4 * MAX_AMPLIFICATION
    requires a + b <= RESERVE_RANGE && DInv(a, b, ann, d)
    ensures DRunFits(a, b, ann, d, fuel)
    decreases fuel
  {
    if fuel > 0 {
      DIterate(a, b, ann, d);
      DStepInRange(a, b, ann, d);
      if !Near(DStep(a, b, ann, d), d) {
        DRunInRange(a, b, ann, DStep(a, b, ann, d), fuel - 1);
      }
    }
  }

  lemma ComputeDInRange(a: int, b: int, amp: int)
    requires a > 0 && b > 0 && 1 <= amp <= MAX_AMPLIFICATION && a + b <= RESERVE_RANGE
    ensures DInv(a, b, 4 * amp, a + b)
    ensures DRunFits(a, b, 4 * amp, a + b, MAX_ITERATIONS)
  {
    DStartInv(a, b, 4 * amp);
    DRunInRange(a, b, 4 * amp, a + b, MAX_ITERATIONS);
  }

  // ---------------------------------------------------------------- compute_y

  /** The quadratic v^2 + g v - c whose floored root compute_y looks for; g is b - D. */
  function F(c: int, g: int, v: int): int { v * v + g * v - c }

  function YStep(c: int, g: int, y: int): int
    requires 2 * y + g > 0
  {
    (y * y + c) / (2 * y + g)
  }

  /** r is the largest natural number with F(r) <= 0. */
  ghost predicate IsFloorRoot(c: int, g: int, r: int)
  {
    0 <= r && F(c, g, r) <= 0 < F(c, g, r + 1)
  }

  lemma FNext(c: int, g: int, v: int)
    ensures F(c, g, v + 1) == F(c, g, v) + 2 * v + 1 + g
  {
    assert (v + 1) * (v + 1) == v * v + 2 * v + 1;
  }

  lemma FloorRootSlope(c: int, g: int, r: int)
    requires IsFloorRoot(c, g, r)
    ensures 0 <= 2 * r + g && -F(c, g, r) <= 2 * r + g
  {
    FNext(c, g, r);
  }

  /** F is positive from the floor root's successor on. */
  lemma {:induction false} FAbove(c: int, g: int, r: int, v: int)
    requires IsFloorRoot(c, g, r) && r < v
    ensures F(c, g, v) > 0
    decreases v - r
  {
    if v > r + 1 {
      FAbove(c, g, r, v - 1);
      FNext(c, g, v - 1);
      FloorRootSlope(c, g, r);
    }
  }

  lemma {:induction false} FloorRootFrom(c: int, g: int, v: int) returns (r: int)
    requires 0 <= c && 0 <= v && F(c, g, v) <= 0
    ensures IsFloorRoot(c, g, r)
    decreases Max(g, -g) + c + 1 - v
  {
    var m := Max(g, -g) + c + 1;
    if v >= m {
      MulMono(m, v + g + Max(g, -g), 1);
      assert F(c, g, v) == v * (v + g) - c;
      MulMono(1, v + g, v);
      assert false;
    }
    if F(c, g, v + 1) > 0 { r := v; } else { r := FloorRootFrom(c, g, v + 1); }
  }

  lemma FloorRootExists(c: int, g: int) returns (r: int)
    requires 0 <= c
    ensures IsFloorRoot(c, g, r)
  {
    r := FloorRootFrom(c, g, 0);
  }

  /** A step never lands below the floor root, wherever it starts. */
  lemma YStepAbove(c: int, g: int, y: int, r: int)
    requires 2 * y + g > 0 && IsFloorRoot(c, g, r)
    ensures r <= YStep(c, g, y)
  {
    Square(y - r);
    assert (y - r) * (y - r) == y * y - 2 * (r * y) + r * r;
    assert r * (2 * y + g) == 2 * (r * y) + g * r;
    FloorAtLeast(r, y * y + c, 2 * y + g);
  }

  lemma Halving(e: int, e': int, m: int)
    requires 2 <= e && 0 <= m && e' * (2 * e + m) <= e * e + m
    ensures 2 * e' <= e
  {
    MulMono(2, e, m);
    assert e * (2 * e + m) == 2 * (e * e) + e * m;
    assert (2 * e') * (2 * e + m) == 2 * (e' * (2 * e + m));
    MulCancelLe(2 * e', e, 2 * e + m);
  }

  /** A step from at least two above the floor root at least halves the excess. */
  lemma YStepHalves(c: int, g: int, y: int, r: int)
    requires 2 * y + g > 0 && IsFloorRoot(c, g, r) && r + 2 <= y
    ensures 2 * (YStep(c, g, y) - r) <= y - r
  {
    FloorRootSlope(c, g, r);
    StepExcessForm(c, g, y, r);
    Halving(y - r, YStep(c, g, y) - r, 2 * r + g);
  }

  /** The numerator of a step, measured from the floor root. */
  lemma StepExcessForm(c: int, g: int, y: int, r: int)
    requires 2 * y + g > 0
    ensures 2 * y + g == 2 * (y - r) + (2 * r + g)
    ensures (YStep(c, g, y) - r) * (2 * (y - r) + (2 * r + g)) <= (y - r) * (y - r) - F(c, g, r)
  {
    var q, den := YStep(c, g, y), 2 * y + g;
    FloorDiv(y * y + c, den);
    assert (q - r) * den == q * den - r * den;
    assert r * den == 2 * (r * y) + g * r;
    assert (y - r) * (y - r) == y * y - 2 * (r * y) + r * r;
  }

  /** From the floor root or its successor the step stays there, so the test fires. */
  lemma YStepNear(c: int, g: int, y: int, r: int)
    requires 2 * y + g > 0 && IsFloorRoot(c, g, r) && r <= y <= r + 1
    ensures Near(YStep(c, g, y), y)
  {
    var e, m := y - r, 2 * r + g;
    FloorRootSlope(c, g, r);
    YStepAbove(c, g, y, r);
    StepExcessForm(c, g, y, r);
    var e' := YStep(c, g, y) - r;
    assert e * e == e;
    if e' >= 2 {
      MulMono(2, e', 2 * e + m);
    }
  }

  /** A vanishing denominator at the floor root leaves only r = c = g = 0. */
  lemma YDegenerate(c: int, r: int)
    requires 0 <= c && IsFloorRoot(c, -2 * r, r)
    ensures r == 0 && c == 0
  {
    assert (r + 1) * (r + 1) + (-2 * r) * (r + 1) == 1 - r * r;
    if r > 0 { MulPos(r, r); }
  }

  lemma HalvingToZero(y: int)
    requires 0 < y && YStep(0, 0, y) <= 0
    ensures y <= 1
  {
    if y >= 2 {
      MulMono(2, y, y);
      FloorAtLeast(1, y * y, 2 * y);
    }
  }

  /** After a step that the test does not return, the next denominator is positive. */
  lemma YStepSafe(c: int, g: int, y: int)
    requires 0 <= c && 0 <= y && 2 * y + g > 0
    ensures 0 <= YStep(c, g, y)
    ensures Near(YStep(c, g, y), y) || 2 * YStep(c, g, y) + g > 0
    ensures F(c, g, YStep(c, g, y) + 1) > 0
  {
    var r := FloorRootExists(c, g);
    var y' := YStep(c, g, y);
    FloorRootSlope(c, g, r);
    YStepAbove(c, g, y, r);
    FAbove(c, g, r, y' + 1);
    if 2 * y' + g <= 0 {
      assert g == -2 * r;
      YDegenerate(c, r);
      HalvingToZero(y);
    }
  }

  /** A value the test returns is at most one unit of F above the root. */
  lemma YSettled(c: int, g: int, y: int)
    requires 0 <= c && 0 <= y && 2 * y + g > 0 && Near(YStep(c, g, y), y)
    ensures F(c, g, YStep(c, g, y)) <= 1
  {
    var v := YStep(c, g, y);
    FloorDiv(y * y + c, 2 * y + g);
    assert v * (2 * y + g) == 2 * (v * y) + g * v;
    assert (y - v) * (y - v) == y * y - 2 * (v * y) + v * v;
    assert (y - v) * (y - v) <= 1;
  }

  /** The loop of compute_y from the value y with `fuel` iterations left. */
  function NewtonY(c: int, g: int, y: int, fuel: nat): (n: Newton)
    requires 0 <= c && 0 <= y && 2 * y + g > 0
    ensures 0 <= n.value
    ensures fuel > 0 ==> F(c, g, n.value + 1) > 0
    ensures n.settled ==> F(c, g, n.value) <= 1
    decreases fuel, y
  {
    if fuel == 0 then Newton(y, false)
    else
      YStepSafe(c, g, y);
      var y' := YStep(c, g, y);
      if Near(y', y) then
        YSettled(c, g, y);
        Newton(y', true)
      else NewtonY(c, g, y', fuel - 1)
  }

  function Pow2(k: nat): (p: nat)
    ensures p >= 1
  {
    if k == 0 then 1 else 2 * Pow2(k - 1)
  }

  /** The excess halves, so an excess below 2^k is gone in k + 1 iterations. */
  lemma {:induction false} YSettlesFrom(c: int, g: int, y: int, fuel: nat, r: int, k: nat)
    requires 0 <= c && 0 <= y && 2 * y + g > 0
    requires IsFloorRoot(c, g, r) && r <= y < r + Pow2(k) && k < fuel
    ensures NewtonY(c, g, y, fuel).settled
    decreases fuel
  {
    if y <= r + 1 {
      YStepNear(c, g, y, r);
    } else {
      YStepSafe(c, g, y);
      YStepHalves(c, g, y, r);
      YStepAbove(c, g, y, r);
      if !Near(YStep(c, g, y), y) {
        YSettlesFrom(c, g, YStep(c, g, y), fuel - 1, r, k - 1);
      }
    }
  }

  lemma Pow2Of32()
    ensures Pow2(32) == 0x1_0000_0000
  {
    assert Pow2(8) == 256;
    Pow2Add(8, 8);
    Pow2Add(16, 16);
  }

  lemma Pow2Of128()
    ensures Pow2(128) == U128_MAX + 1
  {
    Pow2Of32();
    Pow2Add(32, 32);
    Pow2Add(64, 64);
  }

  lemma {:induction false} Pow2Add(j: nat, k: nat)
    ensures Pow2(j + k) == Pow2(j) * Pow2(k)
  {
    if j > 0 {
      Pow2Add(j - 1, k);
      assert Pow2(j + k) == 2 * (Pow2(j - 1) * Pow2(k));
    }
  }

  lemma YStepLe(c: int, g: int, y: int)
    requires 2 * y + g > 0 && 0 <= YStep(c, g, y)
    ensures YStep(c, g, y) <= y * y + c
  {
    FloorDiv(y * y + c, 2 * y + g);
    MulMono(1, 2 * y + g, YStep(c, g, y));
  }

  /** If the first step's numerator is a u128 value, the test ends the loop. */
  lemma YSettles(c: int, g: int, y: int)
    requires 0 <= c && 0 <= y && 2 * y + g > 0 && y * y + c <= U128_MAX
    ensures NewtonY(c, g, y, MAX_ITERATIONS).settled
  {
    var r := FloorRootExists(c, g);
    var y' := YStep(c, g, y);
    YStepSafe(c, g, y);
    YStepAbove(c, g, y, r);
    if !Near(y', y) {
      YStepLe(c, g, y);
      Pow2Of128();
      YSettlesFrom(c, g, y', MAX_ITERATIONS - 1, r, 128);
    }
  }

  // The quadratic that compute_y sets up from D, the new input reserve x and ann.

  function YC(x: int, d: int, ann: int): int
    requires x > 0 && ann > 0
  {
    d * d / (x * 2) * d / (ann * 2)
  }

  function YB(x: int, d: int, ann: int): int
    requires ann > 0
  {
    x + d / ann
  }

  /** The quadratic of compute_y: F(c, g, .) with g = b - D. */
  datatype Quadratic = Quadratic(c: int, g: int)

  function YQuadratic(reserveIn: int, amountIn: int, reserveOut: int, amp: int): Quadratic
    requires reserveIn > 0 && amountIn >= 0 && reserveOut > 0 && 1 <= amp
  {
    var d := DNewton(reserveIn, reserveOut, amp).value;
    var x, ann := reserveIn + amountIn, 4 * amp;
    Quadratic(YC(x, d, ann), YB(x, d, ann) - d)
  }

  lemma CoefficientsStart(x: int, d: int, ann: int)
    requires x > 0 && d >= 0 && ann > 0
    ensures 0 <= YC(x, d, ann) && x <= YB(x, d, ann)
  {
    Square(d);
    FloorAtLeast(0, d * d, x * 2);
    MulNonNeg(d * d / (x * 2), d);
    FloorAtLeast(0, d * d / (x * 2) * d, ann * 2);
    FloorAtLeast(0, d, ann);
  }

  /** Safe to start: c >= 0, and 2y + b - D >= 1 at y = reserveOut, because compute_d
      keeps D within the sum of the reserves. */
  lemma YStart(reserveIn: int, amountIn: int, reserveOut: int, amp: int)
    requires reserveIn > 0 && amountIn >= 0 && reserveOut > 0 && 1 <= amp
    ensures var q := YQuadratic(reserveIn, amountIn, reserveOut, amp);
            0 <= q.c && 1 <= 2 * reserveOut + q.g
  {
    DNewtonRange(reserveIn, reserveOut, amp);
    CoefficientsStart(reserveIn + amountIn, DNewton(reserveIn, reserveOut, amp).value, 4 * amp);
  }

  /** compute_y on positive reserves. */
  function YNewton(reserveIn: int, amountIn: int, reserveOut: int, amp: int): (n: Newton)
    requires reserveIn > 0 && amountIn >= 0 && reserveOut > 0 && 1 <= amp
    ensures 0 <= n.value
    ensures var q := YQuadratic(reserveIn, amountIn, reserveOut, amp);
            F(q.c, q.g, n.value + 1) > 0 && (n.settled ==> F(q.c, q.g, n.value) <= 1)
  {
    YStart(reserveIn, amountIn, reserveOut, amp);
    var q := YQuadratic(reserveIn, amountIn, reserveOut, amp);
    NewtonY(q.c, q.g, reserveOut, MAX_ITERATIONS)
  }

  /** The value compute_y returns is the floored positive root of its quadratic, except
      that it may be one more when that makes the quadratic exactly 1. */
  lemma YNewtonIsFloorRoot(reserveIn: int, amountIn: int, reserveOut: int, amp: int, r: int)
    requires reserveIn > 0 && amountIn >= 0 && reserveOut > 0 && 1 <= amp
    requires var q := YQuadratic(reserveIn, amountIn, reserveOut, amp);
             reserveOut * reserveOut + q.c <= U128_MAX && IsFloorRoot(q.c, q.g, r)
    ensures var q := YQuadratic(reserveIn, amountIn, reserveOut, amp);
            var n := YNewton(reserveIn, amountIn, reserveOut, amp);
            n.settled && (n.value == r || (n.value == r + 1 && F(q.c, q.g, n.value) == 1))
  {
    YStart(reserveIn, amountIn, reserveOut, amp);
    var q := YQuadratic(reserveIn, amountIn, reserveOut, amp);
    NewtonYIsFloorRoot(q.c, q.g, reserveOut, r);
  }

  lemma YNewtonIsSettled(reserveIn: int, amountIn: int, reserveOut: int, amp: int)
    requires reserveIn > 0 && amountIn >= 0 && reserveOut > 0 && 1 <= amp
    requires reserveOut * reserveOut + YQuadratic(reserveIn, amountIn, reserveOut, amp).c <= U128_MAX
    ensures YNewton(reserveIn, amountIn, reserveOut, amp).settled
  {
    YStart(reserveIn, amountIn, reserveOut, amp);
    var q := YQuadratic(reserveIn, amountIn, reserveOut, amp);
    YSettles(q.c, q.g, reserveOut);
  }

  lemma NewtonYIsFloorRoot(c: int, g: int, y: int, r: int)
    requires 0 <= c && 0 <= y && 2 * y + g > 0 && y * y + c <= U128_MAX
    requires IsFloorRoot(c, g, r)
    ensures var n := NewtonY(c, g, y, MAX_ITERATIONS);
            n.settled && (n.value == r || (n.value == r + 1 && F(c, g, n.value) == 1))
  {
    YSettles(c, g, y);
    FloorRootPinned(c, g, r, NewtonY(c, g, y, MAX_ITERATIONS).value);
  }

  /** Where the returned value lies relative to any v, told by the sign of F just above v. */
  lemma YNewtonCompare(reserveIn: int, amountIn: int, reserveOut: int, amp: int, v: int)
    requires reserveIn > 0 && amountIn >= 0 && reserveOut > 0 && 1 <= amp && 0 <= v
    requires var q := YQuadratic(reserveIn, amountIn, reserveOut, amp);
             reserveOut * reserveOut + q.c <= U128_MAX
    ensures var q := YQuadratic(reserveIn, amountIn, reserveOut, amp);
            var y := YNewton(reserveIn, amountIn, reserveOut, amp).value;
            (F(q.c, q.g, v + 1) <= 0 ==> v < y) && (F(q.c, q.g, v + 1) > 1 ==> y <= v)
  {
    YStart(reserveIn, amountIn, reserveOut, amp);
    var q := YQuadratic(reserveIn, amountIn, reserveOut, amp);
    var r := FloorRootExists(q.c, q.g);
    YNewtonIsFloorRoot(reserveIn, amountIn, reserveOut, amp, r);
    FloorRootCompare(q.c, q.g, r, v);
  }

  lemma FloorRootCompare(c: int, g: int, r: int, v: int)
    requires 0 <= c && 0 <= v && IsFloorRoot(c, g, r)
    ensures F(c, g, v + 1) <= 0 <==> v < r
  {
    if v < r { FBelow(c, g, r, v + 1); } else { FAbove(c, g, r, v + 1); }
  }

  // More input leaves no more than one unit more.

  lemma CNumeratorMono(x: int, x': int, d: int, ann: int)
    requires 0 < x <= x' && 0 <= d && 0 < ann
    ensures YC(x', d, ann) <= YC(x, d, ann)
  {
    Square(d);
    var h, h' := d * d / (x * 2), d * d / (x' * 2);
    FloorDiv(d * d, x' * 2);
    FloorAtLeast(0, d * d, x' * 2);
    MulMono(x * 2, x' * 2, h');
    FloorAtLeast(h', d * d, x * 2);
    MulMono(h', h, d);
    FloorDiv(h' * d, ann * 2);
    FloorAtLeast(h' * d / (ann * 2), h * d, ann * 2);
  }

  lemma FMono(c: int, g: int, c': int, g': int, v: int)
    requires c' <= c && g <= g' && 0 <= v
    ensures F(c, g, v) <= F(c', g', v)
  {
    MulMono(g, g', v);
  }

  /** For a larger input the solver's result is at most one more: the floored root does not rise,
      and the result is that root or its successor. */
  lemma YNewtonMono(reserveIn: int, amount: int, more: int, reserveOut: int, amp: int)
    requires reserveIn > 0 && 0 <= amount <= more && reserveOut > 0 && 1 <= amp
    requires reserveOut * reserveOut + YQuadratic(reserveIn, amount, reserveOut, amp).c <= U128_MAX
    ensures YNewton(reserveIn, more, reserveOut, amp).value <= YNewton(reserveIn, amount, reserveOut, amp).value + 1
  {
    var q, q' := YQuadratic(reserveIn, amount, reserveOut, amp), YQuadratic(reserveIn, more, reserveOut, amp);
    var d := DNewton(reserveIn, reserveOut, amp).value;
    DNewtonRange(reserveIn, reserveOut, amp);
    CNumeratorMono(reserveIn + amount, reserveIn + more, d, 4 * amp);
    YStart(reserveIn, amount, reserveOut, amp);
    YStart(reserveIn, more, reserveOut, amp);
    var r := FloorRootExists(q.c, q.g);
    var r' := FloorRootExists(q'.c, q'.g);
    YNewtonIsFloorRoot(reserveIn, amount, reserveOut, amp, r);
    YNewtonIsFloorRoot(reserveIn, more, reserveOut, amp, r');
    FMono(q.c, q.g, q'.c, q'.g, r + 1);
    FloorRootCompare(q'.c, q'.g, r', r);
  }

  /** Reserves (1, 1), amplification 1, input 2: the solver returns 0. */
  lemma TinyPoolSolvesToZero(reserveIn: int, amountIn: int, reserveOut: int, amp: int)
    requires reserveIn == 1 && amountIn == 2 && reserveOut == 1 && amp == 1
    ensures YQuadratic(reserveIn, amountIn, reserveOut, amp) == Quadratic(0, 1)
    ensures YNewton(reserveIn, amountIn, reserveOut, amp).value == 0
  {
    EqualReserves(reserveIn, amp);
    assert YC(3, 2, 4) == 0 && YB(3, 2, 4) == 3;
    assert YQuadratic(reserveIn, amountIn, reserveOut, amp) == Quadratic(0, 1);
    FirstStepDown(0, 1, reserveOut, MAX_ITERATIONS);
  }

  /** The first step decides: from 1 it goes to 0, and with c == g == 0 from 2 to 1. */
  lemma FirstStepDown(c: int, g: int, y: int, fuel: nat)
    requires c == 0 && 0 <= g <= 1 && 1 <= y <= 2 && (g == 1 ==> y == 1) && fuel > 0
    ensures NewtonY(c, g, y, fuel) == Newton(y - 1, true)
  {
    assert YStep(c, g, y) == y - 1;
  }

  /** Reserves (1, r) with r in 1..2: D is 1 + r, by convergence of the first step. */
  lemma BoundaryD(a: int, r: int, amp: int)
    requires a == 1 && 1 <= r <= 2 && amp == 1
    ensures DNewton(a, r, amp) == Newton(1 + r, true)
  {
    if r == 1 {
      EqualReserves(a, amp);
    } else {
      DStartInv(a, r, 4 * amp);
      assert DpHalf(1, 3) == 4 && Dp(1, 2, 3) == 3 && DStep(1, 2, 4, 3) == 3;
      assert Near(DStep(a, r, 4 * amp, a + r), a + r);
    }
  }

  /** Reserves (1, r) with r in 1..2, amplification 1, input r: c == g == 0. */
  lemma BoundaryQuadratic(reserveIn: int, amountIn: int, reserveOut: int, amp: int)
    requires reserveIn == 1 && 1 <= reserveOut <= 2 && amountIn == reserveOut && amp == 1
    ensures YQuadratic(reserveIn, amountIn, reserveOut, amp) == Quadratic(0, 0)
  {
    BoundaryD(reserveIn, reserveOut, amp);
    BoundaryCoefficients(1 + reserveOut);
  }

  lemma BoundaryPools(reserveIn: int, amountIn: int, reserveOut: int, amp: int)
    requires reserveIn == 1 && 1 <= reserveOut <= 2 && amountIn == reserveOut && amp == 1
    ensures YNewton(reserveIn, amountIn, reserveOut, amp).value == reserveOut - 1
  {
    BoundaryQuadratic(reserveIn, amountIn, reserveOut, amp);
    FirstStepDown(YQuadratic(reserveIn, amountIn, reserveOut, amp).c, YQuadratic(reserveIn, amountIn, reserveOut, amp).g,
                  reserveOut, MAX_ITERATIONS);
  }

  lemma BoundaryCoefficients(d: int)
    requires 2 <= d <= 3
    ensures YC(d, d, 4) == 0 && YB(d, d, 4) == d
  {}

  lemma FloorRootPinned(c: int, g: int, r: int, v: int)
    requires IsFloorRoot(c, g, r) && 0 <= v
    requires F(c, g, v) <= 1 && F(c, g, v + 1) > 0
    requires 0 <= c
    ensures v == r || (v == r + 1 && F(c, g, v) == 1)
  {
    FloorRootSlope(c, g, r);
    if v > r + 1 {
      FAbove(c, g, r, v - 1);
      FNext(c, g, v - 1);
    } else if v == r + 1 {
      FAbove(c, g, r, v);
    } else if v < r {
      FBelow(c, g, r, v + 1);
    }
  }

  /** F is not positive anywhere between 0 and the floor root: it is convex and F(0) = -c. */
  lemma FBelow(c: int, g: int, r: int, v: int)
    requires 0 <= c && IsFloorRoot(c, g, r) && 0 <= v <= r
    ensures F(c, g, v) <= 0
  {
    assert F(c, g, v) == v * (v + g) - c;
    assert F(c, g, r) == r * (r + g) - c;
    if v + g > 0 {
      MulMono(v, r, v + g);
      MulMono(v + g, r + g, r);
    } else {
      MulNonNeg(v, -(v + g));
    }
  }

  /** The code's loop. None stands for an abort. */
  method ComputeY(reserveIn: nat, amountIn: nat, reserveOut: nat, amp: nat) returns (r: Option<nat>)
    requires 1 <= amp
    ensures reserveIn + reserveOut == 0 ==> r == Some(0)
    ensures reserveIn + reserveOut != 0 && (reserveIn == 0 || reserveOut == 0) ==> r == None
    ensures reserveIn > 0 && reserveOut > 0 ==>
              r == Some(YNewton(reserveIn, amountIn, reserveOut, amp).value)
  {
    var ann := amp * 2 * 2;
    var dr := ComputeD(reserveIn, reserveOut, amp);
    if dr == None { return None; }
    var d := dr.value;
    if reserveIn > 0 && reserveOut > 0 { DNewtonRange(reserveIn, reserveOut, amp); }
    if d == 0 { return Some(0); }
    var x := reserveIn + amountIn;
    YStart(reserveIn, amountIn, reserveOut, amp);
    var c, b := Coefficients(x, d, ann);
    assert Quadratic(c, b - d) == YQuadratic(reserveIn, amountIn, reserveOut, amp) by { assert ann == 4 * amp; }
    var y := IterateY(c, b, d, reserveOut);
    return Some(y);
  }

  /** The two coefficients compute_y forms before its loop. */
  method Coefficients(x: nat, d: nat, ann: nat) returns (c: int, b: int)
    requires x > 0 && ann > 0
    ensures c == YC(x, d, ann) && b == YB(x, d, ann)
  {
    c := d;
    c := c * d / (x * 2);
    c := c * d / (ann * 2);
    b := x + d / ann;
  }

  /** The loop of compute_y; its unsigned subtraction never underflows. */
  method IterateY(c: int, b: int, d: int, reserveOut: nat) returns (y: int)
    requires 0 <= c && 2 * reserveOut + b - d > 0
    ensures y == NewtonY(c, b - d, reserveOut, MAX_ITERATIONS).value
  {
    y := reserveOut;
    for i := 0 to MAX_ITERATIONS
      invariant 0 <= y && 2 * y + b - d > 0
      invariant NewtonY(c, b - d, y, MAX_ITERATIONS - i) == NewtonY(c, b - d, reserveOut, MAX_ITERATIONS)
    {
      YStepSafe(c, b - d, y);
      var yPrev := y;
      y := (y * y + c) / (2 * y + b - d);
      if y > yPrev {
        if y - yPrev <= 1 { return; }
      } else {
        if yPrev - y <= 1 { return; }
      }
    }
  }
}
