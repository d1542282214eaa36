/** How far above the true invariant any returned D can be, converged or not, and what that
    buys: the pool's two other unsigned subtractions, reserve_out - y in a swap and d1 - d0 in
    a later deposit, never underflow. The bound says that D stays below the invariant of a pool
    with one more unit on each side, give or take one unit of slack.

    The proof follows the iterates. A value above the bound comes down by a third of its
    distance in every step (StepContracts), so 256 steps are enough for 128-bit reserves; a
    value within the bound may rise again, because of the floors, but not beyond it
    (RiseStaysBelow). */
module StableBound {
  import opened Arithmetic
  import opened StableMath

  /** The cofactor of 4ab in the invariant equation: ann * S - (ann - 1) * e. */
  function Slack(s: int, ann: int, e: int): int { ann * s - (ann - 1) * e }

  /** e is below the invariant of the pool (a + 1, b + 1), with one unit of slack. */
  ghost predicate Below(a: int, b: int, ann: int, e: int)
  {
    e * e * e < Prod(a + 1, b + 1) * (Slack(a + b, ann, e) + 1)
  }

  lemma SlackMono(s: int, ann: int, v: int, w: int)
    requires 1 <= ann && v <= w
    ensures Slack(s, ann, w) <= Slack(s, ann, v)
  {
    MulMono(v, w, ann - 1);
  }

  lemma SlackAtLeast(s: int, ann: int, e: int)
    requires 1 <= ann && e <= s
    ensures s <= Slack(s, ann, e)
  {
    SlackMono(s, ann, e, s);
    assert ann * s - (ann - 1) * s == s;
  }

  lemma GrownProd(a: int, b: int)
    ensures Prod(a + 1, b + 1) == Prod(a, b) + 4 * (a + b + 1)
  {
    assert (a + 1) * (b + 1) == a * b + a + b + 1;
    assert Prod(a, b) == 4 * (a * b) && Prod(a + 1, b + 1) == 4 * ((a + 1) * (b + 1));
  }

  lemma FourA(a: int, b: int)
    requires 1 <= a && 1 <= b
    ensures 4 * a <= Prod(a, b)
  {
    MulMono(1, b, a);
    assert Prod(a, b) == 4 * (a * b);
  }

  lemma BelowMono(a: int, b: int, ann: int, v: int, w: int)
    requires 1 <= a && 1 <= b && 1 <= ann && 0 <= v <= w && Below(a, b, ann, w)
    ensures Below(a, b, ann, v)
  {
    CubeLe(v, w);
    SlackMono(a + b, ann, v, w);
    PositiveProd(a + 1, b + 1);
    MulMono(Slack(a + b, ann, w) + 1, Slack(a + b, ann, v) + 1, Prod(a + 1, b + 1));
  }

  lemma SmallScale(cube: int, q: int, k: int, s: int)
    requires 0 <= s <= k && 8 * s <= q && cube < 8 * s * (s + 1)
    ensures cube < q * (k + 1)
  {
    MulMono(8 * s, q, s + 1);
    MulMono(s + 1, k + 1, q);
  }

  /** Small values are below anyway. */
  lemma SmallBelow(a: int, b: int, ann: int, e: int)
    requires 1 <= a && 1 <= b && 1 <= ann && 0 <= e <= a + b
    requires e * e * e < 8 * (a + b) * (a + b + 1)
    ensures Below(a, b, ann, e)
  {
    MulNonNeg(a - 1, b - 1);
    SumProduct(a, b);
    GrownProd(a, b);
    SlackAtLeast(a + b, ann, e);
    SmallScale(e * e * e, Prod(a + 1, b + 1), Slack(a + b, ann, e), a + b);
  }

  lemma SumProduct(a: int, b: int)
    requires 0 <= (a - 1) * (b - 1)
    ensures 4 * (a + b - 1) <= Prod(a, b)
  {
    assert (a - 1) * (b - 1) == a * b - a - b + 1;
    assert Prod(a, b) == 4 * (a * b);
  }

  // ---------------------------------------------------------------- converged values

  /** The excess at e, in terms of the cofactor. */
  lemma ExcessForm(a: int, b: int, ann: int, e: int)
    ensures DExcess(a, b, ann, e) == e * e * e - Slack(a + b, ann, e) * Prod(a, b)
  {
    assert Slack(a + b, ann, e) * Prod(a, b)
        == (ann * (a + b)) * Prod(a, b) - ((ann - 1) * e) * Prod(a, b);
  }

  /** Everything a converged D can exceed the invariant by is below 4 (S + 1)^2. */
  lemma SlackOfD(a: int, s: int, e: int)
    requires 1 <= a <= s && 1 <= e <= s && 2 <= s
    ensures 2 * a * (e + 2) + 6 * e + 5 < 4 * ((s + 1) * (s + 1))
  {
    MulMono(a, s, e + 2);
    MulMono(e + 2, s + 2, s);
    assert 2 * a * (e + 2) == 2 * (a * (e + 2));
    assert (s + 2) * s == s * s + 2 * s;
    assert (s + 1) * (s + 1) == s * s + 2 * s + 1;
    MulMono(2, s, s);
  }

  lemma GrownTerm(p: int, s: int, k: int)
    requires 0 <= s <= k
    ensures k * p + p + 4 * ((s + 1) * (s + 1)) <= (p + 4 * (s + 1)) * (k + 1)
  {
    assert (p + 4 * (s + 1)) * (k + 1) == k * p + p + 4 * ((s + 1) * (k + 1));
    MulMono(s + 1, k + 1, s + 1);
  }

  lemma SettledBelow(a: int, b: int, ann: int, e: int)
    requires 1 <= a && 1 <= b && 4 <= ann && 1 <= e <= a + b && DUpper(a, b, ann, e)
    ensures Below(a, b, ann, e)
  {
    var s := a + b;
    ExcessForm(a, b, ann, e);
    SlackAtLeast(s, ann, e);
    GrownProd(a, b);
    SlackOfD(a, s, e);
    GrownTerm(Prod(a, b), s, Slack(s, ann, e));
  }

  // ---------------------------------------------------------------- one step

  lemma SlackTimes(s: int, ann: int, e: int, d: int)
    ensures d * Slack(s, ann, e) == (ann * s) * d - ((ann - 1) * e) * d
  {
    assert (ann * s - (ann - 1) * e) * d == (ann * s) * d - ((ann - 1) * e) * d;
  }

  /** What the floored step e from d says: d_p (3e - 2d) is at most d times the cofactor at e. */
  lemma StepSlack(a: int, b: int, ann: int, d: int, e: int)
    requires 1 <= a && 1 <= b && DDenominator(ann, d, Dp(a, b, d)) > 0 && e == DStep(a, b, ann, d)
    ensures Dp(a, b, d) * (3 * e - 2 * d) <= d * Slack(a + b, ann, e)
  {
    FloorDiv(DNumerator(a + b, ann, d, Dp(a, b, d)), DDenominator(ann, d, Dp(a, b, d)));
    SettledLinear(ann, a + b, d, Dp(a, b, d), e);
    SlackTimes(a + b, ann, e, d);
  }

  lemma ContractScale(q: int, dp: int, u: int, d: int, k: int, kv: int, v: int)
    requires 0 <= dp && 1 <= d && 1 <= q && v <= u && k <= kv
    requires dp * u <= d * k && q * (kv + 1) <= v * v * v
    ensures q * (dp * v) + d * q <= d * (v * v * v)
  {
    MulMono(v, u, dp);
    MulMono(k, kv, d);
    MulMono(dp * v, d * kv, q);
    assert d * kv * q == d * (q * kv);
    MulMono(q * (kv + 1), v * v * v, d);
    assert q * (kv + 1) * d == d * (q * kv) + d * q;
  }

  lemma ContractDivide(q: int, dp: int, p: int, y: int, d: int, v: int)
    requires 1 <= v <= d && 1 <= p && 1 <= q && y <= dp * p
    requires q * (dp * v) + d * q <= d * (v * v * v)
    ensures q * y + q * p <= p * (d * d * d)
  {
    // times p, with d_p p >= y and d >= v put in, then divided by v
    MulMono(q * (dp * v) + d * q, d * (v * v * v), p);
    assert (q * (dp * v) + d * q) * p == (dp * p) * (q * v) + (q * p) * d by { Gather(q, dp, v, d, p); }
    MulPos(q, v);
    MulPos(q, p);
    MulMono(y, dp * p, q * v);
    MulMono(v, d, q * p);
    assert y * (q * v) == (q * y) * v;
    assert v * (q * p) == (q * p) * v;
    assert d * (v * v * v) * p == (p * (d * (v * v))) * v by { GatherCube(d, v, p); }
    assert (q * y + q * p) * v == (q * y) * v + (q * p) * v;
    MulCancelLe(q * y + q * p, p * (d * (v * v)), v);
    SquareLe(v, d);
    MulMono(v * v, d * d, d);
    MulMono(d * (v * v), d * (d * d), p);
  }

  lemma Gather(q: int, dp: int, v: int, d: int, p: int)
    ensures (q * (dp * v) + d * q) * p == (dp * p) * (q * v) + (q * p) * d
  {
    assert q * (dp * v) * p == (dp * p) * (q * v) by {
      assert q * (dp * v) == dp * (q * v);
      assert dp * (q * v) * p == (dp * p) * (q * v);
    }
    assert d * q * p == (q * p) * d;
  }

  lemma GatherCube(d: int, v: int, p: int)
    ensures d * (v * v * v) * p == (p * (d * (v * v))) * v
  {
    assert d * (v * v * v) == (d * (v * v)) * v;
  }

  lemma GapTail(a: int, m: int, p: int, dd: int)
    requires 1 <= a < m && 4 * a <= p <= dd
    ensures p * dd < (p + 4 * m) * dd - (p + 4 * m) * (2 * a)
  {
    assert (p + 4 * m) * dd == p * dd + 4 * (m * dd);
    assert (p + 4 * m) * (2 * a) == 2 * (p * a) + 8 * (m * a);
    MulMono(p, dd, a);
    MulMono(4 * a, dd, m);
    ScaleLt(a, m, dd);
  }

  /** One more unit on each side outweighs what the nested floors of d_p can hide. */
  lemma ContractGap(a: int, s: int, p: int, d: int)
    requires 1 <= a <= s && 4 * a <= p <= d * d && 1 <= d
    ensures p * (d * d * d) < (p + 4 * (s + 1)) * (d * d * d - 2 * a * d - p) + (p + 4 * (s + 1)) * p
  {
    var q, dd := p + 4 * (s + 1), d * d;
    GapTail(a, s + 1, p, dd);
    ScaleLt(p * dd, q * dd - q * (2 * a), d);
    Expand(q, d, a, p);
    CubeTimes(p, d);
  }

  lemma CubeTimes(p: int, d: int)
    ensures p * (d * d * d) == p * (d * d) * d
  {}

  lemma Expand(q: int, d: int, a: int, p: int)
    ensures q * (d * d * d - 2 * a * d - p) + q * p == (q * (d * d) - q * (2 * a)) * d
  {
    assert q * (d * d * d - 2 * a * d - p) == q * (d * d * d) - q * (2 * a * d) - q * p;
    assert q * (d * d * d) == (q * (d * d)) * d;
    assert q * (2 * a * d) == (q * (2 * a)) * d;
  }

  /** Above the bound, a step that does not get below it comes down by a third of the way to
      the largest value t below it. */
  lemma StepContracts(a: int, b: int, ann: int, d: int, e: int, t: int)
    requires 1 <= a && 1 <= b && 4 <= ann && DInv(a, b, ann, d)
    requires DDenominator(ann, d, Dp(a, b, d)) > 0 && e == DStep(a, b, ann, d)
    requires 0 <= t < d && t < e && !Below(a, b, ann, t + 1)
    ensures 3 * (e - t) <= 2 * (d - t)
  {
    if 3 * e > 2 * d + t {
      var s, p, q, v, dp := a + b, Prod(a, b), Prod(a + 1, b + 1), t + 1, Dp(a, b, d);
      StepSlack(a, b, ann, d, e);
      SlackMono(s, ann, v, e);
      DpAtMost(a, b, d);
      PositiveProd(a, b);
      PositiveProd(a + 1, b + 1);
      ContractScale(q, dp, 3 * e - 2 * d, d, Slack(s, ann, e), Slack(s, ann, v), v);
      DpAbove(a, b, d);
      ContractDivide(q, dp, p, d * d * d - 2 * a * d - p, d, v);
      GrownProd(a, b);
      FourA(a, b);
      ContractGap(a, s, p, d);
    }
  }

  // A rise from a value within the bound.

  lemma ProdAtMostSide(a: int, b: int, d: int)
    requires 1 <= a && 1 <= b && 1 <= d && Prod(a, b) <= d * d
    ensures Prod(a, b) <= d * (a + b)
  {
    SumSquare(a, b);
    if d <= a + b {
      MulMono(d, a + b, d);
    } else {
      MulMono(a + b, d, a + b);
    }
  }

  lemma RiseUpper(p: int, m: int, k: int, cube: int, d: int)
    requires 1 <= d && 1 <= p && 0 <= m && (p + m) * (k + 1) <= cube
    ensures p * (d * k) + (m * d) * k < cube * d
  {
    assert (p + m) * (k + 1) == p * k + m * k + p + m;
    ScaleLt(p * k + m * k, cube, d);
    assert (p * k + m * k) * d == p * (d * k) + (m * d) * k;
  }

  lemma RiseNoise(d: int, a: int, p: int, u: int)
    ensures (d * d * d - 2 * a * d - p) * u == (d * d * u) * d - (2 * a * d + p) * u
  {
    assert (d * d * d - (2 * a * d + p)) * u == d * d * d * u - (2 * a * d + p) * u;
    assert d * d * d * u == (d * d * u) * d;
  }

  lemma RiseCancel(md: int, k: int, u: int, noise: int, x: int)
    requires 1 <= u <= k && 0 <= md && md * k < noise * u + x * u
    ensures md < noise + x
  {
    MulMono(u, k, md);
    assert noise * u + x * u == (noise + x) * u;
    MulCancelLt(md, noise + x, u);
  }

  /** If the step e = d + rise is not below the bound, the rise is large. */
  lemma RiseCore(a: int, s: int, p: int, d: int, dp: int, k: int, rise: int)
    requires 1 <= d <= dp && 1 <= rise && 1 <= p && 0 <= s
    requires dp * (d + 3 * rise) <= d * k && d * d * d - 2 * a * d - p <= dp * p
    requires (p + 4 * (s + 1)) * (k + 1) <= (d + rise) * (d + rise) * (d + rise)
    ensures 4 * (s + 1) * d < 2 * a * d + p + 3 * (d * (rise * rise))
  {
    var u, m, x := d + 3 * rise, 4 * (s + 1), d * (rise * rise);
    assert u <= k by { MulMono(d, dp, u); MulCancelLe(u, k, d); }
    RiseLower(d * d * d - 2 * a * d - p, dp, p, u, d, k);
    RiseUpper(p, m, k, (d + rise) * (d + rise) * (d + rise), d);
    CubeOfRise(d, rise);
    RiseNoise(d, a, p, u);
    MulNonNeg(m, d);
    RiseCancel(m * d, k, u, 2 * a * d + p, 3 * x);
  }

  lemma RiseLower(y: int, dp: int, p: int, u: int, d: int, k: int)
    requires 0 <= u && 0 <= p && y <= dp * p && dp * u <= d * k
    ensures y * u <= p * (d * k)
  {
    MulMono(y, dp * p, u);
    MulMono(dp * u, d * k, p);
    assert dp * p * u == dp * u * p;
  }

  /** (d + h)^3 d <= d^2 (d + 3h) d + 3 d h^2 (d + 3h). */
  lemma CubeOfRise(d: int, h: int)
    requires 1 <= d && 1 <= h
    ensures ((d + h) * (d + h) * (d + h)) * d <= (d * d * (d + 3 * h)) * d + 3 * (d * (h * h)) * (d + 3 * h)
  {
    var x := d * (h * h);
    MulPos(h, h);
    MulPos(d, h * h);
    assert (d + h) * (d + h) == d * d + 2 * d * h + h * h;
    assert (d + h) * (d + h) * (d + h) == d * d * (d + 3 * h) + (h * h) * (3 * d + h) by { CubeIdentity(d + h, d); }
    assert (h * h) * (3 * d + h) * d == x * (3 * d + h);
    MulMono(3 * d + h, 3 * (d + 3 * h), x);
    assert 3 * (d + 3 * h) * x == 3 * x * (d + 3 * h);
  }

  /** The same step bounds the rise from above: d + 1 is not below the true invariant. */
  lemma RiseBound(a: int, b: int, ann: int, d: int, e: int, rise: int)
    requires 1 <= a && 1 <= b && 4 <= ann && DInv(a, b, ann, d)
    requires DDenominator(ann, d, Dp(a, b, d)) > 0 && e == DStep(a, b, ann, d) == d + rise && 1 <= rise
    ensures var p, y := Prod(a, b), d * d * d - 2 * a * d - Prod(a, b);
            y * (d + 3 * rise) + 3 * (rise - 1) * (p * d) < d * ((d + 1) * (d + 1) * (d + 1))
  {
    var s, p, k, k1 := a + b, Prod(a, b), Slack(a + b, ann, e), Slack(a + b, ann, d + 1);
    StepSlack(a, b, ann, d, e);
    DpAbove(a, b, d);
    PositiveProd(a, b);
    RiseLower(d * d * d - 2 * a * d - p, Dp(a, b, d), p, d + 3 * rise, d, k);
    ExcessForm(a, b, ann, d + 1);
    SlackShift(s, ann, d + 1, rise - 1);
    RiseBoundScale(p, d, k, k1, rise, (d + 1) * (d + 1) * (d + 1));
  }

  lemma SlackShift(s: int, ann: int, v: int, x: int)
    requires 4 <= ann && 0 <= x
    ensures Slack(s, ann, v + x) + 3 * x <= Slack(s, ann, v)
  {
    assert (ann - 1) * (v + x) == (ann - 1) * v + (ann - 1) * x;
    MulMono(3, ann - 1, x);
  }

  lemma RiseBoundScale(p: int, d: int, k: int, k1: int, rise: int, cube: int)
    requires 1 <= p && 1 <= d && k + 3 * (rise - 1) <= k1 && k1 * p < cube
    ensures p * (d * k) + 3 * (rise - 1) * (p * d) < d * cube
  {
    MulPos(p, d);
    MulMono(k + 3 * (rise - 1), k1, p * d);
    assert (k + 3 * (rise - 1)) * (p * d) == p * (d * k) + 3 * (rise - 1) * (p * d);
    assert k1 * (p * d) == k1 * p * d;
    ScaleLt(k1 * p, cube, d);
  }

  lemma FourthPower(d: int)
    ensures d * ((d + 1) * (d + 1) * (d + 1)) == (d * d * d) * d + 3 * (d * d * d) + 3 * (d * d) + d
  {
    assert (d + 1) * (d + 1) == d * d + 2 * d + 1;
    assert (d + 1) * (d + 1) * (d + 1) == d * d * d + 3 * (d * d) + 3 * d + 1;
  }

  lemma RiseSum(cd: int, c: int, dd: int, d: int, add: int, pd: int, hc: int, had: int, hp: int, hpd: int)
    requires cd - 2 * add - pd + 3 * hc - 6 * had - 3 * hp + 3 * hpd - 3 * pd < cd + 3 * c + 3 * dd + d
    requires 4 * had <= hpd
    ensures 6 * hc + 3 * hpd - 6 * hp < 6 * c + 6 * dd + 2 * d + 4 * add + 8 * pd
  {}

  lemma FourAh(a: int, p: int, d: int, h: int)
    requires 4 * a <= p && 1 <= d && 1 <= h
    ensures 4 * (h * (a * d)) <= h * (p * d)
  {
    MulPos(h, d);
    MulMono(4 * a, p, h * d);
    assert 4 * a * (h * d) == 4 * (h * (a * d));
    assert p * (h * d) == h * (p * d);
  }

  lemma TimesPred(h: int, x: int)
    ensures 3 * (h - 1) * x == 3 * (h * x) - 3 * x
  {}

  /** ... with the products multiplied out and 4a <= P put in. */
  lemma RiseLinear(a: int, p: int, d: int, h: int, lhs: int, rhs: int)
    requires 1 <= a && 1 <= d && 1 <= h && 4 * a <= p
    requires lhs == (d * d * d - 2 * a * d - p) * (d + 3 * h) && rhs == d * ((d + 1) * (d + 1) * (d + 1))
    requires lhs + 3 * (h - 1) * (p * d) < rhs
    ensures 6 * (h * (d * d * d)) + 3 * (h * (p * d)) - 6 * (h * p)
            < 6 * (d * d * d) + 6 * (d * d) + 2 * d + 4 * (a * (d * d)) + 8 * (p * d)
  {
    var c, dd, pd := d * d * d, d * d, p * d;
    var cd, add, hc, had, hp, hpd := c * d, a * dd, h * c, h * (a * d), h * p, h * pd;
    assert rhs == cd + 3 * c + 3 * dd + d by { FourthPower(d); }
    assert lhs == cd - 2 * add - pd + 3 * hc - 6 * had - 3 * hp by { RiseExpand(c, a, d, p, h); }
    assert 3 * (h - 1) * pd == 3 * hpd - 3 * pd by { TimesPred(h, pd); }
    assert 4 * had <= hpd by { FourAh(a, p, d, h); }
    RiseSum(cd, c, dd, d, add, pd, hc, had, hp, hpd);
  }

  lemma RiseExpand(c: int, a: int, d: int, p: int, h: int)
    ensures (c - 2 * a * d - p) * (d + 3 * h)
            == c * d - 2 * (a * (d * d)) - p * d + 3 * (h * c) - 6 * (h * (a * d)) - 3 * (h * p)
  {
    assert (c - 2 * a * d - p) * d == c * d - 2 * (a * (d * d)) - p * d by { assert 2 * a * d * d == 2 * (a * (d * d)); }
    assert (c - 2 * a * d - p) * (3 * h) == 3 * (h * c) - 6 * (h * (a * d)) - 3 * (h * p) by {
      assert 2 * a * d * (3 * h) == 6 * (h * (a * d));
    }
  }

  lemma RiseSquare(a: int, b: int, p: int, d: int, h: int)
    requires 1 <= d && p <= d * (a + b)
    requires 4 * (a + b + 1) * d < 2 * a * d + p + 3 * (d * (h * h))
    ensures a + 3 * b + 4 < 3 * (h * h)
  {
    assert 2 * a * d + d * (a + b) + 3 * (d * (h * h)) == (3 * a + b + 3 * (h * h)) * d;
    MulCancelLt(4 * (a + b + 1), 3 * a + b + 3 * (h * h), d);
  }

  lemma RiseLargeLinear(hc: int, c: int, dd: int, d: int, add: int, pd: int, hp: int, hpd: int)
    requires 6 * hc + 3 * hpd - 6 * hp < 6 * c + 6 * dd + 2 * d + 4 * add + 8 * pd
    requires 8 * pd <= 3 * hpd - 6 * hp
    ensures 3 * (hc - c) < 3 * dd + d + 2 * add
  {}

  /** Rises of four or more are short against a / d. */
  lemma RiseLarge(a: int, p: int, d: int, h: int)
    requires 1 <= a && 6 <= d && 4 <= h && 0 <= p
    requires 6 * (h * (d * d * d)) + 3 * (h * (p * d)) - 6 * (h * p)
             < 6 * (d * d * d) + 6 * (d * d) + 2 * d + 4 * (a * (d * d)) + 8 * (p * d)
    ensures 3 * ((h - 1) * d) <= 2 * a + 3
  {
    var c, dd := d * d * d, d * d;
    assert 8 * (p * d) <= 3 * (h * (p * d)) - 6 * (h * p) by { RiseWeight(p, d, h); }
    RiseLargeLinear(h * c, c, dd, d, a * dd, p * d, h * p, h * (p * d));
    assert 3 * (h * c - c) == 3 * ((h - 1) * d) * d * d by { RiseCube(h, d); }
    assert 3 * dd + d + 2 * (a * dd) == (3 * d + 1 + 2 * (a * d)) * d by { RiseRight(a, d); }
    MulCancelLt(3 * ((h - 1) * d) * d, 3 * d + 1 + 2 * (a * d), d);
    assert (2 * a + 3) * d == 2 * (a * d) + 3 * d;
    MulCancelLe(3 * ((h - 1) * d), 2 * a + 3, d);
  }

  lemma RiseWeight(p: int, d: int, h: int)
    requires 0 <= p && 6 <= d && 4 <= h
    ensures 8 * (p * d) <= 3 * (h * (p * d)) - 6 * (h * p)
  {
    assert 3 * (h * (p * d)) - 6 * (h * p) == 3 * ((p * (d - 2)) * h);
    MulNonNeg(p, d - 2);
    MulMono(4, h, p * (d - 2));
    assert p * (d - 2) == p * d - 2 * p;
    MulMono(6, d, p);
  }

  lemma RiseCube(h: int, d: int)
    ensures 3 * (h * (d * d * d) - d * d * d) == 3 * ((h - 1) * d) * d * d
  {
    assert (h - 1) * (d * d * d) == h * (d * d * d) - d * d * d;
    assert (h - 1) * (d * d * d) == ((h - 1) * d) * d * d;
  }

  lemma RiseRight(a: int, d: int)
    ensures 3 * (d * d) + d + 2 * (a * (d * d)) == (3 * d + 1 + 2 * (a * d)) * d
  {
    assert a * (d * d) == a * d * d;
  }

  lemma RiseSquares(a: int, d: int, j: int)
    requires 1 <= a && 4 * a <= d * d && 0 <= j && 0 <= d && 3 * (j * d) <= 2 * a + 3
    ensures 36 * (a * (j * j)) <= 4 * (a * a) + 12 * a + 9
  {
    MulNonNeg(j, d);
    SquareLe(3 * (j * d), 2 * a + 3);
    assert (3 * (j * d)) * (3 * (j * d)) == 9 * ((j * j) * (d * d)) by {
      assert (j * d) * (j * d) == (j * j) * (d * d);
    }
    Square(j);
    MulMono(4 * a, d * d, j * j);
    assert (2 * a + 3) * (2 * a + 3) == 4 * (a * a) + 12 * a + 9;
    assert 4 * a * (j * j) == 4 * (a * (j * j));
  }

  lemma RiseWeigh(a: int, w: int, jj: int)
    requires 1 <= a && 36 * (a * jj) <= 4 * (a * a) + 12 * a + 9 && 9 * w <= 16 * jj
    ensures 3 * w <= a + 7
  {
    MulMono(9 * w, 16 * jj, a);
    assert 9 * w * a == 9 * (a * w) && 16 * jj * a == 16 * (a * jj);
    assert a * (81 * w) == 81 * (a * w) && a * (16 * a + 84) == 16 * (a * a) + 84 * a;
    MulCancelLe(81 * w, 16 * a + 84, a);
  }

  lemma SuccessorSquare(j: int)
    requires 3 <= j
    ensures 9 * ((j + 1) * (j + 1)) <= 16 * (j * j)
  {
    assert (j + 1) * (j + 1) == j * j + 2 * j + 1;
    MulMono(3, j, j);
  }

  /** ... so short that they stay below the bound. */
  lemma RiseLargeShort(a: int, d: int, j: int)
    requires 1 <= a && 4 * a <= d * d && 3 <= j && 3 * (j * d) <= 2 * a + 3 && 0 <= d
    ensures 3 * ((j + 1) * (j + 1)) <= a + 7
  {
    RiseSquares(a, d, j);
    SuccessorSquare(j);
    RiseWeigh(a, (j + 1) * (j + 1), j * j);
  }

  lemma RiseOfThreeHigh(a: int, p: int, d: int)
    requires 1 <= a <= 19 && 18 <= d && 0 <= p
    ensures 6 * (d * d) + 2 * d + 4 * (a * (d * d)) <= 12 * (d * d * d) + p * d - 18 * p
  {
    var dd := d * d;
    MulMono(a, 19, dd);
    MulMono(18, d, p);
    MulMono(18, d, dd);
    MulMono(18, d, d);
  }

  lemma LowNoise(p: int, dd: int, d: int)
    requires p <= dd && d <= 18
    ensures 18 * p - p * d <= 18 * dd - dd * d
  {
    MulMono(p, dd, 18 - d);
  }

  /** A rise of three happens only to small values. */
  lemma RiseOfThree(a: int, p: int, d: int)
    requires 1 <= a <= 19 && 6 <= d && 0 <= p <= d * d
    requires 12 * (d * d * d) + p * d - 18 * p < 6 * (d * d) + 2 * d + 4 * (a * (d * d))
    ensures d <= 7 && 14 <= a
  {
    if d >= 18 {
      RiseOfThreeHigh(a, p, d);
    } else {
      LowNoise(p, d * d, d);
      RiseOfThreeLow(a, d);
    }
  }

  lemma RiseOfThreeLow(a: int, d: int)
    requires 1 <= a <= 19 && 6 <= d
    requires 13 * (d * d * d) < 24 * (d * d) + 2 * d + 4 * (a * (d * d))
    ensures d <= 7 && 14 <= a
  {
    assert 13 * (d * d) * d < (24 * d + 2 + 4 * (a * d)) * d by {
      assert (24 * d + 2 + 4 * (a * d)) * d == 24 * (d * d) + 2 * d + 4 * (a * (d * d));
    }
    MulCancelLt(13 * (d * d), 24 * d + 2 + 4 * (a * d), d);
    MulMono(a, 19, d);
    if d >= 8 { MulMono(8, d, d); }
  }

  lemma AtLeastSix(p: int, d: int)
    requires 32 <= p <= d * d && 1 <= d
    ensures 6 <= d
  {
    if d <= 5 { SquareLe(d, 5); }
  }

  /** A rise that the floors allow is short, or happens to small values. */
  lemma RiseShort(a: int, b: int, p: int, d: int, h: int)
    requires 1 <= a && 1 <= b && 1 <= d && 2 <= h && 4 * a <= p <= d * d && 32 <= p
    requires 6 * (h * (d * d * d)) + 3 * (h * (p * d)) - 6 * (h * p)
             < 6 * (d * d * d) + 6 * (d * d) + 2 * d + 4 * (a * (d * d)) + 8 * (p * d)
    ensures 3 * (h * h) <= a + 3 * b + 4 || a + b <= 8 || (d + h <= 10 && 15 <= a + b)
  {
    AtLeastSix(p, d);
    if h >= 4 {
      RiseLarge(a, p, d, h);
      RiseLargeShort(a, d, h - 1);
    } else if h == 3 && a + 3 * b + 4 < 27 {
      RiseOfThree(a, p, d);
    }
  }

  lemma CubeSmall(e: int, s: int)
    requires 0 <= e <= s <= 8 || (0 <= e <= 10 && 15 <= s)
    requires 1 <= s
    ensures e * e * e < 8 * s * (s + 1)
  {
    if s <= 8 {
      CubeLe(e, s);
      SquareLe(s, s);
      MulMono(s, 8, s * s);
      assert 8 * s * (s + 1) == 8 * (s * s) + 8 * s;
    } else {
      CubeLe(e, 10);
      SquareLe(15, s);
      assert 8 * s * (s + 1) == 8 * (s * s) + 8 * s;
    }
  }

  /** A step that rises by two or more stays below the bound. */
  lemma RiseStaysBelow(a: int, b: int, ann: int, d: int, e: int)
    requires 1 <= a && 1 <= b && 4 <= ann && DInv(a, b, ann, d)
    requires DDenominator(ann, d, Dp(a, b, d)) > 0 && e == DStep(a, b, ann, d) && d + 2 <= e <= a + b
    ensures Below(a, b, ann, e)
  {
    var s := a + b;
    if s <= 8 || (e <= 10 && 15 <= s) {
      CubeSmall(e, s);
      SmallBelow(a, b, ann, e);
    } else {
      SidesFit(a, b);
      RiseIsBounded(a, b, ann, d, e, e - d);
      RiseShort(a, b, Prod(a, b), d, e - d);
      if !Below(a, b, ann, e) { RiseIsLarge(a, b, ann, d, e, e - d); }
    }
  }

  lemma SidesFit(a: int, b: int)
    requires 1 <= a && 1 <= b && 9 <= a + b
    ensures 4 * a <= Prod(a, b) && 32 <= Prod(a, b)
  {
    FourA(a, b);
    MulNonNeg(a - 1, b - 1);
    SumProduct(a, b);
  }

  lemma RiseIsLarge(a: int, b: int, ann: int, d: int, e: int, h: int)
    requires 1 <= a && 1 <= b && 4 <= ann && DInv(a, b, ann, d)
    requires DDenominator(ann, d, Dp(a, b, d)) > 0 && e == DStep(a, b, ann, d) == d + h && 1 <= h
    requires !Below(a, b, ann, e)
    ensures a + 3 * b + 4 < 3 * (h * h)
  {
    var s, p := a + b, Prod(a, b);
    StepSlack(a, b, ann, d, e);
    DpAtLeast(a, b, d);
    DpAbove(a, b, d);
    PositiveProd(a, b);
    GrownProd(a, b);
    RiseCore(a, s, p, d, Dp(a, b, d), Slack(s, ann, e), h);
    ProdAtMostSide(a, b, d);
    RiseSquare(a, b, p, d, h);
  }

  lemma RiseIsBounded(a: int, b: int, ann: int, d: int, e: int, h: int)
    requires 1 <= a && 1 <= b && 4 <= ann && DInv(a, b, ann, d)
    requires DDenominator(ann, d, Dp(a, b, d)) > 0 && e == DStep(a, b, ann, d) == d + h && 1 <= h
    ensures var p := Prod(a, b);
            6 * (h * (d * d * d)) + 3 * (h * (p * d)) - 6 * (h * p)
            < 6 * (d * d * d) + 6 * (d * d) + 2 * d + 4 * (a * (d * d)) + 8 * (p * d)
  {
    var p := Prod(a, b);
    RiseBound(a, b, ann, d, e, h);
    FourA(a, b);
    RiseLinear(a, p, d, h, (d * d * d - 2 * a * d - p) * (d + 3 * h), d * ((d + 1) * (d + 1) * (d + 1)));
  }

  // ---------------------------------------------------------------- all iterates

  function Pow3(k: nat): (p: nat)
    ensures p >= 1
  {
    if k == 0 then 1 else 3 * Pow3(k - 1)
  }

  /** 9^h >= 8^h. */
  lemma {:induction false} NineOverEight(h: nat)
    ensures Pow3(2 * h) >= Pow2(3 * h)
  {
    if h > 0 {
      NineOverEight(h - 1);
      assert Pow3(2 * h) == 3 * (3 * Pow3(2 * h - 2));
      assert Pow2(3 * h) == 2 * Pow2(3 * h - 1) == 2 * (2 * Pow2(3 * h - 2)) == 2 * (2 * (2 * Pow2(3 * h - 3)));
    }
  }

  lemma EnoughSteps(x: int, h: nat)
    requires x < Pow2(h)
    ensures x * Pow2(2 * h) < Pow3(2 * h)
  {
    NineOverEight(h);
    Pow2Add(h, 2 * h);
    ScaleLt(x, Pow2(h), Pow2(2 * h));
  }

  /** The largest value within the bound. */
  lemma {:induction false} LargestBelow(a: int, b: int, ann: int, v: int) returns (t: int)
    requires 1 <= a && 1 <= b && 4 <= ann && 0 <= v && Below(a, b, ann, v)
    ensures v <= t && Below(a, b, ann, t) && !Below(a, b, ann, t + 1)
    decreases ann * (a + b) + 1 - v
  {
    BelowBounded(a, b, ann, v);
    if Below(a, b, ann, v + 1) { t := LargestBelow(a, b, ann, v + 1); } else { t := v; }
  }

  lemma BelowBounded(a: int, b: int, ann: int, v: int)
    requires 1 <= a && 1 <= b && 4 <= ann && 0 <= v && Below(a, b, ann, v)
    ensures v <= ann * (a + b) + 1
  {
    PositiveProd(a + 1, b + 1);
    CubeLe(0, v);
    MulCancelLt(0, Slack(a + b, ann, v) + 1, Prod(a + 1, b + 1));
    MulMono(1, ann - 1, v);
  }

  /** From any iterate: once within the bound, the loop stays there; above it, the distance
      shrinks by a third in every step. */
  lemma {:induction false} NewtonDBelow(a: int, b: int, ann: int, d: int, fuel: nat, t: int)
    requires 1 <= a && 1 <= b && 4 <= ann && DInv(a, b, ann, d)
    requires 0 <= t && Below(a, b, ann, t) && !Below(a, b, ann, t + 1)
    requires (d - t) * Pow2(fuel) < Pow3(fuel)
    ensures Below(a, b, ann, NewtonD(a, b, ann, d, fuel).value)
    decreases fuel
  {
    DIterate(a, b, ann, d);
    if fuel == 0 {
      BelowMono(a, b, ann, d, t);
    } else {
      var e := DStep(a, b, ann, d);
      if Near(e, d) {
        SettledBelow(a, b, ann, e);
      } else {
        if e > t { StepShrinks(a, b, ann, d, e, t, fuel); }
        ShrinkMeasure(d - t, e - t, Pow2(fuel - 1), Pow3(fuel - 1));
        NewtonDBelow(a, b, ann, e, fuel - 1, t);
      }
    }
  }

  /** An iterate that ends above t started above it. */
  lemma StepShrinks(a: int, b: int, ann: int, d: int, e: int, t: int, fuel: nat)
    requires 1 <= a && 1 <= b && 4 <= ann && DInv(a, b, ann, d) && DInv(a, b, ann, e)
    requires DDenominator(ann, d, Dp(a, b, d)) > 0 && e == DStep(a, b, ann, d) && !Near(e, d)
    requires 0 <= t < e && !Below(a, b, ann, t + 1)
    ensures 3 * (e - t) <= 2 * (d - t)
  {
    if e > d {
      RiseStaysBelow(a, b, ann, d, e);
      BelowMono(a, b, ann, t + 1, e);
      assert false;
    } else {
      StepContracts(a, b, ann, d, e, t);
    }
  }

  lemma ShrinkMeasure(x: int, y: int, two: int, three: int)
    requires 1 <= two && 1 <= three && x * (2 * two) < 3 * three
    requires y <= 0 || 3 * y <= 2 * x
    ensures y * two < three
  {
    if y <= 0 {
      MulMono(y, 0, two);
    } else {
      MulMono(3 * y, 2 * x, two);
      assert 3 * y * two == 3 * (y * two);
    }
  }

  lemma ZeroBelow(a: int, b: int, ann: int)
    requires 1 <= a && 1 <= b && 4 <= ann
    ensures Below(a, b, ann, 0)
  {
    MulPos(8 * (a + b), a + b + 1);
    SmallBelow(a, b, ann, 0);
  }

  lemma RunBelow(a: int, b: int, ann: int, fuel: nat)
    requires 1 <= a && 1 <= b && 4 <= ann && a + b <= U128_MAX && DInv(a, b, ann, a + b) && fuel == 256
    ensures Below(a, b, ann, NewtonD(a, b, ann, a + b, fuel).value)
  {
    hide NewtonD, Below, Pow2, Pow3;
    ZeroBelow(a, b, ann);
    var t := LargestBelow(a, b, ann, 0);
    StartMeasure(a + b - t, fuel, 128);
    NewtonDBelow(a, b, ann, a + b, fuel, t);
  }

  /** Every value compute_d returns on reserves whose sum is a u128 value, by convergence or by
      running out of iterations, is within the bound. */
  lemma ReturnedBelow(a: int, b: int, amp: int)
    requires 1 <= a && 1 <= b && 1 <= amp && a + b <= U128_MAX
    ensures Below(a, b, 4 * amp, DNewton(a, b, amp).value)
  {
    hide NewtonD, Below;
    DStartInv(a, b, 4 * amp);
    RunBelow(a, b, 4 * amp, MAX_ITERATIONS);
  }

  lemma StartMeasure(x: int, fuel: nat, h: nat)
    requires x <= U128_MAX && h == 128 && fuel == 2 * h
    ensures x * Pow2(fuel) < Pow3(fuel)
  {
    Pow2Of128();
    EnoughSteps(x, h);
  }

  // ---------------------------------------------------------------- swaps

  /** The nested floors of c only lower it. */
  lemma NumeratorBound(x: int, d: int, ann: int)
    requires 0 < x && 0 <= d && 0 < ann
    ensures YC(x, d, ann) * ann * (4 * x) <= d * d * d
  {
    var h, c := d * d / (x * 2), YC(x, d, ann);
    FloorDiv(d * d, x * 2);
    FloorDiv(h * d, ann * 2);
    MulMono(c * (ann * 2), h * d, x * 2);
    MulMono(h * (x * 2), d * d, d);
    assert h * d * (x * 2) == h * (x * 2) * d;
    assert c * (ann * 2) * (x * 2) == c * ann * (4 * x) by { assert (ann * 2) * (x * 2) == ann * (4 * x); }
  }

  /** The floor in b - D costs less than one unit. */
  lemma SlopeBound(x: int, d: int, ann: int)
    requires 0 < ann
    ensures ann * x - (ann - 1) * d - ann + 1 <= ann * (YB(x, d, ann) - d)
  {
    FloorDiv(d, ann);
    assert ann * (x + d / ann - d) == ann * x + (d / ann) * ann - ann * d;
  }

  /** ann (v + g) at v = r + 1, in terms of the cofactor k of the old reserves. */
  lemma SlopeForm(a: int, dx: int, r: int, d: int, ann: int, g: int)
    requires 0 < ann && g == YB(a + dx, d, ann) - d
    ensures Slack(a + r, ann, d) + ann * dx + 1 <= ann * (r + 1 + g)
  {
    SlopeBound(a + dx, d, ann);
    assert ann * (a + dx) == ann * a + ann * dx;
    assert ann * (a + r) == ann * a + ann * r;
    assert ann * (r + 1 + g) == ann * r + ann + ann * g;
  }

  /** If the quadratic is at most 1 at v, then c is large. */
  lemma LowMeansLargeC(c: int, g: int, v: int, ann: int, m: int)
    requires 0 < ann && 0 <= v && F(c, g, v) <= 1 && m <= ann * (v + g)
    ensures v * m - ann <= c * ann
  {
    MulMono(m, ann * (v + g), v);
    assert ann * (v + g) * v == (v * v + g * v) * ann by {
      assert (v + g) * v == v * v + g * v;
      assert ann * (v + g) * v == ann * ((v + g) * v);
    }
    MulMono(v * v + g * v, c + 1, ann);
    assert (c + 1) * ann == c * ann + ann;
  }

  /** (r + 1) (k + n dx + 1) - n, bounded below by what dx = 1 gives. */
  lemma UnitInput(r: int, k: int, n: int, dx: int)
    requires 1 <= r && 1 <= n && 1 <= dx
    ensures (r + 1) * (k + 1) <= (r + 1) * (k + n * dx + 1) - n
  {
    MulMono(1, dx, n);
    MulMono(k + 1 + n, k + n * dx + 1, r + 1);
    assert (k + 1 + n) * (r + 1) == (r + 1) * (k + 1) + r * n + n;
    MulPos(r, n);
  }

  /** A c that large would have to come from a D above the bound. */
  lemma LargeCClash(a: int, dx: int, r: int, k: int, cn: int, cube: int)
    requires 1 <= a && 1 <= dx && 1 <= r && 0 <= k
    requires (r + 1) * (k + 1) <= cn && cn * (4 * (a + dx)) <= cube
    ensures Prod(a + 1, r + 1) * (k + 1) <= cube
  {
    var m := (r + 1) * (k + 1);
    MulPos(r + 1, k + 1);
    MulMono(m, cn, 4 * (a + dx));
    MulMono(4 * (a + 1), 4 * (a + dx), m);
    assert Prod(a + 1, r + 1) * (k + 1) == m * (4 * (a + 1)) by { Reorder(r + 1, k + 1, a + 1); }
  }

  lemma Reorder(x: int, y: int, z: int)
    ensures 4 * z * x * y == x * y * (4 * z)
  {
    assert 4 * z * x * y == (4 * z) * (x * y);
  }

  /** The quadratic of compute_y exceeds 1 just above the paying reserve. */
  lemma AboveOne(a: int, dx: int, r: int, amp: int)
    requires 1 <= a && 1 <= dx && 1 <= r && 1 <= amp && a + r <= U128_MAX
    ensures var q := YQuadratic(a, dx, r, amp); F(q.c, q.g, r + 1) > 1
  {
    var e, n, q := DNewton(a, r, amp).value, 4 * amp, YQuadratic(a, dx, r, amp);
    DNewtonRange(a, r, amp);
    ReturnedBelow(a, r, amp);
    if F(q.c, q.g, r + 1) <= 1 {
      var k := Slack(a + r, n, e);
      SlackAtLeast(a + r, n, e);
      SlopeForm(a, dx, r, e, n, q.g);
      LowMeansLargeC(q.c, q.g, r + 1, n, k + n * dx + 1);
      UnitInput(r, k, n, dx);
      NumeratorBound(a + dx, e, n);
      LargeCClash(a, dx, r, k, q.c * n, e * e * e);
    }
  }

  /** compute_y never returns more than the paying reserve. */
  lemma NoOvershoot(reserveIn: int, amountIn: int, reserveOut: int, amp: int)
    requires reserveIn > 0 && amountIn > 0 && reserveOut > 0 && 1 <= amp && reserveIn + reserveOut <= U128_MAX
    requires reserveOut * reserveOut + YQuadratic(reserveIn, amountIn, reserveOut, amp).c <= U128_MAX
    ensures YNewton(reserveIn, amountIn, reserveOut, amp).value <= reserveOut
  {
    AboveOne(reserveIn, amountIn, reserveOut, amp);
    YNewtonCompare(reserveIn, amountIn, reserveOut, amp, reserveOut);
  }

  // ---------------------------------------------------------------- deposits

  lemma GrownProduct(a: int, b: int, da: int, db: int)
    requires 1 <= a && 1 <= b && 1 <= da && 1 <= db
    ensures Prod(a + 1, b + 1) <= Prod(a + da, b + db)
  {
    MulMono(a + 1, a + da, b + 1);
    MulMono(b + 1, b + db, a + da);
    assert Prod(a + 1, b + 1) == 4 * ((a + 1) * (b + 1)) && Prod(a + da, b + db) == 4 * ((a + da) * (b + db));
  }

  lemma GrownSlack(s: int, n: int, e: int, more: int)
    requires 1 <= n && 1 <= more
    ensures Slack(s, n, e) + 1 <= Slack(s + more, n, e)
  {
    assert n * (s + more) == n * s + n * more;
    MulPos(n, more);
  }

  lemma ExcessMono(a: int, b: int, ann: int, w: int, v: int)
    requires 1 <= a && 1 <= b && 1 <= ann && 0 <= w <= v
    ensures DExcess(a, b, ann, w) <= DExcess(a, b, ann, v)
  {
    CubeLe(w, v);
    MulMono(w, v, ann - 1);
    PositiveProd(a, b);
    MulMono((ann - 1) * w, (ann - 1) * v, Prod(a, b));
  }

  lemma GrownScale(p: int, k: int, p': int, k': int, cube: int)
    requires 1 <= p <= p' && 0 <= k && k + 1 <= k' && cube < p * (k + 1)
    ensures cube - k' * p' < 0
  {
    MulMono(k + 1, k', p);
    MulMono(p, p', k');
  }

  /** A value within the bound is below the invariant of any pool that grew on both sides. */
  lemma BelowGrown(a: int, b: int, da: int, db: int, n: int, e: int)
    requires 1 <= a && 1 <= b && 1 <= da && 1 <= db && 1 <= n && 0 <= e <= a + b && Below(a, b, n, e)
    ensures DExcess(a + da, b + db, n, e) < 0
  {
    var s, s' := a + b, (a + da) + (b + db);
    SlackAtLeast(s, n, e);
    GrownProduct(a, b, da, db);
    GrownSlack(s, n, e, da + db);
    assert s + (da + db) == s';
    PositiveProd(a + 1, b + 1);
    GrownScale(Prod(a + 1, b + 1), Slack(s, n, e), Prod(a + da, b + db), Slack(s', n, e), e * e * e);
    ExcessForm(a + da, b + db, n, e);
  }

  /** A pool that grew on both sides has a D of at least the old one. */
  lemma GrowsWithReserves(a: int, b: int, da: int, db: int, amp: int)
    requires 1 <= a && 1 <= b && 1 <= da && 1 <= db && 1 <= amp && a + b <= U128_MAX
    ensures DNewton(a, b, amp).value <= DNewton(a + da, b + db, amp).value
  {
    var d0, d1 := DNewton(a, b, amp).value, DNewton(a + da, b + db, amp).value;
    DNewtonBounds(a, b, amp);
    DNewtonBounds(a + da, b + db, amp);
    ReturnedBelow(a, b, amp);
    BelowGrown(a, b, da, db, 4 * amp, d0);
    if d1 + 1 <= d0 { ExcessMono(a + da, b + db, 4 * amp, d1 + 1, d0); }
  }
}
