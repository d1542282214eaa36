/** When compute_d converges: always, if the first reserve is at most three times the second.
    The floors of d_p then hide less than 3 units of it. An iterate above the floored root t of
    the invariant comes down to within two thirds of its distance to t + 1 in one step
    (RootContracts), and one at t or t + 1 stays there (RootHolds), so the test ends the loop;
    the value it returns is t or t + 1, up to the smallest pools. */
module StableConverge {
  import opened Arithmetic
  import opened StableBound
  import opened StableMath

  /** t is the true invariant, rounded down. */
  ghost predicate IsInvariant(a: int, b: int, ann: int, t: int)
  {
    0 <= t && DExcess(a, b, ann, t) <= 0 < DExcess(a, b, ann, t + 1)
  }

  lemma {:induction false} InvariantFrom(a: int, b: int, ann: int, v: int) returns (t: int)
    requires 1 <= a && 1 <= b && 4 <= ann && 0 <= v && DExcess(a, b, ann, v) <= 0
    ensures IsInvariant(a, b, ann, t)
    decreases a + b + 1 - v
  {
    DStartInv(a, b, ann);
    if v > a + b { ExcessMono(a, b, ann, a + b + 1, v); }
    if DExcess(a, b, ann, v + 1) <= 0 { t := InvariantFrom(a, b, ann, v + 1); } else { t := v; }
  }

  lemma InvariantExists(a: int, b: int, ann: int) returns (t: int)
    requires 1 <= a && 1 <= b && 4 <= ann
    ensures IsInvariant(a, b, ann, t)
  {
    PositiveProd(a, b);
    MulNonNeg(ann, a + b);
    MulNonNeg(ann * (a + b), Prod(a, b));
    t := InvariantFrom(a, b, ann, 0);
  }

  /** Everything compute_d goes on from or returns is at least t. */
  lemma AtLeastInvariant(a: int, b: int, ann: int, t: int, d: int)
    requires 1 <= a && 1 <= b && 4 <= ann && IsInvariant(a, b, ann, t) && 0 <= d && DExcess(a, b, ann, d + 1) > 0
    ensures t <= d
  {
    if d + 1 <= t { ExcessMono(a, b, ann, d + 1, t); }
  }

  // ---------------------------------------------------------------- the floors of d_p

  /** How many units of d_p its two floors can hide. */
  function Noise(a: int, b: int): int { if a <= b then 2 else 3 }

  lemma NoiseSide(a: int, b: int, d: int, m: int)
    requires 0 <= a && d <= 2 * (m - 1) * b
    ensures 2 * a * d + Prod(a, b) <= m * Prod(a, b)
  {
    MulMono(d, 2 * (m - 1) * b, a);
    assert 2 * (m - 1) * b * a == 2 * (m - 1) * (a * b) by { assert b * a == a * b; }
    assert Prod(a, b) == 4 * (a * b);
    assert m * (4 * (a * b)) == 4 * (m - 1) * (a * b) + 4 * (a * b);
  }

  lemma NoiseBound(a: int, b: int, d: int)
    requires 1 <= a <= 3 * b && 1 <= d <= a + b
    ensures d * d * d - Noise(a, b) * Prod(a, b) <= Dp(a, b, d) * Prod(a, b)
  {
    DpAbove(a, b, d);
    NoiseSide(a, b, d, Noise(a, b));
  }

  /** One step from d, with e = t + 1 + w and d = t + 1 + y: the root's cube bounds it. */
  lemma StepAtRoot(a: int, b: int, ann: int, d: int, e: int, v: int, w: int)
    requires 1 <= a <= 3 * b && 4 <= ann && DInv(a, b, ann, d)
    requires DDenominator(ann, d, Dp(a, b, d)) > 0 && e == DStep(a, b, ann, d) == v + w
    requires 0 <= w && DExcess(a, b, ann, v) > 0 && 0 <= 3 * e - 2 * d
    ensures (d * d * d - Noise(a, b) * Prod(a, b)) * (3 * e - 2 * d) + 3 * w * (Prod(a, b) * d) < d * (v * v * v)
  {
    var s, p, k, k1 := a + b, Prod(a, b), Slack(a + b, ann, e), Slack(a + b, ann, v);
    StepSlack(a, b, ann, d, e);
    NoiseBound(a, b, d);
    PositiveProd(a, b);
    RiseLower(d * d * d - Noise(a, b) * p, Dp(a, b, d), p, 3 * e - 2 * d, d, k);
    ExcessForm(a, b, ann, v);
    SlackShift(s, ann, v, w);
    RiseBoundScale(p, d, k, k1, w + 1, v * v * v);
  }

  lemma RootCube(d: int, y: int)
    ensures d * ((d - y) * (d - y) * (d - y)) == (d * d * d) * d - 3 * ((d * d * d) * y) + 3 * ((d * d) * (y * y)) - d * (y * y * y)
  {
    assert (d - y) * (d - y) == d * d - 2 * (d * y) + y * y;
    assert (d - y) * (d - y) * (d - y) == d * d * d - 3 * (d * d * y) + 3 * (d * (y * y)) - y * y * y by {
      assert (d * d - 2 * (d * y) + y * y) * d == d * d * d - 2 * (d * d * y) + d * (y * y);
      assert (d * d - 2 * (d * y) + y * y) * y == d * d * y - 2 * (d * (y * y)) + y * y * y;
    }
    assert d * (d * d * y) == (d * d * d) * y && d * (d * (y * y)) == (d * d) * (y * y);
  }

  lemma RootProduct(d: int, m: int, p: int, z: int)
    ensures (d * d * d - m * p) * (d - 3 * z) == (d * d * d) * d - 3 * ((d * d * d) * z) - m * (p * d) + 3 * (m * (p * z))
  {
    assert (d * d * d - m * p) * d == (d * d * d) * d - m * (p * d);
    assert (d * d * d - m * p) * (3 * z) == 3 * ((d * d * d) * z) - 3 * (m * (p * z));
  }

  /** ... multiplied out. */
  lemma RootLinear(d: int, m: int, p: int, y: int, w: int, lhs: int, rhs: int)
    requires lhs == (d * d * d - m * p) * (d - 3 * (y - w)) && rhs == d * ((d - y) * (d - y) * (d - y))
    requires lhs + 3 * w * (p * d) < rhs
    ensures 3 * (w * (d * d * d)) + 3 * (w * (p * d)) + 3 * (m * (p * (y - w)))
            < 3 * ((d * d) * (y * y)) - d * (y * y * y) + m * (p * d)
  {
    RootProduct(d, m, p, y - w);
    RootCube(d, y);
    assert (d * d * d) * (y - w) == (d * d * d) * y - w * (d * d * d);
    assert 3 * w * (p * d) == 3 * (w * (p * d));
  }

  lemma RootStep(a: int, b: int, ann: int, d: int, e: int, v: int, y: int, w: int)
    requires 1 <= a <= 3 * b && 4 <= ann && DInv(a, b, ann, d) && d == v + y
    requires DDenominator(ann, d, Dp(a, b, d)) > 0 && e == DStep(a, b, ann, d) == v + w
    requires 0 <= w && DExcess(a, b, ann, v) > 0 && 0 <= 3 * e - 2 * d
    ensures var p, m := Prod(a, b), Noise(a, b);
            3 * (w * (d * d * d)) + 3 * (w * (p * d)) + 3 * (m * (p * (y - w)))
            < 3 * ((d * d) * (y * y)) - d * (y * y * y) + m * (p * d)
  {
    var p, m := Prod(a, b), Noise(a, b);
    StepAtRoot(a, b, ann, d, e, v, w);
    assert 3 * e - 2 * d == d - 3 * (y - w) && v == d - y;
    RootLinear(d, m, p, y, w, (d * d * d - m * p) * (d - 3 * (y - w)), d * ((d - y) * (d - y) * (d - y)));
  }

  // ---------------------------------------------------------------- above the root

  lemma TwoThirdsRight(d: int, y: int)
    requires 0 <= y <= d
    ensures 3 * ((d * d) * (y * y)) - d * (y * y * y) <= 2 * (y * (d * d * d))
  {
    MulNonNeg(d - y, 2 * d - y);
    assert (d - y) * (2 * d - y) == 2 * (d * d) - 3 * (d * y) + y * y;
    MulNonNeg(d, y);
    MulNonNeg(d * y, 2 * (d * d) - 3 * (d * y) + y * y);
    TwoThirdsExpand(d, y);
  }

  lemma TwoThirdsExpand(d: int, y: int)
    ensures d * y * (2 * (d * d) - 3 * (d * y) + y * y)
            == 2 * (y * (d * d * d)) - 3 * ((d * d) * (y * y)) + d * (y * y * y)
  {
    assert d * y * (2 * (d * d)) == 2 * (y * (d * d * d));
    assert d * y * (3 * (d * y)) == 3 * ((d * d) * (y * y));
    assert d * y * (y * y) == d * (y * y * y);
  }

  lemma TwoThirdsLeft(c: int, pd: int, mp: int, y: int, w: int)
    requires 0 <= c + pd - mp && 2 * y + 1 <= 3 * w
    ensures 2 * (y * c) + c + 2 * (y * pd) + pd - 2 * (y * mp) - mp <= 3 * (w * c) + 3 * (w * pd) - 3 * (w * mp)
  {
    MulMono(2 * y + 1, 3 * w, c + pd - mp);
    assert (2 * y + 1) * (c + pd - mp) == 2 * (y * c) + c + 2 * (y * pd) + pd - 2 * (y * mp) - mp;
    assert 3 * w * (c + pd - mp) == 3 * (w * c) + 3 * (w * pd) - 3 * (w * mp);
  }

  lemma TwoThirdsSum(c: int, pd: int, mp: int, yc: int, ypd: int, ymp: int, wc: int, wpd: int, wmp: int, right: int, mpd: int)
    requires 2 * yc + c + 2 * ypd + pd - 2 * ymp - mp <= 3 * wc + 3 * wpd - 3 * wmp
    requires right <= 2 * yc && mpd <= 2 * ypd + pd + ymp - mp && 0 < c
    ensures right + mpd <= 3 * wc + 3 * wpd + 3 * (ymp - wmp)
  {}

  lemma NoiseTimes(m: int, p: int, y: int, w: int)
    ensures m * (p * (y - w)) == y * (m * p) - w * (m * p)
  {
    assert p * (y - w) == p * y - p * w;
  }

  lemma NoiseFits(m: int, p: int, d: int)
    requires 2 <= m <= d && 0 <= p
    ensures 0 <= d * d * d + p * d - m * p
  {
    MulNonNeg(d, d);
    MulNonNeg(d * d, d);
    MulMono(m, d, p);
  }

  /** From y >= 1 above t + 1, at most two thirds of y are left. */
  lemma TwoThirds(d: int, m: int, p: int, y: int, w: int)
    requires 2 <= m <= 3 && 4 <= p && 3 <= d && 1 <= y <= d
    requires 3 * (w * (d * d * d)) + 3 * (w * (p * d)) + 3 * (m * (p * (y - w)))
             < 3 * ((d * d) * (y * y)) - d * (y * y * y) + m * (p * d)
    ensures 3 * w <= 2 * y
  {
    if 2 * y + 1 <= 3 * w {
      var c, pd, mp := d * d * d, p * d, m * p;
      NoiseFits(m, p, d);
      TwoThirdsLeft(c, pd, mp, y, w);
      TwoThirdsRight(d, y);
      NoiseTimes(m, p, y, w);
      TwoThirdsRest(m, p, d, y, pd, mp);
      TwoThirdsSum(c, pd, mp, y * c, y * pd, y * mp, w * c, w * pd, w * mp, 3 * ((d * d) * (y * y)) - d * (y * y * y), m * pd);
    }
  }

  /** What the noise adds is less than what the linear term takes away. */
  lemma TwoThirdsRest(m: int, p: int, d: int, y: int, pd: int, mp: int)
    requires 2 <= m <= 3 && 4 <= p && 3 <= d && 1 <= y && pd == p * d && mp == m * p
    ensures m * pd <= 2 * (y * pd) + pd + y * mp - mp
    ensures 0 < d * d * d
  {
    MulNonNeg(p, d);
    MulMono(m, 2 * y + 1, pd);
    MulNonNeg(m, p);
    MulMono(1, y, mp);
    MulPos(d, d);
    MulPos(d * d, d);
    assert (2 * y + 1) * pd == 2 * (y * pd) + pd;
    assert m * (p * d) == m * pd;
  }

  lemma ExcessAtOne(a: int, b: int, ann: int)
    requires 1 <= a && 1 <= b && 4 <= ann
    ensures DExcess(a, b, ann, 1) <= 0
  {
    PositiveProd(a, b);
    MulMono(2, a + b, ann);
    MulMono((ann - 1) * 1 + ann, ann * (a + b), Prod(a, b));
    assert ((ann - 1) * 1 + ann) * Prod(a, b) == ((ann - 1) * 1) * Prod(a, b) + ann * Prod(a, b);
    MulPos(ann, Prod(a, b));
  }

  lemma InvariantPositive(a: int, b: int, ann: int, t: int)
    requires 1 <= a && 1 <= b && 4 <= ann && IsInvariant(a, b, ann, t)
    ensures 1 <= t
  {
    ExcessAtOne(a, b, ann);
  }

  /** A step from above t + 1 leaves at most two thirds of the distance to t + 1. */
  lemma RootContracts(a: int, b: int, ann: int, d: int, e: int, t: int)
    requires 1 <= a <= 3 * b && 4 <= ann && DInv(a, b, ann, d) && IsInvariant(a, b, ann, t)
    requires DDenominator(ann, d, Dp(a, b, d)) > 0 && e == DStep(a, b, ann, d) && t + 2 <= d
    ensures 3 * (e - (t + 1)) <= 2 * (d - (t + 1))
  {
    var v := t + 1;
    if v <= e && 0 <= 3 * e - 2 * d {
      InvariantPositive(a, b, ann, t);
      PositiveProd(a, b);
      RootStep(a, b, ann, d, e, v, d - v, e - v);
      TwoThirds(d, Noise(a, b), Prod(a, b), d - v, e - v);
    }
  }

  // ---------------------------------------------------------------- at the root

  lemma HoldsScale(c: int, pd: int, mp: int, w: int)
    requires 0 <= c + pd - mp && 1 <= w
    ensures c + pd - mp <= w * c + w * pd - w * mp
  {
    MulMono(1, w, c + pd - mp);
    assert (c + pd - mp) * w == w * c + w * pd - w * mp;
  }

  lemma NextFits(m: int, p: int, d: int)
    requires 2 <= m <= 3 && 0 <= p <= d * d && 3 <= d
    ensures m * (p * d) + 3 * (m * p) <= 3 * (d * d * d) + 3 * (p * d)
  {
    MulMono(p, d * d, d);
    MulMono(m, d, p);
    MulNonNeg(p, d);
    MulMono(m, 3, p * d);
  }

  lemma HoldsAtNext(d: int, m: int, p: int, w: int)
    requires 2 <= m <= 3 && 0 <= p <= d * d && 3 <= d && 1 <= w
    ensures m * (p * d) <= 3 * (w * (d * d * d)) + 3 * (w * (p * d)) + 3 * (m * (p * (0 - w)))
  {
    NoiseFits(m, p, d);
    HoldsScale(d * d * d, p * d, m * p, w);
    NoiseTimes(m, p, 0, w);
    NextFits(m, p, d);
  }

  lemma RootFits(m: int, p: int, d: int)
    requires 0 <= p <= d * d && ((m == 2 && 4 <= d) || (m == 3 && 8 <= d))
    ensures 3 * (d * d) + d + m * (p * d) + 6 * (m * p) <= 3 * (d * d * d) + 3 * (p * d)
  {
    if m == 3 { HoldsThree(d, p); } else { HoldsTwo(d, p); }
  }

  lemma HoldsAtRoot(d: int, m: int, p: int, w: int)
    requires 0 <= p <= d * d && 1 <= w && ((m == 2 && 4 <= d) || (m == 3 && 8 <= d))
    ensures 3 * (d * d) + d + m * (p * d) <= 3 * (w * (d * d * d)) + 3 * (w * (p * d)) + 3 * (m * (p * (-1 - w)))
  {
    NoiseFits(m, p, d);
    HoldsScale(d * d * d, p * d, m * p, w);
    NoiseTimes(m, p, -1, w);
    RootFits(m, p, d);
  }

  lemma HoldsThree(d: int, p: int)
    requires 0 <= p <= d * d && 8 <= d
    ensures 3 * (d * d) + d + 18 * p <= 3 * (d * d * d)
  {
    MulMono(8, d, d * d);
    MulMono(1, d, d);
  }

  lemma HoldsTwo(d: int, p: int)
    requires 0 <= p <= d * d && 4 <= d
    ensures 3 * (d * d) + d + 12 * p <= 3 * (d * d * d) + p * d
  {
    MulMono(1, d, d);
    if d >= 12 {
      MulMono(12, d, p);
      MulMono(12, d, d * d);
    } else {
      MulMono(p, d * d, 12 - d);
      assert p * (12 - d) == 12 * p - p * d && d * d * (12 - d) == 12 * (d * d) - d * d * d;
      MulMono(4, d, d * d);
    }
  }

  /** Small values are next to the sum of the reserves, so there is no room to rise. */
  lemma NoRoom(a: int, b: int, d: int)
    requires 1 <= a <= 3 * b && 1 <= d && Prod(a, b) <= d * d
    requires (a <= b && d <= 3) || (b < a && d <= 7)
    ensures a + b <= d + 1
  {
    if a <= b {
      SquareLe(d, 3);
      MulNonNeg(a - 1, b - 1);
      SumProduct(a, b);
      if d == 1 { PositiveProd(a, b); }
    } else {
      SidesClose(a, b);
      if d + 2 <= a + b {
        SquareLe(d + 2, a + b);
        assert (d + 2) * (d + 2) == d * d + 4 * d + 4;
        MulMono(d, 7, d);
      }
    }
  }

  /** Reserves within a factor of three have 3 S^2 <= 4 P. */
  lemma SidesClose(a: int, b: int)
    requires 1 <= b <= a <= 3 * b
    ensures 3 * ((a + b) * (a + b)) <= 4 * Prod(a, b)
  {
    MulNonNeg(3 * b - a, 3 * a - b);
    assert (3 * b - a) * (3 * a - b) == 10 * (a * b) - 3 * (a * a) - 3 * (b * b);
    assert (a + b) * (a + b) == a * a + 2 * (a * b) + b * b;
    assert Prod(a, b) == 4 * (a * b);
  }

  lemma HoldsFromNext(a: int, b: int, ann: int, d: int, e: int)
    requires 1 <= a <= 3 * b && 4 <= ann && DInv(a, b, ann, d) && DExcess(a, b, ann, d) > 0 && 3 <= d
    requires DDenominator(ann, d, Dp(a, b, d)) > 0 && e == DStep(a, b, ann, d)
    ensures e <= d
  {
    if d + 1 <= e {
      PositiveProd(a, b);
      RootStep(a, b, ann, d, e, d, 0, e - d);
      HoldsAtNext(d, Noise(a, b), Prod(a, b), e - d);
    }
  }

  lemma MinusOne(d: int)
    ensures 3 * ((d * d) * (-1 * -1)) - d * (-1 * -1 * -1) == 3 * (d * d) + d
  {}

  lemma StepFromRoot(a: int, b: int, ann: int, d: int, e: int, y: int, w: int)
    requires 1 <= a <= 3 * b && 4 <= ann && DInv(a, b, ann, d) && y == -1 && 1 <= w
    requires DDenominator(ann, d, Dp(a, b, d)) > 0 && e == DStep(a, b, ann, d) == d + 1 + w
    ensures var p, m := Prod(a, b), Noise(a, b);
            3 * (w * (d * d * d)) + 3 * (w * (p * d)) + 3 * (m * (p * (-1 - w))) < 3 * (d * d) + d + m * (p * d)
  {
    RootStep(a, b, ann, d, e, d + 1, y, w);
    MinusOne(d);
  }

  lemma HoldsFromRoot(a: int, b: int, ann: int, d: int, e: int)
    requires 1 <= a <= 3 * b && 4 <= ann && DInv(a, b, ann, d)
    requires (a <= b && 4 <= d) || (b < a && 8 <= d)
    requires DDenominator(ann, d, Dp(a, b, d)) > 0 && e == DStep(a, b, ann, d)
    ensures e <= d + 1
  {
    if d + 2 <= e {
      var p, m, w := Prod(a, b), Noise(a, b), e - (d + 1);
      PositiveProd(a, b);
      StepFromRoot(a, b, ann, d, e, -1, w);
      HoldsAtRoot(d, m, p, w);
    }
  }

  /** A step from t or t + 1 goes to t or t + 1. */
  lemma RootHolds(a: int, b: int, ann: int, d: int, e: int, t: int)
    requires 1 <= a <= 3 * b && 4 <= ann && DInv(a, b, ann, d) && IsInvariant(a, b, ann, t)
    requires DDenominator(ann, d, Dp(a, b, d)) > 0 && e == DStep(a, b, ann, d) && e <= a + b && t <= d <= t + 1
    ensures e <= t + 1
  {
    if (a <= b && d <= 3) || (b < a && d <= 7) {
      NoRoom(a, b, d);
      if d == t + 1 && 3 <= d { HoldsFromNext(a, b, ann, d, e); }
      if d <= 2 { TinySides(a, b, d); }
    } else if d == t {
      HoldsFromRoot(a, b, ann, d, e);
    } else {
      HoldsFromNext(a, b, ann, d, e);
    }
    InvariantPositive(a, b, ann, t);
  }

  lemma TinySides(a: int, b: int, d: int)
    requires 1 <= a && 1 <= b && 1 <= d <= 2 && Prod(a, b) <= d * d
    ensures a + b <= 2
  {
    MulNonNeg(a - 1, b - 1);
    SumProduct(a, b);
    SquareLe(d, 2);
  }

  // ---------------------------------------------------------------- the loop

  lemma Pow3Seven(k: nat)
    ensures Pow3(k + 7) == 2187 * Pow3(k)
  {
    assert Pow3(k + 7) == 3 * Pow3(k + 6) == 9 * Pow3(k + 5) == 27 * Pow3(k + 4);
    assert Pow3(k + 4) == 3 * Pow3(k + 3) == 9 * Pow3(k + 2) == 27 * Pow3(k + 1) == 81 * Pow3(k);
  }

  /** 3^7 > 2^11. */
  lemma {:induction false} SevenForEleven(k: nat)
    ensures Pow3(7 * k) >= Pow2(11 * k)
  {
    if k > 0 {
      SevenForEleven(k - 1);
      Pow3Seven(7 * (k - 1));
      Pow2Add(11 * (k - 1), 11);
      Pow2Eleven();
      assert 7 * k == 7 * (k - 1) + 7 && 11 * k == 11 * (k - 1) + 11;
    }
  }

  lemma Pow2Eleven()
    ensures Pow2(11) == 2048
  {
    Pow2Add(5, 6);
    assert Pow2(5) == 32 && Pow2(6) == 64;
  }

  lemma {:induction false} Pow2Mono(j: nat, k: nat)
    requires j <= k
    ensures Pow2(j) <= Pow2(k)
  {
    if j < k { Pow2Mono(j, k - 1); }
  }

  /** 252 steps are enough for 128 bits. */
  lemma EnoughToSettle(x: int, h: nat, k: nat)
    requires x < Pow2(h) && h + 7 * k <= 11 * k
    ensures x * Pow2(7 * k) < Pow3(7 * k)
  {
    SevenForEleven(k);
    Pow2Add(h, 7 * k);
    Pow2Mono(h + 7 * k, 11 * k);
    ScaleLt(x, Pow2(h), Pow2(7 * k));
  }

  /** A converged value is close to the floored invariant. */
  ghost predicate CloseTo(a: int, b: int, t: int, e: int)
  {
    t <= e <= t + 3 && (a * b > 16 ==> e <= t + 1)
  }

  /** A step that the test accepts lands close to t. */
  lemma SettledClose(a: int, b: int, ann: int, d: int, e: int, t: int)
    requires 1 <= a <= 3 * b && 4 <= ann && DInv(a, b, ann, d) && IsInvariant(a, b, ann, t)
    requires DDenominator(ann, d, Dp(a, b, d)) > 0 && e == DStep(a, b, ann, d) && DBound(a, b, ann, e) && t <= d
    requires Near(e, d)
    ensures CloseTo(a, b, t, e)
  {
    AtLeastInvariant(a, b, ann, t, e);
    if d <= t + 1 {
      RootHolds(a, b, ann, d, e, t);
    } else {
      RootContracts(a, b, ann, d, e, t);
      if a * b > 16 {
        AtLeastNine(a, b, d);
        SettledTight(a, b, ann, d, e, t);
      }
    }
  }

  lemma AtLeastNine(a: int, b: int, d: int)
    requires a * b > 16 && Prod(a, b) <= d * d && 1 <= d
    ensures 9 <= d
  {
    assert Prod(a, b) == 4 * (a * b);
    if d <= 8 { SquareLe(d, 8); }
  }

  lemma SettledTight(a: int, b: int, ann: int, d: int, e: int, t: int)
    requires 1 <= a <= 3 * b && 4 <= ann && DInv(a, b, ann, d) && IsInvariant(a, b, ann, t) && 9 <= d
    requires DDenominator(ann, d, Dp(a, b, d)) > 0 && e == DStep(a, b, ann, d)
    requires t + 2 <= d <= t + 4 && d - 1 <= e
    ensures e <= t + 1
  {
    var p, m, y, w := Prod(a, b), Noise(a, b), d - (t + 1), e - (t + 1);
    if 1 <= w {
      PositiveProd(a, b);
      RootStep(a, b, ann, d, e, t + 1, y, w);
      TightArithmetic(d, m, p, y, w);
    }
  }

  lemma TightArithmetic(d: int, m: int, p: int, y: int, w: int)
    requires 2 <= m <= 3 && 4 <= p && 9 <= d && 1 <= y <= 3 && 1 <= w
    ensures 3 * ((d * d) * (y * y)) - d * (y * y * y) + m * (p * d)
            <= 3 * (w * (d * d * d)) + 3 * (w * (p * d)) + 3 * (m * (p * (y - w)))
  {
    var c, pd, mp := d * d * d, p * d, m * p;
    NoiseFits(m, p, d);
    HoldsScale(c, pd, mp, w);
    NoiseTimes(m, p, y, w);
    TightRight(d, y);
    TwoThirdsRest(m, p, d, 1, pd, mp);
    MulNonNeg(m, p);
    MulMono(1, y, mp);
  }

  lemma TightRight(d: int, y: int)
    requires 9 <= d && 1 <= y <= 3
    ensures 3 * ((d * d) * (y * y)) - d * (y * y * y) <= 3 * (d * d * d)
  {
    SquareLe(y, 3);
    MulNonNeg(y * y, y);
    MulNonNeg(d, y * y * y);
    MulMono(y * y, 9, d * d);
    MulMono(9, d, d * d);
  }

  /** With (d - t - 1) 2^m < 3^m and m iterations to spare, the test ends the loop, close to t. */
  lemma {:induction false} SettlesFrom(a: int, b: int, ann: int, d: int, fuel: nat, t: int, m: nat)
    requires 1 <= a <= 3 * b && 4 <= ann && DInv(a, b, ann, d) && IsInvariant(a, b, ann, t)
    requires (d - (t + 1)) * Pow2(m) < Pow3(m) && m < fuel
    ensures NewtonD(a, b, ann, d, fuel).settled && CloseTo(a, b, t, NewtonD(a, b, ann, d, fuel).value)
    decreases m
  {
    DIterate(a, b, ann, d);
    AtLeastInvariant(a, b, ann, t, d);
    var e := DStep(a, b, ann, d);
    AtLeastInvariant(a, b, ann, t, e);
    if Near(e, d) {
      SettledClose(a, b, ann, d, e, t);
    } else {
      if d <= t + 1 { RootHolds(a, b, ann, d, e, t); }
      assert t + 2 <= d && 1 <= m;
      RootContracts(a, b, ann, d, e, t);
      ShrinkMeasure(d - (t + 1), e - (t + 1), Pow2(m - 1), Pow3(m - 1));
      SettlesFrom(a, b, ann, e, fuel - 1, t, m - 1);
    }
  }

  lemma SettlesInTime(a: int, b: int, ann: int, fuel: nat, t: int, h: nat, k: nat)
    requires 1 <= a <= 3 * b && 4 <= ann && a + b <= U128_MAX && DInv(a, b, ann, a + b) && IsInvariant(a, b, ann, t)
    requires h == 128 && k == 36 && 7 * k < fuel
    ensures NewtonD(a, b, ann, a + b, fuel).settled && CloseTo(a, b, t, NewtonD(a, b, ann, a + b, fuel).value)
  {
    hide NewtonD, CloseTo, DInv, DExcess;
    Pow2Of128();
    EnoughToSettle(a + b - (t + 1), h, k);
    SettlesFrom(a, b, ann, a + b, fuel, t, 7 * k);
  }

  /** If the first reserve is at most three times the second, compute_d converges, and returns the
      floored invariant t or t + 1 (t + 3 at most, in pools with a * b <= 16). */
  lemma Converges(a: int, b: int, amp: int, t: int)
    requires 1 <= a <= 3 * b && 1 <= amp && a + b <= U128_MAX && IsInvariant(a, b, 4 * amp, t)
    ensures DNewton(a, b, amp).settled && CloseTo(a, b, t, DNewton(a, b, amp).value)
  {
    hide NewtonD, IsInvariant, CloseTo;
    DStartInv(a, b, 4 * amp);
    SettlesInTime(a, b, 4 * amp, MAX_ITERATIONS, t, 128, 36);
  }

  /** The guard alone: convergence, and the sharp upper bound of a converged value. */
  lemma BalancedSettles(a: int, b: int, amp: int)
    requires 1 <= a <= 3 * b && 1 <= amp && a + b <= U128_MAX
    ensures DNewton(a, b, amp).settled && DUpper(a, b, 4 * amp, DNewton(a, b, amp).value)
  {
    var t := InvariantExists(a, b, 4 * amp);
    Converges(a, b, amp, t);
    DNewtonBounds(a, b, amp);
  }
}
