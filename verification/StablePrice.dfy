/** What the y that compute_y returns means: with the new input reserve x it lies on the curve of
    the old D, up to what the floors can hide. The statements name neither the coefficients nor
    the quadratic that compute_y works with. */
module StablePrice {
  import opened Arithmetic
  import opened StableBound
  import opened StableMath

  /** y + 1 is enough: at reserves (x, y + 1) the invariant equation of D is met, but for 2xD. */
  predicate Enough(d: int, n: int, x: int, y: int)
  {
    d * d * d < 4 * x * ((y + 1) * (n * (x + y + 1) - (n - 1) * d)) + 2 * x * d
  }

  /** y is not too much: at reserves (x, y) it is exceeded by at most 4x ((n - 1) y + n). */
  predicate NotTooMuch(d: int, n: int, x: int, y: int)
  {
    4 * x * (y * (n * (x + y) - (n - 1) * d)) <= d * d * d + 4 * x * ((n - 1) * y + n)
  }

  /** The two nested floors of c take away less than this. */
  lemma NumeratorAtLeast(x: int, d: int, n: int)
    requires 0 < x && 0 <= d && 0 < n
    ensures d * d * d < 4 * x * (YC(x, d, n) * n + n) + 2 * x * d
  {
    var h, c := d * d / (x * 2), YC(x, d, n);
    FloorDiv(d * d, x * 2);
    FloorDiv(h * d, n * 2);
    MulMono(d * d, h * (x * 2) + x * 2, d);
    SplitOff(h, x, d);
    ScaleLt(h * d, c * (n * 2) + n * 2, x * 2);
    assert c * (n * 2) + n * 2 == 2 * (c * n + n);
    Fourfold(c * n + n, x);
  }

  lemma SplitOff(h: int, x: int, d: int)
    ensures (h * (x * 2) + x * 2) * d == (h * d) * (x * 2) + 2 * x * d
  {
    assert h * (x * 2) * d == (h * d) * (x * 2);
  }

  lemma Fourfold(m: int, x: int)
    ensures (2 * m) * (x * 2) == 4 * x * m
  {}

  lemma SlopeAtMost(x: int, d: int, n: int, g: int)
    requires 0 < n && g == YB(x, d, n) - d
    ensures n * g <= n * x - (n - 1) * d
  {
    FloorDiv(d, n);
    assert n * (x + d / n - d) == n * x + (d / n) * n - n * d;
  }

  /** A quadratic that is positive at v bounds c. */
  lemma PositiveBounds(c: int, g: int, v: int, n: int, m: int)
    requires 0 < n && 0 <= v && F(c, g, v) > 0 && n * g <= m
    ensures c * n + n <= v * (n * v + m)
  {
    MulMono(c + 1, v * v + g * v, n);
    assert (c + 1) * n == c * n + n;
    assert (v * v + g * v) * n == v * (n * v) + v * (n * g);
    MulMono(n * g, m, v);
    assert v * (n * v + m) == v * (n * v) + v * m;
  }

  lemma FourTimes(cube: int, x: int, w: int, z: int, r: int)
    requires 0 < x && w <= z && cube < 4 * x * w + r
    ensures cube < 4 * x * z + r
  {
    MulMono(w, z, 4 * x);
  }

  lemma SumForm(n: int, x: int, v: int, k: int)
    ensures v * (n * v + (n * x - k)) == v * (n * (x + v) - k)
  {
    assert n * (x + v) == n * x + n * v;
  }

  lemma EnoughFrom(c: int, g: int, x: int, d: int, n: int, y: int)
    requires 0 < x && 0 <= d && 0 < n && 0 <= y
    requires c == YC(x, d, n) && g == YB(x, d, n) - d && F(c, g, y + 1) > 0
    ensures Enough(d, n, x, y)
  {
    var v, k := y + 1, (n - 1) * d;
    SlopeAtMost(x, d, n, g);
    PositiveBounds(c, g, v, n, n * x - k);
    NumeratorAtLeast(x, d, n);
    SumForm(n, x, v, k);
    FourTimes(d * d * d, x, c * n + n, v * (n * (x + v) - k), 2 * x * d);
  }

  /** A quadratic of at most 1 at v bounds c from below. */
  lemma LowBounds(c: int, g: int, v: int, n: int, m: int)
    requires 0 < n && 0 <= v && F(c, g, v) <= 1 && m - n + 1 <= n * g
    ensures v * (n * v + m) <= c * n + (n - 1) * v + n
  {
    MulMono(v * v + g * v, c + 1, n);
    assert (c + 1) * n == c * n + n;
    assert (v * v + g * v) * n == v * (n * v) + v * (n * g);
    MulMono(m - n + 1, n * g, v);
    assert (m - n + 1) * v == v * m - (n - 1) * v;
    assert v * (n * v + m) == v * (n * v) + v * m;
  }

  lemma NotTooMuchFrom(c: int, g: int, x: int, d: int, n: int, y: int)
    requires 0 < x && 0 <= d && 0 < n && 0 <= y
    requires c == YC(x, d, n) && g == YB(x, d, n) - d && F(c, g, y) <= 1
    ensures NotTooMuch(d, n, x, y)
  {
    var k := (n - 1) * y + n;
    SlopeBound(x, d, n);
    LowBounds(c, g, y, n, n * x - (n - 1) * d);
    NumeratorBound(x, d, n);
    assert n * y + (n * x - (n - 1) * d) == n * (x + y) - (n - 1) * d;
    MulMono(y * (n * (x + y) - (n - 1) * d), c * n + k, 4 * x);
    assert (c * n + k) * (4 * x) == c * n * (4 * x) + 4 * x * k;
  }

  /** compute_y against the invariant of the old reserves, at the new ones. */
  lemma YOnCurve(reserveIn: int, amount: int, reserveOut: int, amp: int)
    requires reserveIn > 0 && 0 <= amount && reserveOut > 0 && 1 <= amp
    ensures var d, n := DNewton(reserveIn, reserveOut, amp).value, YNewton(reserveIn, amount, reserveOut, amp);
            && Enough(d, 4 * amp, reserveIn + amount, n.value)
            && (n.settled ==> NotTooMuch(d, 4 * amp, reserveIn + amount, n.value))
  {
    var q, y := YQuadratic(reserveIn, amount, reserveOut, amp), YNewton(reserveIn, amount, reserveOut, amp);
    var d := DNewton(reserveIn, reserveOut, amp).value;
    DNewtonRange(reserveIn, reserveOut, amp);
    EnoughFrom(q.c, q.g, reserveIn + amount, d, 4 * amp, y.value);
    if y.settled { NotTooMuchFrom(q.c, q.g, reserveIn + amount, d, 4 * amp, y.value); }
  }

  // ---------------------------------------------------------------- the invariant after a swap

  lemma RootBelow(d: int, x: int)
    requires 0 <= x && d * d < 2 * x
    ensures d <= x
  {
    if x < d { SquareLe(x + 1, d); }
  }

  /** A root far below the sum of the reserves leaves the factor of the equation positive. */
  lemma FactorNonNegative(d: int, n: int, x: int, y: int)
    requires 0 < x && 0 < d && 0 < n && 0 <= y && Enough(d, n, x, y)
    ensures n * (x + y + 1) - (n - 1) * d >= 0
  {
    var v, m := y + 1, n * (x + y + 1) - (n - 1) * d;
    if m < 0 {
      MulNonNeg(v, -m);
      MulNonNeg(4 * x, -(v * m));
      assert d * d * d < 2 * x * d;
      MulCancelLt(d * d, 2 * x, d);
      RootBelow(d, x);
      MulMono(d, x, n);
    }
  }

  lemma FactorGrows(x: int, v: int, z: int, n: int, k: int)
    requires 0 < n && 0 <= v <= z && 0 <= n * (x + v) - k
    ensures v * (n * (x + v) - k) <= z * (n * (x + z) - k)
  {
    MulMono(x + v, x + z, n);
    MulMono(n * (x + v) - k, n * (x + z) - k, v);
    MulMono(v, z, n * (x + z) - k);
  }

  lemma ExcessFactor(x: int, z: int, n: int, d: int)
    ensures DExcess(x, z, n, d) == d * d * d - 4 * x * (z * (n * (x + z) - (n - 1) * d))
  {
    hide DExcess;
    ExcessForm(x, z, n, d);
    Regroup(x, z, n * (x + z) - (n - 1) * d);
  }

  lemma Regroup(x: int, z: int, e: int)
    ensures 4 * x * (z * e) == e * (4 * x * z)
  {
    assert 4 * x * (z * e) == (4 * x * z) * e;
  }

  /** With a unit more than y in the pool, the equation of the old D is met but for 2xD. */
  lemma EnoughExcess(d: int, n: int, x: int, y: int, z: int)
    requires 0 < x && 0 < d && 0 < n && 0 <= y < z && Enough(d, n, x, y)
    ensures DExcess(x, z, n, d) < 2 * x * d
  {
    FactorNonNegative(d, n, x, y);
    FactorGrows(x, y + 1, z, n, (n - 1) * d);
    FourTimes(d * d * d, x, (y + 1) * (n * (x + y + 1) - (n - 1) * d), z * (n * (x + z) - (n - 1) * d), 2 * x * d);
    ExcessFactor(x, z, n, d);
  }

  /** The excess grows by at least P (ann - 1) a unit. */
  lemma ExcessGap(x: int, z: int, n: int, w: int, d: int)
    requires 0 < x && 0 < z && 1 <= n && 0 <= w < d
    ensures DExcess(x, z, n, w) + (n - 1) * Prod(x, z) <= DExcess(x, z, n, d)
  {
    PositiveProd(x, z);
    CubeLe(w, d);
    MulMono(w + 1, d, n - 1);
    assert (n - 1) * (w + 1) == (n - 1) * w + (n - 1);
    MulMono((n - 1) * w + (n - 1), (n - 1) * d, Prod(x, z));
    assert ((n - 1) * w + (n - 1)) * Prod(x, z) == ((n - 1) * w) * Prod(x, z) + (n - 1) * Prod(x, z);
  }

  /** Any D' that is not a whole unit below the root at the new reserves is at most one below the
      old D, unless the paying reserve has become tiny against D. */
  lemma InvariantAtNew(d: int, n: int, x: int, y: int, z: int, d': int)
    requires 0 < x && 0 < d && 4 <= n && 0 <= y < z && Enough(d, n, x, y) && d <= 2 * z * (n - 1)
    requires 1 <= d' && DExcess(x, z, n, d' + 1) > 0
    ensures d - 1 <= d'
  {
    EnoughExcess(d, n, x, y, z);
    if d' + 1 < d {
      ExcessGap(x, z, n, d' + 1, d);
      MulMono(d, 2 * z * (n - 1), 2 * x);
      assert 2 * z * (n - 1) * (2 * x) == (n - 1) * Prod(x, z) by { FourProductOf(x, z, n - 1); }
    }
  }

  lemma FourProductOf(x: int, z: int, k: int)
    ensures 2 * z * k * (2 * x) == k * Prod(x, z)
  {
    assert 2 * z * k * (2 * x) == k * (2 * z * (2 * x));
  }
}
