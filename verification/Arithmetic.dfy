/** Integer division facts shared by the contract models: Rust's `/` on u128 and on
    non-negative i128 values is the floor, and on negative i128 values it truncates. */
module Arithmetic {

  const U128_MAX: int := 0xffff_ffff_ffff_ffff_ffff_ffff_ffff_ffff
  const I128_MAX: int := 0x7fff_ffff_ffff_ffff_ffff_ffff_ffff_ffff

  function Min(x: int, y: int): int { if x <= y then x else y }

  function Max(x: int, y: int): int { if x <= y then y else x }

  /** Rust's i128 division: the quotient is rounded toward zero. */
  function TruncDiv(n: int, d: int): (q: int)
    requires d != 0
    ensures n >= 0 && d > 0 ==> q == n / d
    ensures n <= 0 && d > 0 ==> q <= 0
  {
    if n >= 0 then (if d > 0 then n / d else -(n / -d))
    else (if d > 0 then -(-n / d) else -n / -d)
  }

  lemma MulMono(x: int, y: int, z: int)
    requires x <= y && 0 <= z
    ensures x * z <= y * z
  {}

  lemma MulNonNeg(x: int, y: int)
    requires 0 <= x && 0 <= y
    ensures 0 <= x * y
  {}

  lemma MulPos(x: int, y: int)
    requires 0 < x && 0 < y
    ensures 0 < x * y
  {}

  lemma MulCancelLt(x: int, y: int, z: int)
    requires x * z < y * z && 0 <= z
    ensures x < y
  {
    if y <= x {
      MulMono(y, x, z);
    }
  }

  lemma MulCancelLe(x: int, y: int, z: int)
    requires x * z <= y * z && 0 < z
    ensures x <= y
  {
  }

  lemma Square(x: int)
    ensures 0 <= x * x
  {}

  lemma SquareLe(x: int, y: int)
    requires 0 <= x <= y
    ensures x * x <= y * y
  {
    MulMono(x, y, x);
    MulMono(x, y, y);
  }

  lemma SquareLt(x: int, y: int)
    requires 0 <= x < y
    ensures x * x < y * y
  {
    SquareLe(x + 1, y);
    assert (x + 1) * (x + 1) == x * x + 2 * x + 1;
  }

  /** The quotient is the largest multiple not above the numerator. */
  lemma FloorDiv(n: int, d: int)
    requires d > 0
    ensures (n / d) * d <= n < (n / d) * d + d
  {}

  lemma FloorBelow(n: int, d: int)
    requires d > 0
    ensures n < (n / d + 1) * d
  {
    FloorDiv(n, d);
  }

  lemma FloorAtLeast(q: int, n: int, d: int)
    requires d > 0 && q * d <= n
    ensures q <= n / d
  {
    FloorDiv(n, d);
    assert (n / d) * d + d == (n / d + 1) * d;
    MulCancelLt(q, n / d + 1, d);
  }

  /** Floor division, told by what it is the largest of. */
  lemma FloorIff(q: int, n: int, d: int)
    requires d > 0
    ensures q <= n / d <==> q * d <= n
  {
    FloorDiv(n, d);
    if q <= n / d { MulMono(q, n / d, d); }
    if q * d <= n { FloorAtLeast(q, n, d); }
  }

  lemma FloorAtMost(q: int, n: int, d: int)
    requires d > 0 && n < (q + 1) * d
    ensures n / d <= q
  {
    FloorDiv(n, d);
    MulCancelLt(n / d, q + 1, d);
  }

  lemma TruncFlip(n: int, d: int)
    requires d != 0
    ensures TruncDiv(n, d) == TruncDiv(-n, -d)
  {}

  lemma TruncPosAtMost(n: int, d: int, q: int)
    requires 0 < d && 0 <= q
    ensures TruncDiv(n, d) <= q <==> n < (q + 1) * d
  {
    MulPos(q + 1, d);
    if n > 0 { FloorIff(q + 1, n, d); }
  }

  /** A truncated quotient is at most a non-negative q, told without the division. */
  lemma TruncAtMostIff(n: int, d: int, q: int)
    requires d != 0 && 0 <= q
    ensures TruncDiv(n, d) <= q <==> if d > 0 then n < (q + 1) * d else -n < (q + 1) * -d
  {
    if d > 0 {
      TruncPosAtMost(n, d, q);
    } else {
      TruncFlip(n, d);
      TruncPosAtMost(-n, -d, q);
    }
  }

  /** A truncated quotient is at least a positive q, told without the division. */
  lemma TruncAtLeastIff(n: int, d: int, q: int)
    requires d != 0 && 0 < q
    ensures q <= TruncDiv(n, d) <==> if d > 0 then q * d <= n else q * -d <= -n
  {
    TruncAtMostIff(n, d, q - 1);
  }

  lemma TruncPosNonNeg(n: int, d: int)
    requires 0 < d
    ensures 0 <= TruncDiv(n, d) <==> -n < d
  {
    if n < 0 { FloorIff(1, -n, d); } else { FloorAtLeast(0, n, d); }
  }

  /** A truncated quotient is non-negative, told without the division. */
  lemma TruncNonNegIff(n: int, d: int)
    requires d != 0
    ensures 0 <= TruncDiv(n, d) <==> if d > 0 then -n < d else n < -d
  {
    if d > 0 {
      TruncPosNonNeg(n, d);
    } else {
      TruncFlip(n, d);
      TruncPosNonNeg(-n, -d);
    }
  }

  /** Whether n in d-ths, rounded toward zero, is at least q. */
  predicate Reaches(n: int, d: int, q: int) { if q > 0 then q * d <= n else (q - 1) * d < n }

  lemma TruncReaches(n: int, d: int, q: int)
    requires 0 < d
    ensures q <= TruncDiv(n, d) <==> Reaches(n, d, q)
  {
    if q > 0 {
      TruncAtLeastIff(n, d, q);
    } else {
      TruncNegated(n, d);
      TruncPosAtMost(-n, d, -q);
      assert (-q + 1) * d == -((q - 1) * d);
    }
  }

  lemma TruncNegated(n: int, d: int)
    requires 0 < d
    ensures TruncDiv(-n, d) == -TruncDiv(n, d)
  {}
}
