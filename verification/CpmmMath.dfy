/** The integer arithmetic of the constant-product pool, with all of its roundings. */
module CpmmMath {
  import opened Arithmetic

  // ---------------------------------------------------------------- integer square root

  /** Reference definition: the floored square root, found by counting up. */
  function Isqrt(n: nat): (r: nat)
    ensures r * r <= n < (r + 1) * (r + 1)
  {
    if n == 0 then 0
    else
      var r := Isqrt(n - 1);
      SquareLt(r + 1, r + 2);
      if (r + 1) * (r + 1) <= n then r + 1 else r
  }

  lemma IsqrtUnique(n: nat, r: nat)
    requires r * r <= n < (r + 1) * (r + 1)
    ensures r == Isqrt(n)
  {
    var q := Isqrt(n);
    if r < q { SquareLe(r + 1, q); }
    if q < r { SquareLe(q + 1, r); }
  }

  /** A Babylonian step from any positive x stays at or above the floored root. */
  lemma BabylonianAbove(n: nat, x: nat)
    requires x > 0
    ensures var y := (x + n / x) / 2; n < (y + 1) * (y + 1)
  {
    var q := n / x;
    var y := (x + q) / 2;
    FloorDiv(n, x);
    // n < (q + 1) x  and  4 (q + 1) x <= (x + q + 1)^2 <= (2y + 2)^2
    assert q * x + x == (q + 1) * x;
    Square(x - q - 1);
    FourProduct(x, q + 1);
    FloorAtLeast(0, n, x);
    SquareLe(x + q + 1, 2 * (y + 1));
    assert (2 * (y + 1)) * (2 * (y + 1)) == 4 * ((y + 1) * (y + 1));
  }

  lemma FourProduct(x: int, z: int)
    ensures 4 * (z * x) + (x - z) * (x - z) == (x + z) * (x + z)
  {}

  /** The code's loop. */
  method BabylonianSqrt(n: nat) returns (x: nat)
    ensures x == Isqrt(n)
  {
    if n == 0 { return 0; }
    x := n;
    var y := (x + 1) / 2;
    assert n < (x + 1) * (x + 1) by { MulMono(1, x, x); assert (x + 1) * (x + 1) == x * x + 2 * x + 1; }
    assert n / n == 1;
    while y < x
      invariant 0 < x && n < (x + 1) * (x + 1)
      invariant y == (x + n / x) / 2
      decreases x
    {
      BabylonianAbove(n, x);
      x := y;
      y := (x + n / x) / 2;
    }
    // y >= x means n / x >= x
    FloorDiv(n, x);
    MulMono(x, n / x, x);
    IsqrtUnique(n, x);
  }

  // ---------------------------------------------------------------- adding liquidity

  /** Shares minted for a deposit of a and b. */
  function MintShares(reserveA: int, reserveB: int, total: int, a: int, b: int): int
    requires total == 0 ==> a * b >= 0
    requires total != 0 ==> reserveA != 0 && reserveB != 0
  {
    if total == 0 then Isqrt(a * b) else Min(a * total / reserveA, b * total / reserveB)
  }

  /** A later deposit mints, of either reserve, no more than its proportional share. */
  lemma MintBound(reserveA: int, reserveB: int, total: int, a: int, b: int)
    requires reserveA > 0 && reserveB > 0 && total > 0 && a > 0 && b > 0
    ensures var s := MintShares(reserveA, reserveB, total, a, b);
            0 <= s && s * reserveA <= a * total && s * reserveB <= b * total
  {
    var s := MintShares(reserveA, reserveB, total, a, b);
    MulPos(a, total);
    MulPos(b, total);
    FloorDiv(a * total, reserveA);
    FloorDiv(b * total, reserveB);
    FloorAtLeast(0, a * total, reserveA);
    FloorAtLeast(0, b * total, reserveB);
    MulMono(s, a * total / reserveA, reserveA);
    MulMono(s, b * total / reserveB, reserveB);
  }

  /** A later deposit mints the largest number of shares that is proportional to neither
      reserve more than the deposit is. */
  lemma MintLargest(reserveA: int, reserveB: int, total: int, a: int, b: int, s: int)
    requires reserveA > 0 && reserveB > 0 && total > 0
    ensures s <= MintShares(reserveA, reserveB, total, a, b)
            <==> s * reserveA <= a * total && s * reserveB <= b * total
  {
    FloorIff(s, a * total, reserveA);
    FloorIff(s, b * total, reserveB);
  }

  // ---------------------------------------------------------------- swapping

  function AfterFee(amount: int, feeBps: int): int { amount * (10000 - feeBps) / 10000 }

  function SwapOut(reserveIn: int, reserveOut: int, feeBps: int, amount: int): int
    requires reserveIn + AfterFee(amount, feeBps) != 0
  {
    reserveOut * AfterFee(amount, feeBps) / (reserveIn + AfterFee(amount, feeBps))
  }

  lemma AfterFeeBound(amount: int, feeBps: int)
    requires 0 <= amount && 0 <= feeBps <= 10000
    ensures 0 <= AfterFee(amount, feeBps) <= amount
  {
    MulNonNeg(amount, 10000 - feeBps);
    MulMono(10000 - feeBps, 10000, amount);
  }

  /** Splitting an input never helps against the fee's floor. */
  lemma AfterFeeSplit(x: int, y: int, feeBps: int)
    requires 0 <= x && 0 <= y && 0 <= feeBps <= 10000
    ensures AfterFee(x, feeBps) + AfterFee(y, feeBps) <= AfterFee(x + y, feeBps)
  {
    assert (x + y) * (10000 - feeBps) == x * (10000 - feeBps) + y * (10000 - feeBps);
  }

  /** The output is the largest whole amount that keeps the product, counting only the
      after-fee part of the input. */
  lemma SwapOutLargest(reserveIn: int, reserveOut: int, feeBps: int, amount: int, out: int)
    requires 0 < reserveIn && 0 <= reserveOut && 0 <= amount && 0 <= feeBps <= 10000
    ensures var f := AfterFee(amount, feeBps);
            0 <= f && (out <= SwapOut(reserveIn, reserveOut, feeBps, amount)
                       <==> reserveIn * reserveOut <= (reserveIn + f) * (reserveOut - out))
  {
    AfterFeeBound(amount, feeBps);
    var f := AfterFee(amount, feeBps);
    var q := SwapOut(reserveIn, reserveOut, feeBps, amount);
    FloorDiv(reserveOut * f, reserveIn + f);
    assert (reserveIn + f) * (reserveOut - out) == reserveIn * reserveOut + reserveOut * f - out * (reserveIn + f);
    if out <= q {
      MulMono(out, q, reserveIn + f);
    } else {
      MulMono(q + 1, out, reserveIn + f);
      assert (q + 1) * (reserveIn + f) == q * (reserveIn + f) + (reserveIn + f);
    }
  }

  lemma SwapOutBound(reserveIn: int, reserveOut: int, feeBps: int, amount: int)
    requires 0 < reserveIn && 0 < reserveOut && 0 <= amount && 0 <= feeBps <= 10000
    ensures AfterFee(amount, feeBps) >= 0
    ensures 0 <= SwapOut(reserveIn, reserveOut, feeBps, amount) < reserveOut
  {
    AfterFeeBound(amount, feeBps);
    MulPos(reserveIn, reserveOut);
    MulNonNeg(reserveOut, AfterFee(amount, feeBps));
    FloorAtLeast(0, reserveOut * AfterFee(amount, feeBps), reserveIn + AfterFee(amount, feeBps));
    SwapOutLargest(reserveIn, reserveOut, feeBps, amount, reserveOut);
  }

  /** No swap lowers the product of the reserves. */
  lemma SwapKeepsProduct(reserveIn: int, reserveOut: int, feeBps: int, amount: int)
    requires 0 < reserveIn && 0 < reserveOut && 0 <= amount && 0 <= feeBps <= 10000
    ensures AfterFee(amount, feeBps) >= 0
    ensures reserveIn * reserveOut
            <= (reserveIn + amount) * (reserveOut - SwapOut(reserveIn, reserveOut, feeBps, amount))
  {
    var out := SwapOut(reserveIn, reserveOut, feeBps, amount);
    SwapOutBound(reserveIn, reserveOut, feeBps, amount);
    SwapOutLargest(reserveIn, reserveOut, feeBps, amount, out);
    AfterFeeBound(amount, feeBps);
    MulMono(reserveIn + AfterFee(amount, feeBps), reserveIn + amount, reserveOut - out);
  }

  lemma SplitCore(x: int, whole: int, f1: int, f: int, a1: int, u: int, v: int)
    requires 0 <= f1 <= a1 && 0 <= f && v <= u
    requires x * whole <= (x + f1) * u
    requires (x + a1) * u <= (x + a1 + f) * v
    ensures x * whole <= (x + (f1 + f)) * v
  {
    assert (x + a1 + f) * v == (x + a1) * v + f * v;
    assert (x + a1) * u - (x + a1) * v == (x + a1) * (u - v);
    MulMono(x + f1, x + a1, u - v);
    assert (x + f1) * (u - v) == (x + f1) * u - (x + f1) * v;
    assert (x + (f1 + f)) * v == (x + f1) * v + f * v;
  }

  /** After two swaps, the reserves with only the after-fee inputs counted. */
  lemma SplitProduct(x: int, y: int, feeBps: int, first: int, rest: int)
    requires 0 < x && 0 < y && 0 <= first && 0 <= rest && 0 <= feeBps <= 10000
    ensures AfterFee(first, feeBps) >= 0 && AfterFee(rest, feeBps) >= 0
    ensures var out := SwapOut(x, y, feeBps, first);
            var left := y - out - SwapOut(x + first, y - out, feeBps, rest);
            0 <= left && x * y <= (x + (AfterFee(first, feeBps) + AfterFee(rest, feeBps))) * left
  {
    AfterFeeBound(first, feeBps);
    AfterFeeBound(rest, feeBps);
    SwapOutBound(x, y, feeBps, first);
    var o1 := SwapOut(x, y, feeBps, first);
    SwapOutBound(x + first, y - o1, feeBps, rest);
    var o2 := SwapOut(x + first, y - o1, feeBps, rest);
    SwapOutLargest(x, y, feeBps, first, o1);
    SwapOutLargest(x + first, y - o1, feeBps, rest, o2);
    SplitCore(x, y, AfterFee(first, feeBps), AfterFee(rest, feeBps), first, y - o1, y - o1 - o2);
  }

  /** Two swaps in a row pay at most what one swap of the summed input pays. */
  lemma SplitSwap(x: int, y: int, feeBps: int, first: int, rest: int)
    requires 0 < x && 0 < y && 0 <= first && 0 <= rest && 0 <= feeBps <= 10000
    ensures AfterFee(first, feeBps) >= 0 && AfterFee(rest, feeBps) >= 0 && AfterFee(first + rest, feeBps) >= 0
    ensures var out := SwapOut(x, y, feeBps, first);
            out + SwapOut(x + first, y - out, feeBps, rest) <= SwapOut(x, y, feeBps, first + rest)
  {
    SplitProduct(x, y, feeBps, first, rest);
    AfterFeeBound(first + rest, feeBps);
    AfterFeeSplit(first, rest, feeBps);
    var o1 := SwapOut(x, y, feeBps, first);
    var o2 := SwapOut(x + first, y - o1, feeBps, rest);
    MulMono(x + (AfterFee(first, feeBps) + AfterFee(rest, feeBps)), x + AfterFee(first + rest, feeBps), y - o1 - o2);
    SwapOutLargest(x, y, feeBps, first + rest, o1 + o2);
  }
}
