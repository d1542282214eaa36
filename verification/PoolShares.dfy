/** Pro-rata share arithmetic that both pool kinds use. */
module PoolShares {
  import opened Arithmetic

  /** Minting at most the proportional share never dilutes: reserve / total does not fall. */
  lemma MintKeepsRatio(reserve: int, total: int, amount: int, s: int)
    requires s * reserve <= amount * total
    ensures (total + s) * reserve <= total * (reserve + amount)
  {
    assert (total + s) * reserve == total * reserve + s * reserve;
    assert total * (reserve + amount) == total * reserve + amount * total;
  }

  /** Tokens paid for burning s of `total` shares. */
  function Redeem(s: int, reserve: int, total: int): int
    requires total != 0
  {
    s * reserve / total
  }

  /** A redemption pays the largest amount that is not more than the shares' part. */
  lemma RedeemLargest(s: int, reserve: int, total: int, x: int)
    requires 0 < total
    ensures x <= Redeem(s, reserve, total) <==> x * total <= s * reserve
  {
    FloorIff(x, s * reserve, total);
  }

  lemma RedeemBound(s: int, reserve: int, total: int)
    requires 0 < s <= total && 0 <= reserve
    ensures 0 <= Redeem(s, reserve, total) <= reserve
    ensures s == total ==> Redeem(s, reserve, total) == reserve
    ensures (total - s) * reserve <= total * (reserve - Redeem(s, reserve, total))
  {
    var x := Redeem(s, reserve, total);
    MulNonNeg(s, reserve);
    FloorAtLeast(0, s * reserve, total);
    FloorDiv(s * reserve, total);
    MulMono(s, total, reserve);
    assert reserve * total == total * reserve;
    MulCancelLe(x, reserve, total);
    if s == total { FloorAtLeast(reserve, s * reserve, total); }
    assert (total - s) * reserve == total * reserve - s * reserve;
    assert total * (reserve - x) == total * reserve - x * total;
  }

  /** Redeeming at once what a deposit minted returns at most the deposit. */
  lemma RedeemMinted(reserve: int, total: int, amount: int, s: int)
    requires 0 < s && 0 <= total && 0 <= reserve && 0 < amount
    requires s * reserve <= amount * total
    ensures Redeem(s, reserve + amount, total + s) <= amount
  {
    assert s * (reserve + amount) == s * reserve + s * amount;
    assert amount * (total + s) == amount * total + s * amount;
    var x := Redeem(s, reserve + amount, total + s);
    FloorDiv(s * (reserve + amount), total + s);
    MulCancelLe(x, amount, total + s);
  }
}
