/** The constant-product pool as the host runs it: storage fields rewritten in place. Every
    method is proved to act on its storage exactly as the function of module Cpmm says. */
module CpmmContract {
  import opened Arithmetic
  import opened CpmmMath
  import opened Cpmm
  import opened Outcomes
  import opened Totals

  class Pool {
    const tokenA: Address
    const tokenB: Address
    const feeBps: int
    var reserveA: int
    var reserveB: int
    var totalShares: int
    var lp: Balances
    var events: seq<Event>

    ghost function View(): State
      reads this
    {
      State(tokenA, tokenB, feeBps, reserveA, reserveB, totalShares, lp, events)
    }

    ghost predicate Valid()
      reads this
    {
      Inv(View())
    }

    constructor Deploy(tokenA: Address, tokenB: Address, feeBps: int)
      ensures View() == Fresh(tokenA, tokenB, feeBps)
    {
      this.tokenA, this.tokenB, this.feeBps := tokenA, tokenB, feeBps;
      reserveA, reserveB, totalShares := 0, 0, 0;
      lp, events := map[], [];
    }

    /** None when `initialize` panics. */
    static method Initialize(auth: bool, tokenA: Address, tokenB: Address, feeBps: nat)
      returns (p: Option<Pool>)
      ensures p.Some? <==> auth && tokenA != tokenB && feeBps <= 1000
      ensures p.Some? ==> fresh(p.value) && p.value.Valid()
      ensures p.Some? ==> p.value.View() == Fresh(tokenA, tokenB, feeBps)
    {
      if !auth || tokenA == tokenB || feeBps > 1000 { return None; }
      var pool := new Pool.Deploy(tokenA, tokenB, feeBps);
      return Some(pool);
    }

    method AddLiquidity(host: Host, provider: Address, amountA: int, amountB: int, minShares: int)
      returns (r: Result<int, PoolError>)
      requires Valid()
      modifies this
      ensures Valid()
      ensures (View(), r) == Cpmm.AddLiquidity(old(View()), host, provider, amountA, amountB, minShares)
    {
      AddKeeps(View(), host, provider, amountA, amountB, minShares);
      SharesIffReserves(View());
      if !host.auth { return Panic; }
      if amountA <= 0 || amountB <= 0 { return Err(ZeroAmount); }
      var shares;
      if totalShares == 0 {
        MulPos(amountA, amountB);
        shares := BabylonianSqrt(amountA * amountB);
      } else {
        var sharesA := amountA * totalShares / reserveA;
        var sharesB := amountB * totalShares / reserveB;
        shares := Min(sharesA, sharesB);
      }
      if shares < minShares { return Err(SlippageExceeded); }
      if !host.funded { return Panic; }
      lp := lp[provider := Get(lp, provider) + shares];
      reserveA := reserveA + amountA;
      reserveB := reserveB + amountB;
      totalShares := totalShares + shares;
      events := events + [AddLiq(provider, amountA, amountB, shares, tokenA, tokenB, reserveA, reserveB, totalShares)];
      return Ok(shares);
    }

    method RemoveLiquidity(host: Host, provider: Address, sharesIn: int, minA: int, minB: int)
      returns (r: Result<(int, int), PoolError>)
      requires Valid()
      modifies this
      ensures Valid()
      ensures (View(), r) == Cpmm.RemoveLiquidity(old(View()), host, provider, sharesIn, minA, minB)
      ensures r.Ok? ==>
                && RedeemedFor(r.value.0, sharesIn, old(reserveA), old(totalShares)) && reserveA == old(reserveA) - r.value.0
                && RedeemedFor(r.value.1, sharesIn, old(reserveB), old(totalShares)) && reserveB == old(reserveB) - r.value.1
                && totalShares == old(totalShares) - sharesIn && Moved(old(lp), lp, provider, -sharesIn)
    {
      RemovePays(View(), host, provider, sharesIn, minA, minB);
      RemoveKeeps(View(), host, provider, sharesIn, minA, minB);
      if !host.auth { return Panic; }
      if sharesIn <= 0 { return Err(ZeroAmount); }
      var providerShares := Get(lp, provider);
      if providerShares < sharesIn { return Err(InsufficientLpShares); }
      if totalShares == 0 { return Err(InsufficientLiquidity); }
      var amountA := sharesIn * reserveA / totalShares;
      var amountB := sharesIn * reserveB / totalShares;
      if amountA < minA || amountB < minB { return Err(SlippageExceeded); }
      lp := lp[provider := providerShares - sharesIn];
      reserveA := reserveA - amountA;
      reserveB := reserveB - amountB;
      totalShares := totalShares - sharesIn;
      events := events + [RmLiq(provider, amountA, amountB, sharesIn, tokenA, tokenB, reserveA, reserveB, totalShares)];
      return Ok((amountA, amountB));
    }

    method Swap(host: Host, trader: Address, tokenIn: Address, amountIn: int, minOut: int)
      returns (r: Result<int, PoolError>)
      requires Valid()
      modifies this
      ensures Valid()
      ensures (View(), r) == Cpmm.Swap(old(View()), host, trader, tokenIn, amountIn, minOut)
    {
      SwapKeeps(View(), host, trader, tokenIn, amountIn, minOut);
      if !host.auth { return Panic; }
      if amountIn <= 0 { return Err(ZeroAmount); }
      var rin, rout, tokenOut, swapToA;
      if tokenIn == tokenA {
        rin, rout, tokenOut, swapToA := reserveA, reserveB, tokenB, false;
      } else if tokenIn == tokenB {
        rin, rout, tokenOut, swapToA := reserveB, reserveA, tokenA, true;
      } else {
        return Err(InvalidFee);
      }
      if rin == 0 || rout == 0 { return Err(InsufficientLiquidity); }
      AfterFeeBound(amountIn, feeBps);
      var afterFee := amountIn * (10000 - feeBps) / 10000;
      var out := rout * afterFee / (rin + afterFee);
      if out < minOut { return Err(SlippageExceeded); }
      if !host.funded { return Panic; }
      if swapToA {
        reserveA := rout - out;
        reserveB := rin + amountIn;
      } else {
        reserveA := rin + amountIn;
        reserveB := rout - out;
      }
      events := events + [Swapped(trader, amountIn, out, tokenIn, tokenOut, reserveA, reserveB, feeBps,
                                  totalShares, tokenA, tokenB)];
      return Ok(out);
    }
  }
}
