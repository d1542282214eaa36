/** The StableSwap pool as the host runs it. Every method is proved to act on its storage
    exactly as the function of module Stable says. */
module StableContract {
  import opened Outcomes
  import opened Stable
  import opened StableMath
  import opened Totals

  class StablePool {
    const admin: Address
    const tokenA: Address
    const tokenB: Address
    const amp: int
    var feeBps: int
    var reserveA: int
    var reserveB: int
    var totalShares: int
    var lp: Balances

    ghost function View(): State
      reads this
    {
      State(admin, tokenA, tokenB, amp, feeBps, reserveA, reserveB, totalShares, lp)
    }

    ghost predicate Valid()
      reads this
    {
      Inv(View())
    }

    constructor Deploy(admin: Address, tokenA: Address, tokenB: Address, amp: int)
      ensures View() == Fresh(admin, tokenA, tokenB, amp)
    {
      this.admin, this.tokenA, this.tokenB, this.amp := admin, tokenA, tokenB, amp;
      feeBps, reserveA, reserveB, totalShares, lp := 30, 0, 0, 0, map[];
    }

    /** None when `initialize` panics. */
    static method Initialize(auth: bool, admin: Address, tokenA: Address, tokenB: Address, amp: nat)
      returns (p: Option<StablePool>)
      ensures p.Some? <==> auth && tokenA != tokenB && 1 <= amp <= MAX_AMPLIFICATION
      ensures p.Some? ==> fresh(p.value) && p.value.Valid() && Live(p.value.View())
      ensures p.Some? ==> p.value.View() == Fresh(admin, tokenA, tokenB, amp)
    {
      if !auth || tokenA == tokenB || amp == 0 || amp > MAX_AMPLIFICATION { return None; }
      var pool := new StablePool.Deploy(admin, tokenA, tokenB, amp);
      return Some(pool);
    }

    method SetFee(auth: bool, caller: Address, newFee: nat) returns (r: Result<(), StableError>)
      requires Valid()
      modifies this`feeBps
      ensures Valid()
      ensures (View(), r) == Stable.SetFee(old(View()), auth, caller, newFee)
      ensures r.Ok? <==> caller == admin && auth && newFee <= 1000
      ensures feeBps == if r.Ok? then newFee else old(feeBps)
    {
      if caller != admin { return Err(NotAdmin); }
      if !auth { return Panic; }
      if newFee > 1000 { return Err(InvalidFee); }
      feeBps := newFee;
      return Ok(());
    }

    method AddLiquidity(host: Host, provider: Address, amountA: int, amountB: int, minShares: int)
      returns (r: Result<int, StableError>)
      requires Valid()
      modifies this
      ensures Valid()
      ensures (View(), r) == Stable.AddLiquidity(old(View()), host, provider, amountA, amountB, minShares)
    {
      ghost var saved := View();
      if !host.auth { return Panic; }
      if amountA <= 0 || amountB <= 0 { return Err(ZeroAmount); }
      var shares;
      if totalShares == 0 {
        var d := ComputeD(amountA, amountB, amp);
        shares := d.value;
      } else {
        var d0 := ComputeD(reserveA, reserveB, amp);
        if d0 == None { return Panic; }
        var d1 := ComputeD(reserveA + amountA, reserveB + amountB, amp);
        if d1.value < d0.value || d0.value == 0 { return Panic; }
        shares := (d1.value - d0.value) * totalShares / d0.value;
      }
      if shares < minShares { return Err(SlippageExceeded); }
      if !host.funded { return Panic; }
      lp := lp[provider := Get(lp, provider) + shares];
      reserveA := reserveA + amountA;
      reserveB := reserveB + amountB;
      totalShares := totalShares + shares;
      AddKeeps(saved, host, provider, amountA, amountB, minShares);
      return Ok(shares);
    }

    method RemoveLiquidity(host: Host, provider: Address, sharesIn: int, minA: int, minB: int)
      returns (r: Result<(int, int), StableError>)
      requires Valid()
      modifies this
      ensures Valid()
      ensures (View(), r) == Stable.RemoveLiquidity(old(View()), host, provider, sharesIn, minA, minB)
    {
      RemoveKeeps(View(), host, provider, sharesIn, minA, minB);
      if !host.auth { return Panic; }
      if sharesIn <= 0 { return Err(ZeroAmount); }
      var providerShares := Get(lp, provider);
      if providerShares < sharesIn { return Err(InsufficientLpShares); }
      if totalShares == 0 { return Err(InsufficientLiquidity); }
      var amountA := sharesIn * reserveA / totalShares;
      var amountB := sharesIn * reserveB / totalShares;
      if amountA < minA || amountB < minB { return Err(SlippageExceeded); }
      lp := lp[provider := providerShares - sharesIn];
      reserveA := reserveA - amountA;
      reserveB := reserveB - amountB;
      totalShares := totalShares - sharesIn;
      return Ok((amountA, amountB));
    }

    method Swap(host: Host, trader: Address, tokenIn: Address, amountIn: int, minOut: int)
      returns (r: Result<int, StableError>)
      requires Valid()
      modifies this
      ensures Valid()
      ensures (View(), r) == Stable.Swap(old(View()), host, trader, tokenIn, amountIn, minOut)
      ensures r.Ok? && SwapFits(old(View()), tokenIn, amountIn) ==>
                && ReserveIn(old(View()), tokenIn) > 0 && ReserveOut(old(View()), tokenIn) > 0
                && Priced(old(View()), tokenIn, amountIn, r.value)
    {
      hide SwapFits, Priced;
      if Stable.Swap(View(), host, trader, tokenIn, amountIn, minOut).1.Ok? && SwapFits(View(), tokenIn, amountIn) {
        SwapPriced(View(), host, trader, tokenIn, amountIn, minOut);
      }
      SwapKeeps(View(), host, trader, tokenIn, amountIn, minOut);
      if !host.auth { return Panic; }
      if amountIn <= 0 { return Err(ZeroAmount); }
      var rin, rout;
      if tokenIn == tokenA {
        rin, rout := reserveA, reserveB;
      } else if tokenIn == tokenB {
        rin, rout := reserveB, reserveA;
      } else {
        return Err(InvalidFee);
      }
      if rin == 0 || rout == 0 { return Err(InsufficientLiquidity); }
      var y := ComputeY(rin, amountIn, rout, amp);
      if y.value > rout { return Panic; }
      var net := (rout - y.value) * (10000 - feeBps) / 10000;
      if net < minOut { return Err(SlippageExceeded); }
      if !host.funded { return Panic; }
      if tokenIn == tokenA {
        reserveA, reserveB := rin + amountIn, rout - net;
      } else {
        reserveB, reserveA := rin + amountIn, rout - net;
      }
      return Ok(net);
    }
  }
}
