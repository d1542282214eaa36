/** The lending pool as the host runs it. Every method is proved to act on its storage
    exactly as the function of module Lending says. */
module LendingContract {
  import opened Arithmetic
  import opened Lending
  import opened LendingCalls
  import opened Outcomes
  import opened Totals

  class Pool {
    var admin: Address
    var collateralFactor: int
    var threshold: int
    var bonus: int
    var rate: int
    var reserveFactor: int
    var paused: bool
    var oracleSet: bool
    var maxAge: int
    var sameAsset: bool
    var deposits: Balances
    var borrows: Balances
    var collateral: Balances
    var totalSupply: int
    var totalBorrows: int
    var totalReserves: int
    var lastAccrual: int
    // interest accrued since the totals were initialised, for the theorems only
    var accrued: int

    function View(): State
      reads this
    {
      State(admin, collateralFactor, threshold, bonus, rate, reserveFactor, paused, oracleSet, maxAge, sameAsset,
            deposits, borrows, collateral, totalSupply, totalBorrows, totalReserves, lastAccrual, accrued)
    }

    /** The books are in order. Any method may be called on any pool; each says when it keeps
        them. */
    ghost predicate Valid()
      reads this
    {
      Inv(View())
    }

    /** Storage nothing has been written to. */
    constructor Deploy()
      ensures View() == Blank()
    {
      admin, collateralFactor, threshold, bonus, rate, reserveFactor := "", 0, 0, 0, 0, 0;
      paused, oracleSet, maxAge, sameAsset := false, false, 10, true;
      deposits, borrows, collateral := map[], map[], map[];
      totalSupply, totalBorrows, totalReserves, lastAccrual, accrued := 0, 0, 0, 0, 0;
    }

    /** Callable by anyone, at any time: nothing asks whether the pool is in use. */
    method Initialize(now: int, newAdmin: Address, cf: int, lt: int, lb: int, ir: int, rf: int) returns (r: Reply)
      modifies this
      ensures (View(), r) == Lending.Initialize(old(View()), now, newAdmin, cf, lt, lb, ir, rf)
      ensures r.Ok? <==> cf <= 8000 && rf <= 5000
      ensures r.Ok? ==> totalSupply == totalBorrows == totalReserves == 0
                        && deposits == old(deposits) && borrows == old(borrows) && collateral == old(collateral)
      ensures old(Valid()) && r.Ok? && 0 <= ir && 0 <= rf ==> (Valid() <==> AllZero(old(borrows)))
    {
      hide Inv;
      if cf > 8000 { return Err(CollateralFactorTooHigh); }
      if rf > 5000 { return Err(ReserveFactorTooHigh); }
      ghost var s := View();
      WriteFresh(now, newAdmin, cf, lt, lb, ir, rf);
      if Inv(s) && 0 <= ir && 0 <= rf { InitializeKeepsIff(s, now, newAdmin, cf, lt, lb, ir, rf); }
      return Ok(0);
    }

    /** The writes of `initialize`: everything but the positions, the oracle and the tokens. */
    method WriteFresh(now: int, newAdmin: Address, cf: int, lt: int, lb: int, ir: int, rf: int)
      modifies this`admin, this`collateralFactor, this`threshold, this`bonus, this`rate, this`reserveFactor, this`paused,
               this`totalSupply, this`totalBorrows, this`totalReserves, this`lastAccrual, this`accrued
      ensures admin == newAdmin && collateralFactor == cf && threshold == lt && bonus == lb && rate == ir
      ensures reserveFactor == rf && !paused && lastAccrual == now
      ensures totalSupply == totalBorrows == totalReserves == accrued == 0
    {
      admin, collateralFactor, threshold, bonus, rate, reserveFactor := newAdmin, cf, lt, lb, ir, rf;
      paused, totalSupply, totalBorrows, totalReserves, lastAccrual, accrued := false, 0, 0, 0, now, 0;
    }

    method ReadOraclePrice(now: int, reading: Reading) returns (r: Result<Reading, PoolError>)
      ensures r == ReadPrice(View(), now, reading)
      ensures r.Ok? <==> Usable(View(), now, reading)
      ensures r == Err(InvalidOraclePrice) <==> reading.Quoted? && (reading.price <= 0 || reading.timestamp > now)
    {
      if reading.NoPrice? { return Err(OracleUnavailable); }
      if reading.price <= 0 { return Err(InvalidOraclePrice); }
      if reading.timestamp > now { return Err(InvalidOraclePrice); }
      if now - reading.timestamp > maxAge { return Err(OracleUnavailable); }
      return Ok(reading);
    }

    method CalculateHealthFactor(h: Host, user: Address) returns (r: Reply)
      ensures r == Health(View(), h, user)
    {
      var c, b := Get(collateral, user), Get(borrows, user);
      if b == 0 { return Ok(I128_MAX); }
      var collateralValue, borrowValue;
      if oracleSet {
        var cp := ReadOraclePrice(h.now, h.collateral);
        if cp.Err? { return Err(cp.error); }
        var dp := cp;
        if !sameAsset { dp := ReadOraclePrice(h.now, h.debt); }
        if dp.Err? { return Err(dp.error); }
        if cp.value.decimals != dp.value.decimals { return Err(InvalidOraclePrice); }
        collateralValue := c * cp.value.price;
        if !FitsI128(collateralValue) { return Err(InvalidOraclePrice); }
        collateralValue := collateralValue * threshold;
        if !FitsI128(collateralValue) { return Err(InvalidOraclePrice); }
        borrowValue := b * dp.value.price;
        if !FitsI128(borrowValue) { return Err(InvalidOraclePrice); }
        borrowValue := borrowValue * 10000;
        if !FitsI128(borrowValue) { return Err(InvalidOraclePrice); }
        ValueNonZero(b, dp.value.price);
      } else {
        if !sameAsset { return Err(OracleUnavailable); }
        collateralValue := c * threshold;
        borrowValue := b * 10000;
        assert c * 1 * threshold == c * threshold;
      }
      return Ok(TruncDiv(collateralValue * 10000, borrowValue));
    }

    static lemma ValueNonZero(b: int, price: int)
      requires b != 0 && price > 0
      ensures b * price * 10000 != 0
    {
      if b > 0 { MulPos(b, price); } else { MulPos(-b, price); assert -b * price == -(b * price); }
    }

    /** The gate the risk-raising calls share. */
    method Gate(h: Host, user: Address) returns (e: Option<Reply>)
      ensures e == Unhealthy(View(), h, user)
    {
      var health := CalculateHealthFactor(h, user);
      match health {
        case Ok(x) =>
          if x < 10000 { return Some(Err(HealthFactorBelowOne)); }
          return None;
        case _ => return Some(health);
      }
    }

    method Deposit(h: Host, from: Address, amount: int) returns (r: Reply)
      modifies this`deposits, this`totalSupply
      ensures (View(), r) == Lending.Deposit(old(View()), h, from, amount)
      ensures old(Valid()) ==> Valid()
      ensures old(Valid()) && r.Ok? ==>
                (r.value <= amount <==> old(totalSupply) >= 0 || old(Assets(View())) > 0
                                        || amount * -old(totalSupply) < (amount + 1) * -old(Assets(View())))
    {
      hide Inv;
      if Valid() {
        PositionCallKeeps(View(), CallDeposit(h, from, amount));
        if Lending.Deposit(View(), h, from, amount).1.Ok? { DepositMints(View(), h, from, amount, 0); }
      }
      if amount <= 0 { return Err(ZeroAmount); }
      if paused { return Err(PoolPaused); }
      if !h.auth { return Panic; }
      var bTokens := amount;
      if totalSupply != 0 {
        var totalAssets := totalSupply + totalBorrows + totalReserves;
        if totalAssets == 0 { return Panic; }
        bTokens := TruncDiv(amount * totalSupply, totalAssets);
      }
      if !h.tokensOk { return Panic; }
      deposits := deposits[from := Get(deposits, from) + amount];
      totalSupply := totalSupply + bTokens;
      return Ok(bTokens);
    }

    method Withdraw(h: Host, from: Address, bTokens: int) returns (r: Reply)
      modifies this`deposits, this`totalSupply
      ensures (View(), r) == Lending.Withdraw(old(View()), h, from, bTokens)
      ensures old(Valid()) ==> Valid()
      ensures old(Valid()) && r.Ok? ==>
                (bTokens <= r.value <==> old(totalSupply) > 0 || old(Assets(View())) == old(totalSupply))
    {
      hide Inv;
      if Valid() {
        PositionCallKeeps(View(), CallWithdraw(h, from, bTokens));
        if Lending.Withdraw(View(), h, from, bTokens).1.Ok? { WithdrawPays(View(), h, from, bTokens, 0); }
      }
      if bTokens <= 0 { return Err(ZeroAmount); }
      if paused { return Err(PoolPaused); }
      if !h.auth || totalSupply == 0 { return Panic; }
      var underlying := TruncDiv(bTokens * (totalSupply + totalBorrows + totalReserves), totalSupply);
      if Get(deposits, from) < bTokens { return Err(InsufficientBalance); }
      var gate := Gate(h, from);
      if gate.Some? { return gate.value; }
      if !h.tokensOk { return Panic; }
      deposits := deposits[from := Get(deposits, from) - bTokens];
      totalSupply := totalSupply - bTokens;
      return Ok(underlying);
    }

    /** Writes the new debt first and undoes it when the health check fails. */
    method Borrow(h: Host, from: Address, amount: int) returns (r: Reply)
      modifies this`borrows, this`totalBorrows
      ensures (View(), r) == Lending.Borrow(old(View()), h, from, amount)
      ensures old(Valid()) ==> Valid()
      ensures old(Valid()) ==>
                (r.Ok? <==> && old(Admits(View(), h, amount)) && h.tokensOk && old(totalBorrows) + amount <= totalSupply
                            && old(Passes(View(), h, Get(collateral, from), Get(borrows, from) + amount)))
    {
      hide Inv, Passes, Admits, Moved, Health;
      if Valid() {
        BorrowKeeps(View(), h, from, amount);
        BorrowOutcome(View(), h, from, amount);
      }
      if amount <= 0 { return Err(ZeroAmount); }
      if paused { return Err(PoolPaused); }
      if !h.auth { return Panic; }
      if amount > totalSupply - totalBorrows { return Err(ZeroAmount); }
      var saved := borrows;
      borrows := borrows[from := Get(borrows, from) + amount];
      var gate := Gate(h, from);
      if gate.Some? || !h.tokensOk {
        borrows := saved;
        return if gate.Some? then gate.value else Panic;
      }
      totalBorrows := totalBorrows + amount;
      return Ok(0);
    }

    method Repay(h: Host, from: Address, amount: int) returns (r: Reply)
      modifies this`borrows, this`totalBorrows
      ensures (View(), r) == Lending.Repay(old(View()), h, from, amount)
      ensures old(Valid()) ==> Valid()
      ensures old(Valid()) && r.Ok? ==>
                && 0 <= r.value <= amount && 0 <= Get(borrows, from) == Get(old(borrows), from) - r.value
                && (r.value == amount || Get(borrows, from) == 0)
    {
      hide Inv;
      if Valid() {
        RepayKeeps(View(), h, from, amount);
        if Lending.Repay(View(), h, from, amount).1.Ok? { RepaySettles(View(), h, from, amount); }
      }
      if amount <= 0 { return Err(ZeroAmount); }
      if paused { return Err(PoolPaused); }
      if !h.auth || !h.tokensOk { return Panic; }
      var repaid := Min(amount, Get(borrows, from));
      borrows := borrows[from := Get(borrows, from) - repaid];
      totalBorrows := totalBorrows - repaid;
      return Ok(repaid);
    }

    method SetCollateral(h: Host, user: Address, amount: int) returns (r: Reply)
      modifies this`collateral
      ensures (View(), r) == Lending.SetCollateral(old(View()), h, user, amount)
      ensures old(Valid()) ==> Valid()
      ensures old(Valid()) ==>
                (r.Ok? <==> && !paused && h.auth && amount <= Get(deposits, user)
                            && old(Passes(View(), h, amount, Get(borrows, user))))
      ensures r.Ok? ==> Get(collateral, user) == amount <= Get(deposits, user)
    {
      hide Inv, Passes, Moved, Health;
      if Valid() {
        PositionCallKeeps(View(), CallSetCollateral(h, user, amount));
        SetCollateralOutcome(View(), h, user, amount);
      }
      if paused { return Err(PoolPaused); }
      if !h.auth { return Panic; }
      if amount > Get(deposits, user) { return Err(InsufficientBalance); }
      var saved := collateral;
      collateral := collateral[user := amount];
      var gate := Gate(h, user);
      if gate.Some? {
        // the error makes the host roll the write back
        collateral := saved;
        return gate.value;
      }
      return Ok(0);
    }

    method DepositCollateral(h: Host, from: Address, amount: int) returns (r: Reply)
      modifies this`collateral
      ensures (View(), r) == Lending.DepositCollateral(old(View()), h, from, amount)
      ensures old(Valid()) ==> Valid()
      ensures old(Valid()) && 0 <= threshold ==>
                forall pc, pd :: 0 <= pc && 0 < pd ==>
                  HealthAt(Get(collateral, from), Get(borrows, from), threshold, pc, pd)
                  >= HealthAt(Get(old(collateral), from), Get(borrows, from), threshold, pc, pd)
    {
      hide Inv;
      if Valid() {
        PositionCallKeeps(View(), CallDepositCollateral(h, from, amount));
        CollateralHelpsAlways(View(), h, from, amount);
      }
      if amount <= 0 { return Err(ZeroAmount); }
      if paused { return Err(PoolPaused); }
      if !h.auth || !h.tokensOk { return Panic; }
      collateral := collateral[from := Get(collateral, from) + amount];
      return Ok(0);
    }

    method WithdrawCollateral(h: Host, from: Address, amount: int) returns (r: Reply)
      modifies this`collateral
      ensures (View(), r) == Lending.WithdrawCollateral(old(View()), h, from, amount)
      ensures old(Valid()) ==> Valid()
    {
      hide Inv;
      if Valid() { PositionCallKeeps(View(), CallWithdrawCollateral(h, from, amount)); }
      if amount <= 0 { return Err(ZeroAmount); }
      if paused { return Err(PoolPaused); }
      if !h.auth { return Panic; }
      if amount > Get(collateral, from) { return Err(InsufficientCollateral); }
      var saved := collateral;
      collateral := collateral[from := Get(collateral, from) - amount];
      var gate := Gate(h, from);
      if gate.Some? || !h.tokensOk {
        collateral := saved;
        return if gate.Some? then gate.value else Panic;
      }
      return Ok(0);
    }

    method Liquidate(h: Host, borrower: Address, repay: int, minCollateral: int) returns (r: Reply)
      modifies this`borrows, this`collateral, this`totalBorrows
      ensures (View(), r) == Lending.Liquidate(old(View()), h, borrower, repay, minCollateral)
      ensures old(Valid()) ==> Valid()
      ensures old(Valid()) && r.Ok? ==>
                && 0 <= Get(borrows, borrower) <= Get(old(borrows), borrower)
                && Get(collateral, borrower) == Get(old(collateral), borrower) - r.value >= 0
      ensures old(Valid()) && r.Ok? && 0 < threshold && 0 <= BPS + bonus ==>
                (NoWorse(old(View()), View(), borrower)
                 <==> Get(borrows, borrower) == 0
                      || r.value * Get(old(borrows), borrower)
                         <= (Get(old(borrows), borrower) - Get(borrows, borrower)) * Get(old(collateral), borrower))
    {
      hide Inv;
      if Valid() {
        LiquidateKeeps(View(), h, borrower, repay, minCollateral);
        if Lending.Liquidate(View(), h, borrower, repay, minCollateral).1.Ok? {
          LiquidateNoWorse(View(), h, borrower, repay, minCollateral);
        }
      }
      if repay <= 0 { return Err(ZeroAmount); }
      if paused { return Err(PoolPaused); }
      if !h.auth { return Panic; }
      var health := CalculateHealthFactor(h, borrower);
      match health {
        case Err(e) => return Err(e);
        case Panic => return Panic;
        case Ok(x) => if x >= 10000 { return Err(LiquidationNotProfitable); }
      }
      var actualRepay := Min(repay, Get(borrows, borrower));
      var seize := TruncDiv(actualRepay * (10000 + bonus), 10000);
      if seize < minCollateral { return Err(SlippageExceeded); }
      if seize > Get(collateral, borrower) { return Err(InsufficientCollateral); }
      if !h.tokensOk { return Panic; }
      WriteLiquidation(borrower, actualRepay, seize);
      return Ok(seize);
    }

    /** The writes of a liquidation that nothing refused. */
    method WriteLiquidation(borrower: Address, repaid: int, seized: int)
      modifies this`borrows, this`collateral, this`totalBorrows
      ensures borrows == old(borrows)[borrower := Get(old(borrows), borrower) - repaid]
      ensures collateral == old(collateral)[borrower := Get(old(collateral), borrower) - seized]
      ensures totalBorrows == old(totalBorrows) - repaid
    {
      borrows := borrows[borrower := Get(borrows, borrower) - repaid];
      collateral := collateral[borrower := Get(collateral, borrower) - seized];
      totalBorrows := totalBorrows - repaid;
    }

    method AccrueInterest(h: Host) returns (r: Reply)
      modifies this`totalBorrows, this`totalReserves, this`lastAccrual, this`accrued
      ensures (View(), r) == Accrue(old(View()), h)
      ensures old(Valid()) ==> Valid()
      ensures old(Valid()) && r.Ok? ==>
                && 0 <= r.value && totalBorrows == old(totalBorrows) + r.value
                && 0 <= 2 * (totalReserves - old(totalReserves)) <= r.value
    {
      hide Inv;
      if Valid() {
        AccrueKeeps(View(), h);
        AccrueOutcome(View(), h, 0);
      }
      if paused { return Err(PoolPaused); }
      var ledgersPassed := if h.now >= lastAccrual then h.now - lastAccrual else 0;
      if ledgersPassed == 0 { return Ok(0); }
      var interest := TruncDiv(totalBorrows * rate * ledgersPassed, 10000 * 100000);
      var reserveShare := TruncDiv(interest * reserveFactor, 10000);
      totalBorrows := totalBorrows + interest;
      totalReserves := totalReserves + reserveShare;
      lastAccrual := h.now;
      accrued := accrued + interest;
      return Ok(interest);
    }

    /** Writes setting by setting; a reserve factor that is too high undoes the others. */
    method UpdateConfig(h: Host, caller: Address, cf: Option<int>, lt: Option<int>, lb: Option<int>,
                        ir: Option<int>, rf: Option<int>)
      returns (r: Reply)
      modifies this`collateralFactor, this`threshold, this`bonus, this`rate, this`reserveFactor
      ensures (View(), r) == Lending.UpdateConfig(old(View()), h, caller, cf, lt, lb, ir, rf)
      ensures old(Valid()) && (ir.Some? ==> 0 <= ir.value) && (rf.Some? ==> 0 <= rf.value) ==> Valid()
    {
      hide Inv;
      if Valid() && (ir.Some? ==> 0 <= ir.value) && (rf.Some? ==> 0 <= rf.value) {
        UpdateKeeps(View(), h, caller, cf, lt, lb, ir, rf);
      }
      if caller != admin { return Err(NotAdmin); }
      if !h.auth { return Panic; }
      if cf.Some? && cf.value > 8000 { return Err(CollateralFactorTooHigh); }
      var cf0, lt0, lb0, ir0 := collateralFactor, threshold, bonus, rate;
      WriteSettings(Pick(cf, cf0), Pick(lt, lt0), Pick(lb, lb0), Pick(ir, ir0));
      if rf.Some? && rf.value > 5000 {
        WriteSettings(cf0, lt0, lb0, ir0);
        return Err(ReserveFactorTooHigh);
      }
      reserveFactor := Pick(rf, reserveFactor);
      return Ok(0);
    }

    method WriteSettings(cf: int, lt: int, lb: int, ir: int)
      modifies this`collateralFactor, this`threshold, this`bonus, this`rate
      ensures collateralFactor == cf && threshold == lt && bonus == lb && rate == ir
    {
      collateralFactor, threshold, bonus, rate := cf, lt, lb, ir;
    }

    method SetPaused(h: Host, caller: Address, value: bool) returns (r: Reply)
      modifies this`paused
      ensures (View(), r) == Configure(old(View()), h, caller, Pause(value))
      ensures r.Ok? <==> caller == admin && h.auth
      ensures paused == if r.Ok? then value else old(paused)
      ensures old(Valid()) ==> Valid()
      ensures r.Ok? && value ==>
                forall c: Call :: !c.CallUpdate? && !c.CallConfigure? && !c.CallInitialize? ==> Step(View(), c) == View()
    {
      hide Inv;
      if Valid() { ConfigureKeeps(View(), h, caller, Pause(value)); }
      if caller != admin { return Err(NotAdmin); }
      if !h.auth { return Panic; }
      paused := value;
      if value {
        forall c: Call | !c.CallUpdate? && !c.CallConfigure? && !c.CallInitialize? ensures Step(View(), c) == View() {
          PausedFreezes(View(), c);
        }
      }
      return Ok(0);
    }

    method SetPriceOracle(h: Host, caller: Address, age: nat) returns (r: Reply)
      modifies this`oracleSet, this`maxAge
      ensures (View(), r) == Configure(old(View()), h, caller, SetOracle(age))
      ensures r.Ok? <==> caller == admin && h.auth && age > 0
      ensures r.Ok? ==> oracleSet && maxAge == age
      ensures old(Valid()) ==> Valid()
      ensures r.Ok? ==> forall g: Host :: Prices(View(), g).Ok? ==>
                && Usable(View(), g.now, g.collateral) && g.now <= g.collateral.timestamp + age
                && (!sameAsset ==> Usable(View(), g.now, g.debt) && g.now <= g.debt.timestamp + age)
    {
      hide Inv;
      if Valid() { ConfigureKeeps(View(), h, caller, SetOracle(age)); }
      if caller != admin { return Err(NotAdmin); }
      if !h.auth { return Panic; }
      if age == 0 { return Err(InvalidOraclePrice); }
      oracleSet, maxAge := true, age;
      forall g: Host | Prices(View(), g).Ok?
        ensures Usable(View(), g.now, g.collateral) && (!sameAsset ==> Usable(View(), g.now, g.debt))
      {
        PricesIff(View(), g);
      }
      return Ok(0);
    }
  }
}
