/** The off-chain liquidation planner, and its agreement with the contract's `liquidate`.
    BigInt division truncates toward zero. */
module Planner {
  import opened Arithmetic
  import opened Lending
  import opened Outcomes
  import opened Totals

  datatype Input = Input(account: Address, healthBps: int, borrowRaw: int, collateralRaw: int, maxRepayRaw: int,
                         minHealthBps: Option<int>, bonusBps: Option<int>, slippageBps: Option<int>)

  datatype Plan = Plan(account: Address, liquidatable: bool, reason: string, healthBps: int,
                       repayRaw: int, estimatedCollateralRaw: int, minCollateralRaw: int)

  function OrElse(o: Option<int>, default: int): int { if o.Some? then o.value else default }

  predicate IsLiquidatable(healthBps: int, minHealthBps: int) { healthBps < minHealthBps }

  function Skip(i: Input, reason: string): Plan { Plan(i.account, false, reason, i.healthBps, 0, 0, 0) }

  /** The largest repayment the planner lets the collateral back. */
  function RepayFromCollateral(collateralRaw: int, bonusBps: int): int
    requires BPS + bonusBps != 0
  {
    if collateralRaw > 0 then TruncDiv(collateralRaw * BPS, BPS + bonusBps) else 0
  }

  /** Panic is the RangeError of a BigInt division by zero (bonus of -10000). */
  function PlanLiquidation(i: Input): Result<Plan, ()>
  {
    var minHealth, bonus, slippage := OrElse(i.minHealthBps, 10000), OrElse(i.bonusBps, 500), OrElse(i.slippageBps, 100);
    if !IsLiquidatable(i.healthBps, minHealth) then Ok(Skip(i, "healthy"))
    else if i.borrowRaw <= 0 then Ok(Skip(i, "no-debt"))
    else if i.maxRepayRaw <= 0 then Ok(Skip(i, "repay-cap-zero"))
    else if i.collateralRaw > 0 && BPS + bonus == 0 then Panic
    else
      var cap := if i.collateralRaw > 0 then Min(i.maxRepayRaw, RepayFromCollateral(i.collateralRaw, bonus)) else 0;
      if cap <= 0 then Ok(Skip(i, "collateral-cap-zero"))
      else
        var repay := Min(i.borrowRaw, cap);
        var estimated := TruncDiv(repay * (BPS + bonus), BPS);
        var buffer := Min(slippage, BPS);
        Ok(Plan(i.account, true, "undercollateralised", i.healthBps, repay, estimated,
                TruncDiv(estimated * (BPS - buffer), BPS)))
  }

  /** There is something to plan: too low a health, a debt, a budget, and collateral that backs at
      least one unit of repayment with its bonus. */
  predicate Plannable(i: Input, minHealth: int, bonus: int)
  {
    && i.healthBps < minHealth && i.borrowRaw > 0 && i.maxRepayRaw > 0
    && i.collateralRaw > 0 && 0 < BPS + bonus <= i.collateralRaw * BPS
  }

  /** A plan is made exactly then. It repays the largest sum within the debt, the budget and what
      the collateral backs, expects the largest seizure within that sum and its bonus, and asks for
      at least the largest part of that within the slippage; otherwise all three are 0. */
  lemma PlanOutcome(i: Input, minHealth: int, bonus: int, slippage: int, x: int)
    requires minHealth == OrElse(i.minHealthBps, 10000) && bonus == OrElse(i.bonusBps, 500)
    requires slippage == OrElse(i.slippageBps, 100)
    ensures var r := PlanLiquidation(i);
            && (r == Panic <==> && i.healthBps < minHealth && i.borrowRaw > 0 && i.maxRepayRaw > 0
                                && i.collateralRaw > 0 && BPS + bonus == 0)
            && (r.Ok? ==>
                  && r.value.account == i.account && r.value.healthBps == i.healthBps
                  && (r.value.liquidatable <==> Plannable(i, minHealth, bonus))
                  && (r.value.reason == "healthy" <==> minHealth <= i.healthBps)
                  && (!r.value.liquidatable ==>
                        r.value.repayRaw == r.value.estimatedCollateralRaw == r.value.minCollateralRaw == 0))
            && (Plannable(i, minHealth, bonus) ==>
                  var p := r.value;
                  && (x <= p.repayRaw <==> && x <= i.borrowRaw && x <= i.maxRepayRaw
                                           && x * (BPS + bonus) <= i.collateralRaw * BPS)
                  && (x <= p.estimatedCollateralRaw <==> x * BPS <= p.repayRaw * (BPS + bonus))
                  && (x <= p.minCollateralRaw <==>
                        x * BPS <= p.estimatedCollateralRaw * (BPS - (if slippage <= BPS then slippage else BPS))))
  {
    if 0 < BPS + bonus && i.collateralRaw > 0 {
      MulPos(i.collateralRaw, BPS);
      FloorIff(1, i.collateralRaw * BPS, BPS + bonus);
      FloorIff(x, i.collateralRaw * BPS, BPS + bonus);
    }
    if Plannable(i, minHealth, bonus) {
      var cap := Min(i.maxRepayRaw, RepayFromCollateral(i.collateralRaw, bonus));
      var repay := Min(i.borrowRaw, cap);
      LargestPart(repay, BPS + bonus, x);
      LargestPart(TruncDiv(repay * (BPS + bonus), BPS), BPS - Min(slippage, BPS), x);
    } else if BPS + bonus < 0 && i.collateralRaw > 0 {
      NegativeBonusBacksNothing(i.collateralRaw, bonus);
    }
  }

  /** A truncated part in ten-thousandths of a non-negative amount. */
  lemma LargestPart(n: int, k: int, x: int)
    requires 0 <= n && 0 <= k
    ensures 0 <= TruncDiv(n * k, BPS) && (x <= TruncDiv(n * k, BPS) <==> x * BPS <= n * k)
  {
    MulNonNeg(n, k);
    FloorIff(x, n * k, BPS);
    FloorIff(0, n * k, BPS);
  }

  lemma NegativeBonusBacksNothing(collateral: int, bonus: int)
    requires 0 < collateral && BPS + bonus < 0
    ensures RepayFromCollateral(collateral, bonus) <= 0
  {
    TruncSign(collateral * BPS, BPS + bonus);
  }

  lemma TruncSign(n: int, d: int)
    requires 0 <= n && d < 0
    ensures TruncDiv(n, d) <= 0
  {
    FloorIff(0, n, -d);
  }

  /** The get_health_factor view: an error of the computation reads as health 0. */
  function HealthView(s: State, h: Host, user: Address): int
  {
    if Health(s, h, user).Ok? then Health(s, h, user).value else 0
  }

  /** The input the bot builds from what it reads of one account. */
  ghost predicate ReadFrom(i: Input, s: State, h: Host)
  {
    && i.healthBps == HealthView(s, h, i.account)
    && i.borrowRaw == Get(s.borrows, i.account) && i.collateralRaw == Get(s.collateral, i.account)
  }

  lemma SeizureFits(repay: int, collateral: int, bonus: int)
    requires 0 < collateral && 0 < BPS + bonus && 0 < repay <= RepayFromCollateral(collateral, bonus)
    ensures 0 <= Seizure(repay, bonus) <= collateral
  {
    var k := BPS + bonus;
    FloorDiv(collateral * BPS, k);
    MulMono(repay, collateral * BPS / k, k);
    MulNonNeg(repay, k);
    FloorAtMost(collateral, repay * k, BPS);
  }

  lemma BufferLowers(estimated: int, buffer: int)
    requires 0 <= estimated && 0 <= buffer <= BPS
    ensures 0 <= TruncDiv(estimated * (BPS - buffer), BPS) <= estimated
  {
    MulNonNeg(estimated, BPS - buffer);
    MulMono(BPS - buffer, BPS, estimated);
  }

  /** The planner works with the contract's bonus. */
  predicate Agrees(i: Input, s: State) { OrElse(i.bonusBps, 500) == s.bonus && -BPS < s.bonus }

  /** A plan to liquidate is accepted on-chain at the position it was made for exactly when the
      pool can compute that position's health and it is below 10000: then all debt, slippage and
      collateral checks pass, exactly the planned debt is repaid and exactly the estimated
      collateral seized. Without a health the contract answers with the error that the view hid. */
  lemma PlanIsAccepted(i: Input, s: State, h: Host)
    requires PlanLiquidation(i).Ok? && PlanLiquidation(i).value.liquidatable && ReadFrom(i, s, h)
    requires Agrees(i, s) && 0 <= OrElse(i.slippageBps, 100)
    requires !s.paused && h.auth && h.tokensOk
    ensures var p := PlanLiquidation(i).value;
            var (t, r) := Liquidate(s, h, i.account, p.repayRaw, p.minCollateralRaw);
            && (r.Ok? <==> Health(s, h, i.account).Ok? && i.healthBps < BPS)
            && (!Health(s, h, i.account).Ok? ==> r == Health(s, h, i.account))
            && (r.Ok? ==>
                  && r == Ok(p.estimatedCollateralRaw)
                  && Get(t.borrows, i.account) == Get(s.borrows, i.account) - p.repayRaw >= 0
                  && Get(t.collateral, i.account) == Get(s.collateral, i.account) - p.estimatedCollateralRaw >= 0)
  {
    var p := PlanLiquidation(i).value;
    SeizureFits(p.repayRaw, i.collateralRaw, s.bonus);
    BufferLowers(p.estimatedCollateralRaw, Min(OrElse(i.slippageBps, 100), BPS));
  }

  /** An account borrows 100 against 1000 of collateral; then the admin registers an oracle. */
  function CoveredRun(h: Host, u: Address): seq<Call>
  {
    [CallDeposit(h, u, 200), CallDepositCollateral(h, u, 1000), CallBorrow(h, u, 100), CallConfigure(h, u, SetOracle(10))]
  }

  lemma CoveredSteps(u: Address, h: Host, s: State, s1: State, s2: State, s3: State, s4: State)
    requires h.auth && h.tokensOk && Fresh(h.now, u, 8000, 8500, 500, 0, 0) == Some(s)
    requires s1 == s.(deposits := map[u := 200], totalSupply := 200) && s2 == s1.(collateral := map[u := 1000])
    requires s3 == s2.(borrows := map[u := 100], totalBorrows := 100) && s4 == s3.(oracleSet := true, maxAge := 10)
    ensures s1 == Deposit(s, h, u, 200).0 && s2 == DepositCollateral(s1, h, u, 1000).0
    ensures s3 == Borrow(s2, h, u, 100).0 && s4 == Configure(s3, h, u, SetOracle(10)).0
  {}

  lemma CoveredState(now: int, u: Address, h: Host, s: State)
    requires h == Host(now, NoPrice, NoPrice, true, true) && Fresh(now, u, 8000, 8500, 500, 0, 0) == Some(s)
    ensures Run(s, CoveredRun(h, u))
            == s.(deposits := map[u := 200], totalSupply := 200, collateral := map[u := 1000],
                  borrows := map[u := 100], totalBorrows := 100, oracleSet := true, maxAge := 10)
  {
    var s1 := s.(deposits := map[u := 200], totalSupply := 200);
    var s2 := s1.(collateral := map[u := 1000]);
    var s3 := s2.(borrows := map[u := 100], totalBorrows := 100);
    var s4 := s3.(oracleSet := true, maxAge := 10);
    CoveredSteps(u, h, s, s1, s2, s3, s4);
    RunTrace(s, CoveredRun(h, u), [s, s1, s2, s3, s4]);
  }

  /** After that run the account's health is 85000 whenever the oracle answers 1. When it is silent
      the view reads 0, the planner wants to liquidate, and the contract refuses. */
  lemma SilentOraclePlan(now: int, u: Address, h: Host, g: Host, s: State, i: Input)
    requires h == Host(now, NoPrice, NoPrice, true, true) && g == h.(collateral := Quoted(1, 0, now))
    requires Fresh(now, u, 8000, 8500, 500, 0, 0) == Some(s)
    requires i == Input(u, 0, 100, 1000, 100, None, None, None)
    ensures var t := Run(s, CoveredRun(h, u));
            && Health(t, g, u) == Ok(85000)
            && ReadFrom(i, t, h) && Agrees(i, t)
            && PlanLiquidation(i) == Ok(Plan(u, true, "undercollateralised", 0, 100, 105, 103))
            && Liquidate(t, h, u, 100, 103).1 == Err(OracleUnavailable)
  {
    CoveredState(now, u, h, s);
  }

  /** A negative slippage setting can ask for more than the contract seizes; this is exactly
      when the contract refuses such a plan. */
  lemma NegativeSlippageIff(i: Input, s: State, h: Host)
    requires PlanLiquidation(i).Ok? && PlanLiquidation(i).value.liquidatable && ReadFrom(i, s, h)
    requires Agrees(i, s) && OrElse(i.slippageBps, 100) < 0
    requires !s.paused && h.auth && h.tokensOk
    ensures var p := PlanLiquidation(i).value;
            Liquidate(s, h, i.account, p.repayRaw, p.minCollateralRaw).1.Ok?
            <==> && Health(s, h, i.account).Ok? && i.healthBps < BPS
                 && p.estimatedCollateralRaw * -OrElse(i.slippageBps, 100) < BPS
  {
    var p := PlanLiquidation(i).value;
    var over := -OrElse(i.slippageBps, 100);
    SeizureFits(p.repayRaw, i.collateralRaw, s.bonus);
    var e := p.estimatedCollateralRaw;
    MulNonNeg(e, over);
    assert e * (BPS + over) == e * BPS + e * over;
    if e * over < BPS {
      FloorAtMost(e, e * (BPS + over), BPS);
    } else {
      FloorAtLeast(e + 1, e * (BPS + over), BPS);
    }
  }

  /** When the collateral is what bounds the plan, less than 1 + (10000 + bonus) / 10000 units
      of it are left. */
  lemma LittleIsLeft(i: Input, bonus: int)
    requires bonus == OrElse(i.bonusBps, 500) && -BPS < bonus
    requires PlanLiquidation(i).Ok? && PlanLiquidation(i).value.liquidatable
    requires PlanLiquidation(i).value.repayRaw == RepayFromCollateral(i.collateralRaw, bonus)
    ensures (i.collateralRaw - PlanLiquidation(i).value.estimatedCollateralRaw) * BPS < BPS + (BPS + bonus)
  {
    var p := PlanLiquidation(i).value;
    var k := BPS + bonus;
    FloorDiv(i.collateralRaw * BPS, k);
    MulNonNeg(p.repayRaw, k);
    FloorDiv(p.repayRaw * k, BPS);
  }

  /** While the position still covers its debt with the bonus, carrying out the plan never
      lowers the borrower's health, at any later prices. */
  lemma PlanNeverHurts(i: Input, s: State, h: Host)
    requires NonNegative(s.borrows) && 0 <= s.threshold
    requires PlanLiquidation(i).Ok? && PlanLiquidation(i).value.liquidatable && ReadFrom(i, s, h)
    requires Agrees(i, s) && 0 <= OrElse(i.slippageBps, 100)
    requires !s.paused && h.auth && h.tokensOk
    requires (BPS + s.bonus) * i.borrowRaw <= i.collateralRaw * BPS
    ensures var p := PlanLiquidation(i).value;
            NoWorse(s, Liquidate(s, h, i.account, p.repayRaw, p.minCollateralRaw).0, i.account)
  {
    var p := PlanLiquidation(i).value;
    PlanIsAccepted(i, s, h);
    if Health(s, h, i.account).Ok? && i.healthBps < BPS {
      LiquidationNeverHurts(s, h, i.account, p.repayRaw, p.minCollateralRaw);
    } else {
      UnchangedNoWorse(s, i.account);
    }
  }

  lemma UnchangedNoWorse(s: State, user: Address)
    ensures NoWorse(s, s, user)
  {}
}
