/** What each call of the lending pool does: exactly when it goes through, and all that it then
    changes. The health test is told by prices and products, without its division. */
module LendingCalls {
  import opened Arithmetic
  import opened Lending
  import opened Outcomes
  import opened Totals

  // ---------------------------------------------------------------- the health test

  /** The pool can compute the health of collateral c against debt b: nothing is owed, or it has
      prices and, with an oracle, the checked products fit. */
  predicate Computable(s: State, h: Host, c: int, b: int)
  {
    b == 0 ||
    (HasPrices(s, h) &&
     var (pc, pd) := PricePair(s, h);
     s.oracleSet ==> FitsI128(c * pc) && FitsI128(c * pc * s.threshold) && FitsI128(b * pd) && FitsI128(b * pd * BPS))
  }

  /** At the pool's prices, the threshold part of collateral c is worth at least the debt b. */
  predicate Covers(s: State, h: Host, c: int, b: int)
    requires b != 0 ==> HasPrices(s, h)
  {
    b == 0 || var (pc, pd) := PricePair(s, h); c * pc * s.threshold >= BPS * (b * pd)
  }

  predicate Passes(s: State, h: Host, c: int, b: int)
  {
    Computable(s, h, c, b) && Covers(s, h, c, b)
  }

  /** The health test of a user's position. */
  lemma HealthTest(s: State, h: Host, user: Address)
    requires 0 <= Get(s.borrows, user)
    ensures var c, b := Get(s.collateral, user), Get(s.borrows, user);
            && (Health(s, h, user).Ok? <==> Computable(s, h, c, b))
            && (Computable(s, h, c, b) ==> (Health(s, h, user).value >= BPS <==> Covers(s, h, c, b)))
            && !Health(s, h, user).Panic?
  {
    var c, b := Get(s.collateral, user), Get(s.borrows, user);
    PricesIff(s, h);
    if b != 0 && HasPrices(s, h) {
      var (pc, pd) := PricePair(s, h);
      HealthyIff(c, b, s.threshold, pc, pd);
    }
  }

  lemma GateIff(s: State, h: Host, user: Address)
    requires 0 <= Get(s.borrows, user)
    ensures var c, b := Get(s.collateral, user), Get(s.borrows, user);
            && (Unhealthy(s, h, user) == None <==> Passes(s, h, c, b))
            && (Unhealthy(s, h, user) == Some(Err(HealthFactorBelowOne)) <==> Computable(s, h, c, b) && !Covers(s, h, c, b))
            && (Unhealthy(s, h, user).Some? ==> !Unhealthy(s, h, user).value.Ok?)
  {
    HealthTest(s, h, user);
    PricesIff(s, h);
  }

  /** A running pool, a positive amount, and the caller's authorisation. */
  predicate Admits(s: State, h: Host, amount: int) { amount > 0 && !s.paused && h.auth }

  // ---------------------------------------------------------------- collateral

  /** set_collateral goes through exactly on a running pool, authorised, with at most the user's
      deposit, when the position with that collateral passes the health test. Then exactly that
      user's collateral becomes the amount. */
  lemma SetCollateralOutcome(s: State, h: Host, user: Address, amount: int)
    requires Inv(s)
    ensures var (t, r) := SetCollateral(s, h, user, amount);
            var debt, backed := Get(s.borrows, user), amount <= Get(s.deposits, user);
            && (r.Ok? <==> !s.paused && h.auth && backed && Passes(s, h, amount, debt))
            && (r == Err(PoolPaused) <==> s.paused)
            && (r == Err(InsufficientBalance) <==> !s.paused && h.auth && !backed)
            && (r == Err(HealthFactorBelowOne)
                <==> !s.paused && h.auth && backed && Computable(s, h, amount, debt) && !Covers(s, h, amount, debt))
            && (!r.Ok? ==> t == s)
            && (r.Ok? ==> t == s.(collateral := t.collateral) && Get(t.collateral, user) == amount
                          && Moved(s.collateral, t.collateral, user, amount - Get(s.collateral, user)))
  {
    GateIff(s.(collateral := s.collateral[user := amount]), h, user);
    ErrorsOfHealth(s.(collateral := s.collateral[user := amount]), h, user);
  }

  lemma ErrorsOfHealth(s: State, h: Host, user: Address)
    ensures Health(s, h, user).Err? ==> Health(s, h, user).error in {OracleUnavailable, InvalidOraclePrice}
  {}

  /** withdraw_collateral goes through exactly with a positive amount of at most the collateral,
      when the position without it passes the health test. */
  lemma WithdrawCollateralOutcome(s: State, h: Host, from: Address, amount: int)
    requires NonNegative(s.borrows)
    ensures var (t, r) := WithdrawCollateral(s, h, from, amount);
            var left, debt := Get(s.collateral, from) - amount, Get(s.borrows, from);
            && (r.Ok? <==> Admits(s, h, amount) && h.tokensOk && left >= 0 && Passes(s, h, left, debt))
            && (r == Err(InsufficientCollateral) <==> Admits(s, h, amount) && left < 0)
            && (r == Err(HealthFactorBelowOne)
                <==> Admits(s, h, amount) && left >= 0 && Computable(s, h, left, debt) && !Covers(s, h, left, debt))
            && (!r.Ok? ==> t == s)
            && (r.Ok? ==> t == s.(collateral := t.collateral) && Moved(s.collateral, t.collateral, from, -amount))
  {
    var m := s.(collateral := s.collateral[from := Get(s.collateral, from) - amount]);
    GateIff(m, h, from);
    ErrorsOfHealth(m, h, from);
  }

  lemma DepositCollateralOutcome(s: State, h: Host, from: Address, amount: int)
    ensures var (t, r) := DepositCollateral(s, h, from, amount);
            && (r.Ok? <==> Admits(s, h, amount) && h.tokensOk)
            && (!r.Ok? ==> t == s)
            && (r.Ok? ==> t == s.(collateral := t.collateral) && Moved(s.collateral, t.collateral, from, amount))
  {}

  /** The user's collateral is within the user's deposit, as set_collateral leaves it. */
  predicate BackedBy(s: State, user: Address) { Get(s.collateral, user) <= Get(s.deposits, user) }

  /** withdraw asks for health, not for that: it keeps collateral within the deposit exactly when
      it takes no more than what is deposited beyond the collateral. */
  lemma WithdrawKeepsBackingIff(s: State, h: Host, user: Address, shares: int)
    requires Withdraw(s, h, user, shares).1.Ok?
    ensures BackedBy(Withdraw(s, h, user, shares).0, user)
            <==> shares <= Get(s.deposits, user) - Get(s.collateral, user)
  {}

  /** u deposits 100, sets it as collateral and withdraws it; v deposits 100, and u borrows 80. */
  function UnbackedRun(h: Host, u: Address, v: Address): seq<Call>
  {
    [CallDeposit(h, u, 100), CallSetCollateral(h, u, 100), CallWithdraw(h, u, 100), CallDeposit(h, v, 100), CallBorrow(h, u, 80)]
  }

  lemma UnbackedSteps(h: Host, u: Address, v: Address, s: State, s1: State, s2: State, s3: State, s4: State, s5: State)
    requires u != v && h.auth && h.tokensOk && Fresh(h.now, u, 8000, 8000, 500, 0, 0) == Some(s)
    requires s1 == s.(deposits := map[u := 100], totalSupply := 100) && s2 == s1.(collateral := map[u := 100])
    requires s3 == s2.(deposits := map[u := 0], totalSupply := 0)
    requires s4 == s3.(deposits := map[u := 0, v := 100], totalSupply := 100)
    requires s5 == s4.(borrows := map[u := 80], totalBorrows := 80)
    ensures s1 == Deposit(s, h, u, 100).0 && s2 == SetCollateral(s1, h, u, 100).0 && s3 == Withdraw(s2, h, u, 100).0
    ensures s4 == Deposit(s3, h, v, 100).0 && s5 == Borrow(s4, h, u, 80).0
  {}

  /** After that run u owes 80 and has neither deposit nor tokens in custody behind it, at a
      computed health of 10000. */
  lemma CollateralOutlivesDeposit(now: int, u: Address, v: Address, h: Host, s: State)
    requires u != v && h == Host(now, NoPrice, NoPrice, true, true) && Fresh(now, u, 8000, 8000, 500, 0, 0) == Some(s)
    ensures var t := Run(s, UnbackedRun(h, u, v));
            && Get(t.deposits, u) == 0 && Get(t.collateral, u) == 100 && Get(t.borrows, u) == 80
            && !BackedBy(t, u) && Health(t, h, u) == Ok(10000)
  {
    var s1 := s.(deposits := map[u := 100], totalSupply := 100);
    var s2 := s1.(collateral := map[u := 100]);
    var s3 := s2.(deposits := map[u := 0], totalSupply := 0);
    var s4 := s3.(deposits := map[u := 0, v := 100], totalSupply := 100);
    var s5 := s4.(borrows := map[u := 80], totalBorrows := 80);
    UnbackedSteps(h, u, v, s, s1, s2, s3, s4, s5);
    RunTrace(s, UnbackedRun(h, u, v), [s, s1, s2, s3, s4, s5]);
  }

  // ---------------------------------------------------------------- supply and debt

  /** deposit goes through exactly with a positive, funded amount, unless there is supply without
      assets; it credits the user with the amount and the supply with what it minted. */
  lemma DepositOutcome(s: State, h: Host, from: Address, amount: int)
    ensures var (t, r) := Deposit(s, h, from, amount);
            && (r.Ok? <==> Admits(s, h, amount) && h.tokensOk && (s.totalSupply == 0 || Assets(s) != 0))
            && (!r.Ok? ==> t == s)
            && (r.Ok? ==> t == s.(deposits := t.deposits, totalSupply := s.totalSupply + r.value)
                          && Moved(s.deposits, t.deposits, from, amount))
  {}

  /** withdraw goes through exactly with a positive number of shares of at most the user's deposit,
      when there is supply and the position passes the health test; the user's deposit and the
      supply fall by it. */
  lemma WithdrawOutcome(s: State, h: Host, from: Address, shares: int)
    requires NonNegative(s.borrows)
    ensures var (t, r) := Withdraw(s, h, from, shares);
            var c, b := Get(s.collateral, from), Get(s.borrows, from);
            && (r.Ok? <==> && Admits(s, h, shares) && h.tokensOk && s.totalSupply != 0
                           && shares <= Get(s.deposits, from) && Passes(s, h, c, b))
            && (r == Err(InsufficientBalance) <==> Admits(s, h, shares) && s.totalSupply != 0 && Get(s.deposits, from) < shares)
            && (!r.Ok? ==> t == s)
            && (r.Ok? ==> t == s.(deposits := t.deposits, totalSupply := s.totalSupply - shares)
                          && Moved(s.deposits, t.deposits, from, -shares))
  {
    GateIff(s, h, from);
    ErrorsOfHealth(s, h, from);
  }

  /** borrow goes through exactly with a positive amount of at most the supply that is not yet
      borrowed, when the position with the new debt passes the health test; the user's debt and the
      total grow by it. */
  lemma BorrowOutcome(s: State, h: Host, from: Address, amount: int)
    requires Inv(s)
    ensures var (t, r) := Borrow(s, h, from, amount);
            var c, debt := Get(s.collateral, from), Get(s.borrows, from) + amount;
            var liquid := s.totalBorrows + amount <= s.totalSupply;
            && (r.Ok? <==> Admits(s, h, amount) && h.tokensOk && liquid && Passes(s, h, c, debt))
            && (r == Err(ZeroAmount) <==> amount <= 0 || (Admits(s, h, amount) && !liquid))
            && (r == Err(HealthFactorBelowOne)
                <==> Admits(s, h, amount) && liquid && Computable(s, h, c, debt) && !Covers(s, h, c, debt))
            && (!r.Ok? ==> t == s)
            && (r.Ok? ==> t == s.(borrows := t.borrows, totalBorrows := s.totalBorrows + amount)
                          && Moved(s.borrows, t.borrows, from, amount))
  {
    if amount > 0 {
      var m := s.(borrows := s.borrows[from := Get(s.borrows, from) + amount]);
      assert 0 <= Get(s.borrows, from);
      GateIff(m, h, from);
      ErrorsOfHealth(m, h, from);
    }
  }

  /** repay goes through exactly with a positive, funded amount. It takes the largest sum within
      both the amount and the debt. */
  lemma RepayOutcome(s: State, h: Host, from: Address, amount: int, x: int)
    ensures var (t, r) := Repay(s, h, from, amount);
            && (r.Ok? <==> Admits(s, h, amount) && h.tokensOk)
            && (!r.Ok? ==> t == s)
            && (r.Ok? ==> (x <= r.value <==> x <= amount && x <= Get(s.borrows, from))
                          && t == s.(borrows := t.borrows, totalBorrows := s.totalBorrows - r.value)
                          && Moved(s.borrows, t.borrows, from, -r.value))
  {}

  /** A repayment pays off all of the debt, or uses all of the amount. */
  lemma RepaySettles(s: State, h: Host, from: Address, amount: int)
    requires Inv(s) && Repay(s, h, from, amount).1.Ok?
    ensures var (t, r) := Repay(s, h, from, amount);
            && 0 <= r.value <= amount && 0 <= Get(t.borrows, from) == Get(s.borrows, from) - r.value
            && (r.value == amount || Get(t.borrows, from) == 0)
  {}

  // ---------------------------------------------------------------- liquidation and interest

  /** liquidate goes through exactly on an account whose health is computable and too low, when the
      seizure for what is repaid, bonus included, meets the limit and is there. What is repaid is
      the largest sum within both the offer and the debt, the seizure the largest amount within
      that sum plus its bonus; the account's debt, its collateral and the total fall by them. */
  lemma LiquidateOutcome(s: State, h: Host, borrower: Address, repay: int, minCollateral: int, x: int)
    requires NonNegative(s.borrows)
    ensures var (t, r) := Liquidate(s, h, borrower, repay, minCollateral);
            var c, b := Get(s.collateral, borrower), Get(s.borrows, borrower);
            var paid := if repay <= b then repay else b;
            var due, low := paid * (BPS + s.bonus), Computable(s, h, c, b) && !Covers(s, h, c, b);
            && (r.Ok? <==> Admits(s, h, repay) && h.tokensOk && low && Reaches(due, BPS, minCollateral) && !Reaches(due, BPS, c + 1))
            && (r == Err(LiquidationNotProfitable) <==> Admits(s, h, repay) && Passes(s, h, c, b))
            && (r == Err(SlippageExceeded) <==> Admits(s, h, repay) && low && !Reaches(due, BPS, minCollateral))
            && (!r.Ok? ==> t == s)
            && (r.Ok? ==>
                  && (x <= r.value <==> Reaches(due, BPS, x))
                  && t == s.(borrows := t.borrows, collateral := t.collateral, totalBorrows := s.totalBorrows - paid)
                  && Moved(s.borrows, t.borrows, borrower, -paid) && Moved(s.collateral, t.collateral, borrower, -r.value))
  {
    var c, b := Get(s.collateral, borrower), Get(s.borrows, borrower);
    var due := (if repay <= b then repay else b) * (BPS + s.bonus);
    HealthTest(s, h, borrower);
    ErrorsOfHealth(s, h, borrower);
    TruncReaches(due, BPS, minCollateral);
    TruncReaches(due, BPS, c + 1);
    TruncReaches(due, BPS, x);
  }

  /** When a liquidation makes the position no worse, told by the position before and after. */
  lemma LiquidateNoWorse(s: State, h: Host, borrower: Address, repay: int, minCollateral: int)
    requires Inv(s) && Liquidate(s, h, borrower, repay, minCollateral).1.Ok?
    ensures var (t, r) := Liquidate(s, h, borrower, repay, minCollateral);
            var c, b, c', b' := Get(s.collateral, borrower), Get(s.borrows, borrower),
                                Get(t.collateral, borrower), Get(t.borrows, borrower);
            && 0 <= b' <= b && c' == c - r.value >= 0
            && (0 < s.threshold && 0 <= BPS + s.bonus ==>
                  (NoWorse(s, t, borrower) <==> b' == 0 || r.value * b <= (b - b') * c))
  {
    if 0 < s.threshold && 0 <= BPS + s.bonus {
      LiquidationNoWorseIff(s, h, borrower, repay, minCollateral);
    }
  }

  /** accrue_interest on a running pool. After the last accrual's ledger it adds the largest whole
      interest within borrows * rate * ledgers / 10^9, and credits the reserves with the largest
      whole part of it within the reserve factor, which is at most half. */
  lemma AccrueOutcome(s: State, h: Host, x: int)
    requires Inv(s)
    ensures var (t, r) := Accrue(s, h);
            var kept := t.totalReserves - s.totalReserves;
            && (r.Ok? <==> !s.paused)
            && (r.Ok? && h.now <= s.lastAccrual ==> r.value == 0 && t == s)
            && (r.Ok? && h.now > s.lastAccrual ==>
                  && (x <= r.value <==> x * (BPS * 100000) <= s.totalBorrows * s.rate * (h.now - s.lastAccrual))
                  && (x <= kept <==> x * BPS <= r.value * s.reserveFactor)
                  && t == s.(totalBorrows := s.totalBorrows + r.value, totalReserves := t.totalReserves,
                             lastAccrual := h.now, accrued := s.accrued + r.value))
            && (!r.Ok? ==> t == s)
            && (r.Ok? ==> 0 <= 2 * kept <= r.value)
  {
    if h.now > s.lastAccrual {
      TotalNonNegative(s.borrows);
      InterestLargest(s, h.now - s.lastAccrual, x);
      InterestBounds(s.totalBorrows, s.rate, h.now - s.lastAccrual, s.reserveFactor);
      var interest := Interest(s, h.now - s.lastAccrual);
      MulNonNeg(interest, s.reserveFactor);
      FloorIff(x, interest * s.reserveFactor, BPS);
    }
  }

  /** update_config goes through exactly for the authorised admin with both capped figures within
      their caps; it sets what is given and leaves the rest. */
  lemma UpdateOutcome(s: State, h: Host, caller: Address, cf: Option<int>, lt: Option<int>, lb: Option<int>,
                      ir: Option<int>, rf: Option<int>)
    ensures var (t, r) := UpdateConfig(s, h, caller, cf, lt, lb, ir, rf);
            && (r.Ok? <==> caller == s.admin && h.auth && (cf.Some? ==> cf.value <= 8000)
                           && (rf.Some? ==> rf.value <= 5000))
            && (!r.Ok? ==> t == s)
            && (r.Ok? ==>
                  && t == s.(collateralFactor := t.collateralFactor, threshold := t.threshold, bonus := t.bonus,
                             rate := t.rate, reserveFactor := t.reserveFactor)
                  && (if cf == None then t.collateralFactor == s.collateralFactor else cf == Some(t.collateralFactor))
                  && (if lt == None then t.threshold == s.threshold else lt == Some(t.threshold))
                  && (if lb == None then t.bonus == s.bonus else lb == Some(t.bonus))
                  && (if ir == None then t.rate == s.rate else ir == Some(t.rate))
                  && (if rf == None then t.reserveFactor == s.reserveFactor else rf == Some(t.reserveFactor)))
  {}
}
