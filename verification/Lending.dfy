/** The lending pool as values: positions, health factor, liquidation and interest. */
module Lending {
  import opened Arithmetic
  import opened Outcomes
  import opened Totals

  const BPS: int := 10000

  datatype PoolError =
    | NotAdmin | PoolPaused | InsufficientBalance | InsufficientCollateral | HealthFactorBelowOne
    | LiquidationNotProfitable | SlippageExceeded | ZeroAmount | ReserveFactorTooHigh
    | CollateralFactorTooHigh | OracleUnavailable | InvalidOraclePrice

  /** An oracle's answer for one asset. */
  datatype Reading = NoPrice | Quoted(price: int, decimals: int, timestamp: int)

  /** What the host and the oracle contribute to a call: the ledger number, the oracle's
      answers for the collateral and the debt asset, the caller's authorisation, and whether
      the token transfers go through. */
  datatype Host = Host(now: int, collateral: Reading, debt: Reading, auth: bool, tokensOk: bool)

  /** oracleSet: a price oracle is registered; sameAsset: collateral and debt token coincide.
      accrued is the interest added since the totals were last initialised; the contract does
      not store it and no call reads it. */
  datatype State = State(
    admin: Address, collateralFactor: int, threshold: int, bonus: int, rate: int, reserveFactor: int,
    paused: bool, oracleSet: bool, maxAge: int, sameAsset: bool,
    deposits: Balances, borrows: Balances, collateral: Balances,
    totalSupply: int, totalBorrows: int, totalReserves: int, lastAccrual: int, accrued: int)

  type Reply = Result<int, PoolError>

  // ---------------------------------------------------------------- health

  function ReadPrice(s: State, now: int, r: Reading): Result<Reading, PoolError>
  {
    match r
    case NoPrice => Err(OracleUnavailable)
    case Quoted(price, _, timestamp) =>
      if price <= 0 || timestamp > now then Err(InvalidOraclePrice)
      else if now - timestamp > s.maxAge then Err(OracleUnavailable)
      else Ok(r)
  }

  /** The prices of collateral and debt that the health factor is computed with. */
  function Prices(s: State, h: Host): Result<(int, int), PoolError>
  {
    if !s.oracleSet then (if s.sameAsset then Ok((1, 1)) else Err(OracleUnavailable))
    else
      match ReadPrice(s, h.now, h.collateral)
      case Err(e) => Err(e)
      case Panic => Panic
      case Ok(c) =>
        match (if s.sameAsset then Ok(c) else ReadPrice(s, h.now, h.debt))
        case Err(e) => Err(e)
        case Panic => Panic
        case Ok(d) => if c.decimals != d.decimals then Err(InvalidOraclePrice) else Ok((c.price, d.price))
  }

  predicate FitsI128(x: int) { -I128_MAX - 1 <= x <= I128_MAX }

  /** The health factor in basis points of a position at given prices. */
  function HealthAt(collateral: int, borrow: int, threshold: int, pc: int, pd: int): int
    requires pd > 0
  {
    if borrow == 0 then I128_MAX
    else TruncDiv(collateral * pc * threshold * BPS, borrow * pd * BPS)
  }

  function Health(s: State, h: Host, user: Address): Reply
  {
    var c, b := Get(s.collateral, user), Get(s.borrows, user);
    if b == 0 then Ok(I128_MAX)
    else
      match Prices(s, h)
      case Err(e) => Err(e)
      case Panic => Panic
      case Ok((pc, pd)) =>
        if pd <= 0 then Panic
        else if s.oracleSet && !(FitsI128(c * pc) && FitsI128(c * pc * s.threshold)
                                 && FitsI128(b * pd) && FitsI128(b * pd * BPS)) then Err(InvalidOraclePrice)
        else Ok(HealthAt(c, b, s.threshold, pc, pd))
  }

  /** The test "health < 10000" that borrow, withdraw and the collateral calls make; None lets
      the call go on. */
  function Unhealthy(s: State, h: Host, user: Address): Option<Reply>
  {
    match Health(s, h, user)
    case Ok(x) => if x < BPS then Some(Err(HealthFactorBelowOne)) else None
    case r => Some(r)
  }

  // ---------------------------------------------------------------- calls

  function Deposit(s: State, h: Host, from: Address, amount: int): (State, Reply)
  {
    if amount <= 0 then (s, Err(ZeroAmount))
    else if s.paused then (s, Err(PoolPaused))
    else if !h.auth then (s, Panic)
    else
      var assets := s.totalSupply + s.totalBorrows + s.totalReserves;
      if s.totalSupply != 0 && assets == 0 then (s, Panic)
      else
        var minted := if s.totalSupply == 0 then amount else TruncDiv(amount * s.totalSupply, assets);
        if !h.tokensOk then (s, Panic)
        else
          (s.(deposits := s.deposits[from := Get(s.deposits, from) + amount], totalSupply := s.totalSupply + minted),
           Ok(minted))
  }

  function Withdraw(s: State, h: Host, from: Address, shares: int): (State, Reply)
  {
    if shares <= 0 then (s, Err(ZeroAmount))
    else if s.paused then (s, Err(PoolPaused))
    else if !h.auth || s.totalSupply == 0 then (s, Panic)
    else
      var underlying := TruncDiv(shares * (s.totalSupply + s.totalBorrows + s.totalReserves), s.totalSupply);
      if Get(s.deposits, from) < shares then (s, Err(InsufficientBalance))
      else if Unhealthy(s, h, from).Some? then (s, Unhealthy(s, h, from).value)
      else if !h.tokensOk then (s, Panic)
      else
        (s.(deposits := s.deposits[from := Get(s.deposits, from) - shares], totalSupply := s.totalSupply - shares),
         Ok(underlying))
  }

  function Borrow(s: State, h: Host, from: Address, amount: int): (State, Reply)
  {
    if amount <= 0 then (s, Err(ZeroAmount))
    else if s.paused then (s, Err(PoolPaused))
    else if !h.auth then (s, Panic)
    else if amount > s.totalSupply - s.totalBorrows then (s, Err(ZeroAmount))
    else
      var t := s.(borrows := s.borrows[from := Get(s.borrows, from) + amount]);
      if Unhealthy(t, h, from).Some? then (s, Unhealthy(t, h, from).value)
      else if !h.tokensOk then (s, Panic)
      else (t.(totalBorrows := s.totalBorrows + amount), Ok(0))
  }

  function Repay(s: State, h: Host, from: Address, amount: int): (State, Reply)
  {
    if amount <= 0 then (s, Err(ZeroAmount))
    else if s.paused then (s, Err(PoolPaused))
    else if !h.auth || !h.tokensOk then (s, Panic)
    else
      var paid := Min(amount, Get(s.borrows, from));
      (s.(borrows := s.borrows[from := Get(s.borrows, from) - paid], totalBorrows := s.totalBorrows - paid), Ok(paid))
  }

  function SetCollateral(s: State, h: Host, user: Address, amount: int): (State, Reply)
  {
    if s.paused then (s, Err(PoolPaused))
    else if !h.auth then (s, Panic)
    else if amount > Get(s.deposits, user) then (s, Err(InsufficientBalance))
    else
      var t := s.(collateral := s.collateral[user := amount]);
      if Unhealthy(t, h, user).Some? then (s, Unhealthy(t, h, user).value) else (t, Ok(0))
  }

  function DepositCollateral(s: State, h: Host, from: Address, amount: int): (State, Reply)
  {
    if amount <= 0 then (s, Err(ZeroAmount))
    else if s.paused then (s, Err(PoolPaused))
    else if !h.auth || !h.tokensOk then (s, Panic)
    else (s.(collateral := s.collateral[from := Get(s.collateral, from) + amount]), Ok(0))
  }

  function WithdrawCollateral(s: State, h: Host, from: Address, amount: int): (State, Reply)
  {
    if amount <= 0 then (s, Err(ZeroAmount))
    else if s.paused then (s, Err(PoolPaused))
    else if !h.auth then (s, Panic)
    else if amount > Get(s.collateral, from) then (s, Err(InsufficientCollateral))
    else
      var t := s.(collateral := s.collateral[from := Get(s.collateral, from) - amount]);
      if Unhealthy(t, h, from).Some? then (s, Unhealthy(t, h, from).value)
      else if !h.tokensOk then (s, Panic)
      else (t, Ok(0))
  }

  /** Collateral taken for a repayment, bonus included. */
  function Seizure(repaid: int, bonus: int): int { TruncDiv(repaid * (BPS + bonus), BPS) }

  function Liquidate(s: State, h: Host, borrower: Address, repay: int, minCollateral: int): (State, Reply)
  {
    if repay <= 0 then (s, Err(ZeroAmount))
    else if s.paused then (s, Err(PoolPaused))
    else if !h.auth then (s, Panic)
    else
      match Health(s, h, borrower)
      case Err(e) => (s, Err(e))
      case Panic => (s, Panic)
      case Ok(x) =>
        var paid := Min(repay, Get(s.borrows, borrower));
        var seized := Seizure(paid, s.bonus);
        if x >= BPS then (s, Err(LiquidationNotProfitable))
        else if seized < minCollateral then (s, Err(SlippageExceeded))
        else if seized > Get(s.collateral, borrower) then (s, Err(InsufficientCollateral))
        else if !h.tokensOk then (s, Panic)
        else
          (s.(borrows := s.borrows[borrower := Get(s.borrows, borrower) - paid],
              collateral := s.collateral[borrower := Get(s.collateral, borrower) - seized],
              totalBorrows := s.totalBorrows - paid),
           Ok(seized))
  }

  function Interest(s: State, ledgers: int): int
  {
    TruncDiv(s.totalBorrows * s.rate * ledgers, BPS * 100000)
  }

  function Accrue(s: State, h: Host): (State, Reply)
  {
    if s.paused then (s, Err(PoolPaused))
    else if h.now <= s.lastAccrual then (s, Ok(0))
    else
      var interest := Interest(s, h.now - s.lastAccrual);
      (s.(totalBorrows := s.totalBorrows + interest, accrued := s.accrued + interest,
          totalReserves := s.totalReserves + TruncDiv(interest * s.reserveFactor, BPS), lastAccrual := h.now),
       Ok(interest))
  }

  function Pick(o: Option<int>, current: int): int { if o.Some? then o.value else current }

  /** An Err from the reserve factor undoes the settings written before it. */
  function UpdateConfig(s: State, h: Host, caller: Address, cf: Option<int>, lt: Option<int>, lb: Option<int>,
                        ir: Option<int>, rf: Option<int>): (State, Reply)
  {
    if caller != s.admin then (s, Err(NotAdmin))
    else if !h.auth then (s, Panic)
    else if cf.Some? && cf.value > 8000 then (s, Err(CollateralFactorTooHigh))
    else if rf.Some? && rf.value > 5000 then (s, Err(ReserveFactorTooHigh))
    else
      (s.(collateralFactor := Pick(cf, s.collateralFactor), threshold := Pick(lt, s.threshold),
          bonus := Pick(lb, s.bonus), rate := Pick(ir, s.rate), reserveFactor := Pick(rf, s.reserveFactor)),
       Ok(0))
  }

  /** The admin's other settings. */
  datatype Setting = Pause(on: bool) | SetOracle(age: nat) | ClearOracle | CollateralToken(same: bool)

  function Configure(s: State, h: Host, caller: Address, v: Setting): (State, Reply)
  {
    if caller != s.admin then (s, Err(NotAdmin))
    else if !h.auth then (s, Panic)
    else
      match v
      case Pause(b) => (s.(paused := b), Ok(0))
      case SetOracle(n) => if n == 0 then (s, Err(InvalidOraclePrice)) else (s.(oracleSet := true, maxAge := n), Ok(0))
      case ClearOracle => (s.(oracleSet := false), Ok(0))
      case CollateralToken(b) => (s.(sameAsset := b), Ok(0))
  }

  /** The code neither authorises the caller nor asks whether the pool is in use: the settings
      are replaced and the totals set to 0, and the users' positions stay as they are. */
  function Initialize(s: State, now: int, admin: Address, cf: int, lt: int, lb: int, ir: int, rf: int): (State, Reply)
  {
    if cf > 8000 then (s, Err(CollateralFactorTooHigh))
    else if rf > 5000 then (s, Err(ReserveFactorTooHigh))
    else
      (s.(admin := admin, collateralFactor := cf, threshold := lt, bonus := lb, rate := ir, reserveFactor := rf,
          paused := false, totalSupply := 0, totalBorrows := 0, totalReserves := 0, lastAccrual := now, accrued := 0),
       Ok(0))
  }

  /** Storage nothing has been written to. */
  function Blank(): State
  {
    State("", 0, 0, 0, 0, 0, false, false, 10, true, map[], map[], map[], 0, 0, 0, 0, 0)
  }

  /** None when the first `initialize` refuses. */
  function Fresh(now: int, admin: Address, cf: int, lt: int, lb: int, ir: int, rf: int): Option<State>
  {
    var (t, r) := Initialize(Blank(), now, admin, cf, lt, lb, ir, rf);
    if r.Ok? then Some(t) else None
  }

  // ---------------------------------------------------------------- runs

  datatype Call =
    | CallDeposit(h: Host, who: Address, amount: int)
    | CallWithdraw(h: Host, who: Address, amount: int)
    | CallBorrow(h: Host, who: Address, amount: int)
    | CallRepay(h: Host, who: Address, amount: int)
    | CallSetCollateral(h: Host, who: Address, amount: int)
    | CallDepositCollateral(h: Host, who: Address, amount: int)
    | CallWithdrawCollateral(h: Host, who: Address, amount: int)
    | CallLiquidate(h: Host, who: Address, repay: int, minCollateral: int)
    | CallAccrue(h: Host)
    | CallUpdate(h: Host, caller: Address, cf: Option<int>, lt: Option<int>, lb: Option<int>, ir: Option<int>, rf: Option<int>)
    | CallConfigure(h: Host, caller: Address, setting: Setting)
    | CallInitialize(h: Host, admin: Address, newCf: int, newLt: int, newLb: int, newIr: int, newRf: int)

  function Step(s: State, c: Call): State
  {
    match c
    case CallDeposit(h, w, x) => Deposit(s, h, w, x).0
    case CallWithdraw(h, w, x) => Withdraw(s, h, w, x).0
    case CallBorrow(h, w, x) => Borrow(s, h, w, x).0
    case CallRepay(h, w, x) => Repay(s, h, w, x).0
    case CallSetCollateral(h, w, x) => SetCollateral(s, h, w, x).0
    case CallDepositCollateral(h, w, x) => DepositCollateral(s, h, w, x).0
    case CallWithdrawCollateral(h, w, x) => WithdrawCollateral(s, h, w, x).0
    case CallLiquidate(h, w, r, m) => Liquidate(s, h, w, r, m).0
    case CallAccrue(h) => Accrue(s, h).0
    case CallUpdate(h, w, cf, lt, lb, ir, rf) => UpdateConfig(s, h, w, cf, lt, lb, ir, rf).0
    case CallConfigure(h, w, v) => Configure(s, h, w, v).0
    case CallInitialize(h, w, cf, lt, lb, ir, rf) => Initialize(s, h.now, w, cf, lt, lb, ir, rf).0
  }

  function Run(s: State, calls: seq<Call>): State
    decreases |calls|
  {
    if calls == [] then s else Run(Step(s, calls[0]), calls[1..])
  }

  // ---------------------------------------------------------------- conservation

  /** Books: total borrows are the users' borrows plus all interest accrued since the totals
      were initialised; no borrow is negative; reserves are at most half of that interest. */
  ghost predicate Inv(s: State)
  {
    && NonNegative(s.borrows) && s.totalBorrows == Total(s.borrows) + s.accrued
    && 0 <= s.accrued && 0 <= s.totalReserves && 2 * s.totalReserves <= s.accrued
    && 0 <= s.rate && 0 <= s.reserveFactor <= 5000
  }

  /** The code bounds the reserve factor from above only; rates and factors stay non-negative. */
  predicate ConfigWithin(c: Call)
  {
    && (c.CallUpdate? ==> (c.ir.Some? ==> 0 <= c.ir.value) && (c.rf.Some? ==> 0 <= c.rf.value))
    && (c.CallInitialize? ==> 0 <= c.newIr && 0 <= c.newRf)
  }

  lemma InterestBounds(borrows: int, rate: int, ledgers: int, factor: int)
    requires 0 <= borrows && 0 <= rate && 0 <= ledgers && 0 <= factor <= 5000
    ensures var interest := TruncDiv(borrows * rate * ledgers, BPS * 100000);
            0 <= interest && 0 <= 2 * TruncDiv(interest * factor, BPS) <= interest
  {
    MulNonNeg(borrows, rate);
    MulNonNeg(borrows * rate, ledgers);
    var interest := TruncDiv(borrows * rate * ledgers, BPS * 100000);
    assert 0 <= interest;
    MulNonNeg(interest, factor);
    MulMono(factor, 5000, interest);
  }

  lemma AccrueKeeps(s: State, h: Host)
    requires Inv(s)
    ensures Inv(Accrue(s, h).0)
  {
    if !s.paused && h.now > s.lastAccrual {
      TotalNonNegative(s.borrows);
      InterestBounds(s.totalBorrows, s.rate, h.now - s.lastAccrual, s.reserveFactor);
    }
  }

  lemma DebtUpdate(s: State, t: State, user: Address, debt: int)
    requires Inv(s) && 0 <= debt && t.borrows == s.borrows[user := debt]
    requires t.totalBorrows == s.totalBorrows - Get(s.borrows, user) + debt
    requires t.accrued == s.accrued && t.totalReserves == s.totalReserves
    requires t.rate == s.rate && t.reserveFactor == s.reserveFactor
    ensures Inv(t)
  {
    TotalUpdate(s.borrows, user, debt);
  }

  lemma BorrowKeeps(s: State, h: Host, from: Address, amount: int)
    requires Inv(s)
    ensures Inv(Borrow(s, h, from, amount).0)
  {
    if Borrow(s, h, from, amount).1.Ok? {
      EntryAtMostTotal(s.borrows, from);
      DebtUpdate(s, Borrow(s, h, from, amount).0, from, Get(s.borrows, from) + amount);
    }
  }

  lemma RepayKeeps(s: State, h: Host, from: Address, amount: int)
    requires Inv(s)
    ensures Inv(Repay(s, h, from, amount).0)
  {
    if Repay(s, h, from, amount).1.Ok? {
      EntryAtMostTotal(s.borrows, from);
      DebtUpdate(s, Repay(s, h, from, amount).0, from, Get(s.borrows, from) - Min(amount, Get(s.borrows, from)));
    }
  }

  lemma LiquidateKeeps(s: State, h: Host, borrower: Address, repay: int, minCollateral: int)
    requires Inv(s)
    ensures Inv(Liquidate(s, h, borrower, repay, minCollateral).0)
  {
    if Liquidate(s, h, borrower, repay, minCollateral).1.Ok? {
      EntryAtMostTotal(s.borrows, borrower);
      DebtUpdate(s, Liquidate(s, h, borrower, repay, minCollateral).0, borrower,
                 Get(s.borrows, borrower) - Min(repay, Get(s.borrows, borrower)));
    }
  }

  /** Calls that leave debts, interest and reserves alone keep the books. */
  lemma BooksUntouched(s: State, t: State)
    requires Inv(s) && t.borrows == s.borrows && t.totalBorrows == s.totalBorrows && t.accrued == s.accrued
    requires t.totalReserves == s.totalReserves && 0 <= t.rate && 0 <= t.reserveFactor <= 5000
    ensures Inv(t)
  {}

  lemma PositionCallKeeps(s: State, c: Call)
    requires Inv(s)
    requires c.CallDeposit? || c.CallWithdraw? || c.CallSetCollateral? || c.CallDepositCollateral? || c.CallWithdrawCollateral?
    ensures Inv(Step(s, c))
  {
    BooksUntouched(s, Step(s, c));
  }

  lemma UpdateKeeps(s: State, h: Host, caller: Address, cf: Option<int>, lt: Option<int>, lb: Option<int>,
                    ir: Option<int>, rf: Option<int>)
    requires Inv(s) && (ir.Some? ==> 0 <= ir.value) && (rf.Some? ==> 0 <= rf.value)
    ensures Inv(UpdateConfig(s, h, caller, cf, lt, lb, ir, rf).0)
  {
    var t := UpdateConfig(s, h, caller, cf, lt, lb, ir, rf).0;
    if t != s { BooksUntouched(s, t); }
  }

  lemma ConfigureKeeps(s: State, h: Host, caller: Address, v: Setting)
    requires Inv(s)
    ensures Inv(Configure(s, h, caller, v).0)
  {
    BooksUntouched(s, Configure(s, h, caller, v).0);
  }

  lemma FreshInv(now: int, admin: Address, cf: int, lt: int, lb: int, ir: int, rf: int, pc: int, pd: int)
    requires 0 <= ir && 0 <= rf && 0 < pd && Fresh(now, admin, cf, lt, lb, ir, rf).Some?
    ensures Inv(Fresh(now, admin, cf, lt, lb, ir, rf).value)
    ensures AllHealthy(Fresh(now, admin, cf, lt, lb, ir, rf).value, pc, pd)
  {}

  /** A later `initialize` keeps the books exactly when nobody owes anything at that moment. */
  lemma InitializeKeepsIff(s: State, now: int, admin: Address, cf: int, lt: int, lb: int, ir: int, rf: int)
    requires Inv(s) && 0 <= ir && 0 <= rf && Initialize(s, now, admin, cf, lt, lb, ir, rf).1.Ok?
    ensures Inv(Initialize(s, now, admin, cf, lt, lb, ir, rf).0) <==> AllZero(s.borrows)
  {
    TotalZeroIff(s.borrows);
  }

  /** A call that sets the totals to 0 while somebody owes something. */
  predicate ForgetsDebt(s: State, c: Call)
  {
    c.CallInitialize? && c.newCf <= 8000 && c.newRf <= 5000 && !AllZero(s.borrows)
  }

  lemma StepKeeps(s: State, c: Call)
    requires Inv(s) && ConfigWithin(c)
    ensures Inv(Step(s, c)) <==> !ForgetsDebt(s, c)
  {
    if c.CallBorrow? {
      BorrowKeeps(s, c.h, c.who, c.amount);
    } else if c.CallRepay? {
      RepayKeeps(s, c.h, c.who, c.amount);
    } else if c.CallLiquidate? {
      LiquidateKeeps(s, c.h, c.who, c.repay, c.minCollateral);
    } else if c.CallAccrue? {
      AccrueKeeps(s, c.h);
    } else if c.CallUpdate? {
      UpdateKeeps(s, c.h, c.caller, c.cf, c.lt, c.lb, c.ir, c.rf);
    } else if c.CallConfigure? {
      ConfigureKeeps(s, c.h, c.caller, c.setting);
    } else if c.CallInitialize? {
      if c.newCf <= 8000 && c.newRf <= 5000 {
        InitializeKeepsIff(s, c.h.now, c.admin, c.newCf, c.newLt, c.newLb, c.newIr, c.newRf);
      }
    } else {
      PositionCallKeeps(s, c);
    }
  }

  /** The books hold before and after every call of the run. */
  ghost predicate AlwaysInv(s: State, calls: seq<Call>)
    decreases |calls|
  {
    Inv(s) && (calls != [] ==> AlwaysInv(Step(s, calls[0]), calls[1..]))
  }

  /** No call of the run initialises the pool again while somebody owes something. */
  predicate NeverForgets(s: State, calls: seq<Call>)
    decreases |calls|
  {
    calls != [] ==> !ForgetsDebt(s, calls[0]) && NeverForgets(Step(s, calls[0]), calls[1..])
  }

  /** In runs that keep the rate and the reserve factor non-negative, the books hold throughout
      exactly when the pool is never initialised again over an outstanding debt. */
  lemma {:induction false} RunKeeps(s: State, calls: seq<Call>)
    requires Inv(s) && forall c :: c in calls ==> ConfigWithin(c)
    ensures AlwaysInv(s, calls) <==> NeverForgets(s, calls)
    ensures NeverForgets(s, calls) ==> Inv(Run(s, calls))
    decreases |calls|
  {
    if calls != [] {
      assert ConfigWithin(calls[0]);
      StepKeeps(s, calls[0]);
      if Inv(Step(s, calls[0])) { RunKeeps(Step(s, calls[0]), calls[1..]); }
    }
  }

  /** Four ordinary calls around a second `initialize`: 200 deposited and used as collateral,
      100 borrowed, the pool initialised again, 100 repaid. */
  function ForgetfulRun(h: Host, u: Address): seq<Call>
  {
    [CallDeposit(h, u, 200), CallSetCollateral(h, u, 200), CallBorrow(h, u, 100),
     CallInitialize(h, u, 8000, 8500, 500, 0, 0), CallRepay(h, u, 100)]
  }

  /** After that run nobody owes anything, and total borrows stand at -100. */
  lemma ReinitialisingBreaksTheBooks(now: int, u: Address, h: Host, s: State)
    requires h == Host(now, NoPrice, NoPrice, true, true) && Fresh(now, u, 8000, 8500, 500, 0, 0) == Some(s)
    ensures Inv(s)
    ensures var t := Run(s, ForgetfulRun(h, u)); AllZero(t.borrows) && t.totalBorrows == -100 && !Inv(t)
  {
    var calls := ForgetfulRun(h, u);
    var s1 := Step(s, calls[0]);
    var s2 := Step(s1, calls[1]);
    var s3 := Step(s2, calls[2]);
    assert s3.borrows == map[u := 100] && s3.totalBorrows == 100;
    var s4 := Step(s3, calls[3]);
    assert s4.borrows == map[u := 100] && s4.totalBorrows == 0;
    var s5 := Step(s4, calls[4]);
    assert s5.borrows == map[u := 0] && s5.totalBorrows == -100;
    TotalZeroIff(s5.borrows);
    RunTrace(s, calls, [s, s1, s2, s3, s4, s5]);
  }

  /** A run, told by the states it goes through. */
  lemma {:induction false} RunTrace(s: State, calls: seq<Call>, states: seq<State>)
    requires |states| == |calls| + 1 && states[0] == s
    requires forall i :: 0 <= i < |calls| ==> states[i + 1] == Step(states[i], calls[i])
    ensures Run(s, calls) == states[|calls|]
    decreases |calls|
  {
    if calls != [] {
      assert states[0 + 1] == Step(states[0], calls[0]);
      forall i | 0 <= i < |calls[1..]| ensures states[1..][i + 1] == Step(states[1..][i], calls[1..][i]) {
        assert states[(i + 1) + 1] == Step(states[i + 1], calls[i + 1]);
      }
      RunTrace(states[1], calls[1..], states[1..]);
    }
  }

  /** Interest is the largest whole amount not above borrows * rate * ledgers / 10^9. */
  lemma InterestLargest(s: State, ledgers: int, x: int)
    requires Inv(s) && 0 <= ledgers
    ensures x <= Interest(s, ledgers) <==> x * (BPS * 100000) <= s.totalBorrows * s.rate * ledgers
  {
    TotalNonNegative(s.borrows);
    MulNonNeg(s.totalBorrows, s.rate);
    MulNonNeg(s.totalBorrows * s.rate, ledgers);
    FloorIff(x, s.totalBorrows * s.rate * ledgers, BPS * 100000);
  }

  lemma FloorOfSum(x: int, y: int, d: int)
    requires 0 < d
    ensures (x + y) / d <= x / d + y / d + 1
  {
    FloorDiv(x, d);
    FloorDiv(y, d);
    assert (x / d + y / d + 2) * d == (x / d) * d + (y / d) * d + 2 * d;
    FloorAtMost(x / d + y / d + 1, x + y, d);
  }

  /** Accruing at an intermediate ledger costs lenders at most one unit: interest compounds,
      and the two floors lose less than that. */
  lemma AccruingOften(s: State, h: Host, mid: int)
    requires Inv(s) && !s.paused && s.lastAccrual < mid < h.now
    ensures Accrue(s, h).0.totalBorrows <= Accrue(Accrue(s, h.(now := mid)).0, h).0.totalBorrows + 1
  {
    var x, y, d := mid - s.lastAccrual, h.now - mid, BPS * 100000;
    var k := s.totalBorrows * s.rate;
    TotalNonNegative(s.borrows);
    MulNonNeg(s.totalBorrows, s.rate);
    MulNonNeg(k, x);
    MulNonNeg(k, y);
    var m := Accrue(s, h.(now := mid)).0;
    InterestBounds(s.totalBorrows, s.rate, x, s.reserveFactor);
    assert k * (x + y) == k * x + k * y;
    FloorOfSum(k * x, k * y, d);
    MulMono(s.totalBorrows, m.totalBorrows, s.rate);
    MulMono(k, m.totalBorrows * s.rate, y);
    FloorDiv(k * y, d);
    FloorAtLeast(k * y / d, m.totalBorrows * s.rate * y, d);
  }

  // ---------------------------------------------------------------- health over runs

  /** Every account with debt has health of at least 10000 at these prices. */
  ghost predicate AllHealthy(s: State, pc: int, pd: int)
    requires pd > 0
  {
    forall u :: u in s.borrows && s.borrows[u] != 0 ==>
      HealthAt(Get(s.collateral, u), s.borrows[u], s.threshold, pc, pd) >= BPS
  }

  /** The oracle either fails this call or gives these prices. */
  predicate PriceIs(s: State, h: Host, pc: int, pd: int) { Prices(s, h).Ok? ==> Prices(s, h).value == (pc, pd) }

  /** User calls, accrual, pausing, and initialising again with the same threshold: what leaves
      the risk parameter and the price sources alone. */
  predicate RiskFixed(c: Call, threshold: int)
  {
    && !c.CallUpdate? && (c.CallConfigure? ==> c.setting.Pause?)
    && (c.CallInitialize? ==> c.newLt == threshold)
  }

  lemma HealthScaled(x: int, y: int)
    requires y > 0
    ensures TruncDiv(x * BPS, y * BPS) >= BPS <==> x >= BPS * y
  {
    if x >= BPS * y {
      assert x * BPS >= BPS * (y * BPS);
      FloorAtLeast(BPS, x * BPS, y * BPS);
    } else if x >= 0 {
      FloorAtMost(BPS - 1, x * BPS, y * BPS);
    }
  }

  /** Health of at least 10000, without the division. */
  lemma HealthyIff(c: int, b: int, threshold: int, pc: int, pd: int)
    requires b > 0 && pd > 0
    ensures HealthAt(c, b, threshold, pc, pd) >= BPS <==> c * pc * threshold >= BPS * (b * pd)
  {
    MulPos(b, pd);
    HealthScaled(c * pc * threshold, b * pd);
  }

  /** More collateral or less debt keeps a healthy position healthy. */
  lemma SaferStaysHealthy(c: int, b: int, c': int, b': int, threshold: int, pc: int, pd: int)
    requires 0 < b' <= b && c <= c' && 0 <= threshold && 0 <= pc && pd > 0
    requires HealthAt(c, b, threshold, pc, pd) >= BPS
    ensures HealthAt(c', b', threshold, pc, pd) >= BPS
  {
    HealthyIff(c, b, threshold, pc, pd);
    HealthyIff(c', b', threshold, pc, pd);
    MulMono(c, c', pc);
    MulMono(c * pc, c' * pc, threshold);
    MulMono(b', b, pd);
  }

  lemma PassedIsHealthy(t: State, h: Host, user: Address, pc: int, pd: int)
    requires pd > 0 && PriceIs(t, h, pc, pd) && Unhealthy(t, h, user) == None && Get(t.borrows, user) != 0
    ensures HealthAt(Get(t.collateral, user), Get(t.borrows, user), t.threshold, pc, pd) >= BPS
  {}

  ghost predicate HealthyUser(s: State, u: Address, pc: int, pd: int)
    requires pd > 0
  {
    Get(s.borrows, u) != 0 ==> HealthAt(Get(s.collateral, u), Get(s.borrows, u), s.threshold, pc, pd) >= BPS
  }

  /** Only w's position changed, and w is healthy afterwards. */
  lemma OneChanged(s: State, t: State, w: Address, pc: int, pd: int)
    requires pd > 0 && AllHealthy(s, pc, pd) && t.threshold == s.threshold && HealthyUser(t, w, pc, pd)
    requires forall u :: u != w ==> Get(t.borrows, u) == Get(s.borrows, u) && Get(t.collateral, u) == Get(s.collateral, u)
    ensures AllHealthy(t, pc, pd)
  {
    forall u | u in t.borrows && t.borrows[u] != 0
      ensures HealthAt(Get(t.collateral, u), t.borrows[u], t.threshold, pc, pd) >= BPS
    {
      assert Get(t.borrows, u) == t.borrows[u];
      if u != w { assert Get(s.borrows, u) == t.borrows[u] && u in s.borrows; }
    }
  }

  lemma BorrowHealthy(s: State, h: Host, w: Address, x: int, pc: int, pd: int)
    requires NonNegative(s.borrows) && 0 < pd && AllHealthy(s, pc, pd) && PriceIs(s, h, pc, pd)
    ensures AllHealthy(Borrow(s, h, w, x).0, pc, pd)
  {
    if Borrow(s, h, w, x).1.Ok? {
      var m := s.(borrows := s.borrows[w := Get(s.borrows, w) + x]);
      EntryAtMostTotal(s.borrows, w);
      PassedIsHealthy(m, h, w, pc, pd);
      OneChanged(s, Borrow(s, h, w, x).0, w, pc, pd);
    }
  }

  lemma RepayHealthy(s: State, h: Host, w: Address, x: int, pc: int, pd: int)
    requires NonNegative(s.borrows) && 0 <= s.threshold && 0 <= pc && 0 < pd && AllHealthy(s, pc, pd)
    ensures AllHealthy(Repay(s, h, w, x).0, pc, pd)
  {
    if Repay(s, h, w, x).1.Ok? {
      var t := Repay(s, h, w, x).0;
      EntryAtMostTotal(s.borrows, w);
      if Get(t.borrows, w) > 0 {
        assert HealthyUser(s, w, pc, pd);
        SaferStaysHealthy(Get(s.collateral, w), Get(s.borrows, w), Get(s.collateral, w), Get(t.borrows, w), s.threshold, pc, pd);
      }
      OneChanged(s, t, w, pc, pd);
    }
  }

  lemma SetCollateralHealthy(s: State, h: Host, w: Address, x: int, pc: int, pd: int)
    requires 0 < pd && AllHealthy(s, pc, pd) && PriceIs(s, h, pc, pd)
    ensures AllHealthy(SetCollateral(s, h, w, x).0, pc, pd)
  {
    if SetCollateral(s, h, w, x).1.Ok? {
      var t := SetCollateral(s, h, w, x).0;
      if Get(s.borrows, w) != 0 { PassedIsHealthy(t, h, w, pc, pd); }
      OneChanged(s, t, w, pc, pd);
    }
  }

  lemma WithdrawCollateralHealthy(s: State, h: Host, w: Address, x: int, pc: int, pd: int)
    requires 0 < pd && AllHealthy(s, pc, pd) && PriceIs(s, h, pc, pd)
    ensures AllHealthy(WithdrawCollateral(s, h, w, x).0, pc, pd)
  {
    if WithdrawCollateral(s, h, w, x).1.Ok? {
      var t := WithdrawCollateral(s, h, w, x).0;
      if Get(s.borrows, w) != 0 { PassedIsHealthy(t, h, w, pc, pd); }
      OneChanged(s, t, w, pc, pd);
    }
  }

  lemma DepositCollateralHealthy(s: State, h: Host, w: Address, x: int, pc: int, pd: int)
    requires NonNegative(s.borrows) && 0 <= s.threshold && 0 <= pc && 0 < pd && AllHealthy(s, pc, pd)
    ensures AllHealthy(DepositCollateral(s, h, w, x).0, pc, pd)
  {
    if DepositCollateral(s, h, w, x).1.Ok? {
      var t := DepositCollateral(s, h, w, x).0;
      EntryAtMostTotal(s.borrows, w);
      if Get(s.borrows, w) > 0 {
        assert HealthyUser(s, w, pc, pd);
        SaferStaysHealthy(Get(s.collateral, w), Get(s.borrows, w), Get(t.collateral, w), Get(s.borrows, w), s.threshold, pc, pd);
      }
      OneChanged(s, t, w, pc, pd);
    }
  }

  /** Deposits, withdrawals, accruals, pausing and initialising touch no position. */
  lemma PositionsUntouched(s: State, c: Call)
    requires c.CallDeposit? || c.CallWithdraw? || c.CallAccrue? || c.CallConfigure? || c.CallInitialize?
    requires RiskFixed(c, s.threshold)
    ensures Step(s, c).borrows == s.borrows && Step(s, c).collateral == s.collateral
    ensures Step(s, c).threshold == s.threshold
  {}

  lemma StepHealthy(s: State, c: Call, pc: int, pd: int)
    requires NonNegative(s.borrows) && RiskFixed(c, s.threshold) && 0 <= s.threshold && 0 <= pc && 0 < pd
    requires AllHealthy(s, pc, pd) && PriceIs(s, c.h, pc, pd)
    ensures AllHealthy(Step(s, c), pc, pd)
    ensures c.CallLiquidate? ==> !Liquidate(s, c.h, c.who, c.repay, c.minCollateral).1.Ok?
  {
    if c.CallBorrow? {
      BorrowHealthy(s, c.h, c.who, c.amount, pc, pd);
    } else if c.CallRepay? {
      RepayHealthy(s, c.h, c.who, c.amount, pc, pd);
    } else if c.CallSetCollateral? {
      SetCollateralHealthy(s, c.h, c.who, c.amount, pc, pd);
    } else if c.CallWithdrawCollateral? {
      WithdrawCollateralHealthy(s, c.h, c.who, c.amount, pc, pd);
    } else if c.CallDepositCollateral? {
      DepositCollateralHealthy(s, c.h, c.who, c.amount, pc, pd);
    } else if c.CallLiquidate? {
      HealthyIsSafe(s, c.h, c.who, pc, pd);
    } else {
      PositionsUntouched(s, c);
    }
  }

  /** The price sources and the threshold of a state. */
  ghost predicate SameRisk(s: State, t: State)
  {
    t.oracleSet == s.oracleSet && t.maxAge == s.maxAge && t.sameAsset == s.sameAsset && t.threshold == s.threshold
  }

  lemma RiskKept(s: State, c: Call)
    requires RiskFixed(c, s.threshold)
    ensures SameRisk(s, Step(s, c))
  {}

  lemma SameRiskSamePrices(s: State, t: State, h: Host)
    requires SameRisk(s, t)
    ensures Prices(t, h) == Prices(s, h)
  {}

  lemma HealthyIsSafe(s: State, h: Host, user: Address, pc: int, pd: int)
    requires pd > 0 && AllHealthy(s, pc, pd) && PriceIs(s, h, pc, pd)
    ensures Health(s, h, user).Ok? ==> Health(s, h, user).value >= BPS
  {}

  /** No call makes a debt negative, whatever the totals say. */
  lemma DebtsStayNonNegative(s: State, c: Call)
    requires NonNegative(s.borrows)
    ensures NonNegative(Step(s, c).borrows)
  {
    if !c.CallBorrow? && !c.CallRepay? && !c.CallLiquidate? {
      assert Step(s, c).borrows == s.borrows;
    } else if c.CallBorrow? {
      assert NonNegative(Borrow(s, c.h, c.who, c.amount).0.borrows);
    }
  }

  /** While the prices the pool sees, the threshold and the collateral set-up stay fixed, no
      interleaving of user calls, accruals and initialisations makes an account with debt
      unhealthy. */
  lemma {:induction false} RunHealthy(s: State, calls: seq<Call>, pc: int, pd: int)
    requires NonNegative(s.borrows) && 0 <= s.threshold && 0 <= pc && 0 < pd && AllHealthy(s, pc, pd)
    requires forall c :: c in calls ==> RiskFixed(c, s.threshold) && PriceIs(s, c.h, pc, pd)
    ensures NonNegative(Run(s, calls).borrows) && AllHealthy(Run(s, calls), pc, pd)
    ensures SameRisk(s, Run(s, calls))
    decreases |calls|
  {
    if calls == [] {
    } else {
      var c, m, rest := calls[0], Step(s, calls[0]), calls[1..];
      assert RiskFixed(c, s.threshold) && PriceIs(s, c.h, pc, pd);
      StepHealthy(s, c, pc, pd);
      DebtsStayNonNegative(s, c);
      RiskKept(s, c);
      forall d | d in rest ensures RiskFixed(d, m.threshold) && PriceIs(m, d.h, pc, pd) {
        assert d in calls;
        SameRiskSamePrices(s, m, d.h);
      }
      RunHealthy(m, rest, pc, pd);
    }
  }

  /** ... so no liquidation ever goes through. */
  lemma NeverLiquidated(s: State, calls: seq<Call>, pc: int, pd: int, h: Host, borrower: Address, repay: int, minCollateral: int)
    requires NonNegative(s.borrows) && 0 <= s.threshold && 0 <= pc && 0 < pd && AllHealthy(s, pc, pd)
    requires forall c :: c in calls ==> RiskFixed(c, s.threshold) && PriceIs(s, c.h, pc, pd)
    requires PriceIs(s, h, pc, pd)
    ensures !Liquidate(Run(s, calls), h, borrower, repay, minCollateral).1.Ok?
  {
    RunHealthy(s, calls, pc, pd);
    SameRiskSamePrices(s, Run(s, calls), h);
    HealthyIsSafe(Run(s, calls), h, borrower, pc, pd);
  }

  // ---------------------------------------------------------------- what a liquidation does

  /** The exact ratio collateral / debt, before and after. */
  lemma RatioKept(c: int, b: int, paid: int, seized: int)
    ensures (c - seized) * b - c * (b - paid) == paid * c - seized * b
  {
    assert (c - seized) * b == c * b - seized * b;
    assert c * (b - paid) == c * b - paid * c;
  }

  lemma SeizureChain(z: int, b: int, paid: int, k: int, c: int)
    requires 0 <= b && 0 <= paid && z * BPS <= paid * k && k * b <= c * BPS
    ensures z * b <= paid * c
  {
    MulMono(z * BPS, paid * k, b);
    MulMono(k * b, c * BPS, paid);
    assert paid * k * b == k * b * paid;
    assert z * BPS * b == (z * b) * BPS;
    assert c * BPS * paid == (paid * c) * BPS;
  }

  /** Collateral that covers debt plus bonus covers every seizure in proportion. */
  lemma SeizureBound(c: int, b: int, paid: int, bonus: int)
    requires 0 < paid <= b && 0 <= BPS + bonus && (BPS + bonus) * b <= c * BPS
    ensures Seizure(paid, bonus) * b <= paid * c
  {
    MulNonNeg(paid, BPS + bonus);
    FloorDiv(paid * (BPS + bonus), BPS);
    SeizureChain(Seizure(paid, bonus), b, paid, BPS + bonus, c);
  }

  lemma RatioToHealth(c: int, b: int, c': int, b': int, threshold: int, pc: int, pd: int)
    requires 0 <= c && 0 <= c' && 0 < b && 0 < b' && 0 <= threshold && 0 <= pc && 0 < pd
    requires c' * b >= c * b'
    ensures HealthAt(c', b', threshold, pc, pd) >= HealthAt(c, b, threshold, pc, pd)
  {
    var k := pc * threshold * BPS;
    var l := pd * BPS;
    MulNonNeg(pc, threshold);
    MulNonNeg(c, k);
    MulNonNeg(c', k);
    MulPos(b, l);
    MulPos(b', l);
    assert c * pc * threshold * BPS == c * k by { Reassociate(c, pc, threshold); }
    assert c' * pc * threshold * BPS == c' * k by { Reassociate(c', pc, threshold); }
    assert b * pd * BPS == b * l && b' * pd * BPS == b' * l;
    QuotientMono(c * k, b * l, c' * k, b' * l, c, b, c', b', k, l);
  }

  lemma Reassociate(c: int, p: int, t: int)
    ensures c * p * t * BPS == c * (p * t * BPS)
  {
    assert c * p * t == c * (p * t);
  }

  lemma QuotientMono(n: int, d: int, n': int, d': int, c: int, b: int, c': int, b': int, k: int, l: int)
    requires 0 < d && 0 < d' && 0 <= n && 0 <= k && 0 < l && 0 < b && 0 < b'
    requires n == c * k && d == b * l && n' == c' * k && d' == b' * l && c' * b >= c * b' && 0 <= n'
    ensures n / d <= n' / d'
  {
    var q := n / d;
    FloorDiv(n, d);
    FloorAtLeast(0, n, d);
    // q d <= n, so q d d' <= n d' <= n' d
    MulMono(q * d, n, d');
    assert n * d' == (c * b') * (k * l) by { Cross(c, k, b', l); }
    assert n' * d == (c' * b) * (k * l) by { Cross(c', k, b, l); }
    MulNonNeg(k, l);
    MulMono(c * b', c' * b, k * l);
    assert (q * d') * d == q * d * d';
    MulCancelLe(q * d', n', d);
    FloorAtLeast(q, n', d');
  }

  lemma Cross(c: int, k: int, b: int, l: int)
    ensures (c * k) * (b * l) == (c * b) * (k * l)
  {
    assert (c * k) * (b * l) == c * (k * (b * l));
    assert k * (b * l) == b * (k * l);
  }

  /** At a collateral price of b * m and a debt price of 1, the health of c against b is exact. */
  lemma ExactHealth(c: int, b: int, m: int, threshold: int)
    requires 0 <= c && 0 < b && 0 < m && 0 <= threshold
    ensures HealthAt(c, b, threshold, b * m, 1) == c * m * threshold
  {
    MulPos(b, m);
    MulNonNeg(c, m);
    MulNonNeg(c * m, threshold);
    assert c * (b * m) * threshold * BPS == (c * m * threshold) * (b * 1 * BPS) by { Gather(c, b, m, threshold); }
    ExactQuotient(c * m * threshold, b * 1 * BPS);
  }

  lemma Gather(c: int, b: int, m: int, t: int)
    ensures c * (b * m) * t * BPS == (c * m * t) * (b * 1 * BPS)
  {
    assert c * (b * m) == b * (c * m);
    assert b * (c * m) * t == b * (c * m * t);
    assert b * (c * m * t) * BPS == (c * m * t) * (b * BPS);
  }

  lemma ExactQuotient(q: int, d: int)
    requires 0 <= q && 0 < d
    ensures TruncDiv(q * d, d) == q
  {
    MulNonNeg(q, d);
    FloorAtLeast(q, q * d, d);
    assert (q + 1) * d == q * d + d;
    FloorAtMost(q, q * d, d);
  }

  /** Health at all prices is kept exactly when the collateral goes down by no larger a part
      than the debt. The price b * b' tells the two apart. */
  lemma HealthKeptIff(c: int, b: int, c': int, b': int, threshold: int)
    requires 0 <= c && 0 <= c' && 0 < b && 0 < b' && 0 < threshold
    ensures (forall pc, pd :: 0 <= pc && 0 < pd ==>
               HealthAt(c', b', threshold, pc, pd) >= HealthAt(c, b, threshold, pc, pd))
            <==> c' * b >= c * b'
  {
    if c' * b >= c * b' {
      forall pc, pd | 0 <= pc && 0 < pd
        ensures HealthAt(c', b', threshold, pc, pd) >= HealthAt(c, b, threshold, pc, pd)
      {
        RatioToHealth(c, b, c', b', threshold, pc, pd);
      }
    } else {
      MulPos(b, b');
      ExactHealth(c, b, b', threshold);
      ExactHealth(c', b', b, threshold);
      assert b' * b == b * b';
      ScaledLt(c' * b, c * b', threshold);
      assert HealthAt(c', b', threshold, b * b', 1) < HealthAt(c, b, threshold, b * b', 1);
    }
  }

  lemma ScaledLt(x: int, y: int, t: int)
    requires x < y && 0 < t
    ensures x * t < y * t
  {
    MulMono(x + 1, y, t);
    assert (x + 1) * t == x * t + t;
  }

  /** After the call, the user has no debt or at all prices a computed health of at least the
      one before. */
  ghost predicate NoWorse(s: State, t: State, user: Address)
  {
    Get(t.borrows, user) == 0 ||
    forall pc, pd :: 0 <= pc && 0 < pd ==>
      HealthAt(Get(t.collateral, user), Get(t.borrows, user), t.threshold, pc, pd)
      >= HealthAt(Get(s.collateral, user), Get(s.borrows, user), s.threshold, pc, pd)
  }

  /** A successful liquidation lowers the borrower's computed health at no prices exactly when
      the seizure is at most the repaid part of the collateral, or nothing is owed any more.
      Repayment and seizure are known before the call. */
  lemma LiquidationNoWorseIff(s: State, h: Host, borrower: Address, repay: int, minCollateral: int)
    requires NonNegative(s.borrows) && 0 < s.threshold && 0 <= BPS + s.bonus
    requires Liquidate(s, h, borrower, repay, minCollateral).1.Ok?
    ensures var c, b := Get(s.collateral, borrower), Get(s.borrows, borrower);
            var paid := Min(repay, b);
            NoWorse(s, Liquidate(s, h, borrower, repay, minCollateral).0, borrower)
            <==> paid == b || Seizure(paid, s.bonus) * b <= paid * c
  {
    var t := Liquidate(s, h, borrower, repay, minCollateral).0;
    var c, b := Get(s.collateral, borrower), Get(s.borrows, borrower);
    var paid := Min(repay, b);
    assert 0 <= b;
    if paid < b {
      SeizureNonNegative(paid, s.bonus);
      RatioKept(c, b, paid, Seizure(paid, s.bonus));
      HealthKeptIff(c, b, c - Seizure(paid, s.bonus), b - paid, s.threshold);
    }
  }

  lemma SeizureNonNegative(paid: int, bonus: int)
    requires 0 <= paid && 0 <= BPS + bonus
    ensures 0 <= Seizure(paid, bonus)
  {
    MulNonNeg(paid, BPS + bonus);
  }

  /** A liquidation of a position whose collateral still covers its debt with the bonus never
      lowers the computed health, whatever is repaid and whatever the prices. */
  lemma LiquidationNeverHurts(s: State, h: Host, borrower: Address, repay: int, minCollateral: int)
    requires NonNegative(s.borrows) && 0 <= s.threshold && 0 <= BPS + s.bonus
    requires (BPS + s.bonus) * Get(s.borrows, borrower) <= Get(s.collateral, borrower) * BPS
    requires Liquidate(s, h, borrower, repay, minCollateral).1.Ok?
    ensures NoWorse(s, Liquidate(s, h, borrower, repay, minCollateral).0, borrower)
  {
    var c, b := Get(s.collateral, borrower), Get(s.borrows, borrower);
    var paid := Min(repay, b);
    assert 0 <= b;
    if paid < b {
      SeizureNonNegative(paid, s.bonus);
      SeizureBound(c, b, paid, s.bonus);
      RatioKept(c, b, paid, Seizure(paid, s.bonus));
      forall pc, pd | 0 <= pc && 0 < pd
        ensures HealthAt(c - Seizure(paid, s.bonus), b - paid, s.threshold, pc, pd) >= HealthAt(c, b, s.threshold, pc, pd)
      {
        RatioToHealth(c, b, c - Seizure(paid, s.bonus), b - paid, s.threshold, pc, pd);
      }
    }
  }

  /** 200 deposited, 100 of it set as collateral against a debt of 100 at threshold 10000;
      then the admin lowers the threshold to 8500. */
  function UncoveredRun(h: Host, u: Address): seq<Call>
  {
    [CallDeposit(h, u, 200), CallSetCollateral(h, u, 100), CallBorrow(h, u, 100), CallAccrue(h),
     CallUpdate(h, u, None, Some(8500), None, None, None)]
  }

  lemma UncoveredSteps(u: Address, h: Host, s: State, s1: State, s2: State, s3: State, s5: State)
    requires h.auth && h.tokensOk && Fresh(h.now, u, 8000, 10000, 500, 0, 0) == Some(s)
    requires s1 == s.(deposits := map[u := 200], totalSupply := 200) && s2 == s1.(collateral := map[u := 100])
    requires s3 == s2.(borrows := map[u := 100], totalBorrows := 100) && s5 == s3.(threshold := 8500)
    ensures s1 == Deposit(s, h, u, 200).0 && s2 == SetCollateral(s1, h, u, 100).0 && s3 == Borrow(s2, h, u, 100).0
    ensures s3 == Accrue(s3, h).0 && s5 == UpdateConfig(s3, h, u, None, Some(8500), None, None, None).0
  {}

  lemma UncoveredState(now: int, u: Address, h: Host, s: State)
    requires h == Host(now, NoPrice, NoPrice, true, true) && Fresh(now, u, 8000, 10000, 500, 0, 0) == Some(s)
    ensures Run(s, UncoveredRun(h, u))
            == s.(deposits := map[u := 200], totalSupply := 200, collateral := map[u := 100],
                  borrows := map[u := 100], totalBorrows := 100, threshold := 8500)
  {
    var s1 := s.(deposits := map[u := 200], totalSupply := 200);
    var s2 := s1.(collateral := map[u := 100]);
    var s3 := s2.(borrows := map[u := 100], totalBorrows := 100);
    var s5 := s3.(threshold := 8500);
    UncoveredSteps(u, h, s, s1, s2, s3, s5);
    RunTrace(s, UncoveredRun(h, u), [s, s1, s2, s3, s3, s5]);
  }

  /** Without that cover it can hurt: in the state this run reaches, repaying 50 seizes 52 and
      takes the health from 8500 to 8160. */
  lemma LiquidationCanHurt(now: int, u: Address, h: Host, s: State)
    requires h == Host(now, NoPrice, NoPrice, true, true) && Fresh(now, u, 8000, 10000, 500, 0, 0) == Some(s)
    ensures var t := Run(s, UncoveredRun(h, u));
            && Health(t, h, u) == Ok(8500)
            && Liquidate(t, h, u, 50, 0).1 == Ok(52)
            && Health(Liquidate(t, h, u, 50, 0).0, h, u) == Ok(8160)
            && !NoWorse(t, Liquidate(t, h, u, 50, 0).0, u)
  {
    UncoveredState(now, u, h, s);
    var t := Run(s, UncoveredRun(h, u));
    assert HealthAt(48, 50, 8500, 1, 1) == 8160 && HealthAt(100, 100, 8500, 1, 1) == 8500;
    assert Get(t.borrows, u) == 100 && Get(t.collateral, u) == 100;
  }

  // ---------------------------------------------------------------- supply shares

  /** What supply shares are shares of. */
  function Assets(s: State): int { s.totalSupply + s.totalBorrows + s.totalReserves }

  lemma AssetsCover(s: State)
    requires Inv(s)
    ensures s.totalSupply <= Assets(s)
  {
    TotalNonNegative(s.borrows);
  }

  /** What a deposit mints. Without supply that is the deposit; otherwise it is the largest number
      of shares that its part of the assets allows. It exceeds the deposit, or is negative, only
      in a pool whose supply has been driven below 0, and exactly as stated. */
  lemma DepositMints(s: State, h: Host, from: Address, amount: int, x: int)
    requires Inv(s) && Deposit(s, h, from, amount).1.Ok?
    ensures var minted, supply, assets := Deposit(s, h, from, amount).1.value, s.totalSupply, Assets(s);
            && (supply == 0 ==> minted == amount)
            && (supply != 0 && 0 < x ==>
                  (x <= minted <==> if assets > 0 then x * assets <= amount * supply else x * -assets <= -(amount * supply)))
            && (minted <= amount <==> supply >= 0 || assets > 0 || amount * -supply < (amount + 1) * -assets)
            && (0 <= minted <==> supply >= 0 || assets < 0 || amount * -supply < assets)
  {
    AssetsCover(s);
    if s.totalSupply != 0 {
      MintSigns(amount, s.totalSupply, Assets(s));
      if 0 < x { TruncAtLeastIff(amount * s.totalSupply, Assets(s), x); }
    }
  }

  lemma MintSigns(amount: int, supply: int, assets: int)
    requires 0 < amount && supply != 0 && assets != 0 && supply <= assets
    ensures TruncDiv(amount * supply, assets) <= amount
            <==> supply >= 0 || assets > 0 || amount * -supply < (amount + 1) * -assets
    ensures 0 <= TruncDiv(amount * supply, assets) <==> supply >= 0 || assets < 0 || amount * -supply < assets
  {
    TruncAtMostIff(amount * supply, assets, amount);
    TruncNonNegIff(amount * supply, assets);
    assert amount * -supply == -(amount * supply);
    if supply > 0 {
      MulPos(amount, supply);
      MulMono(supply, assets, amount);
      assert (amount + 1) * assets == amount * assets + assets;
    } else {
      MulPos(amount, -supply);
      if assets > 0 { MulPos(amount + 1, assets); }
    }
  }

  /** What a withdrawal pays: the largest amount that the shares' part of the assets allows. That
      is at least one unit per share exactly when the supply is positive or nothing is borrowed
      and reserved. */
  lemma WithdrawPays(s: State, h: Host, from: Address, shares: int, x: int)
    requires Inv(s) && Withdraw(s, h, from, shares).1.Ok?
    ensures var paid, supply, assets := Withdraw(s, h, from, shares).1.value, s.totalSupply, Assets(s);
            && (0 < x ==>
                  (x <= paid <==> if supply > 0 then x * supply <= shares * assets else x * -supply <= -(shares * assets)))
            && (shares <= paid <==> supply > 0 || assets == supply)
            && (0 <= paid <==> supply > 0 || assets <= 0 || shares * assets < -supply)
  {
    AssetsCover(s);
    PaySigns(shares, s.totalSupply, Assets(s));
    if 0 < x { TruncAtLeastIff(shares * Assets(s), s.totalSupply, x); }
  }

  lemma PaySigns(shares: int, supply: int, assets: int)
    requires 0 < shares && supply != 0 && supply <= assets
    ensures shares <= TruncDiv(shares * assets, supply) <==> supply > 0 || assets == supply
    ensures 0 <= TruncDiv(shares * assets, supply) <==> supply > 0 || assets <= 0 || shares * assets < -supply
  {
    TruncAtLeastIff(shares * assets, supply, shares);
    TruncNonNegIff(shares * assets, supply);
    MulMono(supply, assets, shares);
    assert shares * -supply == -(shares * supply);
    if supply > 0 {
      MulPos(shares, supply);
    } else {
      if supply < assets { MulPos(shares, assets - supply); }
      if assets <= 0 { MulNonNeg(shares, -assets); }
    }
  }

  lemma RoundTripArithmetic(m: int, amount: int, supply: int, assets: int)
    requires 0 <= m <= amount && 0 < supply <= assets && m * assets <= amount * supply
    ensures m * (assets + m) < (amount + 1) * (supply + m)
  {
    MulMono(m, amount, m);
    assert m * (assets + m) == m * assets + m * m;
    assert (amount + 1) * (supply + m) == amount * supply + amount * m + supply + m;
  }

  /** The minted shares m are worth no more than the deposit: the sum a caller can form before. */
  predicate WorthNoMore(m: int, amount: int, supply: int, assets: int)
  {
    if supply + m > 0 then m * (assets + m) < (amount + 1) * (supply + m)
    else -(m * (assets + m)) < (amount + 1) * -(supply + m)
  }

  /** Depositing and at once withdrawing the minted shares. With a positive supply that pays back
      at most the deposit. Without supply it pays the deposit and everything borrowed and reserved,
      so more exactly when there is any. With a negative supply, the sum decides. */
  lemma DepositThenWithdraw(s: State, h: Host, g: Host, from: Address, amount: int)
    requires Inv(s) && Deposit(s, h, from, amount).1.Ok?
    requires var (t, r) := Deposit(s, h, from, amount); Withdraw(t, g, from, r.value).1.Ok?
    ensures var (t, r) := Deposit(s, h, from, amount);
            var paid := Withdraw(t, g, from, r.value).1.value;
            && (s.totalSupply > 0 ==> paid <= amount)
            && (s.totalSupply == 0 ==> paid == amount + s.totalBorrows + s.totalReserves
                                       && (paid > amount <==> s.totalBorrows + s.totalReserves > 0))
            && (paid <= amount <==> WorthNoMore(r.value, amount, s.totalSupply, Assets(s)))
  {
    var (t, r) := Deposit(s, h, from, amount);
    PaidAtMostIff(t, g, from, r.value, amount);
    if s.totalSupply > 0 {
      DepositMints(s, h, from, amount, r.value);
      AssetsCover(s);
      RoundTripArithmetic(r.value, amount, s.totalSupply, Assets(s));
    } else if s.totalSupply == 0 {
      assert r.value == t.totalSupply == amount;
      AssetsCover(s);
      PaidInFull(t, g, from);
    }
  }

  lemma PaidAtMostIff(t: State, g: Host, from: Address, shares: int, amount: int)
    requires 0 <= amount && Withdraw(t, g, from, shares).1.Ok?
    ensures Withdraw(t, g, from, shares).1.value <= amount
            <==> if t.totalSupply > 0 then shares * Assets(t) < (amount + 1) * t.totalSupply
                 else -(shares * Assets(t)) < (amount + 1) * -t.totalSupply
  {
    TruncAtMostIff(shares * Assets(t), t.totalSupply, amount);
  }

  /** Withdrawing the whole supply pays all assets. */
  lemma PaidInFull(t: State, g: Host, from: Address)
    requires 0 <= Assets(t) && Withdraw(t, g, from, t.totalSupply).1.Ok?
    ensures Withdraw(t, g, from, t.totalSupply).1.value == Assets(t)
  {
    ExactQuotient(Assets(t), t.totalSupply);
    assert t.totalSupply * Assets(t) == Assets(t) * t.totalSupply;
  }

  /** Deposits credit the user with tokens and the supply with shares; withdrawals take the user's
      units from the supply. One user, with interest accrued in between, drives it below 0. */
  function OverdrawnRun(h: Host, later: Host, u: Address): seq<Call>
  {
    [CallDeposit(h, u, 100), CallDepositCollateral(h, u, 500), CallBorrow(h, u, 80), CallAccrue(later),
     CallDeposit(later, u, 520), CallWithdraw(later, u, 520)]
  }

  lemma OverdrawnState(now: int, u: Address, h: Host, later: Host, s: State)
    requires h == Host(now, NoPrice, NoPrice, true, true) && later == h.(now := now + 2_000_000)
    requires Fresh(now, u, 8000, 8000, 500, 500, 0) == Some(s)
    ensures var t := Run(s, OverdrawnRun(h, later, u));
            && t == s.(deposits := map[u := 100], borrows := map[u := 80], collateral := map[u := 500],
                       totalSupply := -220, totalBorrows := 160, lastAccrual := later.now, accrued := 80)
  {
    var calls := OverdrawnRun(h, later, u);
    var s1 := s.(deposits := map[u := 100], totalSupply := 100);
    var s2 := s1.(collateral := map[u := 500]);
    var s3 := s2.(borrows := map[u := 80], totalBorrows := 80);
    var s4 := s3.(totalBorrows := 160, accrued := 80, lastAccrual := later.now);
    var s5 := s4.(deposits := map[u := 620], totalSupply := 300);
    var s6 := s5.(deposits := map[u := 100], totalSupply := -220);
    OverdrawnSteps(u, h, later, s, s1, s2, s3, s4, s5, s6);
    RunTrace(s, calls, [s, s1, s2, s3, s4, s5, s6]);
  }

  lemma OverdrawnSteps(u: Address, h: Host, later: Host, s: State, s1: State, s2: State, s3: State, s4: State, s5: State, s6: State)
    requires h.auth && h.tokensOk && later == h.(now := h.now + 2_000_000)
    requires Fresh(h.now, u, 8000, 8000, 500, 500, 0) == Some(s)
    requires s1 == s.(deposits := map[u := 100], totalSupply := 100) && s2 == s1.(collateral := map[u := 500])
    requires s3 == s2.(borrows := map[u := 80], totalBorrows := 80)
    requires s4 == s3.(totalBorrows := 160, accrued := 80, lastAccrual := later.now)
    requires s5 == s4.(deposits := map[u := 620], totalSupply := 300)
    requires s6 == s5.(deposits := map[u := 100], totalSupply := -220)
    ensures s1 == Deposit(s, h, u, 100).0 && s2 == DepositCollateral(s1, h, u, 500).0 && s3 == Borrow(s2, h, u, 80).0
    ensures s4 == Accrue(s3, later).0 && s5 == Deposit(s4, later, u, 520).0 && s6 == Withdraw(s5, later, u, 520).0
  {}

  /** After that run the supply is -220 and the assets are -60, with the books in order. A deposit
      of 100 then mints 366 shares, and a withdrawal of 100 shares pays 27. After one more accrual
      the assets are 100, and a deposit of 100 mints -220 shares. */
  lemma OverdrawnSupply(now: int, u: Address, h: Host, later: Host, last: Host, s: State)
    requires h == Host(now, NoPrice, NoPrice, true, true)
    requires later == h.(now := now + 2_000_000) && last == h.(now := now + 4_000_000)
    requires Fresh(now, u, 8000, 8000, 500, 500, 0) == Some(s)
    ensures var t := Run(s, OverdrawnRun(h, later, u));
            && Inv(s) && Inv(t) && t.totalSupply == -220 && Assets(t) == -60
            && Deposit(t, later, u, 100).1 == Ok(366)
            && Withdraw(t, later, u, 100).1 == Ok(27)
            && Assets(Accrue(t, last).0) == 100
            && Deposit(Accrue(t, last).0, last, u, 100).1 == Ok(-220)
  {
    OverdrawnState(now, u, h, later, s);
    OrdinaryRun(s, OverdrawnRun(h, later, u));
  }

  /** The books survive every run without settings and initialisations. */
  lemma OrdinaryRun(s: State, calls: seq<Call>)
    requires Inv(s) && forall c :: c in calls ==> !c.CallUpdate? && !c.CallInitialize?
    ensures Inv(Run(s, calls))
  {
    NeverForgetsUnless(s, calls);
    RunKeeps(s, calls);
  }

  lemma {:induction false} NeverForgetsUnless(s: State, calls: seq<Call>)
    requires forall c :: c in calls ==> !c.CallInitialize?
    ensures NeverForgets(s, calls)
    decreases |calls|
  {
    if calls != [] { NeverForgetsUnless(Step(s, calls[0]), calls[1..]); }
  }

  /** A lender withdraws all supply while a loan is out. */
  function EmptiedRun(h: Host, u: Address): seq<Call>
  {
    [CallDeposit(h, u, 100), CallDepositCollateral(h, u, 300), CallBorrow(h, u, 80), CallWithdraw(h, u, 100)]
  }

  /** After that run there is no supply and 80 are borrowed: a deposit of 10, withdrawn at once,
      pays 90. */
  lemma EmptiedSupply(now: int, u: Address, h: Host, s: State)
    requires h == Host(now, NoPrice, NoPrice, true, true) && Fresh(now, u, 8000, 8000, 500, 500, 0) == Some(s)
    ensures var t := Run(s, EmptiedRun(h, u));
            && t.totalSupply == 0 && t.totalBorrows == 80
            && Deposit(t, h, u, 10).1 == Ok(10)
            && Withdraw(Deposit(t, h, u, 10).0, h, u, 10).1 == Ok(90)
  {
    var calls := EmptiedRun(h, u);
    var s1 := Step(s, calls[0]);
    var s2 := Step(s1, calls[1]);
    var s3 := Step(s2, calls[2]);
    assert s3.borrows == map[u := 80] && s3.totalSupply == 100 && s3.collateral == map[u := 300];
    var s4 := Step(s3, calls[3]);
    RunTrace(s, calls, [s, s1, s2, s3, s4]);
  }

  // ---------------------------------------------------------------- prices and pausing

  /** A usable answer: quoted, positive, not from the future and not too old. */
  predicate Usable(s: State, now: int, r: Reading)
  {
    r.Quoted? && r.price > 0 && r.timestamp <= now <= r.timestamp + s.maxAge
  }

  /** With an oracle, both answers are usable and agree in their decimals; without one, both tokens
      are the same. */
  predicate HasPrices(s: State, h: Host)
  {
    if s.oracleSet then
      Usable(s, h.now, h.collateral)
      && (s.sameAsset || (Usable(s, h.now, h.debt) && h.debt.decimals == h.collateral.decimals))
    else s.sameAsset
  }

  /** The two prices: the answers, or 1 for both without an oracle. */
  function PricePair(s: State, h: Host): (int, int)
    requires HasPrices(s, h)
  {
    if !s.oracleSet then (1, 1)
    else (h.collateral.price, if s.sameAsset then h.collateral.price else h.debt.price)
  }

  /** When the pool has prices, and which. */
  lemma PricesIff(s: State, h: Host)
    ensures Prices(s, h).Ok? <==> HasPrices(s, h)
    ensures HasPrices(s, h) ==> Prices(s, h).value == PricePair(s, h)
  {}

  /** Apart from the settings and a new initialisation, a paused pool refuses everything. */
  lemma PausedFreezes(s: State, c: Call)
    requires s.paused && !c.CallUpdate? && !c.CallConfigure? && !c.CallInitialize?
    ensures Step(s, c) == s
  {}

  /** Adding collateral lowers no account's health at any prices. */
  lemma CollateralHelps(s: State, h: Host, from: Address, amount: int, pc: int, pd: int)
    requires NonNegative(s.borrows) && 0 <= s.threshold && 0 <= pc && 0 < pd
    ensures var t := DepositCollateral(s, h, from, amount).0;
            HealthAt(Get(t.collateral, from), Get(t.borrows, from), t.threshold, pc, pd)
            >= HealthAt(Get(s.collateral, from), Get(s.borrows, from), s.threshold, pc, pd)
  {
    var c, b := Get(s.collateral, from), Get(s.borrows, from);
    if DepositCollateral(s, h, from, amount).1.Ok? && b != 0 {
      MulMono(c, c + amount, pc);
      MulMono(c * pc, (c + amount) * pc, s.threshold);
      MulPos(b, pd);
      TruncMono(c * pc * s.threshold * BPS, (c + amount) * pc * s.threshold * BPS, b * pd * BPS);
    }
  }

  lemma CollateralHelpsAlways(s: State, h: Host, from: Address, amount: int)
    requires Inv(s)
    ensures var t := DepositCollateral(s, h, from, amount).0;
            0 <= s.threshold ==>
              forall pc, pd :: 0 <= pc && 0 < pd ==>
                HealthAt(Get(t.collateral, from), Get(s.borrows, from), s.threshold, pc, pd)
                >= HealthAt(Get(s.collateral, from), Get(s.borrows, from), s.threshold, pc, pd)
  {
    if 0 <= s.threshold {
      forall pc, pd | 0 <= pc && 0 < pd
        ensures HealthAt(Get(DepositCollateral(s, h, from, amount).0.collateral, from), Get(s.borrows, from), s.threshold, pc, pd)
                >= HealthAt(Get(s.collateral, from), Get(s.borrows, from), s.threshold, pc, pd)
      {
        CollateralHelps(s, h, from, amount, pc, pd);
      }
    }
  }

  lemma TruncMono(n: int, n': int, d: int)
    requires n <= n' && 0 < d
    ensures TruncDiv(n, d) <= TruncDiv(n', d)
  {
    if 0 <= n {
      FloorDiv(n, d);
      FloorAtLeast(n / d, n', d);
    } else if n' < 0 {
      FloorDiv(-n', d);
      FloorAtLeast(-n' / d, -n, d);
    }
  }
}
