/** The StableSwap pool contract as values: its storage, its calls, and what runs keep. */
module Stable {
  import opened Arithmetic
  import opened Outcomes
  import opened PoolShares
  import opened StableBound
  import opened StableConverge
  import opened StableMath
  import opened StablePrice
  import opened Totals

  datatype StableError =
    | NotAdmin | ZeroAmount | SlippageExceeded | InsufficientLiquidity | InsufficientLpShares | InvalidFee

  datatype Host = Host(auth: bool, funded: bool)

  datatype State = State(
    admin: Address, tokenA: Address, tokenB: Address, amp: int, feeBps: int,
    reserveA: int, reserveB: int, totalShares: int, lp: Balances)

  /** Shares for a later deposit; None when the unsigned subtraction d1 - d0 aborts. */
  function GrowthShares(s: State, a: int, b: int): Option<int>
    requires s.reserveA > 0 && s.reserveB > 0 && a > 0 && b > 0 && s.amp >= 1
  {
    var d0 := DNewton(s.reserveA, s.reserveB, s.amp).value;
    var d1 := DNewton(s.reserveA + a, s.reserveB + b, s.amp).value;
    if d1 < d0 || d0 == 0 then None else Some((d1 - d0) * s.totalShares / d0)
  }

  function AddLiquidity(s: State, host: Host, provider: Address, a: int, b: int, minShares: int)
    : (State, Result<int, StableError>)
    requires s.amp >= 1
  {
    if !host.auth then (s, Panic)
    else if a <= 0 || b <= 0 then (s, Err(ZeroAmount))
    else if s.totalShares != 0 && (s.reserveA <= 0 || s.reserveB <= 0) then (s, Panic)
    else
      var minted := if s.totalShares == 0 then Some(DNewton(a, b, s.amp).value) else GrowthShares(s, a, b);
      if minted == None then (s, Panic)
      else if minted.value < minShares then (s, Err(SlippageExceeded))
      else if !host.funded then (s, Panic)
      else
        (s.(reserveA := s.reserveA + a, reserveB := s.reserveB + b,
            totalShares := s.totalShares + minted.value,
            lp := s.lp[provider := Get(s.lp, provider) + minted.value]),
         Ok(minted.value))
  }

  function RemoveLiquidity(s: State, host: Host, provider: Address, shares: int, minA: int, minB: int)
    : (State, Result<(int, int), StableError>)
  {
    if !host.auth then (s, Panic)
    else if shares <= 0 then (s, Err(ZeroAmount))
    else if Get(s.lp, provider) < shares then (s, Err(InsufficientLpShares))
    else if s.totalShares == 0 then (s, Err(InsufficientLiquidity))
    else
      var a := Redeem(shares, s.reserveA, s.totalShares);
      var b := Redeem(shares, s.reserveB, s.totalShares);
      if a < minA || b < minB then (s, Err(SlippageExceeded))
      else
        (s.(reserveA := s.reserveA - a, reserveB := s.reserveB - b, totalShares := s.totalShares - shares,
            lp := s.lp[provider := Get(s.lp, provider) - shares]),
         Ok((a, b)))
  }

  function ReserveIn(s: State, tokenIn: Address): int
  { if tokenIn == s.tokenA then s.reserveA else s.reserveB }

  function ReserveOut(s: State, tokenIn: Address): int
  { if tokenIn == s.tokenA then s.reserveB else s.reserveA }

  function Swap(s: State, host: Host, trader: Address, tokenIn: Address, amount: int, minOut: int)
    : (State, Result<int, StableError>)
    requires s.amp >= 1 && s.reserveA >= 0 && s.reserveB >= 0
  {
    if !host.auth then (s, Panic)
    else if amount <= 0 then (s, Err(ZeroAmount))
    else if tokenIn != s.tokenA && tokenIn != s.tokenB then (s, Err(InvalidFee))
    else
      var rin, rout := ReserveIn(s, tokenIn), ReserveOut(s, tokenIn);
      if rin == 0 || rout == 0 then (s, Err(InsufficientLiquidity))
      else
        var y := YNewton(rin, amount, rout, s.amp).value;
        if y > rout then (s, Panic)
        else
          var net := (rout - y) * (10000 - s.feeBps) / 10000;
          if net < minOut then (s, Err(SlippageExceeded))
          else if !host.funded then (s, Panic)
          else if tokenIn == s.tokenA then
            (s.(reserveA := rin + amount, reserveB := rout - net), Ok(net))
          else
            (s.(reserveB := rin + amount, reserveA := rout - net), Ok(net))
  }

  function SetFee(s: State, auth: bool, admin: Address, feeBps: int): (State, Result<(), StableError>)
  {
    if admin != s.admin then (s, Err(NotAdmin))
    else if !auth then (s, Panic)
    else if feeBps > 1000 then (s, Err(InvalidFee))
    else (s.(feeBps := feeBps), Ok(()))
  }

  // ---------------------------------------------------------------- runs

  datatype Call =
    | CallAdd(host: Host, who: Address, a: int, b: int, minShares: int)
    | CallRemove(host: Host, who: Address, shares: int, minA: int, minB: int)
    | CallSwap(host: Host, who: Address, tokenIn: Address, amount: int, minOut: int)
    | CallSetFee(auth: bool, admin: Address, feeBps: nat)

  ghost predicate Inv(s: State)
  {
    && s.tokenA != s.tokenB && 1 <= s.amp <= MAX_AMPLIFICATION && 0 <= s.feeBps <= 1000
    && 0 <= s.reserveA && 0 <= s.reserveB && 0 <= s.totalShares
    && (s.totalShares == 0 ==> s.reserveA == 0 && s.reserveB == 0)
    && NonNegative(s.lp) && s.totalShares == Total(s.lp)
  }

  /** While shares remain, neither side is empty: the solvers are only called inside their domain. */
  predicate Live(s: State)
  {
    s.totalShares > 0 ==> s.reserveA > 0 && s.reserveB > 0
  }

  function Fresh(admin: Address, tokenA: Address, tokenB: Address, amp: int): State
  {
    State(admin, tokenA, tokenB, amp, 30, 0, 0, 0, map[])
  }

  ghost function Step(s: State, c: Call): State
    requires Inv(s)
  {
    match c
    case CallAdd(h, w, a, b, m) => AddLiquidity(s, h, w, a, b, m).0
    case CallRemove(h, w, x, m, n) => RemoveLiquidity(s, h, w, x, m, n).0
    case CallSwap(h, w, t, x, m) => Swap(s, h, w, t, x, m).0
    case CallSetFee(a, w, f) => SetFee(s, a, w, f).0
  }

  /** The sum that compute_d starts from is a u128 value; otherwise the code aborts on forming it. */
  predicate ReservesFit(s: State) { s.reserveA + s.reserveB <= U128_MAX }

  /** A later deposit never aborts on d1 - d0, and mints the largest number of shares that does
      not lower D per share. */
  lemma GrowthBound(s: State, a: int, b: int, d0: int, d1: int)
    requires Inv(s) && s.reserveA > 0 && s.reserveB > 0 && a > 0 && b > 0
    requires d0 == DNewton(s.reserveA, s.reserveB, s.amp).value
    requires d1 == DNewton(s.reserveA + a, s.reserveB + b, s.amp).value
    ensures ReservesFit(s) ==> GrowthShares(s, a, b).Some?
    ensures GrowthShares(s, a, b).Some? ==>
              var minted := GrowthShares(s, a, b).value;
              0 <= minted && (s.totalShares + minted) * d0 <= s.totalShares * d1 < (s.totalShares + minted + 1) * d0
  {
    DNewtonRange(s.reserveA, s.reserveB, s.amp);
    if ReservesFit(s) { GrowsWithReserves(s.reserveA, s.reserveB, a, b, s.amp); }
    if d0 <= d1 { GrowthArithmetic(d0, d1, s.totalShares); }
  }

  lemma GrowthArithmetic(d0: int, d1: int, total: int)
    requires 0 < d0 <= d1 && 0 <= total
    ensures var minted := (d1 - d0) * total / d0;
            0 <= minted && (total + minted) * d0 <= total * d1 < (total + minted + 1) * d0
  {
    var minted := (d1 - d0) * total / d0;
    MulNonNeg(d1 - d0, total);
    FloorAtLeast(0, (d1 - d0) * total, d0);
    FloorDiv((d1 - d0) * total, d0);
    assert (total + minted) * d0 == total * d0 + minted * d0;
    assert (total + minted + 1) * d0 == total * d0 + minted * d0 + d0;
    assert (d1 - d0) * total == total * d1 - total * d0;
  }

  lemma AddKeeps(s: State, host: Host, provider: Address, a: int, b: int, minShares: int)
    requires Inv(s)
    ensures var t := AddLiquidity(s, host, provider, a, b, minShares).0;
            Inv(t) && (Live(s) ==> Live(t))
  {
    var (t, r) := AddLiquidity(s, host, provider, a, b, minShares);
    if r.Ok? {
      if s.totalShares == 0 { DNewtonRange(a, b, s.amp); } else {
        GrowthBound(s, a, b, DNewton(s.reserveA, s.reserveB, s.amp).value,
                    DNewton(s.reserveA + a, s.reserveB + b, s.amp).value);
      }
      TotalUpdate(s.lp, provider, Get(s.lp, provider) + r.value);
    }
  }

  lemma RemoveKeeps(s: State, host: Host, provider: Address, shares: int, minA: int, minB: int)
    requires Inv(s)
    ensures var t := RemoveLiquidity(s, host, provider, shares, minA, minB).0;
            Inv(t) && (Live(s) ==> Live(t))
  {
    var (t, r) := RemoveLiquidity(s, host, provider, shares, minA, minB);
    if r.Ok? {
      EntryAtMostTotal(s.lp, provider);
      TotalUpdate(s.lp, provider, Get(s.lp, provider) - shares);
      RedeemBound(shares, s.reserveA, s.totalShares);
      RedeemBound(shares, s.reserveB, s.totalShares);
      if t.totalShares > 0 && s.reserveA > 0 && s.reserveB > 0 {
        RedeemLeaves(shares, s.reserveA, s.totalShares);
        RedeemLeaves(shares, s.reserveB, s.totalShares);
      }
    }
  }

  /** A partial redemption leaves something of a non-empty reserve. */
  lemma RedeemLeaves(s: int, reserve: int, total: int)
    requires 0 < s < total && 0 < reserve
    ensures Redeem(s, reserve, total) < reserve
  {
    RedeemBound(s, reserve, total);
    MulPos(total - s, reserve);
    MulCancelLt(0, reserve - Redeem(s, reserve, total), total);
  }

  lemma NetOut(gross: int, feeBps: int)
    requires 0 <= gross && 0 <= feeBps <= 1000
    ensures var net := gross * (10000 - feeBps) / 10000;
            0 <= net <= gross && (net == gross <==> feeBps == 0 || gross == 0)
  {}

  /** The quadratic that a swap of `amount` solves. */
  function QuadraticOf(s: State, tokenIn: Address, amount: int): Quadratic
    requires s.amp >= 1 && ReserveIn(s, tokenIn) > 0 && ReserveOut(s, tokenIn) > 0 && amount > 0
  {
    YQuadratic(ReserveIn(s, tokenIn), amount, ReserveOut(s, tokenIn), s.amp)
  }

  /** The first numerator of compute_y is a u128 value; otherwise the code aborts on forming it. */
  predicate StartFits(s: State, tokenIn: Address, amount: int)
    requires s.amp >= 1 && ReserveIn(s, tokenIn) > 0 && ReserveOut(s, tokenIn) > 0 && amount > 0
  {
    ReserveOut(s, tokenIn) * ReserveOut(s, tokenIn) + QuadraticOf(s, tokenIn, amount).c <= U128_MAX
  }

  lemma SwapKeeps(s: State, host: Host, trader: Address, tokenIn: Address, amount: int, minOut: int)
    requires Inv(s)
    ensures var (t, r) := Swap(s, host, trader, tokenIn, amount, minOut);
            && Inv(t) && t.totalShares == s.totalShares
            && (s.feeBps > 0 && Live(s) ==> Live(t))
            && (!r.Ok? ==> t == s)
  {
    var (t, r) := Swap(s, host, trader, tokenIn, amount, minOut);
    if r.Ok? {
      NetOut(ReserveOut(s, tokenIn) - YNewton(ReserveIn(s, tokenIn), amount, ReserveOut(s, tokenIn), s.amp).value, s.feeBps);
    }
  }

  /** A successful swap empties the paying side exactly when the fee is 0 and the quadratic's
      c is below its g, both known before the solver runs. For c == g the path of the iterates
      decides, and one token may stay. */
  lemma SwapDrainsIff(s: State, host: Host, trader: Address, tokenIn: Address, amount: int, minOut: int)
    requires Inv(s) && Swap(s, host, trader, tokenIn, amount, minOut).1.Ok?
    ensures var t, q := Swap(s, host, trader, tokenIn, amount, minOut).0, QuadraticOf(s, tokenIn, amount);
            && (s.feeBps > 0 || q.c > q.g ==> ReserveOut(t, tokenIn) > 0)
            && (StartFits(s, tokenIn, amount) && q.c != q.g ==>
                  (ReserveOut(t, tokenIn) == 0 <==> s.feeBps == 0 && q.c < q.g))
            && (StartFits(s, tokenIn, amount) && q.c == q.g && s.feeBps == 0 ==> 0 <= ReserveOut(t, tokenIn) <= 1)
  {
    var rin, rout, q := ReserveIn(s, tokenIn), ReserveOut(s, tokenIn), QuadraticOf(s, tokenIn, amount);
    var y := YNewton(rin, amount, rout, s.amp).value;
    NetOut(rout - y, s.feeBps);
    assert F(q.c, q.g, 1) == 1 + q.g - q.c;
    assert F(q.c, q.g, 2) == 4 + 2 * q.g - q.c;
    if StartFits(s, tokenIn, amount) {
      YNewtonCompare(rin, amount, rout, s.amp, 0);
      YNewtonCompare(rin, amount, rout, s.amp, 1);
      YStart(rin, amount, rout, s.amp);
    }
  }

  /** Every call from a good state gives a good state, and keeps the pool live unless it swaps at fee 0. */
  lemma StepKeeps(s: State, c: Call)
    requires Inv(s)
    ensures Inv(Step(s, c))
    ensures Live(s) && s.feeBps > 0 ==> Live(Step(s, c))
    ensures (c.CallSetFee? ==> c.feeBps > 0) && s.feeBps > 0 ==> Step(s, c).feeBps > 0
  {
    match c
    case CallAdd(h, w, a, b, m) => AddKeeps(s, h, w, a, b, m);
    case CallRemove(h, w, x, m, n) => RemoveKeeps(s, h, w, x, m, n);
    case CallSwap(h, w, t, x, m) => SwapKeeps(s, h, w, t, x, m);
    case CallSetFee(a, w, f) =>
  }

  ghost function Run(s: State, calls: seq<Call>): (t: State)
    requires Inv(s)
    ensures Inv(t)
    decreases |calls|
  {
    if calls == [] then s
    else
      StepKeeps(s, calls[0]);
      Run(Step(s, calls[0]), calls[1..])
  }

  /** In every run whose fee is never set to 0 the pool stays live. */
  lemma {:induction false} RunStaysLive(s: State, calls: seq<Call>)
    requires Inv(s) && Live(s) && s.feeBps > 0
    requires forall c :: c in calls && c.CallSetFee? ==> c.feeBps > 0
    ensures Live(Run(s, calls))
    decreases |calls|
  {
    if calls != [] {
      StepKeeps(s, calls[0]);
      RunStaysLive(Step(s, calls[0]), calls[1..]);
    }
  }

  /** At fee 0, a swap for which the solver returns y leaves y in the reserve. */
  lemma SwapLeavesY(s: State, trader: Address, amount: int, y: int)
    requires Inv(s) && s.feeBps == 0 && s.reserveA > 0 && s.reserveB > 0 && amount > 0
    requires YNewton(s.reserveA, amount, s.reserveB, s.amp).value == y <= s.reserveB
    ensures var (t, r) := Swap(s, Host(true, true), trader, s.tokenA, amount, 0);
            r == Ok(s.reserveB - y) && t.reserveB == y
  {
    assert (s.reserveB - y) * (10000 - 0) / 10000 == s.reserveB - y;
  }

  /** The admin sets the fee to 0, and somebody deposits 1 and b. */
  function ZeroFeePool(admin: Address, who: Address, b: int): seq<Call>
  {
    [CallSetFee(true, admin, 0), CallAdd(Host(true, true), who, 1, b, 0)]
  }

  lemma ZeroFeeReached(admin: Address, tokenA: Address, tokenB: Address, who: Address, b: int)
    requires tokenA != tokenB && 1 <= b
    ensures Inv(Fresh(admin, tokenA, tokenB, 1))
    ensures var t := Run(Fresh(admin, tokenA, tokenB, 1), ZeroFeePool(admin, who, b));
            t.feeBps == 0 && t.amp == 1 && t.reserveA == 1 && t.reserveB == b && t.tokenA == tokenA && Live(t)
  {
    var s, calls := Fresh(admin, tokenA, tokenB, 1), ZeroFeePool(admin, who, b);
    var s1 := Step(s, calls[0]);
    StepKeeps(s, calls[0]);
    DNewtonRange(1, b, 1);
    assert calls[1..] == [calls[1]] && [calls[1]][1..] == [];
    StepKeeps(s1, calls[1]);
    assert Run(s1, [calls[1]]) == Run(Step(s1, calls[1]), []);
  }

  /** With the fee at 0 a swap can take the last token: in the pool (1, 1) so reached, input 2. */
  lemma ZeroFeeDrains(admin: Address, tokenA: Address, tokenB: Address, who: Address, trader: Address, s: State)
    requires tokenA != tokenB && Inv(Fresh(admin, tokenA, tokenB, 1))
    requires s == Run(Fresh(admin, tokenA, tokenB, 1), ZeroFeePool(admin, who, 1))
    ensures s.reserveA == 1 && s.reserveB == 1 && s.amp == 1
    ensures QuadraticOf(s, tokenA, 2) == Quadratic(0, 1)
    ensures var (t, r) := Swap(s, Host(true, true), trader, tokenA, 2, 0);
            r == Ok(1) && t.reserveB == 0
  {
    ZeroFeeReached(admin, tokenA, tokenB, who, 1);
    TinyDrain(s, trader, 2);
  }

  lemma TinyDrain(s: State, trader: Address, amount: int)
    requires Inv(s) && s.amp == 1 && s.feeBps == 0 && s.reserveA == 1 && s.reserveB == 1 && amount == 2
    ensures QuadraticOf(s, s.tokenA, amount) == Quadratic(0, 1)
    ensures var (t, r) := Swap(s, Host(true, true), trader, s.tokenA, amount, 0);
            r == Ok(1) && t.reserveB == 0
  {
    TinyPoolSolvesToZero(s.reserveA, amount, s.reserveB, s.amp);
    DrainsAt(s, trader, amount, 0);
  }

  lemma DrainsAt(s: State, trader: Address, amount: int, y: int)
    requires Inv(s) && s.feeBps == 0 && s.reserveA > 0 && s.reserveB == 1 && amount > 0 && y == 0
    requires YNewton(s.reserveA, amount, s.reserveB, s.amp).value == y
    ensures Swap(s, Host(true, true), trader, s.tokenA, amount, 0).1 == Ok(1)
    ensures Swap(s, Host(true, true), trader, s.tokenA, amount, 0).0.reserveB == 0
  {
    SwapLeavesY(s, trader, amount, y);
  }

  /** At c == g == 0 either happens: the pool (1, 1) so reached is emptied by input 1, the pool
      (1, 2) keeps one token after input 2. */
  lemma BoundaryGoesBothWays(admin: Address, tokenA: Address, tokenB: Address, who: Address, trader: Address, b: int, s: State)
    requires tokenA != tokenB && 1 <= b <= 2 && Inv(Fresh(admin, tokenA, tokenB, 1))
    requires s == Run(Fresh(admin, tokenA, tokenB, 1), ZeroFeePool(admin, who, b))
    ensures s.reserveA == 1 && s.reserveB == b && s.amp == 1
    ensures QuadraticOf(s, tokenA, b) == Quadratic(0, 0)
    ensures Swap(s, Host(true, true), trader, tokenA, b, 0).0.reserveB == b - 1
  {
    ZeroFeeReached(admin, tokenA, tokenB, who, b);
    BoundarySwap(s, trader, b);
  }

  lemma BoundarySwap(s: State, trader: Address, amount: int)
    requires Inv(s) && s.amp == 1 && s.feeBps == 0 && s.reserveA == 1 && 1 <= s.reserveB <= 2 && amount == s.reserveB
    ensures QuadraticOf(s, s.tokenA, amount) == Quadratic(0, 0)
    ensures Swap(s, Host(true, true), trader, s.tokenA, amount, 0).0.reserveB == s.reserveB - 1
  {
    BoundaryQuadratic(s.reserveA, amount, s.reserveB, s.amp);
    BoundaryPools(s.reserveA, amount, s.reserveB, s.amp);
    SwapLeavesY(s, trader, amount, s.reserveB - 1);
  }

  /** The first deposit of equal amounts mints exactly their sum, and redeeming it returns
      exactly the deposit. */
  lemma EqualFirstDeposit(s: State, provider: Address, a: int)
    requires Inv(s) && s.totalShares == 0 && a > 0
    ensures var (t, r) := AddLiquidity(s, Host(true, true), provider, a, a, 0);
            && r == Ok(2 * a)
            && RemoveLiquidity(t, Host(true, true), provider, 2 * a, 0, 0).1 == Ok((a, a))
  {
    EqualReserves(a, s.amp);
    EntryAtMostTotal(s.lp, provider);
    RedeemBound(2 * a, a, 2 * a);
  }

  /** A first deposit whose first amount is at most three times the second mints the true
      invariant of the deposited amounts, rounded down, or one share more. */
  lemma FirstDepositMints(s: State, provider: Address, a: int, b: int, t: int)
    requires Inv(s) && s.totalShares == 0 && 0 < a <= 3 * b && a + b <= U128_MAX && IsInvariant(a, b, 4 * s.amp, t)
    ensures var r := AddLiquidity(s, Host(true, true), provider, a, b, 0).1;
            r.Ok? && CloseTo(a, b, t, r.value)
  {
    DNewtonRange(a, b, s.amp);
    Converges(a, b, s.amp, t);
  }

  /** What a successful swap does: it pays what is left of reserve - y after the fee, rounded
      down, and moves nothing but the two reserves by the input and the payment. */
  lemma SwapEffect(s: State, host: Host, trader: Address, tokenIn: Address, amount: int, minOut: int)
    requires Inv(s) && Swap(s, host, trader, tokenIn, amount, minOut).1.Ok?
    ensures var (t, r) := Swap(s, host, trader, tokenIn, amount, minOut);
            var gross := ReserveOut(s, tokenIn) - YNewton(ReserveIn(s, tokenIn), amount, ReserveOut(s, tokenIn), s.amp).value;
            && 0 <= gross && 10000 * r.value <= gross * (10000 - s.feeBps) < 10000 * (r.value + 1) && minOut <= r.value
            && ReserveIn(t, tokenIn) == ReserveIn(s, tokenIn) + amount
            && ReserveOut(t, tokenIn) == ReserveOut(s, tokenIn) - r.value
            && t.lp == s.lp && t.totalShares == s.totalShares
  {
    var y := YNewton(ReserveIn(s, tokenIn), amount, ReserveOut(s, tokenIn), s.amp).value;
    FloorDiv((ReserveOut(s, tokenIn) - y) * (10000 - s.feeBps), 10000);
  }

  /** No funded swap ever aborts on reserve_out - y, whether or not compute_d converged. */
  lemma FundedSwapPays(s: State, trader: Address, tokenIn: Address, amount: int)
    requires Inv(s) && (tokenIn == s.tokenA || tokenIn == s.tokenB) && amount > 0
    requires ReserveIn(s, tokenIn) > 0 && ReserveOut(s, tokenIn) > 0
    requires ReservesFit(s) && StartFits(s, tokenIn, amount)
    ensures Swap(s, Host(true, true), trader, tokenIn, amount, 0).1.Ok?
  {
    var rin, rout := ReserveIn(s, tokenIn), ReserveOut(s, tokenIn);
    NoOvershoot(rin, amount, rout, s.amp);
    NetOut(rout - YNewton(rin, amount, rout, s.amp).value, s.feeBps);
  }

  /** No funded deposit of positive amounts into a live pool ever aborts on d1 - d0. */
  lemma FundedDepositMints(s: State, provider: Address, a: int, b: int)
    requires Inv(s) && Live(s) && s.totalShares > 0 && a > 0 && b > 0 && ReservesFit(s)
    ensures AddLiquidity(s, Host(true, true), provider, a, b, 0).1.Ok?
  {
    GrowthBound(s, a, b, DNewton(s.reserveA, s.reserveB, s.amp).value,
                DNewton(s.reserveA + a, s.reserveB + b, s.amp).value);
  }

  lemma NetMono(gross: int, gross': int, feeBps: int)
    requires gross <= gross' + 1 && 0 <= feeBps <= 10000
    ensures gross * (10000 - feeBps) / 10000 <= gross' * (10000 - feeBps) / 10000 + 1
  {
    var k := 10000 - feeBps;
    MulMono(gross, gross' + 1, k);
    assert (gross' + 1) * k == gross' * k + k;
  }

  /** A larger input pays at most one unit less than a smaller one. */
  lemma MoreInPaysNoLess(s: State, trader: Address, tokenIn: Address, amount: int, more: int)
    requires Inv(s) && 0 < amount <= more
    requires Swap(s, Host(true, true), trader, tokenIn, amount, 0).1.Ok?
    requires Swap(s, Host(true, true), trader, tokenIn, more, 0).1.Ok?
    requires StartFits(s, tokenIn, amount)
    ensures Swap(s, Host(true, true), trader, tokenIn, amount, 0).1.value
            <= Swap(s, Host(true, true), trader, tokenIn, more, 0).1.value + 1
  {
    var rin, rout := ReserveIn(s, tokenIn), ReserveOut(s, tokenIn);
    YNewtonMono(rin, amount, more, rout, s.amp);
    NetMono(rout - YNewton(rin, amount, rout, s.amp).value, rout - YNewton(rin, more, rout, s.amp).value, s.feeBps);
  }

  // ---------------------------------------------------------------- what each call does

  /** Whether a deposit of a and b is worth x shares: a first one its D, a later one the growth of D. */
  predicate Worth(s: State, a: int, b: int, x: int)
    requires s.amp >= 1 && a > 0 && b > 0 && (s.totalShares != 0 ==> s.reserveA > 0 && s.reserveB > 0)
  {
    if s.totalShares == 0 then x <= DNewton(a, b, s.amp).value
    else
      (s.totalShares + x) * DNewton(s.reserveA, s.reserveB, s.amp).value
      <= s.totalShares * DNewton(s.reserveA + a, s.reserveB + b, s.amp).value
  }

  /** A floored growth of d0 to d1 in t-ths, told without the division. */
  lemma GrowthIff(d0: int, d1: int, t: int, x: int)
    requires 0 < d0
    ensures x <= (d1 - d0) * t / d0 <==> (t + x) * d0 <= t * d1
  {
    FloorIff(x, (d1 - d0) * t, d0);
    assert (t + x) * d0 == t * d0 + x * d0;
    assert (d1 - d0) * t == t * d1 - t * d0;
  }

  lemma GrowthWorth(s: State, a: int, b: int, x: int)
    requires Inv(s) && s.totalShares != 0 && s.reserveA > 0 && s.reserveB > 0 && a > 0 && b > 0
    requires GrowthShares(s, a, b).Some?
    ensures x <= GrowthShares(s, a, b).value <==> Worth(s, a, b, x)
  {
    var d0, d1 := DNewton(s.reserveA, s.reserveB, s.amp).value, DNewton(s.reserveA + a, s.reserveB + b, s.amp).value;
    DNewtonRange(s.reserveA, s.reserveB, s.amp);
    GrowthIff(d0, d1, s.totalShares, x);
  }

  /** A deposit goes through exactly when it is authorised, funded, positive and worth the limit.
      It mints the largest number of shares it is worth, all of them to the depositor, and adds
      exactly the deposit to the reserves. */
  lemma AddOutcome(s: State, host: Host, provider: Address, a: int, b: int, minShares: int, x: int)
    requires Inv(s) && Live(s) && ReservesFit(s)
    ensures var (t, r) := AddLiquidity(s, host, provider, a, b, minShares);
            && (r.Ok? <==> host.auth && host.funded && a > 0 && b > 0 && Worth(s, a, b, minShares))
            && (r == Err(ZeroAmount) <==> host.auth && (a <= 0 || b <= 0))
            && (r == Err(SlippageExceeded) <==> host.auth && a > 0 && b > 0 && !Worth(s, a, b, minShares))
            && (!r.Ok? ==> t == s)
            && (r.Ok? ==>
                  && (x <= r.value <==> Worth(s, a, b, x))
                  && t == s.(reserveA := s.reserveA + a, reserveB := s.reserveB + b,
                             totalShares := s.totalShares + r.value, lp := t.lp)
                  && Moved(s.lp, t.lp, provider, r.value))
  {
    if a > 0 && b > 0 {
      if s.totalShares != 0 {
        GrowthBound(s, a, b, DNewton(s.reserveA, s.reserveB, s.amp).value,
                    DNewton(s.reserveA + a, s.reserveB + b, s.amp).value);
        GrowthWorth(s, a, b, minShares);
        GrowthWorth(s, a, b, x);
      }
    }
  }

  /** A redemption goes through exactly when it is authorised, positive, within the provider's
      balance, and its part of both reserves meets the limits. It pays the largest amounts within
      that part, and takes exactly them and the shares. */
  lemma RemoveOutcome(s: State, host: Host, provider: Address, shares: int, minA: int, minB: int, x: int)
    requires Inv(s)
    ensures var (t, r) := RemoveLiquidity(s, host, provider, shares, minA, minB);
            && (r.Ok? <==> && host.auth && 0 < shares <= Get(s.lp, provider)
                           && minA * s.totalShares <= shares * s.reserveA && minB * s.totalShares <= shares * s.reserveB)
            && (r == Err(ZeroAmount) <==> host.auth && shares <= 0)
            && (r == Err(InsufficientLpShares) <==> host.auth && shares > 0 && Get(s.lp, provider) < shares)
            && (!r.Ok? ==> t == s)
            && (r.Ok? ==>
                  && (x <= r.value.0 <==> x * s.totalShares <= shares * s.reserveA)
                  && (x <= r.value.1 <==> x * s.totalShares <= shares * s.reserveB)
                  && t == s.(reserveA := s.reserveA - r.value.0, reserveB := s.reserveB - r.value.1,
                             totalShares := s.totalShares - shares, lp := t.lp)
                  && Moved(s.lp, t.lp, provider, -shares))
  {
    EntryAtMostTotal(s.lp, provider);
    if 0 < shares <= Get(s.lp, provider) {
      RedeemLargest(shares, s.reserveA, s.totalShares, minA);
      RedeemLargest(shares, s.reserveB, s.totalShares, minB);
      RedeemLargest(shares, s.reserveA, s.totalShares, x);
      RedeemLargest(shares, s.reserveB, s.totalShares, x);
    }
  }

  /** y is a reserve, within the present one, that the curve of the old D calls for at the new input
      reserve. */
  predicate OnCurve(s: State, tokenIn: Address, amount: int, y: int)
    requires s.amp >= 1 && ReserveIn(s, tokenIn) > 0 && ReserveOut(s, tokenIn) > 0
  {
    var d := DNewton(ReserveIn(s, tokenIn), ReserveOut(s, tokenIn), s.amp).value;
    && 0 <= y <= ReserveOut(s, tokenIn)
    && Enough(d, 4 * s.amp, ReserveIn(s, tokenIn) + amount, y)
    && NotTooMuch(d, 4 * s.amp, ReserveIn(s, tokenIn) + amount, y)
  }

  lemma SolvedOnCurve(s: State, tokenIn: Address, amount: int) returns (y: int)
    requires Inv(s) && ReservesFit(s) && amount > 0
    requires ReserveIn(s, tokenIn) > 0 && ReserveOut(s, tokenIn) > 0 && StartFits(s, tokenIn, amount)
    ensures y == YNewton(ReserveIn(s, tokenIn), amount, ReserveOut(s, tokenIn), s.amp).value
    ensures OnCurve(s, tokenIn, amount, y)
  {
    var rin, rout := ReserveIn(s, tokenIn), ReserveOut(s, tokenIn);
    y := YNewton(rin, amount, rout, s.amp).value;
    NoOvershoot(rin, amount, rout, s.amp);
    YOnCurve(rin, amount, rout, s.amp);
    YNewtonIsSettled(rin, amount, rout, s.amp);
  }

  /** A swap, told by such a y: it goes through
      exactly when it is authorised, funded and what is left after the fee meets the limit; it
      pays the largest whole amount of that, and moves nothing but the two reserves. */
  lemma SwapOutcome(s: State, host: Host, trader: Address, tokenIn: Address, amount: int, minOut: int, x: int)
    returns (y: int)
    requires Inv(s) && ReservesFit(s) && amount > 0 && (tokenIn == s.tokenA || tokenIn == s.tokenB)
    requires ReserveIn(s, tokenIn) > 0 && ReserveOut(s, tokenIn) > 0 && StartFits(s, tokenIn, amount)
    ensures OnCurve(s, tokenIn, amount, y)
    ensures var (t, r) := Swap(s, host, trader, tokenIn, amount, minOut);
            var left := (ReserveOut(s, tokenIn) - y) * (10000 - s.feeBps);
            && (r.Ok? <==> host.auth && host.funded && minOut * 10000 <= left)
            && (r == Err(SlippageExceeded) <==> host.auth && left < minOut * 10000)
            && (!r.Ok? ==> t == s)
            && (r.Ok? ==>
                  && (x <= r.value <==> x * 10000 <= left)
                  && ReserveIn(t, tokenIn) == ReserveIn(s, tokenIn) + amount
                  && ReserveOut(t, tokenIn) == ReserveOut(s, tokenIn) - r.value
                  && t == s.(reserveA := t.reserveA, reserveB := t.reserveB))
  {
    var rout := ReserveOut(s, tokenIn);
    y := SolvedOnCurve(s, tokenIn, amount);
    FloorIff(minOut, (rout - y) * (10000 - s.feeBps), 10000);
    FloorIff(x, (rout - y) * (10000 - s.feeBps), 10000);
  }

  /** `paid` is what such a y leaves after the fee, rounded down. */
  ghost predicate Priced(s: State, tokenIn: Address, amount: int, paid: int)
    requires s.amp >= 1 && ReserveIn(s, tokenIn) > 0 && ReserveOut(s, tokenIn) > 0
  {
    exists y :: OnCurve(s, tokenIn, amount, y)
                && paid * 10000 <= (ReserveOut(s, tokenIn) - y) * (10000 - s.feeBps) < (paid + 1) * 10000
  }

  /** The values that the code has to form for a swap are u128 values. */
  predicate SwapFits(s: State, tokenIn: Address, amount: int)
  {
    ReservesFit(s)
    && (s.amp >= 1 && ReserveIn(s, tokenIn) > 0 && ReserveOut(s, tokenIn) > 0 && amount > 0 ==> StartFits(s, tokenIn, amount))
  }

  lemma SwapPriced(s: State, host: Host, trader: Address, tokenIn: Address, amount: int, minOut: int)
    requires Inv(s) && SwapFits(s, tokenIn, amount) && Swap(s, host, trader, tokenIn, amount, minOut).1.Ok?
    ensures ReserveIn(s, tokenIn) > 0 && ReserveOut(s, tokenIn) > 0
    ensures Priced(s, tokenIn, amount, Swap(s, host, trader, tokenIn, amount, minOut).1.value)
  {
    var y := SolvedOnCurve(s, tokenIn, amount);
    hide Inv, OnCurve, StartFits;
    FloorDiv((ReserveOut(s, tokenIn) - y) * (10000 - s.feeBps), 10000);
  }

  lemma PositiveFactor(x: int, k: int)
    requires 0 < x * k && 0 <= k
    ensures 0 < x
  {}

  lemma FeeTakesAUnit(gross: int, feeBps: int)
    requires 0 < feeBps <= 10000 && 0 < gross * (10000 - feeBps) / 10000
    ensures gross * (10000 - feeBps) / 10000 < gross
  {
    var k := 10000 - feeBps;
    FloorDiv(gross * k, 10000);
    PositiveFactor(gross, k);
    MulPos(gross, feeBps);
    assert gross * k == gross * 10000 - gross * feeBps;
  }

  /** A swap that pays something at a positive fee lowers D, computed with the reserves in either
      order, by at most one, as long as D is not above 2 (4 amp - 1) times what is left of the
      paying reserve: at least a sixth of D, and far less at a large amplification. */
  lemma SwapKeepsInvariant(s: State, host: Host, trader: Address, tokenIn: Address, amount: int, minOut: int)
    requires Inv(s) && s.feeBps > 0 && Swap(s, host, trader, tokenIn, amount, minOut).1.Ok?
    requires Swap(s, host, trader, tokenIn, amount, minOut).1.value > 0
    ensures ReserveIn(s, tokenIn) > 0 && ReserveOut(s, tokenIn) > 0
    ensures var t := Swap(s, host, trader, tokenIn, amount, minOut).0;
            var d := DNewton(ReserveIn(s, tokenIn), ReserveOut(s, tokenIn), s.amp).value;
            && ReserveIn(t, tokenIn) > 0 && ReserveOut(t, tokenIn) > 0
            && (d <= 2 * ReserveOut(t, tokenIn) * (4 * s.amp - 1) ==>
                  && d - 1 <= DNewton(ReserveIn(t, tokenIn), ReserveOut(t, tokenIn), s.amp).value
                  && d - 1 <= DNewton(ReserveOut(t, tokenIn), ReserveIn(t, tokenIn), s.amp).value)
  {
    var t := Swap(s, host, trader, tokenIn, amount, minOut).0;
    var rin, rout := ReserveIn(s, tokenIn), ReserveOut(s, tokenIn);
    var x, z, y := ReserveIn(t, tokenIn), ReserveOut(t, tokenIn), YNewton(rin, amount, rout, s.amp).value;
    var d := DNewton(rin, rout, s.amp).value;
    FeeTakesAUnit(rout - y, s.feeBps);
    YOnCurve(rin, amount, rout, s.amp);
    YNonNegative(rin, amount, rout, s.amp);
    DNewtonBounds(rin, rout, s.amp);
    DNewtonBounds(x, z, s.amp);
    DNewtonBounds(z, x, s.amp);
    if d <= 2 * z * (4 * s.amp - 1) {
      ExcessSymmetric(x, z, 4 * s.amp, DNewton(z, x, s.amp).value + 1);
      InvariantAtNew(d, 4 * s.amp, x, y, z, DNewton(x, z, s.amp).value);
      InvariantAtNew(d, 4 * s.amp, x, y, z, DNewton(z, x, s.amp).value);
    }
  }

  lemma ExcessSymmetric(a: int, b: int, ann: int, w: int)
    ensures DExcess(a, b, ann, w) == DExcess(b, a, ann, w)
  {
    assert Prod(a, b) == Prod(b, a);
  }

  lemma YNonNegative(rin: int, amount: int, rout: int, amp: int)
    requires rin > 0 && amount >= 0 && rout > 0 && 1 <= amp
    ensures 0 <= YNewton(rin, amount, rout, amp).value
  {}

  /** The checks before the solver. */
  lemma SwapRefused(s: State, host: Host, trader: Address, tokenIn: Address, amount: int, minOut: int)
    requires Inv(s) && Live(s)
    ensures var (t, r) := Swap(s, host, trader, tokenIn, amount, minOut);
            && (r == Err(ZeroAmount) <==> host.auth && amount <= 0)
            && (r == Err(InvalidFee) <==> host.auth && amount > 0 && tokenIn != s.tokenA && tokenIn != s.tokenB)
            && (r == Err(InsufficientLiquidity)
                <==> host.auth && amount > 0 && (tokenIn == s.tokenA || tokenIn == s.tokenB) && s.totalShares == 0)
  {}
}
