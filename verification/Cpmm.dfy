/** The constant-product pool contract: its storage and calls as values, and what every run keeps. */
module Cpmm {
  import opened Arithmetic
  import opened CpmmMath
  import opened Outcomes
  import opened PoolShares
  import opened Totals

  datatype PoolError =
    | InsufficientLiquidity | SlippageExceeded | ZeroAmount | InvalidFee | InsufficientLpShares

  /** What the host decides about a call: whether the caller authorised it, and whether the
      caller's inbound token transfers go through. */
  datatype Host = Host(auth: bool, funded: bool)

  datatype Event =
    | AddLiq(who: Address, amountA: int, amountB: int, shares: int, tokenA: Address, tokenB: Address,
             reserveA: int, reserveB: int, totalShares: int)
    | RmLiq(who: Address, amountA: int, amountB: int, shares: int, tokenA: Address, tokenB: Address,
            reserveA: int, reserveB: int, totalShares: int)
    | Swapped(who: Address, amountIn: int, amountOut: int, tokenIn: Address, tokenOut: Address,
              reserveA: int, reserveB: int, feeBps: int, totalShares: int, tokenA: Address, tokenB: Address)

  /** Contract storage plus the log of published events. */
  datatype State = State(
    tokenA: Address, tokenB: Address, feeBps: int,
    reserveA: int, reserveB: int, totalShares: int, lp: Balances, events: seq<Event>)

  function AddLiquidity(s: State, host: Host, provider: Address, a: int, b: int, minShares: int)
    : (State, Result<int, PoolError>)
  {
    if !host.auth then (s, Panic)
    else if a <= 0 || b <= 0 then (s, Err(ZeroAmount))
    else if s.totalShares != 0 && (s.reserveA == 0 || s.reserveB == 0) then (s, Panic)
    else
      MulPos(a, b);
      var shares := MintShares(s.reserveA, s.reserveB, s.totalShares, a, b);
      if shares < minShares then (s, Err(SlippageExceeded))
      else if !host.funded then (s, Panic)
      else
        var ra, rb, ts := s.reserveA + a, s.reserveB + b, s.totalShares + shares;
        (s.(reserveA := ra, reserveB := rb, totalShares := ts,
            lp := s.lp[provider := Get(s.lp, provider) + shares],
            events := s.events + [AddLiq(provider, a, b, shares, s.tokenA, s.tokenB, ra, rb, ts)]),
         Ok(shares))
  }

  function RemoveLiquidity(s: State, host: Host, provider: Address, shares: int, minA: int, minB: int)
    : (State, Result<(int, int), PoolError>)
  {
    if !host.auth then (s, Panic)
    else if shares <= 0 then (s, Err(ZeroAmount))
    else if Get(s.lp, provider) < shares then (s, Err(InsufficientLpShares))
    else if s.totalShares == 0 then (s, Err(InsufficientLiquidity))
    else
      var a := Redeem(shares, s.reserveA, s.totalShares);
      var b := Redeem(shares, s.reserveB, s.totalShares);
      if a < minA || b < minB then (s, Err(SlippageExceeded))
      else
        var ra, rb, ts := s.reserveA - a, s.reserveB - b, s.totalShares - shares;
        (s.(reserveA := ra, reserveB := rb, totalShares := ts,
            lp := s.lp[provider := Get(s.lp, provider) - shares],
            events := s.events + [RmLiq(provider, a, b, shares, s.tokenA, s.tokenB, ra, rb, ts)]),
         Ok((a, b)))
  }

  function ReserveIn(s: State, tokenIn: Address): int
  { if tokenIn == s.tokenA then s.reserveA else s.reserveB }

  function ReserveOut(s: State, tokenIn: Address): int
  { if tokenIn == s.tokenA then s.reserveB else s.reserveA }

  function Swap(s: State, host: Host, trader: Address, tokenIn: Address, amount: int, minOut: int)
    : (State, Result<int, PoolError>)
  {
    if !host.auth then (s, Panic)
    else if amount <= 0 then (s, Err(ZeroAmount))
    else if tokenIn != s.tokenA && tokenIn != s.tokenB then (s, Err(InvalidFee))
    else
      var rin, rout := ReserveIn(s, tokenIn), ReserveOut(s, tokenIn);
      if rin == 0 || rout == 0 then (s, Err(InsufficientLiquidity))
      else if rin + AfterFee(amount, s.feeBps) == 0 then (s, Panic)
      else
        var out := SwapOut(rin, rout, s.feeBps, amount);
        if out < minOut then (s, Err(SlippageExceeded))
        else if !host.funded then (s, Panic)
        else
          var toA := tokenIn != s.tokenA;
          var ra := if toA then rout - out else rin + amount;
          var rb := if toA then rin + amount else rout - out;
          var tokenOut := if toA then s.tokenA else s.tokenB;
          (s.(reserveA := ra, reserveB := rb,
              events := s.events + [Swapped(trader, amount, out, tokenIn, tokenOut, ra, rb, s.feeBps,
                                            s.totalShares, s.tokenA, s.tokenB)]),
           Ok(out))
  }

  /** The get_quote view. */
  function Quote(s: State, tokenIn: Address, amount: int): Result<int, PoolError>
  {
    if tokenIn != s.tokenA && tokenIn != s.tokenB then Err(InvalidFee)
    else
      var rin, rout := ReserveIn(s, tokenIn), ReserveOut(s, tokenIn);
      if rin == 0 || rout == 0 then Err(InsufficientLiquidity)
      else
        var fee := TruncDiv(amount * (10000 - s.feeBps), 10000);
        if rin + fee == 0 then Panic else Ok(TruncDiv(rout * fee, rin + fee))
  }

  // ---------------------------------------------------------------- runs

  datatype Call =
    | CallAdd(host: Host, who: Address, a: int, b: int, minShares: int)
    | CallRemove(host: Host, who: Address, shares: int, minA: int, minB: int)
    | CallSwap(host: Host, who: Address, tokenIn: Address, amount: int, minOut: int)

  function Step(s: State, c: Call): State
  {
    match c
    case CallAdd(h, w, a, b, m) => AddLiquidity(s, h, w, a, b, m).0
    case CallRemove(h, w, x, m, n) => RemoveLiquidity(s, h, w, x, m, n).0
    case CallSwap(h, w, t, x, m) => Swap(s, h, w, t, x, m).0
  }

  function Run(s: State, calls: seq<Call>): State
    decreases |calls|
  {
    if calls == [] then s else Run(Step(s, calls[0]), calls[1..])
  }

  /** A freshly initialised pool. */
  function Fresh(tokenA: Address, tokenB: Address, feeBps: int): State
  {
    State(tokenA, tokenB, feeBps, 0, 0, 0, map[], [])
  }

  ghost predicate Inv(s: State)
  {
    && s.tokenA != s.tokenB && 0 <= s.feeBps <= 1000
    && 0 <= s.reserveA && 0 <= s.reserveB && 0 <= s.totalShares
    && s.totalShares * s.totalShares <= s.reserveA * s.reserveB
    && (s.totalShares == 0 ==> s.reserveA == 0 && s.reserveB == 0)
    && NonNegative(s.lp) && s.totalShares == Total(s.lp)
  }

  lemma NothingFrom(x: int)
    ensures 0 * x == 0 && x * 0 == 0
  {}

  /** No shares exactly when the pool is empty, on either side. */
  lemma SharesIffReserves(s: State)
    requires Inv(s)
    ensures s.totalShares == 0 <==> s.reserveA == 0
    ensures s.totalShares == 0 <==> s.reserveB == 0
  {
    if s.totalShares > 0 {
      MulPos(s.totalShares, s.totalShares);
      if s.reserveA == 0 { NothingFrom(s.reserveB); }
      if s.reserveB == 0 { NothingFrom(s.reserveA); }
    }
  }

  lemma SquareOfRatio(t: int, t': int, ra: int, ra': int, rb: int, rb': int)
    requires 0 < t && 0 <= t' && 0 <= ra && 0 <= rb && 0 <= ra' && 0 <= rb'
    requires t' * ra <= t * ra' && t' * rb <= t * rb'
    ensures (t' * t') * (ra * rb) <= (t * t) * (ra' * rb')
  {
    MulNonNeg(t', ra);
    MulNonNeg(t', rb);
    MulNonNeg(t, rb');
    MulMono(t' * rb, t * rb', t' * ra);
    MulMono(t' * ra, t * ra', t * rb');
    assert (t' * ra) * (t' * rb) == (t' * t') * (ra * rb) by { Shuffle(t', ra, rb); }
    assert (t * ra') * (t * rb') == (t * t) * (ra' * rb') by { Shuffle(t, ra', rb'); }
  }

  lemma Shuffle(t: int, x: int, y: int)
    ensures (t * x) * (t * y) == (t * t) * (x * y)
  {
    assert (t * x) * (t * y) == t * (x * (t * y));
    assert x * (t * y) == t * (x * y);
  }

  /** If k/T^2 does not fall and T^2 <= k before, then T'^2 <= k' after. */
  lemma SquareBelow(t: int, k: int, t': int, k': int)
    requires 0 < t && t * t <= k && (t' * t') * k <= (t * t) * k'
    ensures t' * t' <= k'
  {
    MulPos(t, t);
    Square(t');
    MulMono(t * t, k, t' * t');
    assert (t' * t') * (t * t) <= (t * t) * k';
    MulCancelLe(t' * t', k', t * t);
  }

  /** What one share is worth, squared: k / T^2 does not fall from s to t. */
  ghost predicate WorthKept(s: State, t: State)
  {
    (t.totalShares * t.totalShares) * (s.reserveA * s.reserveB)
    <= (s.totalShares * s.totalShares) * (t.reserveA * t.reserveB)
  }

  lemma AddKeeps(s: State, host: Host, provider: Address, a: int, b: int, minShares: int)
    requires Inv(s)
    ensures var t := AddLiquidity(s, host, provider, a, b, minShares).0;
            Inv(t) && (s.totalShares > 0 ==> WorthKept(s, t))
  {
    var (t, r) := AddLiquidity(s, host, provider, a, b, minShares);
    if r.Ok? {
      SharesIffReserves(s);
      var shares := r.value;
      TotalUpdate(s.lp, provider, Get(s.lp, provider) + shares);
      if s.totalShares == 0 {
        MulPos(a, b);
        SquareLe(shares + 1, Max(shares + 1, 1));
      } else {
        MintBound(s.reserveA, s.reserveB, s.totalShares, a, b);
        MintKeepsRatio(s.reserveA, s.totalShares, a, shares);
        MintKeepsRatio(s.reserveB, s.totalShares, b, shares);
        SquareOfRatio(s.totalShares, t.totalShares, s.reserveA, t.reserveA, s.reserveB, t.reserveB);
        SquareBelow(s.totalShares, s.reserveA * s.reserveB, t.totalShares, t.reserveA * t.reserveB);
      }
    } else if s.totalShares > 0 {
      assert WorthKept(s, s);
    }
  }

  lemma RemoveKeeps(s: State, host: Host, provider: Address, shares: int, minA: int, minB: int)
    requires Inv(s)
    ensures var t := RemoveLiquidity(s, host, provider, shares, minA, minB).0;
            Inv(t) && WorthKept(s, t)
  {
    var (t, r) := RemoveLiquidity(s, host, provider, shares, minA, minB);
    if r.Ok? {
      EntryAtMostTotal(s.lp, provider);
      TotalUpdate(s.lp, provider, Get(s.lp, provider) - shares);
      RedeemBound(shares, s.reserveA, s.totalShares);
      RedeemBound(shares, s.reserveB, s.totalShares);
      SquareOfRatio(s.totalShares, t.totalShares, s.reserveA, t.reserveA, s.reserveB, t.reserveB);
      SquareBelow(s.totalShares, s.reserveA * s.reserveB, t.totalShares, t.reserveA * t.reserveB);
    }
  }

  lemma SwapKeeps(s: State, host: Host, trader: Address, tokenIn: Address, amount: int, minOut: int)
    requires Inv(s)
    ensures var t := Swap(s, host, trader, tokenIn, amount, minOut).0;
            && Inv(t) && t.totalShares == s.totalShares
            && s.reserveA * s.reserveB <= t.reserveA * t.reserveB
  {
    var (t, r) := Swap(s, host, trader, tokenIn, amount, minOut);
    if r.Ok? {
      var rin, rout := ReserveIn(s, tokenIn), ReserveOut(s, tokenIn);
      SwapOutBound(rin, rout, s.feeBps, amount);
      SwapKeepsProduct(rin, rout, s.feeBps, amount);
      SharesIffReserves(s);
    }
  }

  lemma StepKeeps(s: State, c: Call)
    requires Inv(s)
    ensures Inv(Step(s, c))
    ensures s.totalShares > 0 ==> WorthKept(s, Step(s, c))
  {
    match c
    case CallAdd(h, w, a, b, m) => AddKeeps(s, h, w, a, b, m);
    case CallRemove(h, w, x, m, n) => RemoveKeeps(s, h, w, x, m, n);
    case CallSwap(h, w, t, x, m) =>
      SwapKeeps(s, h, w, t, x, m);
      Square(s.totalShares);
      MulMono(s.reserveA * s.reserveB, Step(s, c).reserveA * Step(s, c).reserveB, s.totalShares * s.totalShares);
  }

  lemma FreshInv(tokenA: Address, tokenB: Address, feeBps: int)
    requires tokenA != tokenB && 0 <= feeBps <= 1000
    ensures Inv(Fresh(tokenA, tokenB, feeBps))
  {}

  /** Every reachable state: T^2 <= reserveA * reserveB, T is the sum of the LP balances, and
      T = 0 iff both reserves are 0. */
  lemma {:induction false} RunKeeps(s: State, calls: seq<Call>)
    requires Inv(s)
    ensures Inv(Run(s, calls))
    decreases |calls|
  {
    if calls != [] {
      StepKeeps(s, calls[0]);
      RunKeeps(Step(s, calls[0]), calls[1..]);
    }
  }

  /** Shares remain after every call of the run. */
  ghost predicate StaysOpen(s: State, calls: seq<Call>)
    decreases |calls|
  {
    s.totalShares > 0 && (calls != [] ==> StaysOpen(Step(s, calls[0]), calls[1..]))
  }

  lemma WorthKeptTrans(k1: int, t1: int, k2: int, t2: int, k3: int, t3: int)
    requires 0 < t2 && 0 <= t1 && 0 <= t3
    requires t2 * k1 <= t1 * k2 && t3 * k2 <= t2 * k3
    ensures t3 * k1 <= t1 * k3
  {
    MulMono(t2 * k1, t1 * k2, t3);
    MulMono(t3 * k2, t2 * k3, t1);
    assert (t2 * k1) * t3 == (t3 * k1) * t2;
    assert (t1 * k2) * t3 == (t3 * k2) * t1;
    assert (t2 * k3) * t1 == (t1 * k3) * t2;
    MulCancelLe(t3 * k1, t1 * k3, t2);
  }

  lemma WorthTrans(s: State, m: State, t: State)
    requires m.totalShares > 0 && WorthKept(s, m) && WorthKept(m, t)
    ensures WorthKept(s, t)
  {
    Square(s.totalShares);
    MulPos(m.totalShares, m.totalShares);
    Square(t.totalShares);
    WorthKeptTrans(s.reserveA * s.reserveB, s.totalShares * s.totalShares,
                   m.reserveA * m.reserveB, m.totalShares * m.totalShares,
                   t.reserveA * t.reserveB, t.totalShares * t.totalShares);
  }

  /** No run lowers what a share is worth while shares remain. */
  lemma {:induction false} RunKeepsWorth(s: State, calls: seq<Call>)
    requires Inv(s) && StaysOpen(s, calls)
    ensures WorthKept(s, Run(s, calls))
    decreases |calls|
  {
    if calls != [] {
      var m, t := Step(s, calls[0]), Run(s, calls);
      StepKeeps(s, calls[0]);
      RunKeepsWorth(m, calls[1..]);
      WorthTrans(s, m, t);
    }
  }

  lemma {:induction false} SwapsKeepProduct(s: State, calls: seq<Call>)
    requires Inv(s) && forall c :: c in calls ==> c.CallSwap?
    ensures Inv(Run(s, calls))
    ensures s.reserveA * s.reserveB <= Run(s, calls).reserveA * Run(s, calls).reserveB
    decreases |calls|
  {
    if calls != [] {
      var c := calls[0];
      SwapKeeps(s, c.host, c.who, c.tokenIn, c.amount, c.minOut);
      SwapsKeepProduct(Step(s, c), calls[1..]);
    }
  }

  /** No run of swaps, in any mix of directions, lets one reserve fall unless the other rises. */
  lemma SwapsNeverDrain(s: State, calls: seq<Call>)
    requires Inv(s) && forall c :: c in calls ==> c.CallSwap?
    ensures Run(s, calls).reserveA < s.reserveA ==> Run(s, calls).reserveB > s.reserveB
    ensures Run(s, calls).reserveB < s.reserveB ==> Run(s, calls).reserveA > s.reserveA
  {
    SwapsKeepProduct(s, calls);
    SharesIffReserves(s);
    OneSideRises(s, Run(s, calls));
  }

  lemma OneSideRises(s: State, t: State)
    requires 0 <= s.reserveA && 0 <= s.reserveB && 0 <= t.reserveA && 0 <= t.reserveB
    requires (s.reserveA == 0 <==> s.reserveB == 0) && s.reserveA * s.reserveB <= t.reserveA * t.reserveB
    ensures t.reserveA < s.reserveA ==> t.reserveB > s.reserveB
    ensures t.reserveB < s.reserveB ==> t.reserveA > s.reserveA
  {
    if t.reserveA < s.reserveA { ProductOrder(s.reserveA, s.reserveB, t.reserveA, t.reserveB); }
    if t.reserveB < s.reserveB { ProductOrder(s.reserveB, s.reserveA, t.reserveB, t.reserveA); }
  }

  lemma ProductOrder(x: int, y: int, x': int, y': int)
    requires 0 <= x && 0 <= y && 0 <= x' && 0 <= y' && (x == 0 <==> y == 0)
    requires x * y <= x' * y' && x' < x
    ensures y < y'
  {
    if y' <= y {
      MulMono(y', y, x');
      MulMono(x' + 1, x, y);
    }
  }

  /** A deposit followed at once by withdrawing the minted shares returns at most the
      deposit, and exactly the deposit when it was the first one. */
  lemma AddThenRemove(s: State, provider: Address, a: int, b: int, minShares: int)
    requires Inv(s)
    requires AddLiquidity(s, Host(true, true), provider, a, b, minShares).1.Ok?
    requires AddLiquidity(s, Host(true, true), provider, a, b, minShares).1.value > 0
    ensures var (t, r) := AddLiquidity(s, Host(true, true), provider, a, b, minShares);
            var q := RemoveLiquidity(t, Host(true, true), provider, r.value, 0, 0).1;
            && q.Ok? && 0 <= q.value.0 <= a && 0 <= q.value.1 <= b
            && (s.totalShares == 0 ==> q.value == (a, b))
  {
    var (t, r) := AddLiquidity(s, Host(true, true), provider, a, b, minShares);
    var shares := r.value;
    AddKeeps(s, Host(true, true), provider, a, b, minShares);
    EntryAtMostTotal(s.lp, provider);
    SharesIffReserves(s);
    if s.totalShares > 0 {
      MintBound(s.reserveA, s.reserveB, s.totalShares, a, b);
    }
    RedeemMinted(s.reserveA, s.totalShares, a, shares);
    RedeemMinted(s.reserveB, s.totalShares, b, shares);
    RedeemBound(shares, t.reserveA, t.totalShares);
    RedeemBound(shares, t.reserveB, t.totalShares);
  }

  lemma QuoteIsSwapOut(s: State, tokenIn: Address, amount: int)
    requires Inv(s) && amount > 0 && (tokenIn == s.tokenA || tokenIn == s.tokenB)
    requires ReserveIn(s, tokenIn) > 0 && ReserveOut(s, tokenIn) > 0
    ensures ReserveIn(s, tokenIn) + AfterFee(amount, s.feeBps) != 0
    ensures Quote(s, tokenIn, amount)
            == Ok(SwapOut(ReserveIn(s, tokenIn), ReserveOut(s, tokenIn), s.feeBps, amount))
  {
    AfterFeeBound(amount, s.feeBps);
    MulNonNeg(amount, 10000 - s.feeBps);
    MulNonNeg(ReserveOut(s, tokenIn), AfterFee(amount, s.feeBps));
  }

  /** get_quote predicts the swap: it goes through exactly when the caller authorised and
      funded a positive amount that the view quotes at no less than the limit. It then pays the
      quote: the paying reserve falls by it, the other rises by the input, and no share moves. */
  lemma SwapFollowsQuote(s: State, host: Host, trader: Address, tokenIn: Address, amount: int, minOut: int)
    requires Inv(s)
    ensures var (t, r) := Swap(s, host, trader, tokenIn, amount, minOut);
            var q := Quote(s, tokenIn, amount);
            && (r.Ok? <==> host.auth && host.funded && amount > 0 && q.Ok? && q.value >= minOut)
            && (r.Ok? ==> r.value == q.value && t.lp == s.lp && t.totalShares == s.totalShares
                          && ReserveIn(t, tokenIn) == ReserveIn(s, tokenIn) + amount
                          && ReserveOut(t, tokenIn) == ReserveOut(s, tokenIn) - q.value)
            && (!r.Ok? ==> t == s)
  {
    if amount > 0 && (tokenIn == s.tokenA || tokenIn == s.tokenB)
       && ReserveIn(s, tokenIn) > 0 && ReserveOut(s, tokenIn) > 0 {
      QuoteIsSwapOut(s, tokenIn, amount);
    }
  }

  // ---------------------------------------------------------------- splitting a trade

  /** What the successful swaps of a run took in and paid out. */
  function Flow(s: State, calls: seq<Call>): (int, int)
    decreases |calls|
  {
    if calls == [] then (0, 0)
    else
      var rest := Flow(Step(s, calls[0]), calls[1..]);
      match calls[0]
      case CallSwap(h, w, t, x, m) =>
        (match Swap(s, h, w, t, x, m).1
         case Ok(out) => (x + rest.0, out + rest.1)
         case _ => rest)
      case _ => rest
  }

  /** Any sequence of swaps in one direction, with whatever slippage limits, pays in total at
      most what one swap of the summed input pays from the starting state. */
  lemma {:induction false} SplittingNeverPays(s: State, tokenIn: Address, calls: seq<Call>)
    requires Inv(s) && s.totalShares > 0 && (tokenIn == s.tokenA || tokenIn == s.tokenB)
    requires forall c :: c in calls ==> c.CallSwap? && c.tokenIn == tokenIn
    ensures var (paidIn, paidOut) := Flow(s, calls);
            && 0 <= paidIn && AfterFee(paidIn, s.feeBps) >= 0
            && ReserveIn(s, tokenIn) > 0
            && paidOut <= SwapOut(ReserveIn(s, tokenIn), ReserveOut(s, tokenIn), s.feeBps, paidIn)
    decreases |calls|
  {
    SharesIffReserves(s);
    var rin, rout := ReserveIn(s, tokenIn), ReserveOut(s, tokenIn);
    if calls == [] {
      SwapOutBound(rin, rout, s.feeBps, 0);
    } else {
      var c := calls[0];
      SwapKeeps(s, c.host, c.who, c.tokenIn, c.amount, c.minOut);
      SplittingNeverPays(Step(s, c), tokenIn, calls[1..]);
      var rest := Flow(Step(s, c), calls[1..]);
      var (t, r) := Swap(s, c.host, c.who, tokenIn, c.amount, c.minOut);
      if r.Ok? {
        SplitSwap(rin, rout, s.feeBps, c.amount, rest.0);
      }
    }
  }

  // ---------------------------------------------------------------- what each call does

  /** Whether a deposit of a and b entitles to x shares: a first one by the product of the two
      amounts, a later one by its part of either reserve. */
  predicate Entitles(s: State, a: int, b: int, x: int)
  {
    if s.totalShares == 0 then x <= 0 || x * x <= a * b
    else x * s.reserveA <= a * s.totalShares && x * s.reserveB <= b * s.totalShares
  }

  lemma EntitledIff(s: State, a: int, b: int, x: int)
    requires Inv(s) && a > 0 && b > 0 && (s.totalShares != 0 ==> s.reserveA > 0 && s.reserveB > 0)
    ensures a * b >= 0
    ensures x <= MintShares(s.reserveA, s.reserveB, s.totalShares, a, b) <==> Entitles(s, a, b, x)
  {
    MulPos(a, b);
    if s.totalShares == 0 {
      RootIff(a * b, x);
    } else {
      MintLargest(s.reserveA, s.reserveB, s.totalShares, a, b, x);
    }
  }

  lemma RootIff(n: nat, x: int)
    ensures x <= Isqrt(n) <==> x <= 0 || x * x <= n
  {
    var r := Isqrt(n);
    if 0 < x <= r { SquareLe(x, r); }
    if r < x { SquareLe(r + 1, x); }
  }

  /** A deposit goes through exactly when it is authorised, funded, positive and entitles to the
      limit. It mints the largest number of shares it entitles to, all of them to the depositor,
      adds exactly the deposit to the reserves, and publishes just that. */
  lemma AddOutcome(s: State, host: Host, provider: Address, a: int, b: int, minShares: int, x: int)
    requires Inv(s)
    ensures var (t, r) := AddLiquidity(s, host, provider, a, b, minShares);
            && (r.Ok? <==> host.auth && host.funded && a > 0 && b > 0 && Entitles(s, a, b, minShares))
            && (r == Err(ZeroAmount) <==> host.auth && (a <= 0 || b <= 0))
            && (r == Err(SlippageExceeded) <==> host.auth && a > 0 && b > 0 && !Entitles(s, a, b, minShares))
            && (!r.Ok? ==> t == s)
            && (r.Ok? ==>
                  && (x <= r.value <==> Entitles(s, a, b, x))
                  && t == s.(reserveA := s.reserveA + a, reserveB := s.reserveB + b,
                             totalShares := s.totalShares + r.value, lp := t.lp,
                             events := s.events + [AddLiq(provider, a, b, r.value, s.tokenA, s.tokenB,
                                                          t.reserveA, t.reserveB, t.totalShares)])
                  && Moved(s.lp, t.lp, provider, r.value))
  {
    SharesIffReserves(s);
    if a > 0 && b > 0 {
      EntitledIff(s, a, b, minShares);
      EntitledIff(s, a, b, x);
    }
  }

  /** A redemption goes through exactly when it is authorised, positive, within the provider's
      balance, and its part of both reserves meets the limits. It pays the largest amounts within
      that part, takes exactly them and the shares, and publishes just that. */
  lemma RemoveOutcome(s: State, host: Host, provider: Address, shares: int, minA: int, minB: int, x: int)
    requires Inv(s)
    ensures var (t, r) := RemoveLiquidity(s, host, provider, shares, minA, minB);
            var meets := minA * s.totalShares <= shares * s.reserveA && minB * s.totalShares <= shares * s.reserveB;
            && (r.Ok? <==> host.auth && 0 < shares <= Get(s.lp, provider) && meets)
            && (r == Err(ZeroAmount) <==> host.auth && shares <= 0)
            && (r == Err(InsufficientLpShares) <==> host.auth && shares > 0 && Get(s.lp, provider) < shares)
            && (r == Err(SlippageExceeded) <==> host.auth && 0 < shares <= Get(s.lp, provider) && !meets)
            && (!r.Ok? ==> t == s)
            && (r.Ok? ==>
                  && (x <= r.value.0 <==> x * s.totalShares <= shares * s.reserveA)
                  && (x <= r.value.1 <==> x * s.totalShares <= shares * s.reserveB)
                  && t == s.(reserveA := s.reserveA - r.value.0, reserveB := s.reserveB - r.value.1,
                             totalShares := s.totalShares - shares, lp := t.lp,
                             events := s.events + [RmLiq(provider, r.value.0, r.value.1, shares, s.tokenA, s.tokenB,
                                                         t.reserveA, t.reserveB, t.totalShares)])
                  && Moved(s.lp, t.lp, provider, -shares))
  {
    EntryAtMostTotal(s.lp, provider);
    if 0 < shares <= Get(s.lp, provider) {
      RedeemLargest(shares, s.reserveA, s.totalShares, minA);
      RedeemLargest(shares, s.reserveB, s.totalShares, minB);
      RedeemLargest(shares, s.reserveA, s.totalShares, x);
      RedeemLargest(shares, s.reserveB, s.totalShares, x);
    }
  }

  /** `paid` is the part of the reserve that the shares are of the total, rounded down. */
  predicate RedeemedFor(paid: int, shares: int, reserve: int, total: int)
  {
    paid * total <= shares * reserve < (paid + 1) * total
  }

  lemma RemovePays(s: State, host: Host, provider: Address, shares: int, minA: int, minB: int)
    requires Inv(s)
    ensures var (t, r) := RemoveLiquidity(s, host, provider, shares, minA, minB);
            r.Ok? ==> && RedeemedFor(r.value.0, shares, s.reserveA, s.totalShares)
                      && RedeemedFor(r.value.1, shares, s.reserveB, s.totalShares)
                      && Moved(s.lp, t.lp, provider, -shares)
  {
    var r := RemoveLiquidity(s, host, provider, shares, minA, minB).1;
    if r.Ok? {
      RemoveOutcome(s, host, provider, shares, minA, minB, 0);
      FloorBelow(shares * s.reserveA, s.totalShares);
      FloorBelow(shares * s.reserveB, s.totalShares);
      FloorDiv(shares * s.reserveA, s.totalShares);
      FloorDiv(shares * s.reserveB, s.totalShares);
    }
  }

  /** A swap, told by f, the whole part of the input that is left after the fee: it goes through
      exactly when it is authorised, funded, positive, names a token of a pool with shares, and
      f's part of the product meets the limit. It pays the largest amount within that part, moves
      nothing but the two reserves, and publishes just that. */
  lemma SwapOutcome(s: State, host: Host, trader: Address, tokenIn: Address, amount: int, minOut: int, f: int, x: int)
    requires Inv(s) && f * 10000 <= amount * (10000 - s.feeBps) < (f + 1) * 10000
    ensures var (t, r) := Swap(s, host, trader, tokenIn, amount, minOut);
            var named := tokenIn == s.tokenA || tokenIn == s.tokenB;
            var rin, rout := ReserveIn(s, tokenIn), ReserveOut(s, tokenIn);
            && (r.Ok? <==> && host.auth && host.funded && amount > 0 && named && s.totalShares > 0
                           && minOut * (rin + f) <= rout * f)
            && (r == Err(ZeroAmount) <==> host.auth && amount <= 0)
            && (r == Err(InvalidFee) <==> host.auth && amount > 0 && !named)
            && (r == Err(InsufficientLiquidity) <==> host.auth && amount > 0 && named && s.totalShares == 0)
            && (!r.Ok? ==> t == s)
            && (r.Ok? ==>
                  && (x <= r.value <==> x * (rin + f) <= rout * f)
                  && ReserveIn(t, tokenIn) == rin + amount && ReserveOut(t, tokenIn) == rout - r.value
                  && t == s.(reserveA := t.reserveA, reserveB := t.reserveB,
                             events := s.events + [Swapped(trader, amount, r.value, tokenIn,
                                                           if tokenIn == s.tokenA then s.tokenB else s.tokenA,
                                                           t.reserveA, t.reserveB, s.feeBps,
                                                           s.totalShares, s.tokenA, s.tokenB)]))
  {
    SharesIffReserves(s);
    if amount > 0 && s.totalShares > 0 && (tokenIn == s.tokenA || tokenIn == s.tokenB) {
      var rin, rout := ReserveIn(s, tokenIn), ReserveOut(s, tokenIn);
      FloorIff(f, amount * (10000 - s.feeBps), 10000);
      FloorAtMost(f, amount * (10000 - s.feeBps), 10000);
      AfterFeeBound(amount, s.feeBps);
      FloorIff(minOut, rout * f, rin + f);
      FloorIff(x, rout * f, rin + f);
    }
  }
}
