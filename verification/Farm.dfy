/** The liquidity-mining farm as values: a lazy reward accumulator with a floor when it
    accrues and another when it pays. Beside the contract's storage the state keeps the
    vault's token balance and the running totals the theorems speak of. */
module Farm {
  import opened Arithmetic
  import opened Outcomes
  import opened Totals

  const SCALE: int := 1_000_000

  datatype MiningError = NotAdmin | ZeroAmount | InsufficientStake | NoRewards

  datatype Stake = Stake(amount: int, debt: int)

  datatype Host = Host(auth: bool, funded: bool)

  /** rate, totalStaked, lastLedger, acc and stakes are contract storage. vault is the
      contract's balance of the token, which is both the staked and the reward token;
      funding is what outsiders sent it; paid, emitted and changes count rewards paid,
      rewards accrued, and successful stake and unstake calls. */
  datatype State = State(
    admin: Address, rate: int, totalStaked: int, lastLedger: int, acc: int, stakes: map<Address, Stake>,
    vault: int, funding: int, paid: int, emitted: int, changes: int)

  function StakeOf(s: State, u: Address): Stake { if u in s.stakes then s.stakes[u] else Stake(0, 0) }

  function Accrue(s: State, now: int): State
  {
    if s.totalStaked == 0 || now <= s.lastLedger then s
    else
      var reward := s.rate * (now - s.lastLedger);
      s.(acc := s.acc + reward * SCALE / s.totalStaked, lastLedger := now, emitted := s.emitted + reward)
  }

  /** Rewards of user u that the accumulator already covers. */
  function Pending(s: State, u: Address): int
  {
    StakeOf(s, u).amount * s.acc / SCALE - StakeOf(s, u).debt
  }

  /** Pays `reward` and sets u's stake to `amount`, settled at the current accumulator. */
  function Settle(s: State, u: Address, amount: int, reward: int): State
  {
    s.(stakes := s.stakes[u := Stake(amount, amount * s.acc / SCALE)],
       totalStaked := s.totalStaked - StakeOf(s, u).amount + amount,
       vault := s.vault - StakeOf(s, u).amount + amount - reward,
       paid := s.paid + reward)
  }

  function SetRate(s: State, now: int, auth: bool, admin: Address, rate: int): (State, Result<(), MiningError>)
  {
    if admin != s.admin then (s, Err(NotAdmin))
    else if !auth then (s, Panic)
    else if rate < 0 then (s, Err(ZeroAmount))
    else (Accrue(s, now).(rate := rate), Ok(()))
  }

  function StakeCall(s: State, now: int, host: Host, u: Address, amount: int): (State, Result<(), MiningError>)
  {
    if !host.auth then (s, Panic)
    else if amount <= 0 then (s, Err(ZeroAmount))
    else if !host.funded then (s, Panic)
    else
      var m := Accrue(s, now);
      var reward := Max(Pending(m, u), 0);
      if reward > 0 && m.vault + amount < reward then (s, Panic)
      else (Settle(m, u, StakeOf(m, u).amount + amount, reward).(changes := m.changes + 1), Ok(()))
  }

  function Unstake(s: State, now: int, auth: bool, u: Address, amount: int): (State, Result<int, MiningError>)
  {
    if !auth then (s, Panic)
    else if amount <= 0 then (s, Err(ZeroAmount))
    else
      var m := Accrue(s, now);
      if StakeOf(m, u).amount < amount then (s, Err(InsufficientStake))
      else
        var pending := Pending(m, u);
        if m.vault < amount + Max(pending, 0) then (s, Panic)
        else (Settle(m, u, StakeOf(m, u).amount - amount, Max(pending, 0)).(changes := m.changes + 1), Ok(pending))
  }

  function Claim(s: State, now: int, auth: bool, u: Address): (State, Result<int, MiningError>)
  {
    if !auth then (s, Panic)
    else
      var m := Accrue(s, now);
      var pending := Pending(m, u);
      if pending <= 0 then (s, Err(NoRewards))
      else if m.vault < pending then (s, Panic)
      else (Settle(m, u, StakeOf(m, u).amount, pending), Ok(pending))
  }

  /** The pending_rewards view. */
  function PendingView(s: State, now: int, u: Address): int
  {
    if StakeOf(s, u).amount == 0 then 0
    else
      var arp := if now > s.lastLedger && s.totalStaked > 0
                 then s.acc + s.rate * (now - s.lastLedger) * SCALE / s.totalStaked else s.acc;
      StakeOf(s, u).amount * arp / SCALE - StakeOf(s, u).debt
  }

  /** An outside transfer to the vault. */
  function Fund(s: State, amount: nat): State
  {
    s.(vault := s.vault + amount, funding := s.funding + amount)
  }

  // ---------------------------------------------------------------- runs

  datatype Call =
    | CallSetRate(now: nat, auth: bool, admin: Address, rate: int)
    | CallStake(now: nat, host: Host, who: Address, amount: int)
    | CallUnstake(now: nat, auth: bool, who: Address, amount: int)
    | CallClaim(now: nat, auth: bool, who: Address)
    | CallFund(sent: nat)

  function Step(s: State, c: Call): State
  {
    match c
    case CallSetRate(n, a, w, r) => SetRate(s, n, a, w, r).0
    case CallStake(n, h, w, x) => StakeCall(s, n, h, w, x).0
    case CallUnstake(n, a, w, x) => Unstake(s, n, a, w, x).0
    case CallClaim(n, a, w) => Claim(s, n, a, w).0
    case CallFund(x) => Fund(s, x)
  }

  function Run(s: State, calls: seq<Call>): State
    decreases |calls|
  {
    if calls == [] then s else Run(Step(s, calls[0]), calls[1..])
  }

  function Fresh(admin: Address, rate: int, now: int): State
  {
    State(admin, rate, 0, now, 0, map[], 0, 0, 0, 0, 0)
  }

  function Amounts(stakes: map<Address, Stake>): Balances { map u | u in stakes :: stakes[u].amount }

  function Debts(stakes: map<Address, Stake>): Balances { map u | u in stakes :: stakes[u].debt }

  /** What each user is owed, scaled by SCALE and before any floor. */
  function Owed(stakes: map<Address, Stake>, acc: int): Balances
  {
    map u | u in stakes :: stakes[u].amount * acc - SCALE * stakes[u].debt
  }

  ghost predicate StakeOk(k: Stake, acc: int) { 0 <= k.amount && 0 <= k.debt && SCALE * k.debt <= k.amount * acc }

  /** SCALE * paid plus everything owed, less SCALE * emitted. */
  ghost function Drift(s: State): int
  {
    SCALE * s.paid + s.acc * s.totalStaked - SCALE * Total(Debts(s.stakes)) - SCALE * s.emitted
  }

  ghost predicate Inv(s: State)
  {
    && 0 <= s.rate && 0 <= s.acc && 0 <= s.changes && 0 <= s.vault
    && (forall u :: u in s.stakes ==> StakeOk(s.stakes[u], s.acc))
    && s.totalStaked == Total(Amounts(s.stakes))
    && s.vault == s.funding + s.totalStaked - s.paid
    && Drift(s) <= (SCALE - 1) * s.changes
  }

  lemma TotalsUpdate(stakes: map<Address, Stake>, u: Address, k: Stake)
    ensures Total(Amounts(stakes[u := k])) == Total(Amounts(stakes)) - (if u in stakes then stakes[u].amount else 0) + k.amount
    ensures Total(Debts(stakes[u := k])) == Total(Debts(stakes)) - (if u in stakes then stakes[u].debt else 0) + k.debt
  {
    assert Amounts(stakes[u := k]) == Amounts(stakes)[u := k.amount];
    assert Debts(stakes[u := k]) == Debts(stakes)[u := k.debt];
    TotalUpdate(Amounts(stakes), u, k.amount);
    TotalUpdate(Debts(stakes), u, k.debt);
  }

  lemma OwedArithmetic(acc: int, x: int, k: int, amounts: int, debts: int, owed: int)
    requires owed == acc * amounts - SCALE * debts
    ensures x * acc - SCALE * k + owed == acc * (x + amounts) - SCALE * (k + debts)
  {}

  /** One user's part of the three sums. */
  lemma OwedSplit(stakes: map<Address, Stake>, acc: int, u: Address)
    requires u in stakes
    ensures Total(Owed(stakes, acc))
            == stakes[u].amount * acc - SCALE * stakes[u].debt + Total(Owed(stakes - {u}, acc))
    ensures Total(Amounts(stakes)) == stakes[u].amount + Total(Amounts(stakes - {u}))
    ensures Total(Debts(stakes)) == stakes[u].debt + Total(Debts(stakes - {u}))
  {
    var rest := stakes - {u};
    assert Owed(stakes, acc) - {u} == Owed(rest, acc);
    assert Amounts(stakes) - {u} == Amounts(rest);
    assert Debts(stakes) - {u} == Debts(rest);
    TotalRemove(Owed(stakes, acc), u);
    TotalRemove(Amounts(stakes), u);
    TotalRemove(Debts(stakes), u);
  }

  lemma {:induction false} OwedTotal(stakes: map<Address, Stake>, acc: int)
    ensures Total(Owed(stakes, acc)) == acc * Total(Amounts(stakes)) - SCALE * Total(Debts(stakes))
    decreases |stakes|
  {
    if stakes == map[] {
      assert Owed(stakes, acc) == map[] && Amounts(stakes) == map[] && Debts(stakes) == map[];
    } else {
      var u :| u in stakes;
      OwedTotal(stakes - {u}, acc);
      OwedSplit(stakes, acc, u);
      OwedArithmetic(acc, stakes[u].amount, stakes[u].debt, Total(Amounts(stakes - {u})), Total(Debts(stakes - {u})),
                     Total(Owed(stakes - {u}, acc)));
    }
  }

  lemma OwedNonNegative(s: State)
    requires Inv(s)
    ensures NonNegative(Owed(s.stakes, s.acc))
  {}

  lemma StakeGrows(k: Stake, acc: int, acc': int)
    requires StakeOk(k, acc) && acc <= acc'
    ensures StakeOk(k, acc')
  {
    MulMono(acc, acc', k.amount);
  }

  lemma TotalStakedNonNegative(s: State)
    requires Inv(s)
    ensures 0 <= s.totalStaked
  {
    assert NonNegative(Amounts(s.stakes));
    TotalNonNegative(Amounts(s.stakes));
  }

  /** Accruing never raises the drift: the floor in the accumulator loses, never gains. */
  lemma AccrueKeeps(s: State, now: int)
    requires Inv(s)
    ensures Inv(Accrue(s, now)) && s.acc <= Accrue(s, now).acc
    ensures Drift(s) - Max(s.totalStaked, 1) < Drift(Accrue(s, now)) <= Drift(s)
  {
    var t := Accrue(s, now);
    TotalStakedNonNegative(s);
    if s.totalStaked != 0 && now > s.lastLedger {
      var reward := s.rate * (now - s.lastLedger);
      var gain := reward * SCALE / s.totalStaked;
      MulNonNeg(s.rate, now - s.lastLedger);
      FloorDiv(reward * SCALE, s.totalStaked);
      FloorAtLeast(0, reward * SCALE, s.totalStaked);
      assert t.acc * s.totalStaked == s.acc * s.totalStaked + gain * s.totalStaked;
      forall u | u in t.stakes ensures StakeOk(t.stakes[u], t.acc) {
        StakeGrows(s.stakes[u], s.acc, t.acc);
      }
    }
  }

  lemma PendingNonNegative(s: State, u: Address)
    requires Inv(s)
    ensures 0 <= StakeOf(s, u).amount && 0 <= Pending(s, u)
  {
    var k := StakeOf(s, u);
    FloorAtLeast(k.debt, k.amount * s.acc, SCALE);
  }

  /** A settlement that leaves the stake alone leaves the drift alone; one that changes it
      moves it by at most SCALE - 1 either way. */
  lemma SettleDrift(s: State, u: Address, amount: int)
    requires Inv(s) && 0 <= amount
    requires s.vault - StakeOf(s, u).amount + amount >= Pending(s, u)
    ensures var t := Settle(s, u, amount, Pending(s, u));
            && Drift(s) - (SCALE - 1) <= Drift(t) <= Drift(s) + SCALE - 1
            && (amount == StakeOf(s, u).amount ==> Drift(t) == Drift(s))
            && (forall v :: v in t.stakes ==> StakeOk(t.stakes[v], t.acc))
            && t.totalStaked == Total(Amounts(t.stakes))
  {
    var k := StakeOf(s, u);
    var t := Settle(s, u, amount, Pending(s, u));
    var newDebt := amount * s.acc / SCALE;
    MulNonNeg(amount, s.acc);
    FloorAtLeast(0, amount * s.acc, SCALE);
    TotalsUpdate(s.stakes, u, Stake(amount, newDebt));
    SettleArithmetic(s.acc, s.totalStaked, k.amount, amount);
  }

  lemma SettleArithmetic(acc: int, total: int, before: int, after: int)
    ensures acc * (total - before + after) == acc * total - before * acc + after * acc
  {}

  lemma StakeKeeps(s: State, now: int, host: Host, u: Address, amount: int)
    requires Inv(s)
    ensures Inv(StakeCall(s, now, host, u, amount).0)
  {
    if StakeCall(s, now, host, u, amount).1.Ok? {
      AccrueKeeps(s, now);
      var m := Accrue(s, now);
      PendingNonNegative(m, u);
      SettleDrift(m, u, StakeOf(m, u).amount + amount);
    }
  }

  lemma UnstakeKeeps(s: State, now: int, auth: bool, u: Address, amount: int)
    requires Inv(s)
    ensures Inv(Unstake(s, now, auth, u, amount).0)
  {
    if Unstake(s, now, auth, u, amount).1.Ok? {
      AccrueKeeps(s, now);
      var m := Accrue(s, now);
      PendingNonNegative(m, u);
      SettleDrift(m, u, StakeOf(m, u).amount - amount);
    }
  }

  lemma ClaimKeeps(s: State, now: int, auth: bool, u: Address)
    requires Inv(s)
    ensures Inv(Claim(s, now, auth, u).0)
  {
    if Claim(s, now, auth, u).1.Ok? {
      AccrueKeeps(s, now);
      var m := Accrue(s, now);
      PendingNonNegative(m, u);
      SettleDrift(m, u, StakeOf(m, u).amount);
    }
  }

  lemma StepKeeps(s: State, c: Call)
    requires Inv(s)
    ensures Inv(Step(s, c))
  {
    match c
    case CallSetRate(n, a, w, r) => AccrueKeeps(s, n);
    case CallStake(n, h, w, x) => StakeKeeps(s, n, h, w, x);
    case CallUnstake(n, a, w, x) => UnstakeKeeps(s, n, a, w, x);
    case CallClaim(n, a, w) => ClaimKeeps(s, n, a, w);
    case CallFund(x) =>
  }

  lemma FreshInv(admin: Address, rate: int, now: int)
    requires 0 <= rate
    ensures Inv(Fresh(admin, rate, now))
  {
    assert Amounts(map[]) == map[] && Debts(map[]) == map[];
  }

  /** The amortised bound in every reachable state. */
  lemma {:induction false} RunKeeps(s: State, calls: seq<Call>)
    requires Inv(s)
    ensures Inv(Run(s, calls))
    decreases |calls|
  {
    if calls != [] {
      StepKeeps(s, calls[0]);
      RunKeeps(Step(s, calls[0]), calls[1..]);
    }
  }

  /** Over every run, total payout exceeds total emission by less than one unit per stake
      change (and not at all without one); the rewards a user could claim now fit in as well. */
  lemma PayoutBound(s: State, u: Address)
    requires Inv(s)
    ensures SCALE * (s.paid + Pending(s, u)) <= SCALE * s.emitted + (SCALE - 1) * s.changes
    ensures s.paid + Pending(s, u) <= s.emitted + s.changes
  {
    OwedTotal(s.stakes, s.acc);
    OwedNonNegative(s);
    EntryAtMostTotal(Owed(s.stakes, s.acc), u);
    FloorDiv(StakeOf(s, u).amount * s.acc, SCALE);
  }

  /** Total stake is at most `most` before every call of the run. */
  ghost predicate StakedAtMost(s: State, calls: seq<Call>, most: int)
    decreases |calls|
  {
    s.totalStaked <= most && (calls != [] ==> StakedAtMost(Step(s, calls[0]), calls[1..], most))
  }

  /** A settlement after an accrual loses less than the total stake plus one unit, in
      SCALE-ths of a unit. */
  lemma SettleLosesLittle(s: State, now: int, u: Address, amount: int)
    requires Inv(s) && 0 <= amount
    requires var m := Accrue(s, now); m.vault - StakeOf(m, u).amount + amount >= Pending(m, u)
    ensures var m := Accrue(s, now);
            Drift(s) - Max(s.totalStaked, 1) - SCALE < Drift(Settle(m, u, amount, Max(Pending(m, u), 0)))
  {
    AccrueKeeps(s, now);
    var m := Accrue(s, now);
    PendingNonNegative(m, u);
    SettleDrift(m, u, amount);
  }

  /** Neither the number of stake changes nor the rate is part of the drift. */
  lemma DriftIgnores(s: State, n: int, rate: int)
    ensures Drift(s.(changes := n)) == Drift(s) == Drift(s.(rate := rate))
  {}

  lemma DriftOfFunds(s: State, sent: nat)
    ensures Drift(Fund(s, sent)) == Drift(s)
  {}

  /** One call loses less than the total stake plus one unit. */
  lemma StepLosesLittle(s: State, c: Call)
    requires Inv(s)
    ensures Drift(s) - Max(s.totalStaked, 1) - SCALE < Drift(Step(s, c))
  {
    hide Inv, Drift, Pending;
    if c.CallFund? {
      DriftOfFunds(s, c.sent);
    } else if Step(s, c) != s {
      AccrueKeeps(s, c.now);
      var m := Accrue(s, c.now);
      if c.CallSetRate? {
        DriftIgnores(m, m.changes, c.rate);
      } else {
        PendingNonNegative(m, c.who);
        var amount := if c.CallStake? then StakeOf(m, c.who).amount + c.amount
                      else if c.CallUnstake? then StakeOf(m, c.who).amount - c.amount
                      else StakeOf(m, c.who).amount;
        SettleLosesLittle(s, c.now, c.who, amount);
        DriftIgnores(Settle(m, c.who, amount, Max(Pending(m, c.who), 0)), m.changes + 1, m.rate);
      }
    }
  }

  lemma LossAdds(d0: int, d1: int, d2: int, n: int, loss: int)
    requires 1 <= n && d0 - loss <= d1 && d1 - (n - 1) * loss <= d2
    ensures d0 - n * loss <= d2
  {
    assert n * loss == (n - 1) * loss + loss;
  }

  /** The other side of the bound: over any run, what was emitted and is neither paid nor owed
      is at most 1 + (largest total stake) / SCALE units per call. */
  lemma {:induction false} RunLosesLittle(s: State, calls: seq<Call>, most: int)
    requires Inv(s) && 1 <= most && StakedAtMost(s, calls, most)
    ensures Drift(s) - |calls| * (most + SCALE) <= Drift(Run(s, calls))
    decreases |calls|
  {
    if calls == [] {
    } else {
      var m := Step(s, calls[0]);
      StepLosesLittle(s, calls[0]);
      StepKeeps(s, calls[0]);
      RunLosesLittle(m, calls[1..], most);
      LossAdds(Drift(s), Drift(m), Drift(Run(s, calls)), |calls|, most + SCALE);
    }
  }

  /** A vault whose outside funding covers emission plus one unit per stake change can
      always return a stake together with its rewards. */
  lemma UnstakeCovered(s: State, now: int, u: Address, amount: int)
    requires Inv(s) && 0 < amount <= StakeOf(s, u).amount
    requires Accrue(s, now).emitted + s.changes <= s.funding
    ensures Unstake(s, now, true, u, amount).1 == Ok(Pending(Accrue(s, now), u))
  {
    AccrueKeeps(s, now);
    var m := Accrue(s, now);
    PendingNonNegative(m, u);
    PayoutBound(m, u);
    assert NonNegative(Amounts(m.stakes));
    EntryAtMostTotal(Amounts(m.stakes), u);
  }

  /** A call that never leaves the range [lo, hi] with the rate. */
  predicate RateWithin(c: Call, lo: int, hi: int) { c.CallSetRate? ==> lo <= c.rate <= hi }

  /** From s to t, emission lies between lo and hi per accrued ledger. */
  ghost predicate EmittedWithin(s: State, t: State, lo: int, hi: int)
  {
    && s.lastLedger <= t.lastLedger
    && lo * (t.lastLedger - s.lastLedger) <= t.emitted - s.emitted
    && t.emitted - s.emitted <= hi * (t.lastLedger - s.lastLedger)
  }

  lemma AccrueEmission(s: State, now: int, lo: int, hi: int)
    requires lo <= s.rate <= hi
    ensures EmittedWithin(s, Accrue(s, now), lo, hi)
  {
    var passed := Accrue(s, now).lastLedger - s.lastLedger;
    MulMono(lo, s.rate, passed);
    MulMono(s.rate, hi, passed);
  }

  lemma StepEmission(s: State, c: Call, lo: int, hi: int)
    requires lo <= s.rate <= hi && RateWithin(c, lo, hi)
    ensures lo <= Step(s, c).rate <= hi && EmittedWithin(s, Step(s, c), lo, hi)
  {
    if !c.CallFund? { AccrueEmission(s, c.now, lo, hi); }
  }

  lemma EmissionTrans(s: State, m: State, t: State, lo: int, hi: int)
    requires EmittedWithin(s, m, lo, hi) && EmittedWithin(m, t, lo, hi)
    ensures EmittedWithin(s, t, lo, hi)
  {
    var x, y := m.lastLedger - s.lastLedger, t.lastLedger - m.lastLedger;
    assert lo * (x + y) == lo * x + lo * y;
    assert hi * (x + y) == hi * x + hi * y;
  }

  /** Emission is the rate times the ledgers accrued, whatever the rates in between; with one
      rate (lo == hi) it is exact. */
  lemma {:induction false} RunEmission(s: State, calls: seq<Call>, lo: int, hi: int)
    requires lo <= s.rate <= hi && forall c :: c in calls ==> RateWithin(c, lo, hi)
    ensures lo <= Run(s, calls).rate <= hi && EmittedWithin(s, Run(s, calls), lo, hi)
    decreases |calls|
  {
    if calls == [] {
    } else {
      var c := calls[0];
      assert RateWithin(c, lo, hi);
      StepEmission(s, c, lo, hi);
      RunEmission(Step(s, c), calls[1..], lo, hi);
      EmissionTrans(s, Step(s, c), Run(s, calls), lo, hi);
    }
  }

  // ---------------------------------------------------------------- the view, and claiming often

  /** The view is never negative, and predicts the claim at the same ledger in every case. */
  lemma ViewPredictsClaim(s: State, now: int, u: Address)
    requires Inv(s)
    ensures var v := PendingView(s, now, u);
            && 0 <= v && v == Pending(Accrue(s, now), u)
            && (v == 0 <==> Claim(s, now, true, u).1 == Err(NoRewards))
            && (0 < v <= s.vault ==> Claim(s, now, true, u).1 == Ok(v))
            && (s.vault < v ==> Claim(s, now, true, u).1 == Panic)
  {
    AccrueKeeps(s, now);
    PendingNonNegative(Accrue(s, now), u);
    TotalStakedNonNegative(s);
    if StakeOf(s, u).amount == 0 {
      if u in s.stakes { assert StakeOk(s.stakes[u], s.acc); }
    }
  }

  /** A new rate takes nothing away and gives nothing for the past: at the ledger of the change
      every user's pending rewards are what they were. */
  lemma SetRateKeepsPending(s: State, now: int, admin: Address, rate: int, u: Address)
    requires Inv(s) && SetRate(s, now, true, admin, rate).1.Ok?
    ensures var t := SetRate(s, now, true, admin, rate).0;
            && t.rate == rate
            && (s.lastLedger <= now ==> PendingView(t, now, u) == PendingView(s, now, u))
  {
    TotalStakedNonNegative(s);
  }

  /** Accruing at an intermediate ledger never raises the accumulator. */
  lemma SplitAccrual(s: State, mid: int, now: int)
    requires Inv(s) && mid <= now
    ensures Accrue(Accrue(s, mid), now).acc <= Accrue(s, now).acc
  {
    TotalStakedNonNegative(s);
    if s.totalStaked > 0 && s.lastLedger < mid {
      var x, y := s.rate * (mid - s.lastLedger), s.rate * (now - mid);
      assert s.rate * (now - s.lastLedger) == x + y;
      FloorSplit(x * SCALE, y * SCALE, s.totalStaked);
      assert (x + y) * SCALE == x * SCALE + y * SCALE;
    }
  }

  lemma FloorSplit(x: int, y: int, d: int)
    requires d > 0
    ensures x / d + y / d <= (x + y) / d
  {
    FloorDiv(x, d);
    FloorDiv(y, d);
    assert (x / d + y / d) * d == (x / d) * d + (y / d) * d;
    FloorAtLeast(x / d + y / d, x + y, d);
  }

  function Last(ledgers: seq<int>): int
    requires ledgers != []
  {
    ledgers[|ledgers| - 1]
  }

  /** What user u receives by claiming at each of these ledgers, with nothing else happening. */
  function ClaimAll(s: State, u: Address, ledgers: seq<int>): int
    decreases |ledgers|
  {
    if ledgers == [] then 0
    else
      var (t, r) := Claim(s, ledgers[0], true, u);
      (if r.Ok? then r.value else 0) + ClaimAll(t, u, ledgers[1..])
  }

  /** Claiming any number of times never pays more than waiting for the last ledger. */
  lemma {:induction false} ClaimingOftenNeverPays(s: State, u: Address, ledgers: seq<int>)
    requires Inv(s) && ledgers != []
    requires forall i, j :: 0 <= i < j < |ledgers| ==> ledgers[i] <= ledgers[j]
    ensures ClaimAll(s, u, ledgers) <= PendingView(s, Last(ledgers), u)
    decreases |ledgers|
  {
    var mid, now := ledgers[0], Last(ledgers);
    var (t, r) := Claim(s, mid, true, u);
    ClaimKeeps(s, mid, true, u);
    ViewPredictsClaim(s, mid, u);
    ViewPredictsClaim(s, now, u);
    if |ledgers| > 1 {
      ClaimingOftenNeverPays(t, u, ledgers[1..]);
      assert Last(ledgers[1..]) == now;
      if r.Ok? { ClaimThenWait(s, u, mid, now); }
    } else {
      assert ClaimAll(t, u, ledgers[1..]) == 0;
    }
  }

  lemma ClaimThenWait(s: State, u: Address, mid: int, now: int)
    requires Inv(s) && mid <= now && Claim(s, mid, true, u).1.Ok?
    ensures var (t, r) := Claim(s, mid, true, u);
            r.value + PendingView(t, now, u) <= PendingView(s, now, u)
  {
    var (t, r) := Claim(s, mid, true, u);
    var m := Accrue(s, mid);
    AccrueKeeps(s, mid);
    ClaimKeeps(s, mid, true, u);
    ViewPredictsClaim(t, now, u);
    ViewPredictsClaim(s, now, u);
    SplitAccrual(s, mid, now);
    var amount := StakeOf(s, u).amount;
    PendingNonNegative(s, u);
    var early, late := Accrue(m, now).acc, Accrue(s, now).acc;
    assert Accrue(t, now).acc == early;
    MulMono(early, late, amount);
    FloorDiv(amount * early, SCALE);
    FloorAtLeast(amount * early / SCALE, amount * late, SCALE);
  }

  // ---------------------------------------------------------------- what each call does

  /** An accrual with stake and ledgers passed raises the accumulator by the largest amount whose
      part for all stakes is within the emission, and nothing else but the ledger moves. What the
      view shows is the largest amount within the user's part, less the debt. */
  lemma AccrueOutcome(s: State, now: int, u: Address, x: int)
    requires Inv(s)
    ensures var t, runs := Accrue(s, now), s.totalStaked > 0 && now > s.lastLedger;
            && (!runs ==> t == s)
            && (runs ==>
                  && (x <= t.acc - s.acc <==> x * s.totalStaked <= s.rate * (now - s.lastLedger) * SCALE)
                  && t == s.(acc := t.acc, lastLedger := now, emitted := s.emitted + s.rate * (now - s.lastLedger)))
            && (x <= PendingView(s, now, u) <==> (x + StakeOf(s, u).debt) * SCALE <= StakeOf(s, u).amount * t.acc)
  {
    TotalStakedNonNegative(s);
    ViewPredictsClaim(s, now, u);
    if s.totalStaked > 0 && now > s.lastLedger {
      FloorIff(x, s.rate * (now - s.lastLedger) * SCALE, s.totalStaked);
    }
    FloorIff(x + StakeOf(s, u).debt, StakeOf(s, u).amount * Accrue(s, now).acc, SCALE);
  }

  /** From s to t, after accruing to `now`: u's stake moves by `change` and u is paid `reward` and
      settled; the total stake, the vault and the amount paid move with it, and no other stake. */
  ghost predicate Settled(s: State, t: State, now: int, u: Address, change: int, reward: int)
  {
    && t == Accrue(s, now).(stakes := t.stakes, changes := t.changes, totalStaked := s.totalStaked + change,
                            vault := s.vault + change - reward, paid := s.paid + reward)
    && StakeOf(t, u).amount == StakeOf(s, u).amount + change && Pending(t, u) == 0
    && forall v :: v != u ==> StakeOf(t, v) == StakeOf(s, v)
  }

  /** A stake goes through exactly when it is authorised, positive and funded, and the vault then
      holds what the view shows. It credits exactly the amount and pays exactly the view. */
  lemma StakeOutcome(s: State, now: int, host: Host, u: Address, amount: int)
    requires Inv(s)
    ensures var (t, r) := StakeCall(s, now, host, u, amount);
            var view := PendingView(s, now, u);
            && (r.Ok? <==> host.auth && amount > 0 && host.funded && view <= s.vault + amount)
            && (r == Err(ZeroAmount) <==> host.auth && amount <= 0)
            && (!r.Ok? ==> t == s)
            && (r.Ok? ==> Settled(s, t, now, u, amount, view))
  {
    ViewPredictsClaim(s, now, u);
  }

  /** An unstake goes through exactly when it is authorised, positive and within the stake, and
      the vault holds the amount and what the view shows. It pays back both. */
  lemma UnstakeOutcome(s: State, now: int, auth: bool, u: Address, amount: int)
    requires Inv(s)
    ensures var (t, r) := Unstake(s, now, auth, u, amount);
            var view := PendingView(s, now, u);
            && (r.Ok? <==> auth && 0 < amount <= StakeOf(s, u).amount && amount + view <= s.vault)
            && (r == Err(ZeroAmount) <==> auth && amount <= 0)
            && (r == Err(InsufficientStake) <==> auth && 0 < amount && StakeOf(s, u).amount < amount)
            && (!r.Ok? ==> t == s)
            && (r.Ok? ==> r.value == view && Settled(s, t, now, u, -amount, view))
  {
    ViewPredictsClaim(s, now, u);
  }

  /** A claim goes through exactly when it is authorised and the view shows something that the
      vault holds. It pays that and leaves every stake as it is. */
  lemma ClaimOutcome(s: State, now: int, auth: bool, u: Address)
    requires Inv(s)
    ensures var (t, r) := Claim(s, now, auth, u);
            var view := PendingView(s, now, u);
            && (r.Ok? <==> auth && 0 < view <= s.vault)
            && (r == Err(NoRewards) <==> auth && view == 0)
            && (!r.Ok? ==> t == s)
            && (r.Ok? ==> r.value == view && Settled(s, t, now, u, 0, view) && t.changes == s.changes)
  {
    ViewPredictsClaim(s, now, u);
  }

  /** Accrual does not run while nobody stakes, and does not move the ledger it counts from
      either: who stakes first after such a time has at once earned what was emitted over it, up
      to the floors. */
  lemma FirstStakerEarnsIdle(s: State, now: int, u: Address, amount: int)
    requires Inv(s) && s.totalStaked == 0 && StakeCall(s, now, Host(true, true), u, amount).1.Ok?
    ensures var t := StakeCall(s, now, Host(true, true), u, amount).0;
            var idle, view := s.rate * Max(now - s.lastLedger, 0), PendingView(t, now, u);
            view <= idle && idle * SCALE < (view + 1) * SCALE + amount
  {
    var t := StakeCall(s, now, Host(true, true), u, amount).0;
    EntryAtMostTotal(Amounts(s.stakes), u);
    StakeKeeps(s, now, Host(true, true), u, amount);
    assert StakeOf(t, u) == Stake(amount, amount * s.acc / SCALE);
    if now > s.lastLedger { EarnedFloors(amount, s.acc, s.rate * (now - s.lastLedger)); }
  }

  lemma EarnedFloors(amount: int, acc: int, idle: int)
    requires 0 < amount
    ensures var view := amount * (acc + idle * SCALE / amount) / SCALE - amount * acc / SCALE;
            view <= idle && idle * SCALE < (view + 1) * SCALE + amount
  {
    var gain := idle * SCALE / amount;
    FloorDiv(idle * SCALE, amount);
    assert amount * (acc + gain) == amount * acc + gain * amount;
  }

  /** It happens: a new farm emitting 10 a ledger, a vault sent 10000, a first stake of 100 after
      1000 ledgers, and at the same ledger a claim of 10000. */
  lemma IdleLedgersPaid(admin: Address, u: Address)
    ensures var t := Run(Fresh(admin, 10, 0), [CallFund(10000), CallStake(1000, Host(true, true), u, 100)]);
            Claim(t, 1000, true, u).1 == Ok(10000)
  {
    var calls := [CallFund(10000), CallStake(1000, Host(true, true), u, 100)];
    var s := Fresh(admin, 10, 0);
    var m := Step(s, calls[0]);
    assert calls[1..] == [calls[1]] && calls[1..][1..] == [];
    assert Run(s, calls) == Run(m, calls[1..]) == Run(Step(m, calls[1]), []);
    assert Step(m, calls[1]).stakes == map[u := Stake(100, 0)];
  }
}
