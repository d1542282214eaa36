/** The liquidity-mining farm as the host runs it. Every method is proved to act on its
    storage exactly as the function of module Farm says. */
module FarmContract {
  import opened Arithmetic
  import opened Farm
  import opened Outcomes
  import opened Totals

  class Mining {
    const admin: Address
    var rewardPerLedger: int
    var totalStaked: int
    var lastLedger: int
    var accumulated: int
    var stakes: map<Address, Farm.Stake>
    var vault: int
    // running totals, for the theorems only
    var funding: int
    var paid: int
    var emitted: int
    var changes: int

    function View(): State
      reads this
    {
      State(admin, rewardPerLedger, totalStaked, lastLedger, accumulated, stakes, vault,
            funding, paid, emitted, changes)
    }

    /** The books are in order: kept by every method below. */
    ghost predicate Valid()
      reads this
    {
      Inv(View())
    }

    constructor Deploy(admin: Address, rate: int, now: nat)
      ensures View() == Fresh(admin, rate, now)
    {
      this.admin := admin;
      rewardPerLedger, totalStaked, lastLedger, accumulated, stakes, vault := rate, 0, now, 0, map[], 0;
      funding, paid, emitted, changes := 0, 0, 0, 0;
    }

    /** None when `initialize` panics. */
    static method Initialize(auth: bool, admin: Address, rate: int, now: nat) returns (m: Option<Mining>)
      ensures m.Some? <==> auth && rate >= 0
      ensures m.Some? ==> fresh(m.value) && m.value.Valid() && m.value.View() == Fresh(admin, rate, now)
    {
      if !auth || rate < 0 { return None; }
      FreshInv(admin, rate, now);
      var mining := new Mining.Deploy(admin, rate, now);
      return Some(mining);
    }

    function ReadStake(user: Address): Farm.Stake
      reads this
    {
      if user in stakes then stakes[user] else Farm.Stake(0, 0)
    }

    method AccrueRewards(now: nat)
      modifies this`accumulated, this`lastLedger, this`emitted
      ensures View() == Accrue(old(View()), now)
      ensures old(Valid()) ==> Valid() && old(accumulated) <= accumulated && Drift(View()) <= Drift(old(View()))
    {
      if Valid() { AccrueKeeps(View(), now); }
      if totalStaked == 0 { return; }
      var ledgersPassed := if now > lastLedger then now - lastLedger else 0;
      if ledgersPassed > 0 {
        var reward := rewardPerLedger * ledgersPassed;
        accumulated := accumulated + reward * 1_000_000 / totalStaked;
        lastLedger := now;
        emitted := emitted + reward;
      }
    }

    /** The host's rollback of a call that failed after writing. */
    method Rollback(saved: State)
      requires saved.admin == admin
      modifies this
      ensures View() == saved
    {
      rewardPerLedger, totalStaked, lastLedger, accumulated := saved.rate, saved.totalStaked, saved.lastLedger, saved.acc;
      stakes, vault := saved.stakes, saved.vault;
      funding, paid, emitted, changes := saved.funding, saved.paid, saved.emitted, saved.changes;
    }

    /** Stores a new stake of the user, settled at the current accumulator. */
    method WriteStake(user: Address, amount: int)
      modifies this`stakes, this`totalStaked
      ensures stakes == old(stakes)[user := Farm.Stake(amount, amount * accumulated / 1_000_000)]
      ensures totalStaked == old(totalStaked) - old(ReadStake(user).amount) + amount
    {
      totalStaked := totalStaked - ReadStake(user).amount + amount;
      stakes := stakes[user := Farm.Stake(amount, amount * accumulated / 1_000_000)];
    }

    /** Sends `principal` and a positive reward out of the vault. */
    method Pay(principal: int, reward: int)
      modifies this`vault, this`paid
      ensures vault == old(vault) - principal - Max(reward, 0) && paid == old(paid) + Max(reward, 0)
    {
      vault := vault - principal;
      if reward > 0 {
        vault := vault - reward;
        paid := paid + reward;
      }
    }

    /** A change of rate keeps the books, and what everyone has pending. */
    method SetRewardPerLedger(now: nat, auth: bool, caller: Address, newRate: int)
      returns (r: Result<(), MiningError>)
      requires Valid()
      modifies this
      ensures Valid()
      ensures (View(), r) == SetRate(old(View()), now, auth, caller, newRate)
      ensures r.Ok? <==> caller == admin && auth && newRate >= 0
      ensures r.Ok? ==> rewardPerLedger == newRate
      ensures r.Ok? && old(lastLedger) <= now ==>
                forall u :: PendingView(View(), now, u) == old(PendingView(View(), now, u))
    {
      ghost var s := View();
      if caller != admin { return Err(NotAdmin); }
      if !auth { return Panic; }
      if newRate < 0 { return Err(ZeroAmount); }
      AccrueRewards(now);
      rewardPerLedger := newRate;
      StepKeeps(s, CallSetRate(now, auth, caller, newRate));
      forall u | s.lastLedger <= now ensures PendingView(View(), now, u) == PendingView(s, now, u) {
        SetRateKeepsPending(s, now, caller, newRate, u);
      }
      return Ok(());
    }

    method Stake(now: nat, host: Host, user: Address, amount: int) returns (r: Result<(), MiningError>)
      requires Valid()
      modifies this
      ensures Valid()
      ensures (View(), r) == StakeCall(old(View()), now, host, user, amount)
      ensures r.Ok? ==> Settled(old(View()), View(), now, user, amount, old(PendingView(View(), now, user)))
    {
      hide Inv, Settled;
      var saved := View();
      StakeOutcome(saved, now, host, user, amount);
      if !host.auth { return Panic; }
      if amount <= 0 { return Err(ZeroAmount); }
      AccrueRewards(now);
      var userStake := ReadStake(user);
      var pending := userStake.amount * accumulated / 1_000_000 - userStake.debt;
      if !host.funded || (pending > 0 && vault + amount < pending) {
        Rollback(saved);
        return Panic;
      }
      Pay(-amount, pending);
      WriteStake(user, userStake.amount + amount);
      changes := changes + 1;
      StakeKeeps(saved, now, host, user, amount);
      return Ok(());
    }

    method Unstake(now: nat, auth: bool, user: Address, amount: int) returns (r: Result<int, MiningError>)
      requires Valid()
      modifies this
      ensures Valid()
      ensures (View(), r) == Farm.Unstake(old(View()), now, auth, user, amount)
      ensures r.Ok? <==> auth && 0 < amount <= old(ReadStake(user).amount)
                         && amount + old(PendingView(View(), now, user)) <= old(vault)
      ensures r.Ok? ==> r.value == old(PendingView(View(), now, user))
                        && Settled(old(View()), View(), now, user, -amount, r.value)
    {
      hide Inv, Settled;
      var saved := View();
      UnstakeOutcome(saved, now, auth, user, amount);
      if !auth { return Panic; }
      if amount <= 0 { return Err(ZeroAmount); }
      AccrueRewards(now);
      var userStake := ReadStake(user);
      if userStake.amount < amount {
        Rollback(saved);
        return Err(InsufficientStake);
      }
      var pending := userStake.amount * accumulated / 1_000_000 - userStake.debt;
      WriteStake(user, userStake.amount - amount);
      if vault < amount + Max(pending, 0) {
        Rollback(saved);
        return Panic;
      }
      Pay(amount, pending);
      changes := changes + 1;
      UnstakeKeeps(saved, now, auth, user, amount);
      return Ok(pending);
    }

    /** Pays exactly what the view of pending rewards shows, when there is something to pay and
        the vault holds it. */
    method Claim(now: nat, auth: bool, user: Address) returns (r: Result<int, MiningError>)
      requires Valid()
      modifies this
      ensures Valid()
      ensures (View(), r) == Farm.Claim(old(View()), now, auth, user)
      ensures auth && 0 < old(PendingView(View(), now, user)) <= old(vault) ==>
                r == Ok(old(PendingView(View(), now, user)))
    {
      hide Inv;
      var saved := View();
      ViewPredictsClaim(saved, now, user);
      if !auth { return Panic; }
      AccrueRewards(now);
      var userStake := ReadStake(user);
      var pending := userStake.amount * accumulated / 1_000_000 - userStake.debt;
      if pending <= 0 {
        Rollback(saved);
        return Err(NoRewards);
      }
      WriteStake(user, userStake.amount);
      if vault < pending {
        Rollback(saved);
        return Panic;
      }
      Pay(0, pending);
      ClaimKeeps(saved, now, auth, user);
      return Ok(pending);
    }
  }
}
