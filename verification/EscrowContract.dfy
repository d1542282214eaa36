/** The escrow manager as the host runs it. Every method is proved to act on its storage
    exactly as the function of module Escrows says. */
module EscrowContract {
  import opened Escrows
  import opened Outcomes
  import opened Totals

  class Manager {
    var admin: Address
    var paused: bool
    var escrows: seq<Escrow>
    // the contract's token balances
    var vault: Balances

    function View(): State
      reads this
    {
      State(admin, paused, escrows, vault)
    }

    /** The books are in order: kept by every method below. */
    ghost predicate Valid()
      reads this
    {
      Inv(View())
    }

    constructor Deploy(admin: Address)
      ensures View() == Fresh(admin)
    {
      this.admin, paused, escrows, vault := admin, false, [], map[];
    }

    /** None when `initialize` panics. */
    static method Initialize(auth: bool, admin: Address) returns (m: Option<Manager>)
      ensures m.Some? <==> auth
      ensures m.Some? ==> fresh(m.value) && m.value.View() == Fresh(admin) && m.value.Valid()
    {
      if !auth { return None; }
      var manager := new Manager.Deploy(admin);
      return Some(manager);
    }

    method CreateEscrow(now: int, signed: set<Address>, funder: Address, receiver: Address, arbitrator: Address,
                        asset: Address, milestones: seq<Milestone>, feeBps: int, deadline: int)
      returns (r: Result<nat, HubError>)
      requires Valid()
      modifies this`escrows
      ensures Valid()
      ensures (View(), r) == Create(old(View()), now, signed, funder, receiver, arbitrator, asset, milestones, feeBps, deadline)
    {
      hide Inv;
      CreateKeeps(View(), CallCreate(now, signed, funder, receiver, arbitrator, asset, milestones, feeBps, deadline));
      if paused { return Err(IsPaused); }
      if feeBps > 10000 { return Err(FeeBpsExceedsMaximum); }
      if milestones == [] { return Err(InvalidArgument); }
      if deadline <= now { return Err(DeadlineAlreadyPassed); }
      if funder !in signed { return Panic; }
      var id := |escrows|;
      var statuses: seq<MilestoneStatus> := [];
      for i := 0 to |milestones|
        invariant statuses == seq(i, k => Pending)
      {
        statuses := statuses + [Pending];
      }
      assert statuses == seq(|milestones|, k => Pending);
      escrows := escrows + [Escrow(funder, receiver, arbitrator, asset, milestones, feeBps, deadline, 0, 0, 0,
                                   statuses, Active, 0, 0, false)];
      return Ok(id);
    }

    /** Paused, unknown, or in another status. */
    method Open(id: nat, expected: EscrowStatus) returns (e: Option<HubError>)
      ensures e == Refusal(View(), id, expected)
    {
      if paused { return Some(IsPaused); }
      if id >= |escrows| { return Some(EscrowNotFound); }
      if escrows[id].status != expected { return Some(InvalidEscrowStatus); }
      return None;
    }

    method FundEscrow(signed: set<Address>, funded: bool, id: nat, amount: int) returns (r: Reply)
      requires Valid()
      modifies this`escrows, this`vault
      ensures Valid()
      ensures (View(), r) == Escrows.FundEscrow(old(View()), signed, funded, id, amount)
    {
      hide Inv;
      FundKeeps(View(), signed, funded, id, amount);
      if paused { return Err(IsPaused); }
      if amount <= 0 { return Err(InvalidArgument); }
      var refused := Open(id, Active);
      if refused.Some? { return Err(refused.value); }
      if escrows[id].funder !in signed { return Panic; }
      var saved := escrows;
      var e := escrows[id];
      e := e.(deposited := e.deposited + amount);
      escrows := escrows[id := e];
      if !funded {
        escrows := saved;
        return Panic;
      }
      vault := vault[e.asset := Get(vault, e.asset) + amount];
      return Ok(());
    }

    method SubmitMilestone(signed: set<Address>, id: nat, k: nat) returns (r: Reply)
      requires Valid()
      modifies this`escrows, this`vault
      ensures Valid()
      ensures (View(), r) == Submit(old(View()), signed, id, k)
      ensures id < |old(escrows)| ==>
                (r.Ok? <==> !paused && old(escrows)[id].status == Active && k < |old(escrows)[id].statuses| && old(escrows)[id].receiver in signed
                            && old(escrows)[id].statuses[k] == Pending)
      ensures r.Ok? ==> id < |escrows| == |old(escrows)| && Releasable(escrows[id]) == Releasable(old(escrows)[id])
    {
      hide Inv;
      SubmitKeeps(View(), signed, id, k);
      if id < |escrows| { SubmitOutcome(View(), signed, id, k); }
      var refused := Open(id, Active);
      if refused.Some? { return Err(refused.value); }
      var e := escrows[id];
      if k >= |e.milestones| { return Err(InvalidArgument); }
      if e.receiver !in signed { return Panic; }
      if k >= |e.statuses| { return Err(InvalidArgument); }
      if e.statuses[k] != Pending { return Err(MilestoneAlreadySubmitted); }
      Write(id, e.(statuses := e.statuses[k := Submitted]), 0);
      return Ok(());
    }

    /** Stores escrow `id` and moves `out` tokens of its asset out of the vault. */
    method Write(id: nat, e: Escrow, out: int)
      requires id < |escrows|
      modifies this`escrows, this`vault
      ensures View() == Put(old(View()), id, e, out)
    {
      escrows := escrows[id := e];
      vault := vault[e.asset := Get(vault, e.asset) - out];
    }

    method JudgeMilestone(signed: set<Address>, id: nat, k: nat, approve: bool) returns (r: Reply)
      requires Valid()
      modifies this`escrows, this`vault
      ensures Valid()
      ensures (View(), r) == Judge(old(View()), signed, id, k, approve)
      ensures id < |old(escrows)| ==>
                (r.Ok? <==> !paused && old(escrows)[id].status == Active && k < |old(escrows)[id].milestones|
                            && old(escrows)[id].milestones[k].approver in signed
                            && k < |old(escrows)[id].statuses| && old(escrows)[id].statuses[k] == Submitted)
      ensures r.Ok? ==> id < |escrows| == |old(escrows)| && k < |escrows[id].milestones|
                        && Releasable(escrows[id])
                           == Releasable(old(escrows)[id]) + (if approve then escrows[id].milestones[k].amount else 0)
    {
      hide Inv;
      JudgeKeeps(View(), signed, id, k, approve);
      if id < |escrows| { JudgeOutcome(View(), signed, id, k, approve); }
      var refused := Open(id, Active);
      if refused.Some? { return Err(refused.value); }
      var e := escrows[id];
      if k >= |e.milestones| { return Err(InvalidArgument); }
      if e.milestones[k].approver !in signed { return Panic; }
      if k >= |e.statuses| { return Err(InvalidArgument); }
      if e.statuses[k] != Submitted { return Err(MilestoneNotApprovable); }
      if approve {
        Write(id, e.(statuses := e.statuses[k := Approved], completed := e.completed + 1), 0);
      } else {
        Write(id, e.(statuses := e.statuses[k := Rejected]), 0);
      }
      return Ok(());
    }

    /** The loop that adds up the approved milestones. */
    method ReleaseAmount(e: Escrow) returns (amount: int)
      requires |e.milestones| <= |e.statuses|
      ensures amount == ApprovedSum(e, |e.milestones|)
    {
      amount := 0;
      for i := 0 to |e.milestones|
        invariant amount == ApprovedSum(e, i)
      {
        if e.statuses[i] == Approved {
          amount := amount + e.milestones[i].amount;
        }
      }
    }

    method ReleaseFunds(id: nat) returns (r: Reply)
      requires Valid()
      modifies this`escrows, this`vault
      ensures Valid()
      ensures (View(), r) == Release(old(View()), id)
    {
      hide Inv;
      ReleaseKeeps(View(), id);
      var refused := Open(id, Active);
      if refused.Some? { return Err(refused.value); }
      var e := escrows[id];
      if |e.statuses| < |e.milestones| { return Err(InvalidArgument); }
      var amount := ReleaseAmount(e);
      amount := amount - e.released;
      if amount <= 0 { return Err(InsufficientEscrowBalance); }
      if e.deposited - e.released < amount { return Err(InsufficientEscrowBalance); }
      if Get(vault, e.asset) < amount { return Panic; }
      e := e.(released := e.released + amount, toReceiver := e.toReceiver + amount);
      if e.completed == |e.milestones| {
        e := e.(status := Completed);
      }
      Write(id, e, amount);
      return Ok(());
    }

    /** The `all` over the statuses. */
    method EveryRejected(e: Escrow) returns (all: bool)
      ensures all == AllRejected(e)
    {
      for i := 0 to |e.statuses|
        invariant forall k :: 0 <= k < i ==> e.statuses[k] == Rejected
      {
        if e.statuses[i] != Rejected { return false; }
      }
      return true;
    }

    method Refund(now: int, signed: set<Address>, id: nat) returns (r: Reply)
      requires Valid()
      modifies this`escrows, this`vault
      ensures Valid()
      ensures (View(), r) == Escrows.Refund(old(View()), now, signed, id)
    {
      hide Inv;
      RefundKeeps(View(), now, signed, id);
      var refused := Open(id, Active);
      if refused.Some? { return Err(refused.value); }
      if escrows[id].funder !in signed { return Panic; }
      var e := escrows[id];
      var remaining := e.deposited - e.released;
      if remaining <= 0 { return Err(InsufficientEscrowBalance); }
      var allRejected := EveryRejected(e);
      if !allRejected && now < e.deadline { return Err(DeadlineNotReached); }
      if Get(vault, e.asset) < remaining { return Panic; }
      Write(id, e.(released := e.released + remaining, toFunder := e.toFunder + remaining, status := Refunded), remaining);
      return Ok(());
    }

    method Dispute(signed: set<Address>, id: nat, disputer: Address) returns (r: Reply)
      requires Valid()
      modifies this`escrows, this`vault
      ensures Valid()
      ensures (View(), r) == Escrows.Dispute(old(View()), signed, id, disputer)
      ensures r.Ok? ==>
                forall c: Call :: !c.CallResolve? ==>
                  id < |Step(View(), c).escrows| && Step(View(), c).escrows[id] == escrows[id]
    {
      hide Inv;
      DisputeKeeps(View(), signed, id, disputer);
      var refused := Open(id, Active);
      if refused.Some? { return Err(refused.value); }
      var e := escrows[id];
      if disputer != e.funder && disputer != e.receiver { return Err(Unauthorized); }
      if disputer !in signed { return Panic; }
      Write(id, e.(status := Disputed), 0);
      forall c: Call | !c.CallResolve?
        ensures id < |Step(View(), c).escrows| && Step(View(), c).escrows[id] == escrows[id]
      {
        DisputeWaits(View(), id, c);
      }
      return Ok(());
    }

    method Resolve(signed: set<Address>, id: nat, outcome: string) returns (r: Reply)
      requires Valid()
      modifies this`escrows, this`vault
      ensures Valid()
      ensures (View(), r) == Escrows.Resolve(old(View()), signed, id, outcome)
      ensures id < |old(escrows)| ==>
                (r.Ok? <==> !paused && old(escrows)[id].status == Disputed && old(escrows)[id].arbitrator in signed
                            && old(escrows)[id].released < old(escrows)[id].deposited
                            && (outcome == "release" || outcome == "refund"))
      ensures r.Ok? ==> id < |escrows| && Frozen(escrows[id]) && escrows[id].released == escrows[id].deposited
    {
      hide Inv;
      ResolveKeeps(View(), signed, id, outcome);
      if id < |escrows| { ResolveOutcome(View(), signed, id, outcome); }
      var refused := Open(id, Disputed);
      if refused.Some? { return Err(refused.value); }
      if escrows[id].arbitrator !in signed { return Panic; }
      var e := escrows[id];
      var remaining := e.deposited - e.released;
      if remaining <= 0 { return Err(InsufficientEscrowBalance); }
      if outcome != "release" && outcome != "refund" { return Err(InvalidArgument); }
      if Get(vault, e.asset) < remaining { return Panic; }
      if outcome == "release" {
        Write(id, e.(released := e.released + remaining, toReceiver := e.toReceiver + remaining,
                     status := Completed, ruled := true), remaining);
      } else {
        Write(id, e.(released := e.released + remaining, toFunder := e.toFunder + remaining,
                     status := Refunded, ruled := true), remaining);
      }
      return Ok(());
    }

    method SetPaused(signed: set<Address>, caller: Address, value: bool) returns (r: Reply)
      requires Valid()
      modifies this`paused
      ensures Valid()
      ensures (View(), r) == Escrows.SetPaused(old(View()), signed, caller, value)
      ensures r.Ok? <==> caller == admin && caller in signed
      ensures paused == if r.Ok? then value else old(paused)
      ensures r.Ok? && value ==> forall c: Call :: !c.CallSetPaused? ==> Step(View(), c) == View()
    {
      hide Inv;
      StepKeeps(View(), CallSetPaused(signed, caller, value));
      if caller != admin { return Err(Unauthorized); }
      if caller !in signed { return Panic; }
      paused := value;
      if value {
        forall c: Call | !c.CallSetPaused? ensures Step(View(), c) == View() { PausedFreezes(View(), c); }
      }
      return Ok(());
    }
  }
}
