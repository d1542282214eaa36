/** The multisig bridge as the host runs it. Every method is proved to act on its storage
    exactly as the function of module Multisig says. */
module MultisigContract {
  import opened Multisig
  import opened Outcomes
  import opened Quorum
  import opened Totals

  class Bridge {
    var admin: Address
    var signers: Signers
    var signerCount: int
    var threshold: int
    var proposals: seq<Proposal>
    var nonces: set<int>
    var windowStart: int
    var volume: int
    var volumeCap: int
    var windowLedgers: int
    var paused: bool
    var maxAge: int
    // log of what was executed, for the theorems only
    var executions: seq<Execution>

    function View(): State
      reads this
    {
      State(admin, signers, signerCount, threshold, proposals, nonces, windowStart, volume, volumeCap,
            windowLedgers, paused, maxAge, executions)
    }

    /** The books are in order. A bridge initialised with a repeated signer never has them in
        order, so methods do not ask for it; each call keeps it. */
    ghost predicate Valid()
      reads this
    {
      Inv(View())
    }

    constructor Deploy(admin: Address, list: seq<Address>, threshold: int, cap: int, window: int, maxAge: int)
      ensures View() == Fresh(admin, list, threshold, cap, window, maxAge)
    {
      this.admin, this.signers, signerCount, this.threshold := admin, Enrol(list), |list|, threshold;
      proposals, nonces, windowStart, volume, volumeCap := [], {}, 0, 0, cap;
      windowLedgers, paused, this.maxAge, executions := window, false, maxAge, [];
    }

    /** None when `initialize` panics. Repeats in the list are not looked for. */
    static method Initialize(auth: bool, admin: Address, list: seq<Address>, threshold: nat, cap: int, window: nat,
                             maxAge: nat)
      returns (b: Option<Bridge>)
      ensures b.Some? <==> auth && 1 <= threshold <= |list|
      ensures b.Some? ==> fresh(b.value) && (b.value.Valid() <==> Distinct(list))
      ensures b.Some? ==> b.value.View() == Fresh(admin, list, threshold, cap, window, maxAge)
    {
      if !auth || threshold == 0 || threshold > |list| { return None; }
      FreshInv(admin, list, threshold, cap, window, maxAge);
      var bridge := new Bridge.Deploy(admin, list, threshold, cap, window, maxAge);
      return Some(bridge);
    }

    method Propose(now: int, auth: bool, proposer: Address, kind: Kind, target: Address, amount: int, deposit: DepositId)
      returns (r: Result<nat, BridgeError>)
      modifies this`proposals
      ensures (View(), r) == Multisig.Propose(old(View()), now, auth, proposer, kind, target, amount, deposit)
      ensures old(Valid()) ==> Valid()
      ensures r.Ok? ==> r.value == |old(proposals)| < |proposals| && proposer in Active(signers)
                        && proposals[r.value].status == Pending && proposals[r.value].deposit == deposit
      ensures old(Valid()) ==>
                (r.Ok? <==> && auth && !paused && proposer in Active(signers) && amount > 0 && kind != OtherKind
                            && !old(Settled(View(), deposit)) && (volumeCap <= 0 || volume + amount <= volumeCap))
    {
      hide Inv, Settled;
      if Valid() {
        ProposeKeeps(View(), now, auth, proposer, kind, target, amount, deposit);
        ProposeOutcome(View(), now, auth, proposer, kind, target, amount, deposit);
      }
      if !auth { return Panic; }
      if paused { return Err(AlreadyPaused); }
      if !IsSigner(signers, proposer) { return Err(NotSigner); }
      if amount <= 0 { return Err(InvalidAmount); }
      match kind {
        case MintWpi =>
        case ReleaseUsdc =>
        case OtherKind => return Err(InvalidProposalKind);
      }
      if NonceOf(deposit) in nonces { return Err(DepositAlreadyProcessed); }
      if volumeCap > 0 && volume + amount > volumeCap { return Err(VolumeCapExceeded); }
      var id := |proposals|;
      proposals := proposals + [Proposal(kind, proposer, target, amount, deposit, [proposer], [Active(signers)],
                                         Pending, now, None)];
      return Ok(id);
    }

    method AddVolume(now: int, amount: int)
      modifies this`windowStart, this`volume
      ensures View() == Multisig.AddVolume(old(View()), now, amount)
      ensures old(VolumeInv(View(), windowLedgers)) && 1 <= windowLedgers && old(windowStart) <= now ==>
                forall x: Execution :: x.ledger == now && x.amount == amount ==>
                  VolumeInv(View().(executions := executions + [x]), windowLedgers)
    {
      hide VolumeInv;
      ghost var s := View();
      forall x: Execution | VolumeInv(s, windowLedgers) && 1 <= windowLedgers && windowStart <= now
                            && x.ledger == now && x.amount == amount
        ensures VolumeInv(Multisig.AddVolume(s, now, amount).(executions := s.executions + [x]), windowLedgers)
      {
        AddVolumeTrue(s, now, amount, x, windowLedgers);
      }
      var v := volume;
      if now >= windowStart + windowLedgers {
        v := 0;
        windowStart := now;
      }
      v := v + amount;
      volume := v;
    }

    /** Marks the replay key and tracks the volume; other kinds have no effect. */
    method ExecuteProposal(now: int, p: Proposal)
      modifies this`windowStart, this`volume, this`nonces
      ensures View() == Execute(old(View()), now, p)
      ensures p.kind != OtherKind ==>
                forall c: Call :: c.CallPropose? && NonceOf(c.deposit) == NonceOf(p.deposit) ==> Step(View(), c) == View()
    {
      match p.kind {
        case OtherKind =>
        case _ =>
          nonces := nonces + {NonceOf(p.deposit)};
          AddVolume(now, p.amount);
          forall c: Call | c.CallPropose? && NonceOf(c.deposit) == NonceOf(p.deposit) ensures Step(View(), c) == View() {
            TakenKeyRefused(View(), c);
          }
      }
    }

    /** The loop that looks for an earlier vote of the same address. */
    method HasVoted(approvals: seq<Address>, signer: Address) returns (found: bool)
      ensures found <==> signer in approvals
    {
      for i := 0 to |approvals|
        invariant signer !in approvals[..i]
      {
        if approvals[i] == signer { return true; }
        assert approvals[..i + 1] == approvals[..i] + [approvals[i]];
      }
      assert approvals[..|approvals|] == approvals;
      return false;
    }

    method Approve(now: int, auth: bool, tokenOk: bool, signer: Address, id: nat)
      returns (r: Result<Status, BridgeError>)
      modifies this`proposals, this`executions, this`windowStart, this`volume, this`nonces
      ensures (View(), r) == Multisig.Approve(old(View()), now, auth, tokenOk, signer, id)
      ensures old(Valid()) ==> Valid()
      ensures old(Valid()) && id < |proposals| ==>
                var p := old(proposals)[id];
                r.Ok? <==> && auth && signer in Active(signers) && p.status == Pending && now - p.createdAt <= maxAge
                           && signer !in p.approvals && (threshold <= |p.approvals| + 1 ==> tokenOk)
      ensures r.Ok? ==> id < |proposals| && (r.value == Executed <==> threshold <= |proposals[id].approvals|)
    {
      hide Inv;
      if Valid() {
        ApproveKeeps(View(), now, auth, tokenOk, signer, id);
        if id < |proposals| { ApproveOutcome(View(), now, auth, tokenOk, signer, id); }
      }
      if !auth { return Panic; }
      if !IsSigner(signers, signer) { return Err(NotSigner); }
      if id >= |proposals| { return Err(ProposalNotFound); }
      var p := proposals[id];
      if p.status != Pending { return Err(ProposalAlreadyExecuted); }
      if now > p.createdAt + maxAge {
        var saved := proposals;
        proposals := proposals[id := p.(status := Expired)];
        // the error makes the host roll this write back
        proposals := saved;
        return Err(ProposalExpired);
      }
      var voted := HasVoted(p.approvals, signer);
      if voted { return Err(DuplicateApproval); }
      p := p.(approvals := p.approvals + [signer], rolls := p.rolls + [Active(signers)]);
      if |p.approvals| >= threshold {
        if !tokenOk && p.kind != OtherKind { return Panic; }
        ExecuteProposal(now, p);
        proposals := proposals[id := p.(status := Executed, executedAt := Some(now))];
        executions := executions + [Execution(id, threshold, now, p.amount)];
        return Ok(Executed);
      }
      proposals := proposals[id := p];
      return Ok(Pending);
    }

    method AddSigner(auth: bool, caller: Address, signer: Address) returns (r: Result<(), BridgeError>)
      modifies this`signers, this`signerCount
      ensures (View(), r) == Multisig.AddSigner(old(View()), auth, caller, signer)
      ensures old(Valid()) ==> Valid()
      ensures r.Ok? <==> caller == admin && auth && signer !in old(Active(signers))
      ensures r.Ok? ==> Active(signers) == old(Active(signers)) + {signer}
    {
      hide Inv;
      if Valid() { StepKeeps(View(), CallAddSigner(auth, caller, signer)); }
      AddSignerOutcome(View(), auth, caller, signer);
      if caller != admin { return Err(NotAdmin); }
      if !auth { return Panic; }
      if IsSigner(signers, signer) { return Err(DuplicateSigner); }
      signers := signers[signer := true];
      signerCount := signerCount + 1;
      return Ok(());
    }

    method RemoveSigner(auth: bool, caller: Address, signer: Address) returns (r: Result<(), BridgeError>)
      modifies this`signers, this`signerCount
      ensures (View(), r) == Multisig.RemoveSigner(old(View()), auth, caller, signer)
      ensures old(Valid()) ==> Valid()
      ensures old(Valid()) ==>
                (r.Ok? <==> caller == admin && auth && signer in old(Active(signers)) && threshold < |old(Active(signers))|)
      ensures old(Valid()) && r.Ok? ==> Active(signers) == old(Active(signers)) - {signer}
    {
      hide Inv;
      if Valid() {
        StepKeeps(View(), CallRemoveSigner(auth, caller, signer));
        RemoveSignerOutcome(View(), auth, caller, signer);
      }
      if caller != admin { return Err(NotAdmin); }
      if !auth { return Panic; }
      if !IsSigner(signers, signer) { return Err(SignerNotFound); }
      if signerCount <= 1 { return Err(CannotRemoveLastSigner); }
      if signerCount - 1 < threshold { return Err(CannotRemoveBelowThreshold); }
      signers := signers[signer := false];
      signerCount := signerCount - 1;
      return Ok(());
    }

    method SetThreshold(auth: bool, caller: Address, newThreshold: nat) returns (r: Result<(), BridgeError>)
      modifies this`threshold
      ensures (View(), r) == Multisig.SetThreshold(old(View()), auth, caller, newThreshold)
      ensures old(Valid()) ==> Valid()
      ensures old(Valid()) ==> (r.Ok? <==> caller == admin && auth && 1 <= newThreshold <= |Active(signers)|)
      ensures threshold == if r.Ok? then newThreshold else old(threshold)
    {
      hide Inv;
      if Valid() {
        StepKeeps(View(), CallSetThreshold(auth, caller, newThreshold));
        CountIsActive(View());
      }
      if caller != admin { return Err(NotAdmin); }
      if !auth { return Panic; }
      if newThreshold == 0 || newThreshold > signerCount { return Err(InvalidThreshold); }
      threshold := newThreshold;
      return Ok(());
    }
  }
}
