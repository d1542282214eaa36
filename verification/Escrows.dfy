/** The escrow manager as values: milestone escrows that share one vault. */
module Escrows {
  import opened Outcomes
  import opened Totals

  datatype HubError =
    | IsPaused | FeeBpsExceedsMaximum | InvalidArgument | DeadlineAlreadyPassed | EscrowNotFound
    | InvalidEscrowStatus | MilestoneAlreadySubmitted | MilestoneNotApprovable | InsufficientEscrowBalance
    | DeadlineNotReached | Unauthorized

  datatype MilestoneStatus = Pending | Submitted | Approved | Rejected

  datatype EscrowStatus = Active | Completed | Refunded | Disputed

  datatype Milestone = Milestone(amount: int, approver: Address)

  /** The stored escrow. toReceiver and toFunder (what each was paid) and ruled (whether an
      arbitrator closed it) are not stored by the contract and no call reads them. */
  datatype Escrow = Escrow(
    funder: Address, receiver: Address, arbitrator: Address, asset: Address, milestones: seq<Milestone>,
    feeBps: int, deadline: int, deposited: int, released: int, completed: int,
    statuses: seq<MilestoneStatus>, status: EscrowStatus, toReceiver: int, toFunder: int, ruled: bool)

  /** Escrow i is escrows[i]; vault is what the contract holds of each asset. */
  datatype State = State(admin: Address, paused: bool, escrows: seq<Escrow>, vault: Balances)

  type Reply = Result<(), HubError>

  /** Sum of the amounts of the approved milestones among the first n. */
  function ApprovedSum(e: Escrow, n: nat): int
    requires n <= |e.milestones| && n <= |e.statuses|
  {
    if n == 0 then 0
    else ApprovedSum(e, n - 1) + (if e.statuses[n - 1] == Approved then e.milestones[n - 1].amount else 0)
  }

  /** What the approved milestones add up to. */
  function Releasable(e: Escrow): int
    requires |e.statuses| == |e.milestones|
  {
    ApprovedSum(e, |e.milestones|)
  }

  function MilestoneSum(e: Escrow, n: nat): int
    requires n <= |e.milestones|
  {
    if n == 0 then 0 else MilestoneSum(e, n - 1) + e.milestones[n - 1].amount
  }

  function CountApproved(statuses: seq<MilestoneStatus>): int
  {
    if statuses == [] then 0
    else CountApproved(statuses[..|statuses| - 1]) + (if statuses[|statuses| - 1] == Approved then 1 else 0)
  }

  predicate AllRejected(e: Escrow) { forall i :: 0 <= i < |e.statuses| ==> e.statuses[i] == Rejected }

  /** Replaces escrow i and moves `out` tokens of its asset out of the vault (in, if negative). */
  function Put(s: State, i: nat, e: Escrow, out: int): State
    requires i < |s.escrows|
  {
    s.(escrows := s.escrows[i := e], vault := s.vault[e.asset := Get(s.vault, e.asset) - out])
  }

  function Create(s: State, now: int, signed: set<Address>, funder: Address, receiver: Address, arbitrator: Address,
                  asset: Address, milestones: seq<Milestone>, feeBps: int, deadline: int)
    : (State, Result<nat, HubError>)
  {
    if s.paused then (s, Err(IsPaused))
    else if feeBps > 10000 then (s, Err(FeeBpsExceedsMaximum))
    else if milestones == [] then (s, Err(InvalidArgument))
    else if deadline <= now then (s, Err(DeadlineAlreadyPassed))
    else if funder !in signed then (s, Panic)
    else
      (s.(escrows := s.escrows + [Escrow(funder, receiver, arbitrator, asset, milestones, feeBps, deadline, 0, 0, 0,
                                         seq(|milestones|, i => Pending), Active, 0, 0, false)]),
       Ok(|s.escrows|))
  }

  /** The checks that open every later call: not paused, escrow known, status as expected. */
  function Refusal(s: State, i: nat, expected: EscrowStatus): Option<HubError>
  {
    if s.paused then Some(IsPaused)
    else if i >= |s.escrows| then Some(EscrowNotFound)
    else if s.escrows[i].status != expected then Some(InvalidEscrowStatus)
    else None
  }

  function FundEscrow(s: State, signed: set<Address>, funded: bool, i: nat, amount: int): (State, Reply)
  {
    if s.paused then (s, Err(IsPaused))
    else if amount <= 0 then (s, Err(InvalidArgument))
    else if Refusal(s, i, Active).Some? then (s, Err(Refusal(s, i, Active).value))
    else if s.escrows[i].funder !in signed || !funded then (s, Panic)
    else
      var e := s.escrows[i];
      (Put(s, i, e.(deposited := e.deposited + amount), -amount), Ok(()))
  }

  function Submit(s: State, signed: set<Address>, i: nat, k: nat): (State, Reply)
  {
    if Refusal(s, i, Active).Some? then (s, Err(Refusal(s, i, Active).value))
    else
      var e := s.escrows[i];
      if k >= |e.milestones| then (s, Err(InvalidArgument))
      else if e.receiver !in signed then (s, Panic)
      else if k >= |e.statuses| then (s, Err(InvalidArgument))
      else if e.statuses[k] != Pending then (s, Err(MilestoneAlreadySubmitted))
      else (Put(s, i, e.(statuses := e.statuses[k := Submitted]), 0), Ok(()))
  }

  /** approve_milestone (verdict Approved) and reject_milestone (verdict Rejected). */
  function Judge(s: State, signed: set<Address>, i: nat, k: nat, approve: bool): (State, Reply)
  {
    if Refusal(s, i, Active).Some? then (s, Err(Refusal(s, i, Active).value))
    else
      var e := s.escrows[i];
      if k >= |e.milestones| then (s, Err(InvalidArgument))
      else if e.milestones[k].approver !in signed then (s, Panic)
      else if k >= |e.statuses| then (s, Err(InvalidArgument))
      else if e.statuses[k] != Submitted then (s, Err(MilestoneNotApprovable))
      else if approve then
        (Put(s, i, e.(statuses := e.statuses[k := Approved], completed := e.completed + 1), 0), Ok(()))
      else (Put(s, i, e.(statuses := e.statuses[k := Rejected]), 0), Ok(()))
  }

  function Release(s: State, i: nat): (State, Reply)
  {
    if Refusal(s, i, Active).Some? then (s, Err(Refusal(s, i, Active).value))
    else
      var e := s.escrows[i];
      if |e.statuses| < |e.milestones| then (s, Err(InvalidArgument))
      else
        var amount := ApprovedSum(e, |e.milestones|) - e.released;
        if amount <= 0 || e.deposited - e.released < amount then (s, Err(InsufficientEscrowBalance))
        else if Get(s.vault, e.asset) < amount then (s, Panic)
        else
          (Put(s, i, e.(released := e.released + amount, toReceiver := e.toReceiver + amount,
                        status := if e.completed == |e.milestones| then Completed else Active), amount),
           Ok(()))
  }

  function Refund(s: State, now: int, signed: set<Address>, i: nat): (State, Reply)
  {
    if Refusal(s, i, Active).Some? then (s, Err(Refusal(s, i, Active).value))
    else if s.escrows[i].funder !in signed then (s, Panic)
    else
      var e := s.escrows[i];
      var remaining := e.deposited - e.released;
      if remaining <= 0 then (s, Err(InsufficientEscrowBalance))
      else if !AllRejected(e) && now < e.deadline then (s, Err(DeadlineNotReached))
      else if Get(s.vault, e.asset) < remaining then (s, Panic)
      else
        (Put(s, i, e.(released := e.released + remaining, toFunder := e.toFunder + remaining, status := Refunded),
             remaining),
         Ok(()))
  }

  function Dispute(s: State, signed: set<Address>, i: nat, who: Address): (State, Reply)
  {
    if Refusal(s, i, Active).Some? then (s, Err(Refusal(s, i, Active).value))
    else
      var e := s.escrows[i];
      if who != e.funder && who != e.receiver then (s, Err(Unauthorized))
      else if who !in signed then (s, Panic)
      else (Put(s, i, e.(status := Disputed), 0), Ok(()))
  }

  function Resolve(s: State, signed: set<Address>, i: nat, outcome: string): (State, Reply)
  {
    if Refusal(s, i, Disputed).Some? then (s, Err(Refusal(s, i, Disputed).value))
    else if s.escrows[i].arbitrator !in signed then (s, Panic)
    else
      var e := s.escrows[i];
      var remaining := e.deposited - e.released;
      if remaining <= 0 then (s, Err(InsufficientEscrowBalance))
      else if outcome != "release" && outcome != "refund" then (s, Err(InvalidArgument))
      else if Get(s.vault, e.asset) < remaining then (s, Panic)
      else if outcome == "release" then
        (Put(s, i, e.(released := e.released + remaining, toReceiver := e.toReceiver + remaining,
                      status := Completed, ruled := true), remaining), Ok(()))
      else
        (Put(s, i, e.(released := e.released + remaining, toFunder := e.toFunder + remaining,
                      status := Refunded, ruled := true), remaining), Ok(()))
  }

  function SetPaused(s: State, signed: set<Address>, caller: Address, paused: bool): (State, Reply)
  {
    if caller != s.admin then (s, Err(Unauthorized))
    else if caller !in signed then (s, Panic)
    else (s.(paused := paused), Ok(()))
  }

  // ---------------------------------------------------------------- runs

  datatype Call =
    | CallCreate(now: int, signed: set<Address>, funder: Address, receiver: Address, arbitrator: Address, asset: Address,
                 milestones: seq<Milestone>, feeBps: int, deadline: int)
    | CallFund(signed: set<Address>, funded: bool, id: nat, amount: int)
    | CallSubmit(signed: set<Address>, id: nat, k: nat)
    | CallJudge(signed: set<Address>, id: nat, k: nat, approve: bool)
    | CallRelease(id: nat)
    | CallRefund(now: int, signed: set<Address>, id: nat)
    | CallDispute(signed: set<Address>, id: nat, who: Address)
    | CallResolve(signed: set<Address>, id: nat, outcome: string)
    | CallSetPaused(signed: set<Address>, who: Address, paused: bool)

  function Step(s: State, c: Call): State
  {
    match c
    case CallCreate(n, a, f, r, b, t, m, x, d) => Create(s, n, a, f, r, b, t, m, x, d).0
    case CallFund(a, f, i, x) => FundEscrow(s, a, f, i, x).0
    case CallSubmit(a, i, k) => Submit(s, a, i, k).0
    case CallJudge(a, i, k, v) => Judge(s, a, i, k, v).0
    case CallRelease(i) => Release(s, i).0
    case CallRefund(n, a, i) => Refund(s, n, a, i).0
    case CallDispute(a, i, w) => Dispute(s, a, i, w).0
    case CallResolve(a, i, o) => Resolve(s, a, i, o).0
    case CallSetPaused(a, w, p) => SetPaused(s, a, w, p).0
  }

  function Run(s: State, calls: seq<Call>): State
    decreases |calls|
  {
    if calls == [] then s else Run(Step(s, calls[0]), calls[1..])
  }

  function Fresh(admin: Address): State { State(admin, false, [], map[]) }

  /** What the vault owes for one asset: deposited - released over its escrows. */
  function Due(escrows: seq<Escrow>, asset: Address): int
  {
    if escrows == [] then 0
    else
      var e := escrows[|escrows| - 1];
      Due(escrows[..|escrows| - 1], asset) + (if e.asset == asset then e.deposited - e.released else 0)
  }

  predicate AllApproved(e: Escrow) { forall k :: 0 <= k < |e.statuses| ==> e.statuses[k] == Approved }

  /** Completed by release_funds: everything approved, and the receiver paid exactly the
      milestone sum. */
  ghost predicate CompletedOk(e: Escrow)
    requires |e.statuses| == |e.milestones|
  {
    AllApproved(e) && e.toFunder == 0 && e.toReceiver == MilestoneSum(e, |e.milestones|)
  }

  ghost predicate EscrowOk(e: Escrow)
  {
    && |e.statuses| == |e.milestones| > 0
    && 0 <= e.released <= e.deposited
    && e.completed == CountApproved(e.statuses)
    && 0 <= e.toReceiver && 0 <= e.toFunder && e.released == e.toReceiver + e.toFunder
    && (e.status == Active || e.status == Disputed ==> e.toFunder == 0 && !e.ruled)
    && (e.status == Refunded ==> e.released == e.deposited)
    && (e.ruled ==> e.released == e.deposited)
    && (e.status == Completed && !e.ruled ==> CompletedOk(e))
  }

  /** Every escrow is in order, and for each asset the vault holds exactly what is due. */
  ghost predicate Inv(s: State)
  {
    && (forall i :: 0 <= i < |s.escrows| ==> EscrowOk(s.escrows[i]))
    && (forall a :: Get(s.vault, a) == Due(s.escrows, a))
  }

  lemma {:induction false} DueUpdate(escrows: seq<Escrow>, i: nat, e: Escrow, asset: Address)
    requires i < |escrows| && e.asset == escrows[i].asset
    ensures Due(escrows[i := e], asset)
            == Due(escrows, asset)
               + (if e.asset == asset then (e.deposited - e.released) - (escrows[i].deposited - escrows[i].released) else 0)
  {
    var n := |escrows| - 1;
    if i < n {
      DueUpdate(escrows[..n], i, e, asset);
      assert escrows[i := e][..n] == escrows[..n][i := e];
    } else {
      assert escrows[i := e][..n] == escrows[..n];
    }
  }

  /** No term of the sum is negative, so the vault can always pay one escrow's remainder. */
  lemma {:induction false} DueCovers(escrows: seq<Escrow>, i: nat)
    requires i < |escrows| && forall k :: 0 <= k < |escrows| ==> EscrowOk(escrows[k])
    ensures 0 <= escrows[i].deposited - escrows[i].released <= Due(escrows, escrows[i].asset)
  {
    var n := |escrows| - 1;
    if i < n {
      DueCovers(escrows[..n], i);
    } else {
      DueNonNegative(escrows[..n], escrows[i].asset);
    }
  }

  lemma {:induction false} DueNonNegative(escrows: seq<Escrow>, asset: Address)
    requires forall k :: 0 <= k < |escrows| ==> EscrowOk(escrows[k])
    ensures 0 <= Due(escrows, asset)
  {
    if escrows != [] {
      DueNonNegative(escrows[..|escrows| - 1], asset);
    }
  }

  /** Replacing one escrow by a good one and moving the matching tokens keeps the vault exact. */
  lemma PutKeeps(s: State, i: nat, e: Escrow, out: int)
    requires Inv(s) && i < |s.escrows| && EscrowOk(e) && e.asset == s.escrows[i].asset
    requires e.deposited - e.released == s.escrows[i].deposited - s.escrows[i].released - out
    ensures Inv(Put(s, i, e, out))
  {
    forall a ensures Get(Put(s, i, e, out).vault, a) == Due(Put(s, i, e, out).escrows, a) {
      DueUpdate(s.escrows, i, e, a);
    }
  }

  lemma {:induction false} CountUpdate(statuses: seq<MilestoneStatus>, k: nat, v: MilestoneStatus)
    requires k < |statuses|
    ensures CountApproved(statuses[k := v])
            == CountApproved(statuses) - (if statuses[k] == Approved then 1 else 0) + (if v == Approved then 1 else 0)
  {
    var n := |statuses| - 1;
    if k < n {
      CountUpdate(statuses[..n], k, v);
      assert statuses[k := v][..n] == statuses[..n][k := v];
    } else {
      assert statuses[k := v][..n] == statuses[..n];
    }
  }

  /** The stored counter says "all" exactly when every milestone is approved. */
  lemma {:induction false} CountAll(statuses: seq<MilestoneStatus>)
    ensures 0 <= CountApproved(statuses) <= |statuses|
    ensures CountApproved(statuses) == |statuses| <==> forall k :: 0 <= k < |statuses| ==> statuses[k] == Approved
  {
    if statuses != [] {
      var n := |statuses| - 1;
      CountAll(statuses[..n]);
      if forall k :: 0 <= k < |statuses| ==> statuses[k] == Approved {
        assert forall k :: 0 <= k < n ==> statuses[..n][k] == statuses[k];
      }
      if CountApproved(statuses) == |statuses| {
        forall k | 0 <= k < |statuses| ensures statuses[k] == Approved {
          if k < n { assert statuses[..n][k] == statuses[k]; }
        }
      }
    }
  }

  lemma {:induction false} AllApprovedSum(e: Escrow, n: nat)
    requires |e.statuses| == |e.milestones| && n <= |e.milestones| && AllApproved(e)
    ensures ApprovedSum(e, n) == MilestoneSum(e, n)
  {
    if n > 0 { AllApprovedSum(e, n - 1); }
  }

  lemma CreateKeeps(s: State, c: Call)
    requires Inv(s) && c.CallCreate?
    ensures Inv(Step(s, c))
  {
    var t := Step(s, c);
    if t != s {
      var e := t.escrows[|s.escrows|];
      NoneApproved(|c.milestones|);
      assert t.escrows[..|t.escrows| - 1] == s.escrows;
      assert EscrowOk(e);
    }
  }

  lemma {:induction false} NoneApproved(n: nat)
    ensures CountApproved(seq(n, i => Pending)) == 0
  {
    if n > 0 {
      NoneApproved(n - 1);
      assert seq(n, i => Pending)[..n - 1] == seq(n - 1, i => Pending);
    }
  }

  lemma SubmitKeeps(s: State, signed: set<Address>, i: nat, k: nat)
    requires Inv(s)
    ensures Inv(Submit(s, signed, i, k).0)
  {
    if Submit(s, signed, i, k).1.Ok? {
      var e := s.escrows[i];
      CountUpdate(e.statuses, k, Submitted);
      PutKeeps(s, i, e.(statuses := e.statuses[k := Submitted]), 0);
    }
  }

  lemma JudgeKeeps(s: State, signed: set<Address>, i: nat, k: nat, approve: bool)
    requires Inv(s)
    ensures Inv(Judge(s, signed, i, k, approve).0)
  {
    if Judge(s, signed, i, k, approve).1.Ok? {
      var e := s.escrows[i];
      CountUpdate(e.statuses, k, if approve then Approved else Rejected);
      PutKeeps(s, i, Judge(s, signed, i, k, approve).0.escrows[i], 0);
    }
  }

  lemma ReleaseKeeps(s: State, i: nat)
    requires Inv(s)
    ensures Inv(Release(s, i).0) && !Release(s, i).1.Panic?
  {
    if Refusal(s, i, Active) == None {
      var e := s.escrows[i];
      DueCovers(s.escrows, i);
      CountAll(e.statuses);
      if AllApproved(e) { AllApprovedSum(e, |e.milestones|); }
      if Release(s, i).1.Ok? {
        var e' := Release(s, i).0.escrows[i];
        assert MilestoneSum(e', |e'.milestones|) == MilestoneSum(e, |e.milestones|) by { SameSum(e, e', |e.milestones|); }
        PutKeeps(s, i, e', e'.released - e.released);
      }
    }
  }

  lemma {:induction false} SameSum(e: Escrow, f: Escrow, n: nat)
    requires e.milestones == f.milestones && n <= |e.milestones|
    ensures MilestoneSum(e, n) == MilestoneSum(f, n)
  {
    if n > 0 { SameSum(e, f, n - 1); }
  }

  lemma RefundKeeps(s: State, now: int, signed: set<Address>, i: nat)
    requires Inv(s)
    ensures Inv(Refund(s, now, signed, i).0)
  {
    if Refund(s, now, signed, i).1.Ok? {
      var e := s.escrows[i];
      assert EscrowOk(e);
      PutKeeps(s, i, Refund(s, now, signed, i).0.escrows[i], e.deposited - e.released);
    }
  }

  lemma ResolveKeeps(s: State, signed: set<Address>, i: nat, outcome: string)
    requires Inv(s)
    ensures Inv(Resolve(s, signed, i, outcome).0)
  {
    if Resolve(s, signed, i, outcome).1.Ok? {
      var e := s.escrows[i];
      assert EscrowOk(e);
      PutKeeps(s, i, Resolve(s, signed, i, outcome).0.escrows[i], e.deposited - e.released);
    }
  }

  lemma FundKeeps(s: State, signed: set<Address>, funded: bool, i: nat, amount: int)
    requires Inv(s)
    ensures Inv(FundEscrow(s, signed, funded, i, amount).0)
  {
    if FundEscrow(s, signed, funded, i, amount).1.Ok? {
      assert EscrowOk(s.escrows[i]);
      PutKeeps(s, i, s.escrows[i].(deposited := s.escrows[i].deposited + amount), -amount);
    }
  }

  lemma DisputeKeeps(s: State, signed: set<Address>, i: nat, who: Address)
    requires Inv(s)
    ensures Inv(Dispute(s, signed, i, who).0)
  {
    if Dispute(s, signed, i, who).1.Ok? {
      assert EscrowOk(s.escrows[i]);
      PutKeeps(s, i, s.escrows[i].(status := Disputed), 0);
    }
  }

  lemma StepKeeps(s: State, c: Call)
    requires Inv(s)
    ensures Inv(Step(s, c))
  {
    match c
    case CallCreate(_, _, _, _, _, _, _, _, _) => CreateKeeps(s, c);
    case CallSubmit(a, i, k) => SubmitKeeps(s, a, i, k);
    case CallJudge(a, i, k, v) => JudgeKeeps(s, a, i, k, v);
    case CallRelease(i) => ReleaseKeeps(s, i);
    case CallSetPaused(a, w, p) =>
    case CallFund(a, f, i, x) => FundKeeps(s, a, f, i, x);
    case CallRefund(n, a, i) => RefundKeeps(s, n, a, i);
    case CallDispute(a, i, w) => DisputeKeeps(s, a, i, w);
    case CallResolve(a, i, o) => ResolveKeeps(s, a, i, o);
  }

  /** In every reachable state the vault holds, per asset, exactly what its escrows are due. */
  lemma {:induction false} RunKeeps(s: State, calls: seq<Call>)
    requires Inv(s)
    ensures Inv(Run(s, calls))
    decreases |calls|
  {
    if calls != [] {
      StepKeeps(s, calls[0]);
      RunKeeps(Step(s, calls[0]), calls[1..]);
    }
  }

  /** An open escrow's remainder is always there: no payout call aborts for want of tokens. */
  lemma PayoutsCovered(s: State, now: int, signed: set<Address>, i: nat, outcome: string)
    requires Inv(s) && (i < |s.escrows| ==> s.escrows[i].funder in signed && s.escrows[i].arbitrator in signed)
    ensures !Release(s, i).1.Panic? && !Refund(s, now, signed, i).1.Panic? && !Resolve(s, signed, i, outcome).1.Panic?
  {
    if i < |s.escrows| {
      DueCovers(s.escrows, i);
      ReleaseKeeps(s, i);
    }
  }

  /** From s to t, escrow i becomes f and `out` tokens of its asset leave the vault; no other escrow
      and no other balance moves. */
  ghost predicate Becomes(s: State, t: State, i: nat, f: Escrow, out: int)
  {
    && i < |s.escrows| == |t.escrows| && t == s.(escrows := t.escrows, vault := t.vault)
    && t.escrows[i] == f && (forall k :: 0 <= k < |s.escrows| && k != i ==> t.escrows[k] == s.escrows[k])
    && Moved(s.vault, t.vault, f.asset, -out)
  }

  /** create_escrow goes through exactly on a running manager, with a fee of at most the whole, at
      least one milestone and a deadline to come, signed by the funder. The new escrow has the next
      id and the terms as given; it is active, holds nothing, and every milestone is pending. */
  lemma CreateOutcome(s: State, now: int, signed: set<Address>, funder: Address, receiver: Address, arbitrator: Address,
                      asset: Address, milestones: seq<Milestone>, feeBps: int, deadline: int)
    ensures var (t, r) := Create(s, now, signed, funder, receiver, arbitrator, asset, milestones, feeBps, deadline);
            && (r.Ok? <==> !s.paused && feeBps <= 10000 && 0 < |milestones| && now < deadline && funder in signed)
            && (!r.Ok? ==> t == s)
            && (r.Ok? ==>
                  && r.value == |s.escrows| && |t.escrows| == |s.escrows| + 1 && t == s.(escrows := t.escrows)
                  && (forall k :: 0 <= k < |s.escrows| ==> t.escrows[k] == s.escrows[k])
                  && var e := t.escrows[r.value];
                     && e.funder == funder && e.receiver == receiver && e.arbitrator == arbitrator && e.asset == asset
                     && e.milestones == milestones && e.feeBps == feeBps && e.deadline == deadline
                     && |e.statuses| == |milestones| && (forall k :: 0 <= k < |milestones| ==> e.statuses[k] == Pending)
                     && e.status == Active && !e.ruled
                     && e.deposited == e.released == e.completed == e.toReceiver == e.toFunder == 0)
  {}

  /** fund_escrow goes through exactly on an active escrow, with a positive amount that its funder
      signed and paid; escrow and vault grow by it. */
  lemma FundOutcome(s: State, signed: set<Address>, funded: bool, i: nat, amount: int)
    requires i < |s.escrows|
    ensures var e := s.escrows[i];
            var (t, r) := FundEscrow(s, signed, funded, i, amount);
            && (r.Ok? <==> !s.paused && e.status == Active && amount > 0 && e.funder in signed && funded)
            && (!r.Ok? ==> t == s)
            && (r.Ok? ==> Becomes(s, t, i, e.(deposited := e.deposited + amount), -amount))
  {}

  /** dispute goes through exactly on an active escrow, signed by its funder or its receiver; it
      changes the status and nothing else. */
  lemma DisputeOutcome(s: State, signed: set<Address>, i: nat, who: Address)
    requires i < |s.escrows|
    ensures var e := s.escrows[i];
            var (t, r) := Dispute(s, signed, i, who);
            && (r.Ok? <==> !s.paused && e.status == Active && who in {e.funder, e.receiver} && who in signed)
            && (r == Err(Unauthorized) <==> !s.paused && e.status == Active && who !in {e.funder, e.receiver})
            && (!r.Ok? ==> t == s)
            && (r.Ok? ==> Becomes(s, t, i, e.(status := Disputed), 0))
  {}

  /** Calls on an escrow that was never created. */
  lemma UnknownEscrow(s: State, c: Call)
    requires !c.CallCreate? && !c.CallSetPaused? && |s.escrows| <= c.id
    ensures Step(s, c) == s
  {}

  /** release_funds goes through exactly when the escrow is active, more has been approved than
      was paid, and the deposit covers it. The receiver then has been paid exactly the approved
      milestones out of the vault, and the escrow is Completed exactly when that is all of them. */
  lemma ReleaseOutcome(s: State, i: nat)
    requires Inv(s) && i < |s.escrows|
    ensures var e := s.escrows[i];
            var (t, r) := Release(s, i);
            && (r.Ok? <==> !s.paused && e.status == Active
                           && e.toReceiver < Releasable(e) <= e.deposited)
            && (!r.Ok? ==> t == s)
            && (r.Ok? ==>
                  Becomes(s, t, i, e.(released := Releasable(e), toReceiver := Releasable(e),
                                      status := if AllApproved(e) then Completed else Active),
                          Releasable(e) - e.toReceiver))
  {
    DueCovers(s.escrows, i);
    CountAll(s.escrows[i].statuses);
    ReleaseKeeps(s, i);
  }

  /** refund goes through exactly when the funder signs, something is left, and either every
      milestone was rejected or the deadline has passed; all that is left goes to the funder. */
  lemma RefundOutcome(s: State, now: int, signed: set<Address>, i: nat)
    requires Inv(s) && i < |s.escrows|
    ensures var e := s.escrows[i];
            var (t, r) := Refund(s, now, signed, i);
            && (r.Ok? <==> !s.paused && e.status == Active && e.funder in signed && e.released < e.deposited
                           && (AllRejected(e) || now >= e.deadline))
            && (r == Err(DeadlineNotReached) <==> !s.paused && e.status == Active && e.funder in signed
                                                  && e.released < e.deposited && !AllRejected(e) && now < e.deadline)
            && (!r.Ok? ==> t == s)
            && (r.Ok? ==>
                  Becomes(s, t, i, e.(released := e.deposited, toFunder := e.deposited - e.released, status := Refunded),
                          e.deposited - e.released))
  {
    DueCovers(s.escrows, i);
  }

  /** resolve goes through exactly on a dispute over something, signed by the arbitrator, with
      one of the two outcomes; the winner gets all that is left. */
  lemma ResolveOutcome(s: State, signed: set<Address>, i: nat, outcome: string)
    requires Inv(s) && i < |s.escrows|
    ensures var e := s.escrows[i];
            var (t, r) := Resolve(s, signed, i, outcome);
            && (r.Ok? <==> !s.paused && e.status == Disputed && e.arbitrator in signed && e.released < e.deposited
                           && (outcome == "release" || outcome == "refund"))
            && (!r.Ok? ==> t == s)
            && (r.Ok? ==>
                  var left := e.deposited - e.released;
                  Becomes(s, t, i, if outcome == "release"
                                   then e.(released := e.deposited, toReceiver := e.toReceiver + left,
                                           status := Completed, ruled := true)
                                   else e.(released := e.deposited, toFunder := left, status := Refunded, ruled := true),
                          left))
  {
    DueCovers(s.escrows, i);
  }

  /** Changing one status moves what is releasable by that milestone's amount, when the change is
      to Approved from something else, and not at all when neither is Approved. */
  lemma {:induction false} ApprovedSumUpdate(e: Escrow, k: nat, v: MilestoneStatus, n: nat)
    requires k < |e.statuses| == |e.milestones| && n <= |e.milestones| && e.statuses[k] != Approved
    ensures ApprovedSum(e.(statuses := e.statuses[k := v]), n)
            == ApprovedSum(e, n) + (if v == Approved && k < n then e.milestones[k].amount else 0)
  {
    if n > 0 { ApprovedSumUpdate(e, k, v, n - 1); }
  }

  lemma {:induction false} SameApproved(e: Escrow, f: Escrow, n: nat)
    requires e.milestones == f.milestones && e.statuses == f.statuses && n <= |e.milestones| == |e.statuses|
    ensures ApprovedSum(e, n) == ApprovedSum(f, n)
  {
    if n > 0 { SameApproved(e, f, n - 1); }
  }

  /** submit_milestone goes through exactly on a pending milestone of an active escrow, signed by
      the receiver; it releases nothing. */
  lemma SubmitOutcome(s: State, signed: set<Address>, i: nat, k: nat)
    requires Inv(s) && i < |s.escrows|
    ensures var e := s.escrows[i];
            var (t, r) := Submit(s, signed, i, k);
            && (r.Ok? <==> !s.paused && e.status == Active && k < |e.statuses| && e.receiver in signed && e.statuses[k] == Pending)
            && (!r.Ok? ==> t == s)
            && (r.Ok? ==>
                  var f := e.(statuses := e.statuses[k := Submitted]);
                  Becomes(s, t, i, f, 0) && Releasable(f) == Releasable(e))
  {
    var e := s.escrows[i];
    if Submit(s, signed, i, k).1.Ok? { ApprovedSumUpdate(e, k, Submitted, |e.milestones|); }
  }

  /** A verdict goes through exactly on a submitted milestone of an active escrow, signed by its
      approver. Approval makes exactly that milestone's amount releasable, rejection nothing. */
  lemma JudgeOutcome(s: State, signed: set<Address>, i: nat, k: nat, approve: bool)
    requires Inv(s) && i < |s.escrows|
    ensures var e := s.escrows[i];
            var (t, r) := Judge(s, signed, i, k, approve);
            && (r.Ok? <==> !s.paused && e.status == Active && k < |e.milestones| && e.milestones[k].approver in signed
                           && k < |e.statuses| && e.statuses[k] == Submitted)
            && (!r.Ok? ==> t == s)
            && (r.Ok? ==>
                  var f := t.escrows[i];
                  && Becomes(s, t, i, e.(statuses := f.statuses, completed := f.completed), 0)
                  && f.statuses == e.statuses[k := if approve then Approved else Rejected]
                  && f.completed == CountApproved(f.statuses)
                  && Releasable(f) == Releasable(e) + (if approve then e.milestones[k].amount else 0))
  {
    var e := s.escrows[i];
    if Judge(s, signed, i, k, approve).1.Ok? {
      var f := Judge(s, signed, i, k, approve).0.escrows[i];
      var v := if approve then Approved else Rejected;
      JudgeKeeps(s, signed, i, k, approve);
      assert EscrowOk(f);
      ApprovedSumUpdate(e, k, v, |e.milestones|);
      SameApproved(f, e.(statuses := e.statuses[k := v]), |e.milestones|);
    }
  }

  /** While an escrow is in dispute, only resolve changes it. */
  lemma DisputeWaits(s: State, i: nat, c: Call)
    requires i < |s.escrows| && s.escrows[i].status == Disputed && !c.CallResolve?
    ensures i < |Step(s, c).escrows| && Step(s, c).escrows[i] == s.escrows[i]
  {}

  /** A paused manager refuses everything but the switch itself. */
  lemma PausedFreezes(s: State, c: Call)
    requires s.paused && !c.CallSetPaused?
    ensures Step(s, c) == s
  {}

  // ---------------------------------------------------------------- what never comes back

  /** Pending may become anything, Submitted a verdict, and a verdict nothing else. */
  predicate Reaches(x: MilestoneStatus, y: MilestoneStatus)
  {
    x == y || x == Pending || (x == Submitted && (y == Approved || y == Rejected))
  }

  /** An escrow no call can change any more: closed, or disputed with nothing left to award. */
  predicate Frozen(e: Escrow)
  {
    e.status == Completed || e.status == Refunded || (e.status == Disputed && e.deposited == e.released)
  }

  ghost predicate Later(e: Escrow, f: Escrow)
  {
    && f.funder == e.funder && f.receiver == e.receiver && f.arbitrator == e.arbitrator
    && f.asset == e.asset && f.milestones == e.milestones && f.deadline == e.deadline && f.feeBps == e.feeBps
    && e.deposited <= f.deposited && e.toReceiver <= f.toReceiver && e.toFunder <= f.toFunder
    && |e.statuses| == |f.statuses| && (forall k :: 0 <= k < |e.statuses| ==> Reaches(e.statuses[k], f.statuses[k]))
    && (Frozen(e) ==> f == e)
  }

  /** A call changes at most the escrow it names. */
  lemma OthersUntouched(s: State, c: Call, i: nat)
    requires i < |s.escrows|
    requires c.CallCreate? || c.CallSetPaused? || c.id != i
    ensures i < |Step(s, c).escrows| && Step(s, c).escrows[i] == s.escrows[i]
  {}

  lemma VoteLater(s: State, c: Call)
    requires Inv(s) && (c.CallSubmit? || c.CallJudge?) && c.id < |s.escrows|
    ensures c.id < |Step(s, c).escrows| && Later(s.escrows[c.id], Step(s, c).escrows[c.id])
  {}

  lemma PayLater(s: State, c: Call)
    requires Inv(s) && (c.CallRelease? || c.CallRefund? || c.CallResolve?) && c.id < |s.escrows|
    ensures c.id < |Step(s, c).escrows| && Later(s.escrows[c.id], Step(s, c).escrows[c.id])
  {
    assert EscrowOk(s.escrows[c.id]);
  }

  lemma OpenLater(s: State, c: Call)
    requires Inv(s) && (c.CallFund? || c.CallDispute?) && c.id < |s.escrows|
    ensures c.id < |Step(s, c).escrows| && Later(s.escrows[c.id], Step(s, c).escrows[c.id])
  {}

  lemma StepLater(s: State, c: Call, i: nat)
    requires Inv(s) && i < |s.escrows|
    ensures i < |Step(s, c).escrows| && Later(s.escrows[i], Step(s, c).escrows[i])
  {
    if c.CallCreate? || c.CallSetPaused? || c.id != i {
      OthersUntouched(s, c, i);
    } else if c.CallSubmit? || c.CallJudge? {
      VoteLater(s, c);
    } else if c.CallRelease? || c.CallRefund? || c.CallResolve? {
      PayLater(s, c);
    } else {
      OpenLater(s, c);
    }
  }

  /** Over every run: parties and milestones are fixed, payments only grow, verdicts stand,
      Completed and Refunded are final, and so is a dispute over nothing. */
  lemma {:induction false} RunLater(s: State, calls: seq<Call>, i: nat)
    requires Inv(s) && i < |s.escrows|
    ensures i < |Run(s, calls).escrows| && Later(s.escrows[i], Run(s, calls).escrows[i])
    decreases |calls|
  {
    if calls != [] {
      var m := Step(s, calls[0]);
      StepKeeps(s, calls[0]);
      StepLater(s, calls[0], i);
      RunLater(m, calls[1..], i);
      LaterTrans(s.escrows[i], m.escrows[i], Run(s, calls).escrows[i]);
    }
  }

  lemma LaterTrans(e: Escrow, f: Escrow, g: Escrow)
    requires Later(e, f) && Later(f, g)
    ensures Later(e, g)
  {
    forall k | 0 <= k < |e.statuses| ensures Reaches(e.statuses[k], g.statuses[k]) {
      assert Reaches(e.statuses[k], f.statuses[k]) && Reaches(f.statuses[k], g.statuses[k]);
    }
  }

  /** A dispute over an escrow that nobody funded. */
  function UnfundedDispute(now: int, e: Escrow): seq<Call>
  {
    [CallCreate(now, {e.funder}, e.funder, e.receiver, e.arbitrator, e.asset, e.milestones, e.feeBps, e.deadline),
     CallDispute({e.funder}, 0, e.funder)]
  }

  lemma UnfundedDisputeState(admin: Address, now: int, e: Escrow)
    requires e.milestones != [] && e.feeBps <= 10000 && now < e.deadline
    ensures var t := Run(Fresh(admin), UnfundedDispute(now, e));
            Inv(t) && |t.escrows| == 1 && t.escrows[0].status == Disputed && t.escrows[0].deposited == 0 == t.escrows[0].released
  {
    var s, pair := Fresh(admin), UnfundedDispute(now, e);
    var s1 := Step(s, pair[0]);
    var s2 := Step(s1, pair[1]);
    assert pair[1..] == [pair[1]] && [pair[1]][1..] == [];
    assert Run(s1, [pair[1]]) == Run(s2, []);
    assert Run(s, pair) == s2;
    StepKeeps(s, pair[0]);
    StepKeeps(s1, pair[1]);
  }

  /** Two calls on a new manager reach such a dispute, and no later calls of any kind close it. */
  lemma UnfundedDisputeIsStuck(admin: Address, now: int, e: Escrow, calls: seq<Call>, signed: set<Address>, outcome: string)
    requires e.milestones != [] && e.feeBps <= 10000 && now < e.deadline
    ensures var t := Run(Run(Fresh(admin), UnfundedDispute(now, e)), calls);
            && |t.escrows| > 0 && t.escrows[0].status == Disputed && t.escrows[0].deposited == 0
            && !Resolve(t, signed, 0, outcome).1.Ok?
  {
    hide Inv, Run;
    UnfundedDisputeState(admin, now, e);
    RunLater(Run(Fresh(admin), UnfundedDispute(now, e)), calls, 0);
  }
}
