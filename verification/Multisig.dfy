/** The multisig bridge as values: proposals gather votes and execute at the threshold. */
module Multisig {
  import opened Outcomes
  import opened Quorum
  import opened Totals

  datatype BridgeError =
    | NotAdmin | NotSigner | ProposalNotFound | ProposalAlreadyExecuted | ProposalExpired
    | DuplicateApproval | DuplicateSigner | SignerNotFound | CannotRemoveBelowThreshold
    | CannotRemoveLastSigner | InvalidThreshold | DepositAlreadyProcessed | VolumeCapExceeded
    | InvalidAmount | AlreadyPaused | InvalidProposalKind

  datatype Status = Pending | Executed | Rejected | Expired

  datatype Kind = MintWpi | ReleaseUsdc | OtherKind

  type Byte = x: int | 0 <= x < 256

  /** A 32-byte deposit id. */
  type DepositId = d: seq<Byte> | |d| == 32 witness seq(32, i => 0)

  /** rolls[i] is who was an active signer when approvals[i] voted; it is not stored by the
      contract, and no call reads it. */
  datatype Proposal = Proposal(kind: Kind, proposer: Address, target: Address, amount: int, deposit: DepositId,
                               approvals: seq<Address>, rolls: seq<set<Address>>, status: Status,
                               createdAt: int, executedAt: Option<int>)

  /** Which proposal was executed, the threshold in force then, the ledger and the amount. */
  datatype Execution = Execution(id: nat, threshold: int, ledger: int, amount: int)

  /** Contract storage (proposal i is proposals[i]) plus the log of executions. */
  datatype State = State(
    admin: Address, signers: Signers, signerCount: int, threshold: int, proposals: seq<Proposal>,
    nonces: set<int>, windowStart: int, volume: int, volumeCap: int, windowLedgers: int,
    paused: bool, maxAge: int, executions: seq<Execution>)

  /** Big-endian value of a byte string. */
  function BigEndian(bytes: seq<Byte>): int
  {
    if bytes == [] then 0 else BigEndian(bytes[..|bytes| - 1]) * 256 + bytes[|bytes| - 1]
  }

  /** The replay key of a deposit: its first eight bytes. */
  function NonceOf(d: DepositId): int { BigEndian(d[..8]) }

  function Propose(s: State, now: int, auth: bool, proposer: Address, kind: Kind, target: Address, amount: int,
                   deposit: DepositId): (State, Result<nat, BridgeError>)
  {
    if !auth then (s, Panic)
    else if s.paused then (s, Err(AlreadyPaused))
    else if !IsSigner(s.signers, proposer) then (s, Err(NotSigner))
    else if amount <= 0 then (s, Err(InvalidAmount))
    else if kind == OtherKind then (s, Err(InvalidProposalKind))
    else if NonceOf(deposit) in s.nonces then (s, Err(DepositAlreadyProcessed))
    else if s.volumeCap > 0 && s.volume + amount > s.volumeCap then (s, Err(VolumeCapExceeded))
    else
      (s.(proposals := s.proposals + [Proposal(kind, proposer, target, amount, deposit, [proposer],
                                               [Active(s.signers)], Pending, now, None)]),
       Ok(|s.proposals|))
  }

  /** Volume tracking at execution: no cap is checked here. */
  function AddVolume(s: State, now: int, amount: int): State
  {
    var expired := now >= s.windowStart + s.windowLedgers;
    s.(windowStart := if expired then now else s.windowStart,
       volume := (if expired then 0 else s.volume) + amount)
  }

  /** Effects of executing p besides its own record. */
  function Execute(s: State, now: int, p: Proposal): State
  {
    if p.kind == OtherKind then s else AddVolume(s.(nonces := s.nonces + {NonceOf(p.deposit)}), now, p.amount)
  }

  function Approve(s: State, now: int, auth: bool, tokenOk: bool, signer: Address, id: nat)
    : (State, Result<Status, BridgeError>)
  {
    if !auth then (s, Panic)
    else if !IsSigner(s.signers, signer) then (s, Err(NotSigner))
    else if id >= |s.proposals| then (s, Err(ProposalNotFound))
    else
      var p := s.proposals[id];
      if p.status != Pending then (s, Err(ProposalAlreadyExecuted))
      else if now > p.createdAt + s.maxAge then (s, Err(ProposalExpired))
      else if signer in p.approvals then (s, Err(DuplicateApproval))
      else
        var q := p.(approvals := p.approvals + [signer], rolls := p.rolls + [Active(s.signers)]);
        if |q.approvals| < s.threshold then (s.(proposals := s.proposals[id := q]), Ok(Pending))
        else if !tokenOk && p.kind != OtherKind then (s, Panic)
        else
          (Execute(s, now, q).(proposals := s.proposals[id := q.(status := Executed, executedAt := Some(now))],
                               executions := s.executions + [Execution(id, s.threshold, now, p.amount)]),
           Ok(Executed))
  }

  // The admin's calls; auth is the caller's authorisation.

  function AddSigner(s: State, auth: bool, caller: Address, a: Address): (State, Result<(), BridgeError>)
  {
    if caller != s.admin then (s, Err(NotAdmin))
    else if !auth then (s, Panic)
    else if IsSigner(s.signers, a) then (s, Err(DuplicateSigner))
    else (s.(signers := s.signers[a := true], signerCount := s.signerCount + 1), Ok(()))
  }

  function RemoveSigner(s: State, auth: bool, caller: Address, a: Address): (State, Result<(), BridgeError>)
  {
    if caller != s.admin then (s, Err(NotAdmin))
    else if !auth then (s, Panic)
    else if !IsSigner(s.signers, a) then (s, Err(SignerNotFound))
    else if s.signerCount <= 1 then (s, Err(CannotRemoveLastSigner))
    else if s.signerCount - 1 < s.threshold then (s, Err(CannotRemoveBelowThreshold))
    else (s.(signers := s.signers[a := false], signerCount := s.signerCount - 1), Ok(()))
  }

  function SetThreshold(s: State, auth: bool, caller: Address, n: nat): (State, Result<(), BridgeError>)
  {
    if caller != s.admin then (s, Err(NotAdmin))
    else if !auth then (s, Panic)
    else if n == 0 || n > s.signerCount then (s, Err(InvalidThreshold))
    else (s.(threshold := n), Ok(()))
  }

  /** The remaining settings, which any value may take. */
  datatype Setting = VolumeCap(cap: int, window: nat) | Paused(on: bool) | Admin(who: Address) | MaxAge(age: nat)

  function Configure(s: State, auth: bool, caller: Address, v: Setting): (State, Result<(), BridgeError>)
  {
    if caller != s.admin then (s, Err(NotAdmin))
    else if !auth then (s, Panic)
    else
      match v
      case VolumeCap(c, w) => (s.(volumeCap := c, windowLedgers := w), Ok(()))
      case Paused(b) => (s.(paused := b), Ok(()))
      case Admin(a) => (s.(admin := a), Ok(()))
      case MaxAge(n) => (s.(maxAge := n), Ok(()))
  }

  // ---------------------------------------------------------------- runs

  datatype Call =
    | CallPropose(now: int, auth: bool, who: Address, kind: Kind, target: Address, amount: int, deposit: DepositId)
    | CallApprove(now: int, auth: bool, tokenOk: bool, who: Address, id: nat)
    | CallAddSigner(auth: bool, caller: Address, who: Address)
    | CallRemoveSigner(auth: bool, caller: Address, who: Address)
    | CallSetThreshold(auth: bool, caller: Address, threshold: nat)
    | CallConfigure(auth: bool, caller: Address, setting: Setting)

  function Step(s: State, c: Call): State
  {
    match c
    case CallPropose(n, a, w, k, t, x, d) => Propose(s, n, a, w, k, t, x, d).0
    case CallApprove(n, a, k, w, i) => Approve(s, n, a, k, w, i).0
    case CallAddSigner(a, c, w) => AddSigner(s, a, c, w).0
    case CallRemoveSigner(a, c, w) => RemoveSigner(s, a, c, w).0
    case CallSetThreshold(a, c, n) => SetThreshold(s, a, c, n).0
    case CallConfigure(a, c, v) => Configure(s, a, c, v).0
  }

  function Run(s: State, calls: seq<Call>): State
    decreases |calls|
  {
    if calls == [] then s else Run(Step(s, calls[0]), calls[1..])
  }

  function Fresh(admin: Address, list: seq<Address>, threshold: int, cap: int, window: int, maxAge: int): State
  {
    State(admin, Enrol(list), |list|, threshold, [], {}, 0, 0, cap, window, false, maxAge, [])
  }

  /** Votes of pairwise distinct addresses, each an active signer when it voted. */
  ghost predicate VotesOk(p: Proposal)
  {
    && |p.rolls| == |p.approvals| && 1 <= |p.approvals| && Distinct(p.approvals)
    && forall i :: 0 <= i < |p.approvals| ==> p.approvals[i] in p.rolls[i]
  }

  ghost predicate ProposalOk(p: Proposal)
  {
    VotesOk(p) && p.kind != OtherKind && p.amount > 0 && (p.status == Pending || p.status == Executed)
  }

  /** No proposal is logged twice. */
  ghost predicate LogOnce(s: State)
  {
    forall i, j :: 0 <= i < j < |s.executions| ==> s.executions[i].id != s.executions[j].id
  }

  /** A logged execution: executed indeed, with at least two votes, and enough for the
      threshold in force at the time. */
  ghost predicate EntryOk(s: State, x: Execution)
  {
    && x.id < |s.proposals| && s.proposals[x.id].status == Executed
    && 1 <= x.threshold <= |s.proposals[x.id].approvals| && 2 <= |s.proposals[x.id].approvals|
  }

  ghost predicate Logged(s: State, id: nat) { exists i :: 0 <= i < |s.executions| && s.executions[i].id == id }

  /** Executed proposals are logged, and their replay keys are taken. */
  ghost predicate LogComplete(s: State)
  {
    forall id :: 0 <= id < |s.proposals| && s.proposals[id].status == Executed ==>
      NonceOf(s.proposals[id].deposit) in s.nonces && Logged(s, id)
  }

  /** The log names each executed proposal once, with a threshold its votes reached. */
  ghost predicate ExecutionsOk(s: State)
  {
    LogOnce(s) && LogComplete(s) && forall i :: 0 <= i < |s.executions| ==> EntryOk(s, s.executions[i])
  }

  ghost predicate Owned(s: State, n: int)
  {
    exists k :: 0 <= k < |s.proposals| && s.proposals[k].status == Executed && NonceOf(s.proposals[k].deposit) == n
  }

  /** Every taken replay key belongs to some executed proposal. */
  ghost predicate NoncesOk(s: State) { forall n :: n in s.nonces ==> Owned(s, n) }

  ghost predicate Inv(s: State)
  {
    && QuorumOk(s.signers, s.signerCount, s.threshold)
    && (forall i :: 0 <= i < |s.proposals| ==> ProposalOk(s.proposals[i]))
    && ExecutionsOk(s) && NoncesOk(s)
  }

  /** Old keys keep their proposals when the proposals only change as calls change them. */
  lemma NoncesStay(s: State, t: State, n: int)
    requires NoncesOk(s) && n in s.nonces && |s.proposals| <= |t.proposals|
    requires forall k :: 0 <= k < |s.proposals| && s.proposals[k].status == Executed ==> t.proposals[k] == s.proposals[k]
    ensures Owned(t, n)
  {
    assert Owned(s, n);
    var k :| 0 <= k < |s.proposals| && s.proposals[k].status == Executed && NonceOf(s.proposals[k].deposit) == n;
    assert t.proposals[k] == s.proposals[k];
  }

  /** Adding a pending proposal, or changing one that stays pending. */
  lemma PendingKeeps(s: State, t: State)
    requires ExecutionsOk(s) && NoncesOk(s) && |s.proposals| <= |t.proposals|
    requires t.executions == s.executions && t.nonces == s.nonces
    requires forall k :: 0 <= k < |s.proposals| && s.proposals[k].status == Executed ==> t.proposals[k] == s.proposals[k]
    requires forall k :: 0 <= k < |t.proposals| && t.proposals[k].status == Executed ==>
               k < |s.proposals| && s.proposals[k].status == Executed
    ensures ExecutionsOk(t) && NoncesOk(t)
  {
    forall i | 0 <= i < |t.executions| ensures EntryOk(t, t.executions[i]) { assert EntryOk(s, s.executions[i]); }
    forall k | 0 <= k < |t.proposals| && t.proposals[k].status == Executed ensures Logged(t, k) {
      assert Logged(s, k);
      var i :| 0 <= i < |s.executions| && s.executions[i].id == k;
      assert t.executions[i].id == k;
    }
    forall n | n in t.nonces ensures Owned(t, n) { NoncesStay(s, t, n); }
  }

  lemma ProposeKeeps(s: State, now: int, auth: bool, proposer: Address, kind: Kind, target: Address, amount: int,
                     deposit: DepositId)
    requires Inv(s)
    ensures Inv(Propose(s, now, auth, proposer, kind, target, amount, deposit).0)
  {
    var t := Propose(s, now, auth, proposer, kind, target, amount, deposit).0;
    if t != s {
      PendingKeeps(s, t);
      assert ProposalOk(t.proposals[|s.proposals|]);
    }
  }

  lemma VoteKeeps(p: Proposal, signer: Address, active: set<Address>)
    requires VotesOk(p) && signer in active && signer !in p.approvals
    ensures VotesOk(p.(approvals := p.approvals + [signer], rolls := p.rolls + [active]))
  {}

  /** t is s with proposal id executed. */
  ghost predicate Executes(s: State, t: State, id: nat)
  {
    && id < |s.proposals| && s.proposals[id].status == Pending && |t.proposals| == |s.proposals|
    && (forall i :: 0 <= i < |s.proposals| && i != id ==> t.proposals[i] == s.proposals[i])
    && t.proposals[id].status == Executed && |t.proposals[id].approvals| >= 2
    && 1 <= s.threshold <= |t.proposals[id].approvals|
    && (exists x :: t.executions == s.executions + [x] && x.id == id && x.threshold == s.threshold)
    && s.nonces <= t.nonces && NonceOf(t.proposals[id].deposit) in t.nonces
  }

  lemma ExecuteEntries(s: State, t: State, id: nat)
    requires ExecutionsOk(s) && Executes(s, t, id)
    ensures LogOnce(t) && forall i :: 0 <= i < |t.executions| ==> EntryOk(t, t.executions[i])
  {
    forall i | 0 <= i < |t.executions| ensures EntryOk(t, t.executions[i]) {
      if i < |s.executions| { assert EntryOk(s, s.executions[i]); }
    }
    forall i | 0 <= i < |s.executions| ensures s.executions[i].id != id { assert EntryOk(s, s.executions[i]); }
  }

  lemma ExecuteComplete(s: State, t: State, id: nat)
    requires LogComplete(s) && Executes(s, t, id)
    ensures LogComplete(t)
  {
    forall k | 0 <= k < |t.proposals| && t.proposals[k].status == Executed ensures Logged(t, k) {
      if k == id {
        assert t.executions[|s.executions|].id == k;
      } else {
        assert Logged(s, k);
        var i :| 0 <= i < |s.executions| && s.executions[i].id == k;
        assert t.executions[i].id == k;
      }
    }
  }

  /** Executing one proposal keeps every taken key with an executed proposal. */
  lemma ExecuteNonces(s: State, t: State, id: nat)
    requires NoncesOk(s) && Executes(s, t, id) && t.nonces == s.nonces + {NonceOf(t.proposals[id].deposit)}
    ensures NoncesOk(t)
  {
    forall n | n in t.nonces ensures Owned(t, n) {
      if n in s.nonces { NoncesStay(s, t, n); } else { assert NonceOf(t.proposals[id].deposit) == n; }
    }
  }

  lemma ApproveKeeps(s: State, now: int, auth: bool, tokenOk: bool, signer: Address, id: nat)
    requires Inv(s)
    ensures Inv(Approve(s, now, auth, tokenOk, signer, id).0)
  {
    var (t, r) := Approve(s, now, auth, tokenOk, signer, id);
    if r.Ok? {
      assert ProposalOk(s.proposals[id]);
      VoteKeeps(s.proposals[id], signer, Active(s.signers));
      if r.value == Executed {
        assert Executes(s, t, id);
        ExecuteEntries(s, t, id);
        ExecuteComplete(s, t, id);
        ExecuteNonces(s, t, id);
      } else {
        PendingKeeps(s, t);
      }
    }
  }

  /** The admin's calls touch neither proposals, nor replay keys, nor the log. */
  lemma AdminKeeps(s: State, t: State)
    requires Inv(s) && QuorumOk(t.signers, t.signerCount, t.threshold)
    requires t.proposals == s.proposals && t.nonces == s.nonces && t.executions == s.executions
    ensures Inv(t)
  {
    PendingKeeps(s, t);
  }

  lemma SignerBooks(s: State, c: Call)
    requires QuorumOk(s.signers, s.signerCount, s.threshold) && !c.CallPropose? && !c.CallApprove?
    ensures var t := Step(s, c);
            && QuorumOk(t.signers, t.signerCount, t.threshold)
            && t.proposals == s.proposals && t.nonces == s.nonces && t.executions == s.executions
  {
    match c
    case CallAddSigner(a, c, w) => if !IsSigner(s.signers, w) { AddActive(s.signers, w); }
    case CallRemoveSigner(a, c, w) => if IsSigner(s.signers, w) { RemoveActive(s.signers, w); }
    case CallSetThreshold(a, c, n) =>
    case CallConfigure(a, c, v) =>
  }

  lemma StepKeeps(s: State, c: Call)
    requires Inv(s)
    ensures Inv(Step(s, c))
  {
    match c
    case CallPropose(n, a, w, k, t, x, d) => ProposeKeeps(s, n, a, w, k, t, x, d);
    case CallApprove(n, a, k, w, i) => ApproveKeeps(s, n, a, k, w, i);
    case _ =>
      SignerBooks(s, c);
      AdminKeeps(s, Step(s, c));
  }

  /** A new bridge is in order exactly when the initial signer list has no repeats. */
  lemma FreshInv(admin: Address, list: seq<Address>, threshold: int, cap: int, window: int, maxAge: int)
    requires 1 <= threshold <= |list|
    ensures Inv(Fresh(admin, list, threshold, cap, window, maxAge)) <==> Distinct(list)
  {
    EnrolQuorum(list, threshold);
  }

  /** Every reachable state: signer books in order; every vote by a different address that was
      a signer then; every execution once, with the votes to reach its threshold; and no
      proposal ever rests in Expired or Rejected. */
  lemma {:induction false} RunKeeps(s: State, calls: seq<Call>)
    requires Inv(s)
    ensures Inv(Run(s, calls))
    decreases |calls|
  {
    if calls != [] {
      StepKeeps(s, calls[0]);
      RunKeeps(Step(s, calls[0]), calls[1..]);
    }
  }

  // ---------------------------------------------------------------- what an execution settles

  /** Proposals only grow in number; an executed one never changes; nonces are never forgotten. */
  ghost predicate Extends(s: State, t: State)
  {
    && |s.proposals| <= |t.proposals| && s.nonces <= t.nonces
    && s.executions <= t.executions
    && forall i :: 0 <= i < |s.proposals| ==>
         && t.proposals[i].deposit == s.proposals[i].deposit
         && (s.proposals[i].status == Executed ==> t.proposals[i] == s.proposals[i])
  }

  lemma ExtendsTrans(s: State, m: State, t: State)
    requires Extends(s, m) && Extends(m, t)
    ensures Extends(s, t)
  {
    forall i | 0 <= i < |s.proposals|
      ensures t.proposals[i].deposit == s.proposals[i].deposit
      ensures s.proposals[i].status == Executed ==> t.proposals[i] == s.proposals[i]
    {
      assert m.proposals[i].deposit == s.proposals[i].deposit;
    }
  }

  lemma {:induction false} RunExtends(s: State, calls: seq<Call>)
    ensures Extends(s, Run(s, calls))
    decreases |calls|
  {
    if calls == [] {
    } else {
      var m, t := Step(s, calls[0]), Run(s, calls);
      assert Extends(s, m);
      RunExtends(m, calls[1..]);
      ExtendsTrans(s, m, t);
    }
  }

  /** Once a proposal for a deposit has executed, it never changes again, approving it fails,
      and every later proposal whose id shares its first eight bytes is refused. */
  lemma ExecutedStaysClosed(s: State, calls: seq<Call>, id: nat, c: Call)
    requires Inv(s) && id < |s.proposals| && s.proposals[id].status == Executed
    ensures var t := Run(s, calls);
            && id < |t.proposals| && t.proposals[id] == s.proposals[id]
            && (c.CallApprove? && c.id == id ==> Step(t, c) == t)
            && (c.CallPropose? && c.deposit[..8] == s.proposals[id].deposit[..8] ==> Step(t, c) == t)
  {
    RunExtends(s, calls);
  }

  /** The replay key separates exactly the ids that differ in their first eight bytes. */
  lemma NonceSeparates(d: DepositId, e: DepositId)
    ensures NonceOf(d) == NonceOf(e) <==> d[..8] == e[..8]
  {
    BigEndianInjective(d[..8], e[..8]);
  }

  lemma {:induction false} BigEndianInjective(x: seq<Byte>, y: seq<Byte>)
    requires |x| == |y|
    ensures BigEndian(x) == BigEndian(y) <==> x == y
  {
    if x != [] {
      var n := |x| - 1;
      BigEndianInjective(x[..n], y[..n]);
      assert x == x[..n] + [x[n]] && y == y[..n] + [y[n]];
    }
  }

  /** When a vote executes a proposal, its deposit had been executed before exactly when the
      replay key was already taken; the code does not look. */
  lemma RepeatedDepositIff(s: State, now: int, signer: Address, id: nat)
    requires Inv(s) && Approve(s, now, true, true, signer, id).1 == Ok(Executed)
    ensures NonceOf(s.proposals[id].deposit) in s.nonces
            <==> exists k :: 0 <= k < |s.proposals| && k != id && s.proposals[k].status == Executed
                             && s.proposals[k].deposit[..8] == s.proposals[id].deposit[..8]
  {
    if NonceOf(s.proposals[id].deposit) in s.nonces {
      assert Owned(s, NonceOf(s.proposals[id].deposit));
      var k :| 0 <= k < |s.proposals| && s.proposals[k].status == Executed
               && NonceOf(s.proposals[k].deposit) == NonceOf(s.proposals[id].deposit);
      NonceSeparates(s.proposals[k].deposit, s.proposals[id].deposit);
    }
  }

  /** One vote short, not expired, not yet voted on by `signer`. */
  ghost predicate Ripe(s: State, now: int, signer: Address, id: nat)
  {
    && id < |s.proposals| && s.proposals[id].status == Pending
    && now <= s.proposals[id].createdAt + s.maxAge
    && signer !in s.proposals[id].approvals && |s.proposals[id].approvals| + 1 >= s.threshold
  }

  /** Two ripe proposals both execute, whatever their deposit ids. */
  lemma RipeBothExecute(s: State, now: int, signer: Address, i: nat, j: nat)
    requires IsSigner(s.signers, signer) && i != j && Ripe(s, now, signer, i) && Ripe(s, now, signer, j)
    ensures var (m, r) := Approve(s, now, true, true, signer, i);
            var (t, q) := Approve(m, now, true, true, signer, j);
            && r == Ok(Executed) && q == Ok(Executed)
            && t.executions == s.executions + [Execution(i, s.threshold, now, s.proposals[i].amount),
                                               Execution(j, s.threshold, now, s.proposals[j].amount)]
            && t.proposals[i].deposit == s.proposals[i].deposit && t.proposals[j].deposit == s.proposals[j].deposit
  {}

  /** One signer proposes the same deposit twice, the other approves both. */
  function TwinRun(now: int, a: Address, b: Address, target: Address, amount: int, d: DepositId): seq<Call>
  {
    [CallPropose(now, true, a, MintWpi, target, amount, d), CallPropose(now, true, a, MintWpi, target, amount, d),
     CallApprove(now, true, true, b, 0), CallApprove(now, true, true, b, 1)]
  }

  /** Two proposals make both twins ripe for the other signer. */
  lemma TwinsRipen(s: State, now: int, a: Address, b: Address, target: Address, amount: int, d: DepositId)
    requires a != b && IsSigner(s.signers, a) && s.threshold == 2 && s.proposals == [] && s.nonces == {} && !s.paused
    requires 0 < amount && 0 <= s.maxAge && (s.volumeCap > 0 ==> s.volume + amount <= s.volumeCap)
    ensures var calls := TwinRun(now, a, b, target, amount, d);
            var t := Step(Step(s, calls[0]), calls[1]);
            && Ripe(t, now, b, 0) && Ripe(t, now, b, 1) && t.signers == s.signers && t.threshold == 2
            && t.executions == s.executions
            && t.proposals[0].deposit == d && t.proposals[1].deposit == d
            && t.proposals[0].amount == amount && t.proposals[1].amount == amount
  {
    var p := Proposal(MintWpi, a, target, amount, d, [a], [Active(s.signers)], Pending, now, None);
    var s1 := Step(s, TwinRun(now, a, b, target, amount, d)[0]);
    assert s1.proposals == [p];
    assert Step(s1, TwinRun(now, a, b, target, amount, d)[1]).proposals == [p] + [p];
  }

  /** Replay protection does not reach across proposals that are pending together: this run of a
      new bridge with two signers executes one deposit twice. */
  lemma PendingTwinsBothExecute(now: int, admin: Address, a: Address, b: Address, target: Address, amount: int,
                                d: DepositId, cap: int, window: int, maxAge: int)
    requires a != b && 0 < amount && 0 <= maxAge && (cap > 0 ==> amount <= cap)
    ensures Inv(Fresh(admin, [a, b], 2, cap, window, maxAge))
    ensures var t := Run(Fresh(admin, [a, b], 2, cap, window, maxAge), TwinRun(now, a, b, target, amount, d));
            && t.executions == [Execution(0, 2, now, amount), Execution(1, 2, now, amount)]
            && |t.proposals| == 2 && t.proposals[0].deposit == d == t.proposals[1].deposit
            && (1 <= window ==> t.volume == 2 * amount)
  {
    var s, calls := Fresh(admin, [a, b], 2, cap, window, maxAge), TwinRun(now, a, b, target, amount, d);
    FreshInv(admin, [a, b], 2, cap, window, maxAge);
    TwinsRipen(s, now, a, b, target, amount, d);
    var m := Step(Step(s, calls[0]), calls[1]);
    assert b in [a, b];
    RipeBothExecute(m, now, b, 0, 1);
    assert calls[2] == CallApprove(now, true, true, b, 0) && calls[3] == CallApprove(now, true, true, b, 1);
    RunOfFour(s, calls);
  }

  lemma RunOfFour(s: State, calls: seq<Call>)
    requires |calls| == 4
    ensures Run(s, calls) == Step(Step(Step(Step(s, calls[0]), calls[1]), calls[2]), calls[3])
  {
    var t1 := Step(s, calls[0]);
    var t2 := Step(t1, calls[1]);
    var t3 := Step(t2, calls[2]);
    assert calls[1..][1..] == calls[2..] && calls[2..][1..] == calls[3..] && calls[3..][1..] == [];
    assert Run(s, calls) == Run(t1, calls[1..]) == Run(t2, calls[2..]) == Run(t3, calls[3..]);
    assert Run(t3, calls[3..]) == Run(Step(t3, calls[3]), []);
  }

  /** A signer added: the active set grows by exactly this address, which was not in it. */
  lemma AddSignerOutcome(s: State, auth: bool, caller: Address, a: Address)
    ensures var (t, r) := AddSigner(s, auth, caller, a);
            && (r.Ok? <==> caller == s.admin && auth && a !in Active(s.signers))
            && (r.Ok? ==> Active(t.signers) == Active(s.signers) + {a})
  {}

  /** A signer removed: the active set loses exactly this address; neither the last signer nor
      one the threshold needs can go. */
  lemma RemoveSignerOutcome(s: State, auth: bool, caller: Address, a: Address)
    requires Inv(s)
    ensures var (t, r) := RemoveSigner(s, auth, caller, a);
            && (r.Ok? <==> caller == s.admin && auth && a in Active(s.signers) && s.threshold < |Active(s.signers)|)
            && (r.Ok? ==> Active(t.signers) == Active(s.signers) - {a})
  {}

  lemma CountIsActive(s: State)
    requires Inv(s)
    ensures s.signerCount == |Active(s.signers)|
  {}

  // ---------------------------------------------------------------- volume tracking

  /** Executed at ledgers x and later. */
  function ExecutedFrom(log: seq<Execution>, x: int): int
  {
    if log == [] then 0
    else ExecutedFrom(log[..|log| - 1], x) + (if log[|log| - 1].ledger >= x then log[|log| - 1].amount else 0)
  }

  lemma {:induction false} ExecutedFromNone(log: seq<Execution>, x: int)
    requires forall i :: 0 <= i < |log| ==> log[i].ledger < x
    ensures ExecutedFrom(log, x) == 0
  {
    if log != [] { ExecutedFromNone(log[..|log| - 1], x); }
  }

  /** With one window length w, the stored volume is exactly what was executed since the
      window opened, and no execution lies beyond the window's end. */
  ghost predicate VolumeInv(s: State, w: int)
  {
    && s.windowLedgers == w && s.volume == ExecutedFrom(s.executions, s.windowStart)
    && forall i :: 0 <= i < |s.executions| ==> s.executions[i].ledger < s.windowStart + w
  }

  /** Adding an executed amount and logging it keeps the figures true. */
  lemma AddVolumeTrue(s: State, now: int, amount: int, x: Execution, w: int)
    requires VolumeInv(s, w) && 1 <= w && s.windowStart <= now && x.ledger == now && x.amount == amount
    ensures VolumeInv(AddVolume(s, now, amount).(executions := s.executions + [x]), w)
  {
    var t := AddVolume(s, now, amount).(executions := s.executions + [x]);
    assert t.executions[..|t.executions| - 1] == s.executions;
    if now >= s.windowStart + w { ExecutedFromNone(s.executions, now); }
  }

  /** A taken replay key shuts out every proposal that has it. */
  lemma TakenKeyRefused(s: State, c: Call)
    requires c.CallPropose? && NonceOf(c.deposit) in s.nonces
    ensures Step(s, c) == s
  {}

  lemma ApproveVolume(s: State, now: int, auth: bool, tokenOk: bool, signer: Address, id: nat, w: int)
    requires VolumeInv(s, w) && 1 <= w && s.windowStart <= now
    requires id < |s.proposals| ==> s.proposals[id].kind != OtherKind
    ensures VolumeInv(Approve(s, now, auth, tokenOk, signer, id).0, w)
    ensures Approve(s, now, auth, tokenOk, signer, id).0.windowStart <= now
  {
    var (t, r) := Approve(s, now, auth, tokenOk, signer, id);
    if r == Ok(Executed) {
      assert t.executions[..|t.executions| - 1] == s.executions;
      if now >= s.windowStart + w { ExecutedFromNone(s.executions, now); }
    }
  }

  /** The window length is kept. */
  predicate WindowKept(c: Call, w: int)
  {
    c.CallConfigure? && c.setting.VolumeCap? ==> c.setting.window == w
  }

  function LedgerOf(c: Call): Option<int>
  {
    match c
    case CallPropose(n, _, _, _, _, _, _) => Some(n)
    case CallApprove(n, _, _, _, _) => Some(n)
    case _ => None
  }

  /** Ledger numbers never decrease along the run, which starts at ledger t or later. */
  ghost predicate Chronological(calls: seq<Call>, t: int)
    decreases |calls|
  {
    calls != [] ==>
      (LedgerOf(calls[0]).Some? ==> t <= LedgerOf(calls[0]).value)
      && Chronological(calls[1..], if LedgerOf(calls[0]).Some? then LedgerOf(calls[0]).value else t)
  }

  lemma StepVolume(s: State, c: Call, t: int, w: int)
    requires Inv(s) && VolumeInv(s, w) && 1 <= w && s.windowStart <= t && WindowKept(c, w)
    requires LedgerOf(c).Some? ==> t <= LedgerOf(c).value
    ensures VolumeInv(Step(s, c), w)
    ensures Step(s, c).windowStart <= if LedgerOf(c).Some? then LedgerOf(c).value else t
  {
    if c.CallApprove? {
      if c.id < |s.proposals| { assert ProposalOk(s.proposals[c.id]); }
      ApproveVolume(s, c.now, c.auth, c.tokenOk, c.who, c.id, w);
    } else if !c.CallPropose? {
      SignerBooks(s, c);
      VolumeUntouched(s, c, w);
    }
  }

  lemma VolumeUntouched(s: State, c: Call, w: int)
    requires !c.CallApprove? && !c.CallPropose? && WindowKept(c, w) && s.windowLedgers == w
    ensures Step(s, c).volume == s.volume && Step(s, c).windowStart == s.windowStart && Step(s, c).windowLedgers == w
  {}

  /** The breaker that `propose` consults reads true figures in every run. */
  lemma {:induction false} RunVolume(s: State, calls: seq<Call>, t: int, w: int)
    requires Inv(s) && VolumeInv(s, w) && 1 <= w && s.windowStart <= t && Chronological(calls, t)
    requires forall c :: c in calls ==> WindowKept(c, w)
    ensures VolumeInv(Run(s, calls), w)
    decreases |calls|
  {
    if calls == [] {
    } else {
      var c := calls[0];
      assert WindowKept(c, w);
      StepVolume(s, c, t, w);
      StepKeeps(s, c);
      RunVolume(Step(s, c), calls[1..], if LedgerOf(c).Some? then LedgerOf(c).value else t, w);
    }
  }

  // ---------------------------------------------------------------- what each call does

  /** A proposal of these first eight bytes has been executed. */
  ghost predicate Settled(s: State, deposit: DepositId)
  {
    exists k :: 0 <= k < |s.proposals| && s.proposals[k].status == Executed && s.proposals[k].deposit[..8] == deposit[..8]
  }

  lemma TakenIffSettled(s: State, deposit: DepositId)
    requires Inv(s)
    ensures NonceOf(deposit) in s.nonces <==> Settled(s, deposit)
  {
    if NonceOf(deposit) in s.nonces {
      assert Owned(s, NonceOf(deposit));
      var k :| 0 <= k < |s.proposals| && s.proposals[k].status == Executed && NonceOf(s.proposals[k].deposit) == NonceOf(deposit);
      NonceSeparates(s.proposals[k].deposit, deposit);
    }
  }

  /** A proposal goes through exactly when the bridge runs, an active signer authorised it, the
      amount is positive, the kind is known, no executed proposal shares its deposit's first eight
      bytes, and the amount fits the cap, if there is one, together with the stored volume. It is
      stored as given, pending, with its proposer's vote. */
  lemma ProposeOutcome(s: State, now: int, auth: bool, proposer: Address, kind: Kind, target: Address, amount: int,
                       deposit: DepositId)
    requires Inv(s)
    ensures var (t, r) := Propose(s, now, auth, proposer, kind, target, amount, deposit);
            var open := auth && !s.paused && proposer in Active(s.signers) && amount > 0 && kind != OtherKind;
            var fits := s.volumeCap <= 0 || s.volume + amount <= s.volumeCap;
            && (r.Ok? <==> open && !Settled(s, deposit) && fits)
            && (r == Err(DepositAlreadyProcessed) <==> open && Settled(s, deposit))
            && (r == Err(VolumeCapExceeded) <==> open && !Settled(s, deposit) && !fits)
            && (!r.Ok? ==> t == s)
            && (r.Ok? ==>
                  && r.value == |s.proposals|
                  && t == s.(proposals := s.proposals + [Proposal(kind, proposer, target, amount, deposit, [proposer],
                                                                  [Active(s.signers)], Pending, now, None)]))
  {
    TakenIffSettled(s, deposit);
  }

  /** A vote goes through exactly when an active signer authorised it, the proposal is there,
      pending, at most maxAge ledgers old and not yet voted on by this signer, and, where it
      completes the threshold, the token call works. It executes exactly when it completes the
      threshold. */
  lemma ApproveOutcome(s: State, now: int, auth: bool, tokenOk: bool, signer: Address, id: nat)
    requires Inv(s) && id < |s.proposals|
    ensures var (t, r) := Approve(s, now, auth, tokenOk, signer, id);
            var p := s.proposals[id];
            var voter := auth && signer in Active(s.signers);
            var complete := s.threshold <= |p.approvals| + 1;
            && (r.Ok? <==> && voter && p.status == Pending && now - p.createdAt <= s.maxAge
                           && signer !in p.approvals && (complete ==> tokenOk))
            && (r == Err(NotSigner) <==> auth && signer !in Active(s.signers))
            && (r == Err(ProposalAlreadyExecuted) <==> voter && p.status == Executed)
            && (r == Err(ProposalExpired) <==> voter && p.status == Pending && s.maxAge < now - p.createdAt)
            && (r == Err(DuplicateApproval)
                <==> voter && p.status == Pending && now - p.createdAt <= s.maxAge && signer in p.approvals)
            && (!r.Ok? ==> t == s)
            && (r.Ok? ==> r.value == if complete then Executed else Pending)
  {
    assert ProposalOk(s.proposals[id]);
  }

  lemma ApproveUnknown(s: State, now: int, auth: bool, tokenOk: bool, signer: Address, id: nat)
    requires |s.proposals| <= id
    ensures Approve(s, now, auth, tokenOk, signer, id).0 == s && !Approve(s, now, auth, tokenOk, signer, id).1.Ok?
    ensures Approve(s, now, auth, tokenOk, signer, id).1 == Err(ProposalNotFound) <==> auth && signer in Active(s.signers)
  {}

  /** What a vote writes: itself, at the end of the proposal's votes. An execution also marks the
      proposal, takes its replay key, logs it, and adds its amount to what was executed in the
      window, which opens anew when it has expired. */
  lemma ApproveEffect(s: State, now: int, auth: bool, tokenOk: bool, signer: Address, id: nat)
    requires Inv(s) && Approve(s, now, auth, tokenOk, signer, id).1.Ok?
    ensures var (t, r) := Approve(s, now, auth, tokenOk, signer, id);
            var p, expired := s.proposals[id], now >= s.windowStart + s.windowLedgers;
            && |t.proposals| == |s.proposals| && (forall k :: 0 <= k < |s.proposals| && k != id ==> t.proposals[k] == s.proposals[k])
            && t.proposals[id] == p.(approvals := p.approvals + [signer], rolls := p.rolls + [Active(s.signers)],
                                     status := r.value, executedAt := if r.value == Executed then Some(now) else p.executedAt)
            && (r.value == Pending ==> t == s.(proposals := t.proposals))
            && (r.value == Executed ==>
                  t == s.(proposals := t.proposals, nonces := s.nonces + {NonceOf(p.deposit)},
                          windowStart := if expired then now else s.windowStart,
                          volume := if expired then p.amount else s.volume + p.amount,
                          executions := s.executions + [Execution(id, s.threshold, now, p.amount)]))
  {
    assert ProposalOk(s.proposals[id]);
  }

  // ---------------------------------------------------------------- the breaker

  /** The volume in storage leaves no room under the cap, and no proposal is pending. */
  ghost predicate Shut(s: State)
  {
    0 < s.volumeCap <= s.volume && forall k :: 0 <= k < |s.proposals| ==> s.proposals[k].status != Pending
  }

  /** propose compares with the volume in storage without asking whether its window has expired,
      and only an execution opens a new one: a full window with nothing pending stays full. No run
      executes or stores anything any more, at any ledger, unless the admin changes the cap. */
  lemma {:induction false} ShutForGood(s: State, calls: seq<Call>)
    requires Shut(s)
    requires forall c :: c in calls ==> !(c.CallConfigure? && c.setting.VolumeCap?)
    ensures var t := Run(s, calls); Shut(t) && t.proposals == s.proposals && t.executions == s.executions
    decreases |calls|
  {
    if calls != [] {
      var c := calls[0];
      assert !(c.CallConfigure? && c.setting.VolumeCap?);
      ShutStep(s, c);
      ShutForGood(Step(s, c), calls[1..]);
    }
  }

  lemma ShutStep(s: State, c: Call)
    requires Shut(s) && !(c.CallConfigure? && c.setting.VolumeCap?)
    ensures var t := Step(s, c); Shut(t) && t.proposals == s.proposals && t.executions == s.executions
  {}

  /** One proposal of the whole cap, and the vote that executes it. */
  function CapRun(now: int, a: Address, b: Address, target: Address, cap: int, d: DepositId): seq<Call>
  {
    [CallPropose(now, true, a, MintWpi, target, cap, d), CallApprove(now, true, true, b, 0)]
  }

  /** A new bridge gets there with two calls, and then executes nothing in any later window. */
  lemma CapReachedShutsForGood(now: int, admin: Address, a: Address, b: Address, target: Address, d: DepositId,
                               cap: int, window: int, maxAge: int, calls: seq<Call>)
    requires a != b && 0 < cap && 0 <= maxAge
    requires forall c :: c in calls ==> !(c.CallConfigure? && c.setting.VolumeCap?)
    ensures var t := Run(Run(Fresh(admin, [a, b], 2, cap, window, maxAge), CapRun(now, a, b, target, cap, d)), calls);
            t.executions == [Execution(0, 2, now, cap)]
  {
    var s, pair := Fresh(admin, [a, b], 2, cap, window, maxAge), CapRun(now, a, b, target, cap, d);
    var m := Step(s, pair[0]);
    var t := Step(m, pair[1]);
    assert pair[1..] == [pair[1]] && pair[1..][1..] == [];
    assert Run(s, pair) == Run(m, pair[1..]) == Run(t, []);
    assert m.proposals == [Proposal(MintWpi, a, target, cap, d, [a], [Active(s.signers)], Pending, now, None)];
    assert IsSigner(m.signers, b) && |t.proposals| == 1 && t.proposals[0].status == Executed;
    ShutForGood(t, calls);
  }
}
