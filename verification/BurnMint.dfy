/** The burn/mint PUSD bridge as values: threshold-signed mints with replay protection, a
    fixed-window volume limiter, and per-chain books. */
module BurnMint {
  import opened Outcomes
  import opened Quorum
  import opened Totals

  datatype BridgeError =
    | NotSigner | ThresholdNotMet | InvalidAmount | AlreadyProcessed | DuplicateSigner | SignerNotFound
    | CannotRemoveBelowThreshold | InvalidThreshold | VolumeCapExceeded | MintCapExceeded
    | AlreadyPaused | NotPaused

  /** One mint, with the quorum that was in force when it was made. */
  datatype Mint = Mint(ledger: int, amount: int, chain: Address, hash: string,
                       voters: seq<Address>, active: set<Address>, threshold: int)

  datatype Burn = Burn(nonce: int, amount: int, chain: Address)

  /** Contract storage, plus the logs of mints and burns. */
  datatype State = State(
    signers: Signers, signerCount: int, threshold: int, nextNonce: int,
    processed: set<string>, minted: Balances, burned: Balances, mintCap: Balances,
    windowStart: int, volume: int, volumeCap: int, windowLedgers: int, paused: bool,
    mints: seq<Mint>, burns: seq<Burn>)

  /** The circuit breaker: None when it trips. */
  function CheckVolume(s: State, now: int, amount: int): Option<State>
  {
    if s.volumeCap == 0 then Some(s)
    else
      var expired := now >= s.windowStart + s.windowLedgers;
      var start, used := if expired then now else s.windowStart, if expired then 0 else s.volume;
      if used + amount > s.volumeCap then None
      else Some(s.(windowStart := start, volume := used + amount))
  }

  datatype Fault = NoSigner | Repeated | Unsigned

  /** The first thing wrong with the listed signers from position i on. */
  function FirstFault(signers: Signers, list: seq<Address>, auth: set<Address>, i: nat): Option<Fault>
    requires i <= |list|
    decreases |list| - i
  {
    if i == |list| then None
    else if !IsSigner(signers, list[i]) then Some(NoSigner)
    else if list[i] in list[..i] then Some(Repeated)
    else if list[i] !in auth then Some(Unsigned)
    else FirstFault(signers, list, auth, i + 1)
  }

  /** Why a mint that the limiter lets through is refused all the same, in the code's order. */
  function Refusal(s: State, auth: set<Address>, amount: int, chain: Address, hash: string, list: seq<Address>)
    : Option<Result<(), BridgeError>>
  {
    if hash in s.processed then Some(Err(AlreadyProcessed))
    else if |list| < s.threshold then Some(Err(ThresholdNotMet))
    else
      match FirstFault(s.signers, list, auth, 0)
      case Some(NoSigner) => Some(Err(NotSigner))
      case Some(Repeated) => Some(Err(DuplicateSigner))
      case Some(Unsigned) => Some(Panic)
      case None =>
        if Get(s.mintCap, chain) > 0 && Get(s.minted, chain) + amount > Get(s.mintCap, chain)
        then Some(Err(MintCapExceeded)) else None
  }

  function MintPusd(s: State, now: int, auth: set<Address>, tokenOk: bool, amount: int, chain: Address,
                    hash: string, list: seq<Address>): (State, Result<(), BridgeError>)
  {
    if s.paused then (s, Err(AlreadyPaused))
    else if amount <= 0 then (s, Err(InvalidAmount))
    else if CheckVolume(s, now, amount) == None then (s, Err(VolumeCapExceeded))
    else
      match Refusal(s, auth, amount, chain, hash, list)
      case Some(r) => (s, r)
      case None =>
        if !tokenOk then (s, Panic)
        else
          (CheckVolume(s, now, amount).value.(
             processed := s.processed + {hash},
             minted := s.minted[chain := Get(s.minted, chain) + amount],
             mints := s.mints + [Mint(now, amount, chain, hash, list, Active(s.signers), s.threshold)]),
           Ok(()))
  }

  function BurnPusd(s: State, auth: bool, tokenOk: bool, amount: int, chain: Address): (State, Result<int, BridgeError>)
  {
    if s.paused then (s, Err(AlreadyPaused))
    else if amount <= 0 then (s, Err(InvalidAmount))
    else if !auth || !tokenOk then (s, Panic)
    else
      (s.(nextNonce := s.nextNonce + 1, burned := s.burned[chain := Get(s.burned, chain) + amount],
          burns := s.burns + [Burn(s.nextNonce, amount, chain)]),
       Ok(s.nextNonce))
  }

  // The admin's calls; auth is the admin's authorisation.

  function AddSigner(s: State, auth: bool, a: Address): (State, Result<(), BridgeError>)
  {
    if !auth then (s, Panic)
    else if IsSigner(s.signers, a) then (s, Err(DuplicateSigner))
    else (s.(signers := s.signers[a := true], signerCount := s.signerCount + 1), Ok(()))
  }

  function RemoveSigner(s: State, auth: bool, a: Address): (State, Result<(), BridgeError>)
  {
    if !auth then (s, Panic)
    else if !IsSigner(s.signers, a) then (s, Err(SignerNotFound))
    else if s.signerCount - 1 < s.threshold then (s, Err(CannotRemoveBelowThreshold))
    else (s.(signers := s.signers[a := false], signerCount := s.signerCount - 1), Ok(()))
  }

  function SetThreshold(s: State, auth: bool, n: nat): (State, Result<(), BridgeError>)
  {
    if !auth then (s, Panic)
    else if n == 0 || n > s.signerCount then (s, Err(InvalidThreshold))
    else (s.(threshold := n), Ok(()))
  }

  function SetVolumeCap(s: State, auth: bool, cap: int, window: nat): (State, Result<(), BridgeError>)
  {
    if !auth then (s, Panic) else (s.(volumeCap := cap, windowLedgers := window), Ok(()))
  }

  function SetMintCap(s: State, auth: bool, chain: Address, cap: int): (State, Result<(), BridgeError>)
  {
    if !auth then (s, Panic) else (s.(mintCap := s.mintCap[chain := cap]), Ok(()))
  }

  function SetPaused(s: State, auth: bool, paused: bool): (State, Result<(), BridgeError>)
  {
    if !auth then (s, Panic)
    else if s.paused == paused then (s, Err(if paused then AlreadyPaused else NotPaused))
    else (s.(paused := paused), Ok(()))
  }

  // ---------------------------------------------------------------- runs

  datatype Call =
    | CallMint(now: int, signed: set<Address>, tokenOk: bool, amount: int, chain: Address, hash: string, list: seq<Address>)
    | CallBurn(now: int, auth: bool, tokenOk: bool, amount: int, chain: Address)
    | CallAddSigner(now: int, auth: bool, who: Address)
    | CallRemoveSigner(now: int, auth: bool, who: Address)
    | CallSetThreshold(now: int, auth: bool, threshold: nat)
    | CallSetVolumeCap(now: int, auth: bool, cap: int, window: nat)
    | CallSetMintCap(now: int, auth: bool, chain: Address, cap: int)
    | CallSetPaused(now: int, auth: bool, paused: bool)

  function Step(s: State, c: Call): State
  {
    match c
    case CallMint(n, a, k, x, ch, h, l) => MintPusd(s, n, a, k, x, ch, h, l).0
    case CallBurn(_, a, k, x, ch) => BurnPusd(s, a, k, x, ch).0
    case CallAddSigner(_, a, w) => AddSigner(s, a, w).0
    case CallRemoveSigner(_, a, w) => RemoveSigner(s, a, w).0
    case CallSetThreshold(_, a, n) => SetThreshold(s, a, n).0
    case CallSetVolumeCap(_, a, x, w) => SetVolumeCap(s, a, x, w).0
    case CallSetMintCap(_, a, ch, x) => SetMintCap(s, a, ch, x).0
    case CallSetPaused(_, a, p) => SetPaused(s, a, p).0
  }

  function Run(s: State, calls: seq<Call>): State
    decreases |calls|
  {
    if calls == [] then s else Run(Step(s, calls[0]), calls[1..])
  }

  function Fresh(list: seq<Address>, threshold: int, cap: int, window: int): State
  {
    State(Enrol(list), |list|, threshold, 0, {}, map[], map[], map[], 0, 0, cap, window, false, [], [])
  }

  // ---------------------------------------------------------------- quorum and replay

  /** The loops accept a list exactly when every entry is an active signer that signed the
      call, and no entry repeats. */
  lemma {:induction false} FaultFree(signers: Signers, list: seq<Address>, auth: set<Address>, i: nat)
    requires i <= |list|
    requires Distinct(list[..i]) && Members(list[..i]) <= Active(signers) * auth
    ensures FirstFault(signers, list, auth, i) == None
            <==> Distinct(list) && Members(list) <= Active(signers) * auth
    decreases |list| - i
  {
    if i == |list| {
      assert list[..i] == list;
    } else {
      assert list[i] in Members(list);
      if IsSigner(signers, list[i]) && list[i] !in list[..i] && list[i] in auth {
        assert Members(list[..i + 1]) == Members(list[..i]) + {list[i]};
        FaultFree(signers, list, auth, i + 1);
      }
    }
  }

  /** What the chain's mints add up to. */
  function MintSum(log: seq<Mint>, chain: Address): int
  {
    if log == [] then 0
    else MintSum(log[..|log| - 1], chain) + (if log[|log| - 1].chain == chain then log[|log| - 1].amount else 0)
  }

  function BurnSum(log: seq<Burn>, chain: Address): int
  {
    if log == [] then 0
    else BurnSum(log[..|log| - 1], chain) + (if log[|log| - 1].chain == chain then log[|log| - 1].amount else 0)
  }

  ghost predicate HashesOnce(s: State)
  {
    && (forall i, j :: 0 <= i < j < |s.mints| ==> s.mints[i].hash != s.mints[j].hash)
    && (forall h :: h in s.processed <==> exists i :: 0 <= i < |s.mints| && s.mints[i].hash == h)
  }

  ghost predicate BooksOk(s: State)
  {
    && (forall c :: Get(s.minted, c) == MintSum(s.mints, c))
    && (forall c :: Get(s.burned, c) == BurnSum(s.burns, c))
    && s.nextNonce == |s.burns|
    && (forall i :: 0 <= i < |s.burns| ==> s.burns[i].nonce == i && s.burns[i].amount > 0)
  }

  /** Signer books in order; every mint backed by its quorum; every source hash minted once;
      the per-chain books are the sums of the logs; burn nonces are 0, 1, 2, ... */
  ghost predicate Inv(s: State)
  {
    && QuorumOk(s.signers, s.signerCount, s.threshold)
    && (forall i :: 0 <= i < |s.mints| ==>
          Backed(s.mints[i].voters, s.mints[i].active, s.mints[i].threshold) && s.mints[i].amount > 0)
    && HashesOnce(s) && BooksOk(s)
  }

  /** A mint succeeds in one way only; this is all of it. */
  lemma MintOutcome(s: State, now: int, auth: set<Address>, tokenOk: bool, amount: int, chain: Address,
                    hash: string, list: seq<Address>)
    requires Inv(s)
    ensures MintPusd(s, now, auth, tokenOk, amount, chain, hash, list).1.Ok? <==>
              && !s.paused && amount > 0 && CheckVolume(s, now, amount).Some? && hash !in s.processed
              && Backed(list, Active(s.signers) * auth, s.threshold)
              && (Get(s.mintCap, chain) > 0 ==> MintSum(s.mints, chain) + amount <= Get(s.mintCap, chain))
              && tokenOk
  {
    FaultFree(s.signers, list, auth, 0);
    DistinctCount(list);
  }

  /** A mint that the limiter lets through is refused by nothing else exactly when its hash is
      in no earlier mint, enough distinct active signers signed, and the chain's mints fit its
      cap. */
  lemma RefusalIff(s: State, auth: set<Address>, amount: int, chain: Address, hash: string, list: seq<Address>)
    requires Inv(s)
    ensures Refusal(s, auth, amount, chain, hash, list) == None <==>
              && (forall m :: m in s.mints ==> m.hash != hash)
              && Backed(list, Active(s.signers) * auth, s.threshold)
              && (Get(s.mintCap, chain) > 0 ==> MintSum(s.mints, chain) + amount <= Get(s.mintCap, chain))
  {
    FaultFree(s.signers, list, auth, 0);
    DistinctCount(list);
    if hash in s.processed {
      var i :| 0 <= i < |s.mints| && s.mints[i].hash == hash;
      assert s.mints[i] in s.mints;
    }
  }

  lemma CountIsActive(s: State)
    requires Inv(s)
    ensures s.signerCount == |Active(s.signers)|
  {}

  /** Appending one mint to the log and the books. */
  lemma MintBooks(s: State, t: State, m: Mint)
    requires HashesOnce(s) && BooksOk(s) && m.hash !in s.processed
    requires t.mints == s.mints + [m] && t.processed == s.processed + {m.hash}
    requires t.minted == s.minted[m.chain := Get(s.minted, m.chain) + m.amount]
    requires t.burned == s.burned && t.burns == s.burns && t.nextNonce == s.nextNonce
    ensures HashesOnce(t) && BooksOk(t)
  {
    assert t.mints[..|t.mints| - 1] == s.mints;
    assert t.mints[|s.mints|] == m;
    forall h ensures h in t.processed <==> exists i :: 0 <= i < |t.mints| && t.mints[i].hash == h {
      if h in s.processed {
        var i :| 0 <= i < |s.mints| && s.mints[i].hash == h;
        assert t.mints[i].hash == h;
      }
    }
  }

  lemma MintKeeps(s: State, now: int, auth: set<Address>, tokenOk: bool, amount: int, chain: Address,
                  hash: string, list: seq<Address>)
    requires Inv(s)
    ensures Inv(MintPusd(s, now, auth, tokenOk, amount, chain, hash, list).0)
  {
    var (t, r) := MintPusd(s, now, auth, tokenOk, amount, chain, hash, list);
    if r.Ok? {
      MintOutcome(s, now, auth, tokenOk, amount, chain, hash, list);
      MintBooks(s, t, Mint(now, amount, chain, hash, list, Active(s.signers), s.threshold));
    }
  }

  lemma BurnKeeps(s: State, auth: bool, tokenOk: bool, amount: int, chain: Address)
    requires Inv(s)
    ensures Inv(BurnPusd(s, auth, tokenOk, amount, chain).0)
  {
    var (t, r) := BurnPusd(s, auth, tokenOk, amount, chain);
    if r.Ok? {
      assert t.burns[..|t.burns| - 1] == s.burns;
    }
  }

  /** Signer and threshold calls keep the signer books. */
  lemma SignerBooks(s: State, c: Call)
    requires QuorumOk(s.signers, s.signerCount, s.threshold) && !c.CallMint? && !c.CallBurn?
    ensures QuorumOk(Step(s, c).signers, Step(s, c).signerCount, Step(s, c).threshold)
  {
    match c
    case CallAddSigner(_, a, w) => if !IsSigner(s.signers, w) { AddActive(s.signers, w); }
    case CallRemoveSigner(_, a, w) => if IsSigner(s.signers, w) { RemoveActive(s.signers, w); }
    case _ =>
  }

  /** The admin's calls touch no books and no log. */
  lemma AdminUntouched(s: State, c: Call)
    requires !c.CallMint? && !c.CallBurn?
    ensures var t := Step(s, c);
            && t.mints == s.mints && t.burns == s.burns && t.processed == s.processed
            && t.minted == s.minted && t.burned == s.burned && t.nextNonce == s.nextNonce
            && t.windowStart == s.windowStart && t.volume == s.volume
            && (!c.CallSetVolumeCap? ==> t.volumeCap == s.volumeCap && t.windowLedgers == s.windowLedgers)
  {
    match c
    case CallAddSigner(_, a, w) =>
    case CallRemoveSigner(_, a, w) =>
    case _ =>
  }

  lemma StepKeeps(s: State, c: Call)
    requires Inv(s)
    ensures Inv(Step(s, c))
  {
    if c.CallMint? {
      MintKeeps(s, c.now, c.signed, c.tokenOk, c.amount, c.chain, c.hash, c.list);
    } else if c.CallBurn? {
      BurnKeeps(s, c.auth, c.tokenOk, c.amount, c.chain);
    } else {
      SignerBooks(s, c);
      AdminUntouched(s, c);
    }
  }

  /** A new bridge is in order exactly when the initial signer list has no repeats. */
  lemma FreshInv(list: seq<Address>, threshold: int, cap: int, window: int)
    requires 1 <= threshold <= |list|
    ensures Inv(Fresh(list, threshold, cap, window)) <==> Distinct(list)
  {
    EnrolQuorum(list, threshold);
  }

  /** With fewer active signers than the threshold asks for, nothing can ever be minted. */
  lemma NoQuorumNoMint(s: State, now: int, auth: set<Address>, tokenOk: bool, amount: int, chain: Address,
                       hash: string, list: seq<Address>)
    requires |Active(s.signers)| < s.threshold
    ensures !MintPusd(s, now, auth, tokenOk, amount, chain, hash, list).1.Ok?
  {
    if MintPusd(s, now, auth, tokenOk, amount, chain, hash, list).1.Ok? {
      FaultFree(s.signers, list, auth, 0);
      DistinctCount(list);
      MembersFit(list, Active(s.signers));
    }
  }

  lemma MembersFit(list: seq<Address>, active: set<Address>)
    requires Members(list) <= active
    ensures |Members(list)| <= |active|
  {
    var rest := active - Members(list);
    assert active == Members(list) + rest;
  }

  /** A list with a repeat does that: initialised with one address twice and a threshold of 2,
      the bridge can mint nothing. */
  lemma RepeatedSignerBlocksMints(a: Address, now: int, auth: set<Address>, tokenOk: bool, amount: int,
                                  chain: Address, hash: string, list: seq<Address>)
    ensures !MintPusd(Fresh([a, a], 2, 0, 0), now, auth, tokenOk, amount, chain, hash, list).1.Ok?
  {
    EnrolQuorum([a, a], 2);
    assert Members([a, a]) == {a};
    NoQuorumNoMint(Fresh([a, a], 2, 0, 0), now, auth, tokenOk, amount, chain, hash, list);
  }

  /** The limiter's window is no part of the books. */
  lemma WindowFree(s: State, start: int, used: int)
    ensures Inv(s.(windowStart := start, volume := used)) <==> Inv(s)
  {
    var t := s.(windowStart := start, volume := used);
    assert HashesOnce(t) <==> HashesOnce(s);
    assert BooksOk(t) <==> BooksOk(s);
  }

  /** A signer added: the active set grows by exactly this address, which was not in it. */
  lemma AddSignerOutcome(s: State, auth: bool, a: Address)
    ensures var (t, r) := AddSigner(s, auth, a);
            && (r.Ok? <==> auth && a !in Active(s.signers))
            && (r.Ok? ==> Active(t.signers) == Active(s.signers) + {a})
  {}

  /** A signer removed: the active set loses exactly this address, and still covers the
      threshold. */
  lemma RemoveSignerOutcome(s: State, auth: bool, a: Address)
    requires Inv(s)
    ensures var (t, r) := RemoveSigner(s, auth, a);
            && (r.Ok? <==> auth && a in Active(s.signers) && s.threshold < |Active(s.signers)|)
            && (r.Ok? ==> Active(t.signers) == Active(s.signers) - {a})
  {}

  lemma {:induction false} RunKeeps(s: State, calls: seq<Call>)
    requires Inv(s)
    ensures Inv(Run(s, calls))
    decreases |calls|
  {
    if calls != [] {
      StepKeeps(s, calls[0]);
      RunKeeps(Step(s, calls[0]), calls[1..]);
    }
  }

  // ---------------------------------------------------------------- the volume limiter

  /** Minted at ledgers x and later. */
  function SumFrom(log: seq<Mint>, x: int): int
  {
    if log == [] then 0
    else SumFrom(log[..|log| - 1], x) + (if log[|log| - 1].ledger >= x then log[|log| - 1].amount else 0)
  }

  /** Minted in the w consecutive ledgers from x on. */
  function SumWithin(log: seq<Mint>, x: int, w: int): int
  {
    if log == [] then 0
    else SumWithin(log[..|log| - 1], x, w)
         + (if x <= log[|log| - 1].ledger < x + w then log[|log| - 1].amount else 0)
  }

  lemma {:induction false} SumWithinAtMost(log: seq<Mint>, x: int, w: int)
    requires forall i :: 0 <= i < |log| ==> log[i].amount > 0
    ensures 0 <= SumWithin(log, x, w) <= SumFrom(log, x)
  {
    if log != [] { SumWithinAtMost(log[..|log| - 1], x, w); }
  }

  lemma {:induction false} SumFromNone(log: seq<Mint>, x: int)
    requires forall i :: 0 <= i < |log| ==> log[i].ledger < x
    ensures SumFrom(log, x) == 0
  {
    if log != [] { SumFromNone(log[..|log| - 1], x); }
  }

  /** With every cap in (0, most] and one window length w: the current window's volume is
      exactly what was minted since it opened and at most `most`; with the window before it,
      at most twice that; all mints lie before the window's end; and no w consecutive
      ledgers hold more than 2 * most. */
  ghost predicate WindowInv(s: State, most: int, w: int)
  {
    && s.windowLedgers == w && 0 < s.volumeCap <= most
    && 0 <= s.volume <= most && s.volume == SumFrom(s.mints, s.windowStart)
    && (forall i :: 0 <= i < |s.mints| ==> s.mints[i].ledger < s.windowStart + w && s.mints[i].amount > 0)
    && (forall x :: x >= s.windowStart ==> SumFrom(s.mints, x) <= s.volume)
    && (forall x :: x > s.windowStart - w ==> SumFrom(s.mints, x) <= most + s.volume)
    && (forall x :: SumWithin(s.mints, x, w) <= 2 * most)
  }

  lemma MintWindow(s: State, c: Call, most: int, w: int)
    requires WindowInv(s, most, w) && 1 <= w && c.CallMint? && s.windowStart <= c.now
    ensures WindowInv(Step(s, c), most, w) && Step(s, c).windowStart <= c.now
  {
    var t := Step(s, c);
    if t.mints != s.mints {
      var now, log := c.now, s.mints;
      assert t.mints == log + [t.mints[|log|]] && t.mints[..|t.mints| - 1] == log;
      assert t.mints[|log|].ledger == now && t.mints[|log|].amount == c.amount;
      forall x ensures SumFrom(t.mints, x) == SumFrom(log, x) + (if now >= x then c.amount else 0) {}
      if now >= s.windowStart + w {
        forall x | x >= now ensures SumFrom(log, x) == 0 { SumFromNone(log, x); }
      }
      forall x ensures SumWithin(t.mints, x, w) <= 2 * most {
        if x <= now < x + w { SumWithinAtMost(log, x, w); }
      }
    }
  }

  /** The limiter lets an amount through exactly when it and what was minted since the window
      in force opened fit the cap together; an expired window opens anew at this ledger. */
  lemma LimiterIff(s: State, now: int, amount: int, most: int, w: int)
    requires WindowInv(s, most, w) && 1 <= w && amount > 0
    ensures var start := if now >= s.windowStart + w then now else s.windowStart;
            CheckVolume(s, now, amount).Some? <==> SumFrom(s.mints, start) + amount <= s.volumeCap
  {
    if now >= s.windowStart + w { SumFromNone(s.mints, now); }
  }

  /** A volume-cap change that keeps the window length and stays within (0, most]. */
  predicate CapWithin(c: Call, most: int, w: int)
  {
    c.CallSetVolumeCap? ==> 0 < c.cap <= most && c.window == w
  }

  /** Ledger numbers never decrease along the run, which starts at ledger t or later. */
  ghost predicate Chronological(calls: seq<Call>, t: int)
  {
    calls != [] ==> t <= calls[0].now && Chronological(calls[1..], calls[0].now)
  }

  /** Calls that mint nothing leave the limiter's bound alone. */
  lemma OtherWindow(s: State, c: Call, most: int, w: int)
    requires WindowInv(s, most, w) && !c.CallMint? && CapWithin(c, most, w)
    ensures WindowInv(Step(s, c), most, w) && Step(s, c).windowStart == s.windowStart
  {
    if !c.CallBurn? { AdminUntouched(s, c); }
  }

  /** In every run, any w consecutive ledgers mint at most twice the cap, and each window at
      most the cap. */
  lemma {:induction false} RunWindow(s: State, calls: seq<Call>, t: int, most: int, w: int)
    requires WindowInv(s, most, w) && 1 <= w && s.windowStart <= t && Chronological(calls, t)
    requires forall c :: c in calls ==> CapWithin(c, most, w)
    ensures WindowInv(Run(s, calls), most, w)
    decreases |calls|
  {
    if calls == [] {
    } else {
      var c := calls[0];
      assert CapWithin(c, most, w);
      if c.CallMint? { MintWindow(s, c, most, w); } else { OtherWindow(s, c, most, w); }
      RunWindow(Step(s, c), calls[1..], c.now, most, w);
    }
  }

  /** The statement for a freshly initialised bridge. */
  lemma MintedInAnyWindow(list: seq<Address>, threshold: int, cap: int, w: int, calls: seq<Call>, x: int)
    requires 0 < cap && 1 <= w && Chronological(calls, 0)
    requires forall c :: c in calls ==> CapWithin(c, cap, w)
    ensures SumWithin(Run(Fresh(list, threshold, cap, w), calls).mints, x, w) <= 2 * cap
  {
    RunWindow(Fresh(list, threshold, cap, w), calls, 0, cap, w);
  }

  /** A bridge with one signer, who signs; nothing but the limiter can refuse the mint. */
  ghost predicate Sole(s: State, a: Address)
  {
    Inv(s) && s.signers == Enrol([a]) && s.threshold == 1 && !s.paused && s.mintCap == map[]
  }

  lemma SoleMint(s: State, a: Address, now: int, amount: int, chain: Address, hash: string)
    requires Sole(s, a) && amount > 0 && hash !in s.processed && CheckVolume(s, now, amount).Some?
    ensures var t := Step(s, CallMint(now, {a}, true, amount, chain, hash, [a]));
            && Sole(t, a) && t.processed == s.processed + {hash}
            && t.mints == s.mints + [Mint(now, amount, chain, hash, [a], {a}, 1)]
            && t.windowStart == CheckVolume(s, now, amount).value.windowStart
            && t.volume == CheckVolume(s, now, amount).value.volume
            && t.volumeCap == s.volumeCap && t.windowLedgers == s.windowLedgers
  {
    assert Members([a]) == {a};
    assert a in Active(s.signers);
    assert Active(s.signers) == {a};
    MintOutcome(s, now, {a}, true, amount, chain, hash, [a]);
    MintKeeps(s, now, {a}, true, amount, chain, hash, [a]);
  }

  /** The factor two is needed: with cap 5 and window 10, ledgers 9 and 10 let 10 through. */
  lemma TwiceTheCapIsReached(a: Address, chain: Address, h0: string, h1: string, c0: Call, c1: Call)
    requires h0 != h1
    requires c0 == CallMint(9, {a}, true, 5, chain, h0, [a]) && c1 == CallMint(10, {a}, true, 5, chain, h1, [a])
    ensures Chronological([c0, c1], 0)
    ensures SumWithin(Run(Fresh([a], 1, 5, 10), [c0, c1]).mints, 9, 10) == 10
  {
    var s := Fresh([a], 1, 5, 10);
    FreshInv([a], 1, 5, 10);
    SoleMint(s, a, 9, 5, chain, h0);
    SoleMint(Step(s, c0), a, 10, 5, chain, h1);
    TwoCalls(s, c0, c1);
    TwoEntries(Mint(9, 5, chain, h0, [a], {a}, 1), Mint(10, 5, chain, h1, [a], {a}, 1));
    assert [c0, c1][1..] == [c1];
    assert Chronological([c1], 9);
  }

  lemma TwoCalls(s: State, c0: Call, c1: Call)
    ensures Run(s, [c0, c1]) == Step(Step(s, c0), c1)
  {
    assert [c0, c1][1..] == [c1] && [c1][1..] == [];
    assert Run(Step(s, c0), [c1]) == Run(Step(Step(s, c0), c1), []);
  }

  lemma TwoEntries(m0: Mint, m1: Mint)
    requires m0.ledger == 9 && m1.ledger == 10
    ensures SumWithin([] + [m0] + [m1], 9, 10) == m0.amount + m1.amount
  {
    var log := [] + [m0] + [m1];
    assert log[..1] == [m0] && [m0][..0] == [];
    assert SumWithin([m0], 9, 10) == m0.amount;
  }

  // ---------------------------------------------------------------- what each call does

  /** What is counted against the cap when something is minted at ledger `now`. */
  function Used(s: State, now: int): int { if now >= s.windowStart + s.windowLedgers then 0 else s.volume }

  /** A mint goes through exactly on a running bridge with a positive amount that fits the volume
      cap, if there is one, and the chain's cap, if there is one, for a source hash not minted
      before, signed by enough different active signers, when the token call works. It marks the
      hash, credits the chain, is logged with its signers, and counts in the window, which opens
      anew when it has expired; nothing else changes. */
  lemma MintEffect(s: State, now: int, auth: set<Address>, tokenOk: bool, amount: int, chain: Address,
                   hash: string, list: seq<Address>)
    requires Inv(s)
    ensures var (t, r) := MintPusd(s, now, auth, tokenOk, amount, chain, hash, list);
            var fits := s.volumeCap == 0 || Used(s, now) + amount <= s.volumeCap;
            && (r.Ok? <==> && !s.paused && amount > 0 && fits && (forall m :: m in s.mints ==> m.hash != hash)
                           && Backed(list, Active(s.signers) * auth, s.threshold)
                           && (Get(s.mintCap, chain) > 0 ==> Get(s.minted, chain) + amount <= Get(s.mintCap, chain))
                           && tokenOk)
            && (r == Err(VolumeCapExceeded) <==> !s.paused && amount > 0 && !fits)
            && (!r.Ok? ==> t == s)
            && (r.Ok? ==>
                  && t == s.(processed := s.processed + {hash}, minted := t.minted, windowStart := t.windowStart, volume := t.volume,
                             mints := s.mints + [Mint(now, amount, chain, hash, list, Active(s.signers), s.threshold)])
                  && Moved(s.minted, t.minted, chain, amount)
                  && (s.volumeCap == 0 ==> t.volume == s.volume && t.windowStart == s.windowStart)
                  && (s.volumeCap != 0 ==>
                        && t.volume == Used(s, now) + amount
                        && t.windowStart == if now >= s.windowStart + s.windowLedgers then now else s.windowStart))
  {
    RefusalIff(s, auth, amount, chain, hash, list);
    NoRefusalIsVolume(s, auth, amount, chain, hash, list);
  }

  lemma NoRefusalIsVolume(s: State, auth: set<Address>, amount: int, chain: Address, hash: string, list: seq<Address>)
    ensures Refusal(s, auth, amount, chain, hash, list) != Some(Err(VolumeCapExceeded))
    ensures Refusal(s, auth, amount, chain, hash, list).Some? ==> !Refusal(s, auth, amount, chain, hash, list).value.Ok?
  {}

  /** A burn goes through exactly on a running bridge with a positive amount, authorised and
      collected. It gets the next number, and the chain's burns grow by it. */
  lemma BurnOutcome(s: State, auth: bool, tokenOk: bool, amount: int, chain: Address)
    requires Inv(s)
    ensures var (t, r) := BurnPusd(s, auth, tokenOk, amount, chain);
            && (r.Ok? <==> !s.paused && amount > 0 && auth && tokenOk)
            && (r == Err(AlreadyPaused) <==> s.paused) && (r == Err(InvalidAmount) <==> !s.paused && amount <= 0)
            && (!r.Ok? ==> t == s)
            && (r.Ok? ==>
                  && r.value == |s.burns| && Moved(s.burned, t.burned, chain, amount)
                  && t == s.(nextNonce := s.nextNonce + 1, burned := t.burned, burns := s.burns + [Burn(|s.burns|, amount, chain)]))
  {}
}
