/** The burn/mint bridge as the host runs it. Every method is proved to act on its storage
    exactly as the function of module BurnMint says. */
module BurnMintContract {
  import opened BurnMint
  import opened Outcomes
  import opened Quorum
  import opened Totals

  class Bridge {
    var signers: Signers
    var signerCount: int
    var threshold: int
    var nextNonce: int
    var processed: set<string>
    var minted: Balances
    var burned: Balances
    var mintCap: Balances
    var windowStart: int
    var volume: int
    var volumeCap: int
    var windowLedgers: int
    var paused: bool
    // logs of what happened, for the theorems only
    var mints: seq<Mint>
    var burns: seq<Burn>

    function View(): State
      reads this
    {
      State(signers, signerCount, threshold, nextNonce, processed, minted, burned, mintCap,
            windowStart, volume, volumeCap, windowLedgers, paused, mints, burns)
    }

    /** The books are in order. A bridge initialised with a repeated signer never has them in
        order, so methods do not ask for it; each keeps it. */
    ghost predicate Valid()
      reads this
    {
      Inv(View())
    }

    constructor Deploy(list: seq<Address>, threshold: int, cap: int, window: int)
      ensures View() == Fresh(list, threshold, cap, window)
    {
      this.signers, signerCount, this.threshold := Enrol(list), |list|, threshold;
      nextNonce, processed, minted, burned, mintCap := 0, {}, map[], map[], map[];
      windowStart, volume, volumeCap, windowLedgers, paused := 0, 0, cap, window, false;
      mints, burns := [], [];
    }

    /** None when `initialize` panics. Repeats in the list are not looked for. */
    static method Initialize(auth: bool, list: seq<Address>, threshold: nat, cap: int, window: nat)
      returns (b: Option<Bridge>)
      ensures b.Some? <==> auth && 1 <= threshold <= |list|
      ensures b.Some? ==> fresh(b.value) && b.value.View() == Fresh(list, threshold, cap, window)
      ensures b.Some? ==> (b.value.Valid() <==> Distinct(list))
    {
      if !auth || threshold == 0 || threshold > |list| { return None; }
      FreshInv(list, threshold, cap, window);
      var bridge := new Bridge.Deploy(list, threshold, cap, window);
      return Some(bridge);
    }

    /** The host's rollback of a mint that failed after the limiter wrote its window. */
    method RestoreWindow(start: int, used: int)
      modifies this`windowStart, this`volume
      ensures windowStart == start && volume == used
    {
      windowStart, volume := start, used;
    }

    /** Writes the window before it knows whether the amount fits, as the code does. */
    method CheckVolumeCircuitBreaker(now: int, amount: int) returns (ok: bool)
      modifies this`windowStart, this`volume
      ensures ok == CheckVolume(old(View()), now, amount).Some?
      ensures ok ==> View() == CheckVolume(old(View()), now, amount).value
      ensures old(Valid()) ==> Valid()
    {
      hide Inv;
      ghost var s := View();
      if volumeCap == 0 { return true; }
      var windowVolume := volume;
      if now >= windowStart + windowLedgers {
        windowStart := now;
        windowVolume := 0;
      }
      if windowVolume + amount > volumeCap {
        WindowFree(s, windowStart, volume);
        return false;
      }
      volume := windowVolume + amount;
      WindowFree(s, windowStart, volume);
      return true;
    }

    /** The nested loops over the listed signers. */
    method VerifySigners(list: seq<Address>, auth: set<Address>) returns (f: Option<Fault>)
      ensures f == FirstFault(signers, list, auth, 0)
    {
      for i := 0 to |list|
        invariant FirstFault(signers, list, auth, i) == FirstFault(signers, list, auth, 0)
      {
        var signer := list[i];
        if !IsSigner(signers, signer) { return Some(NoSigner); }
        for j := 0 to i
          invariant signer !in list[..j]
        {
          if list[j] == signer { return Some(Repeated); }
          assert list[..j + 1] == list[..j] + [list[j]];
        }
        if signer !in auth { return Some(Unsigned); }
      }
      return None;
    }

    /** Replay, threshold, signer and mint-cap checks, in this order. */
    method RefuseMint(auth: set<Address>, amount: int, chain: Address, hash: string, list: seq<Address>)
      returns (e: Option<Result<(), BridgeError>>)
      ensures e == Refusal(View(), auth, amount, chain, hash, list)
      ensures Valid() ==>
                (e == None <==>
                   && (forall m :: m in mints ==> m.hash != hash)
                   && Backed(list, Active(signers) * auth, threshold)
                   && (Get(mintCap, chain) > 0 ==> MintSum(mints, chain) + amount <= Get(mintCap, chain)))
    {
      hide Inv;
      if Valid() { RefusalIff(View(), auth, amount, chain, hash, list); }
      if hash in processed { return Some(Err(AlreadyProcessed)); }
      if |list| < threshold { return Some(Err(ThresholdNotMet)); }
      var fault := VerifySigners(list, auth);
      match fault {
        case Some(NoSigner) => return Some(Err(NotSigner));
        case Some(Repeated) => return Some(Err(DuplicateSigner));
        case Some(Unsigned) => return Some(Panic);
        case None =>
      }
      var cap := Get(mintCap, chain);
      if cap > 0 && Get(minted, chain) + amount > cap { return Some(Err(MintCapExceeded)); }
      return None;
    }

    method MintPusd(now: int, auth: set<Address>, tokenOk: bool, amount: int, chain: Address,
                    hash: string, list: seq<Address>)
      returns (r: Result<(), BridgeError>)
      modifies this`windowStart, this`volume, this`processed, this`minted, this`mints
      ensures (View(), r) == BurnMint.MintPusd(old(View()), now, auth, tokenOk, amount, chain, hash, list)
      ensures old(Valid()) ==> Valid()
    {
      hide Inv, CheckVolume, FirstFault;
      if Valid() { MintKeeps(View(), now, auth, tokenOk, amount, chain, hash, list); }
      if paused { return Err(AlreadyPaused); }
      if amount <= 0 { return Err(InvalidAmount); }
      var start, used := windowStart, volume;
      var ok := CheckVolumeCircuitBreaker(now, amount);
      if !ok {
        RestoreWindow(start, used);
        return Err(VolumeCapExceeded);
      }
      var refusal := RefuseMint(auth, amount, chain, hash, list);
      if refusal.Some? || !tokenOk {
        RestoreWindow(start, used);
        return if refusal.Some? then refusal.value else Panic;
      }
      RecordMint(Mint(now, amount, chain, hash, list, Active(signers), threshold));
      return Ok(());
    }

    /** The writes of a mint that nothing refused. */
    method RecordMint(m: Mint)
      modifies this`processed, this`minted, this`mints
      ensures processed == old(processed) + {m.hash}
      ensures minted == old(minted)[m.chain := Get(old(minted), m.chain) + m.amount]
      ensures mints == old(mints) + [m]
    {
      processed := processed + {m.hash};
      minted := minted[m.chain := Get(minted, m.chain) + m.amount];
      mints := mints + [m];
    }

    method BurnPusd(auth: bool, tokenOk: bool, amount: int, chain: Address) returns (r: Result<int, BridgeError>)
      modifies this`nextNonce, this`burned, this`burns
      ensures (View(), r) == BurnMint.BurnPusd(old(View()), auth, tokenOk, amount, chain)
      ensures old(Valid()) ==> Valid()
    {
      hide Inv;
      if Valid() { BurnKeeps(View(), auth, tokenOk, amount, chain); }
      if paused { return Err(AlreadyPaused); }
      if amount <= 0 { return Err(InvalidAmount); }
      if !auth { return Panic; }
      var nonce, sums := nextNonce, burned;
      nextNonce := nonce + 1;
      burned := burned[chain := Get(burned, chain) + amount];
      if !tokenOk {
        nextNonce, burned := nonce, sums;
        return Panic;
      }
      burns := burns + [Burn(nonce, amount, chain)];
      return Ok(nonce);
    }

    method AddSigner(auth: bool, signer: Address) returns (r: Result<(), BridgeError>)
      modifies this`signers, this`signerCount
      ensures (View(), r) == BurnMint.AddSigner(old(View()), auth, signer)
      ensures old(Valid()) ==> Valid()
      ensures r.Ok? <==> auth && signer !in old(Active(signers))
      ensures r.Ok? ==> Active(signers) == old(Active(signers)) + {signer}
    {
      hide Inv;
      if Valid() { StepKeeps(View(), CallAddSigner(0, auth, signer)); }
      AddSignerOutcome(View(), auth, signer);
      if !auth { return Panic; }
      if IsSigner(signers, signer) { return Err(DuplicateSigner); }
      signers := signers[signer := true];
      signerCount := signerCount + 1;
      return Ok(());
    }

    method RemoveSigner(auth: bool, signer: Address) returns (r: Result<(), BridgeError>)
      modifies this`signers, this`signerCount
      ensures (View(), r) == BurnMint.RemoveSigner(old(View()), auth, signer)
      ensures old(Valid()) ==> Valid()
      ensures old(Valid()) ==> (r.Ok? <==> auth && signer in old(Active(signers)) && threshold < |old(Active(signers))|)
      ensures old(Valid()) && r.Ok? ==> Active(signers) == old(Active(signers)) - {signer}
    {
      hide Inv;
      if Valid() {
        StepKeeps(View(), CallRemoveSigner(0, auth, signer));
        RemoveSignerOutcome(View(), auth, signer);
      }
      if !auth { return Panic; }
      if !IsSigner(signers, signer) { return Err(SignerNotFound); }
      if signerCount - 1 < threshold { return Err(CannotRemoveBelowThreshold); }
      signers := signers[signer := false];
      signerCount := signerCount - 1;
      return Ok(());
    }

    method SetThreshold(auth: bool, newThreshold: nat) returns (r: Result<(), BridgeError>)
      modifies this`threshold
      ensures (View(), r) == BurnMint.SetThreshold(old(View()), auth, newThreshold)
      ensures old(Valid()) ==> Valid()
      ensures old(Valid()) ==> (r.Ok? <==> auth && 1 <= newThreshold <= |Active(signers)|)
      ensures threshold == if r.Ok? then newThreshold else old(threshold)
    {
      hide Inv;
      if Valid() {
        StepKeeps(View(), CallSetThreshold(0, auth, newThreshold));
        CountIsActive(View());
      }
      if !auth { return Panic; }
      if newThreshold == 0 || newThreshold > signerCount { return Err(InvalidThreshold); }
      threshold := newThreshold;
      return Ok(());
    }

    method SetVolumeCap(auth: bool, cap: int, window: nat) returns (r: Result<(), BridgeError>)
      modifies this`volumeCap, this`windowLedgers
      ensures (View(), r) == BurnMint.SetVolumeCap(old(View()), auth, cap, window)
      ensures r.Ok? <==> auth
      ensures r.Ok? ==> volumeCap == cap && windowLedgers == window
      ensures old(Valid()) ==> Valid()
      ensures forall most, w :: old(WindowInv(View(), most, w)) && (r.Ok? ==> 0 < cap <= most && window == w) ==>
                WindowInv(View(), most, w)
    {
      hide Inv;
      ghost var s := View();
      ghost var c := CallSetVolumeCap(0, auth, cap, window);
      if Valid() { StepKeeps(s, c); }
      forall most, w | WindowInv(s, most, w) && (auth ==> 0 < cap <= most && window == w)
        ensures WindowInv(Step(s, c), most, w)
      {
        if auth { OtherWindow(s, c, most, w); }
      }
      if !auth { return Panic; }
      volumeCap := cap;
      windowLedgers := window;
      return Ok(());
    }
  }
}
