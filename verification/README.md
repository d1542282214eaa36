# Suban contracts: a verified model

A Dafny model of the arithmetic and the state machines of Suban's Soroban contracts, and of
the two off-chain services that have to agree with them. `dafny verify dfyconfig.toml` checks
everything.

| part | files | what is modelled |
|---|---|---|
| StableSwap pool | `StableMath`, `StableBound`, `StableConverge`, `StablePrice`, `Stable`, `StableContract` | the two Newton solvers with every floor, and the pool that calls them |
| constant-product pool | `CpmmMath`, `Cpmm`, `CpmmContract` | integer square root, share minting, redemption, swaps, the event log |
| liquidity mining | `Farm`, `FarmContract` | the lazy reward accumulator, stakes, claims and the vault that pays them |
| burn/mint bridge | `BurnMint`, `BurnMintContract` | threshold-signed mints, replay protection, the fixed-window limiter |
| multisig bridge | `Multisig`, `MultisigContract` | proposals, votes, execution, volume tracking |
| lending pool | `Lending`, `LendingCalls`, `LendingContract` | positions, health factor, liquidation, interest |
| liquidation bot | `Planner` | the off-chain plan, against the contract's `liquidate` |
| escrow manager | `Escrows`, `EscrowContract` | milestone escrows sharing one vault |
| event indexer | `Indexer`, `Decimal` | parsing pool events and folding them back into pool state |
| shared | `Arithmetic`, `Outcomes`, `Totals`, `PoolShares`, `Quorum` | division facts, results, sums over balances, pro-rata shares, signer sets |

How it is built:

- Each contract appears twice. One module holds its storage as a value and each call as a
  function on that value, with the theorems about calls and about whole runs (sequences of
  calls). The `...Contract` module holds a class whose fields are the storage and whose methods
  change them in the order the code does. Each method is proved to give exactly the reply and
  the new storage of the function, so the theorems are theorems about the class, and to keep
  the contract's invariant (`Valid`, "the books" below). What a call does is also told without the
  functions: the `...Outcome` lemmas say exactly when it goes through and all that it then changes. Where the code can be put into a state
  outside the invariant, methods do not ask for it; they say that they keep it.
- A call that does not end in `Ok` leaves the storage as it was, because the host rolls it back.
  Methods that write before a later check undo the write explicitly. `Panic` is an aborted call.
- Amounts are mathematical integers (the release profile aborts on overflow). The `u128` range
  is stated where a property is about it. Rust's `/` on possibly negative `i128` values truncates
  toward zero.
- Authorisation, the success of inbound token transfers, ledger numbers and oracle answers are
  inputs of a call (for the escrow manager and the mints, the set of addresses that signed). Addresses, chain symbols and transaction hashes are text.
- Fields that only the theorems use (running totals, logs, what each party was paid) are marked
  as such where they are declared; no call reads them.

What the code does not guarantee, stated as theorems:

- A StableSwap swap empties the paying reserve exactly when the fee is 0 and the quadratic it
  solves has c < g (`Stable.SwapDrainsIff`, `Stable.ZeroFeeDrains`); for c == g it depends on the
  path of the iterates (`Stable.BoundaryGoesBothWays`).
- compute_d need not converge within its iterations (`StableMath.NeedNotConverge`), except that it
  always does when the first reserve is at most three times the second (`StableConverge.Converges`).
  Failing to converge does no harm to the pool's unsigned subtractions: whatever compute_d returns,
  no swap and no deposit aborts on them (`StableBound.ReturnedBelow`, `Stable.FundedSwapPays`,
  `Stable.FundedDepositMints`).
- The limiter of the burn/mint bridge bounds a window, not every span of the window's length: a
  span can carry twice the cap, and never more (`BurnMint.RunWindow`,
  `BurnMint.TwiceTheCapIsReached`).
- Neither bridge looks for repeats in its initial signer list; with one, the signer count
  overstates the signers (`BurnMint.FreshInv`, `Multisig.FreshInv`), and a threshold can be out
  of reach (`BurnMint.RepeatedSignerBlocksMints`).
- The volume cap of the multisig bridge is compared with the stored volume when a proposal is made,
  whether or not the window has expired, and never at execution. A full window with nothing pending
  shuts the bridge for good, unless the admin changes the cap (`Multisig.ShutForGood`,
  `Multisig.CapReachedShutsForGood`), and pending proposals can together exceed the cap
  (`Multisig.PendingTwinsBothExecute`, at an amount of the whole cap). Pausing stops proposals, not
  approvals (`Multisig.ApproveOutcome`).
- The farm does not move its ledger while nobody stakes: the first to stake afterwards has at once
  earned the emission of the idle ledgers (`Farm.FirstStakerEarnsIdle`, `Farm.IdleLedgersPaid`).
- Replay protection of the multisig bridge does not reach across proposals that are pending
  together (`Multisig.PendingTwinsBothExecute`, `Multisig.RepeatedDepositIff`). The status
  `Expired` is never stored: the write is followed by an error, which undoes it
  (`Multisig.RunKeeps`).
- The lending pool can be initialised again while in use, which sets its totals to 0; the books
  survive that exactly when nobody owes anything (`Lending.RunKeeps`,
  `Lending.ReinitialisingBreaksTheBooks`).
- A liquidation can lower the borrower's health, exactly when it seizes a larger part of the
  collateral than it repays of the debt (`Lending.LiquidationNoWorseIff`,
  `Lending.LiquidationCanHurt`).
- set_collateral bounds collateral by the deposit, but the deposit can be withdrawn afterwards: a
  withdrawal keeps collateral within the deposit exactly when it takes no more than the difference
  (`LendingCalls.WithdrawKeepsBackingIff`, `LendingCalls.CollateralOutlivesDeposit`).
- The lending pool's supply can fall below 0, because deposits credit the user with tokens and the
  supply with shares. Deposits then mint too many or a negative number of shares, and withdrawals
  pay less than a token per share (`Lending.OverdrawnSupply`), exactly as `Lending.DepositMints` and
  `Lending.WithdrawPays` say.
- A depositor into a lending pool without supply can at once withdraw more than the deposit, exactly
  when something is borrowed or reserved (`Lending.DepositThenWithdraw`, `Lending.EmptiedSupply`).
- The liquidation bot plans on a health of 0 when the oracle fails; the contract refuses such a
  plan (`Planner.PlanIsAccepted`, `Planner.SilentOraclePlan`).
- A dispute over an escrow with nothing left in it can never be closed (`Escrows.RunLater`,
  `Escrows.UnfundedDisputeIsStuck`).

## Model

| member | source | states |
|---|---|---|
| StableMath.DStepBound | contracts/stableswap/src/lib.rs:31-42 | one Newton step for D from any value the loop goes on from: the denominator is positive, the result lies in 1..a+b, its successor's square exceeds 4ab, it is never a whole unit below the true invariant, and it may fall below sqrt(4ab) only when the convergence test returns it |
| StableMath.NewtonDBounds | contracts/stableswap/src/lib.rs:22-45 | the same bounds for the value returned from any iterate, by convergence or by running out of iterations; a converged value also has an upper bound |
| StableMath.DNewtonBounds | contracts/stableswap/src/lib.rs:22-45 | for all positive reserves and amp >= 1: 1 <= D <= a+b, (D+1)^2 > 4ab, D not a whole unit below the root of the invariant, and, if converged, above it by no more than the floors can hide |
| StableMath.SettledUpper | contracts/stableswap/src/lib.rs:31-41 | the upper half of that sandwich: the excess of a converged D over the invariant is at most 2a(D+2) + 4ab + 6D + 5 |
| StableMath.EqualReserves | contracts/stableswap/src/lib.rs:22-42 | equal reserves give exactly 2a, by convergence, for every amplification |
| StableMath.NeedNotConverge | contracts/stableswap/src/lib.rs:31-44 | reserves (584, 1), amplification 1: after six steps D goes back and forth between 162 and 164, and the loop runs out of its 256 iterations |
| StableMath.ComputeDInRange | contracts/stableswap/src/lib.rs:26-42 | with a+b <= 2^42 and amp within its cap, every intermediate value of every iteration fits in u128 |
| StableMath.ComputeD | contracts/stableswap/src/lib.rs:22-45 | the loop as written computes that value; it returns 0 on empty reserves and aborts when just one is empty |
| StableMath.YStart | contracts/stableswap/src/lib.rs:56-75 | the first denominator 2y+b-D is at least 1, because compute_d keeps D within the sum of the reserves |
| StableMath.YStepSafe | contracts/stableswap/src/lib.rs:74-76 | after a step that the test does not return, the next denominator is positive: no underflow and no division by zero in any iteration |
| StableMath.YStepHalves | contracts/stableswap/src/lib.rs:76 | a step from two or more above the floored root at least halves the excess |
| StableMath.YSettles | contracts/stableswap/src/lib.rs:72-83 | if the first numerator fits in u128, the convergence test ends the loop before the iteration limit |
| StableMath.NewtonY | contracts/stableswap/src/lib.rs:72-88 | the returned y is non-negative, the quadratic is positive at y+1, and, if converged, at most 1 at y |
| StableMath.YNewtonIsFloorRoot | contracts/stableswap/src/lib.rs:56-88 | compute_y returns the floored positive root of its quadratic, or one more when the quadratic is exactly 1 there |
| StableMath.YNewtonMono | contracts/stableswap/src/lib.rs:56-88 | for a larger input compute_y returns at most one more than for a smaller one |
| StableMath.ComputeY | contracts/stableswap/src/lib.rs:56-88 | the code computes YNewton, whose value StablePrice.YOnCurve ties to the invariant, and aborts only when compute_d does |
| StableMath.IterateY | contracts/stableswap/src/lib.rs:70-88 | the loop, whose unsigned subtraction never underflows |
| StableBound.StepContracts | contracts/stableswap/src/lib.rs:31-36 | above the bound of ReturnedBelow, a step that does not get within it comes down by at least a third of the distance |
| StableBound.RiseStaysBelow | contracts/stableswap/src/lib.rs:31-36 | a step that rises by two or more, which only the floors make possible, stays within the bound |
| StableBound.ReturnedBelow | contracts/stableswap/src/lib.rs:22-45 | for all positive reserves with a u128 sum: the returned D, converged or not, satisfies D^3 < 4(a+1)(b+1) * (Ann*S - (Ann-1)*D + 1), so it is at most about the invariant of a pool with one more unit on each side |
| StableBound.AboveOne | contracts/stableswap/src/lib.rs:22-88 | so the quadratic that compute_y solves for any positive input exceeds 1 just above the paying reserve: a bound across both loops and all four floors |
| StableBound.NoOvershoot | contracts/stableswap/src/lib.rs:56-88 | within that u128 range, compute_y never returns more than the paying reserve |
| StableBound.GrowsWithReserves | contracts/stableswap/src/lib.rs:22-45 | on reserves with a u128 sum, D never falls when both reserves grow, converged or not |
| StableConverge.RootContracts | contracts/stableswap/src/lib.rs:31-36 | for a <= 3b, a step from two or more above the floored invariant t leaves at most two thirds of the distance to t + 1 |
| StableConverge.RootHolds | contracts/stableswap/src/lib.rs:31-36 | for a <= 3b, a step from t or t + 1 goes to t or t + 1 |
| StableConverge.Converges | contracts/stableswap/src/lib.rs:22-45 | for all reserves with a <= 3b and a u128 sum, and every amplification: compute_d converges within its 256 iterations and returns the true invariant rounded down, or one more (up to three more when a * b <= 16) |
| StableConverge.BalancedSettles | contracts/stableswap/src/lib.rs:22-45 | for a <= 3b and a u128 sum, told before the call: compute_d converges, and the upper half of the sandwich of DNewtonBounds holds |
| StablePrice.YOnCurve | contracts/stableswap/src/lib.rs:56-88 | the y that compute_y returns, against the invariant of the old D and at the new input reserve x: D^3 < 4x(y+1)(n(x+y+1) - (n-1)D) + 2xD, and, when the loop converges, 4xy(n(x+y) - (n-1)D) <= D^3 + 4x((n-1)y + n), with n = 4 amp |
| Stable.GrowthBound | contracts/stableswap/src/lib.rs:212-219 | on reserves with a u128 sum, a later deposit never aborts on d1 - d0; it mints the largest number of shares that does not lower D per share |
| Stable.FundedDepositMints | contracts/stableswap/src/lib.rs:191-250 | a funded deposit of positive amounts into a live pool whose reserves have a u128 sum always goes through |
| Stable.EqualFirstDeposit | contracts/stableswap/src/lib.rs:208-211 | a first deposit of equal amounts mints exactly their sum, and redeeming it returns exactly the deposit |
| Stable.FirstDepositMints | contracts/stableswap/src/lib.rs:208-211 | a first deposit with a <= 3b mints the true invariant of the two amounts, rounded down, or one share more (up to three when a * b <= 16) |
| Stable.SwapEffect | contracts/stableswap/src/lib.rs:339-359 | a successful swap pays what is left of reserve - y after the fee, rounded down, and changes nothing but the two reserves |
| Stable.SwapKeeps | contracts/stableswap/src/lib.rs:318-360 | swaps keep the pool's books and the share count, at a positive fee never empty a side, and change nothing when they fail |
| Stable.SwapDrainsIff | contracts/stableswap/src/lib.rs:339-360 | a successful swap empties the paying side exactly when the fee is 0 and the quadratic has c < g, both known before the solver runs; for c > g or a positive fee it never does, and for c == g at most one token stays |
| Stable.ZeroFeeDrains | contracts/stableswap/src/lib.rs:183-360 | the drain happens: a new pool, the fee set to 0, a first deposit of (1, 1) at amplification 1; then input 2, where c = 0 and g = 1, takes the last token |
| Stable.BoundaryGoesBothWays | contracts/stableswap/src/lib.rs:183-360 | the excluded case c == g goes either way in pools so reached: (1, 1) with input 1 is emptied, (1, 2) with input 2 keeps one token |
| Stable.FundedSwapPays | contracts/stableswap/src/lib.rs:311-392 | a funded swap without a slippage limit always goes through: as long as the sum of the reserves and the first numerator of compute_y are u128 values (the code aborts on forming them otherwise), reserve_out - y never underflows, whether or not compute_d converged |
| Stable.MoreInPaysNoLess | contracts/stableswap/src/lib.rs:339-347 | a larger input pays at most one unit less than a smaller one |
| Stable.StepKeeps | contracts/stableswap/src/lib.rs:183-393 | every call keeps total shares equal to the LP balances, balances and reserves non-negative, an empty pool without shares, and, at a positive fee, both sides non-empty while shares remain |
| Stable.RunStaysLive | contracts/stableswap/src/lib.rs:183-393 | in every run whose fee is never set to 0, shares outstanding means both reserves are positive |
| Stable.AddOutcome | contracts/stableswap/src/lib.rs:191-250 | exactly when a deposit into a live pool with a u128 reserve sum goes through, and with which error otherwise; it mints the largest number of shares whose part of D the deposit adds (a first one: its D), all to the depositor, and the reserves grow by exactly the deposit |
| Stable.RemoveOutcome | contracts/stableswap/src/lib.rs:252-309 | exactly when a redemption goes through, both limits included; it pays the largest amounts within the shares' part of the reserves, which fall by exactly them, and takes the shares from this provider only |
| Stable.SwapOutcome | contracts/stableswap/src/lib.rs:311-392 | for u128 reserves and numerator there is a y on the curve of the old D, as StablePrice.YOnCurve states it, such that the swap goes through exactly when authorised, funded and (reserve_out - y) less the fee meets the limit; it pays the largest whole amount of that and moves nothing but the two reserves |
| Stable.SwapKeepsInvariant | contracts/stableswap/src/lib.rs:22-360 | a swap that pays something at a positive fee lowers the computed D, with the reserves in either order and converged or not, by at most one, as long as D <= 2(4 amp - 1) times what is left of the paying reserve |
| Stable.SwapRefused | contracts/stableswap/src/lib.rs:318-338 | the checks before the solver: zero amounts, tokens the pool does not have, and a live pool without shares are refused with exactly these errors |
| StableContract.StablePool.Initialize | contracts/stableswap/src/lib.rs:159-180 | deploys an empty pool with fee 30, or panics on equal tokens or an amplification outside 1..1000000 |
| StableContract.StablePool.SetFee | contracts/stableswap/src/lib.rs:183-189 | acts on storage as Stable.SetFee: goes through exactly for the signed admin and at most 1000, and sets just the fee |
| StableContract.StablePool.AddLiquidity | contracts/stableswap/src/lib.rs:191-250 | acts on storage as Stable.AddLiquidity (see Stable.AddOutcome), solving for D in the code's order |
| StableContract.StablePool.RemoveLiquidity | contracts/stableswap/src/lib.rs:252-309 | acts on storage as Stable.RemoveLiquidity (see Stable.RemoveOutcome) |
| StableContract.StablePool.Swap | contracts/stableswap/src/lib.rs:311-392 | acts on storage as Stable.Swap; within u128, a successful swap pays, rounded down, reserve_out less a y on the curve of the old D, less the fee |
| CpmmMath.IsqrtUnique | contracts/cpmm-pool/src/lib.rs:15-26 | the floored square root is the only r with r^2 <= n < (r+1)^2 |
| CpmmMath.BabylonianSqrt | contracts/cpmm-pool/src/lib.rs:15-26 | the Babylonian loop returns the floored square root |
| CpmmMath.MintLargest | contracts/cpmm-pool/src/lib.rs:170-174 | a later deposit mints the largest number of shares within its share of both reserves |
| PoolShares.RedeemLargest | contracts/cpmm-pool/src/lib.rs:237-238 | a redemption pays the largest amount within the shares' part of the reserve |
| PoolShares.RedeemBound | contracts/cpmm-pool/src/lib.rs:237-252 | a redemption never exceeds the reserve, takes all of it for all shares, and does not lower reserve per share |
| CpmmMath.SwapOutLargest | contracts/cpmm-pool/src/lib.rs:303-306 | the output is the largest amount that keeps the product, counting only the after-fee input |
| CpmmMath.SwapKeepsProduct | contracts/cpmm-pool/src/lib.rs:303-321 | no swap lowers the product of the reserves or empties a side |
| CpmmMath.SplitSwap | contracts/cpmm-pool/src/lib.rs:303-306 | two swaps in a row pay at most what one swap of the summed input pays |
| Cpmm.SharesIffReserves | contracts/cpmm-pool/src/lib.rs:164-192 | shares are 0 exactly when either reserve, hence both, is 0 |
| Cpmm.AddKeeps | contracts/cpmm-pool/src/lib.rs:152-192 | deposits keep T^2 <= reserve_a * reserve_b, T the sum of the balances, and do not lower k / T^2 |
| Cpmm.RemoveKeeps | contracts/cpmm-pool/src/lib.rs:212-252 | redemptions keep the same, and do not lower k / T^2 |
| Cpmm.SwapKeeps | contracts/cpmm-pool/src/lib.rs:276-321 | swaps keep the same, leave shares alone and do not lower k |
| Cpmm.RunKeeps | contracts/cpmm-pool/src/lib.rs:152-352 | the invariant holds in every reachable state |
| Cpmm.RunKeepsWorth | contracts/cpmm-pool/src/lib.rs:164-192 | over every run in which shares remain, reserve_a * reserve_b / T^2 never falls |
| Cpmm.SwapsNeverDrain | contracts/cpmm-pool/src/lib.rs:276-321 | over every run of swaps in any mix of directions, one reserve falls only if the other rises |
| Cpmm.AddThenRemove | contracts/cpmm-pool/src/lib.rs:152-252 | a deposit withdrawn at once returns at most the deposit, and exactly the deposit when it was the first |
| Cpmm.SwapFollowsQuote | contracts/cpmm-pool/src/lib.rs:276-400 | a swap succeeds exactly when it is authorised, funded, positive and quoted at no less than the limit; it pays the quote and moves exactly the two reserves |
| Cpmm.SplittingNeverPays | contracts/cpmm-pool/src/lib.rs:276-321 | any sequence of swaps in one direction, with any slippage limits, pays in total at most what one swap of the summed input pays |
| Cpmm.AddOutcome | contracts/cpmm-pool/src/lib.rs:152-209 | exactly when a deposit goes through, and with which error otherwise; it mints the largest number of shares within its part of both reserves (a first one: whose square is within the product), all to the depositor, adds exactly the deposit to the reserves, and publishes just that |
| Cpmm.RemoveOutcome | contracts/cpmm-pool/src/lib.rs:212-273 | exactly when a redemption goes through, both limits included, and with which error otherwise; it pays the largest amounts x with x * total <= shares * reserve, the reserves fall by exactly them, the shares are taken from the total and from this provider only, and just that is published |
| Cpmm.SwapOutcome | contracts/cpmm-pool/src/lib.rs:276-351 | with f the whole part of the input after the fee: exactly when a swap goes through, and with which error otherwise; it pays the largest x with x * (reserve_in + f) <= reserve_out * f, moves nothing but the two reserves, and publishes just that |
| CpmmContract.Pool.Initialize | contracts/cpmm-pool/src/lib.rs:124-149 | deploys an empty pool, or panics on equal tokens or a fee above 1000 |
| CpmmContract.Pool.AddLiquidity | contracts/cpmm-pool/src/lib.rs:152-209 | acts on storage and event log as Cpmm.AddLiquidity, with the Babylonian loop for the first deposit |
| CpmmContract.Pool.RemoveLiquidity | contracts/cpmm-pool/src/lib.rs:212-273 | acts on storage and event log as Cpmm.RemoveLiquidity; each payment is the shares' part of the reserve rounded down, and reserves, total and this provider's balance fall by exactly what is paid and redeemed |
| CpmmContract.Pool.Swap | contracts/cpmm-pool/src/lib.rs:276-351 | acts on storage and event log as Cpmm.Swap |
| Farm.AccrueKeeps | contracts/liquidity-mining/src/lib.rs:74-87 | an accrual never raises the amount paid plus owed beyond what it emits, and loses less than one accumulator step |
| Farm.SettleDrift | contracts/liquidity-mining/src/lib.rs:160-172 | a claim leaves paid-plus-owed exactly as it was; a stake change moves it by less than one unit |
| Farm.RunKeeps | contracts/liquidity-mining/src/lib.rs:119-251 | in every reachable state: the amortised bound, total_staked the sum of the stakes, debts covered, and the vault equal to funding plus stakes minus payouts |
| Farm.PayoutBound | contracts/liquidity-mining/src/lib.rs:150-172 | what was paid, plus what a user could claim now, exceeds emission by less than one unit per stake change |
| Farm.RunLosesLittle | contracts/liquidity-mining/src/lib.rs:74-87 | the other side: over any run, at most 1 + (largest total stake) / 10^6 units per call are emitted and neither paid nor owed |
| Farm.UnstakeCovered | contracts/liquidity-mining/src/lib.rs:183-219 | if outside funding covers emission plus one unit per stake change, every unstake returns the stake and its rewards |
| Farm.RunEmission | contracts/liquidity-mining/src/lib.rs:78-85 | emission lies between the lowest and the highest rate times the ledgers accrued, and is exact for a constant rate |
| Farm.ViewPredictsClaim | contracts/liquidity-mining/src/lib.rs:226-270 | pending_rewards is never negative and tells what claim does at that ledger: NoRewards at 0, exactly that payment, or an abort when the vault holds less |
| Farm.SplitAccrual | contracts/liquidity-mining/src/lib.rs:74-87 | an extra accrual at an intermediate ledger never raises the accumulator |
| Farm.SetRateKeepsPending | contracts/liquidity-mining/src/lib.rs:119-139 | a new emission rate leaves what every user has pending at that ledger exactly as it was |
| Farm.ClaimingOftenNeverPays | contracts/liquidity-mining/src/lib.rs:226-251 | claiming at any ledgers in between never pays more in total than waiting for the last |
| Farm.AccrueOutcome | contracts/liquidity-mining/src/lib.rs:74-87 | an accrual raises the accumulator by the largest amount whose part for all stakes is within rate * ledgers * 10^6, and the view shows the largest amount within the user's part of it less the debt |
| Farm.StakeOutcome | contracts/liquidity-mining/src/lib.rs:142-180 | exactly when stake goes through; it credits this user with exactly the amount, pays exactly what the view shows, and total, vault and accumulator move with that and no other stake |
| Farm.UnstakeOutcome | contracts/liquidity-mining/src/lib.rs:183-223 | exactly when unstake goes through; this user's stake and the total fall by exactly the amount, the vault by the amount and what the view shows, and no other stake changes |
| Farm.ClaimOutcome | contracts/liquidity-mining/src/lib.rs:226-251 | exactly when claim goes through; the vault falls by exactly what the view shows, the user is settled, and no stake changes |
| Farm.FirstStakerEarnsIdle | contracts/liquidity-mining/src/lib.rs:74-86 | who stakes first in a farm without stakes has at once pending, up to the floors, rate times all ledgers since the last accrual |
| Farm.IdleLedgersPaid | contracts/liquidity-mining/src/lib.rs:74-251 | a new farm emitting 10 a ledger and sent 10000: a first stake of 100 at ledger 1000 claims 10000 at that ledger |
| FarmContract.Mining.Initialize | contracts/liquidity-mining/src/lib.rs:96-116 | deploys an empty farm, or panics on a negative rate |
| FarmContract.Mining.AccrueRewards | contracts/liquidity-mining/src/lib.rs:74-87 | keeps the farm's books, never lowers the accumulator, and never raises paid plus owed beyond what it emits |
| FarmContract.Mining.SetRewardPerLedger | contracts/liquidity-mining/src/lib.rs:119-139 | keeps the farm's books; sets the rate exactly for the signed admin and a rate that is not negative, and leaves every user's pending rewards at that ledger exactly as they were |
| FarmContract.Mining.Stake | contracts/liquidity-mining/src/lib.rs:142-180 | keeps the farm's books, acting on storage as Farm.StakeCall and undoing the accrual when the call fails later; credits exactly the amount and pays exactly the view |
| FarmContract.Mining.Unstake | contracts/liquidity-mining/src/lib.rs:183-223 | keeps the farm's books; goes through exactly for a positive amount within the stake that the vault can pay with the view's rewards; returns exactly the amount and those rewards, and changes no other stake |
| FarmContract.Mining.Claim | contracts/liquidity-mining/src/lib.rs:226-251 | keeps the farm's books, and pays exactly what the pending_rewards view showed before the call, when that is positive and in the vault |
| Quorum.DistinctCount | contracts/bridge-burn-mint/src/lib.rs:353-360 | a signer list names as many addresses as it has entries exactly when it has no repeats, and otherwise fewer |
| BurnMint.FaultFree | contracts/bridge-burn-mint/src/lib.rs:337-363 | the nested loops accept a list exactly when it has no repeats and every entry is an active signer that signed |
| BurnMint.MintOutcome | contracts/bridge-burn-mint/src/lib.rs:309-400 | a mint succeeds exactly when not paused, positive, within the limiter, unseen, backed by threshold many distinct active signers, and within the chain's cap by the log |
| BurnMint.RefusalIff | contracts/bridge-burn-mint/src/lib.rs:328-374 | a mint that the limiter lets through is refused by nothing else exactly when no earlier mint has its hash, threshold many distinct active signers signed, and the chain's mints so far leave room under its cap |
| BurnMint.RunKeeps | contracts/bridge-burn-mint/src/lib.rs:257-549 | in every reachable state: signer count the size of the active set, 1 <= threshold <= count, every mint backed by its quorum, every hash minted once, chain books equal to the logs, nonces 0, 1, 2, ... |
| BurnMint.FreshInv | contracts/bridge-burn-mint/src/lib.rs:202-253 | a newly initialised bridge has its books in order exactly when the signer list has no repeats, which initialize does not check |
| BurnMint.NoQuorumNoMint | contracts/bridge-burn-mint/src/lib.rs:332-363 | with fewer active signers than the threshold, no list of signers gets a mint through |
| BurnMint.RepeatedSignerBlocksMints | contracts/bridge-burn-mint/src/lib.rs:216-245 | that state is reached by initialising with one address twice and a threshold of 2 |
| BurnMint.LimiterIff | contracts/bridge-burn-mint/src/lib.rs:150-196 | the limiter admits an amount exactly when it fits the cap with what was minted since the window in force opened |
| BurnMint.MintWindow | contracts/bridge-burn-mint/src/lib.rs:176-194 | one mint keeps the window bookkeeping: the stored volume is what was minted since the window opened and at most the cap |
| BurnMint.RunWindow | contracts/bridge-burn-mint/src/lib.rs:150-400 | over every run with caps in (0, C] and one window length W, each window mints at most C and any W consecutive ledgers at most 2C |
| BurnMint.MintedInAnyWindow | contracts/bridge-burn-mint/src/lib.rs:150-400 | that bound for a freshly initialised bridge |
| BurnMint.TwiceTheCapIsReached | contracts/bridge-burn-mint/src/lib.rs:179-194 | cap 5, window 10: ledgers 9 and 10 mint 10 together |
| BurnMint.MintEffect | contracts/bridge-burn-mint/src/lib.rs:150-400 | exactly when a mint goes through, told by storage and log, the limiter's window included; it marks the hash, credits its chain only, counts in the window, is logged, and changes nothing else |
| BurnMint.BurnOutcome | contracts/bridge-burn-mint/src/lib.rs:257-305 | exactly when a burn goes through; it returns the number of burns before it and counts for its chain only |
| BurnMintContract.Bridge.Initialize | contracts/bridge-burn-mint/src/lib.rs:202-253 | deploys with the listed signers, or panics on a threshold of 0 or above their number; the books are in order exactly when the list has no repeats |
| BurnMintContract.Bridge.CheckVolumeCircuitBreaker | contracts/bridge-burn-mint/src/lib.rs:150-196 | acts on storage as BurnMint.CheckVolume when it succeeds, and keeps the books either way |
| BurnMintContract.Bridge.VerifySigners | contracts/bridge-burn-mint/src/lib.rs:337-363 | the nested loops find the first fault of the list, in the code's order of checks |
| BurnMintContract.Bridge.RefuseMint | contracts/bridge-burn-mint/src/lib.rs:328-374 | finds no reason to refuse exactly when the hash is new to the mint log, the quorum is backed by distinct active signers, and the chain's mints fit its cap |
| BurnMintContract.Bridge.MintPusd | contracts/bridge-burn-mint/src/lib.rs:309-400 | keeps the books, acting on storage as BurnMint.MintPusd and undoing the window write on a later error |
| BurnMintContract.Bridge.BurnPusd | contracts/bridge-burn-mint/src/lib.rs:257-305 | keeps the books, so the returned nonce is the number of burns before it; undoes its writes when the transfer fails |
| BurnMintContract.Bridge.AddSigner | contracts/bridge-burn-mint/src/lib.rs:406-435 | keeps the books; succeeds exactly for an address that is not active, and then the active set grows by exactly that address |
| BurnMintContract.Bridge.RemoveSigner | contracts/bridge-burn-mint/src/lib.rs:437-470 | keeps the books; succeeds exactly for an active address while more are active than the threshold, and then the active set loses exactly that address |
| BurnMintContract.Bridge.SetThreshold | contracts/bridge-burn-mint/src/lib.rs:472-494 | keeps the books; succeeds exactly for a threshold between 1 and the number of active signers, which it then sets |
| BurnMintContract.Bridge.SetVolumeCap | contracts/bridge-burn-mint/src/lib.rs:498-510 | sets cap and window exactly when signed; keeps the books, and the limiter's window bounds for every C and W that the new cap and window respect |
| Multisig.RunKeeps | contracts/bridge-multisig/src/lib.rs:226-605 | in every reachable state: signer books in order, votes by distinct addresses that were signers when they voted, each proposal executed at most once and with at least two votes reaching the threshold then in force, and no status but Pending and Executed |
| Multisig.FreshInv | contracts/bridge-multisig/src/lib.rs:177-221 | a newly initialised bridge has its books in order exactly when the signer list has no repeats, which initialize does not check |
| Multisig.ExecutedStaysClosed | contracts/bridge-multisig/src/lib.rs:254-256 | after an execution, in every later state: the proposal is unchanged, approving it fails, and proposing an id with the same first eight bytes fails |
| Multisig.NonceSeparates | contracts/bridge-multisig/src/lib.rs:685-691 | two deposit ids share a replay key exactly when their first eight bytes agree |
| Multisig.RepeatedDepositIff | contracts/bridge-multisig/src/lib.rs:334-401 | an execution repeats the first eight bytes of an executed deposit id exactly when its replay key was already taken, which approve does not look at |
| Multisig.PendingTwinsBothExecute | contracts/bridge-multisig/src/lib.rs:226-351 | a run of a new bridge with two signers, two proposals of one deposit and two approvals, executes that deposit twice, and so counts twice its amount in one window whatever the cap |
| Multisig.RunVolume | contracts/bridge-multisig/src/lib.rs:413-441 | over every run with one window length, the volume that propose checks is exactly what was executed since the window opened |
| Multisig.AddVolumeTrue | contracts/bridge-multisig/src/lib.rs:427-441 | adding an executed amount and logging it keeps the stored volume equal to what was executed since the window opened |
| Multisig.ProposeOutcome | contracts/bridge-multisig/src/lib.rs:226-293 | exactly when propose goes through: an active signer's positive proposal of a known kind, on a running bridge, whose deposit shares its first eight bytes with no executed one and whose amount fits the cap with the stored volume; it is stored as given, with one vote |
| Multisig.ApproveOutcome | contracts/bridge-multisig/src/lib.rs:298-351 | exactly when approve goes through: signed by an active signer, on a pending proposal at most max-age ledgers old that this signer has not voted on, with a working token call where the vote completes the threshold; exactly then it executes; and with which error otherwise |
| Multisig.ApproveEffect | contracts/bridge-multisig/src/lib.rs:331-441 | what approve writes: the vote and, at execution, status, ledger, replay key, log entry and window volume, and nothing else |
| Multisig.ShutForGood | contracts/bridge-multisig/src/lib.rs:413-441 | once the stored volume has reached the cap and no proposal is pending, no run without a change of the cap stores or executes anything, at any ledger: propose reads the volume of an expired window |
| Multisig.CapReachedShutsForGood | contracts/bridge-multisig/src/lib.rs:226-441 | a new bridge with two signers gets there by one proposal of the whole cap and one approval |
| MultisigContract.Bridge.Initialize | contracts/bridge-multisig/src/lib.rs:177-221 | deploys with the listed signers, or panics on a threshold of 0 or above their number; the books are in order exactly when the list has no repeats |
| MultisigContract.Bridge.Propose | contracts/bridge-multisig/src/lib.rs:226-293 | keeps the books; goes through exactly as Multisig.ProposeOutcome says, and stores a pending proposal under the returned id |
| MultisigContract.Bridge.Approve | contracts/bridge-multisig/src/lib.rs:298-351 | keeps the books; goes through exactly on a pending proposal of at most max-age ledgers that this active, signed signer has not voted on (see Multisig.ApproveOutcome), and executes exactly at the threshold; the expiry write is undone by the error |
| MultisigContract.Bridge.ExecuteProposal | contracts/bridge-multisig/src/lib.rs:355-409 | afterwards every proposal with the executed replay key is refused |
| MultisigContract.Bridge.HasVoted | contracts/bridge-multisig/src/lib.rs:324-329 | the loop finds an earlier vote of the same address |
| MultisigContract.Bridge.AddVolume | contracts/bridge-multisig/src/lib.rs:427-441 | keeps the stored volume equal to what was executed since the window opened, once the execution is logged |
| MultisigContract.Bridge.AddSigner | contracts/bridge-multisig/src/lib.rs:445-465 | keeps the books; succeeds exactly for the admin and an address that is not active, and then the active set grows by exactly that address |
| MultisigContract.Bridge.RemoveSigner | contracts/bridge-multisig/src/lib.rs:467-497 | keeps the books; succeeds exactly for the admin and an active address while more are active than the threshold, and then the active set loses exactly that address |
| MultisigContract.Bridge.SetThreshold | contracts/bridge-multisig/src/lib.rs:501-520 | keeps the books; succeeds exactly for the admin and a threshold between 1 and the number of active signers, which it then sets |
| Lending.RunKeeps | contracts/lending-pool/src/lib.rs:79-510 | over all runs with rate and reserve factor non-negative, re-initialisations included: total_borrows is the users' borrows plus the interest since the totals were set, no borrow is negative, and reserves are at most half that interest, before and after every call exactly when no initialize in the run went through while somebody owed something |
| Lending.InitializeKeepsIff | contracts/lending-pool/src/lib.rs:79-108 | initialising a pool again keeps its books exactly when no user owes anything |
| Lending.ReinitialisingBreaksTheBooks | contracts/lending-pool/src/lib.rs:79-108 | deposit 200, set_collateral 200, borrow 100, initialize, repay 100: nobody owes anything and total_borrows is -100 |
| Lending.InterestLargest | contracts/lending-pool/src/lib.rs:477-493 | interest is the largest whole amount within borrows * rate * ledgers / 10^9 |
| Lending.AccruingOften | contracts/lending-pool/src/lib.rs:477-500 | accruing at an intermediate ledger leaves total borrows at most one unit lower |
| Lending.HealthyIff | contracts/lending-pool/src/lib.rs:895-913 | health of at least 10000 means the weighted collateral value covers the debt value, floors included |
| Lending.RunHealthy | contracts/lending-pool/src/lib.rs:79-370 | with prices, threshold and collateral set-up fixed, every account with debt stays at health 10000 or more under any interleaving of user calls, accruals, pausing and re-initialisation |
| Lending.NeverLiquidated | contracts/lending-pool/src/lib.rs:385-420 | so no liquidation goes through in any state such a run reaches |
| Lending.HealthKeptIff | contracts/lending-pool/src/lib.rs:895-913 | a position's computed health, floors included, falls at no prices exactly when its collateral shrinks by no larger a part than its debt |
| Lending.LiquidationNoWorseIff | contracts/lending-pool/src/lib.rs:385-437 | a successful liquidation lowers the borrower's computed health at no prices exactly when seizure * debt <= repayment * collateral or it repays everything; both are known before the call |
| Lending.LiquidationNeverHurts | contracts/lending-pool/src/lib.rs:385-437 | if collateral covers debt plus bonus, a successful liquidation never lowers the computed health, for any repayment and any prices |
| Lending.LiquidationCanHurt | contracts/lending-pool/src/lib.rs:385-437 | a run from a new pool to 100 of collateral against a debt of 100: liquidate(50) succeeds, seizes 52, and the health falls from 8500 to 8160 |
| Lending.DepositMints | contracts/lending-pool/src/lib.rs:110-163 | a deposit mints itself when there is no supply, else the largest number of shares within its part of the assets; it mints more than the deposit, or less than nothing, exactly under the stated conditions on supply, assets and amount, all of which need a supply below 0 |
| Lending.WithdrawPays | contracts/lending-pool/src/lib.rs:165-228 | a withdrawal pays the largest amount within the shares' part of the assets; that is at least one unit per share exactly when the supply is positive or nothing is borrowed and reserved |
| Lending.DepositThenWithdraw | contracts/lending-pool/src/lib.rs:110-228 | a deposit whose shares are withdrawn at once pays back at most the deposit when the supply is positive; without supply it pays the deposit plus all that is borrowed and reserved; in every case the sum that decides is stated |
| Lending.OverdrawnSupply | contracts/lending-pool/src/lib.rs:110-514 | a run of one user from a new pool (deposits, a loan, interest, a withdrawal) drives the supply to -220 and the assets to -60 with the books in order: a deposit of 100 then mints 366 shares, a withdrawal of 100 pays 27, and after more interest a deposit of 100 mints -220 |
| Lending.EmptiedSupply | contracts/lending-pool/src/lib.rs:110-287 | a run that withdraws all supply while 80 are lent: a deposit of 10, withdrawn at once, pays 90 |
| LendingCalls.HealthTest | contracts/lending-pool/src/lib.rs:855-914 | when the pool can compute a health, and when it is at least 10000, told by oracle answers and products: no debt, or prices there and every checked product an i128 value, and collateral * price * threshold >= 10000 * debt * price |
| LendingCalls.SetCollateralOutcome | contracts/lending-pool/src/lib.rs:337-383 | set_collateral goes through exactly on a running pool, signed, with at most the user's deposit, when the position with that collateral passes the health test; exactly this user's collateral becomes the amount; and with which error otherwise |
| LendingCalls.WithdrawCollateralOutcome | contracts/lending-pool/src/lib.rs:722-772 | withdraw_collateral goes through exactly with a positive amount within the collateral, when the rest passes the health test; it takes exactly that from this user |
| LendingCalls.DepositCollateralOutcome | contracts/lending-pool/src/lib.rs:678-718 | exactly when deposit_collateral goes through; it adds exactly the amount for this user |
| LendingCalls.DepositOutcome | contracts/lending-pool/src/lib.rs:110-163 | exactly when deposit goes through; the user is credited with the amount and the supply with what was minted |
| LendingCalls.WithdrawOutcome | contracts/lending-pool/src/lib.rs:165-228 | exactly when withdraw goes through: at most the deposit, with supply, in a position that passes the health test; deposit and supply fall by the shares |
| LendingCalls.BorrowOutcome | contracts/lending-pool/src/lib.rs:230-287 | borrow goes through exactly with a positive amount within the supply not yet borrowed, when the position with the new debt passes the health test; this user's debt and the total grow by it; and with which error otherwise |
| LendingCalls.RepayOutcome | contracts/lending-pool/src/lib.rs:289-335 | exactly when repay goes through; it takes the largest sum within the amount and the debt from both the user's debt and the total |
| LendingCalls.LiquidateOutcome | contracts/lending-pool/src/lib.rs:385-475 | liquidate goes through exactly on a computable health below 10000 with a seizure that meets the limit and is there; repayment and seizure are the largest possible ones, and debt, collateral and total fall by them; and with which error otherwise |
| LendingCalls.AccrueOutcome | contracts/lending-pool/src/lib.rs:477-514 | accrual adds the largest whole interest within borrows * rate * ledgers / 10^9, and the largest whole part of it within the reserve factor to the reserves |
| LendingCalls.UpdateOutcome | contracts/lending-pool/src/lib.rs:582-620 | update_config goes through exactly for the signed admin with both capped figures within their caps; it sets what is given and leaves the rest |
| LendingCalls.WithdrawKeepsBackingIff | contracts/lending-pool/src/lib.rs:165-228 | a withdrawal keeps the user's collateral within the user's deposit exactly when it takes no more than what is deposited beyond the collateral |
| LendingCalls.CollateralOutlivesDeposit | contracts/lending-pool/src/lib.rs:110-383 | a run from a new pool: deposit 100, set it as collateral, withdraw it, then borrow 80 of another user's deposit at a computed health of 10000 |
| LendingContract.Pool.Initialize | contracts/lending-pool/src/lib.rs:79-108 | goes through exactly for a collateral factor of at most 8000 and a reserve factor of at most 5000, by anyone at any time; zeroes the totals, leaves every position, and keeps the books exactly when nobody owes anything |
| LendingContract.Pool.ReadOraclePrice | contracts/lending-pool/src/lib.rs:804-821 | accepts exactly the quoted, positive prices with now - max age <= timestamp <= now, and calls exactly the non-positive and future ones invalid |
| LendingContract.Pool.CalculateHealthFactor | contracts/lending-pool/src/lib.rs:855-914 | computes Lending.Health, oracle and overflow errors included |
| LendingContract.Pool.Deposit | contracts/lending-pool/src/lib.rs:110-163 | keeps the books, and mints at most as many shares as tokens exactly when the supply is not negative, the assets are positive, or the rounding stated hides the difference |
| LendingContract.Pool.Withdraw | contracts/lending-pool/src/lib.rs:165-228 | keeps the books, and pays at least one token per share exactly when the supply is positive or the assets equal the supply |
| LendingContract.Pool.Borrow | contracts/lending-pool/src/lib.rs:230-287 | keeps the books; goes through exactly within the supply not yet borrowed and healthy with the new debt (LendingCalls.Passes); undoes the debt when the health check fails |
| LendingContract.Pool.Repay | contracts/lending-pool/src/lib.rs:289-335 | keeps the books; takes no more than the amount and no more than the debt, and one of the two in full |
| LendingContract.Pool.SetCollateral | contracts/lending-pool/src/lib.rs:337-383 | keeps the books; goes through exactly when running, signed, within the deposit and healthy with that collateral (LendingCalls.Passes), which then is the user's collateral; undoes the write when the health check fails |
| LendingContract.Pool.DepositCollateral | contracts/lending-pool/src/lib.rs:678-718 | keeps the books, and lowers the depositor's health at no prices |
| LendingContract.Pool.WithdrawCollateral | contracts/lending-pool/src/lib.rs:722-772 | keeps the books, acting on storage as Lending.WithdrawCollateral and undoing the write when the health check fails |
| LendingContract.Pool.Liquidate | contracts/lending-pool/src/lib.rs:385-475 | keeps the books, leaves debt and collateral non-negative, and lowers the borrower's health at no prices exactly when seizure * debt <= repayment * collateral or nothing is owed any more |
| LendingContract.Pool.AccrueInterest | contracts/lending-pool/src/lib.rs:477-514 | keeps the books; the interest is non-negative, all of it is added to the borrows, and at most half of it to the reserves |
| LendingContract.Pool.UpdateConfig | contracts/lending-pool/src/lib.rs:582-620 | keeps the books for a non-negative rate and reserve factor; a reserve factor that is too high undoes the settings written before it |
| LendingContract.Pool.SetPaused | contracts/lending-pool/src/lib.rs:572-580 | keeps the books; sets the flag exactly for the signed admin; afterwards a paused pool lets no user call and no accrual change anything |
| LendingContract.Pool.SetPriceOracle | contracts/lending-pool/src/lib.rs:647-664 | keeps the books; goes through exactly for the signed admin and a positive age; afterwards prices come only from answers, for the collateral and for a different debt token, that are positive and no older than the age set |
| Planner.PlanOutcome | services/liquidation-bot/src/risk.ts:38-117 | a plan is made exactly for a health below the minimum, a debt, a budget, and collateral that backs a unit of repayment with its bonus; it repays the largest sum within debt, budget and what the collateral backs, expects the largest seizure within that and its bonus, and asks for the largest part of it within the slippage; it fails exactly on the division by zero |
| Planner.PlanIsAccepted | services/liquidation-bot/src/risk.ts:38-117 | a plan to liquidate, made from the views at the same position, is accepted exactly when the pool can compute the health that get_health_factor reports (which reads 0 on an error) and it is below 10000; it then passes the debt, slippage and collateral checks, repays what it says and seizes exactly estimatedCollateralRaw |
| Planner.SilentOraclePlan | services/liquidation-bot/src/client.ts:95-109 | a run from a new pool to an account with health 85000 under an oracle that answers 1: when the oracle is silent the bot reads health 0, plans a liquidation, and the contract answers OracleUnavailable |
| Planner.NegativeSlippageIff | services/liquidation-bot/src/risk.ts:103-106 | with a negative slippage setting the contract accepts the plan exactly when it can compute the health, it is below 10000, and estimate * -slippage < 10000 |
| Planner.LittleIsLeft | services/liquidation-bot/src/risk.ts:79-101 | when the collateral bounds the plan, less than 1 + (10000 + bonus) / 10000 units of it are left |
| Planner.PlanNeverHurts | services/liquidation-bot/src/risk.ts:79-101 | while collateral covers debt plus bonus, carrying out the plan never lowers the borrower's health |
| Escrows.RunKeeps | contracts/escrow/src/lib.rs:98-488 | in every reachable state the vault holds, per asset, exactly the sum of deposited - released, each term non-negative; the counter equals the approved milestones; an escrow completed by release_funds has all milestones approved and has paid the receiver exactly their sum |
| Escrows.PayoutsCovered | contracts/escrow/src/lib.rs:362-481 | no release, signed refund or signed resolution ever aborts: the vault holds enough |
| Escrows.CreateOutcome | contracts/escrow/src/lib.rs:98-160 | exactly when create_escrow succeeds; the new escrow has the next id and exactly the parties, asset, milestones, fee and deadline given, is active, empty and all pending, and no other changes |
| Escrows.FundOutcome | contracts/escrow/src/lib.rs:163-189 | exactly when fund_escrow succeeds, signed by the escrow's funder; deposit and vault grow by exactly the amount |
| Escrows.DisputeOutcome | contracts/escrow/src/lib.rs:418-440 | exactly when dispute succeeds, signed by funder or receiver; it changes the status and nothing else |
| Escrows.SubmitOutcome | contracts/escrow/src/lib.rs:192-226 | exactly when submit_milestone succeeds, signed by the receiver; it marks that milestone, changes nothing else and makes nothing releasable |
| Escrows.JudgeOutcome | contracts/escrow/src/lib.rs:229-311 | exactly when a verdict succeeds, signed by that milestone's approver; approval makes exactly its amount releasable, rejection nothing, and nothing else changes |
| Escrows.ReleaseOutcome | contracts/escrow/src/lib.rs:314-371 | exactly when release_funds succeeds; what is approved and unpaid then leaves the vault for the receiver, the escrow completes exactly when every milestone is approved, and nothing else changes |
| Escrows.RefundOutcome | contracts/escrow/src/lib.rs:374-415 | exactly when refund succeeds, signed by the funder; all that is left then leaves the vault for the funder, and nothing else changes |
| Escrows.ResolveOutcome | contracts/escrow/src/lib.rs:444-488 | exactly when resolve succeeds, signed by the arbitrator; all that is left then leaves the vault for the winner, and nothing else changes |
| Escrows.RunLater | contracts/escrow/src/lib.rs:163-488 | over every run: the parties, the arbitrator, milestones, deadline and fee are fixed, payments only grow, a milestone moves only from pending to submitted to a verdict, and a completed, refunded or emptied-and-disputed escrow never changes |
| Escrows.UnfundedDisputeIsStuck | contracts/escrow/src/lib.rs:98-488 | create_escrow and dispute on a new manager reach a dispute over nothing, and after any further calls no outcome and no signature resolves it |
| EscrowContract.Manager.Initialize | contracts/escrow/src/lib.rs:87-95 | needs the admin's authorisation and deploys a manager whose books are in order |
| EscrowContract.Manager.CreateEscrow | contracts/escrow/src/lib.rs:98-160 | keeps the books, with the loop that fills the statuses, acting on storage as Escrows.Create |
| EscrowContract.Manager.FundEscrow | contracts/escrow/src/lib.rs:163-189 | keeps the books, so the vault grows by exactly the deposit; undoes the write when the transfer fails |
| EscrowContract.Manager.SubmitMilestone | contracts/escrow/src/lib.rs:192-226 | keeps the books; succeeds exactly on a pending milestone of an active escrow, signed by its receiver, and makes nothing releasable |
| EscrowContract.Manager.JudgeMilestone | contracts/escrow/src/lib.rs:229-311 | keeps the books; succeeds exactly on a submitted milestone of an active escrow, signed by its approver; approval makes exactly its amount releasable, rejection nothing |
| EscrowContract.Manager.ReleaseAmount | contracts/escrow/src/lib.rs:326-341 | the loop adds up exactly the approved milestones |
| EscrowContract.Manager.ReleaseFunds | contracts/escrow/src/lib.rs:314-371 | keeps the books, acting on storage as Escrows.Release |
| EscrowContract.Manager.EveryRejected | contracts/escrow/src/lib.rs:391-394 | the scan says whether every milestone was rejected |
| EscrowContract.Manager.Refund | contracts/escrow/src/lib.rs:374-415 | keeps the books, acting on storage as Escrows.Refund |
| EscrowContract.Manager.Dispute | contracts/escrow/src/lib.rs:418-440 | keeps the books; afterwards nothing but resolve can change the escrow |
| EscrowContract.Manager.Resolve | contracts/escrow/src/lib.rs:444-488 | keeps the books; succeeds exactly on a dispute over something, signed by the arbitrator, with one of the two outcomes, and then everything deposited is paid out and the escrow is final |
| EscrowContract.Manager.SetPaused | contracts/escrow/src/lib.rs:492-500 | keeps the books; sets the flag exactly for the signed admin; afterwards a paused manager lets no other call change anything |
| Decimal.RoundTrip | services/event-indexer/src/financial.ts:156-161 | printing an integer gives text that the amount pattern accepts and that reads back as the integer |
| Indexer.ParsedRow | services/event-indexer/src/financial.ts:223-257 | the parser reads back every field the pool contract put into its three events |
| Indexer.LatestPoolState | services/event-indexer/src/financial.ts:416-455 | the loop takes reserves and shares from the newest event that has them, and fee and amplification from the newest that carry them |
| Indexer.NetShares | services/event-indexer/src/financial.ts:477-492 | the loop nets every account's shares and keeps the newest total |
| Indexer.LpPositions | services/event-indexer/src/financial.ts:477-514 | the answer ranks exactly the accounts with positive net shares, largest first, cut off at the limit |
| Indexer.NetOfFeed | services/event-indexer/src/financial.ts:477-492 | folding the stored rows newest first nets exactly the log for account addresses, and nothing for others |
| Indexer.PositionsAreExact | services/event-indexer/src/financial.ts:477-514 | for every pool run whose events fit the query limit, the folded shares are exactly the contract's LP balances of account addresses, and the folded total its total shares when the newest liquidity event is an account's |
| Indexer.PositionsOfPool | services/event-indexer/src/financial.ts:477-514 | parser and fold together: for every pool run whose events fit the query limit, the answer lists exactly the account addresses with positive LP balances and those balances, largest first, up to the cut-off |
| Indexer.LatestIsExact | services/event-indexer/src/financial.ts:416-455 | for every pool run and every query limit of at least 1, the rebuilt state is exactly the contract's reserves, shares and tokens |

## Left out

- StableConverge.Converges: goes one way. Above three times the second reserve compute_d converges on many pools and not on others (StableMath.NeedNotConverge at 584 to 1); which ones depends on the path of the iterates and is not characterised. The bounds of DNewtonBounds, except its last clause, and of StableBound hold for every returned value.
- Stable.SwapKeepsInvariant: says nothing about swaps at fee 0 or that pay nothing, nor when the paying reserve is left below D / (2(4 amp - 1)); the code does not round the output down by one, and how far D may fall there is not decided.
- `u128` range of compute_y beyond its first numerator, and `i128` overflow elsewhere: only the checked multiplications of the health factor and the range of compute_d are modelled.
- Stableswap events and its get_quote view.
- The lending pool's b-token supply as a claim on assets: deposits and supply are updated by different rules, so no conservation law over runs is decided by the code. What one deposit mints and one withdrawal pays is stated.
- Lending pool set_collateral_asset, set_collateral_token and clear_price_oracle have no method of the class; their effect (whether the two tokens coincide, whether an oracle is set) is Lending.Configure.
- Bridge pause, unpause, mint-cap and address settings of the two bridges are functions of the value models only; escrow set_admin is left out.
- Proposal kinds that `propose` refuses are one case, because no stored proposal has them.
- Token contracts: transfers are exact; a contract's own balance is tracked for the farm and the escrow vault only. Parties differ from the contract.
- Indexer: only whole numbers, text and missing values occur in rows; share percentages, pool kind, timestamps, volume and USD views are left out, and so is the order of equal positions.
- Indexer.PositionsAreExact: providers that are contract addresses are dropped by the parser, so the statement is about account addresses.
- Contracts backstop, node-staking, usdc-vault, factories, identity, registries, fee-router, lp-token, wpi-token, strategy-vault, swap-router and oracle.
- Authorisation cryptography, storage lifetimes, polling, Horizon and RPC clients, webhooks, API routes, metrics, the relayer and the SDK.
