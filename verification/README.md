# AnchorPoint Soroban contracts: a Dafny model with proofs

This project models the eight financial contracts under `src/` as state machines and proves what
every run of them keeps.

Each contract appears three times:

- `XModel.dfy` has one pure function per entry point.  It takes the stored state and the call and
  returns either the next state and the answer, or the panic (`Err`) that leaves the state alone.
  `Step` and `Run` turn calls into runs.
- `XContract.dfy` has the contract itself: a class with the stored fields, whose methods check,
  compute, loop and write in the contract's own order.  Every method is proved to make exactly the
  step of the model (`View()` afterwards, and the answer), so the run theorems are about it too.
- The remaining files hold the theorems about the steps and the runs.

| contract | files |
|---|---|
| AMM | `AmmModel`, `AmmContract`, `AmmTheorems`, `AmmFlows`, `AmmEconomics`, `AmmOutcomes` |
| governance | `GovernanceModel`, `GovernanceContract`, `GovernanceTallies`, `GovernanceLedger`, `GovernanceLifecycle`, `GovernanceOutcomes` |
| snapshot staking | `SnapshotModel`, `SnapshotContract`, `SnapshotTheorems`, `SnapshotRewards`, `SnapshotLimits`, `SnapshotOutcomes` |
| oracle medianizer | `OrderStatistics`, `MedianizerModel`, `MedianizerContract`, `MedianizerTheorems`, `MedianizerOutcomes` |
| oracle consumer | `TwapModel`, `TwapTheorems`, `ConsumerModel`, `ConsumerContract`, `ConsumerOutcomes` |
| circuit breaker | `BreakerModel`, `BreakerContract`, `BreakerVolume`, `BreakerPause`, `BreakerOutcomes` |
| staking | `StakingModel`, `StakingContract`, `StakingTheorems`, `StakingLocks`, `StakingSolvency`, `StakingRewards`, `StakingOutcomes` |
| flash loan | `FlashLoanModel`, `FlashLoanContract`, `FlashLoanTheorems`, `FlashLoanOutcomes` |

Shared: `Host` (addresses, `i128`, panics), `Words`, `Arith`, `Sums`, `Roots`.  An `XOutcomes` file says of
every call when exactly it goes through and what it leaves, in products, counts and balances.  `dafny verify dfyconfig.toml`
checks everything.

Conventions.  The ledger clock and sequence number are inputs of a call.  `checked_*` arithmetic is
a range test with its own panic; a bare operator wraps, because the release profile
(`Cargo.toml:34`) turns overflow checks off.  Authorisation is the assumption that the named caller
made the call.  Token transfers are exact and refuse negative amounts, except that an AMM deposit
takes the amounts received as inputs, as the contract measures them.  What the security registry
answers to `is_paused` is part of the staking contracts' state, and may change at any time.

## What the proofs found

Where the code does not do what its comments or its design say, the model follows the code: a
lemma runs the contract into the failure, and another says exactly when the promise does hold.

| promise | kept exactly when | run that breaks it |
|---|---|---|
| a stake keeps the furthest unlock date (staking:280-281) | `LockKeptIff`; always, if ledgers close every 5 s or faster on average: `LockKeptOnPace` | `LockBroughtForward` |
| `TotalStaked` is every user's stake (staking:19) | until the first `emergency_withdraw`: `TotalIsLiveIff` | `TotalOutlivesStakes` |
| the emergency penalty is a tenth (staking:445) | its unchecked product fits: `EmergencyPenaltyIsTenthIff` | `HugePositionEscapesPenalty` |
| an empty pool runs at the maximum multiplier (staking:529) | the maximum is at most 2x, or the minimum; without a target capacity, if it is 1x: `EmptyPoolAtMaximumIff` | `EmptyPoolBelowMaximum`, `NoTargetNoMaximum` |
| the contract holds all staked principal | what was paid beyond principal is at most the funds sent: `PrincipalCoveredIff` | `PrincipalPaidAsRewards` |
| a staker can withdraw the principal | the sums fit and the reward due with it can be met too: `WithdrawableIff` | `UnfundedRewardBlocks` |
| all shares of an epoch are at most 100% (snapshot:222) | no product wraps to minus the total or below: `SharesWithinWholeIff`, `LaterSharesWithinWholeIff` | `ShareWrapsToBillions` |
| balances and totals agree with the history | every stake fits an `i128`, every epoch number a `u32`: `StakeSafeIff`, `AdvanceSafeIff`, `InvThroughoutIff` | `TotalWraps`, `ClosedEpochRewritten` |
| `balance_at` is the latest earlier checkpoint (snapshot:215-217) | it is remembered, or was 0: `AnswerTrueIff` | `ForgottenEpoch` |
| an epoch's record is its frozen total | nobody rewrites it with another: `RecordKeepsIff` | `RecordRewritten` |
| a TWAP averages the price in force | the sum: no observation is counted beside a later one; the answer: the overlap is lost in rounding (`TwapExactIff`) | `DisorderDoubleCounts` |
| a steady price, without overlap, is reported as itself | a full lookback has passed: `SteadyPriceReportedIff` | `SteadyPriceHalved` |
| an erring primary oracle falls back to a usable secondary (oracle_consumer:99) | its reply is sane and only stale: `FallbackWorksIff` | `BadPrimaryBlocks` |
| a median's prices are of as many sources | no source with a feed is listed twice: `CollectedPerSource`, `AnswerRestsOnEnough` | `OneSourceCountsTwice` |
| a median is over registered sources (oracle_medianizer:281) | no listed source with a feed has been removed and not added back: `AuthorisedOnlyIff` | `RemovedSourceStillCounts` |
| a removal keeps the stored count of sources right | it removes a source, or there are none: `CountRightIff` | `CountTooLow` |
| an oracle trip reopens no withdrawals, now or later | the stored tier did not halt them: `OracleTripWeakensIff` | `OracleTripReopens`, `OracleTripReopensLater` |
| a bot's trip reopens nothing | the new tier halts all that the old one did: `TripReopensIff` | `BotLoosensStop` |
| `max_votes` is the limit of `vote` (governance:867-870) | the balance is below `i128::MAX`: `MaxVotesIsTheLimit` | `RichestVoter` |
| `has_passed` means executable | unless a cancelled proposal would pass: `VerdictsAgreeUnlessCancelled` | `CancelledCanStillPass` |
| fresh liquidity returns no more than it cost | the pool is seeded, or the gift too small: `DepositThenWithdraw`, `NoGiftNoProfit` | `FirstDepositorTakesTheGift` |
| the share price does not fall | always over swaps: `TradingNeverLowersPrice`; for one deposit or withdrawal, if the reserves after it support the old price: `DepositKeepsPriceIff`, `WithdrawKeepsPriceIff`; by at most 10 000 parts in 10^7 over any run: `PriceNeverFallsFar` | `DepositCanLowerPrice` |
| recorded reserves are the tokens held (constant_product_fuzz:89) | nobody sends the pool tokens on the side: `ReservesMatchHoldings` | `GiftUnrecorded` |
| a batch asks for every fee once | fees stay, or each token's only fee is its last entry's: `BatchAsksOnceIff` | `DuplicatesDemandMore` |

The default flash-loan fee is 9 basis points, where a comment says 5 (flash_loan:193).
`AmmError::InsufficientShares` (amm:338) is not declared anywhere; it is read as
`ContractError::InsufficientShares` (amm:21).

## Model

| member | source | states |
|---|---|---|
| Roots.BabylonianSqrt | src/amm/lib.rs:526-540 | the AMM's Newton loop ends with the floor square root of every non-negative input, and 1 for a negative one, with no intermediate sum out of range |
| Roots.CreditRoot | src/governance/lib.rs:878-896 | the governance Newton loop gives the same root for every balance below `i128::MAX`, and the one wrong answer there |
| Roots.IsqrtIsGreatest | src/governance/lib.rs:867-870 | v votes fit a budget exactly when v is at most its floor root |
| Roots.NewtonStaysAbove | src/amm/lib.rs:530-533 | a Newton step from any positive guess never lands below the root |
| Words.WordSizes | Cargo.toml:34 | the sizes of the machine words |
| Words.WrapIsCongruent | Cargo.toml:34 | a wrapped `i128` result is off by a multiple of 2^128 |
| Words.QuotDown | src/amm/lib.rs:456 | division rounds a dividend that is not negative down |
| Words.QuotUp | src/staking/lib.rs:569 | and a negative one up |
| Words.MinAndMax | src/amm/lib.rs:159-169 | the lesser and the greater of two |
| Words.PanicsRollBack | src/amm/lib.rs:92-205 | a panicking call leaves everything as it was |
| AmmModel.AmountOutIsLargestFair | src/amm/lib.rs:247-257 | the output is the largest payout that keeps the fee-adjusted product |
| AmmModel.AmountOutKeepsProduct | src/amm/lib.rs:247-257 | a swap never lowers the product of the reserves and never empties one |
| AmmFlows.DepositMintsLargestFair | src/amm/lib.rs:159-169 | a deposit mints the most shares that both received amounts pay for proportionally |
| AmmFlows.WithdrawPaysLargestFair | src/amm/lib.rs:341-342 | a withdrawal pays the most of each token that the shares are worth |
| AmmFlows.ReservesMatchHoldings | src/amm/constant_product_fuzz.rs:89-92 | over any run of calls and gifts, against the ledgers of both tokens, the recorded reserve is what the pool holds exactly when nobody sent it tokens on the side |
| AmmFlows.GiftUnrecorded | src/amm/constant_product_fuzz.rs:89-92 | five tokens that a pool holds and does not record |
| AmmFlows.BalancesAreReservesAndGifts | src/amm/lib.rs:122-149 | over any run the pool's balance of each token is the recorded reserve and the gifts |
| AmmFlows.SharesAreOwn | src/amm/lib.rs:189-197 | over any run a user's shares are exactly what that user's own calls minted and burned |
| AmmTheorems.StepKeeps | src/amm/lib.rs:92-384 | every call keeps the pool invariant and the backing per share |
| AmmTheorems.RunKeeps | src/amm/lib.rs:151-187 | over any run A'B'T^2 >= ABT'^2, and a seeded pool stays seeded |
| AmmTheorems.ReachableInv | src/amm/lib.rs:151-187 | in every reachable pool shares are 1000 plus all holdings, reserves are positive, and shares squared are at most the product |
| AmmTheorems.SeededNeverDividesByZero | src/amm/lib.rs:160-167 | once seeded no deposit, swap or withdrawal divides by zero |
| AmmTheorems.WithdrawSucceeds | src/amm/lib.rs:337-360 | a holder's withdrawal from an unpaused pool fails only if a product leaves `i128` |
| AmmEconomics.DirectSwapIsBest | src/amm/lib.rs:247-285 | no run of swaps, in any directions by anybody, pays more for a net input than one direct swap |
| AmmEconomics.SplittingNeverHelps | src/amm/lib.rs:247-285 | two swaps pay together at most what one swap of the sum pays |
| AmmEconomics.RoundTripNeverProfits | src/amm/constant_product_fuzz.rs:143-162 | swapping out and straight back returns at most what went in |
| AmmEconomics.NoFreeLunch | src/amm/lib.rs:247-285 | no run of swaps leaves both reserves no larger and one strictly smaller |
| AmmEconomics.NoFreeLunchAtEqualShares | src/amm/lib.rs:92-384 | nor does any run of calls that ends with at least as many shares |
| AmmEconomics.DepositThenWithdraw | src/amm/lib.rs:142-169 | withdrawing fresh shares at once returns at most what was received exactly when the pool was seeded or the earlier gift is too small to show |
| AmmEconomics.NoGiftNoProfit | src/amm/lib.rs:142-169 | withdrawing fresh shares at once from a pool that was seeded, or had empty reserves, returns at most what was received |
| AmmEconomics.FirstDepositorTakesTheGift | src/amm/lib.rs:151-158 | a reachable pool whose first depositor takes out 6000 for 2000 |
| AmmEconomics.PriceAtLeastOne | src/amm/lib.rs:423-457 | every share price of a seeded reachable pool is at least 10^7 |
| AmmEconomics.TradingNeverLowersPrice | src/amm/lib.rs:413-420 | no run of swaps lowers the share price |
| AmmEconomics.PriceNeverFallsFar | src/amm/lib.rs:413-457 | over any run, deposits and withdrawals included, the price falls by at most 10 000 parts in 10^7 in total |
| AmmEconomics.DepositKeepsPriceIff | src/amm/lib.rs:159-187 | a deposit keeps the price exactly when the reserves it makes support that price for the shares there will be |
| AmmEconomics.WithdrawKeepsPriceIff | src/amm/lib.rs:341-360 | the same for a withdrawal |
| AmmEconomics.DepositCanLowerPrice | src/amm/lib.rs:449-456 | a run of a deposit, a swap and a deposit that lowers the price |
| AmmOutcomes.FirstDepositOutcome | src/amm/lib.rs:120-197 | a first deposit goes through exactly from a product of 1001 squared, locks 1000 shares, and mints the rest of the largest root |
| AmmOutcomes.LaterDepositOutcome | src/amm/lib.rs:120-197 | a later deposit goes through exactly when both amounts pay for a share and everything fits, and mints the most they pay for |
| AmmOutcomes.SwapOutcome | src/amm/lib.rs:215-288 | a swap goes through exactly when the products fit and the largest fair payout reaches the trader's minimum, and pays that |
| AmmOutcomes.SwapPaysMinimum | src/amm/lib.rs:261-263 | every swap that goes through pays at least the minimum |
| AmmOutcomes.SwapAtTheMargin | src/amm/lib.rs:247-263 | a payout of 996, accepted at a minimum of 996 and refused at 997 |
| AmmOutcomes.SwapRefused | src/amm/lib.rs:215-257 | paused pools, foreign tokens and negative inputs are refused |
| AmmOutcomes.WithdrawOutcome | src/amm/lib.rs:310-361 | a withdrawal goes through exactly for a holder whose products fit, and pays the largest amounts the shares are worth |
| AmmOutcomes.UnseededWithdrawRefused | src/amm/lib.rs:337-341 | nothing is withdrawn from a pool that was never deposited into |
| AmmOutcomes.PauseOutcome | src/amm/lib.rs:72-89 | only the admin pauses, and a paused pool does not move |
| AmmOutcomes.PausedRun | src/amm/lib.rs:72-89 | a run that pauses and resumes |
| AmmOutcomes.SharePriceOutcome | src/amm/lib.rs:423-457 | the price is read exactly of a seeded pool whose products fit, and is the largest the root supports |
| AmmOutcomes.EmptyOutcome | src/amm/lib.rs:46-70 | the state a new pool starts in |
| AmmContract.Amm.Deposit | src/amm/lib.rs:92-205 | makes the deposit step: shares from the received amounts, minimum locked on the first |
| AmmContract.Amm.SharesToMint | src/amm/lib.rs:151-169 | computes the shares, or the panic, of a deposit |
| AmmContract.Amm.Swap | src/amm/lib.rs:215-307 | makes the swap step in either direction, with slippage and overflow panics |
| AmmContract.Amm.Withdraw | src/amm/lib.rs:310-384 | makes the withdrawal step |
| AmmContract.Amm.GetSharePrice | src/amm/lib.rs:423-457 | reads the share price or panics |
| AmmContract.Amm.SetPaused | src/amm/lib.rs:72-89 | admin-only pausing and unpausing |
| GovernanceTallies.ReachableTallies | src/governance/lib.rs:543-595 | in every reachable state a proposal's tallies, cost and voter count are the sums over its stored records, and votes squared are at most voters times cost |
| GovernanceTallies.RecordsSatisfyBound | src/governance/lib.rs:1-8 | Cauchy-Schwarz for any set of quadratically priced records |
| GovernanceTallies.StepKeeps | src/governance/lib.rs:479-602 | every call keeps tallies and records in agreement |
| GovernanceLedger.AccountsBalance | src/governance/lib.rs:248-269 | for every user in every reachable state remaining credits, never negative, plus everything paid equal what was allocated plus the default if opened by a vote |
| GovernanceLedger.CollectedIsPaidIsIssued | src/governance/lib.rs:557-590 | the cost over all proposals is what all users paid, at most the credits issued plus 10 000 per default voter |
| GovernanceLifecycle.QuorumIsLeast | src/governance/lib.rs:943-951 | the quorum is the least number of votes, at least 1, that reaches the percentage |
| GovernanceLifecycle.MeetsQuorumIff | src/governance/lib.rs:953-969 | quorum is met exactly when the snapshot, the current percentage and one vote are all reached |
| GovernanceLifecycle.NewProposal | src/governance/lib.rs:368-433 | a new proposal is open, empty, newly numbered, with the least quorum for the credits issued then |
| GovernanceLifecycle.StepAllowed | src/governance/lib.rs:436-765 | what one call may do to an existing proposal: deadline, creator and quorum fixed, status only forward |
| GovernanceLifecycle.EndedIsFrozen | src/governance/lib.rs:490-494 | once voting has ended or the status left OPEN, no later run moves the tallies or records, and EXECUTED and CANCELLED are final |
| GovernanceLifecycle.VotesStand | src/governance/lib.rs:496-503 | no run removes or rewrites a cast vote |
| GovernanceLifecycle.ExecutedReallyPassed | src/governance/lib.rs:747-757 | every executed proposal of every reachable state has a majority and its snapshot quorum of at least 1 |
| GovernanceLifecycle.PassedIffExecutable | src/governance/lib.rs:640-765 | for closed, or open and overdue, proposals `has_passed` is true exactly when the admin or creator can execute |
| GovernanceLifecycle.VerdictsAgreeUnlessCancelled | src/governance/lib.rs:661-672 | over all proposals that are not executed the two agree exactly unless a cancelled one would pass |
| GovernanceLifecycle.CancelledCanStillPass | src/governance/lib.rs:661-672 | a reachable cancelled proposal that is reported as passed |
| GovernanceLifecycle.ExecutedOnce | src/governance/lib.rs:742-760 | an executed proposal can be neither executed nor judged again |
| GovernanceLifecycle.MaxVotesIsTheLimit | src/governance/lib.rs:506-520 | in every reachable state `vote` refuses a number of votes for its price exactly above `max_votes`, for all numbers, exactly when the balance is below `i128::MAX` |
| GovernanceLifecycle.RichestVoter | src/governance/lib.rs:878-896 | a voter granted `i128::MAX` credits is told a negative maximum, and may vote |
| GovernanceLifecycle.ReachableCreditsInRange | src/governance/lib.rs:248-269 | in every reachable state every balance is an `i128` and not negative |
| GovernanceOutcomes.VoteOutcome | src/governance/lib.rs:479-602 | in every reachable state a vote is accepted exactly when voting is open, the voter is new to it, and the squared votes are within credits and past balance and fit; what it writes |
| GovernanceOutcomes.RecordsWereBacked | src/governance/lib.rs:522-541 | over every run each recorded vote was cast on a past balance that covered its square |
| GovernanceOutcomes.HasPassedOutcome | src/governance/lib.rs:640-673 | when a verdict is given, and that it is majority and quorum |
| GovernanceOutcomes.ExecuteOutcome | src/governance/lib.rs:711-765 | when a proposal can be executed, by whom, and what that writes |
| GovernanceOutcomes.CreateOutcome | src/governance/lib.rs:368-433 | when a proposal can be made and every field of it, with the least quorum |
| GovernanceOutcomes.CancelOutcome | src/governance/lib.rs:436-456 | its creator cancels an open proposal before the deadline |
| GovernanceOutcomes.AllocateOutcome | src/governance/lib.rs:236-276 | the admin allocates; a first allocation starts from 0 |
| GovernanceOutcomes.SetMinQuorumOutcome | src/governance/lib.rs:303-326 | the admin sets a quorum between one basis point and all |
| GovernanceOutcomes.ProposeNewAdminOutcome | src/governance/lib.rs:174-190 | the admin nominates |
| GovernanceOutcomes.ClaimAdminRoleOutcome | src/governance/lib.rs:200-221 | the nominee, and nobody else, takes the role |
| GovernanceOutcomes.AdminsAreNominated | src/governance/lib.rs:163-221 | in every reachable state the admin is the first one or was nominated by an admin |
| GovernanceOutcomes.FreshOutcome | src/governance/lib.rs:130-161 | the state a new contract starts in |
| GovernanceOutcomes.HandoverRun | src/governance/lib.rs:174-326 | a run in which a successor takes over and sets the quorum |
| GovernanceOutcomes.ExecutedRun | src/governance/lib.rs:640-765 | a proposal with one vote that is closed when asked about and executed on demand |
| GovernanceContract.Governance.Vote | src/governance/lib.rs:479-602 | makes the vote step |
| GovernanceContract.Governance.AllocateCredits | src/governance/lib.rs:236-276 | makes the allocation step |
| GovernanceContract.Governance.CreateProposal | src/governance/lib.rs:368-433 | makes the creation step |
| GovernanceContract.Governance.CancelProposal | src/governance/lib.rs:436-456 | makes the cancellation step |
| GovernanceContract.Governance.HasPassed | src/governance/lib.rs:640-673 | makes the closing step and gives the verdict |
| GovernanceContract.Governance.ExecuteProposal | src/governance/lib.rs:711-765 | makes the execution step |
| GovernanceContract.Governance.MaxVotes | src/governance/lib.rs:878-896 | the advertised maximum for the user's balance |
| GovernanceContract.Governance.SetMinQuorumBps | src/governance/lib.rs:303-326 | makes the quorum-setting step |
| GovernanceContract.Governance.ProposeNewAdmin | src/governance/lib.rs:174-190 | nominates an admin |
| GovernanceContract.Governance.ClaimAdminRole | src/governance/lib.rs:200-221 | the nominee takes the role |
| SnapshotTheorems.InvThroughoutIff | src/staking/snapshot.rs:92-195 | a run keeps checkpoints, totals and frozen totals in agreement with the full history all along exactly when every stake and epoch number fits its type |
| SnapshotTheorems.StakeSafeIff | src/staking/snapshot.rs:148-157 | a stake keeps the books right exactly when it fails or the new total is an `i128` |
| SnapshotTheorems.AdvanceSafeIff | src/staking/snapshot.rs:108-111 | closing an epoch keeps them exactly when the epoch counter does not wrap |
| SnapshotRewards.AnswerRefinesHistory | src/staking/snapshot.rs:301-333 | the answer is the true end-of-epoch balance when remembered, and 0 otherwise |
| SnapshotRewards.AnswerTrueIff | src/staking/snapshot.rs:215-220 | the documented answer is given exactly when the balance is remembered or was 0 |
| SnapshotRewards.ForgottenEpoch | src/staking/snapshot.rs:320-324 | a reachable epoch whose balance of 1000 is reported as 0 |
| SnapshotRewards.OpenEpochAddsUp | src/staking/snapshot.rs:148-157 | at the open epoch all users' answers add up to the total staked |
| SnapshotRewards.ClosedEpochNeverExceeded | src/staking/snapshot.rs:92-116 | for a closed epoch they add up to at most its frozen total, at any later time |
| SnapshotRewards.ClosingIsExact | src/staking/snapshot.rs:92-116 | and to exactly that at the moment it closes |
| SnapshotRewards.ClosedAnswersOnlyShrink | src/staking/snapshot.rs:301-333 | over any later run in which the user moves only past the epoch and it is not closed again, an answer about it stays or drops to 0, and the frozen total stays |
| SnapshotRewards.LeftAloneUntilWrap | src/staking/snapshot.rs:108-111 | every run is one of these, for every closed epoch and everybody, until the epoch counter wraps |
| SnapshotRewards.ShareExactIff | src/staking/snapshot.rs:227-234 | the share is the floored percentage exactly when the unchecked product fits |
| SnapshotRewards.SharesWithinWholeIff | src/staking/snapshot.rs:222-234 | all shares of an epoch add up to at most 10 000 bps exactly when no product wraps to minus the total or below |
| SnapshotRewards.LaterSharesWithinWholeIff | src/staking/snapshot.rs:222-234 | the same in every later state until the counter wraps, whatever the sums do in between |
| SnapshotRewards.ShareWrapsToBillions | src/staking/snapshot.rs:227-234 | one stake above that bound is reported as 4 294 957 297 bps |
| SnapshotLimits.TotalWraps | src/staking/snapshot.rs:150-157 | two stakes after which the total is the most negative number |
| SnapshotLimits.ClosedEpochRewritten | src/staking/snapshot.rs:108-111 | after 2^32 epochs a stake rewrites the answer about a closed one |
| SnapshotLimits.UntouchedRecordsMatch | src/staking/snapshot.rs:236-270 | over any run in which nobody else writes them, every closed epoch has a record, and it names the frozen total |
| SnapshotLimits.RecordKeepsIff | src/staking/snapshot.rs:240-270 | rewriting a record keeps that exactly when the epoch is open or the stake is what it was |
| SnapshotLimits.RecordRewritten | src/staking/snapshot.rs:240-270 | an epoch closed empty whose record says 1000 |
| SnapshotOutcomes.StakeOutcome | src/staking/snapshot.rs:121-162 | when a stake is taken, and every answer, total and count after it |
| SnapshotOutcomes.UnstakeOutcome | src/staking/snapshot.rs:165-195 | an unstake is taken of anything up to the whole balance, and every answer after it |
| SnapshotOutcomes.AdvanceOutcome | src/staking/snapshot.rs:92-116 | closing freezes the total of now and moves no balance |
| SnapshotOutcomes.RecordOutcome | src/staking/snapshot.rs:240-270 | a record holds the figures of now |
| SnapshotOutcomes.NoRewardsCounted | src/staking/snapshot.rs:84 | in every reachable state no rewards are counted |
| SnapshotOutcomes.ShareOutcomeInBps | src/staking/snapshot.rs:222-234 | a share of an ordinary epoch is exactly the whole basis points of the total, and 0 without one |
| SnapshotOutcomes.InitialOutcome | src/staking/snapshot.rs:78-86 | a new contract answers 0 to everything |
| SnapshotOutcomes.HaltedRun | src/staking/snapshot.rs:123-128 | nothing is staked while the registry halts it |
| SnapshotContract.SnapshotStaking.AdvanceEpoch | src/staking/snapshot.rs:92-116 | freezes the total, records the epoch and opens the next |
| SnapshotContract.SnapshotStaking.RecordEpochSnapshot | src/staking/snapshot.rs:240-270 | writes the record of any epoch from the current figures |
| SnapshotContract.SnapshotStaking.Stake | src/staking/snapshot.rs:121-162 | makes the stake step |
| SnapshotContract.SnapshotStaking.Unstake | src/staking/snapshot.rs:165-195 | makes the unstake step |
| SnapshotContract.SnapshotStaking.WriteCheckpoint | src/staking/snapshot.rs:285-293 | stores a balance and the user's last epoch |
| SnapshotContract.SnapshotStaking.BalanceAtEpoch | src/staking/snapshot.rs:301-333 | resolves a balance from the sparse checkpoints |
| SnapshotContract.SnapshotStaking.RewardShareBps | src/staking/snapshot.rs:227-234 | the share as computed, wrapping and cast included |
| OrderStatistics.BubbleSort | src/oracle_medianizer/lib.rs:478-493 | the in-place nested loops leave exactly the ascending arrangement of the input |
| OrderStatistics.SortedUnique | src/oracle_medianizer/lib.rs:470-477 | there is only one ascending permutation |
| OrderStatistics.TrimmingChangesNothing | src/oracle_medianizer/lib.rs:323-335 | dropping minimum and maximum of five or more never changes the median |
| OrderStatistics.MedianMonotone | src/oracle_medianizer/lib.rs:337-347 | raising values never lowers the median |
| OrderStatistics.HonestMajorityBounds | src/oracle_medianizer/lib.rs:279-283 | if more than half of the values lie in a range, so does the median |
| MedianizerTheorems.SourceOrderIrrelevant | src/oracle_medianizer/lib.rs:304-321 | reordering the source list changes neither answer, panic nor storage |
| MedianizerTheorems.AnswerMonotone | src/oracle_medianizer/lib.rs:295-370 | raising submitted prices never lowers the answer |
| MedianizerTheorems.AnswerBounded | src/oracle_medianizer/lib.rs:295-370 | an honest majority of collected prices bounds the answer |
| MedianizerTheorems.ReachableInv | src/oracle_medianizer/lib.rs:244-268 | in every reachable state every feed and every stored median is positive |
| MedianizerTheorems.KeptPriceIsCloseEnough | src/oracle_medianizer/lib.rs:414-468 | after a calculation the kept price is the answer stamped now, or recent and close enough for both triggers |
| MedianizerTheorems.CollectedPerSource | src/oracle_medianizer/lib.rs:304-313 | there is a collected price for every listed source with a feed, and no more exactly when none of those is listed twice |
| MedianizerTheorems.AnswerRestsOnEnough | src/oracle_medianizer/lib.rs:302-318 | an answer rests on at least `min_sources` prices, and on that many different sources when each is listed once |
| MedianizerTheorems.OneSourceCountsTwice | src/oracle_medianizer/lib.rs:302-318 | one source listed twice satisfies a minimum of two |
| MedianizerTheorems.AuthorisedOnlyIff | src/oracle_medianizer/lib.rs:281-313 | in every reachable state the prices of a list come from authorised sources only exactly when none with a feed has been removed and not added back |
| MedianizerTheorems.RemovedSourceStillCounts | src/oracle_medianizer/lib.rs:159-164 | a source that was removed and still answers alone |
| MedianizerTheorems.CountNeverTooHigh | src/oracle_medianizer/lib.rs:115-124 | over any run the stored count is at most the number of sources, and equal while none is removed |
| MedianizerTheorems.CountRightIff | src/oracle_medianizer/lib.rs:159-169 | a removal leaves the count right exactly when there was such a source, or none |
| MedianizerTheorems.CountTooLow | src/oracle_medianizer/lib.rs:159-169 | one source, and a count of none |
| MedianizerOutcomes.AnswerIsMiddle | src/oracle_medianizer/lib.rs:320-347 | the answer is the middle price by counting, or half the sum of the two middle ones, rounded down |
| MedianizerOutcomes.CollectedByPlace | src/oracle_medianizer/lib.rs:304-313 | every feed is collected once for each listing, and nothing else |
| MedianizerOutcomes.TwoMakeTheirAverage | src/oracle_medianizer/lib.rs:337-343 | 10 and 20 make 15 |
| MedianizerOutcomes.CalculateOutcome | src/oracle_medianizer/lib.rs:295-370 | when a calculation answers, and that it stores its answer exactly when due |
| MedianizerOutcomes.DueIff | src/oracle_medianizer/lib.rs:414-468 | a price is due exactly when there is none, the heartbeat is over, or it has moved by the threshold |
| MedianizerOutcomes.SubmitOutcome | src/oracle_medianizer/lib.rs:244-277 | an authorised source submits a positive price |
| MedianizerOutcomes.AddSourceOutcome | src/oracle_medianizer/lib.rs:89-133 | the admin authorises a new source |
| MedianizerOutcomes.RemoveSourceOutcome | src/oracle_medianizer/lib.rs:141-176 | the admin withdraws a source |
| MedianizerOutcomes.SettingOutcome | src/oracle_medianizer/lib.rs:186-232 | the admin sets heartbeat and threshold |
| MedianizerOutcomes.CountWithinIsCardinality | src/oracle_medianizer/lib.rs:279-283 | the honest majority counts places of the list |
| MedianizerOutcomes.InitialOutcome | src/oracle_medianizer/lib.rs:60-81 | the state a new contract starts in |
| MedianizerOutcomes.StoredRun | src/oracle_medianizer/lib.rs:295-370 | a submitted price that is calculated and stored |
| MedianizerOutcomes.SettingsRun | src/oracle_medianizer/lib.rs:186-232 | settings stored by a run |
| MedianizerContract.OracleMedianizer.CalculateMedian | src/oracle_medianizer/lib.rs:295-370 | collect, sort, trim and average yield the plain median of all collected prices, stored if due |
| MedianizerContract.OracleMedianizer.MedianOfSorted | src/oracle_medianizer/lib.rs:323-347 | the trimming and averaging loops compute the untrimmed median |
| MedianizerContract.OracleMedianizer.CollectPrices | src/oracle_medianizer/lib.rs:304-313 | the prices found for the listed sources, in order |
| MedianizerContract.OracleMedianizer.SortPrices | src/oracle_medianizer/lib.rs:478-493 | a sorted copy |
| MedianizerContract.OracleMedianizer.ShouldUpdatePrice | src/oracle_medianizer/lib.rs:414-468 | whether the stored price is due |
| MedianizerContract.OracleMedianizer.SubmitPrice | src/oracle_medianizer/lib.rs:244-277 | makes the submission step |
| MedianizerContract.OracleMedianizer.AddSource | src/oracle_medianizer/lib.rs:89-133 | authorises a source |
| MedianizerContract.OracleMedianizer.RemoveSource | src/oracle_medianizer/lib.rs:141-176 | withdraws a source |
| MedianizerContract.OracleMedianizer.SetHeartbeat | src/oracle_medianizer/lib.rs:186-204 | sets the heartbeat |
| MedianizerContract.OracleMedianizer.SetDeviationThreshold | src/oracle_medianizer/lib.rs:214-232 | sets the threshold |
| TwapTheorems.LoopIsPriceSumPlusOverlap | src/oracle_consumer/lib.rs:212-248 | for every history the clipped-interval loop adds the price in force at each second of the window, and the overlap |
| TwapTheorems.LoopIsPriceSumIff | src/oracle_consumer/lib.rs:212-248 | the loop never adds less than the prices in force, and exactly that if and only if no observation is counted beside a later one |
| TwapTheorems.CapChangesNoPrice | src/oracle_consumer/lib.rs:382-396 | a capped history that covers the window has the full log's prices for all of it |
| ConsumerModel.TwapIsSecondwiseAverage | src/oracle_consumer/lib.rs:197-256 | after any run, whatever the time stamps, every answered TWAP is the floored per-second sum over the full uncapped log plus the overlap, over the lookback, and never below the average |
| ConsumerModel.TwapExactIff | src/oracle_consumer/lib.rs:212-255 | the sum divided is the sum of the prices in force exactly when no observation is counted beside a later one, as with time stamps in order; the answer is the average exactly when the overlap is lost in rounding |
| ConsumerModel.TwapBetween | src/oracle_consumer/lib.rs:194-196 | on a full window the answer is at least the least price in force, and without overlap at most the greatest |
| ConsumerModel.SteadyPriceReportedIff | src/oracle_consumer/lib.rs:209-255 | a steady price is reported as itself exactly once a full lookback has passed |
| ConsumerModel.SteadyPriceHalved | src/oracle_consumer/lib.rs:209-255 | a steady price of 10 reported as 5 |
| ConsumerModel.DisorderDoubleCounts | src/oracle_consumer/lib.rs:215-248 | three updates stamped out of order after which prices of 10 average to 20 |
| ConsumerModel.UpdateSucceedsIff | src/oracle_consumer/lib.rs:105-178 | exactly when an update succeeds, and with which oracle's price |
| ConsumerModel.FallbackWorksIff | src/oracle_consumer/lib.rs:98-101 | a usable secondary replaces an unusable primary exactly when the primary's reply is sane and only stale |
| ConsumerModel.BadPrimaryBlocks | src/oracle_consumer/lib.rs:157-178 | a primary that answers 0 or fails blocks an update that the secondary could serve |
| ConsumerModel.ReachableInv | src/oracle_consumer/lib.rs:139-142 | the stored history is always the capped log and the record its last entry |
| ConsumerOutcomes.TwapOutcome | src/oracle_consumer/lib.rs:197-256 | in every reachable state, exactly when a TWAP is answered and which whole number it is, from the log |
| ConsumerOutcomes.StoredOutcome | src/oracle_consumer/lib.rs:139-142 | in every reachable state the record is the last accepted price and the history the last 24 |
| ConsumerOutcomes.UpdateOutcome | src/oracle_consumer/lib.rs:105-151 | an update adds its answer to its own asset and touches no other |
| ConsumerOutcomes.SetStalenessOutcome | src/oracle_consumer/lib.rs:332-341 | a staleness limit must be positive |
| ConsumerOutcomes.InitialOutcome | src/oracle_consumer/lib.rs:70-93 | the state a new contract starts in |
| ConsumerContract.OracleConsumer.GetTwapPrice | src/oracle_consumer/lib.rs:197-256 | the loop computes the TWAP or the panic |
| ConsumerContract.WeighWindow | src/oracle_consumer/lib.rs:212-253 | the loop's weighted sum, overflow panic and coverage test |
| ConsumerContract.OracleConsumer.StoreObservation | src/oracle_consumer/lib.rs:382-396 | push, then pop from the front down to the cap |
| ConsumerContract.OracleConsumer.SetMaxStaleness | src/oracle_consumer/lib.rs:332-341 | sets the staleness limit |
| ConsumerContract.OracleConsumer.UpdatePrice | src/oracle_consumer/lib.rs:105-151 | makes the update step, and extends the log by the accepted price |
| BreakerVolume.WindowVolumeIsTrue | src/circuit_breaker/lib.rs:755-772 | from the last call on, the window volume is the sum of everything recorded in the last hour, despite pruning, and panics exactly when that does not fit |
| BreakerVolume.PruningLosesNothing | src/circuit_breaker/lib.rs:364-374 | what an earlier pruning drops no later window contains |
| BreakerVolume.HighVolumePausesAll | src/circuit_breaker/lib.rs:392-404 | after a record, a true trailing volume above the threshold means the stored tier is All |
| BreakerVolume.CooldownIsLatestSpike | src/circuit_breaker/lib.rs:819-860 | the stored cooldown end is 7200 s after the latest spike since the last `unpause`, or 0 |
| BreakerPause.FlagMatchesTier | src/circuit_breaker/lib.rs:644-683 | in every reachable state at every time `is_paused` holds exactly when the tier is not None |
| BreakerPause.PendingHasOrigin | src/circuit_breaker/lib.rs:472-489 | a pending unpause always comes from an initiation that nothing since replaced, used or cancelled |
| BreakerPause.PauseEndsProperly | src/circuit_breaker/lib.rs:502-579 | a pause ends only by the admin's `unpause`, or by executing an uncancelled unpause after the timelock configured when it was initiated |
| BreakerPause.PriceCheckTripsIff | src/circuit_breaker/lib.rs:285-336 | a price check trips exactly when the price moved by more than the limit, and always remembers it |
| BreakerPause.OracleTripWeakensIff | src/circuit_breaker/lib.rs:318-319 | an oracle trip lets withdrawals through, now or when a cooldown ends, exactly when the stored tier halted them; swaps never |
| BreakerPause.OracleTripReopens | src/circuit_breaker/lib.rs:318-319 | a run in which an oracle trip lifts a full stop to SwapOnly |
| BreakerPause.OracleTripReopensLater | src/circuit_breaker/lib.rs:863-881 | a run in which an oracle trip during a cooldown lifts a full stop when the cooldown ends |
| BreakerPause.OracleTripWeakensNowIff | src/circuit_breaker/lib.rs:655-668 | at that very moment it does so exactly when, besides, no cooldown is running |
| BreakerPause.TripReopensIff | src/circuit_breaker/lib.rs:233-246 | a trip by admin or bot reopens an action, now or later, exactly when the old tier halted it and the new one does not |
| BreakerPause.BotLoosensStop | src/circuit_breaker/lib.rs:233-246 | a bot lowers the admin's full stop to SwapOnly |
| BreakerOutcomes.UnpauseResumes | src/circuit_breaker/lib.rs:548-579 | in every reachable state `unpause` is for the admin when anything is paused, and nothing is then, at any time, until something trips or spikes |
| BreakerOutcomes.UnpauseOutcome | src/circuit_breaker/lib.rs:548-579 | what `unpause` writes |
| BreakerOutcomes.ExecuteOutcome | src/circuit_breaker/lib.rs:502-533 | in every reachable state a due unpause can be executed, by anybody, once, and sets the pending tier |
| BreakerOutcomes.ExecutionDeliversTarget | src/circuit_breaker/lib.rs:502-533 | the tier it sets is the target of its initiation, whose timelock is over |
| BreakerOutcomes.ExecutedTierStays | src/circuit_breaker/lib.rs:502-533 | and is in force at every time, but for a cooldown already running, until something trips, spikes, lifts or executes |
| BreakerOutcomes.InitiateOutcome | src/circuit_breaker/lib.rs:460-496 | the admin schedules a target for after the timelock |
| BreakerOutcomes.CancelOutcome | src/circuit_breaker/lib.rs:584-601 | the admin cancels, and nothing can be executed then |
| BreakerOutcomes.TripOutcome | src/circuit_breaker/lib.rs:233-246 | admin or bot trips to a real pause |
| BreakerOutcomes.CheckPriceOutcome | src/circuit_breaker/lib.rs:285-336 | when a price check goes through, and that it remembers the price and trips on a move |
| BreakerOutcomes.RecordOutcome | src/circuit_breaker/lib.rs:347-407 | when a record goes through, and the pause, cooldown and count it leaves for the volume of the last 3600 seconds |
| BreakerOutcomes.RecordAddsItself | src/circuit_breaker/lib.rs:364-385 | a record adds its amount to the volume of every later moment within 3600 seconds and drops nothing |
| BreakerOutcomes.WindowVolumeIsLastHour | src/circuit_breaker/lib.rs:755-772 | from the last call on the window volume is everything ever recorded less than 3600 seconds ago |
| BreakerOutcomes.ReachableInRange | src/circuit_breaker/lib.rs:409-452 | in every reachable state the settings are in range |
| BreakerOutcomes.ConfigureOutcome | src/circuit_breaker/lib.rs:178-226 | every setter, its range and its effect |
| BreakerOutcomes.InitialOutcome | src/circuit_breaker/lib.rs:110-170 | the state a new breaker starts in |
| BreakerContract.CircuitBreaker.RecordVolume | src/circuit_breaker/lib.rs:347-407 | makes the record step |
| BreakerContract.CircuitBreaker.Prune | src/circuit_breaker/lib.rs:364-374 | the pruning loop keeps the recent entries and adds them up |
| BreakerContract.CircuitBreaker.StoreVolume | src/circuit_breaker/lib.rs:383-406 | stores the window, trips and looks for a spike, or rolls all of it back |
| BreakerContract.CircuitBreaker.GetWindowVolume | src/circuit_breaker/lib.rs:755-772 | the summing loop over the recent entries |
| BreakerContract.CircuitBreaker.CheckVolumeSpike | src/circuit_breaker/lib.rs:819-860 | starts or extends the cooldown |
| BreakerContract.CircuitBreaker.ApplyTrip | src/circuit_breaker/lib.rs:863-881 | sets tier, flag and trip count |
| BreakerContract.CircuitBreaker.Trip | src/circuit_breaker/lib.rs:233-246 | a trip by admin or bot |
| BreakerContract.CircuitBreaker.CheckPrice | src/circuit_breaker/lib.rs:285-336 | makes the price-check step |
| BreakerContract.CircuitBreaker.InitiateUnpause | src/circuit_breaker/lib.rs:460-496 | schedules an unpause |
| BreakerContract.CircuitBreaker.ExecuteUnpause | src/circuit_breaker/lib.rs:502-533 | executes a due one |
| BreakerContract.CircuitBreaker.Unpause | src/circuit_breaker/lib.rs:548-579 | the admin's immediate unpause |
| BreakerContract.CircuitBreaker.CancelUnpause | src/circuit_breaker/lib.rs:584-601 | cancels a scheduled one |
| BreakerContract.CircuitBreaker.Configure | src/circuit_breaker/lib.rs:411-452 | the admin-only setters and bot list |
| BreakerContract.CircuitBreaker.GetPauseTier | src/circuit_breaker/lib.rs:644-652 | the effective tier |
| BreakerContract.CircuitBreaker.IsPausedNow | src/circuit_breaker/lib.rs:677-683 | the paused flag |
| StakingTheorems.PrincipalAccounted | src/staking/lib.rs:292-297 | in every reachable state the total staked is the live stakes plus the principal that left in emergencies |
| StakingTheorems.WithdrawNeverUnderflows | src/staking/lib.rs:362-367 | no withdrawal takes the total below that emergency principal, hence never below 0 |
| StakingTheorems.TotalIsLiveIff | src/staking/lib.rs:434-464 | the total is what users have staked exactly while nothing has left in an emergency |
| StakingTheorems.TotalOutlivesStakes | src/staking/lib.rs:434-464 | no stake is left, and the total says 1000 |
| StakingTheorems.WithdrawSplitsPrincipal | src/staking/lib.rs:344-357 | returned amount and penalty split the principal, with no penalty once unlocked |
| StakingTheorems.EmergencyPenaltyIsTenthIff | src/staking/lib.rs:445-447 | the emergency penalty is a tenth exactly when the unchecked product fits |
| StakingTheorems.HugePositionEscapesPenalty | src/staking/lib.rs:445-447 | a reachable position that leaves without any penalty |
| StakingLocks.LockKeptIff | src/staking/lib.rs:280-290 | a stake unlocks a position no earlier than before exactly when the end date does not move or the unlock ledger does not fall behind |
| StakingLocks.LockKeptOnPace | src/staking/lib.rs:497-499 | in every run with at most five seconds to a ledger on average no stake unlocks a position earlier than before |
| StakingLocks.LockBroughtForward | src/staking/lib.rs:280-290 | at six seconds to a ledger a second stake moves the unlock from ledger 6 307 200 to 5 342 400 |
| StakingSolvency.VaultAccounted | src/staking/lib.rs:242-472 | in every reachable state the contract holds the live principal, plus what it was funded with, less what it paid beyond principal |
| StakingSolvency.PrincipalCoveredIff | src/staking/lib.rs:363-389 | all live principal together is covered exactly while no more was paid beyond it than funded |
| StakingSolvency.ExcessIsRewards | src/staking/lib.rs:344-357 | under a penalty rate that is not negative a withdrawal pays nothing beyond principal but rewards |
| StakingSolvency.WithdrawableIff | src/staking/lib.rs:332-381 | in every reachable state, for everybody, a withdrawal succeeds exactly when its sums can be worked out and the reward due can be met from unspent funds or other stakers' principal |
| StakingSolvency.UnfundedRewardBlocks | src/staking/lib.rs:359-372 | all principal covered, a position unlocked, and a withdrawal refused |
| StakingSolvency.PrincipalPaidAsRewards | src/staking/lib.rs:408-424 | a claim that takes the other staker's principal, who then cannot withdraw |
| StakingRewards.EmissionFallsAsPoolFills | src/staking/lib.rs:527-546 | the multiplier stays within its limits and never rises with the pool |
| StakingRewards.EmissionAtTarget | src/staking/lib.rs:530-531 | at the target it is 1x, within the limits |
| StakingRewards.EmptyPoolAtMaximumIff | src/staking/lib.rs:529 | under every accepted setting, an empty pool is at the maximum exactly when the maximum is at most 2x, or is also the minimum, or, without a target, is 1x |
| StakingRewards.EmptyPoolBelowMaximum | src/staking/lib.rs:529 | an accepted maximum of 3x under which an empty pool runs at 2x |
| StakingRewards.NoTargetNoMaximum | src/staking/lib.rs:533-536 | the default limits without a target, under which an empty pool runs at 1x |
| StakingRewards.AccrualIsSlope | src/staking/lib.rs:548-570 | accrual is a fixed slope times the elapsed seconds, truncated once |
| StakingRewards.PendingFallsAsPoolFills | src/staking/lib.rs:511-570 | a fixed position's pending reward never rises as the total rises |
| StakingRewards.ClaimingOftenCostsLittle | src/staking/lib.rs:391-432 | n successful claims pay at most what one at the end pays, and at most n-1 units less |
| StakingRewards.ClaimantIsSettled | src/staking/lib.rs:408-418 | in every time-ordered reachable state anyone who can claim has a settled position |
| StakingRewards.StakeKeepsPending | src/staking/lib.rs:273-279 | adding to a position settles it first: what was pending still is, to the unit |
| StakingRewards.ClaimTakesPending | src/staking/lib.rs:408-424 | a claim pays exactly what was pending and leaves nothing |
| StakingRewards.LockCoversSeconds | src/staking/lib.rs:573-576 | the lock in ledgers is the shortest that covers the tier's seconds |
| StakingOutcomes.WithdrawPays | src/staking/lib.rs:332-357 | every withdrawal that goes through charges exactly the configured part in 10 000 of a locked principal, for either sign, and pays exactly what was pending |
| StakingOutcomes.WithdrawOutcome | src/staking/lib.rs:316-389 | exactly when a withdrawal goes through, and what it pays and leaves |
| StakingOutcomes.EarlyExitCostsATenth | src/staking/lib.rs:344-353 | 900 of 1000 come back under a rate of a tenth |
| StakingOutcomes.EmissionOutcome | src/staking/lib.rs:527-546 | the multiplier at every total: the curve to the basis point, within its limits |
| StakingOutcomes.AccrualOutcome | src/staking/lib.rs:548-570 | exactly what accrues, and when |
| StakingOutcomes.PendingOutcome | src/staking/lib.rs:503-525 | pending is settled and accrued together |
| StakingOutcomes.TenSecondsOfRewards | src/staking/lib.rs:548-570 | 30 000 in ten seconds on 1000 at 2x and 1.5x |
| StakingOutcomes.UnlockedIff | src/staking/lib.rs:497-499 | from which ledger a position is unlocked |
| StakingOutcomes.StakeOutcome | src/staking/lib.rs:242-314 | exactly when a stake is taken, and the whole position after it |
| StakingOutcomes.ClaimOutcome | src/staking/lib.rs:391-432 | exactly when a claim is paid, and what it leaves |
| StakingOutcomes.EmergencyOutcome | src/staking/lib.rs:434-472 | exactly when an emergency withdrawal goes through, and what it keeps |
| StakingOutcomes.ConfigureOutcome | src/staking/lib.rs:147-240 | every setter, its range and its effect |
| StakingOutcomes.InitialOutcome | src/staking/lib.rs:96-144 | the state a new contract starts in |
| StakingOutcomes.HaltedRun | src/staking/lib.rs:242-257 | nothing is staked while the registry halts it |
| StakingContract.Staking.Stake | src/staking/lib.rs:242-314 | makes the stake step |
| StakingContract.Staking.Withdraw | src/staking/lib.rs:316-389 | makes the withdrawal step |
| StakingContract.Staking.ClaimRewards | src/staking/lib.rs:391-432 | makes the claim step |
| StakingContract.Staking.EmergencyWithdraw | src/staking/lib.rs:434-472 | makes the emergency step |
| StakingContract.Staking.Configure | src/staking/lib.rs:147-240 | the admin-only setters |
| FlashLoanTheorems.RequiredIsStartPlusFees | src/flash_loan/lib.rs:309-331 | the repayment map asks of each token its starting balance plus the fees of all its entries, duplicates included |
| FlashLoanTheorems.CollectIff | src/flash_loan/lib.rs:429-444 | the closing loop succeeds exactly when enough of every borrowed token came back |
| FlashLoanTheorems.MultiRepaid | src/flash_loan/lib.rs:295-362 | when it returns, every borrowed token is at its start plus all its floored fees, whatever the callback did |
| FlashLoanTheorems.MultiSucceedsIff | src/flash_loan/lib.rs:345-357 | and it returns exactly when that much came back |
| FlashLoanTheorems.BatchRepaid | src/flash_loan/lib.rs:381-452 | a returning batch leaves every token at its start or more, plus all fees kept, with the fees and no more gone to a separate pool |
| FlashLoanTheorems.BatchSucceedsIff | src/flash_loan/lib.rs:429-444 | exactly how much a batch demands, duplicates and reward pool included |
| FlashLoanTheorems.BatchAsksOnceIff | src/flash_loan/lib.rs:429-444 | whatever the callback does, it asks for every fee once only exactly when fees stay or no token has a fee beside its last entry's |
| FlashLoanTheorems.DuplicatesDemandMore | src/flash_loan/lib.rs:429-444 | two loans of one token whose full repayment is not enough |
| FlashLoanTheorems.SingleRepaid | src/flash_loan/lib.rs:238-279 | a single loan never costs the vault, and earns the floored fee |
| FlashLoanTheorems.SplittingSavesLittle | src/flash_loan/lib.rs:8-14 | n entries for one token cost at most n-1 units less than one |
| FlashLoanOutcomes.PrepareIff | src/flash_loan/lib.rs:309-339 | loans can be made exactly when no amount is negative, every fee and repayment fits, and the vault holds what is asked of each token |
| FlashLoanOutcomes.BatchOutcome | src/flash_loan/lib.rs:381-452 | exactly when a batch returns, guards included, and what it leaves of each token |
| FlashLoanOutcomes.MultiOutcome | src/flash_loan/lib.rs:295-362 | exactly when a loan of several tokens returns, and that it leaves the vault as the callback did |
| FlashLoanOutcomes.SingleOutcome | src/flash_loan/lib.rs:238-279 | the single loan is a batch of one and answers its floored fee |
| FlashLoanOutcomes.DefaultFee | src/flash_loan/lib.rs:193 | 10 000 at the default fee cost 9 |
| FlashLoanContract.FlashLoanProvider.FlashLoan | src/flash_loan/lib.rs:238-279 | makes the single-loan step around any callback |
| FlashLoanContract.FlashLoanProvider.FlashLoanMulti | src/flash_loan/lib.rs:295-362 | makes the multi-loan step |
| FlashLoanContract.FlashLoanProvider.FlashLoanBatch | src/flash_loan/lib.rs:381-452 | makes the batch step |
| FlashLoanContract.FlashLoanProvider.LendAndCollect | src/flash_loan/lib.rs:389-447 | plan, lend, call back, check and release the lock, or roll all of it back |
| FlashLoanContract.FlashLoanProvider.Plan | src/flash_loan/lib.rs:309-331 | the loop that works out fees and required repayments |
| FlashLoanContract.FlashLoanProvider.PayOut | src/flash_loan/lib.rs:333-339 | the lending loop |
| FlashLoanContract.FlashLoanProvider.CheckRepaid | src/flash_loan/lib.rs:429-444 | the checking and fee-paying loop |

## Left out

- Authorisation signatures, events, storage TTL, contract upgrades and security-registry calls; what
  the registry answers is an input of the flash-loan calls and part of the staking contracts' state.
- Token contracts beyond balances and exact transfers; a fee-on-transfer token appears only through
  the received amounts of an AMM deposit.  The AMM assumes its two tokens differ.
- The AMM's and the flash loan's reentrancy protection against nested calls: steps are atomic, and a
  flash-loan callback is an arbitrary change of the lender.
- `initialize` being callable once, and reads before it: every run starts from an initialised contract.
- Proposal titles and descriptions, and the duplicate storage of a vote's cost.
- Snapshot staking: `participant_count` is said to grow by every stake from an empty balance
  (`SnapshotOutcomes.StakeOutcome`), which is not the number of different stakers.
- SnapshotRewards.ClosedAnswersOnlyShrink: says nothing of a user who moves again at or below the
  epoch, as is possible after the counter has wrapped; `ClosedEpochRewritten` shows what happens then.
- SnapshotRewards.SharesWithinWholeIff: says nothing of epochs closed after the books went wrong, which
  `InvThroughoutIff` tells exactly.
- Oracle consumer: the ledger-sequence TWAP (`record_price`, `get_twap`) and the setters other
  than `set_max_staleness`.
- Circuit breaker: the order of the bot list; bots are a set.
- Staking: `emission_apr_bps`, a display value, and a penalty recipient that is the contract itself.
- Flash loan: the fee, reward-pool and pause setters; their values are arbitrary in every theorem.
- The remaining contracts under `src/`, the backend, the dashboard and the tools.
