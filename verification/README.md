# Royalty splitting: contract, schedules and backend components

This project models and verifies the parts of a royalty-splitting system whose behaviour spans many
calls: the on-chain contract (`src/lib.rs`), the schedule calculator, and five small stateful backend
components, plus the benchmark gate.

**The contract.** `ContractState` gives the stored state (collaborator list and share map, default
recipients, pauses, admins and pending rotation, treasury with a token ledger, proposals, disputes) and,
for each public method, a function from state and environment to a new state or an error. An error rolls
the whole call back (`Apply`). `RoyaltySplitter.Contract` is the same contract in the form it is written
in: a class whose methods read and overwrite fields, loop over lists and return early. Every method is
proved equal to its function, including which error is reported first, and `Invoke` proves it for a whole
call with rollback. All statements about runs are then about those functions: a run starts from a freshly
deployed contract next to any ledger, ledger time never goes back, and each step has its own set of
signers, its own set of receivers whose transfers fail, and any call with any arguments, or a token
transfer made outside the contract.

- The five textual copies of the payout loop are one method, `Split.ComputePayouts`. It refines one split
  function; non-last payouts are floors, the last takes the rest, the sum is exact, and the only arithmetic
  failure is a product of the amount with a non-last share that leaves `u128`.
- The stored registry is valid in every reachable initialized state, so `update_share` succeeds only when
  it changes nothing. The code keeps the sum check that makes this so.
- Incentive shares always sum to 10,000 with a positive last share, and neither bonus cap can bind. The
  adjusted list is refused by the distribution-time validator exactly when some bonus is positive and some
  recipient before the last has share 1 and bonus 0.
- Cumulative receipts are bounded over whole runs that mix all five kinds of distribution. The bounds are
  stated in ten-thousandths, 9,999 for each distribution, so they are meaningful for zero distributions
  too. A resilient distribution counts when every transfer succeeded; one with failures did not pay its
  list in full.
- Both routes to a first admin are steps: `initialize`, and `reveal_initialize` with the verdict on its
  commitment as an argument.
- The functions of `ContractState` are not taken on trust: `CallRules`, `PayLists` and `PaymentRules` say,
  in terms of the stored fields, who must sign each call, exactly when it succeeds, which list it pays and what it
  leaves stored; `RegistryRuns` says what the incentives are computed from.
- A `batch_distribute` stopped by the anomaly check at index k has paid exactly the tokens before k. A
  later entry of the list may repeat an earlier token, so "untouched" is said of the tokens not before k.
- Statements about balances assume that the paid recipients do not include the contract itself.

**Calendar and schedules.** `Calendar` is the day, month and year arithmetic of section 21.4.1 of ECMA-262
for the proleptic Gregorian calendar, with its round trips. `Schedule` has the mutable date object and the
next-run methods. Results are the first slot strictly after `now`; an invalid date, or a result past the
representable range, gives no value where the program throws. `nextInterval` skips a slot later on the same
day; `IntervalIsFirstIff` gives exactly when that matters. Its second-cycle branch is never taken. Iterating
any of the rules from its own answers visits exactly the occurrences to come, in order and each once.

**Replay guard.** The nonce cache keeps acceptances by time and by capacity. One verification reads the
clock five times; the guarantee needs the time from the window check to the nonce lookup to stay below the
difference of the nonce lifetime and the signature age. `ReplayGuardIff` shows that this limit is exact.

**Build lock, connection pool, cache.** Each is a class whose methods are proved equal to the steps of a
state machine, and the properties hold in every interleaving of those steps. Three places do not do what
their shape suggests, and the model keeps what they do: the lock's map entry is never deleted, because the
stored tail is a derived promise; a timed-out waiter stays in the pool's queue, because the search compares
with a function the queue never holds, so a connection can be handed to a promise that has timed out and is
lost; and a fetch function that throws instead of returning a promise leaves its key in flight for good.

**Keyset paging.** The query is a stable filter and sort of a table with distinct ids; pages follow the
cursor over a table at rest or over a different table for each page.

**Benchmark gate.** Percentiles and comparisons over real numbers, with NaN and undefined as `None`.

Modules follow the source files: `Types`, `Split`, `Ledger`, `Recipients`, `Incentives`, `AdminControl`,
`Governance`, `ContractState`, `ContractInvariant`, `PayoutEffects`, `PayLists`, `CallRules`,
`PaymentRules`, `MoneyRuns`, `GovernanceRuns`, `RotationRuns`, `RegistryRuns`, `AdminRuns`, `DisputeRuns`
and `RoyaltySplitter` for the contract; `Calendar`, `Schedule`, `NonceCache`, `BuildLock`,
`ConnectionPool`, `WarmingCache`, `KeysetPaging` and `BenchStats` for the rest.

## Model

| member | source | states |
|---|---|---|
| `Split.CheckedBpsAmount` | src/lib.rs:327-340 | fails exactly for a negative amount or a product of 2^128 or more, and otherwise is the floor of amount·bps/10,000; the i128 check behind it never fails |
| `Split.ComputePayouts` | src/lib.rs:950-968 | the payout loop, common to lines 950, 1055, 1230, 1384 and 1794: yields the payments of the split, and fails exactly when a non-last product overflows; the checked addition and subtraction never fail |
| `Split.SplitIsExact` | src/lib.rs:950-968 | payouts are within 0 and the amount and sum to it exactly; all but the last are floors; the last exceeds its exact share by less than n − 1 and is exact for n = 1 |
| `Split.CumulativeReceipts` | src/lib.rs:950-968 | over any series of amounts, a non-last total lies less than one unit per distribution below the exact total, and the last total less than n − 1 units per distribution above it |
| `Split.RunningTotal` | src/lib.rs:956-958 | the running total is the sum of the floors so far and never passes the amount |
| `Ledger.PayAllEffect` | src/lib.rs:970-976 | paying distinct outside addresses takes the total from the contract, gives each its own payment and moves no other balance of any token |
| `Ledger.TryPayAllEffect` | src/lib.rs:1082-1098 | for every pattern of failed transfers, the contract keeps exactly the failed amounts and every other receiver has its payment |
| `Recipients.FirstRepeat` | src/lib.rs:2036-2049 | the nested loop finds a repeated address exactly when the addresses are not distinct |
| `Recipients.ValidateRecipientList` | src/lib.rs:2051-2077 | accepts exactly the lists of one to ten distinct addresses with positive shares summing to 10,000, and reports the first failing check |
| `Recipients.DefectIffInvalid` | src/lib.rs:2051-2077 | the ordered checks find no error if and only if the list is valid in the order-free sense |
| `Recipients.DefectOrder` | src/lib.rs:2051-2077 | exactly when each defect is the one reported: empty, too long, repeated address, first zero share before an overflow, wrong total |
| `Recipients.StoreRoundTrip` | src/lib.rs:826-838 | writing a list of distinct addresses as list and map and reading it back gives the list; the keys are its addresses |
| `Recipients.TotalShares` | src/lib.rs:1580-1591 | whatever order the map is visited in, the result is the sum of its values, or an overflow exactly when that leaves u32 |
| `Recipients.StoredTotal` | src/lib.rs:1580-1591 | the map total is the list total when the keys are exactly the list |
| `Incentives.Bonus` | src/lib.rs:1676-1696 | the bonus is 50 for an early adopter plus 10 per 100 recorded royalties up to 100: at most 150, so the 1,000 cap never binds |
| `Incentives.ScaleBonuses` | src/lib.rs:1715-1737 | up to the 2,000 cap bonuses are kept and their sum is the total; above it each is scaled down |
| `Incentives.Adjust` | src/lib.rs:1712-1763 | both stages on any valid list with bonuses of at most 150: addresses are kept in order and shares are the adjusted ones; the total is at most 1,500, so the cap never binds, and the final subtraction never fails |
| `Incentives.RaiseFront` | src/lib.rs:1743-1752 | the loop gives every non-last recipient its floor of what the bonuses leave plus its bonus, and counts exactly what it gave |
| `Incentives.AdjustedTotal` | src/lib.rs:1741-1763 | adjusted shares sum to 10,000, each within 0 and 10,000, and the last is at least 1 |
| `Incentives.RaisedIsZeroIff` | src/lib.rs:1745-1746 | a non-last adjusted share is zero exactly when its base share is 1 and its bonus 0 |
| `Incentives.AdjustedValidIff` | src/lib.rs:1698-1764 | with a positive total bonus, the adjusted list passes the validator exactly when no non-last recipient has share 1 and bonus 0 |
| `ContractInvariant.InitializeValid` | src/lib.rs:342-405 | either initialization, direct or by reveal, leaves a valid registry: distinct, non-empty, at most ten, keys equal to the list, positive shares, total 10,000 |
| `ContractInvariant.SetRecipientsValid` | src/lib.rs:822-856 | a successful replacement leaves a valid registry that reads back as the list given |
| `ContractInvariant.UpdateShareIffUnchanged` | src/lib.rs:1493-1529 | update_share succeeds exactly for a signed call that names a collaborator and its present share, and then changes nothing |
| `ContractInvariant.StoredMapTotal` | src/lib.rs:1580-1591 | the share map totals 10,000 whenever it exists |
| `ContractInvariant.AdminStaysSet` | src/lib.rs:410-462 | an admin once set stays set, only an initialization sets the first one, and a later initialization of either kind changes nothing |
| `ContractInvariant.PrimaryPaymentFrame` | src/lib.rs:890-1284 | the primary payment calls change only the ledger, the counter, the time and the emergency flag |
| `ContractInvariant.StepFrame` | src/lib.rs:342-2524 | each call changes only the parts of the state of its own group; in particular no other call touches admins, proposals, disputes, pool, whitelist or threshold |
| `ContractInvariant.SharesFrame` | src/lib.rs:822-856 | only initialization and set_recipients change the collaborators or their shares |
| `ContractInvariant.StepKeepsInv` | src/lib.rs:342-2524 | every call, successful or not, keeps the invariant of the whole state |
| `ContractInvariant.ReachableInv` | src/lib.rs:342-2524 | the invariant holds in every state of every run from deployment |
| `ContractInvariant.ReachableRegistry` | src/lib.rs:2051-2077 | in every reachable state with an admin the registry is valid, its list passes the distribution-time validator, and no later initialization succeeds |
| `ContractInvariant.ReachableIncentives` | src/lib.rs:1698-1764 | in every reachable state with incentives on, the list to pay keeps the addresses, sums to 10,000, ends positive, has at most 1,500 bps of bonuses, and is valid exactly when no bonus is positive or no non-last recipient has share 1 and bonus 0 |
| `RegistryRuns.JoinedWhenFirstListed` | src/lib.rs:841-851 | on every run somebody has a join date exactly when a step has listed it, and it is the time of the first such step |
| `RegistryRuns.ActivityCountsRoyalties` | src/lib.rs:1316-1329 | on every run an activity count is the number of royalties its owner recorded while a collaborator, up to the largest u32 |
| `PayoutEffects.PayOutEffect` | src/lib.rs:950-976 | one split-and-pay: each listed address gains its payout, the contract loses the amount, nothing else moves |
| `PayoutEffects.DistributeEffect` | src/lib.rs:890-998 | a primary distribution either trips the anomaly pause and moves nothing, or empties the contract of the token over a valid list, counts one and stamps the time |
| `PayoutEffects.PayOutOkIff` | src/lib.rs:950-976 | with willing receivers, splitting and paying the balance fails exactly when a non-last product overflows |
| `PayoutEffects.DistributeOkIff` | src/lib.rs:890-998 | exactly when a primary distribution succeeds: signatures, pauses, approval, a positive balance, and either an anomaly or a valid list, a large enough balance and no overflowing product |
| `PayoutEffects.IncentivesEffect` | src/lib.rs:1766-1842 | a distribution with incentives empties the contract of the token over the incentive list, which is valid, and counts one |
| `PayoutEffects.WithdrawEffect` | src/lib.rs:858-882 | a successful withdrawal is signed and within the balance, and moves exactly its amount from the contract to the stored admin and no other balance of any token |
| `PayoutEffects.TryPayOutEffect` | src/lib.rs:1078-1098 | best effort over a split: failed payouts stay, all others arrive, other tokens stand still |
| `PayoutEffects.ResilientEffect` | src/lib.rs:1000-1132 | the remaining balance is the sum of the failed payouts for every failure pattern; counter and time move exactly when somebody was paid |
| `PayoutEffects.SecondaryEffect` | src/lib.rs:1333-1426 | a paying secondary distribution moves exactly the pool, split over the collaborators, and leaves the pool at zero |
| `PayoutEffects.BatchProgress` | src/lib.rs:1214-1262 | while a batch is paying, its tokens so far are pairwise distinct, had a balance, were paid out in full, and no other token moved |
| `PayoutEffects.TrippedPrefix` | src/lib.rs:1218-1220 | a batch stopped at k is the completed batch of the tokens before k, followed by an anomaly on token k |
| `PayoutEffects.BatchWithinThreshold` | src/lib.rs:1218-1220 | no token of a batch that goes on paying was above the anomaly threshold |
| `PayoutEffects.BatchOutcome` | src/lib.rs:1147-1284 | a successful batch is complete (distinct tokens, zero balances, counter raised by their number) or stopped at some k (before k paid in full, the rest untouched, emergency pause on, counter and time unchanged) |
| `PayLists.OverridePaid` | src/lib.rs:913-942 | a successful distribution above no threshold pays the override when there is one, else the stored defaults, else the stored collaborators in order with the share the map gives each |
| `PayLists.ResilientPaid` | src/lib.rs:1019-1048 | a successful resilient distribution splits over the override, else the defaults, else the stored collaborators, and keeps only the failed payments |
| `PayLists.BatchPaidLists` | src/lib.rs:1172-1198 | a successful batch pays the defaults, else the stored collaborators |
| `PayLists.SecondaryPaid` | src/lib.rs:1376-1411 | a successful secondary distribution below the threshold pays the pool over the stored collaborators |
| `PayLists.IncentivesSpelledOut` | src/lib.rs:1676-1764 | the list with incentives, from the stored data: each bonus is 50 within thirty days of the collaborator’s own join date plus 10 per hundred of its own royalties up to 100; with a positive total everybody but the last gets the floor of its part of the rest and its bonus, and the last what is left; else it is the base list |
| `PayLists.IncentivesPaid` | src/lib.rs:1766-1842 | a successful distribution with incentives pays the whole balance over that list |
| `CallRules.CallersHaveSigned` | src/lib.rs:2089-2115 | no call succeeds without its signatures: the stored admin or the first threshold members of the list for every distribution and setting, all of them to clear the emergency pause, the payer of a royalty, the voter, the proposer, every source of a clawback |
| `CallRules.ChangesAreSigned` | src/lib.rs:822-856 | whatever step changes collaborators or shares after initialization, defaults, admin list or threshold, a pending rotation (but by finalizing it), the timelock or the whitelist, the admins have signed it |
| `CallRules.PaymentsAreOpen` | src/lib.rs:766-782 | which flag stops which payment, and which payments refuse a token that is not whitelisted |
| `CallRules.PausedPaymentsReport` | src/lib.rs:897-903 | a paused payment reports the emergency pause apart in override, batch and secondary distributions only |
| `CallRules.TripsAreAboveThreshold` | src/lib.rs:1976-1992 | a payment that sets the emergency pause is an override, batch or secondary distribution with an amount above the stored threshold |
| `CallRules.RegistryRule` | src/lib.rs:342-856 | exactly when an initialization, set_recipients, set_default_recipients, update_share or the incentives switch succeeds, and the list, map, admin, defaults or switch it then stores |
| `CallRules.PauseRule` | src/lib.rs:608-744 | exactly when a pause, unpause, threshold or emergency call succeeds, and that it then changes its own field only |
| `CallRules.AdminRule` | src/lib.rs:621-683 | exactly when each admin call succeeds, with the bounds on lists and durations and the 48-hour default timelock, and the admin fields it then leaves |
| `CallRules.GovRule` | src/lib.rs:2342-2524 | exactly when a rate change, proposal, vote or execution succeeds, and the proposal, weight, rate and history it then stores |
| `CallRules.TreasuryRule` | src/lib.rs:858-882 | exactly when a royalty is recorded, a withdrawal made or a whitelist stored, and the balances, pool, token and list it then leaves |
| `CallRules.DisputeRule` | src/lib.rs:2201-2242 | exactly when a dispute is recorded or resolved, and what is recorded under the next id |
| `CallRules.ClawbackRule` | src/lib.rs:2267-2302 | a successful clawback has signed sources and positive amounts, settles an open dispute, and moves each amount from its source to the contract |
| `CallRules.VotesReport` | src/lib.rs:2408-2474 | which error a vote or an execution reports: no collaborator, no such proposal, a settled one, a wrong time, a second vote |
| `CallRules.SignedCallsReport` | src/lib.rs:858-876 | which error signed settings, withdrawals and dispute calls report for unusable amounts, lists, rates and disputes |
| `CallRules.RoyaltiesReport` | src/lib.rs:1290-1293 | a royalty reports an amount that is not positive, then a token that is not whitelisted |
| `PaymentRules.OverrideOkIff` | src/lib.rs:890-998 | with willing recipients, exactly when a distribution over the list for its override succeeds |
| `PaymentRules.OverrideReports` | src/lib.rs:896-948 | which error an open distribution reports, in order: whitelist, no balance, the list’s own defect, too small a balance, overflow |
| `PaymentRules.ResilientOkIff` | src/lib.rs:1000-1071 | whoever refuses, exactly when a resilient distribution succeeds |
| `PaymentRules.ResilientReports` | src/lib.rs:1010-1071 | which error an open resilient distribution reports, in order |
| `PaymentRules.IncentivesOkIff` | src/lib.rs:1766-1810 | with willing recipients, exactly when a distribution with incentives succeeds |
| `PaymentRules.IncentivesReport` | src/lib.rs:1781-1810 | which error an open distribution with incentives reports, in order |
| `PaymentRules.SecondaryOkIff` | src/lib.rs:1333-1411 | with willing collaborators, exactly when a secondary distribution succeeds |
| `PaymentRules.SecondaryReports` | src/lib.rs:1345-1403 | which error a signed, open secondary distribution reports: an empty pool, a pool the contract does not hold, overflow |
| `PaymentRules.ReadyBatchCompletes` | src/lib.rs:1147-1284 | a signed batch of distinct approved tokens, each within the threshold and splitting over the list, pays them all |
| `PaymentRules.CompletedBatchWasReady` | src/lib.rs:1147-1284 | conversely a batch that succeeds and sets no emergency pause had at most fifty such tokens |
| `PaymentRules.BatchReports` | src/lib.rs:1214-1228 | where a batch stops: tripped exactly above the threshold, failed on a token without balance or with too small a one |
| `MoneyRuns.PausedStep` | src/lib.rs:766-789 | under an emergency pause no single step except a withdrawal lowers a contract balance |
| `MoneyRuns.PausedStepWithdraws` | src/lib.rs:858-882 | under an emergency pause no step lowers a contract balance by more than it withdraws |
| `MoneyRuns.EmergencyStays` | src/lib.rs:2002-2008 | only a successful clear_emergency_pause lifts the emergency pause |
| `MoneyRuns.PauseSafety` | src/lib.rs:1994-2034 | over every run from a state with the emergency pause on to the next successful clear: the pause stays on, no step but withdraw lowers a contract balance of any token, and each balance ends no lower than it began less the successful withdrawals of it |
| `MoneyRuns.SecondaryConservation` | src/lib.rs:1286-1426 | over every run, recorded secondary royalties equal the present pool plus what distribute_secondary paid out of the contract |
| `MoneyRuns.ListIsPaid` | src/lib.rs:1776-1842 | whichever call distributes over a list and pays it in full (override, resilient, batch, incentives, secondary), each recipient gains its part of the split and the contract loses the amount |
| `MoneyRuns.ReceiptsAreSplits` | src/lib.rs:950-976 | over every run mixing all five kinds of distribution, what those paying one list in full added to a recipient is the split of their amounts |
| `MoneyRuns.FairOverRun` | src/lib.rs:327-340 | over every run mixing all five kinds of distribution, cumulative receipts from those paying one list in full stay within one unit per distribution below (or, for the last, n − 1 above) the exact share of the total amount |
| `Governance.WeightsWithinTotal` | src/lib.rs:2442-2446 | yes and no share sums together never exceed the share total: nobody counts twice |
| `Governance.ProposeKeepsGovInv` | src/lib.rs:2342-2394 | a new proposal has the next id, a rate in range and no outcome, so ids stay in order and unique |
| `Governance.VoteKeepsGovInv` | src/lib.rs:2399-2455 | votes are recorded only for existing proposals and change no outcome |
| `Governance.ExecuteKeepsGovInv` | src/lib.rs:2459-2524 | no proposal becomes both executed and rejected, and the rate and its history stay within bounds |
| `Governance.VoteEffect` | src/lib.rs:2420-2448 | a successful vote is its voter’s first on an open proposal before the deadline, and changes no other proposal and no other vote |
| `Governance.ExecuteEffect` | src/lib.rs:2469-2517 | settling needs an open proposal at or after its deadline, changes only its outcome, and no votes |
| `Governance.ProposeStartsTally` | src/lib.rs:2342-2394 | a new proposal starts with an exact, empty tally |
| `Governance.VoteKeepsTally` | src/lib.rs:2399-2455 | a successful vote keeps every exact tally exact |
| `Governance.PassedIffMajority` | src/lib.rs:2477-2478 | within the share total, the two-part test passes exactly on more than 5,000 yes weight |
| `GovernanceRuns.TallyThroughRun` | src/lib.rs:2399-2455 | while no shares are replaced since its creation, a proposal’s weights are the share sums of the distinct yes and no voters, and total at most 10,000 |
| `GovernanceRuns.VotesAreCast` | src/lib.rs:2427-2440 | on every run the stored votes on a proposal are exactly the successful vote calls on it since its creation, whatever happens to the shares |
| `GovernanceRuns.TermsAreKept` | src/lib.rs:2368-2379 | a proposal keeps the rate, proposer and creation time of the call that made it, and a deadline its duration later |
| `GovernanceRuns.GovStepEffect` | src/lib.rs:2399-2524 | a step changes a proposal only by a vote before the deadline (weights) or an execution after it (outcome), each only while the proposal is open |
| `GovernanceRuns.ProposalOutcome` | src/lib.rs:2459-2524 | execution adopts the rate of the call that created the proposal exactly when more than 5,000 bps voted yes, and otherwise marks it rejected and leaves the rate; never before that call’s duration has passed |
| `GovernanceRuns.LateStep` | src/lib.rs:2420-2425 | a step at or after the deadline changes no weight and no vote; a closed proposal does not change at all |
| `GovernanceRuns.ClosedForever` | src/lib.rs:2469-2471 | an executed or rejected proposal stays exactly as it is in every later state, and is never both |
| `GovernanceRuns.TallyFrozen` | src/lib.rs:2423-2425 | once a step runs at or after the deadline, weights and votes never change again |
| `RotationRuns.PendingOrigin` | src/lib.rs:1844-1860 | a pending rotation stems from the latest successful rotation step, an initiate of that admin at that time |
| `RotationRuns.TimelockHolds` | src/lib.rs:1883-1912 | whenever a rotation is finalized, the latest rotation step before it was an initiate of that admin, at least the stored timelock (48 hours if none) and so at least 3,600 s earlier |
| `AdminControl.ClearingTakesMore` | src/lib.rs:2002-2034 | lifting the emergency pause takes at least the signatures that setting it takes, and the same ones exactly without a list or with a threshold of all its members |
| `AdminRuns.AdminStep` | src/lib.rs:621-683 | a step changes the admin only by an initialization signed by the first collaborator, a transfer signed by the present admin without a list, an acceptance signed by the named successor, or a rotation whose timelock has run |
| `AdminRuns.AdminOrigin` | src/lib.rs:621-683 | in every reachable state the admin was installed in one of those four ways and has been the admin ever since |
| `AdminRuns.SuccessorWasNamed` | src/lib.rs:645-683 | a successor that can accept was named by the latest succession step, signed by the admins of that time |
| `AdminRuns.SwitchesNeedSignatures` | src/lib.rs:608-782 | every pause flag and the incentives switch changes only by its own signed call; the emergency pause also turns on by a signed payment above the threshold, and off only with all the admins’ signatures |
| `DisputeRuns.DisputeStep` | src/lib.rs:2258-2327 | a step changes a recorded dispute only by settling it while open, and then only its status and time |
| `DisputeRuns.SettledForGood` | src/lib.rs:2304-2327 | over every run a recorded dispute stays recorded, keeps what it is about, and once settled never changes |
| `DisputeRuns.SettledAtMostOnce` | src/lib.rs:2315-2317 | after a call has settled a dispute, every later call that would settle it fails |
| `RoyaltySplitter.Contract.CheckAdminAuth` | src/lib.rs:2089-2115 | true exactly when the first threshold listed admins, or the single admin when no list is set, have signed |
| `RoyaltySplitter.Contract.CheckAllAdmins` | src/lib.rs:2015-2034 | true exactly when every listed admin, or the single admin, has signed |
| `RoyaltySplitter.Contract.TripAnomalyPauseIfExceeded` | src/lib.rs:1976-1992 | sets the emergency pause exactly when the amount exceeds a set threshold, and touches nothing else |
| `RoyaltySplitter.Contract.IsTokenApproved` | src/lib.rs:2164-2177 | true for every token when the whitelist is empty, else for its members |
| `RoyaltySplitter.Contract.WriteShares` | src/lib.rs:826-839 | stores the list’s addresses in order and the map of its shares |
| `RoyaltySplitter.Contract.RecordJoins` | src/lib.rs:841-851 | adds the time for new addresses and keeps the earlier dates |
| `RoyaltySplitter.Contract.InitializeValidated` | src/lib.rs:342-405 | the checks and writes common to both routes: the first failing check is reported, and the stored lists are the ones given |
| `RoyaltySplitter.Contract.RevealInitialize` | src/lib.rs:454-501 | the commitment is checked before the lists and the signature before their validation; then as the common part |
| `RoyaltySplitter.Contract.Initialize` | src/lib.rs:407-430 | succeeds once only, signed by the first collaborator, for lists that become a valid registry; the first collaborator becomes admin; errors come in the order of the outer and inner checks |
| `RoyaltySplitter.Contract.FirstInitDefect` | src/lib.rs:367-380 | finds the first zero share or repeated address, in list order |
| `RoyaltySplitter.Contract.SetRecipients` | src/lib.rs:822-856 | an accepted list replaces list and map, keeps earlier join dates and dates newcomers; a refused one changes nothing and gives the first defect; who must sign is in CallRules.ChangesAreSigned |
| `RoyaltySplitter.Contract.SetDefaultRecipients` | src/lib.rs:806-820 | stores an accepted list as given; a share above 10,000 is reported before any other defect |
| `RoyaltySplitter.Contract.UpdateShare` | src/lib.rs:1493-1529 | the total is read from the stored map in any order; only the named share can change, and every error comes in the code’s order |
| `RoyaltySplitter.Contract.GetRecipients` | src/lib.rs:1452-1472 | the stored list read through the map, empty when nothing is stored |
| `RoyaltySplitter.Contract.CalculateIncentiveShares` | src/lib.rs:1698-1764 | the loops compute the list with incentives spelled out from join dates, activity counts and stored shares |
| `RoyaltySplitter.Contract.SplitAndPay` | src/lib.rs:950-976 | either the split paid in full or its error, never a partly new ledger on success |
| `RoyaltySplitter.Contract.DistributeWithOverride` | src/lib.rs:890-998 | checks pauses, approval, balance, threshold and list in the code’s order and pays the split of the whole balance; which list is in PayLists.OverridePaid |
| `RoyaltySplitter.Contract.DistributeResilient` | src/lib.rs:1000-1132 | pays what can be paid of the split, whatever subset of transfers fails, and returns exactly the payments not made; it checks no whitelist and no anomaly |
| `RoyaltySplitter.Contract.ExecuteDistribution` | src/lib.rs:1776-1842 | pays the whole balance by the split over the list given, or reports the first failing check and leaves the treasury to be rolled back |
| `RoyaltySplitter.Contract.DistributeWithIncentives` | src/lib.rs:1766-1774 | pays the whole balance over the incentive list of the stored registry; no whitelist and no anomaly check |
| `RoyaltySplitter.Contract.BatchDistribute` | src/lib.rs:1147-1284 | pays every token in turn, stops without error at the first anomaly, and otherwise fails as a whole; only the global and emergency pauses and the share total are checked, not the operation pause |
| `RoyaltySplitter.Contract.BatchLoop` | src/lib.rs:1214-1262 | the loop over tokens computes the batch: paying, stopped at an index, or failed |
| `RoyaltySplitter.Contract.RecordSecondaryRoyalty` | src/lib.rs:1286-1330 | moves the royalty into the contract, adds it to the pool under that token, and counts activity for collaborators only |
| `RoyaltySplitter.Contract.DistributeSecondary` | src/lib.rs:1333-1426 | pays exactly the pool over the collaborators and zeroes it, or trips the anomaly pause; a pool above the balance is refused |
| `RoyaltySplitter.Contract.Clawback` | src/lib.rs:2267-2302 | pulls each amount from its signing source and closes the dispute; a dispute that is not open undoes the transfers |
| `RoyaltySplitter.Contract.SetApprovedTokens` | src/lib.rs:2127-2149 | replaces the whitelist by up to 25 distinct tokens |
| `RoyaltySplitter.Contract.SetAdmins` | src/lib.rs:1593-1630 | replaces the list by one to ten distinct admins with a threshold between 1 and their number |
| `RoyaltySplitter.Contract.SetAnomalyThreshold` | src/lib.rs:1948-1961 | only a positive threshold is stored |
| `RoyaltySplitter.Contract.ClearAnomalyThreshold` | src/lib.rs:1963-1969 | removes the threshold and leaves a tripped pause on |
| `RoyaltySplitter.Contract.ClearEmergencyPause` | src/lib.rs:2002-2008 | lifts the pause only with the signature of every listed admin, or of the single admin |
| `RoyaltySplitter.Contract.InitiateAdminRotation` | src/lib.rs:1844-1860 | starts the timelock for a new admin, replacing a pending rotation and its start |
| `RoyaltySplitter.Contract.CancelAdminRotation` | src/lib.rs:1862-1881 | removes a pending rotation; without one it fails |
| `RoyaltySplitter.Contract.FinalizeAdminRotation` | src/lib.rs:1883-1912 | installs the pending admin once the timelock in force has run, without any signature |
| `RoyaltySplitter.Contract.SetAdminRotationTimelock` | src/lib.rs:1919-1934 | only durations from one hour to thirty days are stored; a pending rotation is judged by the new value |
| `RoyaltySplitter.Contract.SetRoyaltyRate` | src/lib.rs:547-600 | stores a rate from 1 to 10,000 and appends it to a history of the last twenty changes |
| `RoyaltySplitter.Contract.ProposeRateChange` | src/lib.rs:2342-2394 | a collaborator opens a proposal under the next id, with a deadline one hour to fourteen days ahead |
| `RoyaltySplitter.Contract.Vote` | src/lib.rs:2399-2455 | one vote for each collaborator and proposal, before the deadline, weighted by its present share |
| `RoyaltySplitter.Contract.ExecuteProposal` | src/lib.rs:2459-2524 | after the deadline anyone settles a proposal, once: adopted with history, or rejected as a stored outcome |
| `RoyaltySplitter.Contract.RecordDispute` | src/lib.rs:2201-2242 | opens a dispute under the next id for a positive amount |
| `RoyaltySplitter.Contract.Invoke` | src/lib.rs:547-2524 | a whole call: the new state is that of the state machine’s step, with every effect of a failing call rolled back, and the invariant is kept |
| `Calendar.YearLength` | backend/src/schedule-calculator.js:22-61 | consecutive years start 366 days apart exactly for leap years, else 365 |
| `Calendar.MonthLength` | backend/src/schedule-calculator.js:45-61 | consecutive months start the usual number of days apart, February by the leap rule |
| `Calendar.YearIsUnique` | backend/src/schedule-calculator.js:45-61 | each day lies in exactly one year by the day numbers of ECMA-262 section 21.4.1, leap years and negative years included |
| `Calendar.MonthIsUnique` | backend/src/schedule-calculator.js:45-61 | each day lies in exactly one month |
| `Calendar.DateRoundTrip` | backend/src/schedule-calculator.js:31-35 | year, month and date determine the day, months run from 0 to 11, and day and time of day determine the instant |
| `Calendar.MakeDayOverflow` | backend/src/schedule-calculator.js:31-35 | a month past the end of the year is the same month of a later year |
| `Calendar.YearStartsCounted` | backend/src/schedule-calculator.js:22-61 | the first day of every year is the sum of the year lengths since 1 January 1970, by the leap rule written out |
| `Calendar.MonthStartsCounted` | backend/src/schedule-calculator.js:22-61 | the first day of every month is the sum of the month lengths since January 1970, written out |
| `Calendar.InstantParts` | backend/src/schedule-calculator.js:22-26 | an instant is its whole days of 24 hours and a time within the day |
| `Calendar.WeekDaysAdvance` | backend/src/schedule-calculator.js:73 | day 0 is a Thursday and each day moves the weekday on by one, modulo 7 |
| `Schedule.UtcDate.SetUTCDate` | backend/src/schedule-calculator.js:33 | the date setter keeps month and time of day and lets the date overflow; an unrepresentable result is invalid |
| `Schedule.UtcDate.SetUTCMonth` | backend/src/schedule-calculator.js:55 | the month setter keeps the date and time of day and lets the month overflow |
| `Schedule.UtcDate.SetUTCHours` | backend/src/schedule-calculator.js:22-26 | the hour setter keeps the day and clears minutes, seconds and milliseconds |
| `Schedule.MonthlyFirstAfter` | backend/src/schedule-calculator.js:45-61 | between two consecutive monthly slots there is no other, so the later is the first after any instant between them |
| `Schedule.ClampIsNearest` | backend/src/schedule-calculator.js:47 | days 1 to 28 are kept, others go to the nearer end |
| `Schedule.MonthlySlotIff` | backend/src/schedule-calculator.js:45-61 | the monthly slots are exactly the days counted month by month from 1970, at the hour |
| `Schedule.WeeklySlotIff` | backend/src/schedule-calculator.js:71-85 | the weekly slots are exactly whole weeks from that weekday in the week of Thursday 1 January 1970, at the hour |
| `Schedule.IntervalSlotIff` | backend/src/schedule-calculator.js:96-114 | the interval slots are exactly whole intervals of days from the anchor’s midnight, at the hour |
| `Schedule.MonthlyResultIsFirst` | backend/src/schedule-calculator.js:45-61 | the computed result, either branch, is invalid or the least instant after now with the clamped date of month at the hour, at most 31 days away |
| `Schedule.NextMonthly` | backend/src/schedule-calculator.js:45-61 | a valid result is the least instant after now with the clamped date of month at the hour; away from the ends of the time range it is valid |
| `Schedule.WeeklyFirstAfter` | backend/src/schedule-calculator.js:71-85 | a slot seven days after another has no slot of that weekday between |
| `Schedule.WeeklyResultIsFirst` | backend/src/schedule-calculator.js:71-85 | the computed result, either branch, is invalid or the least instant after now on the weekday at the hour, at most seven days away |
| `Schedule.NextWeekly` | backend/src/schedule-calculator.js:71-85 | a valid result is the least instant after now on the weekday (modulo 7, also for negative arguments) at the hour; away from the ends of the time range it is valid |
| `Schedule.IntervalFirst` | backend/src/schedule-calculator.js:96-114 | the chosen slot is on a later UTC day than now, at most one interval later, and every earlier slot is on now’s day or before, also when now precedes the anchor |
| `Schedule.IntervalIsFirstIff` | backend/src/schedule-calculator.js:96-114 | that slot is the first after now exactly unless now is on a slot day before the hour, where the same-day slot is skipped |
| `Schedule.IntervalSteps` | backend/src/schedule-calculator.js:104-106 | from a slot the next one is exactly one interval of days later |
| `Schedule.IntervalResultIsNext` | backend/src/schedule-calculator.js:96-114 | what the program computes, second-cycle branch included, is invalid or the first slot on a later day than now; so that branch is never taken |
| `Schedule.IntervalCandidates` | backend/src/schedule-calculator.js:96-114 | the date manipulation, both branches included, yields the specified result |
| `Schedule.NextInterval` | backend/src/schedule-calculator.js:96-114 | a valid result is after now and is the first slot on a later day; it is valid whenever both dates are and the answer stays within the time range |
| `Schedule.ComputeNextRun` | backend/src/schedule-calculator.js:123-151 | monthly, weekly, biweekly (14 days) and custom rows (their interval, else 1 day) each get their own rule with their hour, else 0, and their anchor, else now; a valid answer is the first occurrence to come; exactly another type is an error |
| `Schedule.NextRunIsNext` | backend/src/schedule-calculator.js:123-151 | for every rule, a valid answer is the least occurrence to come (after now, or on a later day for an interval rule), and it is valid away from the ends of the time range |
| `Schedule.VisitsEveryOccurrence` | backend/src/schedule-calculator.js:45-114 | computing each run from the one before, for a monthly, weekly or fixed-anchor interval rule, visits in order exactly the occurrences to come up to the last run, each once |
| `Schedule.IterationContinues` | backend/src/schedule-calculator.js:45-114 | the iteration has all its n runs unless it gets near the ends of the time range |
| `Schedule.IterationAdvances` | backend/src/schedule-calculator.js:96-114 | with a fixed anchor, consecutive runs are exactly intervalDays days apart |
| `NonceCache.Verifier.EvictExpired` | backend/src/verify-signature.js:87-92 | deleting during the iteration leaves exactly the unexpired entries, in order |
| `NonceCache.Verifier.IsNonceSeen` | backend/src/verify-signature.js:94-98 | the lookup sees the evicted cache and the later clock reading |
| `NonceCache.Verifier.RecordNonce` | backend/src/verify-signature.js:100-106 | evicts, drops the oldest entry at capacity, then sets the nonce |
| `NonceCache.Verifier.VerifyRequestSignature` | backend/src/verify-signature.js:238-319 | accepted exactly for a genuine request inside the window whose nonce has no entry left by the eviction that is alive at the comparison; only an acceptance adds an entry |
| `NonceCache.EvictIsSuffix` | backend/src/verify-signature.js:87-92 | from a cache in expiry order, eviction drops a prefix, all of it expired |
| `NonceCache.SetAppends` | backend/src/verify-signature.js:105 | a nonce not in the cache is appended |
| `NonceCache.CacheByExpiry` | backend/src/verify-signature.js:85-106 | Map order is expiry order |
| `NonceCache.ReplayNeedsCapacity` | backend/src/verify-signature.js:249-271 | a request accepted before is accepted again only if at least the capacity of other acceptances came between |
| `NonceCache.ReplayGuard` | backend/src/verify-signature.js:85-106 | in every run with a non-decreasing clock and each nonce lookup less than a delay of at most ttl − maxAge after its window check, the cache is the recent end of the acceptances in expiry order, and repeats are at least the capacity apart |
| `NonceCache.AtMostOnce` | backend/src/verify-signature.js:238-319 | with no more acceptances in the run than the capacity plus one, each signed request is accepted at most once |
| `NonceCache.EvictMembers` | backend/src/verify-signature.js:87-92 | eviction keeps exactly the entries that expire later |
| `NonceCache.AcceptedIff` | backend/src/verify-signature.js:249-318 | the verdict on any Map, in terms of signature, window and the entries of the nonce |
| `NonceCache.LogIsAccepted` | backend/src/verify-signature.js:238-319 | over every run, whatever the delays, the acceptances are exactly the genuine, timely requests with no live entry, in order |
| `NonceCache.SlowVerificationReplays` | backend/src/verify-signature.js:249-271 | for every nonce and timestamp, a delay bound above ttl − maxAge allows a run that accepts the same request twice in a row |
| `NonceCache.ReplayGuardIff` | backend/src/verify-signature.js:85-106 | over all runs of requests that pass header extraction, a bound on the delay keeps repeats at least the capacity apart if and only if it is at most ttl − maxAge, or allows no lookup at all, or the capacity is zero |
| `BuildLock.AccountBuildLocks.Begin` | backend/src/stellar.js:340-350 | a call queues behind the present tail and leaves its own derived promise as the tail |
| `BuildLock.AccountBuildLocks.Finish` | backend/src/stellar.js:353-360 | the finally block: releases, whatever fn’s outcome, and on every run leaves the map alone |
| `BuildLock.CleanupNeverFires` | backend/src/stellar.js:357-359 | the stored tail is never the promise the cleanup compares with |
| `BuildLock.EarlierHaveLeft` | backend/src/stellar.js:352 | a caller whose awaited tail is fulfilled has no earlier caller of its account waiting or inside |
| `BuildLock.NextKeepsInv` | backend/src/stellar.js:340-361 | every turn keeps: tails and awaited promises belong to the latest earlier call, nobody passes an unfulfilled promise, and entry is in order |
| `BuildLock.MutualExclusion` | backend/src/stellar.js:340-361 | in every interleaving at most one caller per account is inside fn |
| `BuildLock.EntersInCallOrder` | backend/src/stellar.js:352-354 | when a caller enters, every earlier caller of its account has left, rejected or not, and every later one waits |
| `BuildLock.NextInLineEnters` | backend/src/stellar.js:345-352 | once all earlier callers have left, the next can enter after at most one more turn, of its own account |
| `BuildLock.AccountsAreIndependent` | backend/src/stellar.js:341-342 | a turn of one account neither enables nor disables a turn of another |
| `BuildLock.TurnLeavesOther` | backend/src/stellar.js:341-352 | a turn leaves any possible turn of another account possible, and the map as it is |
| `BuildLock.AccountsCommute` | backend/src/stellar.js:341-342 | turns of different accounts can be swapped without changing the outcome |
| `BuildLock.TailsNeverDeleted` | backend/src/stellar.js:357-359 | over every run the map’s keys only grow |
| `ConnectionPool.SqlitePool.AcquireConnection` | backend/src/database/pool.js:78-119 | new state as specified: refused while draining, immediate from the free stack, or queued with a timer |
| `ConnectionPool.SqlitePool.DropWaiter` | backend/src/database/pool.js:97-98 | removes the first waiter whose resolve is the given function, if there is one |
| `ConnectionPool.SqlitePool.OnTimeout` | backend/src/database/pool.js:96-106 | rejects and counts a timeout, and leaves the queue as it was |
| `ConnectionPool.SqlitePool.ReleaseConnection` | backend/src/database/pool.js:124-132 | hands the connection to the oldest waiter, timed out or not, or returns it to the free stack |
| `ConnectionPool.SqlitePool.DrainCheck` | backend/src/database/pool.js:157-166 | drain finishes exactly when no connection is held and none was handed to a settled promise; then all are free and nobody is queued |
| `ConnectionPool.AcquireKeeps` | backend/src/database/pool.js:78-119 | acquire keeps the invariant |
| `ConnectionPool.TimerKeeps` | backend/src/database/pool.js:96-106 | a timeout keeps the invariant and removes nobody from the queue |
| `ConnectionPool.RawIsNeverQueued` | backend/src/database/pool.js:97 | the callback’s search finds nothing, since the queue holds wrappers only |
| `ConnectionPool.ReleaseKeeps` | backend/src/database/pool.js:124-132 | release keeps the invariant, including when the connection is lost |
| `ConnectionPool.HeadIsOldest` | backend/src/database/pool.js:126-127 | when the oldest waiter is served, no earlier promise is still pending |
| `ConnectionPool.ReachableInv` | backend/src/database/pool.js:78-172 | on every run: free plus active connections make up the pool; waiters exist only when none is free; queueLength is live waiters less stale dispatches; active is held plus stale; each connection is in one place; service is first come, first served |
| `ConnectionPool.NoTimeoutsNoLoss` | backend/src/database/pool.js:78-132 | without timeouts no connection is lost and the two gauges are exact |
| `ConnectionPool.StaleForever` | backend/src/database/pool.js:124-132 | a connection handed to a settled promise never comes back |
| `ConnectionPool.LossesCounted` | backend/src/database/pool.js:124-132 | on every run exactly as many connections are lost as releases found a timed-out waiter at the head of the queue |
| `ConnectionPool.NoLossIff` | backend/src/database/pool.js:124-132 | no connection is lost if and only if every release found an empty queue or a head that had not timed out |
| `ConnectionPool.DrainNeedsNoStale` | backend/src/database/pool.js:151-172 | drain can finish only if no stale dispatch ever occurred |
| `ConnectionPool.RefusedWhileDraining` | backend/src/database/pool.js:78-81 | after drain has begun every acquire is refused and touches nothing else, on every run |
| `ConnectionPool.LastReturnedFirstTaken` | backend/src/database/pool.js:85-88 | putting a connection back and acquiring is a round trip: the same connection comes out and the pool is as before |
| `ConnectionPool.TotalsStep` | backend/src/database/pool.js:83-118 | acquires counts those not refused, waits are added from queueing to service, and a new waiter goes last |
| `ConnectionPool.LostConnection` | backend/src/database/pool.js:92-132 | a concrete run of a pool of one that loses its connection and shows a queue length of −1 |
| `WarmingCache.ContractCache.Set` | backend/src/cache.js:43-50 | stores the value with its fetch time and expiry, and nothing else |
| `WarmingCache.ContractCache.Get` | backend/src/cache.js:60-88 | the stored value exactly before its expiry, counted as miss, stale serve or hit, with a refresh started in the warming window if none is in flight |
| `WarmingCache.ContractCache.RefreshContract` | backend/src/cache.js:94-121 | returns the refresh in flight or starts one, unless no fetch function is configured |
| `WarmingCache.ContractCache.FetchSettles` | backend/src/cache.js:106-116 | success stores the value and its latency, failure leaves the entry, and both end the flight |
| `WarmingCache.NextKeepsInv` | backend/src/cache.js:60-121 | every turn keeps: a key in flight points at its own unsettled fetch, and every unsettled fetch is in flight |
| `WarmingCache.SingleFlight` | backend/src/cache.js:100-102 | at most one fetch per key is running, in every interleaving |
| `WarmingCache.InFlightIffRunning` | backend/src/cache.js:104-120 | while the fetch function returns promises, a key is in flight exactly while a fetch of it runs |
| `WarmingCache.InFlightMeansRunningIff` | backend/src/cache.js:100-120 | in every reachable state and for every key, in flight and running are the same if and only if no fetch of that key has thrown instead of returning a promise |
| `WarmingCache.ThrowBlocksKeyForever` | backend/src/cache.js:114-119 | after a fetch function that throws at once, the key stays in flight and no fetch of it ever runs again |
| `WarmingCache.StoreStep` | backend/src/cache.js:43-50 | a turn changes a stored entry only by setting that key; failed refreshes and gets never do |
| `WarmingCache.StoreIsLastSet` | backend/src/cache.js:43-50 | on every run the stored entry is that of the latest set or resolved refresh of the key |
| `WarmingCache.GetReturnsLatestUnexpired` | backend/src/cache.js:60-88 | on every run a get returns the latest value set for the key, exactly until that value’s own expiry |
| `WarmingCache.GetsAreCounted` | backend/src/cache.js:64-87 | hits, misses and stale serves add up to the gets since the metrics were reset |
| `WarmingCache.MetricsStep` | backend/src/cache.js:60-88 | each turn adds one to exactly one counter for a get and a refresh’s duration to the latency, clears them on reset, and otherwise leaves them |
| `WarmingCache.GetRaisesOne` | backend/src/cache.js:60-87 | which counter a get raises, from the entry’s expiry and the lead time: miss, stale serve or hit |
| `WarmingCache.FetchStartsIff` | backend/src/cache.js:77-105 | exactly when a turn starts a fetch: configured, none in flight, and an explicit refresh or a get within the lead time |
| `WarmingCache.WarmingGetRefreshes` | backend/src/cache.js:77-83 | a get in the warming window leaves a refresh in flight and starts one exactly when none was unsettled |
| `KeysetPaging.GetTransactionHistoryCursor` | backend/src/database/transactions.js:161-224 | the page is the specified one; its rows are at most limit, newest first by (timestamp, id), from the table, as asked for by contract, kind, recipient and dates, and past the cursor |
| `KeysetPaging.BuildConditions` | backend/src/database/transactions.js:162-190 | the pushed conditions are the contract’s, one for each filter present, and the cursor’s |
| `KeysetPaging.WhereIsAsked` | backend/src/database/transactions.js:162-185 | the conditions hold exactly of rows of the contract, of the kind, with a matching recipient, and dated between both ends, for each filter present |
| `KeysetPaging.OrderedSpec` | backend/src/database/transactions.js:192-214 | the query lists exactly the matching rows of the table, strictly by (timestamp, id) descending |
| `KeysetPaging.SelectSpec` | backend/src/database/transactions.js:187-190 | with a cursor, exactly the matching rows past it |
| `KeysetPaging.CursorContinues` | backend/src/database/transactions.js:216-221 | the cursor of a full page continues the same query right behind it |
| `KeysetPaging.WalkIsWholeQueryIff` | backend/src/database/transactions.js:161-224 | on a table at rest, following the cursor terminates and yields the whole query in order, each row once, exactly when the limit is at least 1 or there is nothing to list |
| `KeysetPaging.PageBounds` | backend/src/database/transactions.js:187-221 | a page lies past the cursor that opened it and not past the one it hands out |
| `KeysetPaging.NoDuplicates` | backend/src/database/transactions.js:187-221 | whatever happens to the table between pages, the concatenation stays strictly descending |
| `KeysetPaging.PassedRowsAreListed` | backend/src/database/transactions.js:187-221 | a matching row present in every snapshot so far has been listed once the cursor has passed it |
| `KeysetPaging.StableRowsAreListed` | backend/src/database/transactions.js:216-221 | when paging ends, every matching row that was there throughout has been listed |
| `KeysetPaging.ListedRowsMatch` | backend/src/database/transactions.js:162-214 | only matching rows of some snapshot are listed |
| `KeysetPaging.EachTransactionOnce` | backend/src/database/transactions.js:187-221 | as long as rows keep their timestamps, no transaction is listed twice |
| `BenchStats.SortedSpec` | backend/benchmarks/stats.js:24-26 | sorting gives an ascending list of the same samples |
| `BenchStats.OrderDoesNotMatter` | backend/benchmarks/stats.js:67-84 | summary and percentiles depend on the samples, not on their order |
| `BenchStats.PercentileBetweenNeighbours` | backend/benchmarks/stats.js:36-45 | a percentile lies between the samples around its rank |
| `BenchStats.PercentileInRange` | backend/benchmarks/stats.js:36-45 | percentiles lie between the least and the greatest sample, reached at 0 and 100 |
| `BenchStats.PercentileLinear` | backend/benchmarks/stats.js:40-44 | between two neighbours the percentile is their weighted mean, linear in the rank |
| `BenchStats.PercentileOnSample` | backend/benchmarks/stats.js:40-43 | with 100·k + 1 samples, percentile p is the sample at position p·k |
| `BenchStats.PercentileMonotone` | backend/benchmarks/stats.js:36-45 | a higher percentile is never smaller |
| `BenchStats.PercentileScales` | backend/benchmarks/stats.js:36-45 | slowing every sample by a positive factor slows every percentile by that factor |
| `BenchStats.SummaryOrdered` | backend/benchmarks/stats.js:67-84 | min ≤ p50 ≤ p95 ≤ p99 ≤ max and min ≤ mean ≤ max, with min and max attained and bounding all samples, the mean times the count their sum, and the three percentiles the samples at 50, 95 and 99 hundredths |
| `BenchStats.VerdictOnFactor` | backend/benchmarks/stats.js:102-146 | the verdict on a change by a factor, in terms of the factor and the floors alone |
| `BenchStats.SlowdownVerdict` | backend/benchmarks/stats.js:102-176 | a run slowed by a factor is a regression exactly when the slowdown reaches the percentage threshold and both floors, and an improvement exactly in the mirror case |
| `BenchStats.VerdictIff` | backend/benchmarks/stats.js:102-146 | the verdict for any baseline and current value, in products: percentage of the baseline and both floors; unusable baselines are never judged |
| `BenchStats.AllowanceIsGap` | backend/benchmarks/stats.js:163-176 | the allowance covers the declared one, and by itself is the p50–p95 gap at the default multiplier, in proportion otherwise |
| `BenchStats.SelfComparison` | backend/benchmarks/stats.js:102-146 | a run against itself is unchanged exactly when the baseline is unusable or the percentage threshold or a floor is positive; otherwise it is reported as an improvement |
| `BenchStats.GapIsNoise` | backend/benchmarks/stats.js:163-176 | with a multiplier above 2 the baseline’s own p50–p95 gap is never reported as a change |

## Left out

- Soroban host details: ledger lifetimes, XDR encoding, hashing, events, upgrade of the code. Authorization is a set of signers for each step, and a failing call is rolled back.
- `commit_initialize` and the stored commitment: a reveal carries the verdict of the hash and ledger checks instead. Migrations and their record, `record_secondary_sale`, `distribute` (the override call with an empty list) and the getters add only easy members.
- Token contracts are an honest ledger of non-negative i128 balances; a transfer fails for a refusing receiver, an unfunded sender or a full receiver, and nothing else is said of allowances in `transfer_from`.
- Dispute reasons and the reason of a manual pause are not stored in the model.
- RoyaltySplitter.Contract.DistributeResilient: returns the failed payments, where the program returns their addresses.
- RoyaltySplitter.Contract.Invoke: rollback restores the state as it was before the call; partial writes are not visible to other contracts, since the model has no re-entrant calls.
- GovernanceRuns.TallyThroughRun: says nothing across `set_recipients`; replaced shares can make the two weights exceed 10,000.
- Schedule.NextMonthly: days, hours and intervals are integers, hours within the documented 0–23 and intervals positive.
- Schedule.NextInterval: states no same-day slot, because the code skips it.
- Ed25519 verification, header parsing and enforcement switches: one Boolean says whether the key, the encoding and the signature are good.
- NonceCache.ReplayGuard: needs each nonce lookup to come less than ttl − maxAge after its window check; `ReplayGuardIff` shows why.
- BuildLock.NextInLineEnters: promise adoption may take several microtasks; the model has one turn for it, at any later time, and says nothing about fairness of the event loop.
- `buildTx` and `BatchTransactionBuilder.build` beyond their use of the lock: nothing is submitted under the lock, so two builds may get the same sequence number.
- ConnectionPool.SqlitePool.ReleaseConnection: callers release only connections they hold; SQLite itself, pragmas and closing are not modelled.
- MoneyRuns.FairOverRun: leaves out resilient distributions with a failed transfer, which did not pay their list in full; `PayoutEffects.ResilientEffect` says what each of them pays.
- The warming scheduler, access counts and the clearing function for unit tests.
- KeysetPaging.OrderedSpec: the query is evaluated on a sequence of rows with distinct ids; text collation is any total order on timestamps, a `LIKE` pattern is the set of addresses it matches, rows have timestamps, and the joined payout count is left out.
- BenchStats.SlowdownVerdict: real numbers, so rounding, infinities, the standard deviation and the text of the reasons are left out.
- HTTP routes, GraphQL, WebSocket, webhooks, secrets, tax, KYC, notifications, the frontend and the load tests.
