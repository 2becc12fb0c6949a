# Moonkit: models and proofs

A Dafny model of the stateful core of Moonkit: the randomness pallet, the batch precompile, the author
mapping, the fixed-velocity consensus hook, the author slot filter, the window of relay storage roots, the
ERC-20 face of the balances pallet, the run-once migrations and the foreign-asset maps. Each part has

- a specification: storage as a datatype, every call and hook as a function on it, runs as sequences of
  calls, events or blocks of any length;
- the code's own form: a class whose fields are the storage items and whose methods follow the source
  statement by statement, each proved to compute its specification, error cases and loops included;
- theorems about all runs of the specification.

`dafny verify dfyconfig.toml` checks the whole project. The table below lists the theorems and the methods with
loops or control flow of their own; a method that only follows its specification is not listed.

## Reading the model

- A panic or a failed assertion rejects the block: the event is not part of a run. An error of a call rolls
  back everything the call did.
- A transfer moves exactly its amount or fails. A zero transfer and a transfer to oneself succeed and move
  nothing. Beyond the funds, the floor that must remain and the size of the balance type, the currency may
  refuse for reasons of its own; a Boolean argument `accepted` stands for that choice, and all statements hold
  for every choice.
- Hashes, signature recovery, VRF verification, the randomness source, the address mapping, subcalls and the
  bodies of migrations are function-valued parameters; nothing is assumed of them but what a lemma says.
- Constants that a runtime upgrade may change (deposits, delays, limits, velocities, migration lists) belong to the
  block or call that uses them, so that runs range over changing configurations.
- A stored bounded list that is longer than the limit of the day does not decode and reads as empty.
- Integers are unbounded; saturation, wrap-around and overflow checks of the source are written out.

## Main results

Randomness. From genesis on, a shared result exists for exactly the keys some live request waits for, with
the right count (`ResultsMatchRequests`). Neither of the two errors that the source calls bugs is met in any
state of a run exactly when every accepted request waits for something still to come or already supplied and
every inherent serves the epochs that are waited for (`RequestsAreFulfillableIff`); a local request can be
fulfilled exactly from its block on as soon as delays are not zero (`LocalRequestsAreFulfillable`), and every
request when it is due on a relay chain that advances epoch by epoch (`OrderlyRelayIsEnough`). With callbacks that
do anything between preparing and finishing, the counts stay right exactly when no request is finished that is gone
already while others wait for its key (`CallbacksKeepCountsIff`). The value a result holds is the output of its own
block or epoch (`ValuesComeFromTheirSource`); while the result lives, the value is the same throughout exactly when
no inherent reports its epoch as a new one with another value (`ValueStaysIff`), which cannot happen to a local
value at all, nor to any value while epochs do not go back (`FilledValueNeverChanges`). The pallet account always
holds the escrow of the live requests plus what failed payouts and gifts left there (`EscrowIsConserved`,
`CallbacksKeepEscrow`).

Batch. Recording a log never runs out of gas, all gas and logs are accounted for (`BatchIsAccounted`), every
index ends as the exit reason of its call says and this determines the outcome (`BatchIsExplained`), and the three
modes take the same steps up to the first failure (`ModesAgree`).

Others. `ReverseLookupsSucceed`, `HoldersStayListedIff`, `DepositsAreConserved`, `VelocityIsBounded`,
`VelocityIsBoundedIff`, `ThroughputIsBoundedIff`, `PredictorAgreesIff`, `DrawsPermute`, `SubsetIffDrawn`,
`CanAuthorMonotone`, `RunIsConsistentIff`, `ChangingLimitsIff`, `WindowIsMostRecent`, `AllowanceIsAccounted`,
`BalancesAreAccounted`, `PermitsUseConsecutiveNonces`, `PermitCannotBeReplayed`, `MigrationsRunOnce`,
`WeightIsRespectedIff`, `ConvertRoundTrips`, `MapsStayInverseIff`.

Where the code does less than its comments say, the model follows the code and states exactly when the promise is
kept, beside the inputs on which it is not:

- The error for a result that is not filled can be met: the pallet does not check the epoch of a request
  (`LateEpochRequestHitsNotFilled`), and an inherent may skip an epoch that is waited for
  (`SkippedEpochHitsNotFilled`, `InherentKeepsDueFilledIff`); `RequestsAreFulfillableIff` is the condition on whole
  runs. The error for a missing result can be met when a request is finished twice (`DoubleFinishLosesTheResult`);
  `FinishKeepsCountedIff` says exactly which arguments are safe, `CountsStayRightIff` on which runs.
- A value that was supplied can be replaced if the relay epoch goes back (`EpochRollbackOverwrites`); by which
  events, and on which runs it is not, say `NextChangesValueIff` and `ValueStaysIff`.
- An expired request is purged only if its payout leaves the existential deposit in the pallet account, so the
  last request of an account without surplus cannot be purged (`LastRequestCannotBePurged`,
  `ExpirationSucceedsIff`). Without an existential deposit a request can be credited with more than it
  paid (`SaturatedRequestIsUnderfunded`).
- Genesis of the author mapping does not check for taken ids (`DuplicateGenesisIsUnsound`); which lists of
  entries are harmless say `GenesisIsSoundIff` and `GenesisIsBackedIff`.
- `rm_keys` takes an account's only reverse entry away even if the account holds another id. The account then
  cannot remove its keys, and `set_keys` takes a second deposit although no new one is said to be required
  (`SecondDepositIsTaken`); `StepKeepsListedIff` and `HoldersStayListedIff` say exactly when that does not happen.
- The count of blocks in a slot wraps if the velocity is the largest 32-bit number, and no bound is left
  (`AllCopiesAreAccepted`, `VelocityIsBoundedIff`); the predictor, which adds one to the velocity, wraps there as well
  (`PredictorAgreesIff`).
- `can_build_upon` refuses an empty segment when the capacity is configured as zero
  (`EmptySegmentExtendsIff`).
- With the largest 32-bit limit, a full window of relay roots would lose its newest key, and a decreased limit
  strands the roots stored before it (`DecreasedLimitStrandsRoots`). `SetKeepsConsistentIff`,
  `RunIsConsistentIff` and `ChangingLimitsIff` are the conditions for one block, one limit and changing limits.
- The weight left for a migration is checked in one of two dimensions; a migration that overruns its proof
  size makes the next grant wrap around (`GrantIsRightIff`, `OverrunInflatesNextGrant`). All is well exactly
  when the sum of what was consumed fits (`WeightIsRespectedIff`), for one when each migration keeps to its own
  grant (`WeightIsRespected`).
- A foreign asset that is already associated leaves the two maps no longer inverse to each other
  (`ReuseBreaksInverse`, `StepKeepsInverseIff`, `MapsStayInverseIff`).

## Model

| member | source | states |
|---|---|---|
| RandomWords.ComputeRandomWords | pallets/randomness/src/types.rs:221-237 | the loop over one reused buffer returns exactly `num_words` words, word i being the hash of randomness, salt and i |
| RandomWords.PreimagesDistinct | pallets/randomness/src/types.rs:228-231 | two hashed byte strings for one value are equal exactly when salt and index are |
| RandomnessVrf.ScanDigest | pallets/randomness/src/vrf.rs:54-93 | the scan succeeds exactly when the first VRF item decodes and follows an author item with a key, and returns that item with the key of the last author before it |
| RandomnessCounting.WaitingBounded | pallets/randomness/src/lib.rs:376-379 | no more requests wait for a key than were ever made |
| RandomnessCounting.AcquireKeepsCounted | pallets/randomness/src/lib.rs:387-399 | a new request adds one to its own key's count only, and the 64-bit increment does not saturate |
| RandomnessCounting.ReleaseKeepsCounted | pallets/randomness/src/lib.rs:448-454 | a live request takes exactly its own contribution away, and the result with the last one |
| RandomnessCounting.SameKeyKeepsCounted | pallets/randomness/src/lib.rs:434-437 | rewriting a request under the same key leaves all counts right |
| RandomnessCounting.FillKeepsCounted | pallets/randomness/src/vrf.rs:48-51 | supplying a value changes no count |
| RandomnessCounting.FinishKeepsCountedIff | pallets/randomness/src/lib.rs:409-427 | for any id and request handed in, counts stay right exactly when the id is live with the same key, or there is nothing to release |
| RandomnessCounting.ApplyKeepsCounted | pallets/randomness/src/lib.rs:364-457 | every call keeps all counts right |
| RandomnessCounting.RunKeepsCounted | pallets/randomness/src/lib.rs:222-227 | every run keeps all counts right |
| RandomnessCounting.ResultsMatchRequests | pallets/randomness/src/types.rs:89-119 | in every reachable state results exist for exactly the awaited keys, counts are the numbers of waiting requests, ids are below the counter, and the increment is exact |
| RandomnessCounting.IdsNeverReturn | pallets/randomness/src/lib.rs:196-199 | a request that is gone stays gone on every run |
| RandomnessCounting.DoubleFinishLosesTheResult | pallets/randomness/src/lib.rs:410 | finishing a request twice makes another one of the same key meet RandomnessResultDNE |
| RandomnessCallbacks.CountsStayRightIff | pallets/randomness/src/lib.rs:409-427 | with arbitrary arguments, counts are right throughout a run exactly when every finished request is live with its key or has nothing to release |
| RandomnessCallbacks.LiveRequestIsKept | pallets/randomness/src/lib.rs:429-440 | a request live at two points of such a run is the same at both, but for a fee that may have been raised |
| RandomnessCallbacks.CallbacksKeepCountsIff | pallets/randomness/src/lib.rs:404-427 | if finished requests are handed back as they were stored, whatever happens in between, counts are right throughout exactly when none is finished that is gone while others wait for its key |
| RandomnessFilling.ApplyResults | pallets/randomness/src/lib.rs:388-395 | the only ways a call can add a result or change a value |
| RandomnessFilling.RequestKeepsDueFilledIff | pallets/randomness/src/types.rs:183-207 | an accepted request leaves everything due filled exactly when its key is still to come or already filled |
| RandomnessFilling.InherentKeepsDueFilledIff | pallets/randomness/src/lib.rs:243-268 | for any epoch, also a lower one: the inherent leaves everything due filled exactly when no unfilled epoch is skipped and an awaited value is there |
| RandomnessFilling.LateEpochRequestHitsNotFilled | pallets/randomness/src/types.rs:208-220 | a request for a past or current epoch meets RandomnessResultNotFilled exactly when the value is not held already |
| RandomnessExamples.SkippedEpochHitsNotFilled | pallets/randomness/src/types.rs:208-220 | a run from genesis whose relay chain skips an awaited epoch meets RandomnessResultNotFilled |
| RandomnessFilling.NextKeepsDueFilledIff | pallets/randomness/src/lib.rs:243-320 | one event of any kind leaves everything due filled exactly when it is not a request for something due and unfilled, nor an inherent that fails an awaited epoch |
| RandomnessFilling.DueFilledThroughoutIff | pallets/randomness/src/lib.rs:404-408 | everything due is filled in every state of a run exactly when every event meets its condition |
| RandomnessFilling.RequestsAreFulfillableIff | pallets/randomness/src/types.rs:208-220 | in all states of a run every live request can be prepared exactly when due, if and only if every accepted request and every inherent meets its condition |
| RandomnessValues.EpochRollbackOverwrites | pallets/randomness/src/lib.rs:245-265 | an epoch that goes back and forth replaces a supplied value |
| RandomnessValues.NextChangesValueIff | pallets/randomness/src/lib.rs:245-265 | a held value changes exactly by an inherent that reports its epoch, above the stored one, with another value |
| RandomnessValues.ValueStaysIff | pallets/randomness/src/lib.rs:245-265 | over any stretch of any run in which a result lives, its value stays the same exactly when no event replaces it |
| RandomnessFilling.RunKeepsReady | pallets/randomness/src/vrf.rs:38-52 | on every run local results are filled exactly from their block on |
| RandomnessValues.RunKeepsBabeNotEarly | pallets/randomness/src/lib.rs:247-264 | with monotone epochs no epoch result is filled early |
| RandomnessValues.RunKeepsLocalNotEarly | pallets/randomness/src/vrf.rs:45-51 | on every run, whatever the delays, no local result is filled before its block |
| RandomnessFilling.LocalRequestsAreFulfillable | pallets/randomness/src/types.rs:208-238 | in every state of every run with real delays, a live local request yields its stored data and words exactly from its block on |
| RandomnessFilling.AllRequestsAreFulfillable | pallets/randomness/src/lib.rs:404-408 | with non-zero delays and inherents that serve the awaited epochs, wherever the relay epoch starts or jumps, every live request can be prepared exactly when it is due |
| RandomnessFilling.OrderlyRelayIsEnough | pallets/randomness/src/lib.rs:243-268 | the same if epochs advance by at most one, with a value, once somebody waits for one, and requests are for later epochs |
| RandomnessValues.FilledValueNeverChanges | pallets/randomness/src/vrf.rs:45-51 | while its result lives, a local value never changes on any run, and no value does while epochs do not go back |
| RandomnessValues.ValuesComeFromTheirSource | pallets/randomness/src/vrf.rs:35-52 | every value held for a key is the output of that block, or the randomness reported for that epoch |
| RandomnessRuns.BlocksOpenOnce | pallets/randomness/src/vrf.rs:46-47 | block numbers opened in a run strictly increase, so a block has one output |
| RandomnessRuns.SeedIsPreviousOutput | pallets/randomness/src/lib.rs:309-320 | between blocks the seed for pseudo-randomness is the output the next author must build on |
| RandomnessRuns.RequestsMeetTheirConfiguration | pallets/randomness/src/types.rs:331-339 | every live request was made by an accepted event of the run: contract, refund address, salt, words and expiry are those asked for, the fee is at least that, and words and deposit are as the configuration in force at that event prescribes |
| RandomnessRuns.RequestsAreMadeOnce | pallets/randomness/src/lib.rs:376-379 | only one event of a run made the request of an id |
| RandomnessEscrow.RequestAcceptedIff | pallets/randomness/src/lib.rs:364-401 | exactly which requests are accepted, and what is stored and paid for them |
| RandomnessEscrow.RequestKeepsSurplusIff | pallets/randomness/src/lib.rs:373-386 | a request is backed by its payment exactly when it is an outsider's and its sum fits, or is zero |
| RandomnessEscrow.AcceptedRequestDoesNotSaturate | pallets/randomness/src/lib.rs:373 | with an existential deposit the sum of an accepted request never saturates |
| RandomnessEscrow.SaturatedRequestIsUnderfunded | pallets/randomness/src/lib.rs:373-386 | without one it can, and the account is one short |
| RandomnessEscrow.IncreaseFeeKeepsSurplus | pallets/randomness/src/types.rs:352-370 | an increase is paid for in full, unless by the pallet account itself |
| RandomnessEscrow.FinishFulfillSettles | pallets/randomness/src/types.rs:265-304 | the payouts of a fulfilment add up to the escrow, or to the cost if that is more, and all balances move by what was really paid |
| RandomnessEscrow.FulfillmentPays | pallets/randomness/src/types.rs:280-303 | excess to the refund address and cost to the caller, both to one address, or all to the caller when the cost exceeds the escrow; each paid exactly when the currency makes it possible at that point |
| RandomnessEscrow.FinishSurplus | pallets/randomness/src/lib.rs:409-427 | what any id and request handed in do to the surplus |
| RandomnessEscrow.FulfillmentSurplus | pallets/randomness/src/types.rs:280-303 | with what is stored, the surplus grows by retained payouts and shrinks by uncovered cost, and nothing else |
| RandomnessEscrow.ExpirationSurplus | pallets/randomness/src/types.rs:373-401 | a successful expiry pays out the escrow except for what the account pays to itself |
| RandomnessEscrow.ExpirationPays | pallets/randomness/src/types.rs:376-399 | the contract gets the deposit, the caller the fee, nobody else anything |
| RandomnessEscrow.ExpirationSucceedsIff | pallets/randomness/src/types.rs:373-401 | an expired request of outsiders is paid back exactly when the account keeps its existential deposit; always so with that much surplus |
| RandomnessExamples.LastRequestCannotBePurged | pallets/randomness/src/types.rs:373-401 | a run from genesis after which an expired request cannot be purged by anybody |
| RandomnessEscrow.ApplySurplus | pallets/randomness/src/lib.rs:362-457 | every fair call changes the surplus by exactly what it leaves behind, and conserves issuance |
| RandomnessEscrow.EscrowIsConserved | pallets/randomness/src/lib.rs:353-358 | in every state of every fair run the account has gained the live escrows plus what was left behind; it is solvent and no escrow overflows |
| RandomnessCallbacks.CallbacksKeepEscrow | pallets/randomness/src/lib.rs:404-440 | the same with callbacks between preparing and finishing that may also raise the fee of the request, as long as it is still live when it is finished |
| RandomnessPallet.Pallet.RequestRandomness | pallets/randomness/src/lib.rs:364-401 | the new state and id of the specification, or its error and no change |
| RandomnessPallet.Pallet.PrepareFulfillment | pallets/randomness/src/types.rs:208-238 | the arguments of the callback, or the first error that applies |
| RandomnessPallet.Pallet.FinishFulfill | pallets/randomness/src/types.rs:265-304 | the ledger after the payouts, failed ones skipped |
| RandomnessPallet.Pallet.ExecuteExpiration | pallets/randomness/src/types.rs:373-401 | both transfers or none |
| RandomnessPallet.Pallet.ExecuteRequestExpiration | pallets/randomness/src/lib.rs:444-457 | the new state, or the error and no change |
| RandomnessPallet.Pallet.OnInitialize | pallets/randomness/src/lib.rs:297-308 | valid exactly for a first block or a digest whose selected output verifies, with the selected author's key, over the last output; then the state with that output |
| RandomnessAnswers.RequestAnswers | pallets/randomness/src/lib.rs:364-401 | the first error that applies, in order, or the stored request with its expiry, the payment, and no other change |
| RandomnessAnswers.IncreaseFeeAnswers | pallets/randomness/src/types.rs:352-370 | only the requesting contract raises the fee, by exactly what it pays; the first error that applies otherwise |
| RandomnessAnswers.PreparationAnswers | pallets/randomness/src/types.rs:208-238 | the first error that applies, or the stored request and deposit with num_words words, each the hash of value, salt and index |
| RandomnessAnswers.ExpirationAnswers | pallets/randomness/src/types.rs:170-175 | a local request has not expired exactly before its expiry block, an epoch request before its expiry epoch; then both payments or an error, and exactly that request is gone |
| RandomnessAnswers.RequestsExpireAsConfigured | pallets/randomness/src/types.rs:48-62 | on every run a live request is too early to purge exactly before the block or epoch of its making plus the delay of the configuration then in force |
| RandomnessAnswers.CallsTakeEffect | pallets/randomness/src/lib.rs:364-457 | in a block, and only there, a call takes effect if it succeeds and changes nothing if it fails |
| RandomnessAnswers.InherentEffect | pallets/randomness/src/lib.rs:243-268 | the inherent notes epoch and itself, and gives the value to the results of a new epoch only |
| RandomnessAnswers.BeginEffect | pallets/randomness/src/lib.rs:297-308 | a block opens after the last was closed; the output goes to this block's results, and the first block has none |
| RandomnessAnswers.EndEffect | pallets/randomness/src/lib.rs:309-320 | a block closes exactly with inherent and output, which becomes the seed |
| RandomnessAnswers.ClosedBlocksHaveTheInherent | pallets/randomness/src/lib.rs:309-314 | on every run, every closed block contains the mandatory inherent |
| Ledger.TransferConserves | pallets/randomness/src/lib.rs:380-386 | a transfer conserves issuance, moves the amount, and leaves others alone |
| Ledger.TransferIff | pallets/randomness/src/lib.rs:380-386 | exactly when a transfer is made, and what it does to every balance |
| Batch.PrecompileHandle.InnerBatch | precompiles/batch/src/lib.rs:115-282 | result and final gas, logs and world of the loop, for all three modes |
| BatchProperties.CallIsFunded | precompiles/batch/src/lib.rs:123-234 | missing values, data and limits are zero, empty and none; a call is made exactly when log, call cost and limit fit; it gets its limit or all that is not reserved, the right caller, target, value and data, and the current world |
| BatchProperties.CallLeavesLogCost | precompiles/batch/src/lib.rs:166-185 | after every metered call the reserved log can still be paid for |
| BatchProperties.RunFromAccounted | precompiles/batch/src/lib.rs:143-281 | gas, logs, order and reason to stop, from any index on |
| BatchProperties.BatchIsAccounted | precompiles/batch/src/lib.rs:236-250 | no log runs out of gas; lenient modes fail only on a fatal exit; all gas is accounted for; indices are dealt with once each in order; success stops only at the end, for lack of log gas, or at the failure; without a fatal exit the k-th new log names index k with its verdict |
| BatchProperties.LogsNameIndices | precompiles/batch/src/lib.rs:238-250 | log k names index k with its verdict |
| BatchProperties.ExplanationsAgree | precompiles/batch/src/lib.rs:143-281 | there is only one such outcome |
| BatchProperties.BatchIsExplained | precompiles/batch/src/lib.rs:143-281 | an outcome is the batch's exactly when every index ended as the exit reason of its call says, on the state the one before left, with that log and world, the mode was obeyed, and the report is the code and output of the call that stopped it |
| BatchProperties.ModesFrom | precompiles/batch/src/lib.rs:143-281 | the relation of the modes from any index and state |
| BatchProperties.FirstFailureIsFirst | precompiles/batch/src/lib.rs:252-278 | the position at which a batch is cut is that of the first failed index |
| BatchProperties.ModesAgree | precompiles/batch/src/lib.rs:252-278 | UntilFailure is Some, or Some cut just after its first failed index; All takes the same steps and reports success exactly when Some deals with every index and none failed, and then all three are equal |
| BatchProperties.PaddingIsInvisible | precompiles/batch/src/lib.rs:123-148 | batches that agree after padding have the same outcome |
| AuthorMapping.EnactKeepsSoundIff | pallets/author-mapping/src/lib.rs:299-319 | enacting keeps the reverse map right exactly when it takes no id from a holder known by it |
| AuthorMapping.GenesisMirrors | pallets/author-mapping/src/lib.rs:343-354 | after genesis an account is known by its last accepted id, and an id is registered with account, deposit and keys of its last accepted entry |
| AuthorMapping.GenesisIsSoundIff | pallets/author-mapping/src/lib.rs:343-354 | genesis leaves a right reverse map exactly when no account loses the id it was last entered under to a later accepted entry |
| AuthorMapping.DistinctIdsAreKept | pallets/author-mapping/src/lib.rs:343-354 | distinct ids are enough for that |
| AuthorMapping.DuplicateGenesisIsUnsound | pallets/author-mapping/src/lib.rs:343-354 | two entries for one id do not |
| AuthorMapping.RunKeepsSound | pallets/author-mapping/src/lib.rs:329-333 | every run keeps the reverse map right |
| AuthorMapping.ReverseLookupsSucceed | pallets/author-mapping/src/lib.rs:192-220 | in every reachable state `remove_keys` works exactly for accounts with an entry, and `set_keys` never meets a missing or foreign registration |
| AuthorMapping.StepKeepsListedIff | pallets/author-mapping/src/lib.rs:224-244 | a call keeps a reverse entry for every holder exactly when it does not remove one of several ids of an account |
| AuthorMapping.RunKeepsListedIff | pallets/author-mapping/src/lib.rs:329-333 | every holder has a reverse entry throughout a run exactly when no call removes one of several ids of an account |
| AuthorMapping.HoldersStayListedIff | pallets/author-mapping/src/lib.rs:329-354 | the same from any genesis on |
| AuthorMapping.OrphanPaysAgain | pallets/author-mapping/src/lib.rs:192-220 | an account without a reverse entry cannot remove its keys, and a `set_keys` of it reserves a deposit |
| AuthorMapping.SecondDepositIsTaken | pallets/author-mapping/src/lib.rs:200-220 | an account that registered two ids and cleared one pays a second deposit in `set_keys` |
| AuthorMapping.SetKeysTakesEffect | pallets/author-mapping/src/lib.rs:207-220 | an accepted `set_keys` makes id and keys the account's own, keeps the deposit, and touches nobody else |
| AuthorMapping.CallAnswers | pallets/author-mapping/src/lib.rs:138-221 | for every call the first error that applies, or the whole new maps and balances; calls without keys use those of the id they register |
| AuthorMapping.EnactKeepsBackedIff | pallets/author-mapping/src/lib.rs:299-319 | enacting never leaves a reserve below the deposits, and keeps them equal exactly when it overwrites no deposit |
| AuthorMapping.RotateKeepsPledged | pallets/author-mapping/src/lib.rs:263-298 | a rotation changes no account's deposits or balances |
| AuthorMapping.ClearFreesTheDeposit | pallets/author-mapping/src/lib.rs:224-244 | clearing works exactly for the owner and frees exactly the stored deposit |
| AuthorMapping.StepKeepsBacked | pallets/author-mapping/src/lib.rs:138-221 | every call keeps reserves equal to deposits |
| AuthorMapping.GenesisIsBackedIff | pallets/author-mapping/src/lib.rs:343-354 | genesis leaves reserves equal to deposits exactly when no accepted entry with a deposit is overwritten by a later one |
| AuthorMapping.DepositsAreConserved | pallets/author-mapping/src/lib.rs:224-319 | in every reachable state each account's reserve is its initial reserve plus its deposits, with changing deposit amounts |
| AuthorMappingPallet.Pallet.constructor | pallets/author-mapping/src/lib.rs:343-354 | the genesis loop, failed entries skipped |
| AuthorMappingPallet.Pallet.RotateKeys | pallets/author-mapping/src/lib.rs:263-298 | the new state, or the error and no change |
| AuthorMappingPallet.Pallet.RmKeys | pallets/author-mapping/src/lib.rs:224-244 | the new state, or the error and no change |
| AuthorMappingPallet.Pallet.SetKeys | pallets/author-mapping/src/lib.rs:207-220 | the new state, or the error and no change |
| AsyncBacking.AcceptKeepsTracking | pallets/async-backing/src/consensus_hook.rs:94-143 | a block accepted by the hook, whatever else it must pass, keeps slot order, latest slot and count |
| AsyncBacking.HookAcceptsIff | pallets/async-backing/src/consensus_hook.rs:94-143 | exactly when a block is accepted, for both slot sources, in terms of stored slot, count, velocity and slot quotients; a parachain slot must be the quotient of its provider |
| AsyncBacking.AcceptedWereProposed | pallets/async-backing/src/lib.rs:61-75 | every accepted block passed its checks, and its parachain slot is the one the relay slot stands for |
| AsyncBacking.SlotsAreTracked | pallets/async-backing/src/consensus_hook.rs:98-121 | whatever is proposed, checked and configured, accepted slots never decrease and the stored info is the latest slot with the number of its blocks, in 32 bits |
| AsyncBacking.VelocityIsBounded | pallets/async-backing/src/consensus_hook.rs:98-121 | for the hook alone or with any further check, under configurations that change from block to block: no block comes when its slot has the share of that block's configuration, max(V,1)+1 or one, and the stored count is exact |
| AsyncBacking.SlotWithinShare | pallets/async-backing/src/consensus_hook.rs:112-121 | no slot has more blocks than the largest share its blocks were granted |
| AsyncBacking.AllCopiesAreAccepted | pallets/async-backing/src/consensus_hook.rs:112-121 | otherwise any number of copies of one block is accepted |
| AsyncBacking.VelocityIsBoundedIff | pallets/async-backing/src/consensus_hook.rs:112-121 | for all checks and blocks no slot exceeds its share exactly when V is not u32::MAX, or one block per slot is allowed, or the slot duration is zero |
| AsyncBacking.ThroughputIsBounded | pallets/async-backing/src/lib.rs:156-176 | with the timestamp check and one slot duration, blocks with timestamps in an interval are at most the slots it touches times the largest share |
| AsyncBacking.ThroughputIsBoundedIff | pallets/async-backing/src/lib.rs:156-176 | the same condition decides whether intervals are bounded |
| AsyncBacking.PredictorAgreesIff | pallets/async-backing/src/consensus_hook.rs:175-198 | predictor and hook agree on all states and slots exactly when the capacity is zero, or slots are no longer than relay slots and several blocks per slot are allowed just if V is not u32::MAX |
| AsyncBacking.PredictorSaysYesIff | pallets/async-backing/src/consensus_hook.rs:175-198 | exactly when the predictor says yes |
| AsyncBacking.EmptySegmentExtendsIff | pallets/async-backing/src/consensus_hook.rs:172-188 | an empty segment extends in all later slots exactly when the capacity is not zero |
| AsyncBacking.Hook.OnStateProof | pallets/async-backing/src/consensus_hook.rs:94-155 | the new slot info and the capacity max(C,1), or a panic without effect |
| AsyncBacking.Hook.Propose | pallets/async-backing/src/lib.rs:156-176 | a block is accepted exactly when hook and timestamp check pass |
| SlotFilter.ComputePseudoRandomSubset | pallets/author-slot-filter/src/lib.rs:103-143 | the in-place selection loop: min(count, n) authors, each the one that the randomness of its step picks among those left; both sides a permutation of the input |
| SlotFilter.SubsetIffDrawn | pallets/author-slot-filter/src/lib.rs:114-142 | a split is the selection exactly when draw i took position u mod m of the m left in order, u being the first four bytes, little-endian, of the randomness for "filter", index and seed |
| SlotFilter.DrawsPermute | pallets/author-slot-filter/src/lib.rs:135-142 | after any number of draws both sides are a permutation of the input |
| SlotFilter.IneligibleKeepOrder | pallets/author-slot-filter/src/lib.rs:140 | those not drawn keep their order |
| SlotFilter.DrawsExtend | pallets/author-slot-filter/src/lib.rs:114-141 | the list for a smaller count is a prefix of the list for a larger one |
| SlotFilter.CanAuthorMonotone | pallets/author-slot-filter/src/lib.rs:150-170 | raising the count never removes eligibility |
| SlotFilter.CanAuthorBounds | pallets/author-slot-filter/src/lib.rs:150-169 | only potential authors are eligible, all of them when the count covers them, and everybody with the fake switch |
| RelayRoots.Pallet.Set | pallets/relay-storage-roots/src/lib.rs:108-132 | the new map and keys |
| RelayRoots.SetEffect | pallets/relay-storage-roots/src/lib.rs:112-131 | for any window and limit, what is added, evicted, kept and cut |
| RelayRoots.SetKeepsConsistentIff | pallets/relay-storage-roots/src/lib.rs:112-131 | under any limit, keys stay duplicate-free, equal to the map's domain and within it exactly when the stored keys respect it and one more can be counted; then they are never cut |
| RelayRoots.RunIsConsistentIff | pallets/relay-storage-roots/src/lib.rs:95-104 | under one limit, keys and map are in step after a history exactly when the limit is not the largest 32-bit number or the history mentions no more numbers than that |
| RelayRoots.ChangingLimitsIff | pallets/relay-storage-roots/src/lib.rs:45-50 | with a limit per block, keys and map are in step after every block exactly when each block's limit admits the keys stored before it |
| RelayRoots.GrowingLimitsStayInStep | pallets/relay-storage-roots/src/lib.rs:45-50 | limits that never decrease keep keys and map in step |
| RelayRoots.DecreasedLimitStrandsRoots | pallets/relay-storage-roots/src/lib.rs:117-131 | a limit below the number of stored keys leaves roots that no key knows of |
| RelayRoots.NumbersIncrease | pallets/relay-storage-roots/src/lib.rs:111-114 | the distinct numbers of a history without steps back are strictly increasing |
| RelayRoots.WindowIsMostRecent | pallets/relay-storage-roots/src/lib.rs:108-132 | the keys are the latest distinct numbers, at most MaxStorageRoots, each with the root first seen for it |
| RelayRoots.WindowHoldsTheLatest | pallets/relay-storage-roots/src/lib.rs:45-50 | keys are sorted, and only older numbers are missing, only from a full window |
| Erc20.StepAllowance | precompiles/balances-erc20/src/lib.rs:243-377 | what every operation does to every allowance |
| Erc20.AllowanceIsAccounted | precompiles/balances-erc20/src/lib.rs:337-352 | over any interleaving, allowance plus what was spent since the last grant is the granted value, or the largest balance |
| Erc20.TransferFromIff | precompiles/balances-erc20/src/lib.rs:314-377 | the first error that applies, or the value goes from owner to receiver, the allowance of another spender shrinks by it, and nothing else changes |
| Erc20.ApproveEffect | precompiles/balances-erc20/src/lib.rs:243-275 | the allowance of that pair is the value, saturated, and nothing else changes |
| Erc20.TransferToIff | precompiles/balances-erc20/src/lib.rs:278-311 | the first error that applies, or the value goes from the caller to the receiver, and no allowance or nonce changes |
| Erc20.BalancesAreAccounted | precompiles/balances-erc20/src/lib.rs:278-377 | over any interleaving an account holds what it had less what was sent from it plus what was sent to it, and nothing is minted or burnt |
| Erc20.PermitsUseConsecutiveNonces | precompiles/balances-erc20/src/eip2612.rs:112-144 | the accepted permits of an owner are its signatures over consecutive nonces, each within its deadline |
| Erc20.PermitIff | precompiles/balances-erc20/src/eip2612.rs:96-166 | accepted exactly until the deadline, with the owner's signature over the next nonce; sets that allowance, uses that nonce, nothing else |
| Erc20.PermitCannotBeReplayed | precompiles/balances-erc20/src/eip2612.rs:96-166 | a permit whose signature fits one nonce is accepted at most once, at whatever later time it comes again |
| Erc20.Precompile.TransferBalanceFrom | precompiles/balances-erc20/src/lib.rs:314-377 | the new allowance and balances, or the error and no change |
| Erc20.Precompile.RedeemPermit | precompiles/balances-erc20/src/eip2612.rs:96-166 | the new nonce and allowance, or the error and no change |
| Migrations.PerformRunsOnce | pallets/migrations/src/lib.rs:325-377 | in one upgrade only undone names run, once each, and all listed names are done |
| Migrations.PerformDone | pallets/migrations/src/lib.rs:325-377 | after an upgrade exactly the names done before and those listed are done |
| Migrations.PerformRunsInOrder | pallets/migrations/src/lib.rs:335-377 | what runs is what is not marked as done, in list order, each granted what the ones before left and charged with what it reports for that grant |
| Migrations.MigrationsRunOnce | pallets/migrations/src/lib.rs:132-162 | over any upgrades with any lists no name runs twice or after it was done, and all listed names are done after each |
| Migrations.GenesisMigrationsNeverRun | pallets/migrations/src/lib.rs:313-322 | what is listed at genesis never runs |
| Migrations.MarkAllMarksOnly | pallets/migrations/src/lib.rs:311-323 | genesis marks exactly what it lists |
| Migrations.GrantIsRightIff | pallets/migrations/src/lib.rs:342-352 | a grant is what is left exactly when the proof size used fits; else it exceeds everything available |
| Migrations.WeightIsRespected | pallets/migrations/src/lib.rs:340-375 | if each migration that ran consumed at most what it was granted, the total is exact and within the available weight in both dimensions, and no grant wrapped |
| Migrations.WeightIsRespectedIff | pallets/migrations/src/lib.rs:340-375 | that is so exactly when the plain sum of what was consumed fits the available weight |
| Migrations.OverrunInflatesNextGrant | pallets/migrations/src/lib.rs:342-352 | an overrun of proof size inflates the next grant |
| Migrations.Pallet.constructor | pallets/migrations/src/lib.rs:311-323 | the genesis loop marks every listed name |
| Migrations.Pallet.PerformRuntimeUpgrades | pallets/migrations/src/lib.rs:325-384 | the loop's new state, weight and list of what ran |
| Migrations.Pallet.OnRuntimeUpgrade | pallets/migrations/src/lib.rs:132-162 | the upgrade's new state; it claims the whole block and raises the pause flag |
| Migrations.Pallet.ExecuteBlock | pallets/migrations/src/lib.rs:127-185 | a block suspends and resumes exactly when it carries an upgrade |
| ForeignAssets.StepKeepsSound | pallets/foreign-asset-creator/src/lib.rs:209-329 | every call keeps `convert` undone by `convert_back` |
| ForeignAssets.CallAnswers | pallets/foreign-asset-creator/src/lib.rs:214-328 | for every call its error, or where both conversions lead afterwards and that all else stays |
| ForeignAssets.StepKeepsInverseIff | pallets/foreign-asset-creator/src/lib.rs:214-274 | an accepted call keeps the maps inverse exactly when it brings in no associated asset |
| ForeignAssets.ReuseBreaksInverse | pallets/foreign-asset-creator/src/lib.rs:214-274 | two short runs on which an associated asset is brought in and `convert` no longer leads back |
| ForeignAssets.ConvertRoundTrips | pallets/foreign-asset-creator/src/lib.rs:331-338 | on every run `convert(f) = Some(id)` implies `convert_back(id) = Some(f)` |
| ForeignAssets.MapsStayInverseIff | pallets/foreign-asset-creator/src/lib.rs:154-168 | the maps are inverse throughout a run exactly when no accepted call brings in an associated asset |
| ForeignAssets.InverseConverts | pallets/foreign-asset-creator/src/lib.rs:331-338 | the maps are inverse exactly when `convert` and `convert_back` undo each other |
| ForeignAssets.Pallet.Build | pallets/foreign-asset-creator/src/lib.rs:183-207 | genesis succeeds exactly when every listed asset is accepted with a new id, and is then a run of creations; a failed one leaves nothing |
| ForeignAssets.Pallet.ChangeExistingAssetType | pallets/foreign-asset-creator/src/lib.rs:252-274 | the new maps, with the removal of the previous asset after both insertions, or the error and no change |

## Left out

- Cryptography: VRF verification, hashing and key recovery are parameters; their security is not modelled.
- Solvency when a request is finished that is gone already: `FinishSurplus` says what each such call costs the
  account, and `CallbacksKeepEscrow` is about runs without one.
- Dust removal, locks and holds of the balances pallet, except as refusals of the currency.
- Reserves that other pallets hold for the same account: `DepositsAreConserved` takes the initial reserve as fixed.
- Events, weights, benchmarks, storage hashing, codecs, and gas metering outside the batch precompile.
- `deposit`, `withdraw` and the metadata calls of the ERC-20 precompile, and the byte layout of its permit digest.
- `set_relay_parent_offset`, the storage migrations of the slot filter and the try-runtime hooks: single writes or checks.
- The other precompiles and pallets, the client and the template node and runtime.
- Debug-mode overflow panics: 32-bit and 64-bit arithmetic that the source leaves unchecked wraps around.
