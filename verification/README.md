# Endure validator: verified model

Endure scores miners' market forecasts in commit-reveal rounds, turns the scores into a vote of 16-bit weights, and
submits that vote to the chain under a durable, single-flight record. This project models the parts of the validator
and miner whose guarantees are stated in prose or relied on silently, and proves them.

| module | models |
|---|---|
| `WeightProcessing`, `WeightRounding`, `ChainWeights`, `WeightCap` | scores to chain weights to the encoded vote, pools rounded by largest remainder, weights cut at the chain's limit |
| `BurnCommitment`, `EmissionPolicy`, `EmissionPlans`, `EmissionSafety` | the published burn rate, the planned vote, and the rechecks it must pass |
| `Weights`, `PoolJoiners`, `Duplicates` | identical-forecast pools: who shares one, how it is levelled to its best member, and whom joining pays |
| `Cr4Schedule` | the epoch schedule behind a timelocked commit's reveal deadline |
| `EmissionStore`, `EmissionRuns`, `EmissionTransactions`, `EmissionEvidence` | the durable batches, their transactions, all runs of them, and what a snapshot makes of one |
| `EmissionDriver`, `EmissionCalls`, `EmissionScan`, `EmissionReveals` | one attempt from preparation to outcome; one call in flight; the bounded scan for its reveal; which batches confirm |
| `Admission`, `AdmissionSafety`, `AdmissionRules`, `AdmissionHandlers` | commit and reveal handlers racing with round closure, and exactly what they admit |
| `Scoring`, `ScoringMeaning`, `ScoringSplit`, `ScoringBudget`, `RoundProgram` | scoring passes, what they are worth, budgets that split them, and the round's way to closed |
| `Consensus`, `RateGate`, `MarketSampling`, `MinerService`, `Eligibility` | weighted median, call pacing, block searches, the miner's state file, deregistration counts |
| `Wrappers`, `Sets`, `Sums`, `Sorting` | Option and Result, finite sets, sums over sequences and sets, a stable sort |

Code that works by changing state is written as classes and loops, each method proved against a function of the state
before it; the properties are then lemmas about those functions, over every input and every run.

Five results a reader of the prose would not expect:

- The recheck of a planned vote succeeds if and only if the chain's minimum and maximum are one; it never fails for
  rounding, pools or the burn (`PlannedVotePassesRecheck`).
- Budgets that split a round do not always end where one pass ends. A miner absent from the round that an early pass
  prunes, and that has no row on the round's retired coordinates, is not scored again, and misses the zero rows one pass
  gives it there (`TwoTicksLoseAMiner`). `BudgetsMatterExactly` says exactly when; a round that does not mix paying and
  retired coordinates is safe (`UnmixedTicksLoseNone`).
- Each block is read for a batch's reveal only once (`ShownOnce`), so that one reading decides (`OneReadingDecides`):
  read under another identity, even the same hotkey at another UID, the reveal is lost
  (`AnotherIdentityLosesTheReveal`).
- The deadlines stored after a submission can pass each other: the reveal deadline, from which on a batch can be given
  up, may come before the inclusion deadline (`ShorterTempoLosesOrder`). `InOrderExactly` says exactly when; from a tempo
  of 243 blocks on it never happens (`LongTempoInOrder`).
- The miner keeps an assembled submission in memory even when writing it fails, so the next tick sends one that a crash
  forgets (`FailedPersistBreaks`). `OneHashExactly` says exactly from which states one hash is kept.

Decimals are real numbers; hashes are values that only their own preimage has; the chain, the clock and the client's
replies are inputs.

## Model

| member | source | states |
|---|---|---|
| `WeightProcessing.ShareOut` | endure/scoring/weight_processing.py:193-212 | one group of the in-place rounding loop: every member gets its floor, and the members of largest remainder one of the spare units each; no other entry moves |
| `WeightProcessing.ConvertWeightsAndUidsForEmit` | endure/scoring/weight_processing.py:150-216 | the encoder with its loops computes exactly the specified vote, or the specified error |
| `WeightRounding.GroupTotal` | endure/scoring/weight_processing.py:193-221 | a group of any size gets exactly the round-half-up of its members' scaled total |
| `WeightRounding.GroupUnitRange` | endure/scoring/weight_processing.py:193-216 | each member gets its floor or one more, and a member with no remainder is never bumped |
| `WeightRounding.UnitRange` | endure/scoring/weight_processing.py:150-216 | with disjoint groups every entry, grouped or alone, is its floor or one more, and its floor when there is no remainder |
| `WeightRounding.SpareUnitsFollowRank` | endure/scoring/weight_processing.py:199-212 | a larger remainder is served first, and equal remainders in the group's own order |
| `WeightRounding.ReorderKeepsSpare` | endure/scoring/weight_processing.py:199-212 | reordering a group keeps how many of its members are bumped |
| `WeightRounding.ReorderMovesOnlyTies` | endure/scoring/weight_processing.py:199-212 | reordering a group changes the units only of members with one common remainder |
| `WeightRounding.TotalError` | endure/scoring/weight_processing.py:150-216 | the whole vote errs from the exact scaled weights by at most half a unit for each entry, however they are grouped |
| `WeightRounding.EncodedVote` | endure/scoring/weight_processing.py:150-216 | the vote's UIDs are distinct and had positive weight, its entries lie in 1..65535 with one at 65535, and dropping rounded zeros loses no other entry and no unit |
| `WeightRounding.EncodeAccepts` | endure/scoring/weight_processing.py:150-192 | non-negative weights with a positive sum always encode, and to the rounded vector scaled by their maximum |
| `WeightRounding.EncodeRefusesExactly` | endure/scoring/weight_processing.py:150-239 | which vectors are refused and why, the first fault in the source's order, and that a vector of zeros is an empty vote whatever its groups |
| `WeightProcessing.GroupPositionsDisjoint` | endure/scoring/weight_processing.py:223-239 | disjoint UID groups become disjoint position groups |
| `ChainWeights.CandidateFacts` | endure/scoring/weight_processing.py:326-336 | a candidate exists exactly when some score is positive, sums to one and keeps which entries are positive |
| `ChainWeights.CappedSum` | endure/scoring/weight_processing.py:97-147 | every branch of the maximum-weight cap returns a vector summing to one |
| `ChainWeights.UncappedAtOne` | endure/scoring/weight_processing.py:97-147 | at limit one the cap only normalizes |
| `ChainWeights.PadWeights` | endure/scoring/weight_processing.py:242-323 | the loop that fills the chain minimum builds the specified padded vector |
| `ChainWeights.ProcessWeights` | endure/scoring/weight_processing.py:242-323 | the chain transform returns exactly the specified UIDs and weights in every branch, and any weights it returns sum to one |
| `ChainWeights.ProcessedSumsToOne` | endure/scoring/weight_processing.py:242-323 | whatever the minimum, limit and quantile, a non-empty processed vector sums to one |
| `ChainWeights.ProcessedAtOne` | endure/scoring/weight_processing.py:242-323 | at chain minimum one and limit one the transform keeps exactly the positive entries, normalized |
| `WeightCap.CapMeetsLimit` | endure/scoring/weight_processing.py:97-147 | what the maximum-weight cap does at any limit: nothing where no weight is over it; else one level cuts all weights, and the level is the limit's part of what it leaves, up to the source's EPSILON of the total either way; or, where all but dust is held by fewer weights than fill the vector at the limit, uniform |
| `WeightCap.ProcessedKeepsPositive` | endure/scoring/weight_processing.py:242-323 | as emission calls it, with no excluded quantile, the transform drops no positive weight: uniform, padded or capped in exactly these cases |
| `WeightCap.PaddedAt` | endure/scoring/weight_processing.py:286-293 | a padded entry is the least weight plus the UID's own |
| `EmissionSafety.PlannedGroups` | endure/scoring/emission_policy.py:419-438 | disjoint pools become disjoint groups of UIDs inside the metagraph that avoid every withheld UID |
| `EmissionSafety.BurnVector` | endure/scoring/emission_policy.py:265-290 | the owner burn gives the owner exactly the published rate of a total of one, and pays besides it only UIDs that earned |
| `EmissionSafety.VoteNetworkVector` | endure/scoring/emission_policy.py:441-459 | for every score vector and rate the routed vector is a candidate, holds exactly the routed rate for the owner, and pays besides it only UIDs that earned |
| `BurnCommitment.PublishedRateExactly` | endure/scoring/emission_policy.py:219-262 | a rate short of the whole vote is parsed from exactly one text, the one published for it; every other text, or none, burns all |
| `BurnCommitment.PublishedExample` | tests/scripts/test_set_burn_rate.py:104-104 | the text the repository's own test publishes for 9800 basis points |
| `EmissionPlans.PlannedRateExactly` | endure/scoring/emission_policy.py:193-216 | a routed plan burns a rate short of the whole vote exactly when some UID that is neither the owner nor of its coldkey scored, and the owner's commitment is the text of that rate |
| `EmissionPlans.PlannedVectorExactly` | endure/scoring/emission_policy.py:265-290 | its raw vector: the owner alone at the whole vote; the scores with the withheld UIDs at nothing at rate zero; in between a sum of one, exactly the rate on the owner, and the rest in the ratio of earned scores |
| `EmissionPlans.RoutedToOwner` | endure/scoring/emission_policy.py:169-190 | a routed plan burns to the snapshot's one owner hotkey at its local UID, and withholds exactly that UID and, on a scored attempt, every UID of its coldkey |
| `EmissionPlans.WaitsExactly` | endure/scoring/emission_policy.py:365-405 | a plan waits for the owner's commitment, with nothing to send, exactly when someone earns on an owner-vote network and none was read; without a network the scores are the vector |
| `EmissionPlans.CommitmentTakenExactly` | endure/scoring/emission_policy.py:193-216 | the plan waited for is made exactly with a commitment of the owner's hotkey, read at the snapshot's block and recorded no later; any other is refused |
| `EmissionPlans.PlannedExactly` | endure/scoring/emission_policy.py:293-416 | exactly which attempts are planned at all, in the attempt's and snapshot's own fields |
| `EmissionPlans.PlannedGroupsExactly` | endure/scoring/emission_policy.py:419-438 | every pool with two or more local UIDs that may earn is handed to the encoder as those UIDs in its own order, and nothing else is |
| `EmissionSafety.ShareSurvives` | endure/scoring/emission_policy.py:640-677 | an owner share of at least one basis point never rounds away |
| `EmissionSafety.ShareDeviation` | endure/scoring/emission_policy.py:640-677 | total and entry rounding together keep the owner's share within (n+1)/(2T) of the rate, in exact integer arithmetic |
| `EmissionSafety.EncodedUnitVector` | endure/scoring/weight_processing.py:348-378 | at minimum one and limit one a candidate always encodes: distinct in-range UIDs of positive weight, entries in 1..65535, largest 65535, and the ungrouped owner's share within the bound |
| `EmissionSafety.PlannedVotePassesRecheck` | endure/scoring/emission_policy.py:293-416 | every planned owner vote, encoded from any scores, rate and disjoint pools, passes the recheck on the same facts, and does so if and only if chain minimum and limit are one; which rate and vector that is, `EmissionPlans` says |
| `EmissionPlans.RecheckAcceptsExactly` | endure/scoring/emission_policy.py:573-677 | exactly which votes the recheck accepts: the owner still at its UID, minimum and limit one, and the whole vote on the owner alone, or its unit within half a unit per UID and one of the rate of the whole and no other withheld UID paid |
| `EmissionPlans.StateAcceptedExactly` | endure/scoring/emission_policy.py:680-729 | exactly which states the submission-block recheck accepts: the planned owner keys, and for the owner and every UID voted for its prepared hotkey and its planned standing |
| `EmissionSafety.SentVotePaysOnlyEarners` | endure/scoring/emission_policy.py:680-729 | a vector both rechecks accept names, at the submission block, only hotkeys it was prepared for, none with the owner's coldkey but the owner, and the owner only under a positive burn |
| `EmissionSafety.DueFromNextEligibleBlock` | endure/scoring/emission_policy.py:538-570 | an attempt is due exactly with a permit and from the next eligible block on, the one after a whole rate limit since its last update |
| `Weights.LevelToBest` | endure/scoring/weights.py:68-83 | the scan returns each member's weight cut at the level |
| `Weights.LevelLeavesBest` | endure/scoring/weights.py:68-83 | the level is not negative, what it leaves adds up to exactly the largest weight, and order is kept |
| `Weights.LevelUnique` | endure/scoring/weights.py:68-83 | any cut that leaves the members the largest weight in total leaves each member the same |
| `Weights.JoinersPayForTheLoss` | endure/scoring/weights.py:68-83 | when hotkeys join a pool its members lose in total no more than the joiners give up |
| `PoolJoiners.NobodyGains` | endure/scoring/weights.py:41-65 | when hotkeys join a pool, no hotkey's sharpened score rises |
| `PoolJoiners.JoiningPaysOnlyAMajority` | endure/scoring/duplicates.py:26-28 | so joining a pool pays, in emission weight over all its hotkeys, only an operator that earned more than half of all of it before |
| `Weights.NormalizeWeights` | endure/scoring/weights.py:41-65 | the loops over pools and scores compute the specified weights |
| `Weights.PoolTotal` | endure/scoring/weights.py:41-65 | after levelling, a pool holds exactly its best member's sharpened score |
| `Weights.PoolBestDecides` | endure/scoring/weights.py:41-65 | a pool is worth what its best member alone would be: the other members change no outside weight and not the pool's total |
| `Weights.SplittingIsNeutral` | endure/scoring/weights.py:41-65 | splitting a hotkey into any number of equal copies sharing its pool leaves every outside weight unchanged |
| `Weights.WeightsSumToOneOrVanish` | endure/scoring/weights.py:41-65 | weights are not negative and sum to one, or are all zero |
| `Weights.PaidByCubes` | endure/scoring/weights.py:41-65 | two hotkeys in no pool are paid in the ratio of the cubes of their scores |
| `Duplicates.IdenticalForecastGroups` | endure/scoring/duplicates.py:66-78 | the groups are exactly the classes of two or more hotkeys with the same non-empty values |
| `Duplicates.DuplicatePools` | endure/scoring/duplicates.py:81-102 | the nested loops compute the pools of the oldest-group assignment |
| `Duplicates.OldestGroupDecides` | endure/scoring/duplicates.py:91-102 | a hotkey is assigned to a group if and only if that is its oldest group with two or more counted members |
| `Duplicates.PoolsAreDisjointGroups` | endure/scoring/duplicates.py:98-102 | pools hold two or more, never overlap, and each lies inside one round's group |
| `Duplicates.SurvivingAssignmentStays` | endure/scoring/duplicates.py:23-30 | with the same scored hotkeys, an assignment whose round stays in the window stays, however many newer rounds arrive |
| `Duplicates.SurvivingPoolKeepsMembers` | endure/scoring/duplicates.py:23-30 | so a pool anchored in a surviving round never loses a member |
| `Duplicates.TieOrderAgrees` | endure/scoring/duplicates.py:105-125 | with an injective digest the tie order depends only on seed and members, and is by ascending digest |
| `Duplicates.VotePoolsAreDisjoint` | endure/scoring/duplicates.py:105-125 | the ordered pools are the disjoint groups that levelling and rounding rely on |
| `Cr4Schedule.EpochStartAfterCommit` | endure/base/cr4_schedule.py:64-84 | for every positive tempo and reveal period the search returns the first block before whose coinbase the epoch index is the period past the one at the inclusion block; it never reaches the bounded-search error |
| `Cr4Schedule.Cr4RevealDeadlineBlock` | endure/base/cr4_schedule.py:87-98 | the same first block for the reveal period and one epoch more, plus the margin; an error exactly when the margin is negative, the period negative or over 100, or the tempo not positive |
| `Cr4Schedule.StartIsFirstVisible` | endure/base/cr4_schedule.py:64-84 | on the chain run block by block, the answer is the first block before whose coinbase the index read is at least so many epochs past the one read before the inclusion block's |
| `Cr4Schedule.DeadlineIsFirstVisible` | endure/base/cr4_schedule.py:87-98 | the deadline less the margin is that block and no other |
| `Cr4Schedule.NextEpochIsLeast` | endure/base/cr4_schedule.py:53-61 | for every schedule the jump lands on the least later block at which an epoch is due |
| `Cr4Schedule.JumpsAreTheRun` | endure/base/cr4_schedule.py:37-61 | jumping from epoch to epoch reaches exactly the blocks and states of a block-by-block run |
| `Cr4Schedule.NoEpochBefore` | endure/base/cr4_schedule.py:37-61 | and the block-by-block run has no further epoch before the block a jump lands on |
| `Cr4Schedule.VisibleBlockLater` | endure/base/cr4_schedule.py:72-84 | the answer is the block after the epoch's exactly when the step counter alone forces that epoch |
| `Cr4Schedule.IndexBeforeCoinbase` | endure/base/cr4_schedule.py:25-34 | the epoch index read before the inclusion block's coinbase is the index after it, less one exactly when the step counter alone forces an epoch there |
| `Cr4Schedule.ForcedEpochDeadline` | endure/base/cr4_schedule.py:64-98 | the deadline of a commit whose inclusion block runs a forced epoch: that block, plus the reveal period in tempos, plus the margin |
| `Cr4Schedule.ForcedEpochExample` | tests/base/test_cr4_schedule.py:111-125 | the repository's own forced-epoch schedule has deadline 50513 |
| `Cr4Schedule.DeadlineClosedForm` | endure/base/cr4_schedule.py:87-98 | up to the chain's largest tempo and with a step counter no older than the last epoch: first epoch, plus whole tempos, plus the margin |
| `Cr4Schedule.DeadlineNotBefore` | endure/base/cr4_schedule.py:87-98 | the deadline is at least as many full gaps after the inclusion block as the reveal period has epochs, plus the margin |
| `EmissionTransactions.Storage.RecordWeightEmission` | endure/storage/repository.py:2239-2361 | one recording: every validation and constraint, else exactly one new row |
| `EmissionTransactions.Storage.TransitionWeightEmissionAttempt` | endure/storage/repository.py:2363-2440 | only a prepared batch moves on, its deadlines only up, and only within the table's constraints |
| `EmissionTransactions.Storage.ResolveWeightEmissionConfirmations` | endure/storage/repository.py:2442-2597 | the loop over open batches decides each independently; the counts are the batches that became confirmed and unconfirmed |
| `EmissionTransactions.Storage.ResolveEach` | endure/storage/repository.py:2486-2593 | every selected batch is resolved once and no other changes |
| `EmissionTransactions.Storage.HasOpenWeightEmissionConfirmation` | endure/storage/repository.py:2599-2613 | whether some batch of the schema is prepared, submitted or ambiguous; if none is, and only then, every valid open emission of the schema is recorded |
| `EmissionTransactions.Storage.Cr4RevealScanWindow` | endure/storage/repository.py:2663-2704 | the window of the only batch that can be scanned |
| `EmissionTransactions.Storage.AdvanceCr4RevealScanCursor` | endure/storage/repository.py:2706-2728 | the cursor of an open batch moves up, never down |
| `EmissionTransactions.TheWindow` | endure/storage/tables.py:386-391 | the unique index makes the scanned batch unique |
| `EmissionStore.StepKeepsInv` | endure/storage/repository.py:2239-2597 | every transaction keeps the table constraints, one open batch a schema, and emitted only when confirmed |
| `EmissionRuns.SingleFlight` | endure/storage/tables.py:386-391 | no reachable ledger has two open batches of one schema |
| `EmissionRuns.ClosedIsFinal` | endure/storage/repository.py:2408-2440 | confirmed, unconfirmed and failed are absorbing: no later transaction changes any column of a closed batch |
| `EmissionRuns.RunFollows` | endure/storage/repository.py:2413-2436 | along every run identity, vector and intent stay, deadlines and cursor only grow, and a batch leaves prepared for good |
| `EmissionRuns.VectorMatchesExactly` | endure/storage/repository.py:2528-2538 | the vector comparison holds if and only if the chain's weights are exactly the batch's and each UID still has its hotkey |
| `EmissionRuns.ConfirmedIffEvidence` | endure/storage/repository.py:408-431 | one resolution confirms if and only if its snapshot shows identity, exact vector, exact intent, and the update or reveal in its window |
| `EmissionRuns.ConfirmedHasEvidence` | endure/storage/repository.py:2442-2597 | in every reachable ledger a confirmed batch was closed by some resolution whose snapshot is that evidence |
| `EmissionRuns.IntentStaysSealed` | endure/storage/repository.py:366-405 | an open or confirmed batch's intent hash is always that of its own stored identity and vector under the current key |
| `EmissionRuns.DirectClosesExactly` | endure/storage/repository.py:408-431 | a direct batch of this identity closes at the first resolution past its deadline or with evidence, and never otherwise |
| `EmissionRuns.ForeignClosesExactly` | endure/storage/repository.py:2499-2520 | a batch of another identity never confirms and closes exactly past both its deadlines |
| `EmissionRuns.Cr4UnconfirmedExactly` | endure/storage/repository.py:451-535 | exactly when a timelocked batch becomes unconfirmed: two candidates past the inclusion deadline, or a complete scan past the expiry with nothing pending |
| `EmissionEvidence.CandidatesCounted` | endure/storage/repository.py:467-485 | none, one or several candidates, counted over the snapshot's own commitments: this validator's, from the submission to a margin before the deadline, and of the known hash and round if one is known |
| `EmissionEvidence.Cr4ResolvedExactly` | endure/storage/repository.py:451-535 | the whole row that one resolution of a timelocked batch under its own identity leaves: unconfirmed, confirmed, the one candidate noted with its block, hash and round, or as it was |
| `EmissionEvidence.MortalCommitCounts` | endure/base/validator.py:650-668 | a commitment included while the extrinsic is mortal, 128 blocks from the submission, always counts for the stored batch, and none later than 128 blocks past the head read after sending |
| `EmissionEvidence.ScannedBatchCloses` | neurons/validator.py:1627-1672 | a batch scanned through closes at the first window turn of its identity past the reveal deadline, unless its commitment still stands on the chain |
| `EmissionDriver.DeadlinesStayInWindow` | endure/base/validator.py:768-799 | whatever head is read, the deadline stays between one and two periods after the submission and never moves before the prepared one |
| `EmissionDriver.RevealDeadlineInOrder` | endure/base/validator.py:602-648 | with tempo and reveal period as the chain has them, the schedule's deadline is after the prepared inclusion deadline |
| `EmissionDriver.InOrderExactly` | endure/base/validator.py:768-810 | after the submission the stored deadlines stay in order exactly unless the head was read, the reveal deadline was not, and the prepared one is before the inclusion deadline this head gives |
| `EmissionDriver.StoredByOutcome` | endure/base/validator.py:768-810 | every outcome that leaves the batch open stores the deadlines this speaks of |
| `EmissionDriver.LongTempoInOrder` | endure/base/validator.py:768-810 | from a tempo of 243 blocks on they always do |
| `EmissionDriver.ShorterTempoLosesOrder` | endure/base/validator.py:768-810 | and at every tempo from 128 to 242 some schedule and head lose the order |
| `EmissionDriver.AttemptRecordedIffNoneOpen` | endure/base/validator.py:485-516 | an attempt is recorded if and only if no batch of the schema is open; no deadline, number or intent check ever turns one away |
| `EmissionDriver.OutcomeAlwaysStored` | endure/base/validator.py:650-762 | whatever the chain client replies and whatever can be read after it, the outcome's transition is accepted |
| `EmissionDriver.RefusalAlwaysRecorded` | neurons/validator.py:1456-1478 | the failed record of a vector the rechecks refuse is always accepted, whether a batch is open or not |
| `EmissionDriver.Client.SetWeights` | endure/base/validator.py:650-670 | the client may be asked to submit only for a batch that is stored as prepared |
| `EmissionDriver.EmitWeightCandidate` | endure/base/validator.py:418-582 | the client is asked exactly when the rechecks pass and no batch is open, once, with the prepared batch stored when it is asked. The batch is then failed exactly if the vote was refused or never sent, submitted exactly if it was accepted with the commitment its mode needs, which is stored, prepared exactly if the process must restart, and otherwise ambiguous; with the deadlines the head read after it gives |
| `EmissionDriver.EmittedAnswers` | endure/base/validator.py:650-762 | what each answer leaves of the batch: its state, commitment and deadlines; every other batch stays as it was |
| `EmissionCalls.NoSecondCallInFlight` | endure/base/validator.py:418-582 | over every run of emissions, resolutions and scans: when a second call goes out for a schema, every earlier call's batch is closed in what is stored then, as failed exactly if that vote was refused or never sent |
| `EmissionCalls.ClosedByResolution` | endure/storage/repository.py:408-535 | and the batch of any other call was closed by a resolution of its schema, as confirmed, or as unconfirmed at a block past the last one that could include its extrinsic |
| `EmissionScan.Confirmer.ResolveWeightConfirmations` | neurons/validator.py:1582-1694 | the pass over windows, with its early exits, is the specified one |
| `EmissionScan.Confirmer.ScanOneWindow` | neurons/validator.py:1630-1672 | one window: its reveals, one resolution, then the cursor |
| `EmissionScan.WindowContiguous` | endure/storage/repository.py:2690-2704 | a window starts right after the cursor or at the submission, spans at most 32 blocks, and is complete exactly at the reveal deadline |
| `EmissionScan.CoverExactly` | neurons/validator.py:1627-1672 | over every run of recordings, outcomes and windows, every block from a batch's submission through its cursor was scanned under the batch's own identity, if and only if no window of it was read under another identity before both its deadlines had passed |
| `EmissionScan.OneIdentityLeavesNoGap` | neurons/validator.py:1627-1672 | a validator that scans under one identity for the whole run leaves no gap |
| `EmissionScan.UnconfirmedOnlyAfterFullScan` | endure/storage/repository.py:451-535 | after any run, when a batch of this identity with at most one candidate becomes unconfirmed, every block through its reveal deadline had been scanned under that identity, under the same exact condition |
| `EmissionReveals.ShownOnce` | endure/storage/repository.py:2690-2728 | no block of a batch's window is shown to two of its resolutions, whoever scans and whatever else happens |
| `EmissionReveals.ConfirmedIffSeen` | endure/storage/repository.py:451-535 | after any run, a timelocked batch is confirmed if and only if a resolution whose window held a reveal saw its identity, vector and intent, at most one candidate, and no commitment first seen after that reveal |
| `EmissionReveals.OneReadingDecides` | endure/storage/repository.py:451-535 | so for a batch revealed in one block, the one reading of that block decides, whatever the run goes on to |
| `EmissionReveals.AnotherIdentityLosesTheReveal` | neurons/validator.py:1627-1672 | a reveal lost: the window that holds it is read under any other identity, another hotkey or the same one at another UID, and the batch ends unconfirmed; read under its own, that window confirms it |
| `EmissionScan.PassShrinksBacklog` | neurons/validator.py:1624-1672 | a pass that leaves the batch open scans its full budget of windows, or everything owed |
| `EmissionScan.BudgetKeepsUp` | neurons/validator.py:187-191 | while the head moves at most an epoch and a block between passes, the backlog shrinks by 32 blocks or is no more than that move |
| `AdmissionHandlers.Handlers.HandleCommit` | endure/protocol/handlers.py:134-201 | the commit handler, with the tick thread free to close the round before every storage call: the tables stay safe, nothing is undone, and accepted means the hash is committed; which commits those are, `AdmissionRules` says |
| `AdmissionHandlers.Handlers.HandleReveal` | endure/protocol/handlers.py:203-287 | the reveal handler under the same interference: accepted means the exact bundle and nonce is durable |
| `AdmissionHandlers.Handlers.AdmitReveal` | endure/protocol/handlers.py:87-132 | charging, and the reply when no budget or no open round is left; whatever is let through opens the commit or is already durable |
| `AdmissionHandlers.Handlers.Settle` | endure/protocol/handlers.py:253-285 | recording the verdict, and the reply when closure came first: accepted only if durable |
| `AdmissionHandlers.Handlers.Interfere` | endure/storage/repository.py:1321-1384 | closures the tick thread makes between two storage calls |
| `AdmissionSafety.CloseSafe` | endure/storage/repository.py:1321-1384 | closing freezes exactly the accepted bundles and changes no submission row |
| `AdmissionSafety.CommitSafe` | endure/protocol/handlers.py:134-201 | a commit keeps every guarantee and is answered accepted only if its hash is then the committed one |
| `AdmissionSafety.RevealSafe` | endure/protocol/handlers.py:203-287 | under every interleaving, a reveal undoes nothing and is answered accepted only if its exact bundle and nonce is durable |
| `AdmissionSafety.AcceptedForever` | endure/protocol/handlers.py:203-287 | over whole runs, an accepted reveal stays the accepted row, opens its commit, and is what scoring reads |
| `AdmissionSafety.ScoringReadsTheAccepted` | endure/storage/repository.py:1451-1476 | scoring always reads exactly the accepted bundles, counters never pass their caps, and after closure nothing changes |
| `AdmissionSafety.AdmittedExactly` | endure/protocol/validation.py:184-244 | with no closure in between, exactly which reveals are admitted |
| `AdmissionRules.CommitAdmittedExactly` | endure/protocol/validation.py:121-143 | with no closure in between, exactly which commits are accepted: an open round, this schema and version, a digest, inside the commit window, and the hash already committed, or the hotkey's first, or a replacement with commits left and no reveal accepted |
| `AdmissionRules.CommitStores` | endure/protocol/handlers.py:134-201 | and what is stored for it: nothing new for a repeated hash, a first row counting one, or the new hash and one more counted; a refused commit changes nothing |
| `AdmissionRules.LateCommitAnswered` | endure/protocol/validation.py:139-139 | an otherwise admissible commit outside the window is answered as late |
| `AdmissionRules.DigestExactly` | endure/protocol/validation.py:98-107 | a text without white space is a commit hash exactly if it is 64 lower-case hexadecimal digits |
| `AdmissionRules.NonceExactly` | endure/protocol/validation.py:184-244 | a nonce without white space is long enough exactly from 32 hexadecimal digits on |
| `AdmissionRules.RevealAdmittedExactly` | endure/protocol/validation.py:184-244 | with no closure in between, exactly which reveals an open round accepts, in the message's and windows' own fields |
| `AdmissionRules.RevealStores` | endure/protocol/handlers.py:203-287 | an accepted reveal costs one attempt and is stored as the accepted one |
| `AdmissionRules.MismatchStores` | endure/protocol/handlers.py:203-287 | one that does not open the commit costs one attempt and is stored as rejected for it |
| `Scoring.CloserScoresNoLess` | endure/scoring/assessment_orchestrator.py:238-270 | scores lie in [0, 1] and never rise as a submission moves away on one side of the target |
| `ScoringMeaning.ScoreIsWorth` | endure/scoring/assessment_orchestrator.py:238-270 | a submission scores one inside the grace band, zero from its side's cutoff on, and in between falls off linearly, in the target's own units |
| `Scoring.ObservedOnce` | endure/scoring/assessment_orchestrator.py:436-495 | in one pass a scored miner that is not pruned takes exactly one observation on each coordinate resolved and none elsewhere |
| `Scoring.ApplyPass` | endure/scoring/assessment_orchestrator.py:415-531 | the loops over miners and coordinates compute the specified pass, with zero-fills and pruning; what it moves each EMA to, `ScoringMeaning` says |
| `Scoring.ResolveTargets` | endure/scoring/assessment_orchestrator.py:651-679 | the budgeted walk settles coordinates in order, skipping stored ones, until the budget is spent |
| `Scoring.Orchestrator.ResolveAndScore` | endure/scoring/assessment_orchestrator.py:379-531 | one call moves targets, mark and EMAs exactly as specified; what that comes to, `ScoringMeaning` says |
| `ScoringMeaning.PassMoves` | endure/scoring/weights.py:25-38 | a pass moves each resolved EMA from what it was, or nothing, by the share alpha of the way to what the submission is worth; no submission is worth zero |
| `ScoringMeaning.PassLeaves` | endure/scoring/assessment_orchestrator.py:292-317 | which rows a pass leaves, and when an absent miner is forgotten |
| `ScoringMeaning.DistanceLeft` | endure/scoring/weights.py:25-38 | after n passes that observe the same value, (1 - alpha)^n of the distance to it is left |
| `ScoringMeaning.PerfectFromNothing` | endure/scoring/weights.py:25-38 | from nothing, n perfect observations give 1 - (1 - alpha)^n |
| `ScoringMeaning.ZerosHalve` | endure/scoring/weights.py:25-38 | n zero observations leave (1 - alpha)^n of an EMA, half of it after a half-life |
| `ScoringMeaning.SettlesExactly` | endure/scoring/assessment_orchestrator.py:651-679 | a tick settles a coordinate exactly when it had no target, the budget reaches it, and its resolver answers; and stores exactly the answer |
| `ScoringMeaning.MarksExactly` | endure/scoring/assessment_orchestrator.py:379-531 | a call marks its horizon exactly when it is not out of budget and every coordinate then has a target, and keeps the stored ones |
| `ScoringSplit.PrunedTogether` | endure/scoring/assessment_orchestrator.py:296-317 | a miner pruned by the first of two passes is one the whole pass prunes |
| `ScoringSplit.TwoPassesExactly` | endure/storage/repository.py:2109-2199 | two passes leave a miner as one pass over both does, if and only if the first does not lose it |
| `ScoringSplit.SplitIsWholeExactly` | endure/scoring/assessment_orchestrator.py:379-531 | the same for any number of passes |
| `ScoringSplit.SomeMinerIsLost` | endure/scoring/assessment_orchestrator.py:415-429 | a concrete miner lost where a round mixes paying and retired coordinates |
| `ScoringSplit.UnprunedTakesAll` | endure/scoring/assessment_orchestrator.py:436-495 | a scored miner that none of the passes prunes ends with one observation on each coordinate of all of them |
| `ScoringSplit.UnmixedLosesNone` | endure/scoring/assessment_orchestrator.py:361-368 | a round whose coordinates all pay, or are all retired, or whose schema retires none, loses no miner |
| `ScoringBudget.BudgetsMatterExactly` | endure/scoring/assessment_orchestrator.py:66-84 | over every run of ticks, in any order of horizons and under any budgets, a miner's EMAs end where one pass over all stored targets ends, if and only if no tick loses it |
| `ScoringBudget.UnmixedTicksLoseNone` | endure/scoring/assessment_orchestrator.py:361-368 | in a round whose coordinates all pay, or are all retired, no tick loses a miner |
| `ScoringBudget.ObservedOncePerRound` | endure/scoring/assessment_orchestrator.py:436-495 | over all the ticks of a round, a scored miner that none of them prunes takes exactly one observation on each coordinate resolved and none elsewhere |
| `ScoringMeaning.TicksMoveOnce` | endure/scoring/weights.py:25-38 | over all the ticks of a round, such a miner's EMA moves once toward what it is worth on each coordinate resolved |
| `ScoringBudget.CompletedRunsAgree` | endure/scoring/assessment_orchestrator.py:379-531 | two runs that complete every horizon on the same answers store the same targets; a miner one of them never loses ends alike in both if and only if the other never loses it |
| `ScoringBudget.CompletedLikeUnbudgeted` | endure/scoring/assessment_orchestrator.py:379-531 | a horizon completed under budgets has the targets of one unbudgeted pass, and the same EMAs for each miner that no tick loses and for no other |
| `ScoringBudget.TwoTicksLoseAMiner` | endure/scoring/assessment_orchestrator.py:415-429 | two ticks of one resolver call each, over one paying and one retired coordinate, lose a miner |
| `RoundProgram.Program.ResolveDue` | endure/protocol/vertical.py:120-192 | the loop over horizons with its deferrals, failures and final state |
| `RoundProgram.Program.AdvanceOneRound` | endure/protocol/validator_service.py:248-266 | reveal after the window, then resolve |
| `RoundProgram.EventKeepsConsistent` | endure/protocol/vertical.py:120-192 | no tick, and no crash in the middle of one, takes a round back or unmarks a horizon, and a closed round stays as it is |
| `RoundProgram.TickClosesIffAllMarked` | endure/protocol/vertical.py:178-192 | whatever crashed before, after a whole tick the round is closed if and only if every horizon is marked |
| `RoundProgram.TickMarksExactly` | endure/protocol/vertical.py:120-192 | a tick newly marks a horizon exactly when it is due, its call completes, and the walk reaches it with budget and time left at every due one before; short of closed, the round is partially scored exactly when a call scored something, else revealed |
| `RoundProgram.CrashedRoundCloses` | endure/protocol/vertical.py:178-192 | a round whose process died between its last marker and its state is closed by its next tick |
| `RoundProgram.ClosedIffAllResolved` | endure/protocol/vertical.py:178-192 | after any ticks and crashes a closed round has every horizon resolved completely, and after any that end in a whole tick it is closed if and only if every horizon was |
| `Consensus.FindWeightedMedian` | endure/aggregation/consensus.py:21-39 | the accumulating loop, with the positional fallback for weightless input |
| `Consensus.AggregateCell` | endure/aggregation/consensus.py:56-63 | median, weighted deviation and count of one cell |
| `Consensus.MedianExactly` | endure/aggregation/consensus.py:21-39 | the median is the only value with less than half the weight below it and half or more at or below it |
| `Consensus.MedianHalves` | endure/aggregation/consensus.py:21-39 | and is one of the submitted values |
| `Consensus.MedianIgnoresOrder` | endure/aggregation/consensus.py:21-39 | entry order never matters, whatever the weights |
| `Consensus.MajorityHoldsMedian` | endure/aggregation/consensus.py:21-39 | a majority of the weight inside a range keeps the median inside it |
| `Consensus.MedianMinimisesSpread` | endure/aggregation/consensus.py:21-39 | no other centre, whole or not, has a smaller total weighted absolute deviation |
| `Consensus.HalfWithinDispersion` | endure/aggregation/consensus.py:42-48 | at least half the weight lies within one dispersion of the centre and less than half strictly closer |
| `Consensus.FlooredCellHasWeight` | endure/aggregation/consensus.py:51-53 | floored weights keep a non-empty cell off the fallback |
| `Consensus.FallbackHalvesEqually` | endure/aggregation/consensus.py:21-39 | where the entries have no weight in total, the answer is a submitted value that halves them counted equally |
| `RateGate.RpcMessageLimiter.Acquire` | endure/base/rate_gate.py:776-790 | one reservation and its wait, keeping the shaper's invariant |
| `RateGate.SendsApart` | endure/base/rate_gate.py:776-790 | sends i<j are at least (j-i-burst+1) intervals apart, for any clock readings |
| `RateGate.WindowBound` | endure/base/rate_gate.py:776-790 | so a window carries at most the burst and one more for each interval of its length |
| `RateGate.AdaptiveRpcGate.TryCall` | endure/base/rate_gate.py:275-307 | one turn of the admission loop: deferred exactly before the retry time, asleep exactly until the reserved time unless essential, and admitted otherwise, a paced call reserving the next |
| `RateGate.AdaptiveRpcGate.RecordRateLimit` | endure/base/rate_gate.py:431-439 | the rate is halved, to no less than a sixtieth; the retry time moves on to the hint, up to a minute, or one interval of the new rate, and neither time moves back |
| `RateGate.AdaptiveRpcGate.RecordSuccess` | endure/base/rate_gate.py:441-455 | past the retry time the rate rises by an eighth to at most one, the call's own reservation is recovered at the new rate, and another call's is never cut short; before it nothing changes |
| `RateGate.AdaptiveRpcGate.Replacement` | endure/base/rate_gate.py:259-273 | a new generation inherits the whole budget |
| `RateGate.EventKeeps` | endure/base/rate_gate.py:275-455 | every event keeps the rate, deferral and spacing invariants |
| `RateGate.GateAlwaysPaces` | endure/base/rate_gate.py:275-455 | over every run and replacement the rate stays in [1/60, 1] and paced admissions are a second apart |
| `RateGate.RetryIsHonoured` | endure/base/rate_gate.py:275-455 | the retry time never moves back, no call starts before it, and no throttle defers by more than a minute |
| `RateGate.ThrottlesHalve` | endure/base/rate_gate.py:431-439 | n throttle answers halve the rate n times, to no less than one call a minute |
| `RateGate.SuccessesRecover` | endure/base/rate_gate.py:441-455 | each success past the retry time wins back an eighth, so eight recover the full rate from any backing off |
| `MarketSampling.FirstBlockAtOrAfter` | endure/scoring/market_sampling.py:125-144 | the boundary block, in a logarithmic number of lookups, or not covered |
| `MarketSampling.LastBlockAtOrBefore` | endure/scoring/market_sampling.py:147-171 | the boundary block, in a logarithmic number of lookups, or exactly which error |
| `MarketSampling.BitsAreLogarithmic` | endure/scoring/market_sampling.py:125-171 | the bound on lookups is the binary length of the head |
| `MarketSampling.FirstUnique` | endure/scoring/market_sampling.py:125-144 | the first block does not depend on the head |
| `MarketSampling.LastUnique` | endure/scoring/market_sampling.py:147-171 | nor does the last |
| `MarketSampling.BoundariesMeet` | endure/scoring/market_sampling.py:125-171 | the two boundaries coincide on an exact hit and are neighbours otherwise |
| `MinerService.Service.TickCommit` | endure/protocol/miner_service.py:184-208 | assemble once and durably, send, record the acknowledgement |
| `MinerService.Service.TickReveal` | endure/protocol/miner_service.py:210-240 | reveal only what was committed, else note the missed round |
| `MinerService.Service.Assemble` | endure/protocol/miner_service.py:154-163 | a fresh submission enters memory and is written before anything is sent |
| `MinerService.Service.PersistState` | endure/protocol/miner_service.py:126-150 | the state file holds the ten latest rounds |
| `MinerService.TenLatest` | endure/protocol/miner_service.py:126-150 | a state file keeps ten rounds, or all where there are fewer, and none earlier than one it drops |
| `MinerService.Service.LoadState` | endure/protocol/miner_service.py:90-105 | a restart remembers exactly the state file |
| `MinerService.OneHashExactly` | endure/protocol/miner_service.py:154-240 | after any run of ticks and crashes, whatever writes failed in it: every way to go on that fails no further write of a round's fresh submission keeps one hash for all its commits, opened by every reveal, if and only if the submission in memory is the one on file and all sent for the round came from it; for a round that is over, if and only if it has so far |
| `MinerService.OneSubmissionARound` | endure/protocol/miner_service.py:154-240 | so a run that fails to write no fresh submission of a round, whatever other writes fail, keeps one hash for it |
| `MinerService.FailedPersistBreaks` | endure/protocol/miner_service.py:154-163 | one failed write is enough: any run that has not assembled the round yet goes on from it to commit two hashes |
| `MinerService.SavedAcknowledgementRepairs` | endure/protocol/miner_service.py:184-203 | and one saved acknowledgement repairs it: it writes the submission too, and every way to go on keeps its hash |
| `MinerService.RevealFollowsCommit` | endure/protocol/miner_service.py:210-240 | over any run of ticks and crashes, a reveal is sent only for a round of which a commit was sent before and acknowledged by some validator |
| `Eligibility.DeregistrationTracker.RecordGeneration` | endure/scoring/eligibility.py:41-48 | one metagraph generation: the counters stay those of the whole history |
| `Eligibility.DeregistrationTracker.SeedFrom` | endure/scoring/eligibility.py:31-39 | every registered or persisted hotkey, and no other, is followed from an empty history |
| `Eligibility.DeregistrationTracker.ConfirmedHotkeys` | endure/scoring/eligibility.py:50-56 | the answer is exactly the hotkeys followed and absent from the last two generations |
| `Eligibility.PersistedReachesConfirmation` | endure/scoring/eligibility.py:31-39 | a hotkey persisted but absent at the baseline is confirmed by the second generation without it, and not by the first |
| `Eligibility.DeregistrationTracker.ForgetSettled` | endure/scoring/eligibility.py:58-71 | confirmed and archived hotkeys leave the count |
| `Eligibility.CountersAreTrailingAbsences` | endure/scoring/eligibility.py:27-71 | over every history a counter is exactly the hotkey's trailing run of absent generations |
| `Eligibility.ConfirmedExactly` | endure/scoring/eligibility.py:50-56 | a hotkey is confirmed exactly when followed and absent from the last two generations |

## Left out

- Rounding of Decimals to 28 digits: arithmetic is exact.
- The irrational EMA factor: any factor strictly between zero and one is allowed.
- EmissionSafety.PlannedVotePassesRecheck: assumes distinct local hotkeys, one score a hotkey and disjoint pools, which the metagraph and `duplicate_pools` give.
- MinerService.OneHashExactly: a state file that cannot be read back, which the miner sets aside, is not modelled.
- EmissionReveals.ConfirmedIffSeen: the views read under the batch's identity are taken to agree on the blocks it revealed in.
- EmissionDriver.EmitWeightCandidate: what the two owner rechecks answer is an input; a validator without storage is not modelled.
- PoolJoiners.JoiningPaysOnlyAMajority: the joiners were in no pool before; moving from one pool to another is not covered.
- ScoringBudget.BudgetsMatterExactly: the ticks of one round; passes of other rounds between them, which move the same EMAs, are not modelled.
- RateGate.SendsApart: times are those reserved; a sleeper that oversleeps moves one send later than that.
- Commit hashes: a commit hash determines bundle, nonce and hotkey; the source hashes their concatenation, whose boundaries are not marked.
- SQL, migrations and SQLite locking: each transaction is one atomic step on maps, with the table's CHECK constraints and unique open index as guards.
- The canonical order in which pools are listed, and UTF-8, JSON and model parsing of bundles.
- Decoding of the owner's commitment record: it enters as the one text it holds, if it holds one.
- WeightCap.ProcessedKeepsPositive: only for no excluded quantile, which is all that emission uses.
- The startup fence, confirmation health, and the emission reasons shown to operators.
- Tie seeds, blended scores and the payout window of the orchestrator.
- `SeriesSampling`, canonical snapshot blocks and failure classification of market sampling.
- Generations of chain workers: timeouts, abandonment and transport cleanup in the rate gate.
- Consensus rows, score history and archival of deregistered EMA rows.
- Reopening a round, which no caller does.
- The chain, archive, axon, dendrite, API, logging and thread lifecycle.
