# A verified model of the Safrochain indexer and its REST API

This project models the parts of the indexer (callisto, Go, writing PostgreSQL) and of the
REST API (safrochain_api_indexeur, TypeScript, reading it) whose behaviour is hard to see from
one function, and proves what holds for every run, every arrival order, every page walk and
every input. A table is a map or a set, an SQL statement is a method on it, a chain source is a
function from height or page key to data that may fail.

`dafny verify dfyconfig.toml` checks everything.

Where the source changes state step by step, the model is a class or a loop whose contract ties
the new state to a function of the old one; the theorems are about those functions. The files:

| file | what it covers |
|---|---|
| GuardedTables, IndexerDb | the height-guarded upserts, their batches, and what the schema refuses |
| IndexerRuns | whole runs of the bulk writers: when a call goes through, and convergence |
| UniqueColumn, ArrivalOrder | where the order of arrival does matter: the unique operator address, foreign keys |
| DailyRefetch | missing blocks, the backfill loop, the slashing block handler |
| FeeGrants | guarded upsert and guarded delete without a tombstone |
| ValidatorDetails, Text | the read-merge-write rows: commission and description |
| UpgradePlans | save, cancel, check, refresh and truncate over runs of blocks |
| CursorPages, Pagination | page walks under insertion and ties, page arithmetic |
| QueryBuilder, MessageQuery | predicates that share one parameter map, and the message filters |
| CountsCache | the cache of counts with overlapping refreshes |
| MessagePreload | one sorted query grouped by hash, against one query per transaction |
| BankSplit, DelegationTotal, StakingPool, BlockFees | slices, sums and totals |
| CoinArrays | the text of coin arrays and its parser |
| DateSerializer | dates in JSON trees |
| Arithmetic, Wrappers | division lemmas, Option |

Where the code does not do what its names, comments or documentation suggest, the code is
modelled as it is and the exact condition is proved:

- GetMissingBlocks casts both bounds to a 32-bit integer and turns the failure into "nothing is
  missing", so beyond 2147483647 the backfill reports success and fetches nothing.
- An operator that comes back under a new consensus key: operator addresses are unique in
  validator_info, so whichever save arrives first keeps the row. Rows that refer to one that is
  not there yet are refused and lost.
- A fee grant that arrives after a later revoke comes back to life.
- The first commission save of a validator is refused unless it supplies both columns
  (ValidatorDetails.FirstSaveNeedsBoth); a
  late commission or description save loses what no newer save repeats, and a newer first
  save of the sentinel hides an older text for good.
- A cancel proposal deletes the plan stored under its own id, which is not the id of the
  proposal that scheduled the upgrade, so the indexer refreshes for upgrades that the chain has
  dropped. A refresh that fails, and a block that is replayed late, leave a plan behind.
- Under sort_order ASC the cursor clause still asks for lower heights. The join of
  getTransactionsAdvanced ends a walk early.
- module and modules bind the same parameter name, so module is lost. Unknown seasons and
  fiscal quarters, times of day, and any date filter on messages make the database refuse the query.
- SplitAccounts divides by M but starts a new slice every M - 1 accounts.
- The delegation total counts a delegation once per entry that is already in the list.
- A slow counts query overwrites a newer result.
- serializeDates goes by the name of a key: whatever is under a key like timeout_height and is no
  date becomes null, with everything inside it.

## Model

| member | source | states |
|---|---|---|
| GuardedTables.ExecUpsert | callisto/database/slashing.go:33-42 | One guarded multi-row INSERT with a constraint: it succeeds exactly when no tuple reaches a row the statement has itself written and every tuple that is written satisfies the constraint, then every tuple has had its effect in order; otherwise nothing has changed. |
| GuardedTables.DistinctIsAccepted | callisto/database/staking_validators.go:366-397 | A batch with distinct keys is never refused. |
| GuardedTables.AcceptedMeansDistinct | callisto/database/staking_validators.go:366-397 | A batch of one height that no stored row exceeds is accepted only if its keys are distinct. |
| GuardedTables.WinnerIsLastOfGreatest | callisto/database/staking_validators.go:386-389 | At the end of any run a row holds the last-arrived write among those of greatest height for its key, unless the row it started with is newer. |
| GuardedTables.HeightsNeverDecrease | callisto/database/staking_validators.go:386-389 | Along any run no row disappears and no row's height goes back. |
| GuardedTables.Convergence | callisto/database/staking_validators.go:366-443 | Two runs over the same writes, in any order and with any repetitions, end in the same table, provided no two of a key's newest writes disagree. |
| GuardedTables.ConvergenceOfDeterministicWrites | callisto/database/staking_validators.go:366-443 | The same when equal key and height imply equal value, which is what one chain produces. |
| GuardedTables.OrderIrrelevantIffUncontested | callisto/database/staking_validators.go:366-443 | Exactness: every permutation of a run gives the same table if and only if no key's newest writes disagree. |
| GuardedTables.RunBatches | callisto/database/staking_validators.go:366-443 | Running batches with distinct keys one after the other equals applying all their tuples in sequence, however they were batched. |
| GuardedTables.AcceptedStores | callisto/database/staking_validators.go:366-397 | A tuple of an accepted statement that is not older than the stored row has its value and height in the row at the end. |
| IndexerDb.Db.SaveValidatorsData | callisto/database/staking_validators.go:20-87 | The three statements it sends, tuple by tuple; the last is refused when a tuple names an address without a validator row or an operator stored under another address, and then the first two stay. |
| IndexerDb.Db.SaveValidatorsVotingPowers | callisto/database/staking_validators.go:370-397 | The guarded write of every entry; no change when a tuple that is not outdated names an unknown validator or block. |
| IndexerDb.Db.SaveValidatorsStatuses | callisto/database/staking_validators.go:402-443 | Inserts the validators it lacks, then the guarded write of every status; when a validator row was skipped for a taken public key the second statement is refused and the first stays. |
| IndexerDb.Db.SaveValidatorsSigningInfos | callisto/database/slashing.go:11-50 | The guarded write of every signing info, or no change when refused. |
| IndexerDb.Db.SaveTallyResults | callisto/database/gov.go:296-331 | The guarded write of every tally result; no change when one that is not outdated names an unknown proposal. |
| IndexerDb.Db.SaveStakingPool | callisto/database/staking_pool.go:10-33 | The single pool row is overwritten unless it is newer. |
| IndexerDb.ValidatorStored | callisto/database/staking_validators.go:40-87 | After a call that goes through, each column of validator_info holds the field of its name, and the self delegate has an account. |
| IndexerDb.PowerStored | callisto/database/staking_validators.go:366-397 | The power of a current entry is the stored one, at its height. |
| IndexerDb.StatusStored | callisto/database/staking_validators.go:402-443 | Status and jailed of a current entry are the stored ones, at its height. |
| IndexerDb.SigningInfoStored | callisto/database/slashing.go:11-50 | The five columns of a current signing info hold the fields of their names, at its height. |
| IndexerDb.TallyStored | callisto/database/gov.go:296-331 | yes, abstain, no and no_with_veto of a current tally are stored under those names, at its height. |
| IndexerDb.ValidatorRowStored | callisto/database/staking_validators.go:64-69 | One row of ON CONFLICT DO NOTHING: the pair is inserted unless its address or its public key is taken. |
| IndexerDb.TakenKeyRefusesStatus | callisto/database/staking_validators.go:402-443 | A status under a new address whose public key another validator holds: no row is inserted and the status is refused. |
| IndexerDb.RefusedDataKeeps | callisto/database/staking_validators.go:20-87 | A refused third statement leaves validator_info alone, while accounts and validator rows of the first two stay. |
| IndexerDb.RefusedStatusesKeep | callisto/database/staking_validators.go:402-443 | The same for statuses: refused, the table stays, and so do the validator rows already inserted. |
| IndexerRuns.RunByTable | callisto/database/staking_validators.go:20-87 | Over any run in which every call goes through, each guarded table is the fold of the tuples sent to it, whatever the other calls did. |
| IndexerRuns.InsertedValidators | callisto/database/staking_validators.go:64-69 | With one-to-one keys, ON CONFLICT DO NOTHING leaves exactly the pairs that were there and the pairs sent. |
| IndexerRuns.PowersSucceedIff | callisto/database/staking_validators.go:385-394 | In any run, a batch of voting powers goes through if and only if each tuple that is not outdated names a validator and a block that came before it. |
| IndexerRuns.TalliesSucceedIff | callisto/database/gov.go:296-331 | In any run, a batch of tally results goes through if and only if each one that is not outdated names a proposal that came before it. |
| IndexerRuns.OrderlyRunsSucceed | callisto/database/staking_validators.go:20-87 | Calls with distinct keys, one-to-one validator keys and no operator under two addresses all go through, in any order that sends referenced rows first. |
| IndexerRuns.DatabaseConverges | callisto/database/staking_validators.go:20-87 | Two runs over such calls, with any call repeated and in any two orders that send referenced rows first, leave all ten tables equal. |
| IndexerRuns.GuardedTablesConverge | callisto/database/staking_validators.go:366-443 | Two runs over the same calls in which nothing is refused leave the guarded tables equal, whatever their keys. |
| UniqueColumn.OrderIrrelevantIffNoClash | callisto/database/schema/03-staking.sql:28-36 | With a second unique column, one tuple per statement, every order gives the same table if and only if no key's newest tuple has a live rival: a tuple of another key with the same value. |
| ArrivalOrder.OneByOneInfos | callisto/database/staking_validators.go:15-87 | Validators saved one by one fill validator_info like such a table, its column being the operator address. |
| ArrivalOrder.OneByOneOrderIrrelevantIff | callisto/database/staking_validators.go:15-87 | Validators saved one by one leave the same validator_info in every order if and only if no validator's newest save has a live rival with its operator under another address. |
| ArrivalOrder.SharedOperatorDependsOnOrder | callisto/database/schema/03-staking.sql:31-31 | One operator under two consensus keys: either order keeps only the validator that came first. |
| ArrivalOrder.PowersNeedTheirValidator | callisto/database/schema/03-staking.sql:62-67 | A voting power is stored after its validator and lost before it. |
| DailyRefetch.Missing | callisto/database/daily_refetch.go:4-17 | The heights of an interval that the block table lacks, all of them and no others, in ascending order. |
| DailyRefetch.Indexer.HandleBlock | callisto/modules/slashing/handle_block.go:13-35 | Stores each signing info at the height of the block; a failing query or statement leaves the table alone. |
| DailyRefetch.Indexer.RefetchMissingBlocks | callisto/modules/daily_refetch/handle_periodic_operations.go:30-71 | The outcome of the job for every combination of failures, and the state as that of ingesting the missing heights in order up to the first that cannot be fetched. |
| DailyRefetch.Indexer.FetchAll | callisto/modules/daily_refetch/handle_periodic_operations.go:62-69 | The loop stops exactly at the first unreachable height, having processed those before it. |
| DailyRefetch.HeightErrors | callisto/modules/daily_refetch/handle_periodic_operations.go:31-43 | The two failing height queries, and only they, end the job with their own error, and nothing is fetched. |
| DailyRefetch.JobMeans | callisto/modules/daily_refetch/handle_periodic_operations.go:45-71 | For bounds of 32 bits: when the job ends in a context error, at a block, or done, and that it fetches a height if and only if it is lacking and every lacking height up to it can be fetched. |
| DailyRefetch.ProcessedStores | callisto/modules/slashing/handle_block.go:26-35 | After a height is processed, each column of a current validator holds what the chain answered there, under that height. |
| DailyRefetch.ProcessedLeaves | callisto/modules/slashing/handle_block.go:13-35 | The rows of validators that the answer does not name stay as they are; a failing query changes none. |
| DailyRefetch.StoppedBackfill | callisto/modules/daily_refetch/handle_periodic_operations.go:62-67 | A job that stops at a block has added exactly the missing heights below it. |
| DailyRefetch.BackfillCompleteness | callisto/modules/daily_refetch/handle_periodic_operations.go:45-69 | A job that reports success leaves no gap if and only if both bounds lie between -2147483648 and 2147483647 or nothing was missing. |
| DailyRefetch.CastHidesTheGap | callisto/database/daily_refetch.go:4-17 | The first height beyond 32 bits is missing, never fetched, and reported as a success. |
| DailyRefetch.IngestOrderIrrelevant | callisto/modules/slashing/handle_block.go:26-35 | Ingesting the same heights in any order, with repetitions, gives the same blocks and signing infos. |
| DailyRefetch.BackfillMatchesGaplessIngest | callisto/modules/daily_refetch/handle_periodic_operations.go:45-69 | Any ingest followed by a successful job with bounds of 32 bits equals one ingest of all those heights and of the whole interval, once each and in order. |
| FeeGrants.FeeGrantDb.SaveFeeGrantAllowance | callisto/database/feegrant.go:12-40 | The guarded upsert of the pair's row, after adding both accounts. |
| FeeGrants.FeeGrantDb.DeleteFeeGrantAllowance | callisto/database/feegrant.go:43-51 | The row goes unless it is newer; no trace is kept. |
| FeeGrants.AbsentIffAllRevoked | callisto/database/feegrant.go:21-51 | In any arrival order, a pair is absent at the end exactly when every grant on it was followed by a revoke of at least its height. |
| FeeGrants.ArrivalOrderExact | callisto/database/feegrant.go:21-51 | In any arrival order, a pair agrees with "the operation of greatest height decides" if and only if it does not end in a revoke or every grant on it is followed by a revoke that reaches it. |
| FeeGrants.InOrderRunAgrees | callisto/database/feegrant.go:21-51 | In height order the table always agrees with that reference. |
| FeeGrants.LateReplayExact | callisto/database/feegrant.go:21-51 | One late operation replayed after an in-order run gives the in-order table if and only if it is not a grant whose pair's last later operation is a revoke. |
| FeeGrants.LateGrantRevives | callisto/database/feegrant.go:21-51 | A grant at height 1 that arrives after the revoke at height 2 stays; in height order the pair ends without a row. |
| ValidatorDetails.ValidatorDb.SaveValidatorCommission | callisto/database/staking_validators.go:304-349 | Reads the row, replaces what is supplied, writes it back under the guard; what is refused and why. |
| ValidatorDetails.ValidatorDb.SaveValidatorDescription | callisto/database/staking_validators.go:210-265 | Reads the row, keeps the texts under the sentinel, writes the trimmed texts back under the guard; what is refused and why. |
| ValidatorDetails.CommissionHoldsLastSupplied | callisto/database/staking_validators.go:304-349 | Over any run of accepted saves in non-decreasing height each column holds the last value supplied for it, else what it held. |
| ValidatorDetails.FirstSaveNeedsBoth | callisto/database/staking_validators.go:315-348 | The first save of a validator is accepted if and only if it supplies both columns and the delegation fits its column; otherwise nothing changes. |
| ValidatorDetails.CommissionOfSave | callisto/database/staking_validators.go:315-348 | A save on a row that is not newer replaces exactly the columns it supplies; it is refused if and only if its delegation does not fit 64 bits. |
| ValidatorDetails.LastCommissionIs | callisto/database/staking_validators.go:326-332 | The last commission is that of one save whose delegation fits, after which no such save supplies one. |
| ValidatorDetails.LastMinSelfDelegationIs | callisto/database/staking_validators.go:326-332 | The same for the minimum self delegation. |
| ValidatorDetails.LateCommissionExact | callisto/database/staking_validators.go:304-349 | A late save replayed after newer ones gives the table of the height order if and only if it or they change nothing; or there was a row and each column it supplies was supplied again later or already had that value; or there was none and it could not have created it or a newer save has. |
| ValidatorDetails.LateFirstSaveKeepsOldCommission | callisto/database/staking_validators.go:315-342 | A first, complete save that arrives after a newer one with only a commission: the table keeps the older commission, where height order has the newer one. |
| ValidatorDetails.MergeNeverTooLong | callisto/database/staking_validators.go:216-232 | Stored texts respect the length limits, so a merge is never refused for length. |
| ValidatorDetails.RefusedTexts | callisto/database/staking_validators.go:210-232 | A save is refused if and only if its operator has no row, or moniker, identity, website, security contact or details exceed 70, 3000, 140, 140 or 280 bytes; then nothing changes. |
| ValidatorDetails.TextOfSave | callisto/database/staking_validators.go:216-265 | A column keeps its text under "[do-not-modify]" and otherwise takes the trimmed new one, the avatar included. |
| ValidatorDetails.LastTextIs | callisto/database/staking_validators.go:216-232 | The last text is that of one save within the limits, after which such saves only send "[do-not-modify]". |
| Text.TrimSpaceCuts | callisto/database/types/coins.go:19-25 | The trimmed text is the part between the spaces at both ends: only spaces are cut, all of them, and nothing in between. |
| Text.AsciiSpaces | callisto/database/types/coins.go:19-25 | Of the ASCII characters the blank and those from tab to carriage return are spaces, and no letter or digit is. |
| ValidatorDetails.DescriptionHoldsLastText | callisto/database/staking_validators.go:210-265 | Over any run in height order from no row, refused saves included, each text is the last trimmed one other than the sentinel; the sentinel itself if nothing else was ever sent. |
| ValidatorDetails.LateDescriptionExact | callisto/database/staking_validators.go:210-265 | A late save replayed after newer ones shows a text as in height order if and only if it or all of them are refused, a newer save sets that text, it sends the sentinel or the stored text to an existing row, or it only sends the sentinel to a missing one. |
| ValidatorDetails.SentinelHidesLateText | callisto/database/staking_validators.go:216-232 | When the newer save comes first and sends the sentinel, the sentinel stays; in height order the text stays. |
| UpgradePlans.PlanStore.SaveSoftwareUpgradePlan | callisto/database/gov.go:395-414 | The guarded upsert of the proposal's plan. |
| UpgradePlans.PlanStore.HandlePassedProposal | callisto/modules/gov/utils_proposal.go:202-263 | The plan changes of a passed proposal's messages in order, up to the first error; none if it has not passed. ProposalSucceedsIff and ProposalChanges say of the messages alone which these are. |
| UpgradePlans.ProposalSucceedsIff | callisto/modules/gov/utils_proposal.go:208-263 | A passed proposal succeeds if and only if none of its messages is unreadable or a parameter change that fails; an unknown message is no error. |
| UpgradePlans.ProposalChanges | callisto/modules/gov/utils_proposal.go:208-263 | Its changes are, in order, one per upgrade or cancel message before the first that fails: that plan saved, or the deletion, under the proposal's own id. |
| UpgradePlans.PlanStore.HandleGovBlock | callisto/modules/gov/handle_block.go:18-65 | The changes of the block's proposals in order; the first error drops the rest of the block. BlockSucceedsIff and BlockChangesAre say of the proposals alone which these are. |
| UpgradePlans.BlockSucceedsIff | callisto/modules/gov/handle_block.go:56-65 | A block's proposals all succeed if and only if no message of a passed one fails. |
| UpgradePlans.BlockChangesAre | callisto/modules/gov/handle_block.go:56-65 | The changes of a block are, in order, one per upgrade or cancel message of a passed proposal with no failing message of a passed proposal before it. |
| UpgradePlans.PlanStore.RefreshDataUponSoftwareUpgrade | callisto/modules/upgrade/handle_block.go:23-45 | Refreshes exactly when its query works and a plan is due, and deletes the finished plans exactly when the refresh worked too. |
| UpgradePlans.TableCharacterised | callisto/modules/upgrade/handle_block.go:23-45 | After any ascending run of blocks, whichever proposals, queries and refreshes failed in them, a plan is stored if and only if its proposal's last operation scheduled it and no completed refresh has passed its height. |
| UpgradePlans.RefreshIffScheduled | callisto/modules/upgrade/handle_block.go:23-45 | The refresh starts at a block if and only if its query works and some proposal's last operation so far scheduled an upgrade for that height. |
| UpgradePlans.RefreshesOncePerHeight | callisto/modules/upgrade/handle_block.go:23-45 | Over a whole run the refresh starts at the due heights only, at each of them, and at most once per height. |
| UpgradePlans.NoOverduePlan | callisto/database/gov.go:441-451 | Over consecutive blocks whose queries and refreshes work, no stored plan has an upgrade height at or below the last block. |
| UpgradePlans.FailedRefreshLeavesPlan | callisto/modules/upgrade/handle_block.go:24-44 | When an upgrade is due, a plan for that height is still stored afterwards if and only if the query or the refresh failed. |
| UpgradePlans.OverduePlanStays | callisto/modules/upgrade/handle_block.go:23-45 | A plan whose height the blocks have passed: no refresh starts for it, and it stays if and only if no later refresh, for another plan, is completed. |
| UpgradePlans.LateReplayLeavesPlan | callisto/modules/gov/utils_proposal.go:234-241 | A block replayed late can save a plan that the newer blocks have already passed, and then the same holds of it. |
| UpgradePlans.ProposalTouchesOwnPlan | callisto/modules/gov/utils_proposal.go:234-263 | Whatever a passed proposal contains, plans under other ids stay as they are, and one whose last change is a cancel removes the plan under its own. |
| UpgradePlans.RefreshAgreesIff | callisto/modules/gov/utils_proposal.go:234-263 | The refresh at a block agrees with the chain's one pending plan, which every save replaces and every cancel clears, if and only if no plan for that height has been superseded by another proposal's last operation. |
| UpgradePlans.CancelStopsRefreshIff | callisto/modules/gov/utils_proposal.go:242-247 | When a cancel is the last operation of all, the refresh still starts if and only if another proposal's own last operation scheduled the height. |
| UpgradePlans.CancelByAnotherStillRefreshes | callisto/modules/gov/utils_proposal.go:242-247 | One proposal schedules a height and another cancels: the chain has no pending plan, and the block at that height still refreshes. |
| CursorPages.Respond | safrochain_api_indexeur/src/modules/block/block.service.ts:138-163 | The entities of the rows as data, the next cursor, and the fixed fields (page 1, total 0) of a response, for any rows the query returns. |
| CursorPages.EntitiesAreFirstRows | safrochain_api_indexeur/src/modules/transaction/transaction.service.ts:355-361 | The entities of a response are, in the order of the page, the first row of each entity, and no other rows. |
| CursorPages.BlockLimit | safrochain_api_indexeur/src/modules/block/block.service.ts:128-128 | The limit asked for if it lies between 1 and 100; 20 for none or 0, 100 for more, 1 for less. |
| CursorPages.WalkTerminates | safrochain_api_indexeur/src/modules/block/block.service.ts:130-142 | Whatever is inserted meanwhile, a walk is finite: its length is bounded by its first cursor, because cursors strictly decrease. |
| CursorPages.WalkExists | safrochain_api_indexeur/src/modules/block/block.service.ts:130-142 | Every table can be walked to an end: any fetches made so far can be continued until a page names no cursor. |
| CursorPages.PagesDisjoint | safrochain_api_indexeur/src/modules/transaction/transaction.service.ts:347-361 | No row is on two pages of a walk, whatever the tie order and whatever is inserted. |
| CursorPages.UnseenRows | safrochain_api_indexeur/src/modules/transaction/transaction.service.ts:347-361 | The rows a finished walk never shows are exactly those cut off at a page boundary of their height, and those left when the join fills the last page with repeated transactions. |
| CursorPages.UnseenEntities | safrochain_api_indexeur/src/modules/transaction/transaction.service.ts:347-361 | A transaction with one or more rows is in no response if and only if some page ends at its height without any of its rows, or the last page is filled by the join above it. |
| CursorPages.NothingLostIffNoSplit | safrochain_api_indexeur/src/modules/transaction/transaction.service.ts:138-184 | Without the join nothing is lost if and only if no page boundary splits a height. |
| CursorPages.BlocksShownOnce | safrochain_api_indexeur/src/modules/block/block.service.ts:99-163 | With unique heights every block that was there from the start is shown on exactly one page, even while blocks are inserted. |
| CursorPages.BlocksDescend | safrochain_api_indexeur/src/modules/block/block.service.ts:99-163 | The pages one after the other list blocks in strictly descending height. |
| CursorPages.BlockFetchCount | safrochain_api_indexeur/src/modules/block/block.service.ts:99-163 | Over a table that does not change a walk takes exactly floor(n / limit) + 1 fetches. |
| CursorPages.InsertionsAboveChangeNothing | safrochain_api_indexeur/src/modules/block/block.service.ts:130-135 | Insertions at or above the current cursor between any two fetches change no page of the walk. |
| CursorPages.AscendingRepeats | safrochain_api_indexeur/src/modules/transaction/transaction.service.ts:339-361 | Under sort_order ASC, whatever is inserted between the fetches, the second one shows no row that was there at the first and not on its page. |
| CursorPages.AscendingEndsInTwo | safrochain_api_indexeur/src/modules/transaction/transaction.service.ts:339-361 | Under sort_order ASC, if only rows at or above the cursor change between the fetches, the second one ends the walk and shows no row that the first did not. |
| CursorPages.AscendingCompleteIff | safrochain_api_indexeur/src/modules/transaction/transaction.service.ts:339-361 | A finished ascending walk over a fixed table shows every row if and only if the table has at most limit rows. |
| CursorPages.AscendingLosesTransactions | safrochain_api_indexeur/src/modules/transaction/transaction.service.ts:339-361 | Two transactions, one to a page: an ascending walk that never shows the second. |
| CursorPages.JoinEndsWalk | safrochain_api_indexeur/src/modules/transaction/transaction.service.ts:355-361 | A page names a next cursor if and only if it is full of rows and the join repeats no transaction on it. |
| CursorPages.JoinLosesTransactions | safrochain_api_indexeur/src/modules/transaction/transaction.service.ts:355-361 | A walk that ends after one page although a transaction below it was never shown. |
| Pagination.OffsetLiesOnPage | safrochain_api_indexeur/src/common/utils/pagination.util.ts:43-71 | The row at the offset lies on the reported page, the limit keeps to its bounds, and the page form and the offset form agree on every page. |
| Pagination.HasNextIffRowsRemain | safrochain_api_indexeur/src/common/utils/pagination.util.ts:73-99 | With a known total, hasNext is true exactly when a row follows the page. |
| Pagination.LimitFields | safrochain_api_indexeur/src/common/utils/pagination.util.ts:29-71 | Both forms take the limit asked for, else the configured or built-in 20, at least 1 and at most the configured or built-in 100. |
| Pagination.PageAndOffsetFields | safrochain_api_indexeur/src/common/utils/pagination.util.ts:43-71 | A page from 1 and an offset from 0 are kept, anything else means the first page; page, limit and offset belong together. |
| Pagination.MetaFields | safrochain_api_indexeur/src/common/utils/pagination.util.ts:73-99 | Page, limit and cursor are repeated; totalPages is the least number of pages that holds the total; without a total hasNext is the override or else says whether there is a cursor. |
| QueryBuilder.NamesRenderDistinct | safrochain_api_indexeur/src/common/services/date-filter.service.ts:227-232 | All parameter names, those generated for any number of custom ranges included, are pairwise different strings. |
| QueryBuilder.HoldsIffAsks | safrochain_api_indexeur/src/common/services/date-filter.service.ts:10-264 | Each kind of predicate, read with its own parameters, asks of a row what its filter asks, custom ranges included. |
| QueryBuilder.UndisturbedMeansItself | safrochain_api_indexeur/src/modules/message/message.service.ts:41-128 | A predicate whose names no later call takes means in the finished query what its filter asks, and is accepted when that filter is. |
| QueryBuilder.QueryIsConjunction | safrochain_api_indexeur/src/modules/message/message.service.ts:41-128 | For any sequence of calls the built query is the conjunction of its filters, leaving out those that a later call repeats under the same name; and it is accepted if and only if each of them is. |
| QueryBuilder.LikeMeansHasPart | safrochain_api_indexeur/src/modules/message/message.service.ts:108-112 | A text is like a part without wildcards between two percent signs exactly when the part occurs in it. |
| MessageQuery.ParseCustomRanges | safrochain_api_indexeur/src/common/services/date-filter.service.ts:337-355 | The ranges of a list of dates: consecutive pairs, an odd last date dropped, a pair with an invalid date dropped. |
| MessageQuery.NamesApart | safrochain_api_indexeur/src/modules/message/message.service.ts:51-74 | Two different calls share a parameter name only as module and modules. |
| MessageQuery.QueryMeansFilters | safrochain_api_indexeur/src/modules/message/message.service.ts:34-128 | The built query selects a row if and only if every given filter by itself asks for it, module being left out when module and modules both resolve to types. |
| MessageQuery.RefusedIff | safrochain_api_indexeur/src/common/services/date-filter.service.ts:85-233 | The database accepts the query if and only if no date filter is given on a table without a timestamp, no time of day is, and no list after IN is empty, such as the months of an unknown season or fiscal quarter. |
| MessageQuery.UnknownSeasonIsRefused | safrochain_api_indexeur/src/common/services/date-filter.service.ts:187-197 | An unknown season makes the database refuse the query, whatever else is asked. |
| MessageQuery.DateIsRefusedOnMessages | safrochain_api_indexeur/src/modules/message/message.service.ts:114-119 | A start date makes it refuse the query on the message table. |
| MessageQuery.ApplyDateFilters | safrochain_api_indexeur/src/common/services/date-filter.service.ts:10-264 | The andWhere and setParameter calls of the date filters, in code order, bring to the builder the predicates and parameters of exactly the given filters. |
| MessageQuery.GetMessages | safrochain_api_indexeur/src/modules/message/message.service.ts:34-128 | For every combination of filters the query built by the calls in code order selects a row if and only if Meets says so: each given filter as a comparison of its own value with the row, types and lists by membership, seasons, fiscal months and leap years in numbers, module left out when modules is given too. It is refused exactly when Runnable says not, which names the filters. |
| MessageQuery.WantedMeansMeets | safrochain_api_indexeur/src/modules/message/message.service.ts:34-128 | The filters read one by one from their calls mean that plain conjunction over the fields of filters and row. |
| MessageQuery.RunnableIff | safrochain_api_indexeur/src/common/services/date-filter.service.ts:85-264 | Which date filters the database can run, by the names of the filters: none on a table without a timestamp, no time of day, no unknown season or fiscal quarter, no empty list. |
| MessageQuery.RangesArePairs | safrochain_api_indexeur/src/common/services/date-filter.service.ts:337-355 | A pair is a range exactly when its two dates stand at an even position and after it, the start first, both valid. |
| MessageQuery.MonthsMean | safrochain_api_indexeur/src/common/services/date-filter.service.ts:300-335 | The months of each season and each fiscal quarter. |
| MessageQuery.DenomIsFound | safrochain_api_indexeur/src/modules/message/message.service.ts:108-112 | A denom without wildcards selects the messages whose text has "denom":"<denom>" in it. |
| MessageQuery.WronglySelected | safrochain_api_indexeur/src/modules/message/message.service.ts:51-74 | The rows selected against the filters are exactly those that only module would have turned away. |
| MessageQuery.ModuleIsIgnored | safrochain_api_indexeur/src/modules/message/message.service.ts:51-74 | With only a module and a list of modules given, any row of the list that is not of the module is selected against the filters. |
| CountsCache.TransactionService.Begin | safrochain_api_indexeur/src/modules/transaction/transaction.service.ts:597-606 | What a call is served before the await, or that it has to wait. |
| CountsCache.Live | safrochain_api_indexeur/src/modules/transaction/transaction.service.ts:590-614 | One service object gives every caller of any interleaving, failed queries included, the answer of the state machine. |
| CountsCache.CacheIsLastQuery | safrochain_api_indexeur/src/modules/transaction/transaction.service.ts:606-613 | After any interleaving the cache is empty or exactly the result of the last query to complete, which a call that missed had started; fields never mix. |
| CountsCache.ServedIffFresh | safrochain_api_indexeur/src/modules/transaction/transaction.service.ts:598-605 | A call is served from the cache if and only if the last query to complete did so less than 10000 ms ago. |
| CountsCache.ServedCounts | safrochain_api_indexeur/src/modules/transaction/transaction.service.ts:598-637 | A served count is that query's count for that very period, stored less than 10000 ms ago; a requested period is undefined if and only if that query was restricted to the other one, and one not asked for is never told. |
| CountsCache.CallIsTold | safrochain_api_indexeur/src/modules/transaction/transaction.service.ts:597-606 | In any history: what each call is answered at once, count by count, or that it waits, from the last completion before it. |
| CountsCache.QueryTells | safrochain_api_indexeur/src/modules/transaction/transaction.service.ts:606-637 | A query that completes tells its own caller what it counted for the periods that call asked for; one that fails rejects it. |
| CountsCache.WaitsIff | safrochain_api_indexeur/src/modules/transaction/transaction.service.ts:597-613 | A caller waits if and only if its last call missed and nothing has ended its query. |
| CountsCache.NoQueryWithinTtl | safrochain_api_indexeur/src/modules/transaction/transaction.service.ts:595-605 | With a clock that does not go back, no call starts a query within 10000 ms of any completion. |
| CountsCache.CanGoStaleIff | safrochain_api_indexeur/src/modules/transaction/transaction.service.ts:606-613 | Over every history, failed queries included: a completion still to come can leave the cache with a query begun earlier than one already completed if and only if two calls wait, or one that waits began before one that has completed. |
| CountsCache.SingleFlightNeverStale | safrochain_api_indexeur/src/modules/transaction/transaction.service.ts:597-613 | If never two calls wait at once, the query that fills the cache is always the latest begun of those completed. |
| CountsCache.SlowQueryOverwritesNewer | safrochain_api_indexeur/src/modules/transaction/transaction.service.ts:606-613 | An interleaving in which an older query completes last and its count is what the next call is served. |
| MessagePreload.PreloadMessagesByHash | safrochain_api_indexeur/src/modules/transaction/transaction.service.ts:789-809 | The map has a key for exactly the hashes with rows, each with its rows in query order. |
| MessagePreload.SelectAnswers | safrochain_api_indexeur/src/modules/transaction/transaction.service.ts:796-799 | Grouping any answer of the one query gives, per hash, a possible answer of that hash's own query. |
| MessagePreload.PreloadExactIffNoTies | safrochain_api_indexeur/src/modules/transaction/transaction.service.ts:789-855 | The grouped list is the very list of the hash's own query, whichever orders the two choose, if and only if no two of its messages share an index. |
| MessagePreload.Page | safrochain_api_indexeur/src/modules/transaction/transaction.service.ts:184-218 | A page built from one query shows for each transaction its own JSON messages or what its own query would return, hashes without messages and an empty page included. |
| MessagePreload.NeededOnly | safrochain_api_indexeur/src/modules/transaction/transaction.service.ts:184-190 | Only hashes of transactions without messages of their own are asked for. |
| MessagePreload.ShowTransaction | safrochain_api_indexeur/src/modules/transaction/transaction.service.ts:811-855 | The same for one transaction, with the fallback query or the empty list for a missing key. |
| BankSplit.SplitAccounts | callisto/database/utils/bank.go:9-23 | Runs to the end if and only if n <= 1 or (n-2)/(M-1) <= n/M with M >= 2; then the slices joined are the accounts in order and none is longer than M. |
| BankSplit.ConcatLaws | callisto/database/utils/bank.go:9-23 | Joining slices puts them one after the other. |
| BankSplit.SliceOfIsQuotient | callisto/database/utils/bank.go:13-20 | Account i goes to slice (i-1)/(M-1): the first slice takes M accounts, the others M-1. |
| BankSplit.FirstUnsafeLength | callisto/database/utils/bank.go:9-23 | Every length below 3M-1 is safe and 3M-1 is the first that is not. |
| BankSplit.SaveAccountsLimit | callisto/database/auth.go:19-36 | SaveAccounts is safe up to 196603 accounts and fails at 196604. |
| DelegationTotal.TotalDelegationAmount | callisto/modules/actions/handlers/delegation_total.go:34-49 | The nested loops compute the walk over the entries as they were when each delegation began. |
| DelegationTotal.DelegationEffect | callisto/modules/actions/handlers/delegation_total.go:37-49 | A delegation raises its denom's total by amount times the current number of entries, leaves other totals, and adds one entry per entry of another denom. |
| DelegationTotal.SingleDenomExact | callisto/modules/actions/handlers/delegation_total.go:34-53 | With one denom the result is one entry with the exact sum. |
| DelegationTotal.TotalsNeverTooSmall | callisto/modules/actions/handlers/delegation_total.go:34-49 | No total is below the true sum. |
| DelegationTotal.TotalsRightIff | callisto/modules/actions/handlers/delegation_total.go:34-49 | All totals are right if and only if nothing of positive amount follows two different denoms. |
| DelegationTotal.ThirdDelegationCountsTwice | callisto/modules/actions/handlers/delegation_total.go:37-49 | Two denoms and then the first again: the totals are wrong. |
| StakingPool.GetTotalUnbondingDelegationsFromValidator | callisto/modules/staking/utils_staking_pool.go:55-73 | Follows the page keys to the end and returns all delegations, or none when a page fails. |
| StakingPool.GetStakingPool | callisto/modules/staking/utils_staking_pool.go:13-44 | unbonding is the sum of all entry balances over the validators whose walk did not fail, and unbonding + stakedNotBonded = notBonded. |
| StakingPool.BalanceLaws | callisto/modules/staking/utils_staking_pool.go:31-35 | A delegation counts the sum of its entries: one entry counts itself, two lists their sums. |
| StakingPool.SumLaws | callisto/modules/staking/utils_staking_pool.go:26-38 | The pool's unbonding is the sum over the validators; one counts all its delegations, or nothing when its walk failed. |
| StakingPool.RaisedSum | callisto/modules/staking/utils_staking_pool.go:26-38 | Raising any one entry of any validator by n raises the unbonding tokens by n. |
| StakingPool.UpdateStakingPool | callisto/modules/staking/handle_periodic_operations.go:34-54 | That pool, at the last stored height, is what is saved; on any failure the database stays as it is. |
| StakingPool.UnbondingAgrees | callisto/modules/staking/utils_staking_pool.go:55-73 | A validator's result is the true list, or it is given up, the latter exactly when a page on its way fails. |
| StakingPool.UnbondingIsPages | callisto/modules/staking/utils_staking_pool.go:55-73 | When the pages of a validator, each naming the key of the next, all come through, the result is their delegations joined in order. |
| StakingPool.NeverOvercounts | callisto/modules/staking/utils_staking_pool.go:24-38 | With non-negative balances the sum never exceeds the true total, and equals it when no walk fails. |
| BlockFees.TotalFees | safrochain_api_indexeur/src/modules/block/block.service.ts:166-189 | Denoms once each in first-seen order with exact sums, in objects of its own; no transaction's fee object changes, though coins may be shared and totals are updated in place. |
| BlockFees.Accumulate | safrochain_api_indexeur/src/modules/block/block.service.ts:177-186 | One coin raises the total of its denom, or is copied as a new total. |
| BlockFees.AddedAllIsTotals | safrochain_api_indexeur/src/modules/block/block.service.ts:172-189 | Adding coin by coin gives each denom once, in first-seen order, with its exact sum. |
| BlockFees.TotalsUnique | safrochain_api_indexeur/src/modules/block/block.service.ts:172-189 | First-seen order and exact sums determine the result. |
| BlockFees.RowOrderIrrelevant | safrochain_api_indexeur/src/modules/block/block.service.ts:167-170 | The query has no order: that may change the order of the totals, but no total. |
| BlockFees.AllCoinsOfOne | safrochain_api_indexeur/src/modules/block/block.service.ts:172-177 | A transaction brings no coin without an amount, its coin when it is one, all of them when it is an array. |
| BlockFees.AddedCoins | safrochain_api_indexeur/src/modules/block/block.service.ts:172-189 | A coin is among those added up exactly when the fee of some transaction names it. |
| BlockFees.TotalLaws | safrochain_api_indexeur/src/modules/block/block.service.ts:178-184 | A total is a sum: of one coin its amount if the denom is its own, of two lists both totals together. |
| BlockFees.FetchedRows | safrochain_api_indexeur/src/modules/block/block.service.ts:167-170 | The first 1000 rows, all of them if there are no more. |
| CoinArrays.RemoveEmpty | callisto/database/types/coins.go:27-35 | Keeps the non-empty strings in order. |
| CoinArrays.ScanCoins | callisto/database/types/coins.go:118-139 | The deletions, replacement, split and parse of one text, with the index error of a part without a comma. |
| CoinArrays.ScanRenderRoundTrip | callisto/database/types/coins.go:58-139 | For every list of coins free of the special characters, the empty list included, scanning the rendered array gives back the same list. |
| CoinArrays.ScanValueRoundTrip | callisto/database/types/coins.go:58-76 | The same for a single coin. |
| CoinArrays.RenderedCoins | callisto/database/types/coins.go:58-61 | Denom before amount in parentheses, each coin quoted, the array in braces, letter by letter. |
| CoinArrays.ElementsAppend | callisto/database/types/coins.go:118-139 | The elements of an array stand side by side with one comma between any two. |
| CoinArrays.PartMeans | callisto/database/types/coins.go:128-136 | A part is a denom up to its first comma and an amount up to the next; what follows is dropped, and no comma is an error. |
| DateSerializer.SerializeDates | safrochain_api_indexeur/src/common/utils/date-serializer.util.ts:40-74 | The recursion with its key-by-key object computes the tree function, and throws when it does. |
| DateSerializer.SerializeDateMeans | safrochain_api_indexeur/src/common/utils/date-serializer.util.ts:20-35 | A date field becomes null or an ISO string of the same instant; it throws exactly on an invalid Date. |
| DateSerializer.DateLikeIff | safrochain_api_indexeur/src/common/utils/date-serializer.util.ts:57-64 | A key is date-like if and only if "date", "time", "created" or "jailed_until" occurs in it, in whatever case. |
| DateSerializer.KeyWithWord | safrochain_api_indexeur/src/common/utils/date-serializer.util.ts:57-64 | Such a word makes any key date-like, whatever stands before and after it. |
| DateSerializer.CaseIrrelevant | safrochain_api_indexeur/src/common/utils/date-serializer.util.ts:57-64 | Two keys that differ only in case are both date-like or both not. |
| DateSerializer.PlainKeys | safrochain_api_indexeur/src/common/utils/date-serializer.util.ts:57-64 | amount, denom, hash, height, memo, success, fee and other fields of transactions are not date-like. |
| DateSerializer.PlainFieldKept | safrochain_api_indexeur/src/common/utils/date-serializer.util.ts:66-73 | A text, number or other leaf under a key that is not date-like stays as it is. |
| DateSerializer.DateFieldConverted | safrochain_api_indexeur/src/common/utils/date-serializer.util.ts:20-35 | A readable text under a date-like key becomes the ISO string of its instant. |
| DateSerializer.ThrowsIffInvalid | safrochain_api_indexeur/src/common/utils/date-serializer.util.ts:40-74 | The whole call throws if and only if it reaches an invalid Date, one inside a container under a date-like key not being reached. |
| DateSerializer.ResultIsNormal | safrochain_api_indexeur/src/common/utils/date-serializer.util.ts:40-74 | The result is in normal form: no Date, and every field under a date-like key null or an ISO string. Outside such fields it has the same keys, lengths and leaves, and each of them keeps its instant, if it has one. |
| DateSerializer.KeepsIffOnlyDates | safrochain_api_indexeur/src/common/utils/date-serializer.util.ts:20-74 | The result has all keys, lengths and leaves of the input at every depth, dates keeping their instant, if and only if every date-like field that is reached holds null, a Date or a readable date string. |
| DateSerializer.TimeoutHeightIsLost | safrochain_api_indexeur/src/modules/transaction/transaction.service.ts:135-135 | The timeout_height of an IBC transfer, or any other container, number or boolean under that key, becomes null. |
| DateSerializer.FixedIffNormal | safrochain_api_indexeur/src/common/utils/date-serializer.util.ts:40-74 | The trees it leaves alone are exactly those in normal form. |
| DateSerializer.Idempotent | safrochain_api_indexeur/src/common/utils/date-serializer.util.ts:40-74 | Serializing twice is serializing once. |
| DateSerializer.NoDateRemains | safrochain_api_indexeur/src/common/utils/date-serializer.util.ts:40-74 | No Date is left anywhere in a result. |

## Left out

Assumptions about code outside the repository:

- Postgres: a statement that would touch one row twice, or breaks a unique column or a foreign key, is refused as a whole; foreign keys are asked of the rows a statement writes; the rows of a query without a full order come in any order.
- juno: worker.Process runs each block handler once for the height, and a handler's error is logged and not returned; gov is registered before upgrade.
- TypeORM: parameters are kept by name and read at execution; getMany merges the rows of one entity; an empty list is rendered as IN ().
- The Cosmos SDK: the byte limits and the sentinel of validator descriptions.

Not modelled:

- SQL text, placeholders and parameter counts; the foreign keys of fee grants, descriptions and commissions, which the code that writes them meets by itself.
- SaveSlashingParams, the proposal snapshots and the other one-row tables: the same guarded write as the tables above.
- GetProposal, deposits, votes, and Prune; SaveProposals and juno's block writer only add the ids and heights that other tables refer to.
- updateValidatorStatusAndVP and how it fills the entries that it saves.
- UpdateProposalStatus before it handles a passed proposal: an error there is a proposal whose first message is unreadable.
- address.service.ts, searchTransactions and the other lists: the same walk as getTransactions.
- The offset path of getTransactionsAdvanced beyond its first page, and sort fields other than height.
- Average gas, success rate and every placeholder statistic.
- The response mapping of blocks, transactions and messages beyond the list of rows.
- gRPC and HTTP sources, Redis, the scheduler, metrics, commands, controllers, DTO classes.

What single parts leave out:

- DailyRefetch: the failing sources (latest height, day-old height, context, block fetch) are parameters; of the block handlers only slashing's is modelled.
- ValidatorDetails: numbers are real and int instead of their text; texts are sequences of characters with a UTF-8 length.
- UpgradePlans: the chain's plan counts the operations of the block itself, as the indexer handles them before its check. An upgrade plan below the height of the block that saves it is excluded by NotInThePast, since the chain refuses such a plan.
- CursorPages: rows are compared by height, entity and a sub-number of the join; filters other than the cursor are part of the table.
- MessageQuery.GetMessages: applyDateFilters is cut into one method per group of filters; a filter that the code treats as absent (missing, empty, or 0 where it tests truth) is None. Instants, calendar parts, "now" and the lists given by the parser service are parameters. What the query selects is stated for rows with or without a timestamp; the message table has none, and RefusedIff says that a date filter is refused there.
- MessagePreload.PreloadExactIffNoTies: speaks of the rows of the query; the object mapper would merge two rows of one hash and index, which the table allows only in different partitions.
- CountsCache: the two queries of an unrestricted call are one event that brings both numbers.
- BlockFees.TotalFees: amounts are integers, while the source keeps decimal text and would throw on text that is no integer; Fetched stands for take: 1000.
- CoinArrays: the text of an array is the one Postgres renders for elements that are not empty and without quotes, backslashes or blanks; a part without a comma is None instead of a run-time panic.
- DateSerializer: reading a string as an instant and writing one are parameters with the law that writing and reading back is the identity; the numbers NaN and -0 and the key __proto__ are not represented.
- StakingPool: the page chain of each validator is assumed finite, as the source's own loop needs it.
