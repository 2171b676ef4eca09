# Midgard in Dafny

A Dafny 4.11 model of the Midgard indexer, from the chain to rows to bucketed answers, with proofs
of what the pipeline promises. `dafny verify dfyconfig.toml` checks everything.

- **Transport** (`Rpc`, `Client`, `BlockIterator`): batch replies reassembled by id, parallel
  fetches, and the resumable iterator.
- **Ingest** (`Blocks`, `EventId`, `Depth`, `Ledger`, `Origins`, `Ingest`, `Writer`, `BlockCursor`, `Sync`, `Lifetimes`): a
  block is decoded, applied to the depth tracker, buffered, and committed in one transaction per
  batch. `Ledger` says what the database is as a function of the blocks it holds, and `Origins` where
  each row comes from. `Ingest` is the
  process as a machine on values, including crashes and failed flushes. The classes in `Depth`,
  `Writer`, `BlockCursor` and `Sync` are the imperative code, each method proved to be a step, or a
  series of steps, of that machine. `LedgerTheorems` and `IngestTheorems` hold the results:
  crash and batch-size transparency over every run, failed flushes, the sparse depth log against dense replay,
  and fork rollback. `Lifetimes` runs the classes themselves, one process after another on one database.
- **Bucketing** (`Calendar`, `Intervals`, `Buckets`, `BucketTheorems`, `GroupingKey`): the calendar
  formulas against a calendar stepped day by day, floor and successor for the seven intervals,
  bucket generation, and the SQL grouping key.
- **Answers** (`Actions`, `Swaps`, `SwapFields`, `SwapVolume`, `Earnings`, `EarningsHistory`, with `Sums` and
  `Names`): keyset pagination, and per-bucket sums that equal whole-range sums.
- **Names and durations** (`Asset`, `Directions`, `Duration`, `Text`): parsers and printers.

How the pieces of the environment appear:

- Decoding is an arbitrary function from an event to records (`Decoder`); only the direction of a
  swap is modelled inside it.
- A node is its answers (`Node`), which may differ at every turn. An honest node, when it answers
  under a height, tells the block of the chain.
- The database is a value with an atomic commit; each flush and rollback takes the transaction's
  outcome as an argument. An insert of a known height is skipped, and an insert of a known timestamp
  under a new height fails the statement.
- A sync process runs against a script of moments (node answers, tip, cancellation, commit
  outcomes). Every theorem is for all scripts.
- A query is its filter, grouping, order and limit.

Where code and comment disagree, the model follows the code:

- `boundaries` ends at the first edge at or after `until` (`crates/midgard-db/src/buckets.rs:320-332`);
  the comment above it says strictly after.
- The safety break in the same loop (`:328-330`) can leave a monthly or quarterly window short, so
  `to` with a large `count` can lack the newest buckets. `ToCountAnchors` states the exact condition,
  `MonthAndQuarterReachEnd` the counts and `WideMonthsMissNewest` what goes missing.
- A failed flush is only logged, and the next turn of the loop adds the same block again, although
  it is still buffered (`crates/midgard/src/sync.rs:165-171`). Its rows are then committed twice, so
  the promise that re-syncing is always a recovery holds only if that block has none, or if the
  process restarts first. `CrashAndBatchTransparency` counts the repeated rows over any run and says
  the database is right exactly when none was committed; `FailedFlushRetried` is about one block, and
  `RetryRepeatsRows` is a concrete failing run.
- A swap with RUNE on neither side is recorded as RUNE to asset
  (`crates/midgard-record/src/events.rs:537-541`), so its volume need not be RUNE at all;
  `VolumeOfAnySwap` states exactly when it is.
- The grouping key rounds towards zero, so rows before 1970 can be filed one bucket late;
  `KeyBeforeEpoch` states exactly when. The history theorems are for nonnegative timestamps.

## Model

| member | source | states |
|---|---|---|
| `IngestTheorems.CrashAndBatchTransparency` | crates/midgard-record/src/lib.rs:7-12 | For every chain, decoder, batch size and run whatever: the log holds the first `n` blocks, contiguous in height; `n` and the buffer account for every block delivered, and `n` alone does when the last step committed; and the database equals the one that adding those `n` blocks uninterrupted and flushing once writes, if and only if no row of a block delivered again after a failed flush was committed |
| `IngestTheorems.RunInvariant` | crates/midgard/src/sync.rs:121-205 | After every run: the database and the buffer hold exactly the log of the blocks delivered, the next height is the one after them (or the last of them again after a failed flush), at most one batch is uncommitted, and unless rows were repeated the event rows, depth rows and tracker are exactly those of the blocks delivered |
| `IngestTheorems.StepKeeps` | crates/midgard-record/src/writer.rs:114-157 | Every kind of step, successful or not, keeps the invariant, delivering at most one block; one whose writes the database accepts succeeds |
| `IngestTheorems.RunKeeps` | crates/midgard/src/sync.rs:90-205 | So does every run; what is committed never shrinks |
| `IngestTheorems.RestartHolds` | crates/midgard-record/src/writer.rs:76-103 | A process started on a database with the log of `c` blocks is in the state of one that has delivered exactly those blocks |
| `IngestTheorems.StraightRun` | crates/midgard-record/src/writer.rs:206-233 | Adding `n` blocks and flushing once commits exactly the ledger of `k + n` blocks |
| `IngestTheorems.RetryWithoutRestart` | crates/midgard-record/src/writer.rs:141-157 | Adding a block again after its flush failed: the next commit succeeds, and its database is the right one if and only if the block has no rows |
| `IngestTheorems.FailedFlushRetried` | crates/midgard/src/sync.rs:165-205 | After a flush fails in either mode and at any point, and any number of retries in any modes without a restart, the next commit gives the right database if and only if the block has no rows |
| `IngestTheorems.RetryRepeatsRows` | crates/midgard/src/sync.rs:165-171 | One concrete block whose flush fails once and is retried: its row is committed twice |
| `IngestTheorems.RetriesRepeat` | crates/midgard/src/sync.rs:165-205 | Each retry repeats the rows of the one block at the cursor |
| `IngestTheorems.AdmissibleRepeatsNothing` | crates/midgard/src/sync.rs:165-205 | When no block with rows is delivered again before the next restart, no row is repeated |
| `IngestTheorems.AcceptedIsAdmissible` | crates/midgard-record/src/writer.rs:206-233 | A process all of whose writes but the last are accepted never delivers a block again |
| `IngestTheorems.ForkResync` | crates/midgard-db/src/block_log.rs:143-172 | Rolling back to a fork, restarting, and syncing the other branch, whatever the run, leaves what an uninterrupted fresh sync of that branch leaves, if and only if no repeated row was committed |
| `Ingest.BufferedKeeps` | crates/midgard-record/src/writer.rs:114-146 | Decoding the next block extends the buffered rows and the tracker to those of one more block |
| `Ingest.BufferedAgain` | crates/midgard-record/src/writer.rs:114-146 | Decoding the last block again adds no log row but repeats its event rows |
| `Ingest.FlushCommits` | crates/midgard-record/src/writer.rs:206-252 | A flush the database accepts commits everything buffered and empties the buffer |
| `Ingest.FlushKeeps` | crates/midgard-record/src/writer.rs:206-233 | A flush commits everything buffered or changes nothing |
| `Ingest.AddKeeps` | crates/midgard-record/src/writer.rs:114-157 | `add`, of the next block or of the last one again, leaves it buffered or committed, and commits nothing when it fails |
| `Ingest.InsertFresh` | crates/midgard-record/src/writer.rs:236-252 | Rows with new heights and new timestamps are all inserted, in order |
| `Sync.Syncer.constructor` | crates/midgard/src/sync.rs:69-88 | A new process on an existing database is the restarted process: cursor at the ends of the log, depths restored |
| `Sync.Syncer.CatchUp` | crates/midgard/src/sync.rs:144-181 | Whatever the node and database do, batched catch-up amounts to consecutive catch-up steps of the ingest machine, one per turn, and ends only on a failed flush, cancellation, a node that does not answer, or the tip |
| `Sync.Syncer.Follow` | crates/midgard/src/sync.rs:183-205 | Following amounts to consecutive follow steps (add, flush, then move the cursor), ending only on a failed flush, a node that does not answer, or the tip |
| `Sync.Syncer.Step` | crates/midgard/src/sync.rs:121-142 | One iteration does nothing without a tip or when the next height is past it, catches up when more than ten blocks behind, and follows otherwise |
| `Sync.Syncer.Run` | crates/midgard/src/sync.rs:90-118 | The life of a process is a run of the ingest machine whose steps carry, in order, the outcomes of moments of the script; when cancelled it ends with a flush |
| `Lifetimes.Serve` | crates/midgard-record/src/lib.rs:7-12 | Any number of processes one after another on one database, each cancelled or killed anywhere: as long as no repeated row is committed the database is that of the run their steps make up, holding every block delivered when that run ends in a commit; and when no process outlives a refused write it is the uninterrupted run's |
| `Lifetimes.OneMoreLife` | crates/midgard/src/sync.rs:69-118 | Starting one more process on what the last one left continues the same run with a restart, and stays admissible when only its last write is refused |
| `Writers.BlockWriter.constructor` | crates/midgard-record/src/writer.rs:62-74 | A new writer has nothing buffered, no depths, and a batch size of at least one |
| `Writers.BlockWriter.Restore` | crates/midgard-record/src/writer.rs:76-103 | Without timestamp ties the restored depths are the latest row of every pool, whatever order the query answers in |
| `Writers.BlockWriter.Add` | crates/midgard-record/src/writer.rs:114-157 | Database, buffer, tracker and outcome after `add`, for either outcome of the flush |
| `Writers.BlockWriter.Decode` | crates/midgard-record/src/writer.rs:117-146 | Begin-block, successful-transaction and end-block events are decoded in order, the touched depths and the log entry buffered, the dirty list cleared |
| `Writers.BlockWriter.PushAll` | crates/midgard-record/src/writer.rs:117-139 | A phase of events gives exactly the rows and depth movements of its events, in order |
| `Writers.BlockWriter.Push` | crates/midgard-record/src/writer.rs:159-203 | One event gives the rows and movements of its decoded records; unknown kinds are remembered, ignored and undecodable ones leave no trace |
| `Writers.BlockWriter.PushRecords` | crates/midgard-record/src/writer.rs:170-185 | Several records of one event are applied in order under the same id |
| `Writers.BlockWriter.Flush` | crates/midgard-record/src/writer.rs:206-233 | All three row sets are committed together and the buffers cleared, or nothing changes |
| `Writers.RowsInPhases` | crates/midgard-record/src/writer.rs:117-139 | Pushing the three phases one after another is pushing the block |
| `Writers.Database.DeleteFromHeight` | crates/midgard-db/src/block_log.rs:149-172 | The database after a rollback, for a logged and an unlogged height, and for a transaction that fails |
| `Writers.ClearTables` | crates/midgard-db/src/block_log.rs:160-166 | Clearing table after table leaves exactly the rows older than the timestamp |
| `Writers.AllTablesCleared` | crates/midgard-db/src/tables.rs:11-44 | The table list misses no table, so no row at or after the timestamp survives in any of them |
| `BlockCursors.BlockCursor.Observe` | crates/midgard-db/src/block_log.rs:90-95 | The far end moves to the observed block; the near end is set once |
| `BlockCursors.BlockCursor.Refresh` | crates/midgard-db/src/block_log.rs:71-79 | Each end is replaced only when the log has a row for it |
| `BlockCursors.WindowCoversLast` | crates/midgard-db/src/block_log.rs:101-104 | The default window reaches past the last block, by no more than a second |
| `BlockCursors.WindowCoversFirst` | crates/midgard-db/src/buckets.rs:224-226 | It starts at or before the first block exactly when that is not before 1970 or falls on a whole second |
| `LedgerTheorems.RollbackIsUndo` | crates/midgard-db/src/block_log.rs:143-172 | With timestamps strictly increasing, rolling back a logged height leaves exactly the database of the blocks below it |
| `LedgerTheorems.RollbackOfUnknownHeight` | crates/midgard-db/src/block_log.rs:149-158 | A height that is not logged rolls nothing back |
| `LedgerTheorems.ReplayAgrees` | crates/midgard-record/src/lib.rs:7-12 | The ledger depends only on the blocks replayed, so chains that agree below a fork share its past |
| `LedgerTheorems.DepthLogIsDense` | crates/midgard-record/src/depth.rs:185-194 | The sparse log answers what dense replay would: the latest row at or before any time is the opening depth plus every movement of the blocks up to that time |
| `LedgerTheorems.CurrentIsSum` | crates/midgard-record/src/depth.rs:70-148 | The live depth of a pool is its opening depth plus everything the blocks moved in it |
| `LedgerTheorems.RestoreIsLive` | crates/midgard-record/src/writer.rs:76-103 | For every pool the log read back agrees with the live tracker, in depth and in whether the pool is known |
| `LedgerTheorems.RestoredMapIsLive` | crates/midgard-record/src/writer.rs:76-103 | The whole restored map is the live tracker's map |
| `LedgerTheorems.ReplayHasNoTies` | crates/midgard-record/src/writer.rs:253-277 | No pool ever has two depth rows with one timestamp |
| `LedgerTheorems.ReplayLog` | crates/midgard-record/src/writer.rs:236-252 | The log has one row per block, in height order |
| `LedgerTheorems.LogIsBlocks` | crates/midgard-record/src/writer.rs:236-252 | The log has one row per block, in height order, with the block's own height, timestamp and hash |
| `LedgerTheorems.ReplayIsOlder` | crates/midgard-record/src/writer.rs:253-277 | Every row is older than every later block |
| `Ledgers.LatestIsOnlyAnswer` | crates/midgard-record/src/writer.rs:80-92 | The restoring query has an answer, and without ties only one |
| `Depths.AfterAllEffect` | crates/midgard-record/src/depth.rs:51-68 | The tracker is the running sum of the movements; a pool is dirty and known exactly when a movement names it; a clean pool is unchanged |
| `Depths.DirtyHasNoDuplicates` | crates/midgard-record/src/depth.rs:59-68 | No pool is ever listed as touched twice |
| `Depths.DepthTracker.Load` | crates/midgard-record/src/depth.rs:46-49 | Loading replaces the depths and clears the dirty list |
| `Depths.DepthTracker.Touch` | crates/midgard-record/src/depth.rs:59-68 | A touched pool is known and listed once; everything else is unchanged |
| `Depths.DepthTracker.Apply` | crates/midgard-record/src/depth.rs:70-148 | For every kind of event, field by field from the event: which pool changes, by how much in asset, RUNE, synth and units, and that every other pool is as before; and the tracker is that of its movements |
| `Depths.MovesApply` | crates/midgard-record/src/depth.rs:70-183 | The same of the movements the ledger is made of: stake, add and errata add asset to asset and RUNE to RUNE, withdraw takes both and returns the protection, slash goes by the slashed asset, fee and gas go to the asset's pool, a swap moves all its legs, rewards go to each pool named |
| `Depths.DepthTracker.ApplySwap` | crates/midgard-record/src/depth.rs:150-183 | A swap mints or redeems synths against the RUNE side, or moves both sides, in that order of precedence |
| `Depths.DepthTracker.TakeChanged` | crates/midgard-record/src/depth.rs:185-194 | The touched pools with their current depths, once; the list is cleared and the depths kept |
| `EventIds.OrderIsChainOrder` | crates/midgard-db/src/eventid.rs:80-92 | Within the documented budget, comparing encoded ids is comparing height, phase, transaction and event |
| `EventIds.FitsInI64` | crates/midgard-db/src/eventid.rs:126-140 | Within the budget an id fits 64 bits and lies in its block's range, and the height is read back from it |
| `EventIds.ParseInverts` | crates/midgard-db/src/eventid.rs:93-118 | Parsing undoes the encoding, except that end-block events report the pseudo transaction |
| `Blocks.BlockEventsExact` | crates/midgard-chain/src/types.rs:48-108 | An event is visited exactly when it stands at a position of the block and its first readable "mode" attribute is "EndBlock" (under its end-block id), is "BeginBlock" or absent (under its begin-block id), or when it belongs to a transaction that did not fail; in strict chain order, so at most once |
| `Blocks.VisitsByMode` | crates/midgard-chain/src/types.rs:48-63 | The event at position `k` is visited under its end-block id if and only if its mode is "EndBlock", under its begin-block id if and only if its mode is "BeginBlock" or absent, and not at all for any other mode |
| `Blocks.AttrFindsMode` | crates/midgard-chain/src/types.rs:84-95 | Looking up an attribute finds the first one with the key and a readable value |
| `Blocks.RunIdsIncrease` | crates/midgard-record/src/writer.rs:117-139 | Over a whole run of blocks within the budget, the ids `add` assigns strictly increase |
| `Origins.RowsHaveOrigins` | crates/midgard-record/src/writer.rs:117-204 | The database of `n` blocks holds, after the seeded rows, exactly one row for each record decoded from each visited event of each block, in visiting order, under the event's id and the block's timestamp |
| `Origins.RowIdsIncrease` | crates/midgard-record/src/writer.rs:117-164 | Over a whole run, rows of different events carry strictly increasing ids, and rows share an id only when one event gave them |
| `Origins.DepthsFollowRows` | crates/midgard-record/src/depth.rs:70-148 | The live depths are what the recorded rows, one after another, do to the opening depths |
| `Blocks.IdsInBudget` | crates/midgard-db/src/eventid.rs:8-27 | A block within the size limits gets only ids within the budget |
| `Calendar.CivilIsSteppedDate` | crates/midgard-db/src/buckets.rs:417-433 | For every day, before 1970 too, the closed formula is the proleptic Gregorian calendar stepped day by day from 1970-01-01 |
| `Calendar.EpochOfCivil` | crates/midgard-db/src/buckets.rs:435-444 | The date of any second is valid, and its epoch second is that day's midnight |
| `Calendar.CivilOfEpoch` | crates/midgard-db/src/buckets.rs:421-444 | Every second of every valid date, in any year, is read back as that date |
| `Calendar.DaysFromCivilInjective` | crates/midgard-db/src/buckets.rs:435-444 | No two valid dates share a day number |
| `Calendar.SteppedDateIsValid` | crates/midgard-db/src/buckets.rs:417-433 | The stepped calendar has only valid dates and counts them without gap |
| `Intervals.TruncateIsFloor` | crates/midgard-db/src/buckets.rs:363-391 | `truncate` is the largest edge at or before a second, which lies before the next edge |
| `Intervals.TruncateIsMonotone` | crates/midgard-db/src/buckets.rs:363-391 | `truncate` is idempotent and monotone |
| `Intervals.AdvanceIsSuccessor` | crates/midgard-db/src/buckets.rs:394-415 | `advance` maps an edge to the next one with none between |
| `Intervals.EdgeLength` | crates/midgard-db/src/buckets.rs:86-110 | Every bucket is at least `min_duration` and at most `max_duration` long |
| `Intervals.EdgeIsEdge` | crates/midgard-db/src/buckets.rs:363-415 | Numbering the edges covers exactly the fixed points of `truncate` |
| `Intervals.TruncateIsEdge` | crates/midgard-db/src/buckets.rs:363-391 | `truncate` lands on the numbered edge the second lies in |
| `Intervals.AdvanceIsNextEdge` | crates/midgard-db/src/buckets.rs:394-415 | `advance` adds one to the edge number |
| `Buckets.Boundaries` | crates/midgard-db/src/buckets.rs:305-343 | The consecutive edges from the one at or before `from` to the first at or after `until`, cut short by the safety break, or the error |
| `Buckets.Restrict` | crates/midgard-db/src/buckets.rs:350-360 | Trailing buckets that start after the data and leading ones that end before it are dropped, keeping one |
| `Buckets.Generate` | crates/midgard-db/src/buckets.rs:224-299 | The outcome for every combination of parameters, errors included |
| `BucketTheorems.GenerateShape` | crates/midgard-db/src/buckets.rs:224-299 | Every success with an interval has 2 to 401 boundaries, each a fixed point of `truncate` and each the `advance` of the one before |
| `BucketTheorems.GenerateErrs` | crates/midgard-db/src/buckets.rs:224-323 | Exactly when a request is refused; in particular never with a valid `count` and at most one of `from` and `to` |
| `BucketTheorems.ErrorTold` | crates/midgard-db/src/buckets.rs:224-323 | Which error a refused request is told |
| `BucketTheorems.OneSpan` | crates/midgard-db/src/buckets.rs:224-238 | Without an interval the answer is the one span from `from` to `to`, defaulting to the data; a count is refused |
| `BucketTheorems.WindowIsCovered` | crates/midgard-db/src/buckets.rs:240-250 | Without a count, a window of at most 400 buckets within the data is answered from the edge at or before `from` to the first edge at or after `to` |
| `BucketTheorems.WindowIsAnswered` | crates/midgard-db/src/buckets.rs:240-250 | Without a count, every bucket answered meets the window, and every one of the first 400 buckets of the window that meets the data is answered |
| `BucketTheorems.RestrictKeepsData` | crates/midgard-db/src/buckets.rs:345-360 | Restriction keeps a contiguous run of at least one bucket and every bucket that meets the data |
| `BucketTheorems.FromCountAnchors` | crates/midgard-db/src/buckets.rs:264-298 | `from` and `count`: exactly `count` buckets from the edge at or before `from`, when the data spans them |
| `BucketTheorems.FromCountKeeps` | crates/midgard-db/src/buckets.rs:264-298 | `from` and `count`, whatever data there is: every one of the first `count` buckets that meets the data is in the answer |
| `BucketTheorems.ToCountAnchors` | crates/midgard-db/src/buckets.rs:264-332 | `to` and `count`, whatever data there is: unless the safety break cuts the window short, every one of the last `count` buckets that meets the data is in the answer; when `to` lies within the data, the newest of them is in the answer if and only if the break does not |
| `BucketTheorems.ToCountIsExact` | crates/midgard-db/src/buckets.rs:264-332 | When the data spans them all, the answer is exactly the last `count` buckets, if and only if the break does not cut the window short |
| `BucketTheorems.LastBucketsEndAtCeiling` | crates/midgard-db/src/buckets.rs:320-332 | Those buckets are consecutive and end at the first edge at or after `to` |
| `BucketTheorems.FixedAndYearReachEnd` | crates/midgard-db/src/buckets.rs:318-332 | Fixed-length and yearly buckets are never cut short, for every count from 1 to 400 |
| `BucketTheorems.MonthAndQuarterReachEnd` | crates/midgard-db/src/buckets.rs:318-332 | Monthly and quarterly windows are never cut short for counts up to 394, and always from 396 on |
| `BucketTheorems.WideMonthsMissNewest` | crates/midgard-db/src/buckets.rs:318-332 | 396 or more months or quarters up to a moment within the data always lack the newest one, which meets the data |
| `GroupingKey.TruncateIsDateTrunc` | crates/midgard-db/src/buckets.rs:72-83 | For every second and interval, `truncate` is `date_trunc` on the stepped calendar (and a multiple of 300 for five minutes) |
| `GroupingKey.EdgesAre` | crates/midgard-db/src/buckets.rs:363-391 | The edges are exactly the midnights (or multiples) that start an interval: Mondays, first days of months, of January, April, July and October, and of January |
| `GroupingKey.GroupKeyIsTruncate` | crates/midgard-db/src/buckets.rs:182-191 | For every nonnegative nanosecond the SQL key, five-minute rounding first, is `truncate` of its second |
| `GroupingKey.GroupKeyNamesItsBucket` | crates/midgard-db/src/buckets.rs:175-191 | A row in range is keyed to the start of the one bucket that contains it, and to no other |
| `GroupingKey.KeyedIsInBucket` | crates/midgard-db/src/buckets.rs:175-191 | A row is selected and keyed to bucket `j` if and only if it lies in bucket `j` |
| `GroupingKey.KeyBeforeEpoch` | crates/midgard-db/src/buckets.rs:182-191 | Before 1970 the key names the row's bucket if and only if the five-minute mark the division rounds up to starts no bucket, or is the row's own time |
| `GroupingKey.GenerateIsWellFormed` | crates/midgard-db/src/buckets.rs:224-299 | Whatever `generate` answers meets the assumption of the history endpoints |
| `Rpc.CallBatch` | crates/midgard-chain/src/rpc.rs:105-187 | The outcome of a batch for every reply |
| `Rpc.BatchIsOrderCorrect` | crates/midgard-chain/src/rpc.rs:151-208 | A batch succeeds exactly when there are as many responses as requests, every request id is answered and no response has an error or lacks a usable result; then ids are a permutation of the requests' and result `i` answers request `i` |
| `Rpc.BatchFaults` | crates/midgard-chain/src/rpc.rs:137-208 | What a failing batch reports: no array, the wrong count, an unusable id, or the first id that is missing or carries no result |
| `Rpc.Pigeonhole` | crates/midgard-chain/src/rpc.rs:151-187 | As many responses as requests that cover all ids repeat none and carry no other |
| `Client.FetchRangeInOrder` | crates/midgard-chain/src/client.rs:121-164 | A fetched range is exactly the heights asked for, in order, for every parallelism |
| `Client.FetchRangeTells` | crates/midgard-chain/src/client.rs:121-217 | From an honest node a fetched range is the chain's own blocks |
| `Client.FetchRangeSucceeds` | crates/midgard-chain/src/client.rs:121-164 | From an honest node that answers, the fetch succeeds |
| `Client.FetchBlockTells` | crates/midgard-chain/src/client.rs:107-116 | From an honest node a fetched block is the chain's block at that height |
| `Client.FetchBlockExact` | crates/midgard-chain/src/client.rs:107-217 | A single fetch succeeds exactly when both calls do and both answers are for that height |
| `Client.FetchBatchExact` | crates/midgard-chain/src/client.rs:147-217 | A batch succeeds exactly when both calls do and every answer is for its own height; each block is made of the two results at its place |
| `BlockIterators.BlockIterator.Next` | crates/midgard-chain/src/client.rs:245-260 | The new state and the result of a call, a failed fetch leaving the state alone |
| `BlockIterators.NextYieldsPosition` | crates/midgard-chain/src/client.rs:245-260 | A call yields the height at the current position and moves one on, or reports the end, or fails without moving |
| `BlockIterators.WalkYieldsEachHeightOnce` | crates/midgard-chain/src/client.rs:235-260 | Over any series of calls, failures included, each height is yielded once and in order |
| `BlockIterators.NextYieldsChain` | crates/midgard-chain/src/client.rs:245-260 | From honest nodes the blocks yielded are the chain's own |
| `Actions.GetActions` | crates/midgard-api/src/handlers/actions.rs:39-96 | The page is the newest `limit` matching rows of all tables asked for, newest first, and the token is its last id |
| `Actions.PageIsNewest` | crates/midgard-api/src/handlers/actions.rs:39-96 | A page holds only rows of the tables its type lists, with its address, asset and token; it has at most `limit`, newest first, and a row left out is older than all of them and the page is full |
| `Actions.WantsMeans` | crates/midgard-api/src/handlers/actions.rs:99-104 | A kind is asked for when there is no type or the comma-separated list names it, ignoring case and surrounding white space |
| `Actions.AsksMeans` | crates/midgard-api/src/handlers/actions.rs:41-67 | Which rows a request is about, from its type, address, asset and token |
| `Actions.ThreeTables` | crates/midgard-api/src/handlers/actions.rs:41-79 | Sorting and cutting three per-table limited queries gives the newest `limit` rows of their union |
| `Actions.FeedIsStrict` | crates/midgard-api/src/handlers/actions.rs:147-205 | With distinct ids, the feed lists each matching row once, newest first |
| `Actions.FeedOfSameRows` | crates/midgard-api/src/handlers/actions.rs:147-205 | With distinct ids the feed depends on which rows there are, not on the order they are stored in |
| `Actions.FeedAfterToken` | crates/midgard-api/src/handlers/actions.rs:81-96 | The feed below a page's token is the rest of the feed, rows that arrived since included |
| `Actions.PagingIsExact` | crates/midgard-api/src/handlers/actions.rs:27-97 | Asking the endpoint page after page until one is empty lists every row of the tables asked for that was there at the start and passes the filters, once, in descending order, whatever newer rows are inserted into any table in between; one request more than there are rows is enough |
| `Actions.InsertedAnywhere` | crates/midgard-api/src/handlers/actions.rs:41-67 | Inserting newer rows anywhere in the three tables is growth of that kind |
| `Actions.LimitOf` | crates/midgard-api/src/handlers/actions.rs:106-115 | A requested limit is accepted unchanged or refused; without one it is 50, or the maximum when that is less |
| `Swaps.SwapHistory` | crates/midgard-api/src/handlers/swaps.rs:92-133 | Every interval is the aggregate of its own bucket's rows in all sixteen fields, empty buckets zero, and `meta` is the aggregate of the whole range |
| `SwapFields.FieldsByAssets` | crates/midgard-api/src/handlers/swaps.rs:179-210 | The sixteen fields of a span, from the assets, pools and times of the swaps: to-asset sums those that take RUNE in and pay out no synth (and those that cannot be classified), synth-mint those that pay out a synth, to-rune and synth-redeem likewise on the way out; by count, RUNE leg, fee and slip |
| `SwapFields.CellByAssets` | crates/midgard-api/src/handlers/swaps.rs:186-206 | One row counts on exactly the side its assets say |
| `Swaps.MetaIsWhole` | crates/midgard-api/src/handlers/swaps.rs:105-130 | The buckets' totals add up to the single-span aggregate in every field: no row in range is lost or counted twice |
| `Swaps.GroupIsBucket` | crates/midgard-api/src/handlers/swaps.rs:174-210 | The group under a bucket's start is exactly the rows in the bucket |
| `Swaps.QueryGives` | crates/midgard-api/src/handlers/swaps.rs:108-113 | A bucket the query does not list reads as zero, which is its aggregate |
| `Sums.SumByGroups` | crates/midgard-api/src/handlers/swaps.rs:118-130 | When every row's key is listed once, summing the groups is summing the rows |
| `SwapVolume.VolumeIsRuneMoved` | crates/midgard-api/src/handlers/swaps.rs:186-202 | For every list of classified swaps the four direction volumes add up to the absolute changes the tracker makes to pool RUNE |
| `SwapVolume.NetVolumeIsNetChange` | crates/midgard-api/src/handlers/swaps.rs:186-202 | Their signed split, for any one pool, is the net change of that pool's RUNE |
| `SwapVolume.VolumeOfAnySwap` | crates/midgard-record/src/events.rs:533-541 | For any swap, classified or not, the recorded volume is the RUNE moved if and only if it is classified, pays out a synth, takes RUNE in, or has equal legs |
| `SwapVolume.EveryRowOnOneSide` | crates/midgard-api/src/handlers/swaps.rs:186-202 | In every measure (count, volume, fees, slip) the four directions add up to all rows, each counted on exactly one side |
| `SwapVolume.PoolVolumeIsTotalVolume` | crates/midgard-api/src/handlers/pools.rs:202-212 | The pools endpoint's volume column equals the total volume of swap history on the same rows |
| `SwapVolume.DirectionMeans` | crates/midgard-record/src/events.rs:533-541 | A recorded direction is 0 to 7; even means RUNE in, 2 and 3 a synth, 4 and 5 a trade asset, 6 and 7 a secured asset, and an unclassified pair is filed as 0 |
| `Directions.ClassifyMeans` | crates/midgard-record/src/events.rs:55-91 | A pair is classified exactly when RUNE is on one side and a known coin on the other; the reverse trade gets the opposite direction |
| `Earnings.BuildItem` | crates/midgard-api/src/handlers/earnings.rs:81-134 | Every pool on either side once, in ascending order, with its own fee, reward and sum; totals over all pools; per-pool earnings add up to `liquidity_earnings` |
| `Earnings.AddInto` | crates/midgard-api/src/handlers/earnings.rs:51-56 | Adding a bucket's map gives the pointwise sum, in whatever order its entries come |
| `Earnings.Collect` | crates/midgard-api/src/handlers/earnings.rs:166-178 | One map per bucket, holding per pool the sum of the query rows that name both |
| `EarningsHistory.History` | crates/midgard-api/src/handlers/earnings.rs:23-79 | Every interval reports exactly the rows of its bucket, `meta` those of the whole range, in every figure and every pool |
| `EarningsHistory.MetaIsSumOfIntervals` | crates/midgard-api/src/handlers/earnings.rs:43-79 | `meta` is the field-wise and per-pool sum of the intervals |
| `EarningsHistory.IntervalsAddUp` | crates/midgard-api/src/handlers/earnings.rs:43-70 | Any prefix of the intervals adds up to one item over the span it covers |
| `EarningsHistory.SumAtIsAll` | crates/midgard-api/src/handlers/earnings.rs:100-118 | Summing the pools' sums over the listed names is summing all rows in the span |
| `Names.SortDedup` | crates/midgard-api/src/handlers/earnings.rs:91-95 | Sorting and dropping repeats lists every name once, in ascending order |
| `Assets.PrintParse` | crates/midgard-core/src/asset.rs:98-142 | Printing a parsed name gives the upper-cased input, with `THOR.` in front when it has no separator |
| `Assets.ParsePrintParse` | crates/midgard-core/src/asset.rs:98-142 | For every string, parsing the printed form gives the same asset |
| `Assets.CoinTypes` | crates/midgard-core/src/asset.rs:46-84 | Which names are RUNE, synths, trade assets, secured assets, derived assets, native assets or unknown |
| `Assets.ParseShape` | crates/midgard-core/src/asset.rs:98-123 | The flags of a parsed name, and its ticker: the symbol up to the first dash |
| `Assets.PoolOfName` | crates/midgard-record/src/depth.rs:200-209 | The pool of a name with a `/` or `~` is the upper-case name with the first of them made a dot |
| `Assets.PoolOfAssetIdempotent` | crates/midgard-record/src/depth.rs:200-209 | Naming the pool of a pool changes nothing if and only if the name has at most one `/` or `~` |
| `Duration.Parse` | crates/midgard-config/src/duration.rs:61-117 | The result or the error for every input string; the loop ends because each component shortens the rest |
| `Duration.ParseUndoesDisplay` | crates/midgard-config/src/duration.rs:119-141 | Parsing a printed duration gives it back, for every duration below 2^53 nanoseconds |
| `Duration.ParseOfDisplay` | crates/midgard-config/src/duration.rs:61-141 | For every duration, what parsing its printed form gives in terms of the rounded product alone |
| `Duration.ParseAdds` | crates/midgard-config/src/duration.rs:86-111 | Concatenating two strings of components adds what they parse to, or overflows |
| `Duration.UnitsAre` | crates/midgard-config/src/duration.rs:49-59 | Which units there are and how they relate |
| `Duration.WrapIsModulo` | crates/midgard-config/src/duration.rs:113-115 | The kept duration is the parsed total modulo 2^64 seconds |
| `Duration.Signs` | crates/midgard-config/src/duration.rs:76-84 | A leading minus is refused, a leading plus makes no difference |
| `Duration.SpaceIsIgnored` | crates/midgard-config/src/duration.rs:67-67 | White space around the string makes no difference |
| `Duration.NotComponents` | crates/midgard-config/src/duration.rs:67-97 | What is refused and why: nothing, a lone plus, a number without a unit, no number; the bare zero is accepted |
| `Duration.FrontOf` | crates/midgard-config/src/duration.rs:86-102 | A number and unit at the front are read back, whatever follows |

## Left out

- HTTP, routing, SQL text, JSON, scheduling, backoff, logging and configuration loading: only the
  meaning of each query and of an atomic commit is kept.
- Attribute decoding: a deterministic function parameter, apart from the direction of a swap.
- Floating-point outputs (average slip, prices, LUVI, yields) and the printing of numbers in responses.
- The `avgNodeCount` and `runePriceUSD` fields, which do not come from the rows.
- Genesis seeding from THORNode: any opening rows older than the first block stand for it.
- Statistics, liquidity and TVL history, the response cache, and configuration merging.
- Torn reads of the cursor's two atomics: a position is read and written as a pair.
- Machine overflow of sums and heights; only event ids and durations are checked against their width.
- The event tables are one list whose rows name their table; per-pool reward entries go with their
  rewards row. `rune_price` is never written by the writer and is not kept.
- Block hashes stay strings; their conversion to bytes is not modelled.
- Ingest.InsertFresh: the conflict clause is modelled for `block_log` only; event tables have no key to conflict on.
- IngestTheorems.CrashAndBatchTransparency: block timestamps increase with height, and the seeded rows are older than the first block.
- LedgerTheorems.RollbackIsUndo: assumes block timestamps that increase with height, since rows are deleted by timestamp.
- LedgerTheorems.DepthLogIsDense: for times from the opening rows on.
- Sync.Syncer.CatchUp: a script is finite, so a process that is never cancelled is cut off where its script ends; nodes are honest and report no tip beyond the chain.
- Lifetimes.Serve: processes are killed between moments of a script, and the restoring query's answer is the latest row of every pool; once repeated rows are committed that answer can be ambiguous, and nothing is said of the tracker after it. A restart on an empty log seeds the opening rows again; here they are seeded once.
- Client.FetchRangeInOrder: chunks are fetched in order; which of several simultaneous errors is reported is not modelled, nor is the retry loop around `status`.
- Buckets.Generate: with no interval the single span may be empty or reversed, as in the code.
- Actions.PagingIsExact: assumes ids are unique and rows that arrive meanwhile are newer, which `RunIdsIncrease` gives for ids; the client that follows the tokens is a function.
- GroupingKey.GroupKeyIsTruncate: nonnegative timestamps; `KeyBeforeEpoch` covers the others.
- GroupingKey.TruncateIsDateTrunc: `date_trunc` on a timestamp with time zone follows the session's time zone, which the program never sets; the model takes it to be UTC, and all results about the grouping key rest on that.
- SwapVolume.VolumeIsRuneMoved: classified swaps; `VolumeOfAnySwap` covers the others one by one.
- EarningsHistory.History: the three grouped query results are arguments, assumed to be the groups of the rows in any order.
- Duration.ParseUndoesDisplay: double-precision multiplication is a function parameter, assumed exact for whole numbers whose product is below 2^53.
- Duration.Parse: a fractional numeral's product is whatever the parameter says, so `1.5s` has no stated value.
