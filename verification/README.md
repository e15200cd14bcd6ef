# Verification of Bellwether's path from RPC blocks to training rows

This Dafny 4.11 project models the part of Bellwether that turns what an
unreliable RPC provider reports into a labelled dataset, and proves what that
path promises.  `dafny verify dfyconfig.toml` checks all of it.

The model has four connected parts.

**Canonical store and indexer.**  `ChainStore.Store` is the mutable store of
`internal/chain` and `Coordinator.Coordinator` the coordinator that feeds it.
Their methods are proved equal to functions on values in `Chain` and `Indexing`;
the `*Laws` modules prove what those functions mean.  A provider is a
`Rpc.Session`: an arbitrary choice of every answer, failure and cancellation of
one operation, so statements about all sessions are statements about every
provider.  Main results: whole-run safety (`SafetyLaws.WholeRunIsSafe`), reorg
equals clean replay (`ChainLaws.ReorgEqualsCleanReplay`), atomic commits
(`CommitLaws.CommitIsAtomic`), the exact resync condition
(`ResyncLaws.IngestHeadExact`), the exact condition of a finality refresh
(`FinalityLaws.RefreshExactly`) and the provenance of everything stored
(`Provenance.StoredBlocksWereReported`).

**Range backfill and block assembly.**  `Backfill`, `LogOrder` and `Convert`
hold the adaptive range loop, the sorting and the duplicate checks.  Main
results: a successful backfill tiles its range whatever failed on the way
(`Backfill.BackfillTilesTheRange`, `Backfill.BackfillExact`), and leaves the same
store as the per-block live path (`ResyncLaws.BackfillRefinesLive`).

**Features, projection, validation and identity.**  `Features`, `Engine`,
`Projection`, `Rows`, `Codec`, `DatasetId` and the Solidity contract in
`Fixture`.  Main results: no look-ahead in the engine
(`EngineLaws.NoLookAhead`) and in every exported row
(`PointInTime.RowsArePointInTime`), rows read off the events alone
(`ExportedRows.RowsTellTheEvents`), per-market non-interference
(`ProjectionLaws.MarketsDoNotInterfere`), the exact set of logs the contract can
emit (`Fixture.LogsExact`), exactly when a store of them projects
(`EntryOrder.ContractRunsProjectExactly`), and a dataset stream that decodes in
one way only (`DatasetId.StreamExact`).

**The Python harness.**  `Dataset` is its independently written validator, which
is proved to agree with the exporter's (`Dataset.ValidatorsAgree`);
`WalkForward` is the fold generator and label filter, in which nothing leaks
(`WalkForward.NothingLeaks`, `WalkForward.FoldExactly`).

Beside the laws about the specification functions stand statements that do not use
them and speak of raw heights, hashes, amounts, times and bytes only, among them
`ChainLaws.AppendExactly`, `Convert.BlockExactly`, `FinalityLaws.RefreshExactly`,
`ExportedRows.RowsTellTheEvents`, `DatasetId.RowBytes`, `WalkForward.FoldExactly` and
`Fixture.ExecutedExactly`.

`RetryLaws`, `HonestRuns`, `ResyncLimits` and `TruthfulRuns` add what holds over
retries, over whole honest runs, and over runs of providers that never lie but may
fail at any query (`TruthfulRuns.TruthfulRunsHoldALedger`).  `EndToEnd`,
`ContractExport` and `EntryOrder` join the parts: the dataset does not depend on how
an honest chain was indexed, and what the contract did, told by an honest provider's
logs, arrives as a valid dataset (`ContractExport.HonestRunsExport`).

## What the proofs found

- `Append` computes `tip.Number+1` in uint64.  The run stays ordered in every
  case but one, a height-zero block on a tip at the largest height
  (`ChainLaws.AppendKeepsOrderExactly`; `ChainLaws.HeightsCanWrap` is an input),
  so the laws about direct store runs ask
  that no block offered has that height.  The indexer needs no such hypothesis
  unless it starts at height zero and stores 2^64 blocks.
- The digest's comment says that no two event streams can hash alike.  The field
  length is truncated to 32 bits, so this holds exactly for fields shorter than
  2^32 bytes (`Digest.LengthPrefixBoundIsExact`).
- `convertBlock` orders events by transaction and then log index, while every
  later consumer orders by log index alone.  The two agree exactly when the
  provider numbers logs in transaction order, which nothing checks
  (`Convert.LogIndexesAscendExactly`).  A block in which they differ is
  stored without complaint.  The export of a contract run then succeeds if and only
  if the updates of each market, and those of all resolved markets together, still
  ascend (`EntryOrder.ContractRunsProjectExactly`): two updates of one market out of
  order make the whole export fail, and so do two of different markets if both are
  resolved, while those of a market never resolved may cross any other
  (`EntryOrder.UnorderedBlockAborts` and `EntryOrder.UnorderedMarketsAbort` are
  inputs).
- The two validators disagree on one point: `strings.TrimSpace` keeps the four
  ASCII separators U+001C to U+001F, which Python's `strip` removes
  (`Dataset.SeparatorNamedMarket`).
- Announcing a head that is already stored below the tip does not roll the store
  back to it.  Short of a resync this is the only way in which the store can differ
  from the last honest chain reported (`HonestRuns.LastLedgerExactly`;
  `ResyncLimits.StaleHeadOccurs` is an input).

## How the model reads

A `uint64` is a natural number below 2^64 and every wrap is written out.  Hashes
and 32-byte identifiers of the store are natural numbers below 2^256 (their
big-endian values); market IDs are byte strings.  SHA-256 is an arbitrary
function, so nothing rests on a property no real function has: injectivity is
stated as "equal, or here is a collision".  Instants are integers in
nanoseconds.  Features are computed over the reals; a sum that would overflow
float64 is one that exceeds a parameter `limit`, on which no result depends.
`uint64(x)` and `int64(x)` conversions are explicit.  The event decoder of a log
and that of a stored event are arbitrary partial functions.

## Model

| member | source | states |
|---|---|---|
| `ChainStore.Store.constructor` | internal/chain/chain.go:44-48 | a new store is coherent and empty: no blocks, no levels, zero digest |
| `ChainStore.Store.Tip` | internal/chain/chain.go:51-56 | the last block, or none |
| `ChainStore.Store.ByNumber` | internal/chain/chain.go:62-69 | the first stored block of the height, or none exactly when no block has it |
| `ChainStore.Store.Append` | internal/chain/chain.go:74-88 | new blocks, levels and state and the error are those of the specification `Append`: push onto an empty store or a linked tip, no-op on an exact duplicate, refusal otherwise; levels stay parallel and state stays the fold of the blocks |
| `ChainStore.Store.Rollback` | internal/chain/chain.go:97-109 | cuts blocks and levels at the first block above the height, returns what was cut, and refolds the state to that of the remaining blocks |
| `ChainStore.Store.Rebuild` | internal/chain/state.go:57-62 | the rebuilt state is the fold of the stored blocks, whatever it was before |
| `ChainStore.Store.CheckLinear` | internal/chain/chain.go:118-151 | decides whether a branch is linked, heights and parent hashes |
| `ChainStore.Store.Extend` | internal/chain/chain.go:118-151 | attaches an accepted branch as seen, with the state advanced block by block equal to a fresh fold |
| `ChainStore.Store.Reorg` | internal/chain/chain.go:114-151 | new store, dropped blocks and error are those of the specification `Reorg`; a refused branch leaves everything as it was |
| `ChainStore.Store.NewestShared` | internal/chain/chain.go:168-191 | the backward scan finds the last candidate block that is stored, or none |
| `ChainStore.Store.Reconcile` | internal/chain/chain.go:157-191 | new store, dropped blocks and error are those of the specification `Reconcile`, bounded or not |
| `ChainStore.Store.CheckpointAt` | internal/chain/finality.go:117-127 | the last position at or above the level, or none |
| `ChainStore.Store.Checkpoint` | internal/chain/finality.go:109-115 | the block at that position |
| `ChainStore.Store.FinalityOf` | internal/chain/finality.go:99-106 | the level of the first block with the hash, or seen for an unknown hash |
| `ChainStore.Store.Raise` | internal/chain/finality.go:30-58 | the loop raises exactly the levels up to the index that are lower, and no other |
| `ChainStore.Store.MarkFinality` | internal/chain/finality.go:30-58 | new levels and error are those of the specification, checked in the order of the code; blocks and state are untouched |
| `ChainStore.Store.MarkCheckpoints` | internal/chain/finality.go:62-96 | both marks on a staged copy or none at all; blocks and state are untouched |
| `ChainLaws.AppendExactly` | internal/chain/chain.go:74-88 | Append on the blocks alone: a block that builds on the tip or comes first is added as seen; of the others a stored one is a no-op and exactly the rest are refused as not linear, without effect |
| `ChainLaws.AppendKeepsOrderExactly` | internal/chain/chain.go:74-88 | Append keeps the run gap-free if and only if it is not a height-zero block on a tip at the largest uint64, where `tip.Number+1` wraps |
| `ChainLaws.HeightsCanWrap` | internal/chain/chain.go:78-88 | the case is real: two accepted appends to a fresh store, at the largest height and at height zero, that leave it out of order |
| `ChainLaws.ReappendIsNoOp` | internal/chain/chain.go:74-88 | appending a stored block again changes nothing and reports no error |
| `ChainLaws.RefusalExact` | internal/chain/chain.go:118-151 | exactly which branches reorg refuses and with which error: unanchored, broken, or an ancestor below the finalized checkpoint or deeper than the bound |
| `ChainLaws.ReorgExact` | internal/chain/chain.go:118-151 | a branch that is not refused replaces everything above its ancestor and nothing else, with refolded state and all-seen levels, and reports exactly the blocks it dropped |
| `ChainLaws.ReorgDecides` | internal/chain/chain.go:114-151 | a reorg does nothing, is refused without effect, or installs its branch |
| `ChainLaws.ReconcileExact` | internal/chain/chain.go:157-191 | a broken candidate is refused without effect; otherwise exactly the part above the newest shared block is put through reorg |
| `ChainLaws.MarkKeeps` | internal/chain/finality.go:30-58 | marking keeps the store sound, leaves blocks and state alone, changes nothing on error, and only extends the finalized prefix |
| `ChainLaws.CheckpointsKeep` | internal/chain/finality.go:62-96 | the same for a pair of checkpoints, including that an error after the first mark leaves no trace |
| `ChainLaws.RunKeeps` | internal/chain/chain.go:74-191 | any sequence of store operations, accepted or refused, keeps the store gap-free, folded and in falling finality, and its finalized prefix only grows |
| `ChainLaws.AppendsRebuild` | internal/chain/state.go:53-62 | a fresh store accepts every block of a gap-free run by Append alone and arrives at its fold |
| `ChainLaws.ReorgEqualsCleanReplay` | internal/chain/chain.go:74-191 | after any run of Append, Reorg, Reconcile, ReconcileBounded and the marks, a fresh store fed the final blocks by Append accepts them all and has the same blocks and state; replaying the chain into the store itself changes nothing |
| `Digest.FoldBlock` | internal/chain/state.go:18-39 | the writes into the hasher add up to the specified preimage of a block |
| `Digest.FoldConcat` | internal/chain/state.go:42-48 | folding a concatenation is folding the second part from the state of the first |
| `Digest.StateSummary` | internal/chain/state.go:10-14 | the state of a chain has the height of its last block and the number of all its events |
| `Digest.PreimageParts` | internal/chain/state.go:18-39 | the bytes before the events are the previous digest, the block hash and the timestamp, big-endian |
| `Digest.EventParts` | internal/chain/state.go:18-39 | the bytes of an event are its log index, then its kind and its data, each after its four-byte length |
| `Digest.EventsInjective` | internal/chain/state.go:18-39 | with fields shorter than 2^32 bytes an event stream can be read back in one way only |
| `Digest.LengthPrefixBoundIsExact` | internal/chain/state.go:18-39 | encoded event streams are injective up to a field-length limit if and only if that limit is at most 2^32, because the length prefix is truncated to uint32 |
| `Digest.TruncatedClash` | internal/chain/state.go:18-39 | two different events, one field of 2^32 bytes each, that are written as the same bytes |
| `Digest.PreimageInjective` | internal/chain/state.go:18-39 | equal preimages have equal previous digest, block hash, timestamp and events |
| `Digest.DigestSeparatesChains` | internal/chain/state.go:16-48 | equal digests mean equal sequences of block hash, timestamp and events, or a collision or zero output of SHA-256 among the inputs really hashed |
| `LogOrder.SortIgnoresArrangement` | internal/base/backfill.go:114-122 | any two arrangements of the same logs, no two different ones at one position, sort to the same sequence |
| `LogOrder.SortPermutes` | internal/base/backfill.go:114-122 | sorting keeps every log with its multiplicity |
| `LogOrder.SortSorts` | internal/base/backfill.go:114-122 | the result is sorted by the comparison given |
| `LogOrder.CanonicalOrder` | internal/base/backfill.go:114-122 | sorted means that block, transaction and log index never fall, in this order of weight; inside a block transaction and log index |
| `Convert.ConvertBlock` | internal/indexer/convert.go:270-308 | block or error as specified for the header and logs: logs sorted by transaction and log index, each belonging to the header, decodable, with an unseen log index |
| `Convert.ConvertExact` | internal/indexer/convert.go:270-308 | a block is built if and only if its logs are acceptable; its events are those logs in (transaction, index) order |
| `Convert.BlockExactly` | internal/indexer/convert.go:270-308 | on header and logs alone: a block is built if and only if the height is a uint64, every log has the height and the hash of the header, is not removed and decodes, and no two share a log index; it has the header fields and exactly one event per log |
| `Convert.ConvertIgnoresArrangement` | internal/indexer/convert.go:270-308 | the order in which the provider lists the logs changes neither acceptance nor the block |
| `Convert.LogIndexesAscendExactly` | internal/indexer/convert.go:270-308 | the log indexes of a built block ascend if and only if the provider numbers its logs in transaction order; the code does not check this |
| `Convert.UnorderedIndexes` | internal/indexer/convert.go:270-308 | the case is real: two acceptable logs, transaction 0 with index 5 and transaction 1 with index 3, make a block whose log indexes fall |
| `Codec.FixedHexExact` | internal/indexer/convert.go:240-268 | `fixedHex` undoes `hexValue`, and accepts exactly its strings up to the case of the digits |
| `Codec.HexValueInjective` | internal/indexer/convert.go:266-268 | different identifiers print differently |
| `Codec.KnownHex` | internal/indexer/convert.go:266-268 | identifiers are printed in lower case after 0x, by example |
| `Codec.DecimalExact` | internal/indexer/convert.go:251-264 | the decoder accepts exactly the printed uint256 values, each as its own value: no sign, no leading zero; it undoes the encoder |
| `Codec.KnownDecimal` | internal/indexer/convert.go:251-264 | integers are printed in base ten, by example |
| `Codec.EventRoundTrip` | internal/indexer/convert.go:71-205 | an event is serialized if and only if its integers fit uint256, and decoding gives the same event back |
| `Codec.PayloadExactly` | internal/indexer/convert.go:71-130 | the stored record repeats the event field by field: identifiers in hexadecimal, integers in decimal |
| `Backfill.Emit` | internal/base/backfill.go:123-131 | the logs are emitted in order up to the first one that is refused or before which the context is cancelled, and the error says which |
| `Backfill.DeliveredExactly` | internal/base/backfill.go:123-131 | an emission is a prefix of the sorted answer, and all of it if and only if every log is accepted and no context check before one is cancelled |
| `Backfill.Request` | internal/base/backfill.go:88-131 | one request: what is emitted is the part of the sorted answer before the first refused or cancelled log, nothing for a failed or cancelled call, and the error is the one that occurred |
| `Backfill.Run` | internal/base/backfill.go:77-138 | the adaptive loop terminates; what it has emitted, also when it fails or is cancelled between two logs, is the specified emission, and its error is that of the request that ended it |
| `Backfill.SuccessEmitsThePieces` | internal/base/backfill.go:77-138 | on success the emission is exactly the logs of the successful requests, in order |
| `Backfill.EmissionInOrder` | internal/base/backfill.go:77-138 | however the loop ends against a truthful provider, by a failure, a refusal or a cancellation between any two logs, what it has emitted by then is in canonical order and repeats no log: no retry emits anything twice |
| `Backfill.BackfillTilesTheRange` | internal/base/backfill.go:77-138 | on success the successful requests tile the configured range: contiguous, in order, none above MaxRange, each holding exactly the answer for its range in canonical order |
| `Backfill.SmallRangesSuffice` | internal/base/backfill.go:95-108 | if no request of at most MinRange blocks is failed or cancelled, only a refused log can stop the loop: shrinking always gets through |
| `Backfill.FailureHasACause` | internal/base/backfill.go:77-138 | the error of a backfill is true of some request inside its range: a cancelled call or emission, a failed call of at most MinRange blocks, or a refused log |
| `Backfill.HonestRequestsComplete` | internal/base/backfill.go:77-138 | with a truthful provider that answers the smallest requests and an emitter that accepts the range, the loop succeeds |
| `Backfill.BackfillExact` | internal/base/backfill.go:77-138 | from a truthful provider the emitted logs are exactly the logs of the range, each once, sorted by (block, transaction, index), under any range sizes and failures |
| `Backfill.RequestsTile` | internal/base/backfill.go:175-187 | from any position and size the remaining requests tile the rest of the range; sizes stay within [MinRange, MaxRange] and nothing wraps |
| `Coordinator.Coordinator.WalkBranch` | internal/indexer/coordinator.go:278-308 | the headers from just above an ancestor to the head, or the error, for any provider; at most head - (tip - RetainedDepth) parents are fetched |
| `Coordinator.Coordinator.WalkFirstBranch` | internal/indexer/coordinator.go:327-344 | the linked headers from the start block to the head, or the error |
| `Coordinator.Coordinator.FetchDescending` | internal/indexer/coordinator.go:310-317 | the blocks of the collected headers in ascending order, or the first error |
| `Coordinator.Coordinator.FetchOne` | internal/indexer/coordinator.go:360-378 | one header's block from its own log query |
| `Coordinator.Coordinator.CommitCandidate` | internal/indexer/coordinator.go:380-411 | store and error after the block-by-block commit are those of the specification `Commit` |
| `Coordinator.Coordinator.CheckCheckpoint` | internal/indexer/coordinator.go:474-487 | no hash below the range or not above the current checkpoint, an error for an unknown header, the stored hash otherwise |
| `Coordinator.Coordinator.RefreshFinality` | internal/indexer/coordinator.go:413-472 | store and error are those of the specification `Refresh` for any pair of reported checkpoints |
| `Coordinator.Coordinator.IngestFirstHead` | internal/indexer/coordinator.go:327-358 | an empty store gets the whole candidate, or nothing |
| `Coordinator.Coordinator.Ingest` | internal/indexer/coordinator.go:254-325 | store and error after a head announcement are those of the specification `IngestHead`, for arbitrary answers, failures and cancellations |
| `Coordinator.Coordinator.GroupByNumber` | internal/indexer/coordinator.go:165-174 | the map holds, for every height, the emitted logs of that height in emission order |
| `Coordinator.Coordinator.AssembleRange` | internal/indexer/coordinator.go:176-193 | one block per height of the range from its header and its group, or the first error |
| `Coordinator.Coordinator.BuildBackfillRange` | internal/indexer/coordinator.go:156-198 | the range's blocks or the error of the specification `BuildRange` |
| `Coordinator.Coordinator.CollectRanges` | internal/indexer/coordinator.go:134-146 | the blocks of all ranges from the start block to the captured height; the range bound never wraps |
| `Coordinator.Coordinator.Fill` | internal/indexer/coordinator.go:118-154 | store and error after a backfill are those of the specification `BackfillStep` |
| `CommitLaws.OnlyAppendsFollow` | internal/indexer/coordinator.go:390-411 | once one block of a candidate has been appended, every later one is appended too: the reconcile path is out of reach |
| `CommitLaws.CommitDecided` | internal/indexer/coordinator.go:380-411 | the loop in closed form: skip stored blocks, then append everything or reconcile everything |
| `CommitLaws.CommitIsAtomic` | internal/indexer/coordinator.go:380-411 | on error the store is unchanged, on success the candidate's last block is stored, and the only possible change is a suffix of the candidate on a prefix of the store |
| `CommitLaws.CommitKeeps` | internal/indexer/coordinator.go:380-411 | whatever is committed keeps the store sound, its start block and its finalized prefix |
| `CommitLaws.CommitBranch` | internal/indexer/coordinator.go:380-411 | a new branch on a stored block is placed there exactly when the ancestor is neither finalized over nor beyond the retained depth, and demands a resync otherwise |
| `SafetyLaws.HeadCandidateShape` | internal/indexer/coordinator.go:278-358 | with any provider, a collected candidate is gap-free and starts at the start block of an empty store |
| `SafetyLaws.RangesAreConsecutive` | internal/indexer/coordinator.go:134-198 | with any provider, collected ranges have one block per height |
| `SafetyLaws.StepKeepsSafe` | internal/indexer/coordinator.go:118-472 | one backfill or head announcement with arbitrary answers keeps the store safe and only extends its finalized prefix |
| `SafetyLaws.WholeRunIsSafe` | internal/indexer/coordinator.go:118-472 | over any run of such steps and for every point of it: the store is gap-free, linked, starts at StartBlock, has parallel falling levels and folded state, and what was finalized at that point is a prefix of what is finalized at the end |
| `SafetyLaws.FreshStoreIsSafe` | internal/chain/chain.go:44-48 | an empty store satisfies the invariant |
| `StepLaws.UnusableHeads` | internal/indexer/coordinator.go:254-264 | a missing or malformed head is an error and one below the start block is ignored, both without effect |
| `StepLaws.UnusableLatest` | internal/indexer/coordinator.go:118-132 | the same for the latest header of a backfill, with the error of a failed or cancelled call |
| `StepLaws.WalkAsksTheRetained` | internal/indexer/coordinator.go:278-308 | for any provider, from an unstored header with an unstored parent: a parent deeper than the retained depth demands a resync unasked, any other is asked for and must be well formed, of its height and of the named hash |
| `StepLaws.CancelledHeadStoresNothing` | internal/indexer/coordinator.go:254-358 | a head cancelled on entry or before its commit leaves the blocks as they are |
| `StepLaws.CancelledBackfillStoresNothing` | internal/indexer/coordinator.go:118-198 | a backfill that stores anything was cancelled neither on entry, nor after any of its ranges, nor before its commit |
| `StepLaws.ErrorsTellTheTruth` | internal/indexer/coordinator.go:118-487 | a step reports a cancellation only if a check or call was cancelled, and a failed call only if some call failed |
| `StepLaws.RangeLosesNothing` | internal/indexer/coordinator.go:156-198 | the blocks built for a range have as many events as the answers to its successful requests, which tile the range, have logs |
| `Provenance.StoredBlocksWereReported` | internal/indexer/coordinator.go:118-411 | after any run with any providers every stored block carries a header reported in one step, and each of its events decodes from a log reported in that step as not removed and of that height and hash |
| `FinalityLaws.MarkPair` | internal/chain/finality.go:62-96 | marking a validated pair cannot fail; each checkpoint becomes the later of old and new |
| `FinalityLaws.MarkExactly` | internal/chain/finality.go:30-58 | marking a stored block is refused exactly for an invalid level or if it would take a level back; otherwise it raises exactly the lower levels up to the block |
| `FinalityLaws.MarkUnknown` | internal/chain/finality.go:30-43 | an unknown hash is refused without effect |
| `FinalityLaws.CheckpointsExactly` | internal/chain/finality.go:62-96 | marking two stored blocks is refused exactly if they are out of order or either mark would take a level back; otherwise the new levels are given block by block |
| `FinalityLaws.RefreshIsNeverRefusedLate` | internal/indexer/coordinator.go:413-487 | with unique block hashes, once validation has passed the marks cannot be refused; each checkpoint becomes the maximum of old and reported, and finalized stays at or below safe |
| `FinalityLaws.RefreshExactly` | internal/indexer/coordinator.go:413-487 | on the reported headers and the stored blocks alone: no error if and only if nothing is cancelled, both replies are well-formed headers with finalized not above safe and safe not above the tip, and each is below the stored range or names a stored block; then exactly the blocks up to each header gain its level, otherwise nothing changes |
| `FinalityLaws.RefreshErrorsExactly` | internal/indexer/coordinator.go:413-487 | which error validation reports, exactly: cancelled, failed call, or a report that does not agree with the store |
| `FinalityLaws.HonestCheckpointsAreMarked` | internal/indexer/coordinator.go:413-487 | reporting the headers of two stored blocks, in order and uncancelled, leaves every block up to them finalized and safe |
| `ResyncLaws.IngestHeadExact` | internal/indexer/coordinator.go:254-325 | a head of an honestly served chain installs exactly the stored prefix to the newest common ancestor and the new branch, when that ancestor is retained and not below the finalized checkpoint; otherwise it demands a resync with the store unchanged |
| `ResyncLaws.BackfillExact` | internal/indexer/coordinator.go:118-198 | a backfill that completes its fetching from an honest chain has precisely the same promised outcome |
| `ResyncLaws.HonestBackfillCompletes` | internal/indexer/coordinator.go:134-198 | a backfill of an honest chain completes its fetching whatever larger range queries fail, if those of at most BackfillMinRange blocks are answered and nothing is cancelled |
| `ResyncLaws.HonestBackfillExact` | internal/indexer/coordinator.go:118-198 | so its outcome is the promised one, with nothing assumed about its own course |
| `ResyncLaws.BackfillRefinesLive` | internal/indexer/coordinator.go:118-378 | a backfill under any range sizes, failures and log order leaves the same blocks and state as ingesting the same head block by block, and demands a resync exactly when that does |
| `ResyncLaws.HonestBackfillRefinesLive` | internal/indexer/coordinator.go:118-378 | and it leaves the same blocks and state as live ingestion, with nothing assumed about its own course |
| `ResyncLaws.WalkReadsOnlyRetained` | internal/indexer/coordinator.go:290-300 | no header deeper than the retained depth can influence the walk, for any provider |
| `RetryLaws.RetriedHeadOnlyRefreshes` | internal/indexer/coordinator.go:21-26 | a committed head is durable: the blocks and state stay whether or not the refresh fails, a failed refresh marks nothing, and ingesting the same head again does nothing but refresh |
| `RetryLaws.CommitIsIdempotent` | internal/indexer/coordinator.go:380-411 | committing a committed candidate again changes nothing and reports no error |
| `RetryLaws.RetriedBackfillOnlyRefreshes` | internal/indexer/coordinator.go:21-26 | the same for a backfill that fetches the same blocks again |
| `HonestRuns.RunsFollowTheLedger` | internal/indexer/coordinator.go:118-472 | over any run of honest heads and backfills with any forks between them, a store begun empty and never asked to resync holds exactly the blocks, from the start block on, of the last ledger whose head was news |
| `HonestRuns.LastLedgerExactly` | internal/indexer/coordinator.go:118-472 | it holds those of the last ledger reported if and only if that report was not stale, its head being already stored below the tip |
| `ResyncLimits.ResyncsExactly` | internal/indexer/coordinator.go:254-411 | a report to a store that follows a ledger demands no resync if and only if its head is in that ledger, or the two share a stored block no deeper than RetainedDepth below the followed head and not below the finalized checkpoint |
| `ResyncLimits.NeverResyncsExactly` | internal/indexer/coordinator.go:118-472 | so a run of honest reports never demands a resync if and only if every report after the first is within these limits of the ledger followed before it |
| `ResyncLimits.StaleHeadIsIgnored` | internal/indexer/coordinator.go:254-276 | any two honest reports of one network, the second of a shorter ledger whose head the first contains, leave the first ledger in the store and demand no resync |
| `ResyncLimits.StaleHeadOccurs` | internal/indexer/coordinator.go:254-276 | the case is real: two empty blocks are announced, then the first of them alone, and the store keeps both |
| `TruthfulRuns.ReportSettles` | internal/indexer/coordinator.go:118-472 | one report by a provider that never lies but may fail or be cancelled at any query has exactly the promised outcome, or is interrupted and leaves the store exactly as it was; it is never taken for a broken chain |
| `TruthfulRuns.TruthfulRunsHoldALedger` | internal/indexer/coordinator.go:118-472 | after every report of a run of such reports of one network the store is safe and holds nothing, or exactly the blocks of one reported ledger from the start block on: never a part of one or a mixture of two |
| `TruthfulRuns.OneAnswerIsEnough` | internal/indexer/coordinator.go:118-472 | whatever failed before, a report that is answered leaves, unless it demands a resync, its own ledger or a reported one that contains its head |
| `Features.YesImpliedProbability` | internal/features/features.go:41-55 | the plain and the scaled form both give the NO share of the reserves, or refuse the reserves |
| `Features.ScaledVolumes` | internal/features/features.go:78-94 | the second pass gives both volumes divided by the scale |
| `Features.RecentTradeFlowImbalance` | internal/features/features.go:60-94 | the raw and the scaled form both give (YES - NO) / (YES + NO), zero for no trades, and refuse an invalid trade |
| `Features.ImbalanceRange` | internal/features/features.go:57-94 | the imbalance lies in [-1, 1] and is 1 exactly when there are trades and no NO volume |
| `Features.ProbabilityRange` | internal/features/features.go:41-55 | defined exactly for non-negative reserves that are not both zero, and then within [0, 1] |
| `Engine.Engine.constructor` | internal/features/engine.go:91-96 | a new engine has no history and no frontier |
| `Engine.Engine.Apply` | internal/features/engine.go:102-150 | the error is that of the first failing check; a refused update leaves no trace, an accepted one slides the window and becomes the latest |
| `Engine.Engine.CollectTrades` | internal/features/engine.go:172-177 | the trades of the window in order, slots without a trade left out |
| `Engine.Engine.TakeSnapshot` | internal/features/engine.go:154-206 | the snapshot or the error as specified; only a success moves the frontier |
| `Engine.Engine.MoveFrontier` | internal/features/engine.go:233-243 | position and time of the frontier advance separately |
| `Engine.ReplayBatch` | internal/features/engine.go:210-227 | the snapshots of all steps, or the first error |
| `EngineChecks.AcceptsExactly` | internal/features/engine.go:102-150 | an update is accepted if and only if it is of the market, has a known level, reserves with a price and a positive trade or none, and is later in position and not earlier in time than what was applied and observed |
| `EngineChecks.ObservableExactly` | internal/features/engine.go:154-206 | after any run a snapshot succeeds if and only if the point names the market, something was accepted, and the point is not before the latest update in position or time |
| `EngineChecks.SnapshotsAreDated` | internal/features/engine.go:154-206 | no update at or before the position of a snapshot is later than it in time |
| `EngineLaws.NoLookAhead` | internal/features/engine.go:102-206 | in any run of Apply and Snapshot calls every snapshot equals the features of the run's entire final history restricted to updates at or before its position |
| `EngineLaws.SnapshotsAtOnePointAgree` | internal/features/engine.go:115-126 | two snapshots of one run at the same point are equal whatever happened between them |
| `EngineLaws.LaterUpdatesAreLater` | internal/features/engine.go:121-135 | an update accepted after a snapshot is strictly later in position and not earlier in time than it |
| `EngineLaws.EmittedSnapshotsMean` | internal/features/engine.go:161-205 | every emitted snapshot has the five values by their meaning: NO share of the reserves, signed flow over total flow of the last window slots, the smaller reserve, the remaining nanoseconds over 10^9 clamped at zero and at int64, and the block distance |
| `EngineLaws.WindowIsTheRecentPast` | internal/features/engine.go:137-146 | the in-place window is exactly the last min(window, n) slots of all accepted updates, no-trade slots included |
| `EngineLaws.BatchIsPointInTime` | internal/features/engine.go:208-227 | each snapshot of a batch equals the features at its point given all updates of the whole batch, later ones included |
| `Rows.CheckRow` | internal/trainingdata/rows.go:97-160 | the first check the row fails, comparing labels with the first row of its market |
| `Rows.Validate` | internal/trainingdata/rows.go:91-162 | the fault of the first faulty row, with a map of first-seen labels |
| `Rows.ValidateExact` | internal/trainingdata/rows.go:91-162 | the one pass accepts exactly the datasets in which every row is well formed, positions and times ascend, and every two rows of a market carry one label |
| `Rows.AcceptedExactly` | internal/trainingdata/rows.go:91-162 | the same on the values alone: every row is sane in itself and succeeds every earlier one in position, time and label |
| `Rows.FaultMeans` | internal/trainingdata/rows.go:91-162 | the error of the validator is true of a row before which no row is faulty |
| `Rows.Assemble` | internal/trainingdata/rows.go:53-89 | rows or error as specified, checked in the order of the code |
| `Rows.AssembleExact` | internal/trainingdata/rows.go:53-89 | succeeds if and only if every snapshot is labelled with its schedule, every label is used, and the rows are valid; the rows are the snapshots with their labels |
| `Dataset.CheckGroup` | python/src/bellwether_harness/dataset.py:163-182 | one market's checks by sets of distinct values decide exactly whether its rows share one label that follows schedule and predictions |
| `Dataset.GroupByMarket` | python/src/bellwether_harness/dataset.py:158-162 | every row is in the group of its market and in no other; a blank market ID is refused |
| `Dataset.CheckGroups` | python/src/bellwether_harness/dataset.py:163-182 | all groups pass, in whatever order they are visited, exactly when every two rows of a market agree |
| `Dataset.CheckOrder` | python/src/bellwether_harness/dataset.py:184-190 | positions strictly ascend and times do not fall |
| `Dataset.ValidateValues` | python/src/bellwether_harness/dataset.py:134-190 | accepts exactly the datasets specified by `PythonValid` |
| `Dataset.ValidatorsAgree` | python/src/bellwether_harness/dataset.py:134-190 | on int64 instants the harness accepts a dataset if and only if the exporter does and no market ID is blank to Python |
| `Dataset.SeparatorNamedMarket` | python/src/bellwether_harness/dataset.py:160-161 | a dataset the exporter accepts and the harness refuses: its market ID is the control character U+001C |
| `Projection.ApplyAndObserve` | internal/trainingdata/project.go:103-116 | the market's engine and the snapshot after update and observation at one position, or the error |
| `Projection.KeepEngine` | internal/trainingdata/project.go:91-99 | the engine of the market is made on first use, and a non-positive window is refused then |
| `Projection.FeedEngine` | internal/trainingdata/project.go:78-116 | one market's engine is fed and all others stay as they were |
| `Projection.ProjectBlock` | internal/trainingdata/project.go:28-64 | one block's events update engines, snapshots, labels and schedules as the specified replay, or end with its error |
| `Projection.ReplayStore` | internal/trainingdata/project.go:28-64 | all blocks, oldest first, each with its own finality level |
| `Projection.SelectResolved` | internal/trainingdata/project.go:67-74 | exactly the snapshots of labelled markets in order, and the labels they use |
| `Projection.ProjectCanonical` | internal/trainingdata/project.go:19-76 | the result is that of the specification `Project` for the store's chain; a nil store is an empty dataset |
| `ProjectionLaws.ProjectionIgnoresFinality` | internal/trainingdata/project.go:28-30 | finality levels reach the rows through the finality column only: neither success nor any other column depends on them |
| `ProjectionLaws.DatasetEqualsCleanReplay` | internal/trainingdata/project.go:19-76 | after any run of store operations, projecting the store and projecting a clean replay of its blocks succeed together with the same rows up to the finality column |
| `ProjectionLaws.StepShares` | internal/trainingdata/project.go:33-62 | one event acts on its own market's engine, snapshots, label and schedule only |
| `ProjectionLaws.MarketsDoNotInterfere` | internal/trainingdata/project.go:23-75 | when a projection succeeds, the rows of a resolved market are exactly the rows of the same store with all other markets' events removed |
| `PointInTime.ReplayIsPointInTime` | internal/trainingdata/project.go:28-64 | a replay that succeeds has one snapshot per update of a market, and the k-th is the features at the point of that update given all updates the market ever gets |
| `PointInTime.RowsArePointInTime` | internal/trainingdata/project.go:19-76 | the exported rows of a market, however markets interleave: none if it has no label, otherwise one per update, each with the features at its own point given all updates, later ones included, and with the label of the last resolution after an update |
| `PointInTime.RowsMean` | internal/trainingdata/project.go:78-116 | the five values of the k-th row by their meaning, for the k-th update itself and the trades among the last window of the first k + 1 updates; the block lag is zero |
| `PointInTime.EveryRowIsPointInTime` | internal/trainingdata/project.go:19-76 | every row of an export, wherever it stands, is such a row of some market, at the position of one of its updates |
| `ExportedRows.RowsTellTheEvents` | internal/trainingdata/project.go:19-116 | the dataset from the events alone: a market has rows exactly when one of its resolutions follows one of its updates, then one per update, with the NO share and the smaller of the reserves of that event, the signed share of the amounts traded in the newest window updates, its position and times, and what its last resolution decided |
| `ExportedRows.RowsComeFromTheStore` | internal/trainingdata/project.go:28-62 | every row comes from one stored update of its market, with the height, time and finality level of its block and its log index |
| `ExportedRows.ExportNeedsEveryEvent` | internal/trainingdata/project.go:28-36 | a store with an event that does not decode is not exported |
| `EntryOrder.ReplayNeedsOrder` | internal/trainingdata/project.go:28-64 | no sequence in which two updates of a market do not strictly ascend in position can be replayed or exported |
| `EntryOrder.UnorderedBlockFails` | internal/trainingdata/project.go:19-76 | one block makes the whole export fail if two of its updates do not ascend in log index and are of one market, or of two markets that a contract log resolves |
| `EntryOrder.UnorderedBlockAborts` | internal/trainingdata/project.go:19-76 | the whole way, for any reader of logs and any JSON that reads back what it wrote: two logs read as updates of one market and numbered against their transactions make a block in any listing, a fresh store accepts it, and every export aborts with an event-order error |
| `EntryOrder.UnorderedMarketsAbort` | internal/trainingdata/project.go:19-76 | the case of two markets is real: a contract run of two markets, each with its only update in order, whose export fails because both are resolved |
| `Fixture.Contract.Existing` | contracts/src/BellwetherMarketFixture.sol:148-156 | the market, or the revert for a zero or unknown id |
| `Fixture.Contract.Open` | contracts/src/BellwetherMarketFixture.sol:138-146 | the market, or the revert for a missing, resolved or closed one |
| `Fixture.Contract.Create` | contracts/src/BellwetherMarketFixture.sol:48-72 | revert in the order of the checks with nothing changed, or the new market and its event |
| `Fixture.Contract.Set` | contracts/src/BellwetherMarketFixture.sol:74-84 | revert with nothing changed, or new reserves and the event with the market's own resolution time |
| `Fixture.Contract.Record` | contracts/src/BellwetherMarketFixture.sol:86-99 | revert with nothing changed, or new reserves and the trade event |
| `Fixture.Contract.Resolve` | contracts/src/BellwetherMarketFixture.sol:101-114 | revert with nothing changed, or the market resolved once with its outcome |
| `Fixture.ExecutedExactly` | contracts/src/BellwetherMarketFixture.sol:48-156 | a transaction succeeds exactly when it is permitted, then changes only its market and emits the one event that tells the call; otherwise nothing changes |
| `Fixture.RevertIsTrue` | contracts/src/BellwetherMarketFixture.sol:48-156 | the revert of a call says something true of it |
| `Fixture.RunIsGood` | contracts/src/BellwetherMarketFixture.sol:48-156 | after any transactions in time order the log is well behaved and the storage agrees with it: presence, resolution, schedule, the reserves of the last update and the outcome of the resolution |
| `Fixture.LogsExact` | contracts/src/BellwetherMarketFixture.sol:48-156 | a log comes from some run in time order if and only if every market is created first, keeps one resolution time, is updated with positive amounts before it only, and is resolved at most once, at or after it, with nothing after |
| `ContractLaws.FeedSucceeds` | internal/trainingdata/project.go:78-116 | on a contract log with ascending positions every update is accepted and observed |
| `ContractLaws.OrderlyLogsProject` | internal/trainingdata/project.go:19-76 | a contract log in which the updates of each market ascend, and those of all resolved markets together, projects to a valid dataset, or to an empty one exactly when no market has both an update and a resolution |
| `ContractLaws.ContractRunsProject` | internal/trainingdata/project.go:19-76 | a store holding any suffix of any contract run's log, with ascending log indexes and timestamps in nanosecond range, projects to a valid dataset for a positive window, and reports an empty one exactly when no market with an indexed update is resolved |
| `EntryOrder.LawfulLogsProjectExactly` | internal/trainingdata/project.go:19-76 | a contract log at any positions exports as promised if and only if every two updates of one market ascend strictly in position and so do every two updates of resolved markets; otherwise the export fails |
| `EntryOrder.ContractRunsProjectExactly` | internal/trainingdata/project.go:19-76 | the same for a store that holds a suffix of the log of a contract run, with nothing asked of its log indexes |
| `EntryOrder.DisorderIsLocal` | internal/trainingdata/project.go:28-35 | in a sound store only entries of one block can be out of order, and they are exactly when their log indexes are |
| `DatasetId.WriteUint64` | internal/trainingdata/id.go:50-54 | one more big-endian word after the words written so far |
| `Encoding.BigEndianDigits` | internal/trainingdata/id.go:50-54 | the most significant byte comes first |
| `DatasetId.WriteRow` | internal/trainingdata/id.go:27-46 | the digest input grows by exactly the specified encoding of the row |
| `DatasetId.RowBytes` | internal/trainingdata/id.go:27-46 | the bytes of a row, column by column in the order of the source |
| `DatasetId.ComputeID` | internal/trainingdata/id.go:19-48 | succeeds exactly on valid datasets, with the hexadecimal hash of their specified stream |
| `DatasetId.StreamDecodes` | internal/trainingdata/id.go:19-48 | a decoder reads the fields of every encodable row list back from its stream |
| `DatasetId.StreamExact` | internal/trainingdata/id.go:19-48 | the streams that decode are exactly the encodings, each of its own rows |
| `DatasetId.EqualIdsEqualRows` | internal/trainingdata/id.go:13-48 | two validated datasets that agree in all thirteen recorded columns of every row have one identifier, and two with one identifier agree in them or exhibit a collision of the hash |
| `WalkForward.CheckMonotonic` | python/src/bellwether_harness/splits.py:69-78 | decides whether the timestamps never fall |
| `WalkForward.Splits` | python/src/bellwether_harness/splits.py:47-66 | exactly the folds that fit, each at its place; refused exactly for unordered timestamps |
| `WalkForward.SelectEligible` | python/src/bellwether_harness/evaluation.py:97-99 | the training rows with a label available at the cutoff, in order |
| `WalkForward.CheckFold` | python/src/bellwether_harness/evaluation.py:89-111 | the fold's cutoff, eligible and test rows, or the first of its errors |
| `WalkForward.Evaluate` | python/src/bellwether_harness/evaluation.py:57-112 | every complete fold is evaluated, or the error is that of the first fold that fails, all earlier ones having succeeded |
| `WalkForward.FoldExactly` | python/src/bellwether_harness/evaluation.py:88-111 | with the latest decision time of the training rows as cutoff, a fold fails exactly if the embargo does not begin later, else if a row with a label available by then shares a market with a test row, else if those rows have one outcome; otherwise it trains on exactly those rows and tests on exactly its window |
| `WalkForward.EvaluationExactly` | python/src/bellwether_harness/evaluation.py:57-112 | every fold of an evaluation is so, and its cutoff is the latest decision time of its training rows |
| `WalkForward.WindowsExactly` | python/src/bellwether_harness/splits.py:47-66 | the first fold trains on the configured rows and each next one on a step more; embargo and test window follow with their configured sizes; all fit, and one step further none would |
| `WalkForward.FoldDoesNotLeak` | python/src/bellwether_harness/evaluation.py:88-105 | in a fold every training label was available at the cutoff, the cutoff strictly precedes every test row, every label available at the cutoff is used, and no market is on both sides |
| `WalkForward.OverlapIsUnreachable` | python/src/bellwether_harness/evaluation.py:101-105 | on any dataset the harness accepts the market-overlap error cannot occur |
| `WalkForward.FoldsProgress` | python/src/bellwether_harness/splits.py:56-66 | test windows of different folds are disjoint, cutoffs never fall, and eligible sets grow |
| `WalkForward.NothingLeaks` | python/src/bellwether_harness/evaluation.py:88-111 | all of this for a whole evaluation of ordered rows |
| `EndToEnd.SameBlocksSameDataset` | internal/trainingdata/project.go:19-76 | two sound chains with the same blocks export the same rows up to the finality column, or neither exports |
| `EndToEnd.BackfillAndLiveExportTheSame` | internal/indexer/coordinator.go:118-378 | the dataset does not depend on whether an honest chain was backfilled or ingested block by block, up to the finality column |
| `EndToEnd.HonestBackfillExportsTheSame` | internal/indexer/coordinator.go:118-378 | the same with nothing assumed about the course of the backfill |
| `EndToEnd.IndexedContractRunsExport` | internal/indexer/coordinator.go:118-472 | whatever an untrusted provider answers while a fresh store is indexed, if the stored events are a suffix of a contract run in log order, the export is a valid dataset, or empty exactly when no market with an indexed update is resolved |
| `ContractExport.EventSurvives` | internal/indexer/convert.go:71-205 | an event that could be stored is loaded as it was read from its log |
| `ContractExport.BlockOfLedger` | internal/indexer/convert.go:270-308 | the block of a height holds the events of that height's logs in (transaction, index) order |
| `ContractExport.LedgerExports` | internal/trainingdata/project.go:19-76 | a sound store with the blocks of an honest ledger from the start block on, whose logs tell a contract run, exports the rest of that run: a valid dataset, or an empty one exactly when the rest resolves no market it updates |
| `EntryOrder.LedgerExportsExactly` | internal/trainingdata/project.go:19-76 | a store with the blocks of an honest ledger that tells a contract run, however the provider numbers its logs, exports the rest of that run as promised if and only if the stored updates ascend so |
| `ContractExport.HonestRunsExport` | internal/indexer/coordinator.go:118-472 | from transactions to rows: an empty store fed honest heads and backfills in any order and never asked to resync exports so |
| `ContractExport.FirstReportExports` | internal/indexer/coordinator.go:118-358 | in particular after the first backfill or head of an empty store |
| `ContractExport.TruthfulRunsExport` | internal/indexer/coordinator.go:118-472 | however the queries of a run of truthful reports fail or are cancelled, the export is that of an empty store or that of the contract run told by one of the reported ledgers |

## Left out

- Real RPC clients, contexts, goroutines, RunLive's select loop and LiveSubscriber: only their results are modelled, as a Session per operation.
- Wrapping of errors: a failed call is RpcFailed or CancelledByCaller, without message or cause.
- Clock and cancellation points inside one call: a call is answered, failed or cancelled; the further points at which the context is consulted are the gates of Rpc.
- NewCoordinator, NewBackfiller and configuration: their checks are the Valid predicates of Indexing.Setup and Backfill.Config; addresses and topics only select logs.
- go-ethereum headers: a header carries its hash; a nil header and a header without a number are the same missing header.
- The instability of sort.Slice: a stable sort stands for it, which is unobservable because logs that compare equal are refused as duplicates when blocks are built.
- The emitter's own state: the logs it is handed are returned as a list, and grouping them by height is proved separately, because the emitter only appends.
- Reading or writing Parquet, temporary files and renames: I/O over an unseen library.
- JSON text and ABI unpacking: payloads are records, JSON is any writer that its reader undoes, and decoding a log is a partial function.
- HonestRuns.RunsFollowTheLedger: assumes that ledgers with a shared header hash have a shared past, as they do unless the header hash collides.
- SHA-256 itself, the snapshot package's smaller copy of encoding and checks, Store.Events, Store.Len and Store.Blocks: they would only add easy members.
- Chain.Rollback called from outside: it does not look at finality, so the laws about finalized history cover it only inside reorg.
- ProjectionLaws.ProjectionIgnoresFinality: says nothing about which error two differing histories report, only that they fail together.
- FinalityLaws.RefreshIsNeverRefusedLate: assumes distinct block hashes in the store, as every hash-linked chain has unless the header hash collides.
- ResyncLaws.BackfillExact: is about backfills that complete their fetching; when that is guaranteed is ResyncLaws.HonestBackfillCompletes.
- ContractLaws.ContractRunsProject: asks for ascending log indexes within a block, which the code does not check; the exact condition is EntryOrder.ContractRunsProjectExactly.
- ContractExport.LedgerExports: asks for logs numbered in transaction order, and so do the results built on it; the exact condition is EntryOrder.LedgerExportsExactly.
- TruthfulRuns.TruthfulRunsHoldALedger: does not say which of the reported ledgers is held, which depends on what failed; HonestRuns.RunsFollowTheLedger does for honest runs.
- EndToEnd.IndexedContractRunsExport: takes what the stored events are as given, because an untrusted provider may report anything; ContractExport.HonestRunsExport derives it from the logs of an honest one.
- IEEE 754 rounding, NaN and infinity, and with them the non-finite checks of both validators; Dataset.ValidatorsAgree is about finite values.
- DatasetId.ComputeID: takes math.Float64bits and the bytes of a string as arbitrary functions, and lengths below 2^63, as Go's are.
- time.Time beyond the range of UnixNano: an instant is its exact nanosecond count, and the range check is that it fits int64.
- Parquet's column types in Dataset.ValidateValues: integer columns and 0/1 outcomes are already typed values here.
- WalkForward.Evaluate: stops before model fitting, prediction, metrics and plots, which need floating-point libraries.
- ForecastCommitReveal, inference, experiment, commands and deployment: their guarantees can be read off single branches, or they are plumbing.
- The order of a Python dictionary's groups: CheckGroups visits them in any order, which only matters for which message is reported.
