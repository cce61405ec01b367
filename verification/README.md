# poorguy-mem: a verified model of the memory engine

This project models the core of the memory service in Dafny and proves what its parts keep
together over whole runs. `dafny verify dfyconfig.toml` checks all of it.

One record lives in many places: the record map, its resident charge and the running byte counter,
the retriever's snapshots and vector index, and in the store a document row, posting rows, a vector
row, and events under a per-workspace checkpoint. The model follows the code in updating each of
them separately, and proves that they agree.

| part | modules |
|---|---|
| bytes, keys and collections | `Bytes`, `Keys`, `Collections` |
| text | `Utf8`, `Tokenizer`, `TokenAlgebra` |
| stores | `FlatStore` (the meaning), `InMemoryStore`, `PartitionRouting`, `PartitionModel`, `MergedScan`, `PartitionedFlat`, `StoreRows` (the engine's rows as strings), `LayoutModel`, `LayoutPlan`, `EloqStoreAdapter`, `StoreScans` |
| retrieval | `Ranking`, `VectorIndex`, `RetrievalModel` (the meaning), `Retriever` |
| engine | `Records`, `EngineModel`, `Eviction`, `Postings`, `Replay`, `Recovery`, `Graves`, `Restarts`, `PartialCommits`, `WritePlans`, `Compaction`, `EngineRuns` (operations as steps, runs), `EngineQuery`, `Engine` (the class), `Witnesses` (runs), `StoredRuns` (runs over the partitions), `Accounting` (interleavings) |

The objects whose methods update fields are classes: `InMemoryStoreAdapter`, `EloqStoreAdapter`,
`LshVectorIndex`, `HybridRetriever` and `MemoryEngine`. Their loops are loops, and their methods are
proved against functions and relations on values; the theorems are about those. `Write`,
`Pin`, `Query` and `CompactInternal` of `MemoryEngine` each take exactly one step of
`EngineRuns.Step`, and so does `Warmup` when its scans find enough (`Restarts.Suffices`); so what
holds for runs holds for the class.

How the surroundings enter:

- A call reads the clock several times; `clock(i)` is its i-th reading. Readings never go back within
  a run, and a restart is strictly later than the run before it. Readings whose value is not used are
  not counted.
- Whether the store takes a batch is an input, as is which partition or which scan fails. EloqStore's
  answer NotFound, for a partition that was never written, is taken to carry the text "resource not
  found" that the engine looks for (`src/core/memory_engine.cpp:104-113`); EloqStore itself is not
  part of this model.
- The hash, the logarithms and the embedding are function parameters. Of `log` only `x > 1 ==> log(x) > 0`
  is needed, and only where a score is shown to be positive.
- The order in which unordered maps are walked is left open, so the results hold for every order.
- The engine sees the store through structured keys. `StoreRows.WritesAgreeIffApart` says for which
  workspace names a store of strings does the same, and `StoredRuns` puts that store into partitions.
- Sums, products and comparisons of 64-bit numbers wrap where the code can let them: in the expiry
  computation and in the resident byte counter.

Where the code differs from its documentation or from what one might expect, the model follows the
code:

- `docs/design/memory-mcp-query-pipeline.en.md:82-85` puts the expiry check before the token budget;
  the loop checks the budget first, so an expired hit that is too large ends the answer
  (`EngineQuery.ExpiredHidesLive`). `EngineQuery.EmittedIsDocumented` says exactly when the two agree.
- The same document (line 83) says filters apply after ranking; the code applies them during recall,
  to the sparse candidates before their cut and to the dense candidates after theirs.
- `docs/design/memory-mcp-storage-model.en.md:40-42` promises co-location of a record's rows. Their
  routing key is the same, but the namespace is hashed with it
  (`PartitionRouting.SeedsDifferAcrossNamespaces`). The same lines route postings by term; the code
  routes them by record.
- Pin computes the record size before it replaces the node id (`WritePlans.RepinnedSize`).
- Saving over an active document that is no longer resident leaves its old posting rows behind
  (`Postings.ActIsExact` says exactly when, `Witnesses.StaleRowInARun` is such a run).
- Operations within the same millisecond can make a replay without checkpoints bring back a deleted
  record (`Witnesses.ResurrectedWithinOneMillisecond` is such a run, `Graves.ReplayRaisesNoDead` the
  exact condition); with checkpoints that cannot happen (`EngineRuns.RunsRecover`).
- A scan that answers "resource not found" counts as an empty namespace, even if other partitions hold
  rows of it. A warmup then succeeds without them. All namespaces share their partitions, so one
  configured partition that was never written leaves the engine with no record at all
  (`Restarts.OneUnwrittenLosesAll`, for runs `StoredRuns.RunsRecoverFromPartitions`);
  `Restarts.ReloadIsIntact` says exactly which outcomes of the three scans cost nothing.
- A batch that stops between two partitions can store a checkpoint without its document, and then the
  write is lost although its event is in the log (`PartialCommits.PartialSaveSurvives`).
- Between an upsert's map step and its counter step an eviction may erase the record and subtract
  first, while the counter still shows an earlier record; the 64-bit counter then wraps for a while
  (`Accounting.EvictionCanOvertake`).
- A layout refresh that moves entries but does not get to record the new layout, followed by a start
  with the old partition count, leaves them in partitions they do not belong to, where they are not
  found (`EloqStoreAdapter.StoppedRefreshIsForgotten`): `RefreshLayoutOnStartup` trusts the recorded
  layout, which then asks for nothing. A second start with the same count sets everything right
  (`EloqStoreAdapter.StartAgain`).
- Workspace names are joined into keys without escaping. `Keys.DocKeysUnique`,
  `Keys.RecordMapKeysUnique` and `StoreRows.WritesAgreeIffApart` say exactly for which names keys stay
  apart.

## Model

| member | source | states |
|---|---|---|
| `EngineRuns.RunHasInv` | src/core/memory_engine.cpp:310-652 | Every state of every run of Write, Pin, Compact, Query and restarts that find enough, with any batches refused and a clock that never goes back, satisfies the engine invariant: memory coherent with charges, counter and index; resident records equal to their documents up to access statistics; pinned documents resident; quota kept; log and checkpoints in order; posting and vector rows covering the documents |
| `EngineRuns.StepKeepsInv` | src/core/memory_engine.cpp:310-651 | Each single operation keeps that invariant |
| `EngineRuns.RunsRecover` | src/core/memory_engine.cpp:310-360 | After any run, each workspace's checkpoint is at or above all its event keys, and a warmup whose scans find everything applies no event and before eviction holds exactly the stored documents: nothing is lost and no physically deleted record returns |
| `EngineRuns.RunsRecoverExactly` | src/core/memory_engine.cpp:310-322 | After any run and for every outcome of the three scans, the warmup loads exactly the stored documents if and only if what the scans find suffices |
| `Restarts.ReloadIsIntact` | src/core/memory_engine.cpp:1097-1140 | Exactly when it suffices: with documents found, if the checkpoints are found, or no event is, or no event names a missing document or is newer than its document; with documents hidden, only if there are none, or the log is found without its checkpoints and its newest records are the documents |
| `Restarts.ReloadRecords` | src/core/memory_engine.cpp:310-360 | Without replay memory holds the documents seen; with replay it holds their join with the log |
| `Restarts.HiddenDocumentsAreLost` | src/core/memory_engine.cpp:312-322 | If the documents are answered "resource not found" and the events are too, or their checkpoints are found, memory is left empty, however many documents are stored |
| `Restarts.OneUnwrittenLosesAll` | src/core/memory_engine.cpp:312-322 | All namespaces lie in the same partitions, so one that was never written decides all three scans: if no request fails, the stored documents are loaded if and only if every configured partition was written or there are none; otherwise memory is left empty |
| `StoredRuns.RunsRecoverFromPartitions` | src/core/memory_engine.cpp:310-360 | Wherever a run is cut off: if the partitions hold its store and no request fails, the two scans of a warmup over them list its documents and its events, each once and in the order of their keys, and the warmup loads exactly the stored documents if and only if every configured partition was written or there are none |
| `StoredRuns.RunIsHeld` | src/store/eloqstore_adapter.cpp:300-353 | Partitions that start empty and take the batches of a run hold its store, row by row under the strings the code builds, at every state |
| `StoredRuns.ScanOfPartitions` | src/store/eloqstore_adapter.cpp:234-298 | An unlimited scan of one of the engine's namespaces over partitions that hold its store lists exactly its rows there, in the order of their keys |
| `StoredRuns.BatchReachesStore` | src/store/eloqstore_adapter.cpp:300-353 | A batch whose requests all succeed, entries of other namespaces included, does to the store the partitions hold what its writes say |
| `Restarts.ReloadRaisesNoDead` | src/core/memory_engine.cpp:1171-1204 | With documents found, a warmup keeps every document and raises deleted records only as tombstones if and only if the log is not replayed or each event stays down in key order; a log laid to rest always does |
| `Restarts.JoinRebuilds` | src/core/memory_engine.cpp:1171-1204 | The log alone gives back the documents if and only if it names no other record and each document is the first newest record of its key |
| `Restarts.ReloadIsCoherent` | src/core/memory_engine.cpp:310-360 | Whatever the scans hide, charges, counter and index agree with the records loaded |
| `EngineRuns.RestartIsExact` | src/core/memory_engine.cpp:310-360 | From an invariant state, reading all document rows and replaying the events in any order leaves records equal to the document rows, coherent with charges, counter and index |
| `EngineRuns.RestartKeepsInv` | src/core/memory_engine.cpp:310-360 | A restart whose scans find enough, evictions included, keeps the run invariant |
| `EngineRuns.QueryKeepsInv` | src/core/memory_engine.cpp:569-583 | Updating access statistics of the answered records keeps the run invariant, although documents are not rewritten |
| `EngineRuns.BatchIsStamped` | src/core/memory_engine.cpp:1032-1074 | The events of one Write, Pin or Compact have rising numbers and times from the start of the operation on; saved records carry that start as their stamp, erased ones are resident tombstones |
| `EngineRuns.BatchKeepsInv` | src/core/memory_engine.cpp:362-651 | A batch, taken or refused by the store as a whole, keeps the run invariant |
| `EngineRuns.RunsKeepQuota` | src/core/memory_engine.cpp:393-423 | In every run, restarts with the same quota included, no workspace has more active pinned records than pin_quota_per_workspace, neither in memory nor among its documents |
| `EngineRuns.CompactStepCompacts` | src/core/memory_engine.cpp:1324-1450 | A committed compaction step of the engine is one to which the progress theorem applies |
| `EngineRuns.StepKeepsBuried` | src/core/memory_engine.cpp:1379-1433 | If operations start at strictly later times, no event of a stored record is newer than its document, and every live event of a deleted one is older than a tombstone event of it |
| `EngineRuns.StrictRunsRaiseNoDead` | src/core/memory_engine.cpp:1141-1204 | In runs whose operations start at strictly later times, a warmup that does not find its checkpoints leaves each document as stored and raises deleted records only as tombstones |
| `EngineRuns.RunsRaiseNoDeadExactly` | src/core/memory_engine.cpp:1189-1202 | In any run, replay without checkpoints is harmless in every order if and only if no event is newer than its document and each live event without a document is strictly older than a tombstone event of it |
| `EngineRuns.RunsSurvivePartialSave` | src/store/eloqstore_adapter.cpp:324-343 | If only some rows of the last save of a run are stored, the next warmup finds the save if and only if its document was stored, or its event was stored without its checkpoint and is newer than the old document; nothing else changes |
| `PartialCommits.PartialSaveSurvives` | src/core/memory_engine.cpp:1032-1091 | The same for any sound store |
| `Witnesses.ResurrectedWithinOneMillisecond` | src/core/memory_engine.cpp:1189-1202 | Without strictly later times that fails: a run that writes, pins, writes again and tombstones a record in one millisecond and deletes it then or later ends with nothing stored, and a warmup that does not find the checkpoints loads the pinned record alive |
| `Witnesses.StaleRowInARun` | src/core/memory_engine.cpp:754-774 | A run that writes a record too large to stay resident and writes it again with other content ends with a posting row for each token only the old content has |
| `EngineRuns.StepKeepsRowsExact` | src/core/memory_engine.cpp:738-862 | A batch over distinct records, none an active document that was evicted, leaves no posting row without its active document and term |
| `EngineRuns.TidyRunsKeepRowsExact` | src/core/memory_engine.cpp:738-862 | In runs of such batches posting rows are exactly (workspace, term, id) for the active documents and their terms, and vectors exist for exactly the active documents |
| `Recovery.BatchKeepsLog` | src/core/memory_engine.cpp:1032-1091 | A stamped batch leaves each checkpoint on an event at or above every event of its workspace, with all event numbers used and times past |
| `Recovery.CheckpointCovers` | src/core/memory_engine.cpp:1093-1139 | As the stored zero-padded strings compare, no event key is above its workspace's checkpoint |
| `Recovery.BatchKeepsDocs` | src/core/memory_engine.cpp:738-933 | A stamped batch keeps every resident record equal to its document up to access statistics, every pinned document resident and no document newer than the operation |
| `Replay.LoadedAllRecords` | src/core/memory_engine.cpp:324-352 | Loading document rows in any order adds exactly those rows to the records |
| `Replay.CoveredEventsChangeNothing` | src/core/memory_engine.cpp:1176-1186 | Events at or below their checkpoint leave memory as it was |
| `Replay.ReplayIsJoin` | src/core/memory_engine.cpp:1141-1204 | The replay loop without checkpoints computes the same records as joining the events into them by stamp |
| `Replay.JoinIsLastWriterWins` | src/core/memory_engine.cpp:164-172 | After the join each key holds the maximum by (updated_at_ms, version, node_id) of what was there and what came in, and an incoming record wins only if strictly newer |
| `Replay.JoinIgnoresOrder` | src/core/memory_engine.cpp:1141-1204 | When different events of one record have different stamps, any order and repetition of the events gives the same records |
| `Replay.JoinIsIdempotent` | src/core/memory_engine.cpp:1141-1204 | Replaying the same events a second time changes nothing |
| `Graves.BatchKeepsGraves` | src/core/memory_engine.cpp:1379-1433 | A stamped batch that starts strictly later keeps that, and only its own saves carry its time |
| `Graves.ReplayRaisesNoDead` | src/core/memory_engine.cpp:1189-1202 | For any documents and log: replay without checkpoints keeps every document and raises deleted records only as tombstones in every order if and only if no event is newer than its document and each live event without a document is strictly older than a tombstone event of it |
| `Graves.OrderRaisesNoDead` | src/core/memory_engine.cpp:1141-1204 | For one order: if and only if each live event without a document is beaten by a tombstone that is newer, or of the same stamp and earlier |
| `EngineModel.UpsertedCoherent` | src/core/memory_engine.cpp:864-900 | Upserting keeps records and charges on the same keys, each charge that of its record, the counter their sum modulo 2^64 and the retriever on exactly the non-tombstone residents |
| `EngineModel.RemovedCoherent` | src/core/memory_engine.cpp:902-933 | Removing a record, resident or not, keeps that |
| `EngineModel.DroppedCoherent` | src/core/memory_engine.cpp:1005-1027 | Evicting a record keeps that |
| `EngineModel.TouchedCoherent` | src/core/memory_engine.cpp:569-579 | Updating access statistics keeps that, the index included |
| `EngineModel.ActMemAllCoherent` | src/core/memory_engine.cpp:496-498 | A whole batch of upserts and removals keeps that |
| `EngineModel.CounterIsExact` | src/core/memory_engine.cpp:935-940 | While the charges sum to less than 2^64 the counter is their sum, and subtracting any resident charge does not underflow |
| `Records.ChargeIgnoresAccess` | src/core/memory_engine.cpp:935-938 | The charge of a record does not depend on the fields a query writes back |
| `Postings.BatchCovers` | src/core/memory_engine.cpp:738-862 | Any batch, after evictions or with repeated ids, leaves every term of every active document with its row of the right counts, and a vector for exactly the active documents |
| `Postings.ActIsExact` | src/core/memory_engine.cpp:754-774 | One save or erase keeps the rows free of strays if and only if each row of the document it replaces belongs to the new record or (for a save) to the resident one |
| `Postings.StaleWitness` | src/core/memory_engine.cpp:754-774 | Otherwise it names the row left behind |
| `Postings.WhenNothingIsStale` | src/core/memory_engine.cpp:754-774 | A save is of the exact kind when the old document is gone, has the same content, or is resident with its stored content |
| `Postings.BatchIsExact` | src/core/memory_engine.cpp:738-862 | A batch over distinct records, each of the exact kind, leaves no stray rows |
| `Postings.RowsAddUp` | src/core/memory_engine.cpp:826-859 | The stored term counts of one active document sum to its token count, and each row holds that document length and a positive count |
| `WritePlans.PlanIsStamped` | src/core/memory_engine.cpp:1032-1074 | The actions of a Write are a well-stamped batch, even if its records repeat an id |
| `WritePlans.PlanWriteOk` | src/core/memory_engine.cpp:393-482 | Every stored record of a Write is in its workspace, of version 1 and stamped with the start of the call, and its event numbers rise |
| `WritePlans.WriteAccountsForAll` | src/core/memory_engine.cpp:393-482 | Every input record is accounted for exactly once: stored, reported as a known duplicate, or warned about as empty or oversized |
| `WritePlans.StoredAsAsked` | src/core/memory_engine.cpp:393-482 | The i-th stored record is the one some j-th input record asks for, in input order; it is not a known duplicate, not empty, not over the size limit, and pinned only on request |
| `WritePlans.PlanReports` | src/core/memory_engine.cpp:393-482 | Stored ids are one per action and sequence numbers grow by at most two per input record |
| `WritePlans.WriteKeepsQuota` | src/core/memory_engine.cpp:375-423 | A Write keeps every workspace within its pin quota, including batches that overwrite existing or repeated ids |
| `WritePlans.PinKeepsQuota` | src/core/memory_engine.cpp:596-641 | An allowed Pin keeps it too, which rests on every pinned document being resident |
| `WritePlans.PinIsStamped` | src/core/memory_engine.cpp:596-641 | A Pin is a well-stamped batch of one |
| `WritePlans.RepinnedSize` | src/core/memory_engine.cpp:629-634 | A repinned record's stored size is its own size if and only if the node id it had is as long as this node's: the size is taken before the node id is replaced |
| `Compaction.CompactionProgress` | src/core/memory_engine.cpp:1344-1450 | A committed compaction lowers 2*(unpinned active) + (tombstones) by exactly tombstoned + deleted <= the batch limit; pinned active records are untouched, no active record is deleted in the same call, none appears |
| `Compaction.CompactionMoves` | src/core/memory_engine.cpp:1344-1450 | With tombstone collection on and every tombstone past retention, a global compaction does at least one thing while the measure is positive |
| `Compaction.CompactionsFinish` | src/core/memory_engine.cpp:1344-1450 | As many such compactions as the measure leave exactly the pinned active records, unchanged |
| `Compaction.EveryActionCounts` | src/core/memory_engine.cpp:1344-1450 | Each action over a record of its own lowers the measure by one |
| `Compaction.TakenAreFirst` | src/core/memory_engine.cpp:1366-1410 | A compaction that tombstones one record has tombstoned every unpinned active record that sorts before it |
| `Compaction.PlanTakes` | src/core/memory_engine.cpp:1344-1433 | A compaction acts on distinct resident records of the workspace |
| `Compaction.CompactIsStamped` | src/core/memory_engine.cpp:1379-1433 | Its actions are a well-stamped batch |
| `Compaction.CompactUsesNumbers` | src/core/memory_engine.cpp:1379-1433 | It uses one sequence number per tombstone and deletion, at most the batch limit |
| `Compaction.TombOf` | src/core/memory_engine.cpp:1388-1395 | A tombstone keeps key, pin and content, is stamped with the time of the call, the next version and this node, and has its own size |
| `Compaction.ListRecords` | src/core/memory_engine.cpp:1348-1364 | The two listings hold exactly the active records and exactly the tombstones of the workspace, or of all |
| `Compaction.SortByEviction` | src/core/memory_engine.cpp:1366-1374 | The candidates come out as the same records in eviction order |
| `Eviction.EvictionRunSheds` | src/core/memory_engine.cpp:985-1030 | An eviction run removes only unpinned records and exactly those it names, keeps the charges coherent, does nothing below the limit, and ends within the limit or with only pinned records |
| `Eviction.EnforcedSheds` | src/core/memory_engine.cpp:985-1030 | Enforcing the limit keeps coherence and ends with limit 0, used bytes at most the limit, or only pinned records |
| `Eviction.EvictionPathSheds` | src/core/memory_engine.cpp:985-1030 | Each eviction happens only above the limit |
| `Eviction.EvictionPathRemoves` | src/core/memory_engine.cpp:985-1030 | The records that remain are exactly those never chosen, and none is chosen twice |
| `Eviction.GoesBeforeIsTotal` | src/core/memory_engine.cpp:958-974 | The eviction order is total and transitive |
| `EngineQuery.QueryIsComplete` | src/core/memory_engine.cpp:535-567 | With top_k at least the number of indexed documents and no token budget, Query returns each resident, active, unexpired record of the workspace that passes the filters exactly once, with its own fields, and nothing else, whatever the text; if the text has no embedding, each such record that shares a token with it |
| `EngineQuery.BudgetIsHard` | src/core/memory_engine.cpp:545-567 | A positive token budget is never exceeded |
| `EngineQuery.EmittedIsDocumented` | docs/design/memory-mcp-query-pipeline.en.md:82-85 | The answer is a prefix of the documented "drop expired hits, then apply the budget", and equal to it if and only if the hit the loop stops at is not an expired one hiding a live one that fits |
| `EngineQuery.ExpiredHidesLive` | src/core/memory_engine.cpp:545-567 | Two records that, indexed and queried for with any text that has an embedding, are ranked with an expired one of two tokens first: with a budget of one token every answer of the engine is empty, and the documented order answers the live one |
| `Engine.MemoryEngine.Write` | src/core/memory_engine.cpp:362-533 | Takes exactly the DoWrite step, keeps the invariant, reports the planned ids and exactly the planned warnings, and fails only when the store refuses; an empty workspace or batch changes nothing |
| `Engine.MemoryEngine.WriteRecords` | src/core/memory_engine.cpp:371-517 | The part of Write after the two early returns is exactly that step, with exactly the planned warnings and one more if the store refuses |
| `Engine.MemoryEngine.DraftAll` | src/core/memory_engine.cpp:393-482 | The loop over the input builds the plan and a write list whose effect on the store is the plan's, without touching memory |
| `Engine.MemoryEngine.DraftRecord` | src/core/memory_engine.cpp:393-482 | One turn of that loop |
| `Engine.MemoryEngine.UpsertAll` | src/core/memory_engine.cpp:496-498 | Memory becomes the batch applied to it |
| `Engine.MemoryEngine.Commit` | src/core/memory_engine.cpp:488-517 | Store and memory change together by the batch, then the limit is enforced; a refused batch changes neither |
| `Engine.MemoryEngine.Pin` | src/core/memory_engine.cpp:596-651 | Takes exactly the DoPin step, and succeeds iff the record is found, pinning is allowed and the store takes the batch |
| `Engine.MemoryEngine.MayPin` | src/core/memory_engine.cpp:612-628 | Allows a pin as the quota and the ratio decide over the resident records |
| `Engine.MemoryEngine.LoadRecord` | src/core/memory_engine.cpp:1209-1236 | Finds a record iff it is resident or stored, and prefers the resident one |
| `Engine.MemoryEngine.CompactInternal` | src/core/memory_engine.cpp:1324-1450 | Takes exactly the DoCompact step for a listing in eviction order and reports the planned counts; without force and below the watermark nothing changes |
| `Engine.MemoryEngine.DraftTombs` | src/core/memory_engine.cpp:1379-1410 | The first phase drafts the planned tombstones |
| `Engine.MemoryEngine.DraftErases` | src/core/memory_engine.cpp:1412-1433 | The second phase drafts the planned deletions |
| `Engine.MemoryEngine.CommitCompaction` | src/core/memory_engine.cpp:1435-1450 | Store and memory change by the drafted batch, or neither does |
| `Engine.MemoryEngine.Query` | src/core/memory_engine.cpp:535-594 | Answers as the query specification over the records and index before the call says, and takes exactly the DoQuery step on the records it returns |
| `Engine.MemoryEngine.Emit` | src/core/memory_engine.cpp:545-567 | The loop over the hits |
| `Engine.MemoryEngine.MarkUsed` | src/core/memory_engine.cpp:569-579 | Raises hit count and last access of the answered records, and nothing else |
| `Engine.MemoryEngine.Warmup` | src/core/memory_engine.cpp:310-360 | Succeeds iff no scan fails in another way than "resource not found"; then memory is the reload of what the scans returned, less what was evicted; if they found enough, that is exactly the DoRestart step; with documents found and a log laid to rest, what is resident is as stored or a tombstone, and all pinned documents are resident |
| `Engine.FirstStart` | src/core/memory_engine.cpp:271-360 | A first start over an empty store gives an engine that satisfies its invariant |
| `Engine.MemoryEngine.LoadDocs` | src/core/memory_engine.cpp:324-352 | Upserts every document row read |
| `Engine.MemoryEngine.ReplayProjectionEvents` | src/core/memory_engine.cpp:1093-1207 | Reads the events found in key order and replays them over the checkpoints found; fails without effect if a scan fails |
| `Engine.MemoryEngine.ReplayEvents` | src/core/memory_engine.cpp:1141-1204 | The replay loop |
| `Engine.MemoryEngine.UpsertRecordInMemory` | src/core/memory_engine.cpp:864-900 | Records, dedup index, charges, counter and retriever all move to the upserted state, with the counter wrapping at 2^64 |
| `Engine.MemoryEngine.RemoveRecordInMemory` | src/core/memory_engine.cpp:902-933 | All of them move to the removed state |
| `Engine.MemoryEngine.PersistRecord` | src/core/memory_engine.cpp:738-862 | The appended writes turn the store into the persisted one: document, old rows cleared, new rows |
| `Engine.MemoryEngine.DeleteRecordStorage` | src/core/memory_engine.cpp:1238-1272 | The appended writes erase the record's rows |
| `Engine.MemoryEngine.SaveAndLog` | src/core/memory_engine.cpp:455-476 | Row writes, event and checkpoint together are one save action |
| `Engine.MemoryEngine.EraseAndLog` | src/core/memory_engine.cpp:1419-1431 | Deletes, event and checkpoint together are one erase action |
| `Engine.MemoryEngine.SelectEvictionCandidate` | src/core/memory_engine.cpp:942-983 | Finds an unpinned record of minimum rank among the unprotected, else among all, and nothing iff there is none |
| `Engine.MemoryEngine.EvictRecord` | src/core/memory_engine.cpp:1005-1027 | Drops the record from records, charges, counter and index |
| `Engine.MemoryEngine.EvictDownTo` | src/core/memory_engine.cpp:998-1028 | The loop is an eviction run; it terminates because records shrink |
| `Engine.MemoryEngine.EnforceResidentHardLimit` | src/core/memory_engine.cpp:985-1030 | Enforces the resident limit |
| `Engine.PickCandidate` | src/core/memory_engine.cpp:948-974 | Of the unpinned records not skipped, one no other goes before |
| `Engine.ComputeWorkspacePinStats` | src/core/memory_engine.cpp:231-247 | Counts exactly the active and the pinned active records |
| `Engine.PutTerms` | src/core/memory_engine.cpp:826-859 | The writes add one row per distinct token with its count |
| `Engine.DeleteTerms` | src/core/memory_engine.cpp:762-774 | The writes remove the row of every token |
| `Accounting.InterleavingsBalance` | src/core/memory_engine.cpp:864-933 | In every interleaving of upserts, removals and evictions, each split into a locked map step and a later counter step, used + pending deltas equals the sum of charges at every point |
| `Accounting.StepKeepsBalance` | src/core/memory_engine.cpp:985-1030 | Each such half step keeps that balance |
| `Accounting.CounterShowsSum` | src/core/memory_engine.cpp:935-940 | The 64-bit counter shows the sum if and only if the pending deltas cancel modulo 2^64; so it does when nothing is in flight |
| `Accounting.EvictionCanOvertake` | src/core/memory_engine.cpp:889-893 | An interleaving of two upserts and two evictions, each begun while the counter is above the limit, that leaves nothing resident and the counter at 2^64 minus the second charge |
| `Accounting.SettlingCanWait` | src/core/memory_engine.cpp:991-1028 | An eviction reads the counter before it erases; a settlement in between changes places with the erasure, so the runs above cover it |
| `Records.NewerIsStrictOrder` | src/core/memory_engine.cpp:164-172 | Newer is a strict order, total up to equal stamps |
| `Records.ExpiryExact` | src/core/memory_engine.cpp:1495-1501 | A record with a lifetime expires exactly from updated_at + ttl on if and only if the lifetime in milliseconds is below 2^64 |
| `Keys.ZeroPadOrder` | src/core/memory_engine.cpp:34-38 | Zero-padded numbers compare as strings exactly as they do as numbers |
| `Keys.EventKeyOrder` | src/core/memory_engine.cpp:63-65 | Event keys of one workspace compare as (time, number) pairs |
| `Keys.DocKeysCollide` | src/core/memory_engine.cpp:40-42 | Two workspaces share a document key for some ids if and only if one name followed by "/doc/" begins the other followed by "/doc/" |
| `Keys.DocKeysUnique` | src/core/memory_engine.cpp:40-42 | The documents of a set of workspaces all have keys of their own if and only if no two names are nested like that |
| `Keys.DocKeyInjective` | src/core/memory_engine.cpp:40-42 | Within one workspace, or two that are not nested, document keys agree exactly for equal pairs |
| `Keys.DocKeyCollision` | src/core/memory_engine.cpp:40-42 | A name with "/doc/" inside shares document keys with the name before it |
| `Keys.PostingKeysCollide` | src/core/memory_engine.cpp:48-51 | Two terms share a posting key for some ids if and only if what comes before the ids is nested |
| `Keys.PostingKeyInjective` | src/core/memory_engine.cpp:48-51 | Within one workspace of any name, or two for which what comes before the ids is not nested, a posting key determines workspace, term and id, because no token holds a slash |
| `Keys.VecFpKeysCollide` | src/core/memory_engine.cpp:57-59 | Two workspaces share a vector key for some ids if and only if one name followed by "/vecfp/" begins the other followed by it |
| `Keys.VecFpKeyInjective` | src/core/memory_engine.cpp:57-59 | Within one workspace, or two that are not nested like that, vector keys agree exactly for equal pairs |
| `Keys.EventKeyInjective` | src/core/memory_engine.cpp:63-65 | Event keys never collide, whatever the workspaces: they agree exactly for equal workspace, time and number |
| `Keys.NamesApart` | src/core/memory_engine.cpp:40-59 | Names that are not nested up to a slash share no document, vector or posting key |
| `StoreRows.WritesAgreeIffApart` | src/core/memory_engine.cpp:738-862 | Every write of a row under its strings does to a string-keyed store what it does to the structured one if and only if no two of the workspaces in use can share a document, vector or posting key |
| `StoreRows.NotNestedIsApart` | src/core/memory_engine.cpp:40-59 | That none can holds for names of which none begins another up to a slash: a check on the names alone |
| `StoreRows.BatchSpells` | src/core/memory_engine.cpp:738-862 | Then so does every batch, whatever the timestamps and with entries of other namespaces in between |
| `StoreRows.RowNameInjective` | src/core/memory_engine.cpp:22-67 | Then namespace and key determine the row, over all five namespaces |
| `StoreRows.ClashingRows` | src/core/memory_engine.cpp:22-67 | Otherwise there are two rows of one name |
| `StoreRows.SpellsOneStore` | src/core/memory_engine.cpp:738-862 | Strings that lose nothing determine the structured store |
| `StoreRows.ScanListsRows` | src/core/memory_engine.cpp:316-324 | An unlimited scan of a namespace lists its rows, each once, in the order of their keys |
| `Keys.RecordMapKeysCollide` | src/core/memory_engine.cpp:1274-1276 | Two workspaces share a map key for some ids if and only if one name followed by a colon begins the other followed by a colon |
| `Keys.RecordMapKeysUnique` | src/core/memory_engine.cpp:1274-1276 | The records of a set of workspaces all have map keys of their own if and only if no two names are nested like that |
| `Keys.RecordMapKeyInjective` | src/core/memory_engine.cpp:1274-1276 | Within one workspace, or two that are not nested, map keys agree exactly for equal pairs |
| `Keys.RecordMapKeyCollision` | src/core/memory_engine.cpp:1274-1276 | A name with a colon shares map keys with the name before the colon |
| `Keys.NextMemoryIdInjective` | src/core/memory_engine.cpp:1503-1507 | Generated ids differ unless time and number agree |
| `RetrievalModel.TwoStageIsBruteForce` | src/core/retriever.cpp:170-274 | If the workspace has no more documents than either recall limit, recall, merge and rerank score exactly the filter-passing documents as scoring all of them does |
| `RetrievalModel.AnswerIsBruteForceBest` | src/core/retriever.cpp:145-298 | Then the hits are a top_k of the brute-force ranking with its scores |
| `RetrievalModel.AnswerIsComplete` | src/core/retriever.cpp:145-298 | With top_k at least the number of documents the hits are exactly the filter-passing ones, once each; without an embedding, those of them that share a token with the query |
| `RetrievalModel.RecallIsComplete` | src/core/retriever.cpp:170-234 | Then neither recall stage loses a document |
| `RetrievalModel.NoEmbeddingNeedsSharedToken` | src/core/retriever.cpp:201-223 | When the query has no embedding every hit shares a token with the query |
| `RetrievalModel.FusionIgnoresNegatives` | src/core/retriever.cpp:51-56 | Fused scores do not change when negative inputs are replaced by zero |
| `RetrievalModel.DocumentFrequencyBounded` | src/core/retriever.cpp:15-26 | The stored frequency of a term is the number of documents containing it, hence at most their number |
| `RetrievalModel.IdfPositive` | src/core/retriever.cpp:396-401 | Inverse document frequency is positive |
| `RetrievalModel.TermScorePositive` | src/core/retriever.cpp:396-407 | Each shared term adds a positive score |
| `RetrievalModel.LexicalScoreSharesToken` | src/core/retriever.cpp:381-409 | The lexical score is never negative, and positive exactly when document and query share a token |
| `Retriever.HybridRetriever.Index` | src/core/retriever.cpp:68-110 | Indexes the record in place of its predecessor, or removes it if it is a tombstone; document frequencies, total length and vector index stay exact |
| `Retriever.HybridRetriever.Remove` | src/core/retriever.cpp:112-143 | Removes exactly one record and keeps the statistics and the vector index exact |
| `Retriever.HybridRetriever.Query` | src/core/retriever.cpp:145-298 | Answers as the two-stage specification over the indexed records says |
| `Retriever.RetrievedAreMatching` | src/core/retriever.cpp:276-298 | Hits are sorted by final score, distinct, at most top_k, and are matching records with their fields |
| `Retriever.RetrievedIsComplete` | src/core/retriever.cpp:145-298 | With top_k large enough the hits are exactly the matching indexed records, or without an embedding those that share a token with the query |
| `Retriever.HoldsAfterPut` | src/core/retriever.cpp:76-109 | After an indexing step snapshots and vectors represent the indexed records with one more |
| `Retriever.HoldsAfterRemove` | src/core/retriever.cpp:112-142 | After a removal they represent them with one less, and an emptied workspace disappears |
| `Retriever.LengthAfterPut` | src/core/retriever.cpp:98-105 | Subtracting the previous length cannot underflow and gives the new total |
| `Retriever.AddDocument` | src/core/retriever.cpp:84-107 | The next snapshot has exact frequencies and total length |
| `Retriever.DropDocument` | src/core/retriever.cpp:122-138 | So has the one after a removal |
| `Retriever.BuildDocumentFrequency` | src/core/retriever.cpp:15-26 | Counts, for each term, the documents that contain it |
| `Retriever.CountTerms` | src/core/retriever.cpp:77-79 | Counts each token's occurrences |
| `Retriever.ScoreLexically` | src/core/retriever.cpp:381-409 | Sums the term scores of the query's distinct terms |
| `Retriever.SparseCandidates` | src/core/retriever.cpp:176-199 | The sparse stage returns the best positive lexical scores among filter-passing documents, up to its limit |
| `Retriever.FilterDense` | src/core/retriever.cpp:210-221 | Of the dense results exactly the filter-passing documents remain, with their scores |
| `Retriever.Merge` | src/core/retriever.cpp:227-234 | The merged candidates are the union, each with both its scores |
| `Retriever.Peaks` | src/core/retriever.cpp:238-243 | The two maxima over the candidates, not below zero |
| `Retriever.Rerank` | src/core/retriever.cpp:245-274 | One hit per candidate with the fused score |
| `Retriever.CutToBest` | src/core/retriever.cpp:276-285 | No dropped candidate outranks a kept one |
| `Ranking.Rank` | src/core/retriever.cpp:191-199 | Sorting and cutting gives the k best, by score and then by id |
| `Ranking.PlaceIsRank` | src/core/retriever.cpp:191-199 | The place of an item in the sorted list is the number of items better than it |
| `Ranking.BestPrefix` | src/core/retriever.cpp:276-285 | The first k of a sorted list of distinct ids are a best k |
| `Ranking.BestOfFew` | src/core/retriever.cpp:276-285 | A best k of at most k items is all of them |
| `VectorIndex.SameBucketSameSigns` | src/core/lsh_vector_index.cpp:83-92 | Two vectors share a bucket exactly when the same of their first 64 components are positive |
| `VectorIndex.LshVectorIndex.Upsert` | src/core/lsh_vector_index.cpp:11-15 | Replaces one entry |
| `VectorIndex.LshVectorIndex.Remove` | src/core/lsh_vector_index.cpp:17-27 | Removes one entry, and a workspace with its last one |
| `VectorIndex.LshVectorIndex.Search` | src/core/lsh_vector_index.cpp:29-64 | Returns the k nearest entries of the workspace by similarity, same-bucket bonus included, each once, sorted |
| `VectorIndex.LshVectorIndex.BucketForVector` | src/core/lsh_vector_index.cpp:83-92 | The loop over bits computes the sign signature |
| `VectorIndex.LshVectorIndex.CosineOf` | src/core/lsh_vector_index.cpp:94-103 | The loop computes the dot product of vectors of equal length; others score 0 |
| `InMemoryStore.PutRefinesFlat` | src/store/in_memory_store_adapter.cpp:138-157 | A put into the routed shard is a put into the flat map, and every key stays in its shard |
| `InMemoryStore.DeleteRefinesFlat` | src/store/in_memory_store_adapter.cpp:159-176 | Likewise for a delete |
| `InMemoryStore.PutAudit` | src/store/in_memory_store_adapter.cpp:138-157 | The counter updates of a put keep item count and bytes equal to the flat map's size and footprint, without underflow |
| `InMemoryStore.DeleteAudit` | src/store/in_memory_store_adapter.cpp:159-176 | So do those of a delete |
| `InMemoryStore.InMemoryStoreAdapter.Put` | src/store/in_memory_store_adapter.cpp:28-35 | The contents become the flat map with one entry set |
| `InMemoryStore.InMemoryStoreAdapter.UpsertLocked` | src/store/in_memory_store_adapter.cpp:138-157 | So they do in one shard |
| `InMemoryStore.InMemoryStoreAdapter.Get` | src/store/in_memory_store_adapter.cpp:37-50 | Agrees with the flat map |
| `InMemoryStore.InMemoryStoreAdapter.Delete` | src/store/in_memory_store_adapter.cpp:52-59 | The contents become the flat map without the key |
| `InMemoryStore.InMemoryStoreAdapter.DeleteLocked` | src/store/in_memory_store_adapter.cpp:159-176 | Absent namespaces and keys change nothing, present keys disappear |
| `InMemoryStore.InMemoryStoreAdapter.BatchWrite` | src/store/in_memory_store_adapter.cpp:97-113 | The contents become the entries applied in order |
| `InMemoryStore.InMemoryStoreAdapter.Scan` | src/store/in_memory_store_adapter.cpp:61-95 | Returns the first `limit` entries of the sorted [begin, end) slice of the flat map |
| `InMemoryStore.InMemoryStoreAdapter.ApproximateUsage` | src/store/in_memory_store_adapter.cpp:115-122 | Item count is the map's size and bytes its footprint sum |
| `InMemoryStore.LowerBound` | src/store/in_memory_store_adapter.cpp:74-81 | The position found separates the keys below begin from the rest |
| `InMemoryStore.ScanShard` | src/store/in_memory_store_adapter.cpp:71-82 | One shard yields exactly its part of the slice |
| `FlatStore.ScanUnique` | src/store/in_memory_store_adapter.cpp:61-95 | A scan result is determined by the flat map and the range |
| `FlatStore.RangeUnique` | src/store/in_memory_store_adapter.cpp:61-95 | A strictly sorted list is determined by its entries |
| `PartitionRouting.RecordRowsShareRoutingKey` | src/store/eloqstore_adapter.cpp:32-78 | Document and vector row of one record have the same routing key if and only if the workspace is not empty and does not begin with a slash, and the id has a part after its last slash or holds a colon; then its posting rows have it too |
| `PartitionRouting.SeedsDifferAcrossNamespaces` | src/store/eloqstore_adapter.cpp:80-82 | Routing seeds agree exactly for equal namespaces and routing keys; so rows of one record in two namespaces are hashed from different seeds |
| `PartitionModel.HomeOfEntry` | src/store/eloqstore_adapter.cpp:705-714 | The partition of a full key is that of its namespace and key |
| `PartitionModel.BatchIsOverride` | src/store/eloqstore_adapter.cpp:314-322 | Applying a list in order equals overriding with the last write of each key |
| `PartitionModel.ListedBatch` | src/store/eloqstore_adapter.cpp:324-343 | Applying the remaining writes in any listing equals that override |
| `PartitionModel.BatchPreservesMeaning` | src/store/eloqstore_adapter.cpp:300-353 | When every sub-batch succeeds, grouping by partition and keeping last writes gives the same logical map as applying the entries in order, and keys stay at home |
| `MergedScan.MergedIsRange` | src/store/eloqstore_adapter.cpp:234-298 | With limit 0 the merged scan is the sorted range of the logical map, each key once |
| `MergedScan.PagesSuffice` | src/store/eloqstore_adapter.cpp:255-298 | Reading only `limit` rows of each partition loses nothing of the first `limit` merged entries, largest timestamp first |
| `MergedScan.RemoveDuplicates` | src/store/eloqstore_adapter.cpp:278-292 | One entry per key stays, the one with the largest timestamp, and the keys come out sorted |
| `EloqStoreAdapter.EloqStoreAdapter.Get` | src/store/eloqstore_adapter.cpp:196-212 | Reads the routed partition only |
| `EloqStoreAdapter.EloqStoreAdapter.BatchWrite` | src/store/eloqstore_adapter.cpp:300-353 | Succeeds iff no sub-batch fails; each partition before the first failing one has its writes applied in order, every other partition is unchanged |
| `EloqStoreAdapter.EloqStoreAdapter.CommitBatches` | src/store/eloqstore_adapter.cpp:324-343 | The loop over partitions |
| `EloqStoreAdapter.EloqStoreAdapter.GroupByPartition` | src/store/eloqstore_adapter.cpp:314-322 | Groups by partition and keeps the last write of each key |
| `EloqStoreAdapter.EloqStoreAdapter.Scan` | src/store/eloqstore_adapter.cpp:234-298 | Ends like the first partition that cannot be read: not found if it was never written, failed otherwise; if all can be read, with the merge of all partitions |
| `MergedScan.OneUnwrittenHidesAll` | src/store/eloqstore_adapter.cpp:252-270 | If no request fails, a scan answers "not found" if and only if some configured partition was never written, whatever the others hold |
| `PartitionedFlat.BatchRefinesFlat` | src/store/eloqstore_adapter.cpp:300-353 | For namespaces without a colon, a batch whose requests all succeed turns partitions that hold a flat map into ones that hold that map with the entries applied in order |
| `PartitionedFlat.ScanRefinesFlat` | src/store/eloqstore_adapter.cpp:234-298 | On partitions that hold a flat map a scan with any limit is the first `limit` entries of the map's sorted range |
| `EloqStoreAdapter.EloqStoreAdapter.ScanOne` | src/store/eloqstore_adapter.cpp:255-276 | Adds one partition's page to what was gathered |
| `EloqStoreAdapter.EloqStoreAdapter.RehashStoredEntries` | src/store/eloqstore_adapter.cpp:567-652 | Completed, it leaves the listed namespaces' entries unchanged, each only in its own partition, in configured partitions only; interrupted anywhere, the logical map is unchanged and entries have only moved towards home |
| `EloqStoreAdapter.EloqStoreAdapter.MoveAll` | src/store/eloqstore_adapter.cpp:578-646 | The three nested loops |
| `EloqStoreAdapter.EloqStoreAdapter.RehashPartition` | src/store/eloqstore_adapter.cpp:578-645 | One source partition |
| `EloqStoreAdapter.EloqStoreAdapter.MoveNamespace` | src/store/eloqstore_adapter.cpp:579-645 | One namespace of one source partition: nothing lost, and on success nothing left that belongs elsewhere |
| `EloqStoreAdapter.EloqStoreAdapter.PlanMoves` | src/store/eloqstore_adapter.cpp:600-617 | The copies are exactly the misplaced rows, by target, and the deletions exactly their keys |
| `EloqStoreAdapter.EloqStoreAdapter.WriteCopies` | src/store/eloqstore_adapter.cpp:619-630 | Copies are only added; stopping early loses nothing |
| `EloqStoreAdapter.EloqStoreAdapter.DeleteMoved` | src/store/eloqstore_adapter.cpp:632-644 | Only keys already copied are deleted |
| `EloqStoreAdapter.EloqStoreAdapter.CleanupOutdatedPartitionDirs` | src/store/eloqstore_adapter.cpp:654-666 | Removes exactly the listed partitions outside the configured count |
| `EloqStoreAdapter.EloqStoreAdapter.RefreshLayoutOnStartup` | src/store/eloqstore_adapter.cpp:410-443 | On success the layout is recorded, and the data is at home if and only if a rehash was due or it was there already; on failure the recorded layout is unchanged, and the data is refreshed if the rehash was completed and otherwise only moved towards home |
| `EloqStoreAdapter.RetryStillRehashes` | src/store/eloqstore_adapter.cpp:410-441 | After an attempt that failed, wherever it did, a rehash is due again or every entry is at home |
| `EloqStoreAdapter.StartAgain` | src/store/eloqstore_adapter.cpp:410-443 | A client: a start that fails anywhere and a second one that does not leave the data as one undisturbed refresh would |
| `LayoutPlan.RetryEndsTheSame` | src/store/eloqstore_adapter.cpp:567-652 | However far a stopped refresh got, one that completes with the same partition count ends with the entries an undisturbed refresh would have left |
| `LayoutPlan.SkippedRefresh` | src/store/eloqstore_adapter.cpp:410-441 | Skipping the rehash is right if and only if every entry is at home already |
| `LayoutPlan.WritesKeepHome` | src/store/eloqstore_adapter.cpp:324-343 | A batch keeps entries at home, whichever of its requests fail |
| `LayoutPlan.SkippingStaysRight` | src/store/eloqstore_adapter.cpp:410-441 | After a completed refresh and any sequence of batches, with any failures, a start with the same partition count is right in moving nothing |
| `EloqStoreAdapter.StoppedRefreshIsForgotten` | src/store/eloqstore_adapter.cpp:410-441 | A client: a refresh towards fewer partitions moves an entry and fails to record the new layout; a start with the old count then asks for no rehash, and the stored entry is not found |
| `LayoutPlan.TowardsHome` | src/store/eloqstore_adapter.cpp:600-644 | A plan carried out in part moves entries only towards their partition |
| `LayoutPlan.MovedIsSettled` | src/store/eloqstore_adapter.cpp:600-644 | A plan carried out in full leaves no misplaced entry of the namespace |
| `LayoutPlan.SettledIsHome` | src/store/eloqstore_adapter.cpp:578-646 | When all sources are settled every entry is at home |
| `LayoutPlan.CleanupKeepsKnown` | src/store/eloqstore_adapter.cpp:648-651 | Dropping the outdated partitions then loses no entry |
| `LayoutModel.CopyStep` | src/store/eloqstore_adapter.cpp:619-630 | Adding copies keeps the logical map |
| `LayoutModel.DropStep` | src/store/eloqstore_adapter.cpp:632-644 | Deleting one of several copies keeps the logical map |
| `LayoutModel.SplitInNamespace` | src/store/eloqstore_adapter.cpp:600-617 | Cutting the namespace off a scanned key gives the key it was routed by |
| `Utf8.DecodeExact` | src/util/text.cpp:14-83 | Decoding succeeds exactly on the byte sequences of section 4 of RFC 3629, consumes all of one, and encoding the code point (section 3) gives the bytes back |
| `Utf8.EncodeThenDecode` | src/util/text.cpp:14-83 | Every Unicode scalar value, encoded between any bytes, decodes to itself |
| `Utf8.EncodeInjective` | src/util/text.cpp:14-83 | No two code points have the same encoding |
| `Utf8.DecodeSuffix` | src/util/text.cpp:14-83 | Decoding does not look back |
| `Tokenizer.Tokenize` | src/util/text.cpp:135-172 | The scanning loop computes the tokens of the input's units: maximal runs of word bytes lower-cased, maximal runs of CJK characters as bigrams |
| `Tokenizer.FlushAsciiToken` | src/util/text.cpp:91-97 | Appends the word in progress, if any |
| `Tokenizer.FlushCjkRunAsBigrams` | src/util/text.cpp:99-112 | Appends a single character or all adjacent pairs |
| `TokenAlgebra.TokenizeSplitsAtSeparator` | src/util/text.cpp:135-172 | For all byte strings a, b and any ASCII non-word byte s, the tokens of a+s+b are those of a followed by those of b, even if a ends within a character |
| `TokenAlgebra.TokenizeIdempotent` | src/util/text.cpp:135-172 | Every token ever produced tokenizes to itself alone |
| `TokenAlgebra.TokensHaveNoSeparator` | src/util/text.cpp:135-172 | Tokens are not empty and hold only word bytes and bytes above ASCII |

## Left out

- Engine.MemoryEngine.PersistBatchNow: takes or refuses a batch as a whole, as the design document intends; a batch over several EloqStore partitions can stop between two of them, which `EloqStoreAdapter.EloqStoreAdapter.CommitBatches` states. Runs contain that only at their end and for a batch of one save (`EngineRuns.RunsSurvivePartialSave`); what a partial batch does to posting and vector rows is not modelled.
- EngineRuns.RestartKeepsInv: covers restarts whose scans find enough; after others the engine runs on with fewer records than are stored, and no invariant is claimed for what it does then.
- StoredRuns.RunIsHeld: takes as given that the engine's write lists name rows of the workspaces in use, with terms out of the tokenizer; that they have the effect of the planned actions is proved (`Engine.MemoryEngine.SaveAndLog`, `Engine.MemoryEngine.EraseAndLog`).
- EloqStoreAdapter.StoppedRefreshIsForgotten: the refresh stops where the new layout is recorded; the same can follow a stop in the middle of the moves, of which `EloqStoreAdapter.EloqStoreAdapter.RehashStoredEntries` says only that entries have moved towards home.
- EngineRuns.TidyRunsKeepRowsExact: covers runs whose batches repeat no record and save over no evicted active document; for other batches `Postings.ActIsExact` gives the exact condition for each action.
- EngineRuns.StrictRunsRaiseNoDead: covers runs whose operations start at strictly later times; `Witnesses.ResurrectedWithinOneMillisecond` shows why, and `EngineRuns.RunsRaiseNoDeadExactly` is the condition for all runs.
- Engine.MemoryEngine.CompactInternal: the loop's `break` at the batch limit is modelled as skipping the remaining candidates; whether disk use is over the high watermark is an input, and the summary counters are not modelled.
- Accounting.InterleavingsBalance: interleaves the byte counter only; retriever contents and pin quota are proved for sequential runs, since the code gives no such guarantee under concurrency.
- EloqStoreAdapter.EloqStoreAdapter.Scan: pages are limited by rows only; EloqStore's page-size cap in bytes is not visible in this repository.
- `mem_vec_code`, `mem_term_dict` and `mem_route_meta` rows; a `mem_vec_fp` row stands for the vector of a text.
- Serialisation of records, events and checkpoints as JSON: the engine's model reads back what it wrote, and `StoreRows` takes the texts as functions, of which only `StoreRows.SpellsOneStore` needs that they lose nothing; parsing errors of stored rows.
- The HTTP and MCP layers, brpc, installation scripts, layout files and directory scanning on disk; the partitions found at startup are an input that contains all non-empty ones.
- EloqStore itself: timestamps do not order its writes here, and a successful batch sets exactly the named keys; its single Put and Delete, and the adapter's usage counters, add nothing to BatchWrite.
- Statistics, latency and token metrics, `index_generation`, the capacity-blocked flag and store compaction jobs.
- The garbage-collection thread and its watermark scheduling; what it calls is modelled.
- Floating-point rounding: scores, ratios and vectors are reals.
- Overflow of size arithmetic such as top_k times oversample, and of sequence numbers and clock readings, which are required to stay below 2^64.
- The pinned ratio and exactness of the deduplication index as invariants: the code does not keep either.
- Text summaries and `RedactSecrets`, which the engine does not use.
