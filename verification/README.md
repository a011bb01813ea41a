# A verified model of the compact-block cache

This project models, in Dafny, the block cache of a caching light-wallet proxy and the state machines that keep
it honest, and proves that what the cache holds, serves, publishes and imports is one real chain. The client
protocol served is ZIP 307, section "Compact Stream Format".

`dafny verify dfyconfig.toml` checks everything.

## What is modelled

| Files | Part of the system |
|---|---|
| `Base`, `Encoding`, `Blocks` | options and results, heights of a table, hex and byte order, compact blocks, the codec and SHA-256 as parameters |
| `BlockStore`, `MetaKeys`, `BlockCache` | the cache: as a value with its two transactions, and as a class over a block table and a string-keyed metadata table |
| `Recovery`, `Repair` | the open-time check, corruption recovery, the repair signal and its budget |
| `Ingestor`, `Convergence`, `Runs` | one ingest step against any node, convergence against a stable one, all writers interleaved |
| `Whole` | the writers and the digest maintenance interleaved over one cache |
| `Format`, `Export`, `Publisher`, `Manifest` | the epoch wire format, epoch bodies and digests, what every run keeps of the stored rows, the manifest |
| `HashWorkers`, `Import`, `ImportRun`, `ImportTheorems`, `RoundTrip` | the hash-lookup pool, the layered verifier, the import loop, what an import leaves behind, export followed by import |
| `Filter`, `Framing`, `RangeServer` | pool filtering, frame batching, the block-range stream |
| `Mempool`, `Darkside` | the mempool monitor and stream, the mock chain |

The pattern throughout: an operation that changes state is a method (or a class with methods) whose `ensures`
equates its new state with a specification function of the old one; the theorems are lemmas about those
functions, over every input, every answer of the outside world and every run.

## Assumptions

- Heights are natural numbers. Where epochs matter they stay below `Format.HEIGHT_LIMIT`, the first height of the
  one epoch whose bounds saturate.
- The protobuf codec of a stored block is a pair of functions with `decode(encode(b)) == Some(b)`; SHA-256 is a
  function to 32 bytes. Only `Convergence` assumes that equal hashes mean equal blocks, among the blocks cached
  and those on the node.
- A database transaction is atomic. The range server sees the cache as some table at each read, the tables of
  different reads being unrelated; the maintenance walk sees appends between any two of its transactions.
- Nothing is assumed of the node during an ingest step: it may answer anything for any height, differently in
  every step. A range request or an import asks for each height once, so there an answer per height suffices.
- Clock readings are parameters, in nanoseconds. Error values keep their kind, not their text.
- The model of a mined transaction wraps 32-bit sizes, as a release build does.

## What the code does that its comments do not say

- `recover` and `repair_reported` step below a height with a saturating subtraction, so height zero is special.
  `Recovery.RecoverTwice` gives the exact exception (the gap-free run from height zero holds nothing good) and
  `Recovery.StuckExample` a table in it; `Ingestor.RepairClearsReport` gives the one for repairs and
  `Ingestor.RepairKeepsZero` a cache in it. No reader can cause the latter, since range requests refuse height zero
  (`Runs.ReaderReportsAreCleared`).
- An import of a healthy snapshot succeeds if and only if every body is at most 2 GiB
  (`RoundTrip.ExportImportRoundTrip`); the exporter has no such limit: `RoundTrip.OversizeExample` is a healthy publisher
  from which no importer whose node has reached the epoch takes anything.
- A step can report progress and leave the cache as it was: if and only if it fetches a window, the task of the
  first height is cancelled and no task panics, even if every other block arrives
  (`Ingestor.StepStallsExactly`, with `Ingestor.StallExample`).
- Mining is meant to give the block a new hash by perturbing a byte of its header. The header changes if and only if
  the number of transactions mined into the block in one apply is not a multiple of 256
  (`Darkside.MiningChangesHeaderExactly`, with `Darkside.MiningKeepsHeader`).
- A mempool stream resumes by index, so it sends exactly what it is shown if and only if each look shows what the
  one before did and possibly more (`Mempool.StreamIsExactIff`). The monitor guarantees that under one tip hash; one
  that is replaced and then comes back breaks it (`Mempool.RecurringTipLosesEntry`).
- A repair signal keeps only the lowest report, since truncating there is meant to cover the higher ones. It covers a
  report in range if and only if no outstanding report lies below the cached range, but for the corner at height zero
  (`Ingestor.LowestReportCoversExactly`); `Ingestor.AbsorbedReport` is one that is lost.
- A manifest's base is called advisory, and is read separately from the rows; yet an importer refuses a manifest with
  epochs whose base is not the first one's start. A manifest with epochs is accepted if and only if the base read is
  still the lowest cached height when the rows are read (`Manifests.ManifestAcceptedExactly`), as it is while blocks
  are only appended (`Manifests.ManifestWhileAppending`); `RoundTrip.StaleBaseExample` is one that is refused.

## Model

| member | source | states |
|---|---|---|
| `Encoding.DisplayRoundTrip` | src/encoding.rs:5-21 | decoding a wire hash's display hex gives the wire hash back |
| `Encoding.HexDecodeExactly` | src/encoding.rs:5-9 | exactly the texts of an even number of hex digits decode, in either case, and encoding gives them back in lower case |
| `MetaKeys.KeyParsesBack` | src/cache.rs:25-36 | the key of every 64-bit epoch number parses back to that number, and is never the base-height key |
| `MetaKeys.KeysSort` | src/cache.rs:23-36 | the table's byte-wise key order is the numeric order of the epochs |
| `BlockStore.AppendItemsExact` | src/cache.rs:175-230 | an append succeeds if and only if every item decodes and the heights run consecutively from right above the tip; the table is then the old one with exactly those rows |
| `BlockStore.ExtendedKeepsChain` | src/cache.rs:175-230 | appending a hash-linked run that follows the tip keeps one chain |
| `BlockStore.AppendExactly` | src/cache.rs:175-230 | an append of decoded blocks succeeds if and only if they run on from the tip; every digest row stays, and the base unless one came along with a block |
| `BlockStore.RemoveFromExactly` | src/cache.rs:388-409 | a truncation keeps, as they were, the blocks below the height, the rows of epochs that end below it and a base below it, and nothing else |
| `BlockCache.Cache.Append` | src/cache.rs:175-230 | all items in one transaction or an error that leaves every table as it was; a base height is recorded only along with a block |
| `BlockCache.Cache.RemoveFrom` | src/cache.rs:388-409 | blocks from a height up, the digests of that epoch and later, and a base at or above it all go, and nothing else |
| `BlockCache.Cache.EpochDigests` | src/cache.rs:433-444 | every digest row exactly once, ascending by epoch number, from a walk in key order |
| `BlockCache.ReadChunk` | src/cache.rs:301-341 | the near side of the range, exactly the rows held there; within the byte budget unless a single row; cut short only where one more row would not fit |
| `Recovery.ValidateLightExact` | src/cache.rs:449-491 | the count-and-tip check accepts a non-empty table if and only if the tip decodes at its own height and no height in between is missing |
| `Recovery.LowestCorruptHeight` | src/cache.rs:504-547 | the first gap, or else the bottom of the bad suffix below the tip |
| `Recovery.LowestCorruptExactly` | src/cache.rs:504-547 | nothing is found if and only if the open-time check passes; with a gap it is the first one, and without one the bottom of the run of bad rows that ends at the tip |
| `Recovery.Recover` | src/ingestor.rs:204-210 | the cache after recovery is the truncation below the lowest corrupt height |
| `Recovery.RecoveredExactly` | src/ingestor.rs:204-210 | recovery keeps everything below the corrupt height, and height zero in any case, as it was, rows and base included, and nothing else |
| `Recovery.RecoverShrinks` | src/ingestor.rs:204-210 | for a table that starts above zero, a round changes nothing or leaves strictly fewer rows |
| `Recovery.RecoverTwice` | src/ingestor.rs:199-210 | two rounds reach a table the check accepts, if and only if the gap-free run from height zero is absent or holds a good row |
| `Recovery.StuckExample` | src/ingestor.rs:204-210 | a lone undecodable row at height zero survives recovery |
| `Repair.RepairSignal.Report` | src/repair.rs:35-37 | fetch-min on the cell |
| `Repair.RepairSignal.Take` | src/repair.rs:40-45 | returns the cell unless nothing was reported, and resets it |
| `Repair.SlotIsMinimum` | src/repair.rs:26-46 | after any interleaving the cell is the minimum of the reports no take has claimed |
| `Repair.RepairBudget.Spend` | src/ingestor.rs:57-77 | refuses exactly when five were granted in the open window; a window older than 600 s is replaced first |
| `Repair.FirstFiveAreGranted` | src/ingestor.rs:57-77 | the first five requests of every window are granted, and no others |
| `Repair.RepairRate` | src/ingestor.rs:36-83 | with non-decreasing clock readings, at most five repairs in every started 600 s since creation |
| `Ingestor.FetchWindow` | src/ingestor.rs:353-398 | in any completion order: a result for exactly the heights whose task left one, each that height's answer |
| `Ingestor.KeepPrefix` | src/ingestor.rs:277-319 | the loop over the results keeps the prefix `Collect` describes, and why it stopped |
| `Ingestor.CollectIsLongest` | src/ingestor.rs:277-319 | that prefix is the longest run of arrived blocks in which each connects to the one below; fetch failure and mismatch are told apart by what stands at the next height |
| `Ingestor.RunStep` | src/ingestor.rs:217-347 | the cache and the outcome of a step are the specified function of the old cache and the node's answers |
| `Ingestor.WindowOutcome` | src/ingestor.rs:280-346 | in a window the first height decides: its failed fetch is a fetch error, its missing result a task error if any task panicked, and everything else is progress |
| `Ingestor.StepOutcomeExactly` | src/ingestor.rs:217-347 | a step reports the node's fault, corruption, an undecodable hash or idleness if and only if, respectively, the node did not describe itself, a row the step has to decode does not decode, the node's tip hash is not hex where it is needed, or there is nothing to do |
| `Ingestor.StepBehindExactly` | src/ingestor.rs:226-267 | when the node is not ahead, a step drops the tip if and only if the cached block at the node's tip has another hash, and otherwise leaves the cache alone |
| `Ingestor.StepRows` | src/ingestor.rs:217-347 | every row after a step was there before or is what the node gave for that height |
| `Ingestor.StepCommitsLongestPrefix` | src/ingestor.rs:226-347 | for any answers, a window step commits exactly that prefix, and rolls back if and only if the block right above the tip arrived and disagrees |
| `Ingestor.StepRemovesAtMostTip` | src/ingestor.rs:217-347 | one step keeps every row, or removes exactly the tip's, or empties the cache; and it empties a cache of more than one block only when the tip is at or below the floor |
| `Ingestor.StepKeepsRows` | src/ingestor.rs:217-347 | a step that does not empty the cache keeps the digest row of every epoch that ends below the tip, and a base below it |
| `Ingestor.StepStallsExactly` | src/ingestor.rs:188-347 | a step reports progress and leaves the cache as it was, if and only if it fetches a window, the first height's task is cancelled and none panics |
| `Ingestor.StallExample` | src/ingestor.rs:280-346 | a node with which that happens although a block arrived |
| `Ingestor.StepKeepsChain` | src/ingestor.rs:217-347 | against any node, a step leaves one chain where it found one |
| `Ingestor.RollBack` | src/ingestor.rs:404-420 | keeps the target unless it is below the floor or would not lower the tip, and then empties the cache |
| `Ingestor.RollBackExactly` | src/ingestor.rs:404-420 | a rollback keeps everything up to its target as it was, or, at the floor or when it would not lower the tip, nothing at all |
| `Ingestor.RepairReported` | src/ingestor.rs:142-185 | out of range: nothing changes; refused: the report stays in the cell, which is then at or below it; granted: rolled back below it |
| `Ingestor.RepairClearsReport` | src/ingestor.rs:142-185 | a granted repair leaves no block at or above the reported height, if and only if it is not the corner at height zero |
| `Ingestor.LowestReportCoversExactly` | src/repair.rs:33-45 | acting on the cell clears a report in range, if and only if no outstanding report lies below the cached range and it is not the corner at height zero |
| `Ingestor.AbsorbedReport` | src/repair.rs:33-45 | heights 4 to 6 cached, 5 and 1 reported: acting on the cell repairs nothing |
| `Ingestor.RepairKeepsZero` | src/ingestor.rs:142-185 | of two cached blocks, a repair of height zero keeps the reported one |
| `Convergence.Converges` | src/ingestor.rs:217-420 | against a stable node that answers, repeated steps from any linked cache come to rest within the explicit bound; the cache is then one chain that agrees with the node at and below its tip, unless the node's tip is below the floor or the cached base |
| `Convergence.Closer` | src/ingestor.rs:217-420 | every step not at rest keeps the invariant and strictly decreases the bound |
| `Convergence.RestAgrees` | src/ingestor.rs:226-270 | at rest the node's tip is cached and every cached block up to it is the node's |
| `Convergence.WindowsIsCeiling` | src/ingestor.rs:272-275 | the bound counts windows as the ceiling of missing blocks over the window size |
| `Runs.RunLoopBody` | src/ingestor.rs:86-137 | one iteration of the loop: act on the repair cell, step, and recover only from corruption and only five times in a row; the cell is emptied unless the budget refused what it held, and the budget charged only for a report in range |
| `Runs.RecoversExactly` | src/ingestor.rs:86-137 | the loop recovers after a step if and only if it ended in corruption, but for every sixth such step in a row; it pauses after every other error and polls if and only if there is nothing to do |
| `Runs.IterationRepairsFirst` | src/ingestor.rs:86-185 | after an iteration with a granted report in range, nothing is left at or above the reported height but what the node gave in that iteration, but for the corner at height zero |
| `Runs.RepairsAreBounded` | src/ingestor.rs:36-185 | in any run of the loop, whatever is reported and answered, at most five repairs in every started 600 s since the budget was created |
| `Runs.ReaderReportsAreCleared` | src/service/blocks.rs:23-29 | requests being for heights above zero, acting on what a response reported always leaves no block at or above it |
| `Runs.RecoveriesAreBounded` | src/ingestor.rs:86-137 | no run of the loop recovers more than five times in a row without a successful step or a pause |
| `Runs.RunsKeepOneChain` | src/ingestor.rs:86-347 | in every run interleaving steps against any node, repairs, recoveries, operator truncations and epoch imports: one interval of heights, each key its block's height, each previous hash the hash below |
| `Whole.RunsKeepChainAndRows` | src/ingestor.rs:86-347 | in every run of loop iterations, truncations, imports and maintenance units with the ingestor appending in between, the cache is one chain and every stored row is the digest of what would be sent now |
| `Whole.LoopKeepsPublished` | src/ingestor.rs:86-210 | an iteration of the loop, its repair, step and recovery, keeps the stored rows current and gap-free |
| `Whole.ImportKeepsPublished` | src/snapshot/import.rs:123-136 | so does landing an epoch, whose base becomes the recorded one on an empty cache |
| `Whole.WindowIsStep` | src/ingestor.rs:272-332 | what arrives between the transactions of a maintenance unit is what an ingest step appends |
| `Format.EpochHolds` | src/snapshot/format.rs:31-43 | below the saturating epoch, an epoch's bounds hold exactly the heights that index to it |
| `Format.LaterBytesWeighMore` | src/snapshot/format.rs:100-165 | little-endian: one more byte at the end weighs 256 times the last |
| `Format.BigIsLittleReversed` | src/snapshot/format.rs:296-325 | big-endian is little-endian read backwards |
| `Format.AnchorAppend` | src/snapshot/format.rs:300-306 | one more block feeds the anchor its height in eight big-endian bytes and its hash |
| `Format.BodyLayout` | src/snapshot/format.rs:141-156 | where magic, chain name, first height, count and records stand in an epoch body |
| `Format.RecordsLayout` | src/snapshot/format.rs:158-165 | a record is its length in four bytes and its payload, one record after the other |
| `Format.DigestLayout` | src/snapshot/format.rs:100-114 | where bounds, length and the two digests stand in a row |
| `Format.Cursor.Take` | src/snapshot/format.rs:235-257 | the next bytes and the offset moved past them, or nothing taken when too few are left |
| `Format.ReadEpoch` | src/snapshot/format.rs:182-233 | the cursor-driven parser computes the specified parse, errors included |
| `Format.ParseUndoesWrite` | src/snapshot/format.rs:141-233 | parsing a header and records as written gives them back, for every valid chain name and record list |
| `Format.WriteUndoesParse` | src/snapshot/format.rs:141-233 | every accepted body is, byte for byte, the serialization of its parts |
| `Format.DigestRoundTrip` | src/snapshot/format.rs:100-126 | decoding an encoded digest gives it back, from exactly 88 bytes |
| `Format.RowRoundTrip` | src/snapshot/format.rs:100-126 | a row decodes if and only if it has 88 bytes, and re-encodes to itself |
| `Export.WriteBody` | src/snapshot/export.rs:168-197 | succeeds if and only if the bounds are sane, the chain name writable, every height cached and small enough (and, for a digest, decodable at its height); the bytes are the epoch's body, the anchor input its heights and hashes |
| `Export.NextPendingEpoch` | src/snapshot/export.rs:255-267 | the lowest epoch from the base's on that ends below the tip and has no row; none only when all of them have one |
| `Export.StoreNextEpochDigest` | src/snapshot/export.rs:72-89 | one maintenance unit with appends between any two of its transactions ends in the specified state |
| `Export.WriteEpoch` | src/snapshot/export.rs:54-65 | serves an epoch if and only if it has a decodable row and its range is still cached, and then exactly that range's body |
| `Publisher.EffectKeepsPublished` | src/snapshot/export.rs:72-267 | each append, import, truncation and maintenance unit keeps the stored rows current, gap-free and within the cached blocks |
| `Publisher.TruncationKeepsPublished` | src/cache.rs:388-409 | a truncation at any height leaves no row that describes a block it removed |
| `Publisher.TruncationIsNoticed` | src/snapshot/export.rs:97-106 | the range check of a maintenance unit notices a truncation at any height within the cache |
| `Publisher.RunsStayPublished` | src/snapshot/export.rs:72-267 | so does every run of them: each row equals the digest of the body that would be sent now, rows run without gap from the base's epoch, a recorded base is the lowest cached height |
| `Publisher.RunsFromScratch` | src/snapshot/export.rs:72-267 | in particular every run from a gap-free cache that has no rows |
| `Publisher.MaintenanceStores` | src/snapshot/export.rs:72-89 | over a healthy cache, whatever is appended meanwhile, a maintenance unit stores exactly the pending row |
| `Publisher.MaintenanceCatchesUp` | src/snapshot/export.rs:131-267 | repeated units over such a cache give every complete epoch its row within as many units as rows were missing |
| `Publisher.PublishedIsServed` | src/snapshot/export.rs:54-65 | every published epoch can be served, and its row names the length and hash of the served bytes |
| `Manifests.ValidateManifest` | src/snapshot/import.rs:156-212 | accepts if and only if version, epoch size and chain match and the entries are well-formed, consecutive and based where the manifest says |
| `Manifests.BuildManifest` | src/snapshot/export.rs:32-47 | with blocks arriving between its two reads: the range as first read, and one entry per row, ascending, restating it; fails only on a row that does not decode |
| `Manifests.ManifestAcceptedExactly` | src/snapshot/import.rs:156-212 | whatever happened between the two reads, the manifest is accepted if and only if it has no epochs or its base is still the lowest cached height |
| `Manifests.ManifestWhileAppending` | src/snapshot/export.rs:32-47 | a manifest made while blocks are appended is accepted |
| `Manifests.PublishedManifestAccepted` | src/snapshot/import.rs:156-212 | the manifest of every published state passes the importer's vetting |
| `HashWorkers.PoolResult` | src/snapshot/import.rs:674-736 | under every interleaving of any number of workers, a successful pool holds exactly one entry for each requested height, none outside, each the node's answer |
| `HashWorkers.PoolSucceedsExactly` | src/snapshot/import.rs:674-736 | under every interleaving in which all workers stop and none is lost, the pool succeeds if and only if the node answers every batch in full |
| `HashWorkers.BatchesAreReceivedOnce` | src/snapshot/import.rs:674-736 | under every interleaving, no batch's reply is received twice |
| `HashWorkers.RunsAreShort` | src/snapshot/import.rs:674-736 | no schedule is longer than three steps a batch left and what each worker still has to do, two steps each from the start |
| `Import.PoolIsLookup` | src/snapshot/import.rs:674-736 | a successful pool's result is the range lookup the verifier uses |
| `Import.PoolRefinesLookup` | src/snapshot/import.rs:674-736 | the pool succeeds if and only if that lookup does, and with the same hashes |
| `Import.CheckRecords` | src/snapshot/import.rs:291-304 | passes if and only if every record decodes at its height and joins the one before in hash and in tree sizes; returns the hashes |
| `Import.CarriedOneMore` | src/snapshot/import.rs:380-445 | what a block adds to each tree, transaction by transaction: its outputs or actions in that pool |
| `Import.VerifyAnchor` | src/snapshot/import.rs:450-500 | passes if and only if every hash is the node's for its height and their digest is the manifest's anchor |
| `Import.VerifyEpoch` | src/snapshot/import.rs:246-305 | returns the records if and only if all four layers pass |
| `ImportRun.RunImport` | src/snapshot/import.rs:82-152 | the loop over the manifest computes the specified fold over its entries; a rejected manifest changes nothing |
| `ImportRun.ImportOne` | src/snapshot/import.rs:94-143 | one epoch is skipped, ends the import, fails leaving the cache as it was, or lands whole: the specified turn |
| `ImportRun.VerdictByHeight` | src/snapshot/import.rs:94-121 | an entry is skipped, a gap, or the end of the import, if and only if the heights of the cache, the entry and the node say so |
| `ImportRun.CommitLands` | src/snapshot/import.rs:123-136 | a landed epoch adds exactly its blocks from the next height to its end, anchored to the node, joined to each other and to the old tip |
| `ImportTheorems.CommitIsBacked` | src/snapshot/import.rs:123-135 | a commit lands what the peer's body has from the next height on, and only of a body that matches the manifest in length, content digest, chain, bounds, count and anchor |
| `ImportTheorems.ImportIsAnchored` | src/snapshot/import.rs:82-345 | however an import ends: still one chain, nothing held before has changed, and every block gained carries the node's hash for its height and joins the one below, across epochs and the old tip |
| `ImportTheorems.ImportIsBacked` | src/snapshot/import.rs:82-305 | however an import ends, every block it added is in such a body of one of its entries, and stored as that body has it |
| `ImportTheorems.ImportedHashIsTheNodes` | src/snapshot/import.rs:450-500 | the node gave, in display order, the hash of every block an import added |
| `ImportTheorems.ImportTelescopes` | src/snapshot/import.rs:380-445 | each pool's tree grows over the imported range by exactly the outputs or actions carried in it |
| `ImportTheorems.ImportResumes` | src/snapshot/import.rs:82-152 | cut off after any number of epochs and run again, an import ends in the same blocks, base and result as uninterrupted |
| `ImportTheorems.EmptyCacheHasNoGap` | src/snapshot/import.rs:92-212 | an empty cache and an accepted manifest never meet the gap error |
| `RoundTrip.ExportImportRoundTrip` | src/snapshot/import.rs:82-152 | export followed by import into an empty cache succeeds if and only if every body fits the importer's limit, and then reproduces the publisher's rows from its base to the end of the last published epoch, and the base |
| `RoundTrip.OversizeExample` | src/snapshot/import.rs:215-240 | a published, linked cache of two blocks whose manifest is accepted, and from which every importer with a node past the epoch takes nothing, whatever node and peer answer |
| `RoundTrip.StaleBaseExample` | src/snapshot/export.rs:32-47 | a range read off the empty cache and rows read once two blocks are cached and digested make a manifest that is refused |
| `Filter.DroppingIsRemoval` | src/filter.rs:18-55 | dropping transparent resolves exactly as the ordinary resolver on the list without it |
| `Filter.FilterBlockToPools` | src/filter.rs:83-115 | pruning in place and then retaining computes the filtered block |
| `Filter.FilterTwice` | src/filter.rs:83-130 | filtering by one set of pools and then another is filtering once by their intersection |
| `Filter.SurvivorsExact` | src/filter.rs:83-115 | the surviving transactions are exactly those with something left, in order: each of them has, and none that has is missing |
| `Filter.TransformPreserves` | src/filter.rs:83-156 | every transform keeps height, hashes, time and header, and the order, index, txid and fee of what survives |
| `Filter.TransformExactly` | src/filter.rs:18-156 | a client receives exactly the transactions with something in a pool it asked for, in order, each with exactly that pool's parts, or only their nullifiers; the rest of the block is as it was, but for the tree sizes of a block reduced to nullifiers |
| `Framing.FrameBatch.Push` | src/service/framing.rs:62-91 | hands over everything held exactly when it reaches the frame size |
| `Framing.Coalesce` | src/service/framing.rs:30-60 | the stream comes out unchanged up to its first error, in frames that left as soon as they were full |
| `RangeServer.ServeAnswers` | src/service/blocks.rs:269-337 | the per-height loop serves blocks that answer the first heights in order, each seam holding; it ends without error if and only if all are served |
| `RangeServer.ServeCompletesExactly` | src/service/blocks.rs:212-337 | when every height resolves, the stream is error-free if and only if every two neighbours are hash-linked |
| `RangeServer.StreamRange` | src/service/blocks.rs:254-337 | the chunked stream ends and equals the per-height loop over the caches its reads saw |
| `RangeServer.GetBlockRange` | src/service/blocks.rs:97-337 | through framing, the client receives that loop's transformed blocks in order, then its error if any: at most one item a height, an error only last, the whole range when there is none, neighbours hash-linked |
| `RangeServer.ServedIsOneChain` | src/service/blocks.rs:186-337 | whatever the cache does between reads, consecutive delivered blocks are hash-linked, an error comes last, and without one the range is complete |
| `RangeServer.DeliveredAsHeld` | src/service/blocks.rs:306-330 | the i-th delivered block is the transform of the block the cache stored for the i-th height when it was read or, only where it stored none, of the node's at that height |
| `RangeServer.DeliveredUpToError` | src/service/blocks.rs:306-330 | an error is about the first height not delivered: the cache stores a row there that does not decode, or stores none and the node lacks it, or the block there does not link |
| `RangeServer.DeliveredHeight` | src/service/blocks.rs:269-337 | over well-keyed tables the i-th delivered block is the i-th requested height |
| `RangeServer.StaticCacheIsPerHeight` | src/service/blocks.rs:269-337 | over an unchanging cache the result does not depend on chunking or block sizes |
| `RangeServer.ReportIsSuspect` | src/service/blocks.rs:212-245 | over a whole stream: a height is reported if and only if the stream ended in a broken seam of which the cache served a side, and it is the lower height of that seam |
| `RangeServer.ReportIsRequested` | src/service/blocks.rs:212-245 | whatever the cache does between reads, a reported height lies within the requested range |
| `Mempool.MonitorState.RefreshOnce` | src/service/mempool_monitor.rs:150-192 | one refresh, failures included, ends in the specified state and snapshot |
| `Mempool.RefreshSucceedsExactly` | src/service/mempool_monitor.rs:150-192 | a refresh publishes if and only if the node describes itself and lists its mempool, and every new, fetched, unmined transaction can be read |
| `Mempool.NewTipStartsOver` | src/service/mempool_monitor.rs:154-159 | after a new tip nothing seen before it is carried across |
| `Mempool.RunsStayParsed` | src/service/mempool_monitor.rs:177-186 | in every run each entry is its own raw bytes parsed at its position |
| `Mempool.RefreshGrows` | src/service/mempool_monitor.rs:150-192 | failed or not: entries stay distinct and indexed by position; under one tip they only grow, and a transaction once seen is not added again |
| `Mempool.VisitAllAccounts` | src/service/mempool_monitor.rs:150-192 | a refresh that gets through has seen every listed transaction whose fetch succeeded, and added only listed, fetched and unmined ones |
| `Mempool.EntersExactly` | src/service/mempool_monitor.rs:150-192 | a transaction not seen before enters if and only if its first successful fetch shows it unmined |
| `Mempool.IntervalGrows` | src/service/mempool_monitor.rs:150-230 | over any refreshes under one tip entries only grow |
| `Mempool.StreamMempool` | src/service/mempool.rs:121-174 | the resume loop computes the specified stream over the snapshots it observes |
| `Mempool.StreamEndsExactly` | src/service/mempool.rs:121-174 | a stream ends at the first look it does not serve: as stale if and only if that snapshot is late or was never taken, for a new block if and only if it is neither and its tip is not the last one served |
| `Mempool.StreamSendsEachOnce` | src/service/mempool.rs:121-174 | over any refreshes and any looks at the channel, the stream has sent exactly the entries of the last snapshot it served, each once; while open that is the current one |
| `Mempool.StreamIsExactIff` | src/service/mempool.rs:121-174 | over any looks that leave a stream open, it has sent exactly what was shown after each of them, if and only if each look shows what the one before did and possibly more |
| `Mempool.RecurringTipLosesEntry` | src/service/mempool_monitor.rs:150-192 | a run of the monitor in which a tip hash comes back and an open stream never sends a published transaction |
| `Mempool.ExcludesOnlyUnambiguous` | src/service/mempool.rs:100-119 | a transaction is excluded if and only if some suffix matches it and no other |
| `Mempool.EndsWithExactly` | src/service/mempool.rs:100-119 | a suffix matches if and only if the identifier is something followed by it |
| `Darkside.RunsStaySound` | src/darkside/state.rs:89-276 | in every run of control calls, failed ones included, a block's three sizes are the start sizes plus the notes of all blocks up to it, its coinbase height is its position, and unless the last apply broke off every header names the hash below |
| `Darkside.ApplyKeepsValid` | src/darkside/state.rs:162-225 | an apply keeps sizes and heights right even when it fails, drains the staged blocks, and on success links every header and presents the target as far as there are blocks |
| `Darkside.ApplySucceedsExactly` | src/darkside/state.rs:162-228 | an apply succeeds if and only if the chain was reset, the target is not below its start, every staged block fits in turn, there is a block at all, and every staged transaction is for one of them and parses |
| `Darkside.StagedBlockIsApplied` | src/darkside/state.rs:159-276 | after a successful apply every staged block that no later one replaces stands at its height, with its header but for the previous hash and the turned byte, and its transactions followed by those mined into it |
| `Darkside.AddBlockExactly` | src/darkside/state.rs:232-276 | a block is added if and only if it parses and has a place; it takes that place, what is below stays and what is above goes |
| `Darkside.StagingExactly` | src/darkside/state.rs:111-157 | what staging accepts, and that it changes nothing but the staging area |
| `Darkside.CreatedAreConsecutive` | src/darkside/state.rs:128-143 | created blocks are staged at consecutive heights, in order |
| `Darkside.ReorgKeepsBelow` | src/darkside/state.rs:159-276 | applying what is staged from a height on leaves every block below it untouched, hashes included |
| `Darkside.PresentedIsOneChain` | src/darkside/state.rs:346-370 | after a successful apply the node serves exactly the heights from start to tip, each linked to the one below |
| `Darkside.RelinkLinks` | src/darkside/block.rs:53-61 | after the pass every header names the hash of the header before it |
| `Darkside.RelinkChangesLinksOnly` | src/darkside/block.rs:53-61 | the pass changes previous hashes only, and not the first block's |
| `Darkside.SetPrevHash` | src/darkside/block.rs:53-61 | the in-place pass computes the re-linked chain |
| `Darkside.MineAllPlaces` | src/darkside/state.rs:196-228 | mining puts each staged transaction in the block of its height, in order, and moves that header's byte once for each |
| `Darkside.MiningKeepsHeader` | src/darkside/state.rs:196-228 | 256 transactions mined into a lone block leave its header as it was |
| `Darkside.MiningChangesHeaderExactly` | src/darkside/state.rs:196-228 | a block's header changes by mining if and only if it took in a number of transactions that 256 does not divide |
| `Darkside.DarksideState.ApplyStaged` | src/darkside/state.rs:162-181 | the call ends in the specified state and error |
| `Darkside.DarksideState.AddBlockActive` | src/darkside/state.rs:232-276 | the block replaces what was at its height and above, or an error changes nothing |

## Left out

- Transaction parsing, txid computation and the conversion of full blocks (src/compact.rs, src/node/readstate.rs): they rest on libraries that are not part of this model. `split_block`, `shielded_counts`, `coinbase_height_from_raw`, `synthetic_block` and `compact_tx_from_raw` are parameters.
- HTTP, gRPC, retries and node transports (src/node/, src/snapshot/serve.rs, `HttpEpochSource`, src/darkside/service.rs, src/darkside/node.rs), configuration, wiring, TLS and metrics.
- Durability and multi-version reads of the database; SHA-256 and protobuf internals.
- A truncation between the last range check and the row write of one maintenance unit (src/snapshot/export.rs:80-87): the two are separate transactions, and only appends interleave there in the model.
- Heights at and above the saturating epoch, and overflow of 64-bit heights.
- `validate_block_range`, `validate_pool_types`, `check_ingest_floor` and the other request checks, each settled by its own body. That range requests are for heights above zero is a hypothesis where it is used.
- The clock behind mempool staleness: whether a snapshot has grown stale by the time it is looked at is an input of each observation.
- `GetMempoolTx` beyond its exclusion rule, and both mempool calls in darkside mode without the monitor.
- Darkside state that no apply reads: incoming transactions, UTXOs, address transactions, tree states, subtree roots.
- BlockCache.ReadChunk: walks the range through a table value rather than a database cursor, so what an iterator costs is not captured.
- Import.FetchBlockHashes: asks height by height; `Import.PoolRefinesLookup` says that the concurrent pool succeeds exactly when it does and with the same hashes, unless a worker panics. Which error a failing pool reports is not modelled.
- Mempool.StreamSendsEachOnce: assumes that a node never reports an empty tip hash and that a replaced tip hash does not come back; `Mempool.StreamIsExactIff` says when the stream is exact otherwise.
- Mempool.RefreshSucceedsExactly: assumes that whether a raw transaction parses does not depend on its index, which the parser only copies.
- Darkside.RunsStaySound: sizes wrap modulo 2^32; a debug build would stop instead.
