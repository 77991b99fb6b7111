# Verified models of NeoTavern's durable state

NeoTavern's kernel owns all durable state of the application. This project models the parts of it
whose correctness depends on many functions working together, and proves what they promise:

- **Generation.** A generation run is a database row with an append-only event log, changed only by
  compare-and-swap transactions. An executor drives it inline on the writer thread and serves queued
  commands between the provider's deltas; the process may die between any two transactions.
  `GenerationModel` states every transaction as a step of a state machine, `GenerationProofs` and
  `GenerationRuns` prove what all histories of steps keep, `GenerationKernel` and
  `GenerationExecutor` are the code over a database object, proved to take only such steps,
  `GenerationTheorems` says what every execution comes to, and `GenerationLateOutput` what becomes of the
  deltas of an adapter that does not stop when told to.
- **Restore.** Candidate activation next to the data root, as single file operations under any
  schedule of kills, including kills inside the recovery (`Restore`).
- **Export, import and backup.** The NDJSON writer, reader and parser (`Ndjson`), import semantics
  (`Transfer`, `PortableImport`), containers and the round trip (`Portable`, `PortableExport`), and
  backup containers (`Backup`, `BackupStore`, `BackupRestore`).
- **Smaller cores.** Keyset pagination (`Paging`, `EventPaging`), the writer loop (`Writer`), managed
  keys and the asset store (`Paths`, `Assets`), schema migrations (`Migrations`), the client's line
  framing (`Framing`), the plugin runtime's backpressure outbox (`Outbox`) and the built-in fake
  provider (`Fake`).

Code that works by changing things step by step is a class or a loop proved against a specification
function; the properties are lemmas about the specification. A kill is modelled by `fuel`, the number
of steps the process has left; time, ids, hashes, JSON and base64 (section 5 of RFC 4648) are integers,
fresh numbers (for UUIDs, section 5.7 of RFC 9562), injective wrappers, sound codecs and a bijection.

Where the code and its comments disagree, the code is modelled:

- The previous data root is said to be kept until the first successful open after an activation; it is
  in fact kept until a newer one replaces it (crates/storage/src/restore.rs:155-159, 196-213).
- `fail-at` is said to clamp against the final step count regardless of order; it clamps against the
  count of the moment first (crates/built-in-providers/src/fake.rs:93-99; `Fake.OrderMatters`).
- The filter of a character's chats does not bind the cursor (crates/runtime-kernel/src/product.rs:476-490;
  `Paging.FollowFiltered`).
- Late deltas are said never to be committed; after a stop for a shutdown or an oversized delta, one from
  an adapter that goes on still is (crates/runtime-kernel/src/generation.rs:1200-1201;
  `GenerationLateOutput.LateDeltaCommits`).
- Cancelling is not final: the first status transition after a cancel overwrites `cancelling`
  (crates/runtime-kernel/src/generation.rs:764-795; `GenerationTheorems.StatusIsNotMonotone`).

## Model

| member | source | states |
|---|---|---|
| `GenerationLog.DeltaTextsOfRender` | crates/runtime-kernel/src/generation.rs:290-327 | Reading the delta payloads of a log gives exactly the deltas it was written from. |
| `GenerationLog.DeltaPosition` | crates/runtime-kernel/src/generation.rs:819-821 | Delta i sits at sequence i + i/4. |
| `GenerationLog.CheckpointPosition` | crates/runtime-kernel/src/generation.rs:819-834 | Checkpoint k sits at 5k - 1, names its own sequence and counts the bytes of the first 4k deltas. |
| `Text.ByteLenConcat` | crates/runtime-kernel/src/generation.rs:822 | The byte counter summed per delta is the encoded length of the whole text. |
| `GenerationProofs.StepKeepsInv` | crates/runtime-kernel/src/generation.rs:380-1324 | Every transaction of every operation keeps the invariant of logs, messages, retries, statuses and references. |
| `GenerationRuns.HistoryIsSafe` | crates/runtime-kernel/src/generation.rs:380-1324 | In every history of steps and crashes, from every point on: revisions only grow and identify a row's content, terminal statuses are final, cancel flags stay, committed deltas survive unless discarded, linked messages never change. |
| `GenerationRuns.EveryReachableState` | crates/runtime-kernel/src/generation.rs:380-1324 | The invariant holds in every state reachable from a database before its first run. |
| `GenerationRuns.LogIsExact` | crates/runtime-kernel/src/generation.rs:811-1096 | An undiscarded run's rows are exactly sequences 0 to the recorded last one; a terminal event exists iff the status is completed, failed or cancelled, and is the last row; the counter is the byte length of the text. |
| `GenerationRuns.LogPositions` | crates/runtime-kernel/src/generation.rs:811-879 | After n deltas the last sequence is n + n/4 - 1 (one more when ended), with each delta and checkpoint in its place, in every reachable state. |
| `GenerationRuns.DeltasAreCommitted` | crates/runtime-kernel/src/generation.rs:811-879 | A run's log holds exactly the deltas its history committed, in order. |
| `GenerationRuns.OneMessagePerRun` | crates/runtime-kernel/src/generation.rs:488-554 | A run owns a message iff its row links it; its text is the concatenated deltas, and a completed run's last event carries that very message. |
| `GenerationRuns.RetryChains` | crates/runtime-kernel/src/generation.rs:633-706 | The n-th source of a run is attempt - n with the same chat and snapshot and exists exactly while that is positive, so chains are acyclic. |
| `GenerationRuns.RecoveryInterrupts` | crates/runtime-kernel/src/generation.rs:1305-1324 | Recovery interrupts exactly the unfinished runs whose lease is cleared or expired and leaves every log as it was. |
| `GenerationRuns.NewSequenceIsLast` | crates/runtime-kernel/src/generation.rs:914-921 | A new message's sequence is above all others of its chat. |
| `GenerationRuns.KeepSaysAll` | crates/runtime-kernel/src/generation.rs:488-554 | Keeping an interrupted run writes its only message, with all its deltas, after every other message of the chat. |
| `GenerationRuns.RetryContinues` | crates/runtime-kernel/src/generation.rs:633-706 | Retrying starts attempt + 1 of the same chat and snapshot, linked to its source, with an empty log. |
| `GenerationRuns.CrashThenRecover` | crates/runtime-kernel/src/generation.rs:1305-1324 | A crash after any step, then recovery past the lease: the run is interrupted and holds a prefix of the adapter's output, nothing lost. |
| `GenerationOps.KeepDiscardSettle` | crates/runtime-kernel/src/generation.rs:488-607 | Any list of keeps and discards leaves, up to revisions, what its leading keep and one discard leave. |
| `GenerationOps.ServeDriven` | crates/runtime-kernel/src/generation.rs:1193-1213 | No batch of drained commands touches the log of the running run; a cancel marks its row once, and only its character's deletion removes it. |
| `GenerationKernel.Kernel.QueryNextSequence` | crates/runtime-kernel/src/generation.rs:914-921 | The scan computes one above the largest sequence of the chat, or 0. |
| `GenerationKernel.Kernel.ConcatDeltaText` | crates/runtime-kernel/src/generation.rs:290-327 | The loop over the event rows returns the concatenated deltas of the run. |
| `GenerationKernel.Kernel.StreamStart` | crates/runtime-kernel/src/generation.rs:633-706 | A start inserts a queued run under a fresh id, or reports the missing chat and changes nothing. |
| `GenerationKernel.Kernel.StreamRetry` | crates/runtime-kernel/src/generation.rs:633-706 | A retry inserts the next attempt of a recoverable run, or reports why not and changes nothing. |
| `GenerationKernel.Kernel.GenerationCancel` | crates/runtime-kernel/src/generation.rs:380-419 | The answer and the committed step are the specified ones in every status; the swap wins at once. |
| `GenerationKernel.Kernel.GenerationKeep` | crates/runtime-kernel/src/generation.rs:488-554 | Links and writes the message in one step, is idempotent, and refuses runs without output. |
| `GenerationKernel.Kernel.GenerationDiscard` | crates/runtime-kernel/src/generation.rs:565-607 | Drops the run's events and zeroes its counter in one step. |
| `GenerationKernel.Kernel.CharactersDelete` | crates/runtime-kernel/src/product.rs:443-456 | A character's chats, their runs, events and messages go together, and nothing else. |
| `GenerationKernel.Kernel.RecoverRuns` | crates/runtime-kernel/src/generation.rs:1311-1324 | One recovery step; once the clock is past the longest lease every run is terminal. |
| `GenerationKernel.Kernel.CasStatus` | crates/runtime-kernel/src/generation.rs:756-803 | A transition commits, unless a cancel won the race, in which case the run is committed cancelled. |
| `GenerationKernel.Kernel.CommitDelta` | crates/runtime-kernel/src/generation.rs:811-879 | Row, delta and checkpoint commit together and are announced, or nothing does, when the row moved on or the delta is over the wire limit. |
| `GenerationKernel.Kernel.TerminalCompleted` | crates/runtime-kernel/src/generation.rs:904-979 | Message, row and event commit together, cancelled instead after a race, nothing if the text is over the wire limit. |
| `GenerationKernel.Kernel.TerminalFailed` | crates/runtime-kernel/src/generation.rs:983-1040 | Failed with the given error and event, or cancelled after a race. |
| `GenerationKernel.Kernel.TerminalCancelled` | crates/runtime-kernel/src/generation.rs:1042-1096 | Cancelled with its event at the next sequence, even from a stale row. |
| `GenerationKernel.Kernel.CommitShutdownProgress` | crates/runtime-kernel/src/generation.rs:1098-1112 | Clears the lease iff the row has not moved since it was read. |
| `GenerationExecutor.Drain` | crates/runtime-kernel/src/lib.rs:493-544 | Serves every queued command in order, commits no delta, and reports whether one was a shutdown. |
| `GenerationExecutor.Emit` | crates/runtime-kernel/src/generation.rs:1193-1227 | What one delta comes to after the drain before it: committed, or stopped by shutdown, removal, cancel or size. |
| `GenerationExecutor.ExecuteStream` | crates/runtime-kernel/src/generation.rs:1128-1286 | For every adapter that stops when told to and every schedule of commands: exactly which deltas are committed, how the run ends, which notices are sent, and whether the lease is cleared. |
| `GenerationTheorems.LaunchedRunsAreFresh` | crates/runtime-kernel/src/generation.rs:633-706 | Starts and retries leave the run in the state the executor expects. |
| `GenerationTheorems.FlowIsDetermined` | crates/runtime-kernel/src/generation.rs:1193-1227 | Commands and output determine uniquely how many deltas are committed and why no more. |
| `GenerationTheorems.CancelStopsDeltas` | crates/runtime-kernel/src/generation.rs:1209-1213 | A cancel served by a drain allows no delta after it. |
| `GenerationTheorems.CancelIsHonoured` | crates/runtime-kernel/src/generation.rs:1209-1255 | A cancel at a delta boundary without shutdown or deletion ends the run cancelled with exactly the earlier deltas, for any adapter that reports a cancellation on stop. |
| `GenerationTheorems.CompletedDespiteCancel` | crates/runtime-kernel/src/generation.rs:1238-1255 | Exactly when a run completes although cancelled: its adapter reported success after a stop, or it emitted nothing after a cancel in the first drain. |
| `GenerationTheorems.CompletedMeansUncancelled` | crates/runtime-kernel/src/generation.rs:1238-1255 | A completed run with a delta was never asked to cancel while it ran, and holds the whole output. |
| `GenerationTheorems.StatusIsNotMonotone` | crates/runtime-kernel/src/generation.rs:1139-1162 | A legal history from cancelling back to preparing and on to completed; only the flag remembers. |
| `GenerationTheorems.ShutdownAndLease` | crates/runtime-kernel/src/generation.rs:1098-1112 | After a shutdown the run is recoverable at any time iff the last drain served no cancel for it. |
| `GenerationTheorems.ShutdownThenKeep` | crates/runtime-kernel/src/generation.rs:1098-1112 | Shutdown, crash, recovery and keep give one message with exactly the committed prefix of the output. |
| `GenerationTheorems.NoticesAreDurable` | crates/runtime-kernel/src/generation.rs:728-739 | Every notice names a sequence that is in the event table; the terminal one comes last. |
| `GenerationTheorems.PreviewIsWhole` | crates/runtime-kernel/src/generation.rs:332-343 | The truncation flag counts bytes and the preview characters: unflagged means whole, and exactly when a flagged preview is whole. |
| `GenerationTheorems.PreviewMayNotFit` | crates/runtime-kernel/src/generation.rs:332-343 | The preview can exceed the wire's UTF-16 limit, but never for characters of the basic plane. |
| `GenerationLateOutput.EmitAll` | crates/runtime-kernel/src/generation.rs:1193-1227 | For an adapter that emits whatever it is told: exactly the deltas that are committed and announced, under every schedule of commands, and what the bridge has come across. |
| `GenerationLateOutput.BridgeMeans` | crates/runtime-kernel/src/generation.rs:1193-1227 | What the calls leave, in closed form: which deltas, whether the run is gone or was asked to cancel, whether a shutdown was seen, and exactly which calls return an error. |
| `GenerationLateOutput.ExecuteAny` | crates/runtime-kernel/src/generation.rs:1128-1286 | For any adapter at all: which deltas are committed, how the run ends (an error wins over a shutdown, both over the adapter's report), which notices are sent, and exactly when the lease is cleared. |
| `GenerationLateOutput.NothingAfterCancel` | crates/runtime-kernel/src/generation.rs:1209-1213 | No delta is committed after a cancel, however long any adapter goes on. |
| `GenerationLateOutput.NothingAfterRemoval` | crates/runtime-kernel/src/generation.rs:1200-1208 | Nor after the deletion of the run's character. |
| `GenerationLateOutput.LateDeltaCommits` | crates/runtime-kernel/src/generation.rs:1193-1227 | Exactly when a delta after a stop is still committed: the stops were only for shutdowns and oversized deltas, and neither concerns this one. |
| `GenerationLateOutput.OversizeLeavesGap` | crates/runtime-kernel/src/generation.rs:1214-1224 | An oversized delta that an adapter goes on after leaves a gap in the committed output. |
| `GenerationLateOutput.PromptAdapterLeavesPrefix` | crates/runtime-kernel/src/generation.rs:1193-1227 | An adapter that stops when told to leaves exactly the prefix of its flow. |
| `Restore.ResolutionConverges` | crates/storage/src/restore.rs:144-169 | From every state an activation can be cut short in, one completed resolution makes the candidate the root and keeps an old root with a database as the newest previous one. |
| `Restore.MarkerServesAnyRoot` | crates/storage/src/restore.rs:174-193 | The marker's root is not checked: a resolution for another directory of the parent takes the candidate; the intended root gets it iff it is the one opened. |
| `Restore.Disk.Activate` | crates/storage/src/restore.rs:114-139 | Refuses an incomplete candidate untouched; killed anywhere, either nothing was recorded or the intent can be completed. An older intent is overwritten. |
| `Restore.Disk.Settle` | crates/storage/src/restore.rs:144-165 | Completes or drops a pending intent; killed anywhere, the activation is still completable. |
| `Restore.Disk.Prune` | crates/storage/src/restore.rs:196-213 | Removes all previous roots but the newest, which is whole at every moment. |
| `Restore.Disk.Resolve` | crates/storage/src/restore.rs:144-169 | A finished resolution leaves no intent and at most one previous root, and moves every activation on to its end. |
| `Restore.Disk.Open` | crates/storage/src/open.rs:270-297 | The lease, resolution and renewed lease of an open keep every phase of an activation and finish a pending one. |
| `Restore.Disk.BuildCandidate` | crates/storage/src/restore.rs:56-98 | A candidate is ready only if its building finished; nothing else is touched. |
| `Restore.ActivateAndReopen` | crates/storage/src/restore.rs:114-237 | For every schedule of kills over an activation and later opens, the first unkilled open leaves the candidate active iff its marker was written, else the untouched old root, and keeps the old data; an earlier activation still pending is replaced, or else finished. |
| `Ndjson.PrintParse` | crates/storage/src/export.rs:1124-1226 | Parsing what was printed gives the records back, for exactly the right declared count. |
| `Ndjson.PrintedBounds` | crates/storage/src/export.rs:1145-1185 | A printed section is within the reader's bounds iff its records are. |
| `Ndjson.LinesConcat` | crates/storage/src/export.rs:1189-1203 | The lines read from a file are the whole file. |
| `Ndjson.WriteNdjson` | crates/storage/src/export.rs:1124-1140 | The write loop produces the specified section text. |
| `Ndjson.NdjsonBounds` | crates/storage/src/export.rs:1145-1185 | The bounded reader accepts exactly the texts within the limits and counts their lines. |
| `Ndjson.ParseNdjson` | crates/storage/src/export.rs:1189-1230 | The parse loop returns the specified records, or the first bad line, or the wrong count. |
| `Transfer.KeptIsLargestClosed` | crates/storage/src/export.rs:637-664 | An import keeps exactly the largest reference-closed subset of its records. |
| `Transfer.ImportKeepsForeignKeys` | crates/storage/src/export.rs:669-755 | Reject and Replace preserve the foreign keys of the target. |
| `Transfer.ImportIsIdempotent` | crates/storage/src/export.rs:669-755 | A second import of the same records changes nothing, under the same policy or Reject. |
| `Transfer.PoliciesDiffer` | crates/storage/src/export.rs:669-755 | Reject keeps every existing row, Replace takes every incoming one, neither touches other rows. |
| `Transfer.RemapIsIsomorphicCopy` | crates/storage/src/export.rs:756-835 | Remap leaves all rows alone and adds a copy under fresh ids whose references follow the copies. |
| `Transfer.RemapKeepsForeignKeys` | crates/storage/src/export.rs:756-835 | Remap preserves the foreign keys of the target. |
| `Portable.VerifyExport` | crates/storage/src/export.rs:384-570 | Accepts exactly the containers whose manifest is within its bound and whose inventory, paths, files and sections agree. |
| `Portable.CheckInventory` | crates/storage/src/export.rs:468-550 | Accepts exactly inventories of valid paths without repeats that match every file, with no stray file. |
| `Portable.ReadContainer` | crates/storage/src/export.rs:585-635 | Verifies, parses and screens a container as specified, before anything is written. |
| `PortableImport.SplitOrphans` | crates/storage/src/export.rs:637-664 | The two loops keep what the specification keeps and report the rest in order. |
| `PortableImport.ImportSection` | crates/storage/src/export.rs:669-755 | The probe loop merges a section under its policy and counts what it did. |
| `PortableImport.RemapSection` | crates/storage/src/export.rs:756-835 | The insert loop adds every record under its fresh id. |
| `PortableImport.Database.ApplyImport` | crates/storage/src/export.rs:585-846 | All or nothing: an error leaves every table as it was; otherwise the tables are the specified ones, counts add up to all records, and inserted is the growth of the tables. |
| `PortableImport.ImportedSize` | crates/storage/src/export.rs:669-755 | Tables grow by exactly the kept records that were missing. |
| `PortableImport.SecondImportIsIdle` | crates/storage/src/export.rs:669-755 | A second run inserts nothing and changes nothing. |
| `PortableExport.Source.CreateExport` | crates/storage/src/export.rs:272-373 | Succeeds iff the destination is absent or empty, every JSON column parses and every referenced avatar asset is registered under a valid key and intact; then writes exactly the tables' records, those assets and the manifest of both. |
| `PortableExport.Source.CopyAssets` | crates/storage/src/export.rs:298-309 | Copies and lists every referenced asset, or names the first that is missing or damaged. |
| `PortableExport.ReadTable` | crates/storage/src/export.rs:850-1046 | Lists a table in id order, each row once. |
| `PortableExport.ExportVerifies` | crates/storage/src/export.rs:384-570 | An exported container verifies iff its records fit the line bounds, its manifest the parse bound, and its assets' paths the length of a key; the writer checks none of these. |
| `PortableExport.LongKeyNeverVerifies` | crates/storage/src/export.rs:1053-1115 | One avatar under a valid key of 506 bytes: the export succeeds and never verifies. |
| `PortableExport.ManyAvatarsNeverVerify` | crates/storage/src/export.rs:331-392 | 16384 avatars: the export succeeds, its manifest is over 1 MiB and it never verifies. |
| `PortableExport.ExportScreens` | crates/storage/src/export.rs:611-635 | An exported database passes the import checks iff no message sequence is negative. |
| `PortableExport.RoundTrip` | crates/storage/src/export.rs:272-846 | Export then import into an empty database reproduces all five tables with no orphans, exactly when the export verifies and no message sequence is negative, with the conditions for verifying spelled out. |
| `Backup.BuiltVerifies` | crates/storage/src/backup.rs:233-436 | A built container verifies iff total size, inventory length and asset path lengths keep the limits that only verification checks. |
| `Backup.AssetPathValid` | crates/storage/src/backup.rs:371-381 | An asset's path inside a container is a valid key iff it stays within 512 bytes. |
| `BackupStore.Backups.List` | crates/storage/src/backup.rs:445-474 | Lists exactly the published containers with listable ids, drops leftovers older than a day, and fails iff one has an oversized inventory or a directory looks like a container and is none. |
| `BackupStore.Backups.Build` | crates/storage/src/backup.rs:521-640 | Fills a provisional directory with the snapshot, the pinned assets, the inventory and last the manifest; fails iff an asset is missing or damaged. |
| `BackupStore.Backups.Create` | crates/storage/src/backup.rs:169-226 | Killed anywhere, published containers are unchanged, complete, and at most 16 of them listed; exactly when it succeeds, what it publishes and reports, whether a listing will find it, and when it makes every later listing and creation fail. |
| `BackupStore.ListedUnderItsId` | crates/storage/src/backup.rs:445-474 | A published container is listed under its id iff the id has no slash and no provisional marker; one with the marker is taken for a leftover. |
| `BackupStore.NestedIdCastsShadow` | crates/storage/src/backup.rs:445-474 | An id such as `x.neotavern-backup/y` makes a directory that a listing takes for the container `x`. |
| `BackupRestore.VerifyBackup` | crates/storage/src/backup.rs:233-436 | Accepts exactly the containers that satisfy every check, and reports their size. |
| `BackupRestore.CopyContainer` | crates/storage/src/backup.rs:809-864 | Copies exactly the inventoried files. |
| `BackupRestore.StagedIsSnapshot` | crates/storage/src/backup.rs:521-640 | What a created container stages is the snapshot database and the pinned assets, nothing else. |
| `BackupRestore.RestoreBackup` | crates/storage/src/backup.rs:495-513 | A finished restore leaves the container's files as the root, its database migrated if older, and keeps the old database; an unfinished one leaves the old root or a completable intent. |
| `Paging.List` | crates/runtime-kernel/src/product.rs:310-353 | A page is the first rows after the cursor, and carries a next cursor iff rows remain. |
| `Paging.FollowAll` | crates/runtime-kernel/src/product.rs:542-591 | Following cursors with any page sizes returns every row once, in order, and ends. |
| `Paging.CursorContinues` | crates/runtime-kernel/src/product.rs:325-331 | What lies ahead of a page's last row is exactly the rest of the listing. |
| `Paging.CursorRoundTrip` | crates/runtime-kernel/src/product.rs:49-94 | A cursor decodes to its parts iff both are non-empty and the first has no bar. |
| `Paging.FilteredPageIsRight` | crates/runtime-kernel/src/product.rs:476-490 | The clause of one filtered page selects the right rows iff no other character's chat ties with the cursor's timestamp before it. |
| `Paging.FollowFiltered` | crates/runtime-kernel/src/product.rs:462-513 | Following the cursors of a filtered listing with any page sizes shows exactly the character's chats in order iff no page but the last ends at a chat that another character's chat ties with. |
| `Paging.NoSharedTimestamps` | crates/runtime-kernel/src/product.rs:476-490 | So it is right whenever no other character's chat shares a timestamp with one of the character's. |
| `Paging.FilteredPageGoesWrong` | crates/runtime-kernel/src/product.rs:476-490 | A concrete row of another character that a filtered page admits. |
| `EventPaging.ReadPage` | crates/runtime-kernel/src/generation.rs:432-483 | For any position and any run: no such run, or the next rows of its log (none once discarded) and exactly whether more exist. |
| `EventPaging.LogGrows` | crates/runtime-kernel/src/generation.rs:811-1096 | Whatever happens between two reads, an undiscarded run's log only grows at its end. |
| `EventPaging.FollowEvents` | crates/runtime-kernel/src/generation.rs:432-483 | Paging while the executor appends returns the log from its start, each event once, and says so at its end. |
| `Writer.WriterThread.Drain` | crates/runtime-kernel/src/lib.rs:493-544 | Receives all that has arrived, serves it in order, queues streams, and reports a shutdown. |
| `Writer.WriterThread.RunStream` | crates/runtime-kernel/src/lib.rs:590-641 | Answers a stream once, runs its executor alone, and stops it at the first shutdown it sees. |
| `Writer.WriterThread.Run` | crates/runtime-kernel/src/lib.rs:549-657 | At the end every received command is accounted for; only streams waiting at a shutdown are unanswered. |
| `Writer.EveryCommandAnsweredOnce` | crates/runtime-kernel/src/lib.rs:493-657 | Replies go out once each and in arrival order, separately for streams and other commands. |
| `Writer.SettingsAreFixedAtLaunch` | crates/runtime-kernel/src/lib.rs:606-616 | A run's provider settings depend only on commands received before its launch. |
| `Paths.JoinedKeyComesBack` | crates/storage/src/paths.rs:67-171 | A key joins iff it is valid, strictly below the root and without a way up, and the walked path gives the same key back. |
| `Paths.WalkedPathComesBack` | crates/storage/src/assets.rs:474-484 | A walked path whose key is valid joins to that same path. |
| `Paths.NestedKey` | crates/storage/src/paths.rs:67-121 | A valid directory name in front of a valid key keeps it valid iff it is short enough. |
| `Assets.PublishOverRegisteredKey` | crates/storage/src/assets.rs:112-138 | Every registered asset survives a publish iff its key is not already registered. |
| `Assets.AssetStore.Publish` | crates/storage/src/assets.rs:86-149 | For any key: exactly when it succeeds and what it leaves; every registered asset has its file afterwards iff the key was not registered, and whenever it is killed under a new key. |
| `Assets.AssetStore.Delete` | crates/storage/src/assets.rs:242-270 | The row goes before the file, so no kill leaves a registered asset without one. |
| `Assets.AssetStore.GcOrphans` | crates/storage/src/assets.rs:214-233 | Removes only unregistered, walkable files past the grace period, all of them when it finishes, and reports exactly the registered keys without a file. |
| `Assets.AssetStore.Walk` | crates/storage/src/assets.rs:427-471 | The recursive walk collects exactly the doomed files below a directory. |
| `Migrations.Connection.VerifyLedger` | crates/storage/src/migrations.rs:160-186 | Passes iff every ledger row is declared with the declared checksum; otherwise names one that is not. |
| `Migrations.Connection.Migrate` | crates/storage/src/migrations.rs:205-249 | For lists of one-transaction migrations, wherever it stops the database is at a declared revision with its exact schema and ledger: the target, just before the first risky migration, or where it was killed. A version that is not the expected one is refused unchanged. |
| `Migrations.Connection.FreshInstall` | crates/storage/src/migrations.rs:114-152 | The whole schema, all ledger rows and the version, or nothing. |
| `Migrations.Connection.Open` | crates/storage/src/open.rs:299-351 | A new database is installed; foreign, unsupported, too new, too old and tampered ones are refused unchanged; others are migrated. |
| `Migrations.OpenUntilDone` | crates/storage/src/migrations.rs:205-249 | From any committed revision, any kills and re-opens end at the current version with ledger ids 1..N and declared checksums. |
| `Migrations.FreshEqualsMigrated` | crates/storage/src/migrations.rs:114-249 | A migrated database and a fresh install end in the same state. |
| `Migrations.NonTransactionalGap` | crates/storage/src/migrations.rs:266-285 | A migration outside a transaction that was cut between its commits can be applied again iff it creates nothing. |
| `Framing.Stream` | packages/client-sdk/src/http.ts:134-151 | The events depend only on the text the chunks add up to: its trimmed non-empty lines up to the first invalid one. |
| `Framing.SplitAppend` | packages/client-sdk/src/http.ts:139-142 | Keeping the last partial line and cutting on gives the lines of the whole text. |
| `Framing.SentIsReceived` | packages/client-sdk/src/http.ts:134-151 | Events written one per line are received in full and in order. |
| `Outbox.ControlOutbox.Push` | apps/plugin-runtime/src/runtime-main.ts:72-79 | Accepts in order while there is room, otherwise counts a drop. |
| `Outbox.ControlOutbox.Pump` | apps/plugin-runtime/src/runtime-main.ts:89-111 | Writes pending frames until the stream is full or the queue is empty, and tells waiters only then. |
| `Outbox.ControlOutbox.OnDrain` | apps/plugin-runtime/src/runtime-main.ts:89-111 | A drain event drops the written frame and goes on. |
| `Outbox.WrittenIsPrefix` | apps/plugin-runtime/src/runtime-main.ts:58-118 | What was written is a prefix of what was accepted and lacks only pending frames. |
| `Outbox.AnyInterleaving` | apps/plugin-runtime/src/runtime-main.ts:58-118 | Over any interleaving: each accepted frame once and in push order, accepted plus dropped is pushed, nobody waits on an empty queue. |
| `Fake.ParseConfig` | crates/built-in-providers/src/fake.rs:74-104 | Accepts exactly the model strings whose segments are blank or assign a number to one of the four keys, and gives parameters in range with the failing step within the steps. |
| `Fake.FailAtDependsOnOrder` | crates/built-in-providers/src/fake.rs:93-101 | For every accepted model string: exactly when its last failing step comes out clamped against the final step count. |
| `Fake.OrderMatters` | crates/built-in-providers/src/fake.rs:93-101 | Two assignments whose order changes the failing step. |
| `Fake.Generate` | crates/built-in-providers/src/fake.rs:172-234 | Emits a prefix of a deterministic output for a well-formed model string, and stops only for the configured failure, a stop, a cancel or the deadline, at a step or in a sleep; a malformed one is an invalid request. |
| `Fake.FakeIsNeverRefused` | crates/built-in-providers/src/fake.rs:126-144 | However a call ends (done, configured failure, stop, cancel, deadline), its output never meets a wire limit, so the run always ends, vanishes or is shut down; one it completes with a delta was never asked to cancel. |

## Left out

- SQLite, SHA-256, JSON, base64 and UUID generation: maps, injective wrappers, sound codecs, a bijection and fresh numbers stand for them.
- Clock formats: timestamps are integers and previous-root names come from a clock that never repeats a reading.
- Input and output failures that are not a dying process, bit rot, and operating-system locks.
- GenerationKernel.Kernel.GenerationKeep: the reply's run, whose preview may be over the wire limit (`GenerationTheorems.PreviewMayNotFit`), is not part of the answer.
- GenerationKernel.Kernel.CharactersDelete: the answer for a character that does not exist; the character table is not modelled.
- GenerationKernel.Kernel.GenerationCancel: the re-read loops of the unary operations are proved to win their first swap and are not repeated in the model; the same holds for keep and discard.
- GenerationKernel.Kernel.StreamStart: the validity of a request's fields is the wire layer's matter and is not modelled; the snapshot is opaque text.
- Wire validation other than the length limits of deltas, messages and previews.
- Restore.Disk.Activate: the temporary file of the atomic marker write is not represented; a directory is a flat map of paths.
- Restore.Disk.Open: what an open does to the database after the resolution is the matter of the migrations.
- BackupRestore.RestoreBackup: what a migration makes of an older database is a given function, and the integrity checks on the opened candidate are not modelled.
- BackupStore.Backups.Create: the snapshot is given as consistent and checked, the inventory keeps the order in which the snapshot lists its assets instead of sorting it, and of ids with a slash whose first component carries the provisional marker the removal with that component is not modelled.
- PortableExport.Source.CreateExport: the inventory is not sorted by path, which does not change the length of the manifest.
- Portable.VerifyExport: symbolic links and empty directories, which it also refuses; paths outside the layout are one kind.
- PortableImport.Database.ApplyImport: fresh ids for a remapping import are an input that must be unused.
- Paging.List: timestamps and ids are numbers, and the decimal text of a message cursor's sequence is not modelled.
- Assets.AssetStore.Publish: keys that are directories of one another are not modelled, nor file systems that do not tell upper from lower case, where a key that differs from a registered one only in case destroys its file too.
- Writer.WriterThread.RunStream: a launch either succeeds or is refused; what the executor does is the matter of the generation modules.
- Outbox.ControlOutbox.Pump: write errors of the stream are not modelled.
- Fake.Generate: the hashed text of a step is a given function, and so is the number parser.
- The legacy importer, recovery mode, snapshots, the supervisor, the rest of the plugin runtime, the user interface and all server assembly.
