# Agnes: verified models of the stateful core

This project models the parts of Agnes whose guarantees hold only over whole runs, under faults,
restarts or concurrent parties, and proves those guarantees.

- **Resumable parallel download** (`Storage`, `Transfer`, `ChunkRanges`, `ChunkWorker`, `SingleStream`,
  `PullSystem`, `PullEndings`). The disk is a map from paths to bytes; the server and the network are an adversary that
  picks every status and every mid-stream failure. One worker and the single-stream path are each given as a
  small-step machine and as the retry loop of the source; the loop is proved to be a run of its machine.
  `PullSystem` interleaves any number of processes, each with its worker threads, each killed at any instant.
- **Server-sent events** (`EventStream`): the buffering reader, after section 9.2.6 of the WHATWG HTML standard.
- **Database migration** (`MigrationJob`, `TableCopy`, `Redaction`): the job racing the cancel endpoint at the
  granularity of single file operations, the batched copy and its verification, and the audit-log redaction.
- **Overlay tokens** (`OverlayFile`, `OverlayVault`): the key=value file and the vault replicated to many processes.
- **Layered configuration** (`LayeredConfig`, `ConfigCache`): deep merge, lookups, environment references, cache.
- **Snapshot expiry** (`SnapshotSweep`): the unlocked scan and the locked second look, as a machine whose runs are
  all interleavings with other processes, and as the program, proved to be a run of it.
- **Text transformers** (`ShellUnescape`, `DiffReader`, with `Text`): the unescaper and the diff reader.

Nondeterministic choices (`*`, `:|`) in the methods stand for the adversary: what is proved holds for every choice.
Assumed throughout: the source is fixed during a pull, the advertised size is right, a 206 carries the bytes asked
for, a stream that ends without an exception is complete, answers are 200, 206, 416 or errors, unlinking succeeds,
PIDs are not reused, job-file and revert writes succeed, the content digest has no collisions, and both databases
of a copy sort their keys alike (with different collations the sampled rows need not be rows of the same keys).

## Where the code does not keep what its text promises

- The sweep over the vault is documented to repair any lost change event. It re-reads only keys that the vault still
  lists, so a lost deletion stays unless the process finishes a removal of its own (`OverlayVault.LostDeletionStays`,
  reached in `OverlayVault.DeletionCanBeLost`).
- A process that handles the change event for a key can still end up stale: a save of its own that was already in the
  vault reaches its environment afterwards (`OverlayVault.WriterCanBeStale`). Exactly when a process agrees with the
  vault once writes have stopped: `OverlayVault.AgreesAfterReread`.
- A token saved to the overlay file is documented to survive restarts. It does exactly when it is clean
  (`OverlayFile.RoundTrip`): edge whitespace is lost, and a token with a line break is cut there and can set another
  variable (`OverlayFile.BreakSetsAnotherVariable`). A save can even succeed and leave a file that the next boot raises
  on (`OverlayFile.SaveCanStopBoot`; exactly when: `OverlayFile.SaveKeepsBooting`, `OverlayFile.SavedFileBoots`).
- The description clean-up is documented as idempotent. It is so exactly on text that buries no escape
  (`ShellUnescape.IdempotentWhen`, `ShellUnescape.NotIdempotent`).
- A copy followed by a verification without findings need not have copied every key: rows are skipped on any UNIQUE
  conflict, not only on the key (`TableCopy.VerifyMissesForeignKey`; exact condition in `TableCopy.VerifiedCopy`).
- The single-stream download cleans up after every exception it handles; an interrupt passes it by and leaves the
  tmp file (`SingleStream.InterruptLeavesTmp`, `SingleStream.OnlyInterruptLeavesTmp`). What a later call makes of
  such a file if it is stale: `SingleStream.StaleTmpMatters`.
- The diff reader takes an added line that begins with "++ " for a file header, and `splitlines` breaks lines at CR,
  form feed, U+2028 and others: an added text that holds one is not returned as it is, and a context line that holds
  one can bring forth an insertion (`DiffReader.HeaderLikeInsertionIsLost`, `DiffReader.CarriageReturnIsLost`,
  `DiffReader.PhantomInsertion`; exact condition in `DiffReader.ReadsExactlyTheInsertions`).
- The event reader breaks lines at the same characters, while section 9.2.6 of the WHATWG HTML standard ends a line
  at CR and LF only: a payload that holds one of the others is cut (`EventStream.PayloadIsCut`; exact condition in
  `EventStream.DecodeEncoded`). The other two differences, an ignored bare `data` line and a dropped unterminated
  record, are in `EventStream.ReadEvents`.
- The snapshot sweep describes itself as tolerant and never raising over an expiry. It raises over a sidecar that
  vanishes during the scan or is no UTF-8, over an expiry that is no text, and over a sidecar that is unusable at the
  second look; `agnes pull` swallows this, `agnes snapshot prune --expired` does not (`SnapshotSweep.VanishedSidecarRaises`,
  `SnapshotSweep.TornSidecarRaises`; exactly when: `SnapshotSweep.SweepIsExact`, `SnapshotSweep.UndisturbedSweep`).
- A strict configuration load refuses an unreadable overlay only until a lenient load has put the fallback back into
  the cache (`ConfigCache.LenientLoadDisarmsStrict`).
- A failed migration is documented to leave the original backend in the overlay. A copy that reports failed tables, a
  verification with findings and a missing source URL end the job without writing it back, so the overlay keeps the
  transient state (`MigrationJob.Migration.Restored`; all other failures restore it: `MigrationJob.Migration.Settle`).
- Under the lock the cancel endpoint lists "completed" among the terminal states while the job writes "success"; there a
  successful job is refused only because its recorded step is still the flip
  (`MigrationJob.Migration.SuccessIsFinal`). Before the lock the endpoint refuses every job that is not running.

## Model

| member | source | states |
|---|---|---|
| `ChunkRanges.BuildRanges` | cli/client.py:850-860 | The range loop yields consecutive ranges from offset 0 to the last byte, none empty unless the file is, for every size and parallelism. |
| `ChunkRanges.RangesTile` | cli/client.py:850-860 | Every offset of the file lies in some range, and ranges are ordered without overlap. |
| `ChunkRanges.RangeSizes` | cli/client.py:850-860 | One range per worker asked for, at least one and only one for a file with fewer bytes than workers; all but the last equally long. |
| `ChunkWorker.StepKeepsInv` | cli/client.py:748-810 | Every single action keeps the part file a prefix of its range and ties the server's offset to its length. |
| `ChunkWorker.PartStaysPrefix` | cli/client.py:748-899 | Under every fault schedule the part file is a prefix of its range after every event, and success means exactly the range. |
| `ChunkWorker.HonestServerCompletes` | cli/client.py:757-811 | After any history, one honoured request finishes the range by transferring exactly the missing bytes. |
| `ChunkWorker.GivesUpExactlyWhen` | cli/client.py:867-899 | A worker gives up exactly when it has met one fault more than the retries, or a permanent one, and reports a refused range exactly when it was answered 200. |
| `ChunkWorker.RejectedOffsetStartsClean` | cli/client.py:882-892 | After a 416 the part file is gone and the next attempt asks for the whole range. |
| `ChunkWorker.Files.Receive` | cli/client.py:801-810 | Receiving the body until it ends or breaks is a run of the machine, and touches one file. |
| `ChunkWorker.Files.Append` | cli/client.py:801-810 | Appending the body piece by piece is a run of the machine, and touches one file. |
| `ChunkWorker.Files.DownloadChunk` | cli/client.py:748-810 | One resumable range request, with its 416, 200, 206 and error outcomes, is a run of the machine. |
| `ChunkWorker.Files.AttemptChunk` | cli/client.py:867-899 | The bounded retry loop ends for every adversary as a finished run of the machine, leaving a prefix, the whole range on success, and other files alone. |
| `SingleStream.StepKeepsShape` | cli/client.py:973-1021 | Every move keeps the tmp file a prefix of the source, and the target changes only by a return. |
| `SingleStream.TmpStaysPrefix` | cli/client.py:971-1021 | Under any mix of 206, 200, 416, refusals and failures: tmp is a prefix, a return yields the source and its length, and reported bytes balance published plus discarded plus kept bytes. |
| `SingleStream.ResumeFetchesOnlyTheRest` | cli/client.py:947-960 | After any history a resumed attempt publishes the source and reports only the missing bytes. |
| `SingleStream.GivesUpExactlyWhen` | cli/client.py:971-1021 | The download raises exactly when it has met one fault more than the retries, or one not worth retrying, and is interrupted exactly when an interrupt came first. |
| `SingleStream.RejectedOffsetStartsClean` | cli/client.py:1008-1013 | After a 416 to a resumed request the tmp file is gone and the next attempt asks for the whole file. |
| `SingleStream.WholeAnswerRestarts` | cli/client.py:992-998 | A 200 restarts the file from its first byte. |
| `SingleStream.OnlyInterruptLeavesTmp` | cli/client.py:1008-1021 | A tmp file survives the call exactly when an interrupt ended it while the file existed. |
| `SingleStream.InterruptLeavesTmp` | cli/client.py:973-1021 | A concrete interrupted download that leaves its tmp file. |
| `SingleStream.StaleTmpIsPublished` | cli/client.py:973-998 | From any own tmp file no longer than the source, a resumed download publishes that file's bytes followed by the rest of the source. |
| `SingleStream.StaleTmpMatters` | cli/client.py:973-998 | Every returning call publishes the source exactly when the tmp file found at entry was a prefix of it, or longer. |
| `SingleStream.Download.Receive` | cli/client.py:999-1007 | Receiving the body and renaming the file is a run of the machine, or ends faulted or interrupted as it does. |
| `SingleStream.Download.Append` | cli/client.py:999-1005 | Streaming the body is a run of the machine, with progress counted. |
| `SingleStream.Download.Attempt` | cli/client.py:973-1007 | One attempt is a run of the machine ending published, faulted or interrupted. |
| `SingleStream.Download.Fetch` | cli/client.py:938-1021 | The whole path: a return gives the source and its length, otherwise the target is unchanged; no tmp unless interrupted; reported bytes are conserved. |
| `PullSystem.ReapStep` | cli/client.py:66-86 | Reaping removes only files whose process is dead and keeps the list of leftovers complete. |
| `PullSystem.FetchStep` | cli/client.py:867-911 | Any interleaving of the workers keeps every part a prefix of its range; the pool is drained before an exception leaves. |
| `PullSystem.JoinStep` | cli/client.py:913-924 | Concatenating blocks keeps the tmp file a prefix of the source whose length is the count written. |
| `PullSystem.PublishStep` | cli/client.py:914-926 | The rename publishes the whole source. |
| `PullSystem.CleanStep` | cli/client.py:927-935 | The clean-up removes every own part and the tmp file, then returns, raises or falls back. |
| `PullSystem.StreamStep` | cli/client.py:1135-1145 | The single-stream phase of a pull keeps the invariant of the whole system. |
| `PullSystem.RunKeepsInv` | cli/client.py:813-1021 | The invariant over all processes holds in every reachable state. |
| `PullSystem.TargetOldOrWhole` | cli/client.py:1039-1041 | At every instant of every run the target is its old content or a complete copy. |
| `PullSystem.PullOutcome` | cli/client.py:813-935 | A return leaves target equal to the source and gives its length; no own intermediate file survives a return or an exception; a pull that did not return did not publish. |
| `PullSystem.LiveFilesAreSafe` | cli/client.py:839-848 | No event but a process's own action alters or removes a file of that live process. |
| `PullSystem.OnlyPublishingChangesTarget` | cli/client.py:913-926 | The target changes only when some process publishes the whole source. |
| `PullSystem.UnpublishedPullLeftTarget` | cli/client.py:1090-1145 | A pull that has not published has never changed the target, so an exception leaves it unchanged. |
| `PullSystem.LeftoversAreReaped` | cli/client.py:66-86 | Once a pull is past its reap, no file of a process dead at its start is left. |
| `PullSystem.CanAlwaysFinish` | cli/client.py:813-1021 | From every reachable state a live pull can finish by its own actions, with a normal return unless it has given up. |
| `PullEndings.GivenUpPullRaises` | cli/client.py:895-911 | Once all workers have finished, some having given up and none refused its range, no continuation of that pull returns or turns to the single stream. |
| `PullEndings.RefusedPullFallsBack` | cli/client.py:1125-1145 | With some range refused and no worker given up, the pull ends only by way of the single stream, unless interrupted. |
| `PullEndings.FetchedPullReturns` | cli/client.py:913-926 | With all ranges fetched the pull ends in a return, unless interrupted or failed by the disk. |
| `PullEndings.FallsBackOnlyOn200` | cli/client.py:794-795 | A chunked pull reaches the single stream only after some worker of it was answered 200. |
| `PullEndings.EndingsHaveCauses` | cli/client.py:895-935 | A pull raises only if a worker gave up, the disk failed it or the single stream gave up, and ends interrupted only by an interrupt. |
| `PullEndings.DiskFailureRaises` | cli/client.py:913-935 | A disk failure while joining or renaming makes the pull raise, whatever happens after. |
| `PullEndings.InterruptEnds` | cli/client.py:867-935 | An interrupt ends the pull, in every phase but while several workers run and during the clean-up. |
| `PullEndings.FetchesIntoNothing` | cli/client.py:862-865 | Whatever own parts are found, none is left in the way when fetching starts. |
| `PullEndings.PoolIsDrained` | cli/client.py:901-911 | Every worker has finished when a pull stops fetching, whichever way, but for an interrupt that hits a lone worker in the calling thread. |
| `PullEndings.StreamsAsAlone` | cli/client.py:971-1021 | Inside a pull the single stream does to its files what it does alone. |
| `EventStream.ReadEvents` | cli/client.py:593-616 | The loop yields exactly the parseable payloads of terminated records with data, in order; yielded plus malformed is their number. |
| `EventStream.ParsedInOrder` | cli/client.py:603-614 | The parsed values come in the order of their payloads, one for every payload that parses. |
| `EventStream.FieldLinesAreDataLines` | cli/client.py:610-616 | The lines buffered are exactly those that begin with "data:". |
| `EventStream.SpelledValue` | cli/client.py:610-616 | Exactly one space after the colon is dropped. |
| `EventStream.RecordsPartition` | cli/client.py:594-616 | Records and the open rest are the stream cut at its blank lines and nowhere else. |
| `EventStream.DecodeEncoded` | cli/client.py:593-616 | Any list of payloads spelled as data lines, with or without a space after the colon, among any metadata lines and records without data, is recovered from the text exactly when no payload holds a line break other than the line feed. |
| `EventStream.DecodedOnlyLineFeeds` | cli/client.py:593-616 | No payload read from any text holds a line break other than the line feed. |
| `EventStream.PayloadIsCut` | cli/client.py:593-616 | Payloads with another break inside, such as U+2028, are cut there. |
| `MigrationJob.Migration.CancelStep` | app/api/db_state.py:761-822 | Each step of the cancel's critical section does what the source does there, keeps the invariant and interferes with the job only as the job may rely on. |
| `MigrationJob.Migration.FinishCancel` | app/api/db_state.py:761-822 | A cancel that has the lock takes effect on every running job that has not recorded the flip, and changes nothing for any other. |
| `MigrationJob.Migration.SuccessIsFinal` | app/api/db_state.py:761-822 | A cancel that looks at a successful job under the lock refuses it. |
| `MigrationJob.Migration.Boundary` | scripts/db_state_migrator.py:134-176 | Recording a step is an unlocked read-modify-write; the sentinel is looked at afterwards, and one that was there before is seen. |
| `MigrationJob.Migration.Prepare` | scripts/db_state_migrator.py:1133-1248 | Reaching the flip means every step of the path from source to target was done, in order. |
| `MigrationJob.Migration.CopyData` | scripts/db_state_migrator.py:1230-1244 | Between two Postgres databases the copy step proceeds only when every row of every table was offered to the target. |
| `MigrationJob.Migration.VerifyData` | scripts/db_state_migrator.py:1246-1258 | Between two Postgres databases the verification proceeds only when every table is settled. |
| `MigrationJob.Migration.FlipAndVerify` | scripts/db_state_migrator.py:220-256 | Under the lock: the cancel re-check, the overlay write and its read-back, with every way it can end. |
| `MigrationJob.Migration.Flip` | scripts/db_state_migrator.py:1267-1318 | Announcing, locking with one retry, flipping and releasing keep cancel and flip exclusive. |
| `MigrationJob.Migration.Settle` | scripts/db_state_migrator.py:1324-1393 | Success and each exception handler: an exception and a cancel seen restore the source, a mismatch and findings do not; the status recorded and the exit code of each. |
| `MigrationJob.Migration.Concluded` | scripts/db_state_migrator.py:1259-1347 | What the final state of any run says about overlay, sentinel, cancel and writes. |
| `MigrationJob.Migration.Migrate` | scripts/db_state_migrator.py:1065-1393 | In every interleaving: success implies the overlay names the target, no cancel took effect and the prescribed steps were all done in order; after an effective cancel the overlay names the source and only the source is written; the target is never written before the groundwork; a read-back mismatch writes nothing; anything but success has a cause; a successful job between two Postgres databases leaves every table settled as `TableCopy.VerifiedCopy` says; any other end restores the source, but for a mismatch, failed tables, findings and a job that never began; it is recorded as failed or cancelled, with exit code 0 only for a cancel seen. |
| `MigrationJob.LegalFacts` | scripts/db_state_migrator.py:1081-1098 | A legal run that flipped has all its groundwork before it; a mismatch excludes a revert. |
| `MigrationJob.StepsOfEveryPath` | scripts/db_state_migrator.py:1081-1088 | The four supported pairs, and which steps each path takes in which order. |
| `TableCopy.Database.FlushBatch` | scripts/db_state_migrator.py:670-680 | A batch is inserted row by row, skipping conflicts, or not at all. |
| `TableCopy.Database.CopyTable` | scripts/db_state_migrator.py:709-720 | For every batch size the copy equals row-by-row insertion; an aborted run stops at a batch boundary. |
| `TableCopy.Database.CopyAll` | scripts/db_state_migrator.py:689-725 | Tables are copied in order up to the first failure or missing table; every other table of the database is untouched. |
| `TableCopy.Database.CopyThenVerify` | scripts/db_state_migrator.py:1230-1249 | A complete copy of all tables, then a verification of all tables without findings: in every table the keys equal the source's exactly when unobstructed, and then rows agree on the first 1000 keys and small tables are identical; tables not listed are untouched. |
| `TableCopy.CopyContents` | scripts/migrate_duckdb_to_pg/tasks.py:103-134 | After any number of rows the target holds what it held plus exactly the unobstructed source rows. |
| `TableCopy.CopyCovers` | scripts/migrate_duckdb_to_pg/tasks.py:103-134 | A complete copy covers the source keys exactly when no foreign target row obstructs one. |
| `TableCopy.RetriesConverge` | scripts/db_state_migrator.py:618-626 | From part of the source, any aborted runs followed by a complete one give the source. |
| `TableCopy.RunsAddUp` | scripts/db_state_migrator.py:618-626 | What aborted runs leave is every row that some run had copied, and no other. |
| `TableCopy.SortedKeysIncrease` | scripts/db_state_migrator.py:786-788 | The sample is taken in strictly increasing key order. |
| `TableCopy.VerifyTables` | scripts/db_state_migrator.py:820-878 | No findings exactly when every table exists on both sides with equal count and sample; the findings are exactly the tables whose counts differ and those whose samples do; a missing table is an error. |
| `TableCopy.VerifiedCopy` | scripts/db_state_migrator.py:754-878 | After copy and clean verification: keys equal exactly when unobstructed, and then rows agree on the first 1000 keys and small tables are identical. |
| `TableCopy.SmallTablesIdentical` | scripts/db_state_migrator.py:754-794 | A table of at most 1000 rows that was copied unobstructed and verified is identical to its source. |
| `TableCopy.SampleIs` | scripts/db_state_migrator.py:754-794 | The sample is the first 1000 rows in key order, all of them when there are fewer. |
| `TableCopy.BeyondTheSample` | scripts/db_state_migrator.py:754-794 | What rows behind the first 1000 keys hold is never seen. |
| `TableCopy.VerifyMissesForeignKey` | scripts/db_state_migrator.py:848-875 | A concrete seeded target that passes verification without the source's key. |
| `Redaction.RedactSensitiveKeys` | scripts/db_state_migrator.py:351-378 | The walk computes the redacted tree and reports a change exactly when the tree differs. |
| `Redaction.OutsideUntouched` | scripts/db_state_migrator.py:355-359 | Keys, list lengths and all data outside sensitive keys are kept. |
| `Redaction.RedactedIsClean` | scripts/db_state_migrator.py:363-368 | No sensitive key keeps anything but null, the empty string or the sentinel. |
| `Redaction.CleanIsFixed` | scripts/db_state_migrator.py:363-368 | A tree is left alone exactly when it is clean. |
| `Redaction.Idempotent` | scripts/db_state_migrator.py:402-403 | A second scrub changes nothing. |
| `Redaction.RedactionIsDetermined` | scripts/db_state_migrator.py:351-378 | Those properties, with blanks kept and the rest marked, determine the result. |
| `OverlayFile.Store.Persist` | app/secrets.py:117-138 | Read, merge and write back one token; the environment follows; a token that the environment refuses changes nothing. |
| `OverlayFile.Store.Boot` | app/main.py:2491-2507 | The boot loader lays what the file parses to over the environment; it raises exactly when some line assigns what the environment refuses, with exactly the lines before the first such line loaded. |
| `OverlayFile.RoundTrip` | app/secrets.py:125-138 | Printing and parsing gives the map back exactly when every entry is clean. |
| `OverlayFile.SavesRefineMapUpdates` | app/secrets.py:117-138 | Any sequence of saves and removals of clean tokens refines plain map updates. |
| `OverlayFile.EmptyValueRemoves` | app/secrets.py:130-135 | Saving an empty value removes the token from the file. |
| `OverlayFile.SaveKeepsOrder` | app/secrets.py:123-138 | Tokens keep their place in the file; a new one goes last. |
| `OverlayFile.BootsWhen` | app/main.py:2491-2507 | A file boots exactly when no line assigns NUL or to the empty name. |
| `OverlayFile.SaveKeepsBooting` | app/secrets.py:117-138 | From a file that boots, a save leaves one that boots exactly when every line its own entry turns into loads; a removal always does. |
| `OverlayFile.NamelessAfter` | app/secrets.py:117-138 | An assignment to the empty name comes with a save that writes one and goes only with its removal, from any file. |
| `OverlayFile.SavedFileBoots` | app/main.py:2491-2507 | What any sequence of successful saves and removals leaves on disk boots without raising exactly when no line assigned to the empty name, there at first or written by a save, is left without a later removal of that name. |
| `OverlayFile.BreakSetsAnotherVariable` | app/secrets.py:117-138 | Tokens with a line break and an assignment behind it are read back as two variables. |
| `OverlayFile.SaveCanStopBoot` | app/secrets.py:117-138 | Tokens that are saved and make the next boot raise. |
| `OverlayVault.Process.Reapply` | app/secrets.py:172-189 | A re-read sets the variable or removes it. |
| `OverlayVault.Process.Sweep` | app/secrets.py:223-228 | Each listed key is re-read on its own; a failed read is skipped. |
| `OverlayVault.SweepSetsWhatItReads` | app/secrets.py:223-228 | A sweep sets exactly the listed keys it could read, each to the last answer. |
| `OverlayVault.SweepLaysVaultOver` | app/secrets.py:192-228 | A sweep without failures lays the vault over the environment; it equals the vault exactly when the process held no lost token. |
| `OverlayVault.LastSaveWins` | app/secrets.py:145-158 | Over every run, the vault's value for a key is that of the last save of that key, or the first; other keys are untouched. |
| `OverlayVault.LastGivenCounts` | app/secrets.py:145-189 | Over every run, a process's value for a key is that of the last save it finished or re-read it made of that key, or the first. |
| `OverlayVault.SavingFromWriteToApply` | app/secrets.py:152-158 | A save is half done from its write to the vault until the process applies it. |
| `OverlayVault.AgreesAfterReread` | app/secrets.py:145-189 | Once vault writes stop, with any saves still half done, a process ends up agreeing with the vault on a key, deletions included, exactly when: it finishes a save of that key whose value the vault holds or re-reads the key after it; or, finishing none, it re-reads the key or agreed before. |
| `OverlayVault.QuietAgreesAfterReread` | app/secrets.py:172-189 | With no save half done, exactly when it re-read the key or agreed before. |
| `OverlayVault.LostDeletionStays` | app/secrets.py:192-228 | Sweeps never repair a deletion whose event was lost; the token goes exactly when the process finishes a removal of its own. |
| `OverlayVault.DeletionCanBeLost` | app/secrets.py:145-189 | A concrete run that reaches such a state. |
| `OverlayVault.WriterCanBeStale` | app/secrets.py:152-163 | A concrete race that leaves the writer of a key stale. |
| `LayeredConfig.DeepMerge` | app/instance_config.py:142-157 | The key-by-key loop computes the recursive merge, in whatever order it iterates. |
| `LayeredConfig.MergeTwice` | app/instance_config.py:142-157 | Merging the same overlay twice changes nothing. |
| `LayeredConfig.GetValue` | app/instance_config.py:348-359 | The lookup loop returns the node at the path, or the default when it is missing or null. |
| `LayeredConfig.LookupMerged` | app/instance_config.py:145-149 | A lookup reads the overlay where it sets the path or decides an ancestor, merges two dictionaries, and reads the base everywhere else. |
| `LayeredConfig.ResolveCommutesWithMerge` | config/loader.py:29-66 | Resolving environment references commutes with merging. |
| `LayeredConfig.ResolvesEveryNode` | config/loader.py:37-66 | Resolving substitutes in every text of the tree, through dictionaries and lists, and keeps keys, list lengths and everything else. |
| `LayeredConfig.ReferenceInTree` | config/loader.py:37-66 | A text that is one reference, anywhere in the tree, becomes the variable or the empty text. |
| `LayeredConfig.ReferenceResolves` | config/loader.py:39-48 | A reference becomes its variable, or nothing, and the value is not scanned again. |
| `LayeredConfig.ReferenceResolvesInside` | config/loader.py:39-48 | A reference is resolved wherever it stands in a text; what is before is kept, what follows resolved on its own. |
| `LayeredConfig.PlainCharacterStays` | config/loader.py:24 | A character at which no reference begins is kept. |
| `LayeredConfig.EmptyReferenceStays` | config/loader.py:24 | An empty reference is no reference. |
| `LayeredConfig.UnclosedStays` | config/loader.py:24 | A text without a closing brace is kept. |
| `LayeredConfig.ResolveLeavesPlainText` | config/loader.py:39-48 | Text without a dollar sign is unchanged. |
| `ConfigCache.Loader.LoadInstanceConfig` | app/instance_config.py:181-345 | One load: cached, built, served from the last good configuration, or refused. |
| `ConfigCache.BuiltFromBoth` | app/instance_config.py:328-345 | A fresh load of two dictionaries: at every path the resolved overlay where it decides, the resolved base elsewhere, dictionaries on both sides merged. |
| `ConfigCache.BuiltFromOne` | app/instance_config.py:181-345 | With a missing or unusable overlay a fresh load gives the resolved base, with an unusable base the resolved overlay, with neither the empty dictionary. |
| `ConfigCache.Loader.ResetCache` | app/instance_config.py:86-104 | A reset drops the cache and keeps the fallback. |
| `ConfigCache.CacheIsLastBuilt` | app/instance_config.py:181-345 | Over every run the cache is empty or the configuration built last. |
| `ConfigCache.LoadResult` | app/instance_config.py:278-318 | Exactly when a load raises the unreadable error in any run, and what it returns otherwise. |
| `ConfigCache.StrictAfterResetRefuses` | app/main.py:2526-2531 | A load after a reset raises exactly when it and all loads since the reset had to refuse; so a strict load right after a reset never returns while the overlay is unreadable. |
| `ConfigCache.LenientLoadDisarmsStrict` | app/instance_config.py:272-302 | After one lenient load of an unreadable overlay, a strict load returns the fallback. |
| `ConfigCache.StrictNeedsReset` | app/main.py:2526-2531 | Without the reset a warm cache answers it. |
| `ConfigCache.ResetThenLoadIsFresh` | app/instance_config.py:86-95 | After a reset the first load that does not refuse decides what every load returns until the next reset: the files as it finds them, or the last configuration built. |
| `SnapshotSweep.RemovesOnlyDoomed` | cli/snapshot_meta.py:143-165 | Every step: the sweep removes one snapshot at a time, only under the lock, only if expired there and then; nobody else acts while it holds the lock. |
| `SnapshotSweep.FoundWasRead` | cli/snapshot_meta.py:80-90 | Everything the scan found is what the directory held under that stem at the moment of its read. |
| `SnapshotSweep.LookKeepsPass` | cli/snapshot_meta.py:152-165 | Each look under the lock keeps the directory equal to the one found there less the snapshots swept so far, which are exactly the doomed ones looked at. |
| `SnapshotSweep.RunKeepsInv` | cli/snapshot_meta.py:107-166 | The invariant of the sweep holds in every reachable state. |
| `SnapshotSweep.SweepIsExact` | cli/snapshot_meta.py:107-166 | In every interleaving: under the lock it deletes and returns, each once, exactly the snapshots seen expired and still there and expired, and raises exactly when one of those seen is unusable; without the lock it raises exactly over a vanished or undecodable sidecar or an expiry that is no text. |
| `SnapshotSweep.SweptHadElapsed` | cli/snapshot_meta.py:107-166 | In terms of instants: what is swept had an instant that had come, when read and under the lock; no instant or one ahead under the lock leaves it; every other one is deleted and returned. |
| `SnapshotSweep.RaisesOver` | cli/snapshot_meta.py:71-90 | In terms of sidecars: exactly what makes the sweep raise, before and under the lock. |
| `SnapshotSweep.OnlySweptAreGone` | cli/snapshot_meta.py:107-166 | At the end the directory is as the other processes have left it, less exactly the snapshots swept; so nothing is removed without the lock. |
| `SnapshotSweep.UndisturbedSweep` | cli/snapshot_meta.py:107-166 | A sweep nobody disturbs raises exactly on a hostile directory, and otherwise deletes and returns exactly the snapshots named as expired whose own sidecar is expired. |
| `SnapshotSweep.VanishedSidecarRaises` | cli/snapshot_meta.py:84-90 | A concrete interleaving in which the scan raises. |
| `SnapshotSweep.TornSidecarRaises` | cli/snapshot_meta.py:71-76 | A concrete interleaving in which the second look raises. |
| `SnapshotSweep.Directory.DeleteSnapshot` | cli/snapshot_meta.py:93-104 | Both files of the snapshot go; the result tells whether any was there. |
| `SnapshotSweep.Directory.Scan` | cli/snapshot_meta.py:80-90 | Listing and reading, with others acting in between, is a run of the machine; a failed scan is one that ends raised. |
| `SnapshotSweep.Directory.Judge` | cli/snapshot_meta.py:125-138 | The names of exactly the expired sidecars, in order; it fails exactly on an expiry that is no text. |
| `SnapshotSweep.Directory.Recheck` | cli/snapshot_meta.py:143-165 | Under the lock exactly the scanned snapshots still present and expired are removed and returned; it raises exactly when a scanned one is unusable. |
| `SnapshotSweep.Directory.Sweep` | cli/snapshot_meta.py:107-166 | Whatever others do and whenever, the whole program with the clock readings given is a run of the machine that ends as the machine ends: nothing is gone but what others changed and what was swept. |
| `ShellUnescape.ChainIsOnePass` | scripts/fix_description_escapes.py:43-61 | The chain of replacements is the left-to-right pass on exactly the strings without NUL. |
| `ShellUnescape.ChainIsPass` | scripts/fix_description_escapes.py:43-61 | On every string the chain is one left-to-right pass that takes a stray NUL for an escaped backslash. |
| `ShellUnescape.EscapesMean` | scripts/fix_description_escapes.py:43-61 | The six escapes and what they become. |
| `ShellUnescape.OtherBackslashStays` | scripts/fix_description_escapes.py:43-61 | A backslash before anything else is kept. |
| `ShellUnescape.RoundTrip` | scripts/fix_description_escapes.py:43-61 | It undoes the matching escaper on exactly the strings without NUL. |
| `ShellUnescape.ChangesShorten` | scripts/fix_description_escapes.py:43-61 | A run leaves text alone exactly when no escape and no NUL is in it, never lengthens it, and shortens it whenever an escape is. |
| `ShellUnescape.RunsReachFixedPoint` | scripts/fix_description_escapes.py:13-15 | On every string, at most as many runs as it is long reach text that is left alone. |
| `ShellUnescape.IdempotentWhen` | scripts/fix_description_escapes.py:13-15 | On every string, a second run is a no-op exactly when no escape is buried. |
| `ShellUnescape.NotIdempotent` | scripts/fix_description_escapes.py:13-15 | A concrete text that two runs change twice. |
| `DiffReader.ParseAddedLines` | scripts/verify_syncmap.py:109-140 | The reading loop computes the reader's result on the text. |
| `DiffReader.HunkStartAfter` | scripts/verify_syncmap.py:125-127 | The start line in a hunk header is read back. |
| `DiffReader.NoHunkStart` | scripts/verify_syncmap.py:125-127 | A header without a number behind a plus sign starts at zero. |
| `DiffReader.TargetNames` | scripts/verify_syncmap.py:119-122 | A target line names its file with or without "b/", white space behind it aside. |
| `DiffReader.ReadsExactlyTheInsertions` | scripts/verify_syncmap.py:109-140 | Reading a rendered diff can return every insertion once, under its file and with its number, only if no added text begins with "++ " or holds a line break; and for diffs whose other lines are tame it does exactly then. |
| `DiffReader.HeaderLikeInsertionIsLost` | scripts/verify_syncmap.py:119-123 | Added lines that begin with "++ " are lost. |
| `DiffReader.CarriageReturnIsLost` | scripts/verify_syncmap.py:119-133 | Added lines with CRLF line ends lose the carriage return. |
| `DiffReader.PhantomInsertion` | scripts/verify_syncmap.py:119-133 | Context lines with a form feed before a plus sign yield an insertion the diff does not have. |
| `DiffReader.ExpectedByFile` | scripts/verify_syncmap.py:112-114 | A path is a key exactly when its file exists and has insertions, and holds those. |
| `DiffReader.InsertionsAreInFile` | scripts/verify_syncmap.py:112-114 | Every number returned is a line of the new file that holds the text. |
| `DiffReader.ReaderIsRight` | scripts/verify_syncmap.py:109-140 | For tame diffs with distinct paths and no misread added text: the keys are exactly the files with insertions, never a deleted one, each holds exactly its insertions, and every number is a line of the new file that holds the text. |

## Left out

- HTTP transport, TLS, client pooling, the size probe and the error wording of cli/client.py.
- Interrupts that land inside the clean-up of a chunked download, or between the rename and the return of either
  download; and a second interrupt while the thread pool drains, which leaves workers running while the clean-up
  unlinks their parts.
- Glob special characters in target paths; unlink calls that fail.
- SQL text, Alembic, gzip, pg_dump, timeouts and type coercion: each is a step that succeeds or fails.
- The copy from DuckDB: its loop and target reset are not part of this model beyond success, failed tables or an exception.
- The checks a cancel makes before it takes the lock: they only refuse more.
- Two migration jobs running against one another, and the host applier.
- `Redaction.RedactSensitiveKeys`: returns the redacted tree instead of changing it in place, so aliasing of subtrees is not captured; which keys are sensitive is a parameter.
- `SnapshotSweep.Directory.Sweep`: returns the names in sweep order; the final sort, unlink calls that fail and
  platforms without file locks are not modelled.
- `DiffReader.ReadsExactlyTheInsertions`: for diffs whose context, deleted or header lines hold a break followed by
  what looks like diff content, only the one direction is stated; whether such a break does harm depends on all that
  follows it.
- `OverlayVault.Process.Reapply`: takes every name and value; those that the environment refuses are modelled for the
  file only.
- Parsing of YAML, JSON and timestamps, encryption and the vault's SQL: given functions or values.
- Getters, roles, switches, startup guards and message rendering: tables settled by reading one branch.
- The AST checks and git glue of scripts/verify_syncmap.py, and the database loop of the description clean-up.
