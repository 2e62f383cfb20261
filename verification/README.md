# Verified model of the nebular-os object store

nebular-os keeps objects as blob files with metadata rows, replicates changes between nodes, and shares dedup
blocks between blobs. This project models the parts of it where correctness depends on order: the overwrite and its
crash journal, last-writer-wins replication, every writer and reader of a key running beside each other, capacity
admission, block reference counts and their collection, the version label on served bytes, the maintenance walk and
its rotating scrub, filename encodings, range readers, conditional writes, key locks, prefix filters, the block cache
and delivery retries. It states what those parts promise and proves it with Dafny 4.11. Nothing of the original
program is executed.

`dafny verify dfyconfig.toml` checks the whole project.

## How the model is built

- One module per mechanism. A mechanism that changes files and rows is a small state machine over maps: each file
  operation and each metadata statement is one step, and steps of different tasks interleave freely. Results are about
  every run of the machine.
- Code that updates fields in place is a class whose methods are proved equal to a function of the old state; the
  theorems are about those functions. Code that only computes is functions and lemmas.
- Content is abstract, and an ETag is an injective digest of it. Clocks, randomness, the choice of which statement
  fails, and the order in which a database breaks ties are parameters.
- Where a promise does not hold of the code as written, the module gives the run that breaks it and the exact condition
  under which it holds. These are the ones found:
  - An overwrite stopped after its rename, or whose rollback failed, with no restart before the next overwrite of the same
    key, leads to a backup of bytes the row never described, and recovery can then restore them
    (`SwapJournal.TwoStopsBreakAgreement`, exactly when in `SwapJournal.StopIsSafeIff`).
  - An overwrite of an object at an older filename, of a row without an ETag, by a copy without one, or of one empty ETag
    by another, is not covered by the journal (`SwapJournal.CrashSafeIff`, `SwapJournal.BlankOverBlankFails`).
  - Unversioned changes of one origin within a second may stay different on two nodes, exactly when the newest of them
    differ (`Replication.OrderIndependentIff`).
  - A put of a key this node's rules exclude does not lift a tombstone a peer sent (`Replication.TombstoneLawIff`).
  - A maintenance pass stamps a file before it reads it. A copy's hard link or an upload's rollback can bring the stamped
    file back after other bytes were read (`ObjectStore.StampComesBack`, `ObjectStore.RollbackComesBack`). A pass that
    moves a file off an older name does not look whether the current name is free (`ObjectStore.StaleNameComesBack`).
    Excluding both is enough in every run from a consistent store (`ObjectStore.StoreStaysConsistent`), and a pass left
    unguarded on a live key can break the store whoever else is running (`ObjectStore.FailedGuardBreaks`).
  - A capacity cap of exactly `i64::MAX` is not enforced (`Capacity.CapacityHoldsIff`).
  - The grace for counting a block runs from the file's modification time, and in whole seconds of the collector's
    clock (`BlockGc.SafeToCountIff`).
  - The source ignores failed removals. A drop that fails after a release, an older file or old name that resists
    removal, a backup that stays and a rollback that fails can each leave a file whose references are released; exactly
    when is proved (`BlockRefs.FailedDropCoversIff`, `BlockRefs.StuckRemovalCoversIff`,
    `BlockRefs.StuckRelocationCoversIff`, `BlockRefs.StrandCoversIff`). A delete then takes another blob's last reference
    (the runs in `BlockLoss`).
  - A version label can be newer than its bytes when an ETag of the object repeats (`VersionLabel.LabelsHoldIff`).
  - A scrub epoch that wraps skips a slice unless the denominator divides 2^64 (`Scrub.SlicesOnceIff`).
  - Retries end before tombstones expire only up to 599 attempts (`RetryPolicy.GivenUpBeforeTombstonesExpireIff`).
- The source's README says retries back off up to an hour; the code stops doubling at 1024 seconds, and the model follows
  the code (`RetryPolicy.BackoffIsBounded`). `If-None-Match` with a list of tags is ignored on writes
  (`Preconditions.NoneMatchListIsIgnored`), and numbers in a `Range` header may carry a plus sign.

## Model

| member | source | states |
|---|---|---|
| SwapJournal.Engine.BackUp | src/storage/write_path.rs:313-327 | the disk after the backup step for every outcome and stop, including an unfinished copy |
| SwapJournal.Engine.WriteIntent | src/storage/write_path.rs:328-349 | the journal record appears only for a backed-up blob with an ETag; a failed write leaves the disk as it was |
| SwapJournal.Engine.RollBack | src/storage/write_path.rs:418-436 | stopped anywhere it leaves the named disk: run to its end, the disk the overwrite began with; when the restore itself fails, the new blob with backup and record kept |
| SwapJournal.Engine.CleanUp | src/storage/write_path.rs:399-408 | stopped anywhere after a commit it leaves the named disk: new blob and row, with exactly the older file, backup or record not yet removed or whose removal failed |
| SwapJournal.Engine.SwapInStaged | src/storage/write_path.rs:273-439 | a committed overwrite, first upload or not, has its blob and a row with its content and ETag; an uncommitted one has changed no row and, run to its end without a failing rollback, nothing; no other key changes |
| SwapJournal.Engine.RecoverInterruptedSwaps | src/storage/write_path.rs:140-188 | the loop is the fold of single recoveries; listed records and their backups are gone, rows are untouched, and each restorable record is counted once |
| SwapJournal.RecoverClears | src/storage/write_path.rs:148-187 | recovery clears exactly the listed records with their backups |
| SwapJournal.RecoverOneKeepsInv | src/storage/write_path.rs:150-186 | recovery of a record, itself cut after any step, keeps the journal usable |
| SwapJournal.RecoveryRestoresAgreement | src/storage/write_path.rs:140-188 | recovery over any listing order makes every key's bytes match its row and changes no row |
| SwapJournal.SwapKeepsInv | src/storage/write_path.rs:273-439 | an overwrite that names its content, stopped or failing anywhere, leaves a journal recovery can use unless it leaves a record of a wrong backup |
| SwapJournal.CrashSafety | src/storage/write_path.rs:140-188 | after any run of stopped overwrites that leave no record of a wrong backup, deletes and cut recoveries, one recovery restores agreement and undoes no committed row |
| SwapJournal.CrashesAreSafe | src/storage/write_path.rs:273-439 | from a store in agreement, if a restart follows every stop and every failed rollback, nothing need be known about backups |
| SwapJournal.CrashSafeIff | src/storage/write_path.rs:313-349 | an overwrite is recoverable from every stop if and only if the key has no row, the content is unchanged, or there is a backup and two ETags that differ |
| SwapJournal.BlankOverBlankFails | src/storage/object_meta.rs:320-339 | a copy with the empty ETag over a row with the empty ETag is journaled and still loses agreement when stopped after the rename |
| SwapJournal.StopIsSafeIff | src/storage/write_path.rs:313-408 | for an overwrite that names its content, with any other records in the journal: recovery succeeds after every allowed continuation and in every listing order if and only if the stop leaves no readable record, or the row described the backed-up version, or the content does not change |
| SwapJournal.TwoStopsBreakAgreement | src/storage/write_path.rs:140-188 | two stopped overwrites without a restart between them: a listing order that leaves wrong bytes under the row |
| Versions.OrderTotal | src/cluster/replicated/versions.rs:22-34 | versions are totally and strictly ordered by time, then origin |
| Versions.OrderTransitive | src/cluster/replicated/versions.rs:22-34 | the order is transitive |
| Versions.TextLessMeans | src/cluster/replicated/versions.rs:22-34 | of two origins the first differing character decides, and a prefix comes first |
| Versions.HeaderRoundTrip | src/cluster/replicated/versions.rs:36-49 | every version survives the header it is sent in: micros and origin around the first semicolon |
| Replication.Replica.StoreLocal | src/cluster/replicated/versions.rs:85-115 | a local change gets a version above the recorded one whatever the clock says |
| Replication.Replica.Change | src/cluster/replicated/hooks.rs:25-45 | the node shows the change; a replicated key gets a version of this node above the recorded one and an event carrying it, an excluded key neither; no other key changes |
| Replication.Replica.ApplyLocked | src/cluster/replicated/hooks.rs:55-74 | if newer, the node shows the change under its version; otherwise objects and versions stay; the event is logged once either way |
| Replication.Replica.Apply | src/cluster/replicated/apply.rs:42-134 | a logged event changes nothing, a newer one is shown, an older one only logged; the early exits agree with the locked check |
| Replication.Replica.Restore | src/cluster/replicated/hooks.rs:85-116 | a heal puts the copy in place unless a tombstone or an object is there, records its version exactly when it has a greater one, and otherwise changes nothing |
| Replication.Replica.HealDamagedBytes | src/cluster/replication_recover.rs:122-153 | damaged bytes of exactly the expected version read back again, while what the node shows, has recorded and logged stays |
| Replication.EarlyExitAgrees | src/cluster/replicated/apply.rs:42-134 | the unlocked checks answer a refused event as the whole would and leave every other to the lock |
| Replication.UnversionedIsStartOfSecond | src/cluster/replicated/log.rs:69-81 | an event without a version beats every version of an earlier second and loses to every later microsecond |
| Replication.AcceptedIsNewest | src/cluster/replicated/hooks.rs:55-74 | an accepted event is at least as new as every event logged for the key, and is what the node shows |
| Replication.LocalKeepsNewest | src/cluster/replicated/log.rs:251-274 | a local change is newer than everything its node has logged for the key |
| Replication.RunKeepsInv | src/cluster/replicated/apply.rs:42-134 | in every cluster run each node shows the newest event it has logged, and versions of a key are distinct |
| Replication.Convergence | src/cluster/replicated/versions.rs:85-142 | nodes that processed the same changes hold the same version, deleted flag and content, for any order, repetition and clocks |
| Replication.NewestChangeWins | src/cluster/replicated/versions.rs:119-142 | a node that has the newest change shows it, whatever else it has or lacks |
| Replication.EventuallyAllAgree | src/cluster/replicated/apply.rs:42-134 | from every reachable state some run of deliveries makes all nodes agree on every key |
| Replication.OrderIndependentIff | src/cluster/replicated/log.rs:69-81 | any events of a key, versioned or not, end alike in every order and with any repetition if and only if all the newest of them make the same change |
| Replication.UnversionedEventsDiverge | src/cluster/replicated/log.rs:69-81 | two unversioned puts within a second do not |
| Replication.TombstonesHold | src/cluster/replicated/hooks.rs:55-116 | over local changes, late events and both heals, a deleted key has no object, versions never fall, and it lives again only under a greater version |
| Replication.LocalPutHoldsTombstoneIff | src/cluster/replicated/hooks.rs:31-45 | one local put keeps that law if and only if the key is replicated here or has no tombstone |
| Replication.TombstoneLawIff | src/cluster/replicated/hooks.rs:31-74 | from an empty node, the law holds in every run if and only if the rules replicate the key |
| Replication.ForeignDeleteStays | src/cluster/replicated/hooks.rs:31-74 | on every excluded key a peer's delete followed by a put here is a run that breaks it |
| ObjectStore.InstallKeepsGood | src/storage/write_path.rs:273-439 | a refused, committed or rolled-back install leaves the row matching what readers see |
| ObjectStore.CopyKeepsGood | src/storage/engine.rs:797-852 | a copy from a matching source leaves both keys matching |
| ObjectStore.DeactivateKeepsGood | src/storage/engine.rs:1038-1067 | row first, files later, in any order and with any removal failing |
| ObjectStore.MaintainKeepsGood | src/storage/maintenance.rs:834-896 | a pass that is refused, or that swaps the stamped file's own bytes onto a free or the same name, changes nothing readers see |
| ObjectStore.DoKeepsInv | src/storage/key_locks.rs:37-64 | one change inside one task's locks disturbs no other task and keeps the promise that the task ends well |
| ObjectStore.StepKeepsInv | src/storage/engine.rs:900-941 | every step of every operation and reader keeps the invariant |
| ObjectStore.StoreStaysConsistent | src/storage/engine.rs:900-941 | in every interleaving, writes between a pass's stamp, read and swap included, unlocked keys match their rows and every reader's bytes hash to the ETag it read, as long as copies come from consistent keys, no stamped file returns after a pass read other bytes, and no swap lands on a taken name |
| ObjectStore.UploadIsRead | src/storage/engine.rs:900-941 | from any state where an upload gets its lock it can commit, and a reader is then served its bytes under its ETag |
| ObjectStore.CopyIsRead | src/storage/engine.rs:797-852 | likewise the destination of a copy reads as its source |
| ObjectStore.DeletedIsGone | src/storage/engine.rs:1246-1275 | a delete that gets its locks can take all its rows away at once, and touches no other key |
| ObjectStore.OthersUnmoved | src/storage/maintenance.rs:843-846 | a change under one task's locks keeps every waiting pass either refusable or carrying the stamped bytes |
| ObjectStore.SwapKeepsGoodIff | src/storage/maintenance.rs:843-880 | on a live key whose stamp holds, every outcome of a pass is harmless if and only if its guards hold |
| ObjectStore.UnguardedSwapBreaks | src/storage/maintenance.rs:843-880 | from any state where an unguarded pass can take its lock on a live matching key there is a run to an inconsistent store |
| ObjectStore.FailedGuardBreaks | src/storage/maintenance.rs:834-896 | from any state the invariant allows, whoever else is running: if the plan under way, or the key as it is, leaves a live key on which a waiting pass is unguarded, some run breaks the store |
| ObjectStore.StampComesBack | src/storage/maintenance.rs:585-642 | a run in which a copy links the stamped file back after the pass read an upload's bytes |
| ObjectStore.RollbackComesBack | src/storage/write_path.rs:418-422 | a run without a copy: the pass reads a failed upload's bytes and the rollback restores the stamped file |
| ObjectStore.StaleNameComesBack | src/storage/maintenance.rs:843-880 | a run in which an old version's file is moved over a newer one |
| StoreOps.Engine.DeleteLocked | src/storage/engine.rs:1038-1067 | carries out an allowed delete: no row or a row stamped now, then the files the settings and the file system let go; failure and absence change nothing |
| StoreOps.Engine.DropBlob | src/storage/engine.rs:1076-1082 | the removals that succeed, and no other key |
| StoreOps.Engine.DeleteObjects | src/storage/engine.rs:1228-1296 | every key is reported exactly as often as it was asked for, failed if and only if its chunk failed; a deleted key loses its row and, when set to, its files; all others are untouched |
| StoreOps.DeletedMeans | src/storage/engine.rs:1255-1285 | a hard delete leaves no row, a soft one stamps a live row and keeps an older stamp; dropped files leave nothing to read |
| StoreOps.Engine.DeleteChunk | src/storage/engine.rs:1246-1285 | a chunk carries out the concurrent model's bulk delete of exactly its keys |
| StoreOps.ChunkIsAllowed | src/storage/engine.rs:1255-1285 | one statement over the rows and any removals of the files are a plan for the whole set of keys |
| StoreOps.Engine.PurgeSoftDeleted | src/storage/maintenance.rs:130-161 | only rows still expired under the lock go, and they are counted; a failing row statement or release ends the loop, its key left exactly as far as it got and the rest untouched |
| StoreOps.Engine.PurgeOne | src/storage/maintenance.rs:141-158 | whatever fails, the key undergoes a purge the concurrent model allows; it goes if and only if its stamp is below the cutoff, and unless they went with the delete its files go too when nothing resists |
| StoreOps.Engine.DropFiles | src/storage/engine.rs:1076-1082 | both names are empty when both removals go; a failing release of the first ends it with both kept; a file that resists does not |
| StoreOps.PurgeIsAllowed | src/storage/maintenance.rs:130-161 | purging a key is a plan the concurrent model allows, whatever happened since it was listed |
| StoreOps.Engine.RemoveOrphan | src/storage/reconcile.rs:183-195 | never touches a live key, carries out an allowed collection whatever fails, leaves nothing to read when nothing resists, and a success says whether there was anything to remove |
| StoreOps.Engine.RemoveStaleRow | src/storage/reconcile.rs:49-62 | a row goes if and only if it is live and its key has no file, as a plan of the concurrent model |
| StoreOps.Engine.ReplaceIfUnchanged | src/storage/maintenance.rs:834-896 | swaps if and only if the stamped name still holds the stamped file and the rename works |
| Capacity.ProjectedIsExact | src/storage/engine.rs:413-420 | below an `i64::MAX` cap the saturating sum admits no growing write the true sum would refuse |
| Capacity.ReservedFits | src/storage/engine.rs:209-221 | reserved bytes never exceed stored bytes plus what uncommitted writes may add |
| Capacity.StepKeepsInv | src/storage/engine.rs:395-426 | stored bytes plus uncommitted growth stay within the cap through every step |
| Capacity.CapNeverExceeded | src/storage/engine.rs:395-426 | in every interleaving stored bytes and the in-flight counter stay within the cap |
| Capacity.CapacityHoldsIff | src/storage/engine.rs:413-420 | for every cap the promise holds in all interleavings if and only if the cap is below `i64::MAX` |
| Capacity.SaturationAdmits | src/storage/engine.rs:413-420 | a full store with the largest cap admits one more byte |
| Capacity.Admission.Admit | src/storage/engine.rs:395-426 | with sums in range a write is refused if and only if stored, reserved and incoming bytes less the replaced object's exceed the cap; beyond it the sums stop at `i64::MAX`; and the decision is the machine's in every state |
| Capacity.RefusedIff | src/storage/engine.rs:413-420 | what the three saturating operations decide, in plain sums |
| Capacity.AloneAdmittedIff | src/storage/engine.rs:395-426 | a write alone is admitted if and only if the stored total after it is within the cap, and then leaves exactly its size under its key and an idle store |
| Capacity.DeleteFrees | src/storage/engine.rs:395-426 | a delete frees exactly the object's bytes |
| Capacity.Admission.Release | src/storage/engine.rs:216-221 | releasing what was reserved takes the counter back to its value before, even across a wrap, and is the machine's release in every state |
| Blocks.CountingAdds | src/storage/blocks.rs:261-279 | counting a manifest adds its exact multiplicity to every block |
| Blocks.ReleasingSubtracts | src/storage/blocks.rs:281-301 | releasing subtracts it and never goes below zero |
| Blocks.CollectAllSpares | src/storage/blocks.rs:306-357 | a pass alone removes exactly the listed blocks that nobody shared since and whose file goes; all others keep row and file |
| Blocks.BlockStore.StoreBlock | src/storage/blocks.rs:81-124 | whoever is told the hash reads their own chunk back; a stored block with other bytes, or an unreadable one, is neither shared nor changed |
| Blocks.BlockStore.IncRefs | src/storage/blocks.rs:261-279 | every counted block gains its multiplicity and loses its release stamp, sizes stay and no other row changes; what was counted before a failing statement stays counted |
| Blocks.CountingRevives | src/storage/blocks.rs:261-279 | a missing row is inserted with the size of an entry that names it |
| Blocks.BlockStore.DecRefs | src/storage/blocks.rs:281-301 | counts drop by the multiplicity, not below zero; a block that reaches zero is stamped now and collectable at every later cutoff, any other keeps its stamp, and sizes stay; what was released before a failing statement stays released |
| Blocks.ReleasedIsCollected | src/storage/blocks.rs:306-357 | a block released before the cutoff and not shared since is listed by a pass that reaches the end of the list, and its file and row are then gone |
| Blocks.BlockStore.CollectReleased | src/storage/blocks.rs:306-357 | exactly the removable listed blocks lose row and file, each counted once; all other rows and files stay |
| BlockGc.CountKeepsInv | src/storage/blocks.rs:261-279 | a timely count after a pass listed the block finds a file newer than the pass's cutoff |
| BlockGc.CheckFileKeepsInv | src/storage/blocks.rs:324-345 | the file check removes no block that is counted or about to be |
| BlockGc.CollectionIsSafe | src/storage/blocks.rs:306-357 | in every interleaving with timely uploads, referenced blocks keep their files and counts are exact |
| BlockGc.WithinGraceIsTimely | src/background_jobs.rs:27-27 | counting within the grace of the stamp is always timely |
| BlockGc.LateCountLosesBlock | src/storage/blocks.rs:306-345 | for every late count there is a run that loses its block |
| BlockGc.SafeToCountIff | src/storage/blocks.rs:81-124 | a count is safe in all interleavings if and only if its second is before stamp plus grace |
| BlockGc.ReleasedBlockGoes | src/storage/blocks.rs:306-357 | from any state: last reference released, grace over, nobody shared it: a pass removes exactly this block's file and row |
| BlockRefs.InstallConserves | src/storage/write_path.rs:399-417 | installing a staged blob moves references without gaining or losing one |
| BlockRefs.RelocateConserves | src/storage/maintenance.rs:860-890 | a relocation carries its references along; if the old name stays, they are booked as missing |
| BlockRefs.StrandConserves | src/storage/write_path.rs:313-436 | an overwrite that leaves its backup behind, by a stop, a stuck removal or a failed rollback, keeps the balance |
| BlockRefs.StepConserves | src/storage/write_path.rs:214-436 | counted plus missing equals files, tasks and leaked, after every statement of every operation and every failure |
| BlockRefs.RunConserves | src/storage/blocks.rs:261-301 | so in every run, and there a block is covered if and only if no more of its references are missing than leaked |
| BlockRefs.CountsCoverBlobs | src/storage/maintenance.rs:855-895 | after any run, from a start with nothing missing, in which no file stays whose references are released, whatever else fails, every block's count covers all stored and staged blobs |
| BlockRefs.CountsExact | src/storage/engine.rs:837-851 | without a leaking step either, the count is exactly what files and tasks hold |
| BlockRefs.StepCoversIff | src/storage/blocks.rs:281-301 | from exact counts, a step keeps every blob covered if and only if it leaves no more references uncounted than it leaks |
| BlockRefs.StuckRemovalCoversIff | src/storage/write_path.rs:399-417 | an older file that resists removal keeps blobs covered if and only if it holds no references |
| BlockRefs.StuckRelocationCoversIff | src/storage/maintenance.rs:860-883 | a moved file whose old name stays does if and only if the file it replaced held all its references |
| BlockRefs.StrandCoversIff | src/storage/write_path.rs:399-436 | a stopped overwrite always does, a backup that stays if and only if it holds none, a failed rollback if and only if the staged blob holds none |
| BlockRefs.FailedDropCoversIff | src/storage/engine.rs:1076-1082 | a drop that leaves its file does if and only if it had released nothing |
| BlockLoss.StuckRemovalLosesBlock | src/storage/write_path.rs:399-417 | from an empty store: an overwrite that cannot remove the older file, then a delete, and another object's block is at count zero |
| BlockLoss.StuckRelocationLosesBlock | src/storage/maintenance.rs:860-883 | the same with a maintenance move that cannot remove the old name |
| BlockLoss.FailedDropLosesBlock | src/storage/engine.rs:1076-1082 | the same with a drop that releases, keeps the file and is repeated |
| BlockLoss.FailedRollbackLosesBlock | src/storage/write_path.rs:262-265 | the same with an upload whose rollback fails |
| BlockLoss.RestartRepairsRollback | src/storage/write_path.rs:140-188 | from any exact state, a restart that restores the backup of a failed rollback covers every blob again, however many references had been released |
| BlockLoss.OverwriteIsExact | src/storage/write_path.rs:399-417 | an overwrite run to its end leaves exact counts and the new blob in place of the old one |
| BlockLoss.DeleteIsExact | src/storage/engine.rs:1076-1082 | so does a delete, and no other file changes |
| VersionLabel.LabelNeverNewer | src/cluster/routes.rs:94-113 | with distinct ETags, no interleaving labels bytes with a version newer than theirs |
| VersionLabel.UndisturbedIsLabelled | src/cluster/routes.rs:99-113 | an undisturbed serve carries its own version if and only if its row has an ETag |
| VersionLabel.RepeatedEtagMislabels | src/cluster/routes.rs:94-113 | every repeated ETag gives an interleaving that does |
| VersionLabel.LabelsHoldIff | src/cluster/replicated/log.rs:251-274 | labels hold in all interleavings if and only if no ETag of the object repeats |
| KeyPages.ListKeyPage | src/storage/object_meta.rs:935-963 | a page is exactly the objects up to its cursor, never splits a run of equal keys, holds every fetched row below the boundary, and says truly whether more follow |
| KeyPages.WalkVisitsOnce | src/storage/object_meta.rs:45-70 | a walk visits every object of every bucket exactly once, however ties are broken |
| KeyPages.WalkTerminates | src/storage/object_meta.rs:935-963 | a walk has no more pages than objects |
| Scrub.ChecksAddUp | src/storage/engine.rs:662-702 | over any run of batches, checks of an object equal the slices of the finished passes plus the part under way |
| Scrub.ScrubCoversOnce | src/storage/scrub.rs:57-68 | in `sample_denom` full passes every object is checked exactly once |
| Scrub.SelectedIsMod | src/storage/scrub.rs:61-68 | selection is the machine's remainder of hash plus epoch |
| Scrub.IsSelected | src/storage/scrub.rs:61-68 | the code's test decides the model's selection |
| Scrub.SlicesOnceIff | src/storage/scrub.rs:61-68 | for every hash, if and only if the epoch does not wrap or the denominator divides 2^64 |
| Scrub.SampledCounts | src/storage/maintenance.rs:701-706 | a batch checks exactly the selected rows of its page |
| Scrub.Scrubber.Batch | src/storage/engine.rs:653-702 | checked plus sampled-out rows are the page, and the saved strings read back as the next state |
| BlobPaths.DecodeBlobFilename | src/storage/blob_paths.rs:87-104 | the decoding loop, with character boundaries, either hex case and a leading plus; the result is always valid UTF-8 |
| BlobPaths.LossyKeepsValid | src/storage/blob_paths.rs:103-103 | replacing what is not UTF-8 leaves valid text alone |
| BlobPaths.LossyIsValid | src/storage/blob_paths.rs:103-103 | and makes any bytes valid |
| BlobPaths.EncodePlain | src/storage/blob_paths.rs:43-53 | the encoding loop builds the joined units |
| BlobPaths.EncodePortable | src/storage/blob_paths.rs:59-79 | likewise for portable names |
| BlobPaths.ValidEndsChars | src/storage/blob_paths.rs:92-95 | in UTF-8 an escape always ends at a character boundary |
| BlobPaths.NamesRoundTrip | src/storage/blob_paths.rs:43-104 | one decoder inverts both encodings for every key |
| BlobPaths.NamesAreDistinct | src/storage/blob_paths.rs:43-104 | no name of a key, in either scheme, is a name of another |
| BlobPaths.PortableSurvivesFolding | src/storage/blob_paths.rs:55-79 | a lower-cased portable name still decodes to its key, so folding joins no two |
| BlobPaths.PortableIsAccepted | src/storage/blob_paths.rs:59-84 | in any case, the stem is none of CON, PRN, AUX, NUL, COM0-9 and LPT0-9, and the name does not end in a dot or space |
| BlobPaths.PlainHolds | src/storage/blob_paths.rs:43-53 | a plain name holds no slash |
| BlobPaths.PortableHolds | src/storage/blob_paths.rs:55-79 | a portable name holds no slash, backslash, Windows-invalid, control or non-ASCII byte, and capitals only in escapes |
| BlobPaths.PlainKeeps | src/storage/blob_paths.rs:43-53 | a key without slash and percent is its own plain name |
| BlobPaths.PortableKeeps | src/storage/blob_paths.rs:59-79 | so is a lowercase key without a device stem or final dot its own portable name |
| ByteRange.RangeMeaning | src/storage/range.rs:14-60 | a header that reads as a range yields exactly the requested positions of the object, or says none exist |
| ByteRange.IgnoredIff | src/storage/range.rs:14-60 | a header is ignored if and only if it does not read as a single byte range |
| ByteRange.PrintedRangeDenotes | src/storage/range.rs:14-60 | the canonical header of every range reads as that range |
| ByteRange.UnitIgnoresCase | src/storage/range.rs:14-60 | in any case of the unit and after a blank a header reads the same |
| Streaming.LimitedRead.Discard | src/storage/streaming.rs:51-69 | skipping may pause or fail anywhere without losing a byte |
| Streaming.LimitedRead.PollRead | src/storage/streaming.rs:40-85 | delivered and remaining bytes are the slice; only its end reads as the end |
| Streaming.LimitedRead.Drain | src/storage/streaming.rs:23-85 | any buffers, until the stream ends, deliver the slice; with non-empty buffers a source that neither pauses nor fails ends within one read more than there are bytes |
| Streaming.AdvancedOk | src/storage/streaming.rs:444-463 | a chunk's piece followed by the rest of the range is the range |
| Streaming.RangeOf.ReadChunk | src/storage/streaming.rs:444-463 | pieces of any chunking add up to the slice; a covered range fails only where its source does |
| Streaming.DedupReader.Open | src/storage/streaming.rs:474-505 | positioning by block sizes stands for the same slice as reading everything |
| Streaming.DedupReader.ReadChunk | src/storage/streaming.rs:508-531 | blocks add up to the slice, and a range inside the object fails only when a block does |
| Streaming.RangeOf.Drain | src/storage/streaming.rs:444-463 | read to its end it has delivered the range; a covered range of a source that does not fail always ends, never with an error |
| Streaming.DedupReader.Drain | src/storage/streaming.rs:508-531 | the same over blocks: a range inside the object ends unless a block does not read back |
| Streaming.ServeRaw | src/storage/streaming.rs:175-193 | from any header, through the seek, to the bytes of a raw blob: for any buffers and pauses a prefix of the body, all of it once the stream ends, and with enough buffers a source that neither pauses nor fails does end |
| Streaming.ServeStream | src/storage/streaming.rs:219-230 | from any header to the bytes of an unseekable stream, however it is chunked: the whole body unless the source fails |
| Streaming.ServeDedup | src/storage/streaming.rs:474-531 | from any header to the bytes of a dedup blob over every accepted manifest: the whole body unless a block does not read back; any other manifest is an error |
| Streaming.BodyIsRequested | src/storage/range.rs:14-60 | the body of a header that reads as a range is exactly the bytes it requests, and is refused if and only if there are none |
| ByteRange.SpanIsRequested | src/storage/engine.rs:914-928 | start and length cover exactly the requested positions |
| ByteRange.WholeUnlessRange | src/storage/engine.rs:914-928 | without a header that reads as a range the whole object is served |
| DedupManifest.TotalSizeFits | src/storage/compression/legacy.rs:106-109 | the sum of the sizes cannot overflow 64 bits |
| DedupManifest.HeaderLayout | src/storage/compression/legacy.rs:75-96 | the magic, the size and the count stand little-endian at bytes 0, 4 and 12 |
| DedupManifest.EntryLayout | src/storage/compression/legacy.rs:98-105 | from byte 16 on every twelve bytes are a hash and a size, least significant byte first |
| DedupManifest.ReadEntries | src/storage/compression/legacy.rs:98-105 | the entry loop reads the manifest's entries in order |
| DedupManifest.SumSizes | src/storage/compression/legacy.rs:106-109 | the sum is the true total |
| DedupManifest.ParsedIff | src/storage/compression/legacy.rs:75-111 | a file parses to entries if and only if it is their encoding and they add up to the object |
| DedupManifest.ParseDedupManifest | src/storage/compression/legacy.rs:75-111 | the code accepts exactly those files |
| Preconditions.MatchesAny | src/storage/precondition.rs:7-13 | the scan finds a tag if and only if a member of the list names it |
| Preconditions.ListMatchesMembers | src/storage/precondition.rs:7-13 | a quoted list names exactly the tags the client wrote |
| Preconditions.TagForms | src/storage/precondition.rs:7-13 | a tag is named bare, quoted, weak and with blanks around it |
| Preconditions.CheckWriteIff | src/storage/precondition.rs:60-93 | a write passes if and only if `If-None-Match: *` finds nothing and `If-Match` finds an object that `*` or a listed tag names |
| Preconditions.CheckWritePreconditions | src/storage/precondition.rs:60-93 | the code's early answers decide the same; a write without conditions always passes |
| Preconditions.NoneMatchListIsIgnored | src/storage/precondition.rs:65-70 | a list in If-None-Match never affects a write |
| Preconditions.WritesAreSwaps | src/storage/write_path.rs:225-289 | in every interleaving commits form one history in which each If-Match write replaced a version it named |
| Preconditions.MetConditionsCommit | src/storage/write_path.rs:283-289 | a writer that gets the lock can commit if and only if its conditions are met, and the row is then what it leaves |
| Preconditions.CreationsAreSeparated | src/storage/write_path.rs:283-289 | between two creations that demanded an absent key a delete committed |
| KeyLocks.LockOrder | src/storage/key_locks.rs:47-64 | the stripes of the keys, strictly ascending, none missing or added |
| KeyLocks.LockMany | src/storage/key_locks.rs:47-64 | from stripes in any order with repetitions, asks exclusively for exactly those stripes in strictly ascending order, and for the capacity lock only when wanted and then last |
| KeyLocks.PlansAreInOrder | src/storage/engine.rs:403-403 | every plan, with or without the capacity lock, asks in strictly ascending order |
| KeyLocks.RunKeepsExclusion | src/storage/key_locks.rs:37-45 | nobody shares an exclusively held lock in any reachable state |
| KeyLocks.NoDeadlock | src/storage/key_locks.rs:37-64 | in every reachable state with a waiting task some task can step |
| KeyLocks.FreeIsGranted | src/storage/key_locks.rs:37-45 | readers share, and a free lock goes to whoever is first |
| KeyLocks.NobodyOvertakes | src/storage/key_locks.rs:37-45 | in every step a waiting task keeps its place or moves up |
| PrefixFilter.ReplacementsEscape | src/storage/object_meta.rs:36-43 | three replacements in sequence escape each character once |
| PrefixFilter.PrefixFiltersAgree | src/storage/object_meta.rs:23-43 | LIKE on the pattern, the SQLite condition and "starts with" select the same keys |
| BlockCache.TrimmedIsSuffix | src/storage/block_cache.rs:70-75 | eviction leaves the longest most recently used suffix within both bounds |
| BlockCache.LastSurvives | src/storage/block_cache.rs:55-75 | a block within the budget survives its own insertion |
| BlockCache.Cache.Get | src/storage/block_cache.rs:47-53 | a hit is the last block accepted under the key and becomes the most recently used, the others in their order |
| BlockCache.Cache.Insert | src/storage/block_cache.rs:55-76 | both bounds hold, the total is exact, an oversized block changes nothing |
| BlockCache.Cache.Evict | src/storage/block_cache.rs:70-75 | the byte count never saturates |
| RetryPolicy.BackoffIsBounded | src/cluster/replicated/log.rs:510-511 | the delay doubles up to 1024 seconds, so the hour's cap is never reached |
| RetryPolicy.DeadLetteredAtLimit | src/cluster/replicated/log.rs:490-522 | an event is given up at exactly the limit's failure, after the sum of the delays |
| RetryPolicy.ReplayRestarts | src/cluster/replicated/log.rs:560-570 | a replayed event meets the same bound again |
| RetryPolicy.DefaultBackoff | src/cluster/replicated/log.rs:510-511 | twenty attempts are spread over 11,262 seconds |
| RetryPolicy.GivenUpBeforeTombstonesExpireIff | src/background_jobs.rs:35-37 | that is below the tombstone retention if and only if at most 599 attempts are allowed |
| RetryPolicy.RetryLog.MarkFailed | src/cluster/replicated/log.rs:490-522 | one more attempt, given up exactly at the limit and otherwise due after the back-off; an unknown event changes nothing |
| RetryPolicy.RetryLog.ReplayDeadLetter | src/cluster/replicated/log.rs:560-570 | only a dead letter is replayed, and it is then pending, without attempts and due at once |

## Left out

- HTTP routing, authentication, signatures, webhooks, metrics, configuration and the accept loop: plumbing and library cryptography.
- SQL engines, zstd and the hash function: maps with atomic statements, an abstract codec and an injective digest stand for them; a returned metadata error means nothing was committed.
- Blob-only metadata mode, the Postgres schema and online indexes, dictionary training, rate limiting and the upload budget: off the main line.
- The replication worker and its transport: deliveries are arbitrary messages that carry version and content.
- Backfill, pruning of tombstones and history, and changes of replication rules during a run.
- ObjectStore.StoreStaysConsistent: a request dropped inside a locked section is a step of the journal model (`SwapJournal`) only; here a locked section runs to its end, or fails and rolls back.
- ObjectStore.StampComesBack: a file identity is never reused, so an inode recycled with the same length and modification time is not modelled.
- SwapJournal.CrashSafety: one current and one older filename stand for all variants of a key's name; a backup that recovery fails to remove is not a step; a failed removal of the record after a rollback is the stop just before it.
- BlockRefs.CountsCoverBlobs: does not hold where a file stays whose references are released, because the source ignores failed removals; the conditions above say exactly when, and a backup counts as a stored file. A blob's references are those it is tagged with.
- VersionLabel.LabelNeverNewer: every change records its version; a commit hook that fails after the row was committed is not modelled.
- Streaming.DedupReader.ReadChunk: a block read succeeds with the manifest's length or fails; a chunk stored raw that begins with the block container's magic is not modelled.
- Streaming.ServeRaw: the row's size is taken to be the blob's length, here and in `Streaming.ServeStream`.
- KeyPages.WalkVisitsOnce: the objects do not change during the walk.
- KeyLocks.NoDeadlock: queues are first in, first out, and progress means that some task can step, not a bound on waiting.
- Completeness of delimiter listings and of blob-only prefix deletes.
