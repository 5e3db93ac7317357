# Restore engine: a verified model

A Dafny model of the Nyx Backup recovery tool, with proofs of what its restore
engine, its parity repair, its selection rules and its small stateful parts
guarantee. `dafny verify dfyconfig.toml` checks all of it. Nothing here executes
the original program.

## The parts

- **Packs shared by workers** (`PackCache`, `SingleFlight`, `CacheAnswers`). The cache is a class
  over its coupled fields, proved against the value type `Cache`; the workers are a step
  relation with one step for each locked section and each await between two of them.
  A run is a `Trace`, and the main results hold in every reachable state for any
  number of workers, any capacity and any failing request.
- **Reading packs** (`PackObject`, `PackWriter`): the tiled download, the footer index,
  the three ways of cutting out a chunk, the map from chunks to packs, each against
  the documented layout as a writer produces it.
- **Parity** (`Parity`, `RepairTheorems`): the `.par` layout, its parser, the
  repair, and the writer it stays compatible with. The checksum is a parameter.
  The codec is a contract (`ErasureCode`), and `GF256`, `Interpolation` and
  `ReedSolomon` prove that a systematic code over the 256-element field meets it.
- **Chunks and files** (`PackPath`, `ChunkFetch`, `Reconstruct`, `RestoreFile`,
  `RepairExamples`, `Archive`). What storage does with a range past an object's end is a
  parameter: refuse it, cut it at the end, or clip both ends. A file is
  bytes and a cursor, and writing past the end fills with zeros. Cipher,
  compressor and keyed identity are parameters with the contract that the reader
  undoes what the writer does; the identity is assumed
  to be free of collisions where a result depends on it.
- **A whole restore** (`RestoreRun`, `RestoreRunSafety`, `RestoreRunResults`,
  `MissingPacks`, `WholeRestore`, `SharedDestination`, `SecondRun`): spawn loop, workers, drain
  loop, checkpoint batches, pause and cancel as one step relation, then that relation
  together with the disk its workers write, by destination, and two such runs one
  after the other. Names of tasks are distinct, as those of a well-named tree are;
  their destinations need not be.
- **Destinations** (`Destinations`, `TreeDestinations`): where a path lands below the
  chosen folder, and what that means for the files of a tree.
- **The session** (`Supervisor`): restore task, progress task, supervisor and user
  commands over one shared session, for any number of restores.
- **Selection** (`TreeSelection`, `PathFilter`): the rules of the tree on
  arbitrary strings and sets, and those of the restore with their normalisation.
- **The tree** (`TreeFlatten`): both traversals against one reference, walking by names.
- **Smaller parts** (`RollingLog`, `TokenBucket` over reals, `FormEncoding`,
  `RecentList`). `Basics` holds the shared types.

Where the source updates fields or runs a loop, the model has a class or a method
proved against a function; the theorems are about that function.

## Where the code is weaker than its comments

Each of these has an exact condition, and most a concrete example beside it.

- The sanitising step promises a folder for each drive and so no collisions, but the
  drive letter is dropped before it (`Destinations.DrivesAreFolders`, `DriveIsDropped`): a snapshot of two drives restores both files of
  one path to one place, and reports success (`SharedDestination.TwoDrivesOneFile`;
  `CompletedRightIff` and `SuccessRightIff` say for which plans nothing is lost, and
  `TreeDestinations.TreeRestoreIsRightIff` for which trees).
- An interrupted restore is meant to be resumed, but the app never overwrites: a file
  that was left in part is passed over, and the second run reports success
  (`SecondRun.PartialIsKept`, `SecondSuccessIsRightIff`, `PassingOverIsSafeIff`).
- The supervisor reports a panic only if it came before the task wrote its status: a
  later one stays behind that status, be it "complete"
  (`Supervisor.PanicBehindSuccess`, `StatusIsVerdict`).
- `repair_pack` with no erasure returns its input: a pack that lost only trailing
  zeros stays short (`RepairTheorems.LostTrailingZero`, `RepairedIffRepairable`).
- A pack cut off before a chunk's end fails at the range request, before any repair,
  where the backend refuses such ranges (`RepairExamples.CutOffIsLost`,
  `ChunkFetch.DamagedChunkReadsIff`).
- The parity is not reached by the workers of a full restore
  (`RepairExamples.WorkerFailsOnRepairable`, `RestoreFile.WorkerNeverRepairs`).
- A cache waiter can miss its notification (`SingleFlight.LostWakeup`, `WokenIff`).
- The unpaused cancelled exit saves the checkpoint without the flush
  (`RestoreRunResults.SavedBeforeFlush`, `SavesAreFlushedIff`); the flushes in the
  spawn loop never happen.
- A worker that panics, or ends as cancelled because the channel lost its sender, does not keep a
  run from reporting success (`RestoreRunResults.PanicIsSwallowed`, `LostSenderIsSwallowed`, `SuccessIff`).
- Nothing prevents a start while a restore runs or awaits its supervisor
  (`Supervisor.OverlapLosesControl`, `LateSupervisorEndsTheNext`, `StartIsSafeIff`).
- Dense and sparse writes differ as soon as the chunks leave a gap (`RestoreFile.DenseIsSparseIff`).
- A log with `keep` zero still keeps one archive, and archives beyond a limit that was
  lowered stay (`RollingLog.ZeroKeepsOne`, `BeyondTheLimitStays`).
- The throttle's rate only holds while the backlog is at most two seconds
  (`TokenBucket.BacklogBreaksTheRate`, `RateHoldsIff`).
- The restore's filter and the tree differ on rules with a trailing separator and
  on an empty selection (`PathFilter.TrailingSeparatorDiffers`, `CoveringsAgreeIff`, `TreeAgreesIff`).

## Model

| member | source | states |
|---|---|---|
| `PackCache.BoundedPackCache.constructor` | crates/bkp-restore/src/lib.rs:2041-2048 | a new cache is empty, valid and ordered by the empty access log |
| `PackCache.BoundedPackCache.Get` | crates/bkp-restore/src/lib.rs:2050-2061 | answers what is stored under the key; a ready hit becomes the most recently used, nothing else changes |
| `PackCache.BoundedPackCache.InsertPending` | crates/bkp-restore/src/lib.rs:2063-2065 | overwrites the slot with a pending one; the cache stays sound exactly when the key held no ready pack |
| `PackCache.PendingIsValidIff` | crates/bkp-restore/src/lib.rs:2063-2065 | installing a pending slot keeps the cache valid exactly when the key holds no ready pack: the method alone is not safe, its one call site is |
| `PackCache.BoundedPackCache.InsertReady` | crates/bkp-restore/src/lib.rs:2067-2085 | evicts the fewest least recently used packs that make room, replaces the slot by the ready pack, keeps the byte count and the recency order |
| `PackCache.InsertsUnique` | crates/bkp-restore/src/lib.rs:2067-2085 | the number of evictions and the resulting cache are determined by the cache, the key and the size |
| `PackCache.VictimsAreOldest` | crates/bkp-restore/src/lib.rs:2076-2081 | every evicted pack was used before every pack that stays, by the log of all accesses |
| `PackCache.InsertsKeepsPending` | crates/bkp-restore/src/lib.rs:2067-2085 | no other worker's pending slot is evicted or changed |
| `PackCache.BoundedPackCache.Remove` | crates/bkp-restore/src/lib.rs:2087-2092 | drops the slot, whichever it is, and its bytes from the count |
| `SingleFlight.StepInv` | crates/bkp-restore/src/lib.rs:2223-2274 | every step of every worker keeps the joint invariant of cache, owners, stored bytes and counters |
| `SingleFlight.SingleDownloader` | crates/bkp-restore/src/lib.rs:2231-2247 | in every reachable state a path has a pending slot exactly while one worker downloads it, and never two |
| `SingleFlight.AnswersAreStoredBytes` | crates/bkp-restore/src/lib.rs:2248-2255 | every cached pack and every successful answer is that path's stored bytes |
| `SingleFlight.DownloadsConserved` | crates/bkp-restore/src/lib.rs:2243-2252 | packs downloaded equals cached plus evicted, in total and pack by pack; packs in flight counts the fetching workers |
| `SingleFlight.BudgetHeld` | crates/bkp-restore/src/lib.rs:2067-2085 | ready bytes stay within the budget unless a single pack is cached, and the list of recency names each ready pack once |
| `SingleFlight.EvictionTakesOldest` | crates/bkp-restore/src/lib.rs:2076-2081 | at every commit of every run the victims are the least recently accessed packs |
| `SingleFlight.WokenIff` | crates/bkp-restore/src/lib.rs:2255-2271 | a registered waiter can move again in some continuation exactly when a worker still owns its ticket |
| `SingleFlight.LostWakeup` | crates/bkp-restore/src/lib.rs:2234-2271 | a reachable state where a waiter registered after its notification and can never move: waking every waiter is not guaranteed |
| `CacheAnswers.RequestAnswered` | crates/bkp-restore/src/lib.rs:2231-2274 | over every run: a request that downloaded is given exactly what its own download returned; every other one, served at once or after waiting, is given the stored bytes and never fails |
| `CacheAnswers.HitAnswers` | crates/bkp-restore/src/lib.rs:2231-2235 | a lookup of a cached pack ends the request with its stored bytes and downloads nothing |
| `CacheAnswers.WokenFindsThePack` | crates/bkp-restore/src/lib.rs:2255-2271 | when the download a worker waits for is committed, that worker looks its own pack up again and the pack is there |
| `CacheAnswers.DownloadsAreCommits` | crates/bkp-restore/src/lib.rs:2243-2252 | over every run the download counter is the number of successful downloads that were committed |
| `PackObject.PlanSpans` | crates/bkp-restore/src/lib.rs:2176-2182 | the spans tile [0, total) in order, non-empty, at most 16 MiB each, as many as the rounded-up quotient |
| `PackObject.DownloadPackResilient` | crates/bkp-restore/src/lib.rs:2118-2221 | succeeds exactly when each request it makes is served, and then with exactly the stored object, whichever way it fetched |
| `PackObject.RangesAgreeWithWholeRead` | crates/bkp-restore/src/lib.rs:563-593 | the two-range index read yields the index of the whole-pack reader, which also checks the header; it refuses an empty footer and packs under 30 bytes |
| `PackObject.BuildPackMap` | crates/bkp-restore/src/lib.rs:551-611 | a failed listing is an error; otherwise a chunk is located exactly when some readable pack object of the listing indexes it, and where the last such entry says; other names and unreadable packs are skipped |
| `PackWriter.LittleEndianRoundTrip` | crates/bkp-chunker/src/pack.rs:135-146 | a number reads back from its base-256 digits, least significant first |
| `PackWriter.WrittenIndexReads` | crates/bkp-chunker/src/pack.rs:61-112 | the whole-pack reader and the two-range reader both find the written index and id in a pack laid out as documented |
| `PackWriter.WrittenChunkSlices` | crates/bkp-chunker/src/pack.rs:116-129 | each entry of a written pack points at its chunk, whichever of the three ways cuts it out |
| `PackWriter.ArchiveLocated` | crates/bkp-restore/src/lib.rs:551-611 | from a store of written packs the map locates exactly the packed chunks, each at a place that holds it |
| `Parity.SplitDataShards` | crates/bkp-chunker/src/parity.rs:71-83 | cuts the pack into k zero-padded shards: shard j is the window of the padded pack at j times the size |
| `Parity.FlattenShards` | crates/bkp-chunker/src/parity.rs:71-83 | the shards side by side are the zero-padded pack |
| `Parity.ParsePar` | crates/bkp-chunker/src/parity.rs:95-158 | accepts exactly the objects whose magic, version, header checksum, pack id, geometry and length check out, and reads every field off its place |
| `Parity.BigEndianRoundTrip` | crates/bkp-chunker/src/parity.rs:95-158 | a number that fits its width reads back from its big-endian bytes |
| `Parity.RepairPack` | crates/bkp-chunker/src/parity.rs:169-227 | answers the repair as defined on the two stored objects: unchanged without erasures, refused beyond the budget, else rebuilt, joined and cut to the recorded length |
| `RepairTheorems.HeaderReadsBack` | crates/bkp-chunker/src/parity.rs:95-135 | an object that starts with the writer's header is accepted with the writer's geometry |
| `RepairTheorems.AcceptedIff` | crates/bkp-chunker/src/parity.rs:95-158 | under a checksum that tells changed headers, exactly the writer's very header is accepted, under the id of its own pack and no other |
| `RepairTheorems.AsWritten` | crates/bkp-chunker/src/parity.rs:242-276 | the writer's whole object reads back: header kept, every table entry and every parity shard |
| `RepairTheorems.RepairRoundTrip` | crates/bkp-chunker/src/parity.rs:169-227 | with d erasures, whatever else changed in pack, length, table or parity: none returns the input, up to m returns the original pack byte for byte with d reported, more is refused |
| `RepairTheorems.RepairedIffRepairable` | crates/bkp-chunker/src/parity.rs:200-227 | the answer is the original pack exactly when 1 <= d <= m, or d is 0 and the length is right; with no erasure the input agrees on the whole padded grid |
| `RepairTheorems.ChangedShardsAreUndone` | crates/bkp-chunker/src/parity.rs:169-227 | with an intact table and a checksum that tells changed shards, the erasures are the changed shards and up to m of them are undone |
| `RepairTheorems.OneShardIsUndone` | crates/bkp-chunker/src/parity.rs:169-227 | one damaged data shard, whatever its bytes, with the writer's intact object: the original pack comes back with one erasure reported |
| `RepairTheorems.LostTrailingZero` | crates/bkp-chunker/src/parity.rs:200-206 | a pack that lost a trailing zero byte shows no erasure and is returned still shortened |
| `RepairTheorems.LibraryRepairs` | crates/bkp-chunker/src/parity.rs:209-227 | the repair with the concrete Reed-Solomon code: nothing about the codec is assumed |
| `ReedSolomon.LibraryIsErasureCode` | crates/bkp-chunker/src/parity.rs:209-214 | a systematic code over the 256-element field recovers every code word from any k of its shards: the contract assumed of the library is met |
| `ReedSolomon.AnyShardsDetermine` | crates/bkp-chunker/src/parity.rs:209-214 | two code words that agree on k shards are the same |
| `Interpolation.Uniqueness` | crates/bkp-chunker/src/parity.rs:209-214 | two polynomials below a degree that agree on as many points agree everywhere |
| `GF256.InverseLaw` | crates/bkp-chunker/src/parity.rs:209-214 | every non-zero element has an inverse in the field of 256 elements with the polynomial 0x11d |
| `PackPath.SiblingIff` | crates/bkp-restore/src/lib.rs:2714-2728 | a path has a parity sibling and a pack id exactly when it is a directory prefix, a UUID and ".pack"; the sibling differs in the suffix only |
| `ChunkFetch.SealedDecodes` | crates/bkp-restore/src/lib.rs:3299-3334 | every plaintext comes back from the chunk the writer compressed and sealed, under any nonce |
| `ChunkFetch.DamagedChunkReadsIff` | crates/bkp-restore/src/lib.rs:2745-2837 | with at most m shards erased, a chunk as written into a damaged pack is read back exactly when storage serves its range and the range lies inside the stored object or some shard shows as erased, for each way a backend treats ranges past the end |
| `RepairExamples.CutOffIsLost` | crates/bkp-restore/src/lib.rs:2745-2837 | a pack short of its last byte: the repair reads the chunk, and the fetch does so where ranges are served short, but fails before the repair where they are refused |
| `ChunkFetch.BeyondTheBudget` | crates/bkp-restore/src/lib.rs:2745-2837 | with more erasures the fetch answers exactly as decoding the stored bytes does |
| `Reconstruct.WriteChunkMaybeSparse` | crates/bkp-restore/src/lib.rs:2424-2442 | dense: writes at the cursor; sparse: skips a non-empty all-zero chunk, else seeks and writes, the gap past the end zero-filled |
| `Reconstruct.SortFindsTiling` | crates/bkp-restore/src/lib.rs:2510-2511 | sorting any ordering of refs that tile a file gives the tiling |
| `RestoreFile.WriteFile` | crates/bkp-restore/src/lib.rs:2486-2677 | the file loop: sorted refs, for each chunk the shared set of missing packs looked up anew, one read and one write, the final resize when sparse, removal after any error |
| `RestoreFile.OutputIndependence` | crates/bkp-restore/src/lib.rs:2510-2677 | whatever the sparse flag, listing order, route of each chunk, whole-pack set, packs found missing by others meanwhile, damage, cancellation or failure: the concatenation of the recorded plaintexts, or after an error no file |
| `RestoreFile.FileRestoredIff` | crates/bkp-restore/src/lib.rs:2510-2662 | a file is restored exactly when it can be created and flushed, nothing befalls a chunk, and each chunk can be read when its turn comes, from a pack that no worker has found missing by then; and then with its recorded content |
| `RestoreFile.FailsWithIff` | crates/bkp-restore/src/lib.rs:2531-2662 | a file fails with an error exactly when that is the first thing to go wrong among its chunks |
| `RestoreFile.ErrorsMean` | crates/bkp-restore/src/lib.rs:2531-2646 | cancelled, left out, not reachable and not there are each reported exactly when they are the case |
| `RestoreFile.OwnObjectReadsIff` | crates/bkp-restore/src/lib.rs:2619-2646 | a chunk stored as its own object is read exactly when the object can be had |
| `RestoreFile.SoFarIsPrefix` | crates/bkp-restore/src/lib.rs:2531-2651 | after any number of its chunks, dense or sparse, what is on disk of a file is a beginning of its recorded content |
| `RestoreFile.WholeReadsIrrelevant` | crates/bkp-restore/src/lib.rs:2557-2625 | with every chunk inside its pack, which packs are read whole changes neither the error, nor the file, nor what is recorded as missing |
| `RestoreFile.CacheIsTransparent` | crates/bkp-restore/src/lib.rs:2557-2594 | a pack answered by the shared cache in any reachable state of any interleaving and capacity yields the chunk exactly when it lies inside the stored object and a range of that object yields it, and then the same bytes |
| `RestoreFile.DenseIsSparseIff` | crates/bkp-restore/src/lib.rs:2424-2442 | for refs in order without overlap, the dense and the sparse file are equal exactly when the refs leave no gap |
| `RestoreFile.MissingAreAbsent` | crates/bkp-restore/src/lib.rs:2547-2578 | only packs that storage does not hold are recorded as missing, by this worker as by the others, so a skip is always justified where absence is recognised |
| `RestoreFile.MissingIsRecorded` | crates/bkp-restore/src/lib.rs:2566-2578 | a worker that fails on an absent pack has recorded it for the others |
| `RestoreFile.WorkerNeverRepairs` | crates/bkp-restore/src/lib.rs:2545-2646 | with at most m shards of its pack erased, a chunk inside the stored object always comes back from the single-file restore, and from a worker exactly when the very bytes stored for it still decode |
| `RepairExamples.WorkerFailsOnRepairable` | crates/bkp-restore/src/lib.rs:2545-2646 | one byte changed in place: the single-file restore repairs it, a worker reports an error |
| `Archive.PackedChunkReads` | crates/bkp-restore/src/lib.rs:551-611 | every chunk of an intact archive is located by the map and read with its plaintext by the ranged fetch, the whole pack and the pack's own index |
| `Archive.ArchiveRestores` | crates/bkp-restore/src/lib.rs:2510-2677 | from an intact archive each file whose chunks were written is restored with exactly its content, by a worker or alone, sparse or dense, in any order of its chunks |
| `RestoreRun.Reclassify` | crates/bkp-restore/src/lib.rs:1832-1850 | each error that mentions a missing pack becomes one more skip, the others stay in order; their sum is preserved |
| `MissingPacks.MentionsIff` | crates/bkp-restore/src/lib.rs:1840-1846 | an error mentions a pack exactly when the pack's name stands somewhere in its message |
| `MissingPacks.FailsIff` | crates/bkp-restore/src/lib.rs:1832-1913 | a run that was not cancelled fails, keeping the checkpoint, exactly when a worker failed for another reason than a missing pack, and with exactly those errors; else it clears the checkpoint and counts each failed or skipped file as skipped |
| `MissingPacks.MissingPackRun` | crates/bkp-restore/src/lib.rs:1832-1913 | the run of one file whose pack is missing: one skip, whatever the backend writes around the name |
| `MissingPacks.AbsentPackIsSkipped` | crates/bkp-restore/src/lib.rs:2547-2578 | a file that fails because its pack is not there is a skip by its own error or names a pack that was recorded as missing |
| `RestoreRunSafety.StepInv` | crates/bkp-restore/src/lib.rs:1442-1735 | every step of spawn loop, workers, drain loop and user keeps the invariant of counters, tallies, completed names, statuses, phases and checkpoint |
| `RestoreRunResults.ProgressConserved` | crates/bkp-restore/src/lib.rs:1591-1603 | in every reachable state, done plus not yet counted equals the total, for files and bytes |
| `RestoreRunResults.AccountingBalances` | crates/bkp-restore/src/lib.rs:1649-1913 | an undisturbed run ends with both counters at their totals and every spawned file in exactly one of completed, errors, skipped |
| `RestoreRunResults.SuccessIff` | crates/bkp-restore/src/lib.rs:1869-1913 | success is reported exactly when each spawned worker finished, panicked or ended as cancelled; the checkpoint is cleared exactly unless file errors remain, skips alone clearing it too |
| `RestoreRunResults.UndisturbedSuccessIff` | crates/bkp-restore/src/lib.rs:1869-1913 | undisturbed, success is reported exactly when every spawned file was written |
| `RestoreRunResults.ReportedErrors` | crates/bkp-restore/src/lib.rs:1832-1913 | a reported error is that of a joined worker and names no missing pack |
| `RestoreRunResults.PanicIsSwallowed` | crates/bkp-restore/src/lib.rs:1726-1727 | a reachable run that reports success and clears the checkpoint although its only worker panicked |
| `RestoreRunResults.LostSenderIsSwallowed` | crates/bkp-restore/src/lib.rs:1714-1714 | the same for a worker that ends as cancelled because the channel lost its sender, with no cancellation asked for |
| `RestoreRunResults.CheckpointDiscipline` | crates/bkp-restore/src/lib.rs:1649-1735 | saved and pending names are the completed ones without overlap, the batch stays below 100, only flushed or carried-over names are saved, nothing is pending while tasks are spawned |
| `RestoreRunResults.CompletedAreWritten` | crates/bkp-restore/src/lib.rs:1684-1696 | a name is completed exactly when it was carried over or its worker was joined as done |
| `RestoreRunResults.SavesAreFlushedIff` | crates/bkp-restore/src/lib.rs:1650-1660 | a step saves names whose files were not flushed exactly when it is the unpaused cancelled exit with names pending |
| `RestoreRunResults.SavedBeforeFlush` | crates/bkp-restore/src/lib.rs:1650-1660 | a reachable cancelled run whose checkpoint lists a file that was never flushed |
| `RestoreRunResults.FlushedInHundreds` | crates/bkp-restore/src/lib.rs:1697-1712 | before the end of a run every flushed name belongs to a full batch of a hundred |
| `RestoreRunResults.EndForgetsNothing` | crates/bkp-restore/src/lib.rs:1442-1735 | whichever way a run leaves, the checkpoint last written stands for every completed name, and it is only written for new ones |
| `RestoreRunResults.ClearedIff` | crates/bkp-restore/src/lib.rs:1869-1913 | the checkpoint is cleared exactly by a run that ended neither cancelled nor failed |
| `RestoreRunResults.VerifyOnResume` | crates/bkp-restore/src/lib.rs:1103-1146 | a loaded name is kept exactly when each task of that name has no destination or an existing regular file of the recorded size |
| `RestoreRunResults.PassedOverIsPresent` | crates/bkp-restore/src/lib.rs:1490-1504 | with the kept names, a task is passed over only when it is trusted, and every distrusted one is spawned |
| `RestoreRunResults.PauseHolds` | crates/bkp-restore/src/lib.rs:1459-1479 | after a pause the run starts no task and takes no result until it is resumed or cancelled |
| `RestoreRunResults.ResumeGoesOn` | crates/bkp-restore/src/lib.rs:1459-1479 | after a resumption the gate of either loop moves one task on |
| `RestoreRunResults.CancelStops` | crates/bkp-restore/src/lib.rs:1442-1458 | after a cancellation is in before a loop's check, nothing is started or taken any more, and the run ends as cancelled unless nothing was left |
| `WholeRestore.CompletedFilesAreRight` | crates/bkp-restore/src/lib.rs:1684-1712 | with destinations of their own, each completed file is on disk with exactly its recorded content, in every state of every run |
| `WholeRestore.SuccessIsRight` | crates/bkp-restore/src/lib.rs:1442-1913 | where files share destinations with equal files at most, an undisturbed run that reports success has left every file that it did not pass over with its recorded content |
| `SharedDestination.CompletedRightIff` | crates/bkp-restore/src/lib.rs:1684-1712 | for any restorable plan: completed files are right in every state of every run exactly when no file shares its destination with another task |
| `SharedDestination.SuccessRightIff` | crates/bkp-restore/src/lib.rs:1442-1913 | for any restorable plan: successful runs lose nothing exactly when no file shares its destination with a link or with different content |
| `SharedDestination.TwoDrivesOneFile` | crates/bkp-restore/src/lib.rs:3009-3018 | the same path on two drives with different content: a run that reports success with both files restored, and the first one is gone |
| `Destinations.KeptIffPlain` | crates/bkp-restore/src/lib.rs:3144-3176 | every destination below the chosen folder is relative, with neither colon nor backslash; and a path keeps its name exactly when it is such a path |
| `Destinations.SanitizedMeetIff` | crates/bkp-restore/src/lib.rs:3144-3176 | without a drive or a leading separator, two paths are sanitised alike exactly when they differ in separators, or in colons against underscores, only |
| `Destinations.DrivesAreFolders` | crates/bkp-restore/src/lib.rs:3144-3176 | by itself the sanitising step makes each drive, in either case, the folder of its letter, and so keeps drives apart |
| `Destinations.StaysBelowIff` | crates/bkp-restore/src/lib.rs:3144-3176 | following the components of a path from a folder stays at or below it all the way exactly when they never go up from the folder itself |
| `TreeDestinations.FileDestination` | crates/bkp-restore/src/lib.rs:3009-3018 | a file of the tree lands below the chosen folder under the very names that lead to it, but for the drive, and the way there stays below the folder exactly when those names never go up from it |
| `TreeDestinations.ApartIff` | crates/bkp-restore/src/lib.rs:3084-3120 | for names that are plain, behind a drive or not: destinations are apart exactly when no file has the path of another task but for the drive |
| `TreeDestinations.TreeRestoreIsRightIff` | crates/bkp-restore/src/lib.rs:1039-1081 | for the files of a snapshot's tree below one folder: completed files are right in every state of every run exactly when no file has the path of another task but for the drive, as on one volume |
| `SecondRun.SecondSuccessIsRightIff` | crates/bkp-restore/src/lib.rs:3184-3189 | a first run that stopped anywhere, then a successful second one that overwrites nothing: all files are right exactly when each file that the first run left had its recorded size |
| `SecondRun.PassingOverIsSafeIff` | crates/bkp-restore/src/lib.rs:1490-1504 | over every way the first run can stop, all successful second runs leave all files right exactly when no file has content |
| `SecondRun.PartialIsKept` | crates/bkp-restore/src/lib.rs:1442-1457 | a cancellation while files are spawned: one file just created stays empty, the next run passes it over and reports success |
| `Supervisor.StatusIsVerdict` | crates/bkp-recover/src/commands.rs:1083-1273 | one restore at a time: the status is terminal exactly when the task is over and, after a panic that came before it wrote one, supervised; status and detail are those of how the task ended; exactly such a panic is reported as one; the view is never gone and shows the pause |
| `Supervisor.TerminalOnceSupervised` | crates/bkp-recover/src/commands.rs:1242-1273 | in any run, restores overlapping or not: once the supervisor has seen a task gone, the status is terminal and the senders are gone until the next start |
| `Supervisor.PanicBehindSuccess` | crates/bkp-recover/src/commands.rs:1207-1214 | a reachable state where the task panicked, was supervised, and the status still says complete |
| `Supervisor.TerminalIsFinal` | crates/bkp-recover/src/commands.rs:1117-1273 | one restore at a time: the very terminal status and detail stay until the next start |
| `Supervisor.CancelReachesTheRestore` | crates/bkp-recover/src/commands.rs:1567-1605 | one restore at a time: while its task lives, a cancellation reaches it and lifts its pause, and it pauses only when the session says so |
| `Supervisor.PauseReachesTheRestore` | crates/bkp-recover/src/commands.rs:1567-1591 | one restore at a time: pause and resume reach the live restore and are shown |
| `Supervisor.ProgressEndsForGood` | crates/bkp-recover/src/commands.rs:1131-1165 | the progress task of a restore, once ended, writes no more, whatever follows |
| `Supervisor.ProgressShows` | crates/bkp-recover/src/commands.rs:1131-1143 | one restore at a time: progress moves the counters of the view and nothing else |
| `Supervisor.StartIsSafeIff` | crates/bkp-recover/src/commands.rs:1026-1054 | right after a start every live restore is in control of the session exactly when none was live before; and that stays so, whatever follows before the next start, exactly when all earlier ones were over and supervised |
| `Supervisor.OverlapLosesControl` | crates/bkp-recover/src/commands.rs:1026-1054 | a second start while a restore runs leads to a view that says complete with a live restore that no cancellation reaches |
| `Supervisor.LateSupervisorEndsTheNext` | crates/bkp-recover/src/commands.rs:1242-1273 | a start between the end of a restore and its supervisor: the supervisor then reports the new, running restore as failed and drops its senders |
| `TreeSelection.RuleFor` | crates/bkp-recover/ui/src/lib/treeSelection.ts:57-77 | the two loops find the longest covering rule, the exclusion on a tie, whatever the order of the sets |
| `TreeSelection.CoversFormChain` | crates/bkp-recover/ui/src/lib/treeSelection.ts:37-47 | of two rules covering one path the shorter covers the longer, and equally long ones are the same |
| `TreeSelection.ToggleRule` | crates/bkp-recover/ui/src/lib/treeSelection.ts:151-176 | computes the toggled rules: rules at or under the path dropped, one added only against what is inherited |
| `TreeSelection.ToggleEffect` | crates/bkp-recover/ui/src/lib/treeSelection.ts:151-176 | a toggle flips the path, gives every path at or under it that new state, and leaves every other path alone |
| `TreeSelection.ToggleKeepsCanonical` | crates/bkp-recover/ui/src/lib/treeSelection.ts:151-176 | a toggle keeps the sets disjoint and every rule different from what its path inherits |
| `TreeSelection.CanonicalIsLeast` | crates/bkp-recover/ui/src/lib/treeSelection.ts:129-141 | a canonical rule set is contained in every rule set with the same effective selection |
| `TreeSelection.CanonicalIsUnique` | crates/bkp-recover/ui/src/lib/treeSelection.ts:129-141 | two canonical rule sets with the same effective selection are the same pair of sets |
| `TreeSelection.ReachedIffCanonical` | crates/bkp-recover/ui/src/lib/treeSelection.ts:151-176 | the rule sets that clicks from nothing can produce are exactly the canonical ones |
| `TreeSelection.DoubleToggle` | crates/bkp-recover/ui/src/lib/treeSelection.ts:151-176 | a second toggle of a path restores the rules exactly when the first one dropped none beneath it |
| `TreeSelection.TriStateExactIff` | crates/bkp-recover/ui/src/lib/treeSelection.ts:102-119 | for a covered directory, the exact condition under which the painted tri-state is what is true of all paths at or under it; it always is when no path is in both sets |
| `TreeSelection.TriStateOfListed` | crates/bkp-recover/ui/src/lib/treeSelection.ts:121-126 | for an uncovered directory the tri-state is what is true of the listed paths |
| `TreeSelection.FileTick` | crates/bkp-recover/ui/src/lib/treeSelection.ts:102-119 | a file is ticked exactly when it is included and never partial; an uncovered directory with nothing listed is unticked |
| `TreeSelection.ClickPaints` | crates/bkp-recover/ui/src/lib/treeSelection.ts:151-176 | a click fully ticks a row whose path was not included and clears one whose path was, file or directory |
| `PathFilter.PathSelected` | crates/bkp-restore/src/lib.rs:3450-3475 | the two passes decide by the longest covering rule, exclusion on a tie, and without a rule by whether there are selections at all |
| `PathFilter.OrderIrrelevant` | crates/bkp-restore/src/lib.rs:3450-3475 | only which rules there are matters, not their order or repetition |
| `PathFilter.WindowsPathsAlike` | crates/bkp-restore/src/lib.rs:3427-3435 | paths and rules written with backslashes, or with a leading separator, are filtered as with slashes |
| `PathFilter.DirSelected` | crates/bkp-restore/src/lib.rs:3483-3492 | a directory is kept when a selection lies beneath it or the path rules keep it |
| `PathFilter.AncestorsKept` | crates/bkp-restore/src/lib.rs:3483-3492 | every directory above a kept file is kept |
| `PathFilter.TreeAgreesIff` | crates/bkp-recover/ui/src/lib/treeSelection.ts:57-77 | on a clean path, with normalised rules that do not end in a separator, the restore's filter and the tree agree exactly when something is selected or an exclusion covers the path |
| `PathFilter.CoveringsAgreeIff` | crates/bkp-recover/ui/src/lib/treeSelection.ts:37-47 | a normalised rule covers the same clean paths in both exactly when it does not end in a separator |
| `PathFilter.TrailingSeparatorDiffers` | crates/bkp-recover/ui/src/lib/treeSelection.ts:39-40 | a rule with a trailing separator covers what lies beneath in the tree only |
| `TreeFlatten.ContentChunksTile` | crates/bkp-restore/src/lib.rs:3383-3389 | dropping phantom chunks leaves a tiling of the same bytes, and none for an empty file |
| `TreeFlatten.ContentChunksKeep` | crates/bkp-restore/src/lib.rs:3383-3389 | exactly the chunks with bytes are kept, each as it was and as often |
| `TreeFlatten.CollectFiles` | crates/bkp-restore/src/lib.rs:3391-3420 | appends the files of the node to the caller's list, children in order |
| `TreeFlatten.CollectFileEntries` | crates/bkp-restore/src/lib.rs:3494-3541 | appends the browser entries of the node, a directory before its children, the unnamed root left out |
| `TreeFlatten.FilesAreTheTree` | crates/bkp-restore/src/lib.rs:3391-3420 | with distinct proper sibling names, exactly the file and symlink nodes with an entry are collected, each with its chunks, time, mode and link target, under the names that lead to it, on pairwise distinct paths |
| `TreeFlatten.FilesAreBrowsable` | crates/bkp-restore/src/lib.rs:3494-3541 | each collected file is listed for the browser under the same path, with all its ancestor directories |
| `TreeFlatten.EntriesAreTheTree` | crates/bkp-restore/src/lib.rs:3494-3541 | the browser's list is exactly the nodes that names reach, one node per path |
| `RollingLog.SizeRollingAppender.Rotate` | crates/bkp-log/src/lib.rs:62-102 | cycles the slots downwards, archives the live file as slot 1 and empties it |
| `RollingLog.SizeRollingAppender.Write` | crates/bkp-log/src/lib.rs:106-116 | rotates first at the threshold, then appends what the file accepts; after a failed rotation the live file just grows |
| `RollingLog.NothingLost` | crates/bkp-log/src/lib.rs:62-116 | over every run, failed rotations included and from any earlier generations, the generations rotated out and the live file are every byte ever written, in order |
| `RollingLog.RotationHolds` | crates/bkp-log/src/lib.rs:71-95 | a rotation keeps the slots contiguous and holding the newest generations, forgetting at most the oldest |
| `RollingLog.DiskIsSuffix` | crates/bkp-log/src/lib.rs:62-116 | without failed rotations, from any state a run may have left: the oldest archive to slot 1 and the live file are a suffix of all bytes written, in min(generations, retention) slots |
| `RollingLog.RetainsAtLeast` | crates/bkp-log/src/lib.rs:62-116 | without failed rotations, the archives hold at least min(generations, retention) times the threshold of the newest bytes |
| `RollingLog.ZeroKeepsOne` | crates/bkp-log/src/lib.rs:43-45 | archives beyond the configured number are gone exactly when that number is positive: zero still keeps one |
| `RollingLog.BeyondTheLimitStays` | crates/bkp-log/src/lib.rs:71-81 | a rotation deletes no archive beyond the limit, so those left by a run with a higher limit stay |
| `TokenBucket.Bucket.Consume` | crates/bkp-storage/src/rate_limited.rs:52-73 | reserves the slot and sleeps until it starts, never more than two seconds; an unlimited rate or an empty transfer does nothing |
| `TokenBucket.RateHoldsIff` | crates/bkp-storage/src/rate_limited.rs:52-73 | over every window of a run the bytes whose slots start in it are at most rate times window plus one transfer, exactly when no transfer but the first found more than two seconds of backlog |
| `TokenBucket.WindowBound` | crates/bkp-storage/src/rate_limited.rs:52-73 | the bound for any span at least as long as the window, from the backlogs in that window alone |
| `TokenBucket.NoWaitIff` | crates/bkp-storage/src/rate_limited.rs:52-73 | over a run every transfer starts the moment it is asked for exactly when each is asked for after the slot before |
| `TokenBucket.BacklogBreaksTheRate` | crates/bkp-storage/src/rate_limited.rs:61-64 | two transfers asked for at one moment exceed the rate once the first takes more than two seconds |
| `FormEncoding.UrlEncode` | crates/bkp-oauth/src/lib.rs:81-92 | the loop computes the encoding |
| `FormEncoding.FormUrlDecode` | crates/bkp-oauth/src/lib.rs:106-137 | the loop computes the decoding, terminates and never lengthens |
| `FormEncoding.RoundTrip` | crates/bkp-oauth/src/lib.rs:81-138 | decoding undoes encoding on every byte string |
| `FormEncoding.AnySpellingDecodes` | crates/bkp-oauth/src/lib.rs:106-137 | however each byte is spelled, plain, escaped with digits of either case, or a plus sign for a space, the value comes back |
| `FormEncoding.EncodeUnchangedIff` | crates/bkp-oauth/src/lib.rs:81-92 | encoding leaves a value alone exactly when it is made of unreserved characters, and lengthens every other one |
| `FormEncoding.EncodedIsSafe` | crates/bkp-oauth/src/lib.rs:81-92 | an encoded value holds only unreserved bytes and escapes, at most three bytes for each |
| `FormEncoding.DecodeUnchangedIff` | crates/bkp-oauth/src/lib.rs:106-137 | decoding leaves a value alone exactly when it holds no plus sign and no complete escape |
| `RecentList.Recent.Touch` | crates/bkp-recover/src/recent.rs:106-122 | drops the entry of the same identity, puts the new one first and cuts to five |
| `RecentList.Recent.Remove` | crates/bkp-recover/src/recent.rs:127-132 | drops the identity and says whether it was there |
| `RecentList.FiveMostRecent` | crates/bkp-recover/src/recent.rs:106-132 | after any touches and removals the list is a beginning of the remembered identities, latest first, of at most five; after touches alone exactly the five most recent |
| `RecentList.LatestFirstInOrder` | crates/bkp-recover/src/recent.rs:106-122 | in that reference list an earlier entry has the later last touch |
| `RecentList.LatestFirstContent` | crates/bkp-recover/src/recent.rs:106-132 | it holds one entry for each identity, and exactly those that no later touch or removal undid |

## Left out

- SingleFlight.WokenIff: says when a waiter can move in some continuation; that it does move under a fair scheduler is not modelled, nor are tasks aborted while they own a slot.
- PackObject.DownloadPackResilient: a request is served or fails; the order in which concurrent ranges complete is not modelled, since they are collected in order.
- Parity.ParsePar: the six malformed cases share one error value; their messages are not modelled.
- ChunkFetch.DamagedChunkReadsIff: assumes that no two plaintexts share a keyed identity and that no shorter piece of the sealed chunk decodes; the cipher, the compressor and the HMAC themselves are parameters.
- PackWriter.WrittenIndexReads: the CBOR encoder is a parameter that the decoder undoes; no writer of packs is part of the repository, so its layout is that of the documentation.
- RepairTheorems.RepairRoundTrip: assumes that a shard that passes its stored checksum is the original; the checksum algorithm is a parameter.
- RestoreFile.OutputIndependence: plaintexts have their recorded sizes and offsets are unbounded integers; failure to remove a partial file, mtime, mode and ownership are not modelled.
- RestoreRunSafety.StepInv: a worker's accounting is one step, so the moments between its counter updates are not visible; the semaphore and the progress messages are not modelled.
- RestoreRunResults.SavesAreFlushedIff: flushed means handed to the batch fsync, whose failures the engine ignores; a failing checkpoint write is not modelled.
- RestoreFile.MissingAreAbsent: the source tells an absent pack from another failure by the text of the error; here a failure names a pack as absent exactly when storage does not hold it.
- WholeRestore.SuccessIsRight: destinations are strings, so two spellings of one file, through links or letter case, are not the same place; symbolic links are tasks without modelled content, and the writing of a file takes effect on the disk when its worker ends.
- Destinations.KeptIffPlain: the custom target without source prefixes, as the recovery app uses it, on paths whose first character is ASCII; the other targets, the stripping of prefixes and the new names of the renaming overwrite mode are not modelled.
- SecondRun.SecondSuccessIsRightIff: the first run starts without a checkpoint and with its destinations free; closing the app keeps what was written, a loss of power need not; links that exist are not told from links that do not.
- Supervisor.StatusIsVerdict: counters, file names and message texts of the progress view are reduced to one counter and the kind of detail; the checkpoint files of the app are left out.
- PathFilter.PathSelected: rule lengths count characters, which orders covering rules as byte lengths do.
- TreeFlatten.FilesAreTheTree: paths use '/'; the backslashes of Windows paths, which the callers normalise, are not modelled.
- RollingLog.SizeRollingAppender.Rotate: an archive is the bytes it decompresses to, and a failed rotation is an arbitrary set of archives with the live file unchanged.
- FormEncoding.RoundTrip: on bytes; the final lossy UTF-8 conversion is the identity on what encoding a string gives back.
- `find_file_in_tree`: its answer is not a function of the full path.
- The retry wrapper with its back-off and its classification of error texts: easy members and long case lists.
- Manifests, CBOR, settings, storage backends, OAuth flows, the user interface and build scripts: input and output or library wrappers.
- Machine-integer overflow on corrupt offsets: offsets and sizes are unbounded.
