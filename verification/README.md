# tgfile: a verified model

tgfile stores files as blocks in a remote backend and keeps everything else in SQLite tables. This
project models the parts of it whose correctness depends on many operations agreeing with each
other, and proves what they promise together.

| component | files | what is proved |
|---|---|---|
| block lifetime | `Block{Tables,Steps,Worker,Claims,Invariant,Shapes,MappingProofs,UploadProofs,WorkerProofs,Outcomes,Runs,Rows,Completion,Available,Deletions,Forgotten,Leaks,Exports,Store,Execute}.dfy` | over every interleaving of transactions and delete workers no referenced block is deleted, what goes out of use is condemned or exactly known to be forgotten, a part that left `live` never comes back, and one is marked deleted only after it was claimed and the backend accepted its deletion; what an export lists can be read until it is released; what every transaction leaves of every row, and exactly when it is refused |
| checksum combination | `Crc{Words,Combine,FullObject}.dfy` | the combined CRC is the CRC of the concatenated data |
| directory and journal | `DirectoryTree.dfy`, `DirectoryWalk.dfy`, `Directory.dfy`, `DirectoryTransactions.dfy` | move, copy and remove do to paths what they say, the table stays a tree, the journal tells which paths exist |
| synchronisation | `Sync{Scope,,Misses,Initial}.dfy` | a client that walks a collection and then follows pages agrees with the server up to its token, and exactly when a page misses a change |
| disk cache | `DiskCache{,Runs,Order,Store,Recovery}.dfy` | no file is removed under a reader, each retired file is removed once, eviction takes the least recently used, costs stay within the budget, recovery establishes all of it |
| cache loads | `FileCache{Load,LoadProofs,Progress,Gate}.dfy` | every load can return, and loads return the loader's bytes, one fill per key, Close leaves nothing behind; the counter, the map and the flags of the code follow the state machine this is proved of |
| streams | `BlockLayout.dfy`, `FileStream.dfy`, `StreamTurns.dfy`, `CompositeStream.dfy` | seekable streams over blocks, and over files joined end to end, are slices of the content, and exactly which failures lead them astray |
| backup jobs | `Backup{Jobs,JobProofs,Overturns,Progress,JobStore}.dfy` | every unfinished job can be brought to its end by a restart; an import is published at most once, whatever cancels, crashes, errors and removals of old jobs come, and exactly which errors leave a published one failed or canceled |
| backup archive | `Archive{,Names,Proofs,Contents,RoundTrip,Objects,Code,Builds,Refusals,Meaning}.dfy` | the strict reader accepts exactly the canonical archives whose checksums are true, and exactly which builds it reads back |

How the parts of the program enter the model:

- A table is a finite map, a query a predicate over it, and a transaction one step; a failing
  transaction leaves the tables as they were. Where several goroutines meet (delete workers, the
  caches, the backup workers) each section under a mutex and each database statement or transaction
  is a step, and the theorems are about every sequence of steps.
- Clocks, generated ids, the order of a directory walk, what the backend answers and where a context
  ends are parameters or free choices of a step.
- Words are sequences of bits of any width, so one proof covers the 32-bit and 64-bit instances of the
  CRC code. Hashes, the JSON coding and the tar and gzip layer are functions given as parameters; where a fingerprint, a cache
  key or a content digest stands for what it digests, the model uses the digested value itself.
- Code that updates fields or loops is a class or a method proved against a function, and the functions
  carry the theorems.
- Paths are the component sequences of clean absolute paths; the root is the empty sequence.

A *good step* below is a transaction after which the tables are sound (ready files have all their
parts, mapped files are ready, segments and pins reach existing files), referenced files have only
`live` parts, no part moved backwards, and no part stayed `live` whose file lost its last reference.

Seven places where the code does not do what one might expect are stated with their exact extent and an
example:

- Releasing export pins leaves parts `live` that nothing refers to, exactly when the released pins were
  the last references (`BlockWorkerProofs.ReleaseLeaksExactly`); `BlockLeaks.ReleaseCanLeak` gives a run
  from the empty tables that ends so. Over every run, a part of a file that was referenced and is not any
  more is still `live` exactly if such a release took its last references and nothing has discarded the
  file since (`BlockForgotten.ForgottenExactly`).
- Recovery of the disk cache depends on the order of the walk exactly when a key has two files of its
  greatest generation (`DiskCacheRecovery.WinnersIndependentOfOrder`, example in `OrderCanMatter`). The
  order is a free choice of the model. `filepath.WalkDir` walks by name, so the program picks the same
  winner from the same directory each time; which file that is, the names decide.
- A backend read that fails and brings bytes leaves the reader of a block stream ahead of its cursor
  (`FileStreams.InStepAfter`, `StreamTurns.AheadExactly`). A composite stream over it counts those bytes,
  and delivers other bytes than those at its offset exactly if such a reader was then dropped with the
  last bytes of its block and no turn since gave nothing on a block boundary
  (`StreamTurns.AstrayExactly`, example in `StreamTurns.CanGoAstray`); every `Read` extends the trace this
  is said of. Failures that bring no bytes do no harm (`StreamTurns.NeverAstray`), and a seek puts either
  stream in step again.
- A synchronisation can miss a change: the query for changed paths takes the letters of ASCII for equal in
  both cases (LIKE), and measures the root in bytes where it counts characters, so it selects paths out of
  scope, which are dropped only after the query was cut off at its limit. A page is complete up to its token
  exactly unless the query was cut off, a row of it is out of scope, and a change in scope comes after its
  rows and not after the token (`Sync.PageExactly`, `Sync.MissedChange`, example in `SyncMisses.CanMiss`).
  Nothing is missed if the root has ASCII characters only and no changed path lies below a path that differs
  from it in case (`SyncMisses.OneCaseMissesNothing`).
- The builder checks less than the reader, so it writes archives that a reader with the same limits
  refuses. Under a part limit that can be configured the reasons are exactly four
  (`ArchiveBuilds.ConfiguredReadsBack`), with an example of each alone in `ArchiveRefusals`: header, parts
  and manifest together exceed the expanded limit, of which the builder counts the parts only; the archive
  file exceeds its limit, which the builder does not look at; a part exceeds the limit of a reader that
  takes smaller parts than the builder; a checksum of a completed part or of an object is not that of the
  contents. An export verifies what it built with the builder's own part limit
  (`backupmgr/manager.go:1052`), so there the third does not occur and the other three make the export
  fail. A file of more than 10^8 parts would be a fifth reason (`ArchiveBuilds.BuiltReadsBack`), but the
  configuration admits at most 10^7 parts.
- An import is failed though it was published exactly if three statements of its worker followed each
  other with no crash between: the publication was committed and reported an error, the status of the
  job could not be read, and the job was marked failed; and its request has not canceled it since
  (`BackupOverturns.PublishedFailsExactly`, example in `BackupOverturns.PublishedCanFail`).
- An import is canceled though it was published exactly if the statement that queued it was applied and
  reported an error, its request canceled it for that once it was published, with no crash between, and
  its worker has not marked it failed since (`BackupOverturns.PublishedCanceledExactly`, example in
  `BackupOverturns.PublishedCanBeCanceled`).

## Model

| member | source | states |
|---|---|---|
| `BlockRuns.ReferencedIsLive` | filemgr/references.go:57-112 | in every state of every run, a file reached by a pin, a mapping, a mapped composite or an active multipart part has only `live` delete rows |
| `BlockRuns.DeleteCallsAreSafe` | filemgr/block_delete_worker.go:67-205 | a part handed to a worker by a claim has no reference at any time after the claim, however long the worker waits, and was claimed before its deadline |
| `BlockRuns.CondemnedForever` | filemgr/block_delete_worker.go:99-118 | over every run, a part that left `live` never returns to it, its file never gains a reference, and deleted, failed and expired never change |
| `BlockRuns.NothingForgotten` | filemgr/references.go:260-326 | so in a run without a release of export pins every part of a file that was referenced and is not any more has left `live` |
| `BlockForgotten.ForgottenExactly` | filemgr/references.go:260-326 | over every run, a part of a file that was referenced and is not any more is live exactly if a release of export pins took its last references and no step since has discarded the file |
| `BlockForgotten.StepForgets` | filemgr/references.go:260-326 | of the live parts that nothing refers to before and after a transaction, it condemns exactly those it discards |
| `BlockForgotten.MarkedExactly` | filemgr/references.go:260-326 | in sound tables those are exactly the live rows of the files in the listed trees that nothing refers to |
| `BlockRows.RowExactly` | filemgr/references.go:260-326 | what each of the 24 kinds of transaction leaves of every delete row: a live row is due now exactly if the transaction puts its file out of use, claims and ends of executions change it as they say, and nothing else does |
| `BlockRows.NewRowExactly` | filemgr/file_manager_impl.go:240-277 | a delete row comes with its part only, live, or due at once for a block whose part could not be recorded |
| `BlockRows.RunKeepsBlock` | filemgr/block_delete_worker.go:148-206 | over every run a row keeps its backend and upload time, and its attempts never decrease |
| `BlockRuns.ApplyKeepsInv` | filemgr/references.go:114-208 | each of the 24 kinds of transaction is a good step, except that a release of export pins may leave unreferenced parts live |
| `BlockRuns.ApplyGrows` | filemgr/references.go:57-112 | no transaction takes away a file, changes one otherwise than by making it ready, or adds a delete row for a part that was there before |
| `BlockRuns.RunKeepsInv` | filemgr/references.go:57-112 | in every state of every run the tables are sound and referenced files live |
| `BlockRuns.EmptyInv` | filemgr/references.go:57-112 | the empty tables may start a run |
| `BlockRuns.RunReady` | filemgr/file_manager_impl.go:279-313 | a ready file exists and is ready in every later state |
| `BlockInvariant.SettleExact` | filemgr/references.go:260-308 | if whatever gained a reference is live and every file that lost one is in the tree of a listed file, condemning what the listed trees no longer reach is a good step |
| `BlockInvariant.ReferencedCompositeProtects` | filemgr/references.go:57-112 | a composite with a reference of any kind gives each of its sources one |
| `BlockTables.MarkEachExact` | filemgr/references.go:260-326 | marking succeeds exactly if every file listed is there or referenced, and makes pending, due now and with no lease, exactly the live rows of what any of them condemns; every other row stays |
| `BlockTables.MarkTreeExact` | filemgr/references.go:260-308 | the same for one file tree |
| `BlockMappingProofs.LinkableTreeIsLive` | filemgr/references.go:114-208 | if a file can be linked, it and all its sources have only live parts |
| `BlockOutcomes.LinkableExactly` | filemgr/references.go:114-208 | a file may be linked exactly if it is ready, all blocks of its tree are live and the manifest of a composite adds up; the counts of part rows refuse nothing |
| `BlockAvailable.MappedStaysAvailable` | filemgr/references.go:114-208 | over every run whatever is mapped may be linked and exported again |
| `BlockMappingProofs.LinkKeeps` | filemgr/file_manager_impl.go:66-97 | linking a path is a good step |
| `BlockOutcomes.LinkExactly` | filemgr/file_manager_impl.go:66-97 | a link is refused exactly if its entry is there or its file may not be linked; it adds the entry and leaves the others |
| `BlockMappingProofs.LinkLockNullKeeps` | filemgr/webdav_protocol.go:726-763 | so is linking the empty file behind a lock-null resource, which is not checked for being live |
| `BlockOutcomes.LockNullExactly` | filemgr/webdav_protocol.go:726-763 | linking the empty file behind a lock-null resource comes to the same as a link with all its conditions |
| `BlockMappingProofs.RemoveEntriesKeeps` | filemgr/webdav_mutation.go:14-25 | removing any set of paths is a good step, also if they share files or composites over them |
| `BlockOutcomes.RemoveExactly` | filemgr/webdav_mutation.go:14-25 | a removal takes away exactly the entries named, and is never refused |
| `BlockMappingProofs.ReplaceEntryKeeps` | filemgr/webdav_protocol.go:225-262 | replacing a path's file is a good step, also by the same file or one of its sources |
| `BlockOutcomes.ReplaceExactly` | filemgr/webdav_protocol.go:225-262 | a replacement succeeds exactly if the entry is there and the file may be linked; it maps the entry to the file and leaves the others |
| `BlockMappingProofs.PublishObjectKeeps` | filemgr/s3_object.go:278-352 | publishing an S3 object, over another or not, is a good step |
| `BlockOutcomes.PublishObjectExactly` | filemgr/s3_object.go:278-352 | an object is published exactly if its file may be linked and its entry is new, in the place of the current one, and every other entry stays |
| `BlockOutcomes.CopyObjectExactly` | filemgr/s3_object.go:494-553 | an object is copied over another exactly if its file may be linked and the entry is new; both entries are mapped to that file |
| `BlockMappingProofs.CopyEntriesKeeps` | filemgr/webdav_mutation.go:44-88 | copying paths over others is a good step, though the copied files are checked after the overwritten paths are gone |
| `BlockOutcomes.CopyExactly` | filemgr/webdav_protocol.go:344-392 | a tree copy succeeds exactly if every source may be linked; each target is mapped to the file of its source, what was overwritten is gone, and the others stay |
| `BlockMappingProofs.PublishImportKeeps` | filemgr/backup.go:1658-1822 | publishing an import, all its mappings together, is a good step |
| `BlockOutcomes.ImportExactly` | filemgr/backup.go:1658-1822 | an import is published exactly if every target may be linked; each entry is mapped to the target of its last item and the others stay |
| `BlockMappingProofs.CreateDraftKeeps` | filemgr/file_manager_impl.go:223-238 | creating a draft is a good step |
| `BlockMappingProofs.CreateLivePartKeeps` | filemgr/file_manager_impl.go:240-277 | recording an uploaded part is a good step |
| `BlockMappingProofs.CompensatePartKeeps` | filemgr/backup.go:1079-1124 | so is recording a part as pending from the start: its file cannot be in use yet |
| `BlockMappingProofs.FinishCreateKeeps` | filemgr/file_manager_impl.go:330-365 | so is finishing a file as the loop that creates files does, which finishes it only after every part was recorded |
| `BlockMappingProofs.MarkOnlyKeeps` | filemgr/references.go:328-336 | so is discarding files, whether or not they were published meanwhile |
| `BlockUploadProofs.PutPartKeeps` | filemgr/s3_multipart.go:449-489 | putting a part, over an earlier one or not, is a good step |
| `BlockOutcomes.PutPartExactly` | filemgr/s3_multipart.go:449-489 | a part is put exactly if its file may be staged and is no other part's, in the place of what had its number; an upload that has expired is aborted instead |
| `BlockOutcomes.StageableExactly` | filemgr/s3_multipart.go:533-587 | a file may be staged exactly if it is ready with its size, all its blocks live, and not mapped |
| `BlockUploadProofs.AbortUploadKeeps` | filemgr/s3_multipart.go:1697-1739 | so is an abort: it condemns the files of the active parts that nothing else refers to |
| `BlockOutcomes.AbortExactly` | filemgr/s3_multipart.go:1697-1739 | an abort is refused exactly if the upload is not active; it discards exactly the active parts of the upload and keeps its row for a day |
| `BlockUploadProofs.CompleteUploadKeeps` | filemgr/s3_multipart.go:853-888 | so is a completion: the composite takes over the selected parts before they stop being active, and unselected parts and the replaced object are condemned |
| `BlockUploadProofs.CompleteActiveKeeps` | filemgr/s3_multipart.go:1098-1179 | the same for the part of it that handles an active upload |
| `BlockUploadProofs.PurgeUploadKeeps` | filemgr/s3_multipart.go:1988-2028 | so is purging the control rows of a finished upload |
| `BlockOutcomes.PurgeExactly` | filemgr/s3_multipart.go:1988-2028 | a purge takes away an ended upload whose time has come with all its parts, and nothing else |
| `BlockUploadProofs.CreateUploadKeeps` | filemgr/s3_multipart.go:225-290 | so is creating an upload |
| `BlockOutcomes.CreateUploadExactly` | filemgr/s3_multipart.go:225-290 | an upload is created exactly if it is new and has no parts; it is active and changes no other |
| `BlockWorkerProofs.ClaimWorkKeeps` | filemgr/block_delete_worker.go:67-97 | a claim of any rows is a good step; every claimed part has left live and is before its deadline |
| `BlockWorkerProofs.ClaimCandidateKeeps` | filemgr/block_delete_worker.go:162-205 | a candidate is claimed only if it was pending, unreferenced and before its deadline, and is being deleted afterwards |
| `BlockClaims.ClaimedExactly` | filemgr/block_delete_worker.go:67-206 | a claim takes exactly the candidates that nobody has, or whose lease has run out, before their deadline, each once, for a minute and with one attempt more; those past it expire, other leases that have run out are due now, and every other row stays |
| `BlockClaims.DueIsTaken` | filemgr/block_delete_worker.go:67-146 | with the rows that the query gives, every block that is due or whose lease has run out is taken or expired, unless a full batch of others goes before it |
| `BlockWorkerProofs.NothingToRestore` | filemgr/block_delete_worker.go:207-224 | restoring the delete rows of a referenced file never changes anything, because none of them has left live |
| `BlockWorkerProofs.FinishRowKeeps` | filemgr/block_delete_worker.go:338-381 | finishing a work is a good step for any row and any outcome, even if the lease ran out and the row moved on |
| `BlockWorkerProofs.CreateSnapshotKeeps` | filemgr/backup.go:196-231 | pinning the files of an export is a good step |
| `BlockOutcomes.SnapshotExactly` | filemgr/backup.go:196-231 | an export pins the mapped file of every selected entry and each of its sources, for its job, and no other file; it is refused exactly for an entry that is missing or not exportable, or a pin that is there |
| `BlockExports.ExportStaysReadable` | filemgr/backup.go:196-231 | over every run, from a snapshot to the release of its job, every selected entry can be read as it was listed: its file and segments are the same and all blocks of its tree are live, though the entry may be removed, replaced or published over meanwhile |
| `BlockExports.PinnedStaysLive` | filemgr/backup.go:196-231 | the blocks of a pinned file stay live until its job is released |
| `BlockExports.StepKeepsPins` | filemgr/backup.go:890-899 | no step but the release of a job takes a pin of it away |
| `BlockWorkerProofs.ReleaseSnapshotKeeps` | filemgr/backup.go:890-899 | releasing pins keeps the tables sound and referenced files live |
| `BlockWorkerProofs.ReleaseLeaksExactly` | filemgr/backup.go:890-899 | releasing pins leaves a part live and unreferenced exactly when the released pins were all the references of its file |
| `BlockLeaks.ReleaseCanLeak` | filemgr/backup.go:890-899 | a run from the empty tables, of a file that is stored, linked, exported, removed and released, ends in such a case |
| `BlockWorkerProofs.FinishImportPhysicalKeeps` | filemgr/backup.go:1340-1371 | finishing a staged file is a good step: the count of staged parts shows that none is missing |
| `BlockOutcomes.ImportFinishesAlike` | filemgr/backup.go:1340-1371 | counting the part rows of an imported file is as good as looking for each part |
| `BlockWorkerProofs.FinishImportCompositeKeeps` | filemgr/backup.go:1373-1403 | finishing a staged composite is a good step |
| `BlockCompletion.CompletionAssembles` | filemgr/s3_multipart.go:1098-1179 | completing an active upload yields a new ready composite whose segments are the files and sizes of exactly the requested parts in ascending part number, of the sum of their sizes, mapped at the object's entry; the answer and the control row say so |
| `BlockAvailable.CompletionExactly` | filemgr/s3_multipart.go:853-1179 | an active upload is completed exactly if the request is well formed, its parts are there with their tags, large enough and not mapped, no other composite has them, and entry and file are new: looking at their blocks, at the new file and at what is marked refuses nothing |
| `BlockAvailable.PartOkExactly` | filemgr/s3_multipart.go:1554-1598 | the blocks of the parts of an active upload are live, so looking at them refuses nothing: a part is taken exactly if it is active with its tag, large enough and not mapped |
| `BlockAvailable.RunPartSizesTrue` | filemgr/s3_multipart.go:449-489 | over every run each uploaded part is as large as its file |
| `BlockCompletion.CompletionSettlesParts` | filemgr/s3_multipart.go:1340-1405 | afterwards each part that was active is selected if it was requested and discarded if not, and no other part row changed |
| `BlockCompletion.CompletionIsIdempotent` | filemgr/s3_multipart.go:890-931 | at any later point of any run before the purge, completing again with the same parts changes no table and answers with the stored file, size and tag, and completing with other parts is refused |
| `BlockCompletion.CompletedRowStays` | filemgr/s3_multipart.go:1407-1440 | no step other than the purge changes the control row of a completed upload |
| `BlockCompletion.RepeatReadsBack` | filemgr/s3_multipart.go:890-931 | a completed upload answers the same request from its row and refuses any other |
| `BlockCompletion.RunKeepsCompletion` | filemgr/s3_multipart.go:1407-1440 | over any run without its purge a completed upload keeps its control row and its file its size |
| `BlockStore.Store.MarkFileTreePending` | filemgr/references.go:260-308 | the recursive marking of the table refines the specified one, error cases included |
| `BlockStore.Store.MarkFilesPending` | filemgr/webdav_mutation.go:168-180 | the marking loop refines the specified one, stopping at the first error |
| `BlockStore.Store.MappingEntryFileIds` | filemgr/webdav_mutation.go:111-129 | the file ids of the removed entries, each once |
| `BlockStore.Store.RemoveLinks` | filemgr/webdav_mutation.go:14-25 | the removal transaction is the specified step, or changes nothing |
| `BlockStore.Store.AbortMultipartUpload` | filemgr/s3_multipart.go:1697-1739 | the abort transaction is the specified step, or changes nothing |
| `BlockStore.Store.ListPartFiles` | filemgr/s3_multipart.go:1648-1664 | the files of the active parts in part order |
| `BlockStore.Store.PublishBackupImport` | filemgr/backup.go:1658-1822 | the publishing loop with its list of replaced files is the specified step, or changes nothing |
| `BlockStore.Store.ClaimBlockDeleteWork` | filemgr/block_delete_worker.go:67-97 | the claiming loop is the specified step and returns the claimed rows |
| `BlockExecute.Backoff` | filemgr/block_delete_worker.go:330-336 | a delay is from one to sixteen seconds for every attempt number, so the cap of thirty seconds is never reached |
| `BlockExecute.BackoffDoubles` | filemgr/block_delete_worker.go:330-336 | the delay is one second for the first attempt, doubles with each up to the fifth and stays there |
| `BlockExecute.Classify` | filemgr/block_delete_worker.go:300-328 | temporary are network errors, time-outs, too many requests and server errors; the delay is the one asked for, a second if none is, and otherwise that of the number of attempts |
| `BlockExecute.VerdictMeans` | filemgr/block_delete_worker.go:246-328 | of the answer that decides, that of the batch or of the call for the block alone if the batch was refused for good: deleted exactly if it accepted, to be tried again at the millisecond the delay ends exactly if it was temporary and that is before the deadline, expired exactly if it is not, and failed exactly if it refused for good |
| `BlockExecute.Worker.Execute` | filemgr/block_delete_worker.go:246-298 | every claimed row that is still being deleted ends in its verdict, and no other row changes, whatever the backend answers |
| `BlockExecute.Worker.ExecuteEach` | filemgr/block_delete_worker.go:261-269 | the same for the single calls after a batch was refused for good |
| `BlockExecute.Worker.Finish` | filemgr/block_delete_worker.go:338-381 | rows still being deleted get the state and the time of the next attempt; others stay |
| `BlockDeletions.DeletedOnlyIfAccepted` | filemgr/block_delete_worker.go:246-298 | over every run in which rows are finished by executions of batches that were claimed, a row that came to be deleted did so in a step whose execution had a call for it accepted |
| `BlockDeletions.DeletedWasClaimed` | filemgr/block_delete_worker.go:67-298 | and its batch was claimed before, and nothing has referred to its file since or will |
| `BlockDeletions.CallsAreSafe` | filemgr/block_delete_worker.go:67-298 | every call of an execution names only parts that were claimed before, in time for the backend, and that nothing refers to from then on |
| `BlockDeletions.ExpiredOnlyLate` | filemgr/block_delete_worker.go:148-298 | over every run a row that came to be expired did so in a claim at or after its deadline, or after a temporary answer whose delay does not end before it |
| `BlockDeletions.FailedOnlyIfRefused` | filemgr/block_delete_worker.go:246-298 | a row that came to be failed did so after a call for it was refused for good |
| `BlockDeletions.PendingCanBeDeleted` | filemgr/block_delete_worker.go:67-298 | from every reachable state a pending row can be claimed and deleted before its deadline |
| `BlockDeletions.AcceptedIsDeleted` | filemgr/block_delete_worker.go:338-381 | a row that is finished while it is being deleted is deleted exactly if a call for it was accepted, and then in every later state |
| `BlockDeletions.OnlyFinishDeletes` | filemgr/block_delete_worker.go:338-381 | of the 24 kinds of transaction only the end of an execution deletes a row, and only its own |
| `BlockDeletions.DecidedMeans` | filemgr/block_delete_worker.go:246-328 | what an execution decides for a row is deleted exactly if a call for it was accepted |
| `CrcCombine.CrcConcat` | s3checksum/combine_crc.go:88-128 | the CRC of a concatenation is the CRC of the first part advanced by the length of the second, xor the CRC of the second, for the bit-serial definition of section 8 of RFC 1952 and section 12.1 of RFC 3720 with any polynomial of at least eight bits |
| `CrcCombine.RegisterConcat` | s3checksum/combine_crc.go:88-128 | reading two byte strings one after the other is reading their concatenation |
| `CrcCombine.CombineCrc` | s3checksum/combine_crc.go:95-128 | the squaring loop terminates and computes that advance and xor for every word, polynomial, width and positive length; other lengths give the first word back |
| `CrcCombine.ApplyLength` | s3checksum/combine_crc.go:109-126 | the loop over the bits of the length, with the two matrices in turn, reaches the word advanced by the whole length |
| `CrcCombine.MatrixTimes` | s3checksum/combine_crc.go:130-141 | the loop over set bits is the product of a matrix and a vector over GF(2) |
| `CrcCombine.MatrixSquare` | s3checksum/combine_crc.go:143-147 | each column of the square is the matrix times that column; the matrix is untouched |
| `CrcCombine.BuildStepMatrix` | s3checksum/combine_crc.go:99-106 | the matrix of one bit time, in fresh arrays |
| `CrcCombine.BuildFourStepMatrix` | s3checksum/combine_crc.go:99-108 | squaring twice before the loop gives the matrix of four bit times |
| `CrcCombine.SquareAndApply` | s3checksum/combine_crc.go:108-126 | one half of the loop body doubles the advance of the matrix and keeps the distance to the goal exact while it halves the length |
| `CrcCombine.SquareAdvancesTwice` | s3checksum/combine_crc.go:143-147 | a square advances twice as many bit times |
| `CrcCombine.StepMatrixAdvancesOne` | s3checksum/combine_crc.go:99-105 | that matrix applied to a register is one shift-and-xor step |
| `CrcWords.TimesLinear` | s3checksum/combine_crc.go:130-141 | multiplication by a matrix is linear |
| `CrcWords.SquareIsSelfComposition` | s3checksum/combine_crc.go:143-147 | the square of a matrix applied to any vector is the matrix applied twice |
| `CrcFullObject.CombineParts` | s3checksum/combine_crc.go:40-86 | over parts that describe byte strings the result is the digest of their concatenation; errors come exactly from the first malformed part |
| `CrcFullObject.FullObject` | s3checksum/combine_crc.go:21-38 | for CRC32, CRC32C and CRC64/NVME the digest of the concatenation; no parts, hashes that cannot be combined and unknown algorithms are refused as such |
| `CrcFullObject.DigestRoundTrip` | s3checksum/combine_crc.go:40-86 | a digest read back as a word is the CRC it was made from |
| `CrcFullObject.BigEndianRoundTrip` | s3checksum/combine_crc.go:40-86 | the big-endian form of a word determines it |
| `DirectoryTree.PathUnique` | directory/db_directory.go:822-857 | two paths that lead to one entry are the same path: the parent table has no cycles and no sharing |
| `DirectoryWalk.DepthBound` | directory/db_directory.go:822-857 | a path has fewer components than the table has rows, so every walk over a subtree ends |
| `DirectoryTree.MoveResolve` | directory/db_directory.go:635-666 | changing one row's parent and name moves exactly its subtree |
| `DirectoryTree.MoveTree` | directory/db_directory.go:635-666 | and keeps the table a tree |
| `DirectoryTree.InsertResolve` | directory/db_directory.go:680-716 | a new row adds one path and changes no other |
| `DirectoryTree.InsertTree` | directory/db_directory.go:680-716 | and keeps the table a tree |
| `DirectoryTree.RemoveResolve` | directory/db_directory.go:718-731 | removing a row without children removes one path and changes no other |
| `DirectoryTree.RemoveTree` | directory/db_directory.go:718-731 | and keeps the table a tree |
| `DirectoryTree.UpdateResolve` | directory/db_directory.go:174-219 | updating a row in place changes what one path resolves to |
| `DirectoryTree.UpdateTree` | directory/db_directory.go:174-219 | and keeps the table a tree |
| `Directory.Directory.constructor` | directory/db_directory.go:1465-1471 | the invariant holds at the start over any rows that form a tree |
| `Directory.Directory.ListAll` | directory/db_directory.go:801-820 | the rows below a directory, each once, by ascending id |
| `Directory.Directory.SelectDir` | directory/db_directory.go:822-857 | a path is selected exactly if it is a directory, and blocked exactly if a file stands at or above it |
| `Directory.Directory.GetEntry` | directory/db_directory.go:931-965 | a lookup finds the entry of the path or says exactly why not |
| `Directory.Directory.CollectEntries` | directory/db_directory.go:351-369 | the entries of a subtree, each once |
| `Directory.Directory.RecordTree` | directory/db_directory.go:569-601 | one journal row for each path of a subtree, none twice and none left out |
| `Directory.Directory.CollectAndRemove` | directory/db_directory.go:242-272 | exactly the subtree disappears; its entries are returned and its paths journaled as deleted, each once |
| `Directory.Directory.RemoveChildren` | directory/db_directory.go:248-263 | the loop over the children removes exactly what lies below |
| `Directory.Directory.CreateEntry` | directory/db_directory.go:680-716 | one new path with an unused id |
| `Directory.Directory.IterAndCopy` | directory/db_directory.go:1007-1054 | below the destination lies a copy of the source with fresh ids, nothing else changes, and the copied paths are journaled as created, each once |
| `Directory.Directory.CopyChildren` | directory/db_directory.go:1036-1052 | the loop over the children copies exactly what lies below |
| `DirectoryTransactions.Transaction.Move` | directory/db_directory.go:405-444 | every path below the destination resolves to what lay below the source, the source is gone, other paths are unchanged, the overwritten list is exactly the old destination subtree; each refusal happens under its exact condition and changes nothing; tree and journal invariants are kept |
| `DirectoryTransactions.Transaction.CopyDepth` | directory/db_directory.go:304-349 | the same for a recursive or shallow copy, with each source entry paired with its copy |
| `DirectoryTransactions.Transaction.CollectCopyPairs` | directory/db_directory.go:371-403 | the pairs cover the source subtree, each entry once, with the counterpart at the destination |
| `DirectoryTransactions.Transaction.MoveOver` | directory/db_directory.go:1151-1195 | the row is moved after the destination was cleared, and the journal stays true |
| `DirectoryTransactions.Transaction.ReplaceByMove` | directory/db_directory.go:1151-1195 | the destination is cleared and the subtree moved there, also when the source is in the directory of the destination |
| `DirectoryTransactions.Transaction.CopyOver` | directory/db_directory.go:1056-1115 | the copy is made after the destination was cleared, and the journal stays true |
| `DirectoryTransactions.Transaction.ClearDestination` | directory/db_directory.go:1086-1095 | the subtree at the destination and nothing else is gone and journaled, and the directory that is to hold the destination is still there |
| `DirectoryTransactions.Transaction.ChangeParent` | directory/db_directory.go:635-666 | changing one row moves the whole subtree |
| `DirectoryTransactions.Transaction.Create` | directory/db_directory.go:72-125 | a file appears with the missing directories above it, or one of three refusals under its exact condition changes nothing |
| `DirectoryTransactions.Transaction.MkdirAll` | directory/db_directory.go:977-1005 | a directory and all missing ones above it appear; an existing entry is left alone |
| `DirectoryTransactions.Transaction.CreateBelow` | directory/db_directory.go:72-125 | what both share: the missing directories are made only if the entry can be made |
| `DirectoryTransactions.Transaction.Mkdir` | directory/db_directory.go:127-172 | one directory appears in an existing one, or one of four refusals under its exact condition changes nothing |
| `DirectoryTransactions.Transaction.SelectDirCreating` | directory/db_directory.go:822-857 | exactly the missing prefixes are made and journaled |
| `DirectoryTransactions.Transaction.SelectDown` | directory/db_directory.go:822-857 | the loop over the components ends in the directory, with exactly the missing ones made and journaled, or at a file and then changes nothing |
| `DirectoryTransactions.Transaction.SelectComponent` | directory/db_directory.go:859-893 | one component is found or made |
| `DirectoryTransactions.Transaction.EnsureRoot` | directory/db_directory.go:899-929 | the root exists afterwards, unjournaled |
| `DirectoryTransactions.Transaction.Replace` | directory/db_directory.go:174-219 | only a file is replaced; the entry before the replacement is returned |
| `DirectoryTransactions.Transaction.Remove` | directory/db_directory.go:221-240 | the subtree is gone and returned; a missing entry in an existing directory is no failure |
| `DirectoryTransactions.Transaction.Touch` | directory/db_directory.go:274-294 | only the journal shows it, and only for an existing path |
| `DirectoryTransactions.JournalKeptByMove` | directory/db_directory.go:405-444 | the three runs of journal rows of a move leave every path's latest row true |
| `DirectoryTransactions.JournalKeptByCopy` | directory/db_directory.go:1007-1054 | so do those of a copy |
| `DirectoryTransactions.JournalKeptByRemoval` | directory/db_directory.go:242-272 | so do those of a removal |
| `DirectoryTransactions.JournalKeptByCreate` | directory/db_directory.go:72-125 | so do those of a creation with the directories above it |
| `DirectoryTransactions.JournalKept` | directory/db_directory.go:499-516 | recording every path whose existence changes keeps the journal true: a path other than the root exists exactly if its latest row is not a deletion |
| `DirectoryWalk.LatestAppend` | directory/db_directory.go:499-516 | after rows for some paths were added the latest row of those paths is the new one and of any other path what it was |
| `Sync.WebDAVChanges` | filemgr/webdav_protocol.go:858-886 | a token beyond the current revision is refused, a negative one gives only the current revision, any other the page of what the query gives, which is complete up to its new token exactly if the query misses nothing, even if changes are committed between the two reads |
| `Sync.Query` | filemgr/webdav_protocol.go:903-948 | the latest change of each changed path that the query selects, by revision, up to the limit |
| `Sync.TestScope` | filemgr/webdav_protocol.go:1878-1897 | the test of a row on texts says whether its path is in scope |
| `Sync.Scan` | filemgr/webdav_protocol.go:950-976 | rows out of scope are dropped; a page that is full carries the revision of its last row as token, any other the current revision |
| `Sync.PageExactly` | filemgr/webdav_protocol.go:903-976 | a page is complete up to its token exactly if the query misses nothing: it was not cut off, all its rows are in scope, or nothing in scope comes after them |
| `Sync.MissedChange` | filemgr/webdav_protocol.go:903-976 | what is missed is a change in scope that the new token passes and the page does not report |
| `SyncMisses.CanMiss` | filemgr/webdav_protocol.go:903-976 | two changes below /A fill a query for /a, and a change below /a is in no page though the token passes it |
| `SyncMisses.OneCaseMissesNothing` | filemgr/webdav_protocol.go:903-948 | nothing is missed if the root has ASCII characters only and no changed path lies below one that differs from it in case |
| `SyncScope.ScopeExactly` | filemgr/webdav_protocol.go:1878-1897 | the test of the code on the texts of clean paths says that one is the other, lies directly in it or, at infinite depth, anywhere below it |
| `SyncScope.ScopeIsChildren` | filemgr/webdav_protocol.go:1878-1897 | at depth one the scope is the collection and its children |
| `SyncScope.ScopeIsTree` | filemgr/webdav_protocol.go:1878-1897 | at infinite depth it is the collection and the children of whatever is in scope |
| `SyncScope.ScopeIsSelected` | filemgr/webdav_protocol.go:903-948 | the query selects whatever is in scope |
| `SyncScope.SelectsExactly` | filemgr/webdav_protocol.go:903-948 | for a root of ASCII characters it selects exactly what is in scope of a path that is the root up to case |
| `Sync.PageAdvances` | filemgr/webdav_protocol.go:858-976 | one page keeps what the client knows right for every path in scope last changed up to its token, whatever is committed before, during and after it (sections 3.5 and 3.6 of RFC 6578) |
| `Sync.RunHolds` | filemgr/webdav_protocol.go:858-976 | the same over every run of pages, if no query misses a change |
| `Sync.RunAgrees` | filemgr/webdav_protocol.go:858-976 | after a last page with no later change it agrees with the directory table on every path in scope |
| `SyncInitial.WalkHolds` | server/handler/webdav/report.go:128-159 | a walk of the collection after the token was read, each listing at another moment while changes are committed, gives a client such knowledge of the collection and of every path in scope |
| `SyncInitial.WalkSees` | server/handler/webdav/report.go:128-159 | for every path in scope some listing decides it: what is not told was not there at the moment of that listing, be it that its directory was gone or was none |
| `SyncInitial.ToldInScope` | server/handler/webdav/report.go:128-159 | whatever the walk tells of is in scope |
| `SyncInitial.WalkAndPages` | server/handler/webdav/report.go:107-159 | a client that walks a collection and then follows pages that miss nothing holds the server's state of all of it up to its token |
| `Sync.InitialHolds` | server/handler/webdav/report.go:128-159 | the step from what was seen of each path to what the client knows up to its token |
| `Sync.PageProgress` | filemgr/webdav_protocol.go:950-976 | a token never goes back, and a page with more to come moves it forward |
| `Sync.RevisionMeans` | filemgr/webdav_protocol.go:903-948 | the greatest revision of a path is that of its latest change |
| `DiskCacheRuns.NoReaderAfterRemoval` | filemgr/file_io_cache_disk.go:730-898 | over every run a file handed to removal has no open reader then or later, whatever entry has its path, and is not handed over again |
| `DiskCacheRuns.RunPathsDistinct` | filemgr/file_io_cache_disk.go:527-590 | different entries of a run have different files |
| `DiskCacheRuns.RetiredIsHandedOnce` | filemgr/file_io_cache_disk.go:870-898 | at any time an entry's file has been handed to removal once if it is retired and unread, and never otherwise |
| `DiskCacheRuns.ReadersAreRefs` | filemgr/file_io_cache_disk.go:885-979 | the count that close waits for is the sum of the reference counts, which is the number of open readers, and of the readers that have released their entry and are on their way out |
| `DiskCacheRuns.IndexAlwaysExact` | filemgr/file_io_cache_disk.go:702-743 | in every state of such a run the key map and the list hold the same entries, the used cost is the sum of their costs within the limit, and the sizes are bounded by it |
| `DiskCacheRuns.AdmitKeepsMost` | filemgr/file_io_cache_disk.go:702-728 | admission keeps the longest most recent part of the list that leaves room, no shorter one |
| `DiskCacheRuns.EvictKeepsMost` | filemgr/file_io_cache_disk.go:713-720 | eviction removes no entry more than needed, and the least recent first |
| `DiskCacheOrder.OrderedByUse` | filemgr/file_io_cache_disk.go:702-770 | over every run the list is ordered by the last admission or hit of its entries, the latest first |
| `DiskCacheOrder.BeforeExactly` | filemgr/file_io_cache_disk.go:702-770 | an entry stands before another exactly if it was admitted or found later |
| `DiskCacheOrder.EvictsLeastRecent` | filemgr/file_io_cache_disk.go:702-728 | an admission evicts only what was used less recently than everything it keeps |
| `DiskCacheOrder.StepDrops` | filemgr/file_io_cache_disk.go:745-969 | every other step takes out of the list exactly an entry found with another size, an invalidated one, or all at the end of closing |
| `DiskCacheOrder.AdmitDrops` | filemgr/file_io_cache_disk.go:702-728 | an admission brings its entry in and takes out the one whose key it has |
| `DiskCacheOrder.NothingUsedWhenClosing` | filemgr/file_io_cache_disk.go:939-969 | over every run a closing cache admits and finds nothing any more |
| `DiskCacheRuns.StepSound` | filemgr/file_io_cache_disk.go:702-979 | every step of every caller keeps the cache sound |
| `DiskCacheRuns.RunSound` | filemgr/file_io_cache_disk.go:702-979 | so the cache is sound in every state of every run from any sound state, such as the empty one or the one that recovery establishes |
| `DiskCache.EntryCost` | filemgr/file_io_cache_disk.go:683-700 | the least positive number of whole allocation units that holds the size, the whole budget if that is no more than a unit, and 0 for bad arguments or where the units leave the 64-bit range |
| `DiskCache.RetireSound` | filemgr/file_io_cache_disk.go:730-743 | retiring an entry keeps index, costs and reference counts exact |
| `DiskCache.EvictSound` | filemgr/file_io_cache_disk.go:713-720 | eviction ends with room for any entry within the budget and keeps all of that |
| `DiskCache.AdmitSound` | filemgr/file_io_cache_disk.go:702-728 | so does admission |
| `DiskCache.OpenSound` | filemgr/file_io_cache_disk.go:745-770 | so does opening |
| `DiskCache.InvalidateSound` | filemgr/file_io_cache_disk.go:870-883 | so does invalidation, with readers open or not |
| `DiskCache.ReleaseSound` | filemgr/file_io_cache_disk.go:885-898 | so does a release |
| `DiskCache.LeaveSound` | filemgr/file_io_cache_disk.go:885-898 | so does the end of a release, which tells the waiting close |
| `DiskCache.CloseSound` | filemgr/file_io_cache_disk.go:939-969 | so does closing, before and after the wait |
| `DiskCacheStore.Cache.AdmitEntry` | filemgr/file_io_cache_disk.go:702-728 | admission refines the specified step and succeeds exactly if the cache is open and size and cost are within their bounds; the entry is then found and the most recent |
| `DiskCacheStore.Cache.RetireLocked` | filemgr/file_io_cache_disk.go:730-743 | retiring refines the specified step; the returned files are those newly handed to removal |
| `DiskCacheStore.Cache.EvictFor` | filemgr/file_io_cache_disk.go:713-720 | the eviction loop refines the specified one |
| `DiskCacheStore.Cache.OpenEntry` | filemgr/file_io_cache_disk.go:745-770 | opening refines the specified step and finds exactly the entry of that key and size in an open cache |
| `DiskCacheStore.Cache.InvalidateEntry` | filemgr/file_io_cache_disk.go:870-883 | invalidation refines the specified step |
| `DiskCacheStore.Cache.ReleaseEntry` | filemgr/file_io_cache_disk.go:885-898 | release refines the two specified steps, under the mutex and after it; a reference count never falls below zero |
| `DiskCacheStore.Cache.Close` | filemgr/file_io_cache_disk.go:939-946 | the first half of closing refines the specified step |
| `DiskCacheStore.Cache.Drain` | filemgr/file_io_cache_disk.go:959-969 | so does the second half, once no reader is left |
| `DiskCacheStore.SoundIsReady` | filemgr/file_io_cache_disk.go:702-898 | in a sound state the preconditions of all these methods hold |
| `DiskCacheRecovery.Recover` | filemgr/file_io_cache_disk.go:361-387 | whatever files are found, the cache starts sound and its entries have different files; what it holds has the greatest generation of its key, and each file is held, removed, or handed to removal once, and only one of these; the list starts with the file written last, by its time and then by its generation |
| `DiskCacheRecovery.ChooseWinners` | filemgr/file_io_cache_disk.go:416-430 | one winner per key, all other files removed, each once |
| `DiskCacheRecovery.WinnersAreTop` | filemgr/file_io_cache_disk.go:416-430 | each key found has a winner of its greatest generation |
| `DiskCacheRecovery.WinnersIndependentOfOrder` | filemgr/file_io_cache_disk.go:361-430 | the winners are the same for every order of the walk exactly if no key has two files of its greatest generation |
| `DiskCacheRecovery.OrderMatters` | filemgr/file_io_cache_disk.go:422-424 | two files of a key's greatest generation suffice to make the order matter |
| `DiskCacheRecovery.OrderCanMatter` | filemgr/file_io_cache_disk.go:422-424 | there is a directory of different files where it is not |
| `DiskCacheRecovery.OrderByAge` | filemgr/file_io_cache_disk.go:368-378 | the winners by modification time and generation, each once |
| `DiskCacheRecovery.AdmitAll` | filemgr/file_io_cache_disk.go:379-385 | exactly the entries that fit the limits are admitted, exactly the others are removed |
| `FileCacheLoadProofs.LoadReturnsContent` | filemgr/file_io_cache.go:229-437 | over every run each successful load returns the bytes its loader gives, from either level, a fill, or a fallback, even with cache files changed on disk |
| `FileCacheLoadProofs.OneFillPerKey` | filemgr/file_io_cache.go:610-631 | at most one caller fills a key at a time |
| `FileCacheLoadProofs.NobodyWaitsInVain` | filemgr/file_io_cache.go:280-292 | a waiting caller can go on, or the caller it waits for is still filling the same key |
| `FileCacheProgress.CanReturn` | filemgr/file_io_cache.go:229-437 | from every reachable state, whatever the other callers are doing, a load in progress whose size is that of the file can be brought to return it, with the help of the caller it waits for at most |
| `FileCacheProgress.MemoryHitExactly` | filemgr/file_io_cache.go:545-559 | the first level answers exactly if it holds the file in the size asked for, and forgets it otherwise |
| `FileCacheProgress.DiskHitExactly` | filemgr/file_io_cache_disk.go:745-831 | the second level answers exactly if it holds an entry of that size whose file is there with the bytes it was filled with, and the caller did not give up; an entry that is no use is dropped |
| `FileCacheProgress.KeptIsFound` | filemgr/file_io_cache.go:374-437 | what was filled and kept is found by the next look, in the level it was filled for |
| `FileCacheLoadProofs.CloseLeavesNothing` | filemgr/file_io_cache.go:643-682 | once Close has returned without an error no load is in progress, no fill is registered and no tracked reader is open |
| `FileCacheLoadProofs.StepSound` | filemgr/file_io_cache.go:229-682 | every step of loads, fills and closing keeps the caches, the registered fills and the counters exact |
| `FileCacheLoadProofs.RunSound` | filemgr/file_io_cache.go:229-682 | so they are in every state of every run from any sound state |
| `FileCacheLoadProofs.InitialSound` | filemgr/file_io_cache.go:117-140 | a new cache is such a state |
| `FileCacheLoadProofs.DiskAnswerSound` | filemgr/file_io_cache_disk.go:745-831 | a disk hit is what the loader gives: the file is unchanged by its stamp, or its digest was checked again |
| `FileCacheGate.FillGate.BeginLoad` | filemgr/file_io_cache.go:633-641 | a begin of the state machine: the load goes on exactly if it is in progress afterwards, and the counter that Close waits for is the number of loads in progress |
| `FileCacheGate.FillGate.BeginFill` | filemgr/file_io_cache.go:610-622 | the joining of a load in progress, which is never refused: it leads exactly if no other load of its key does, and otherwise waits for the one that does |
| `FileCacheGate.FillGate.EndLead` | filemgr/file_io_cache.go:624-631 | the end of a leader's load: its fill is gone from the map, and everyone who waited for it can go on |
| `FileCacheGate.FillGate.BeginClosing` | filemgr/file_io_cache.go:657-663 | the begin of a close, unless the cache is closed |
| `FileCacheGate.FillGate.EndClosing` | filemgr/file_io_cache.go:664-682 | the end of a close after its waits: no fill is registered, no load is in progress and no tracked reader is open |
| `FileCacheGate.FilledIsLed` | filemgr/file_io_cache.go:610-622 | a fill is registered for a key exactly while a load of that key leads |
| `BlockLayout.BlockCount` | filemgr/file_manager_impl.go:206-221 | the least number of blocks that holds the size, each refusal under its exact condition |
| `BlockLayout.CreateFile` | filemgr/file_manager_impl.go:330-365 | the first bytes of the reader are stored in consecutive blocks, all full but the last; a reader that ends early is refused exactly then |
| `BlockLayout.StoreBlocks` | filemgr/file_manager_impl.go:343-360 | the loop of it stores the first bytes of the reader in full blocks but for the last, or refuses exactly a reader that ends early |
| `BlockLayout.Locate` | filemgr/file_stream.go:130-153 | quotient and remainder by the block size find the block and the position of a byte |
| `BlockLayout.FullBlock` | filemgr/file_manager_impl.go:330-365 | a block that ends before the file does is full and ends at a multiple of the block size |
| `FileStreams.FileStream.Read` | filemgr/file_stream.go:107-128 | from any stream over stored blocks, in step or not, a read delivers the bytes from where the backend reader stands, whatever chunks the backend gives; cursor and reader move on as the backend's answer says; no other byte of the buffer is touched and the end is reported only at the end |
| `FileStreams.NextSound` | filemgr/file_stream.go:107-128 | a read moves the reader by the bytes it gave and the cursor by those only if it did not fail; a dropped reader is opened again at the cursor |
| `FileStreams.InStepAfter` | filemgr/file_stream.go:107-128 | after a read the reader stands at the cursor exactly if the reader was dropped, or it stood there before and no failure came with bytes |
| `FileStreams.FileStream.OpenCurrentPart` | filemgr/file_stream.go:130-153 | the backend reader is opened at the cursor, inside a block, or the cursor is at the end |
| `FileStreams.FileStream.Seek` | filemgr/file_stream.go:60-77 | the target is counted from the start, the cursor or the end; it is refused as invalid exactly if it is negative and as past the end exactly beyond the size, and is the new cursor otherwise; the stream is in step again after any failure |
| `FileStreams.ReadFrom` | filemgr/file_stream.go:47-110 | two seeks that add up lead where one does, and the next read delivers the content from there |
| `FileStreams.ReadFromEnd` | filemgr/file_stream.go:47-110 | the same from the end |
| `FileStreams.FileStream.Close` | filemgr/file_stream.go:155-166 | a closed stream is in step and keeps its cursor |
| `CompositeStreams.LoadManifest` | filemgr/composite_stream.go:57-162 | the manifest is accepted exactly if its rows are consecutive, its sources ready physical files of the stated sizes, and the sizes add up; the segments are then contiguous |
| `CompositeStreams.SegmentAt` | filemgr/composite_stream.go:231-240 | the binary search finds the segment that holds an offset, empty segments skipped, or says that the offset is the end |
| `CompositeStreams.SegmentBytes` | filemgr/composite_stream.go:57-128 | a segment is a slice of the whole that begins where the one before ends |
| `CompositeStreams.CompositeStream.Read` | filemgr/composite_stream.go:164-187 | a read terminates from any state and, unless a source fails, advances by exactly the smaller of the buffer and the rest of the file; each byte is one of the file from no later than its place; the turns of all reads since the source was opened form a run of the state machine; a stream in step delivers the bytes at the offset, and is in step afterwards exactly unless a source failed and brought bytes; the rest of the buffer is left alone |
| `CompositeStreams.CompositeStream.FillMore` | filemgr/composite_stream.go:176-185 | a turn of the loop extends what was read, by the next bytes of the file exactly if the trace of the source has not lost its count |
| `CompositeStreams.CompositeStream.TakeTurn` | filemgr/composite_stream.go:176-211 | a turn gives bytes of the segment that holds the offset, those at the offset exactly if the trace has not lost its count; a turn without bytes is not followed by another |
| `CompositeStreams.CompositeStream.ReadSegment` | filemgr/composite_stream.go:189-211 | the turn moves the place of the stream in the segment as the turn of the state machine does, and gives the bytes from that place; one that did not reach the backend changes nothing |
| `CompositeStreams.CompositeStream.ReadSource` | filemgr/composite_stream.go:194-203 | the source moves on as the backend's answer says, and the bytes are those from where it stood |
| `CompositeStreams.CompositeStream.AfterTurn` | filemgr/composite_stream.go:189-211 | a turn of a stream in step leaves it in step exactly unless a failure came with bytes, and a turn that gave nothing has passed the end of a block |
| `CompositeStreams.CompositeStream.AdvanceBoundary` | filemgr/composite_stream.go:213-229 | the step over a block boundary fails exactly off a boundary, and otherwise puts the source where the stream believes it is |
| `StreamTurns.BlockEndAligned` | filemgr/composite_stream.go:213-229 | on a source in step it never fails: a block read to its end before the end of the source ends on a boundary |
| `StreamTurns.AstrayExactly` | filemgr/composite_stream.go:189-229 | over every run of turns within a source, the next bytes are other than those at the offset exactly if a reader that was ahead was dropped with the last bytes of its block and no turn since gave nothing on a boundary |
| `StreamTurns.TurnStrays` | filemgr/composite_stream.go:189-229 | the same for one turn |
| `StreamTurns.TurnInStep` | filemgr/composite_stream.go:189-229 | a turn in step stays in step exactly unless a failure came with bytes |
| `StreamTurns.TurnSound` | filemgr/composite_stream.go:189-229 | any turn, of a stream in step or not, takes bytes of the source and leaves the source no further on than the stream believes |
| `StreamTurns.AheadExactly` | filemgr/composite_stream.go:189-211 | over every run a reader is ahead exactly if a failure came with bytes and the reader was not dropped since |
| `StreamTurns.TurnAhead` | filemgr/composite_stream.go:189-211 | the same for one turn |
| `StreamTurns.TraceStrays` | filemgr/composite_stream.go:189-229 | both for the trace that a composite stream keeps of its source |
| `StreamTurns.NeverAstray` | filemgr/composite_stream.go:189-211 | so a stream whose failures bring no bytes, retried as often as one likes, always delivers the bytes at its offset |
| `StreamTurns.NothingGiven` | filemgr/composite_stream.go:201-206 | a turn gives nothing only at the end of a block, and if the stream is not astray only on a boundary, so the step over it succeeds |
| `StreamTurns.CanGoAstray` | filemgr/composite_stream.go:189-211 | a run over two blocks of two bytes, from a stream just opened, whose third turn delivers a byte other than the one at the offset |
| `CompositeStreams.CompositeStream.OpenSegment` | filemgr/composite_stream.go:242-267 | the source stream is that of the segment and stands at the offset, opened anew or kept |
| `CompositeStreams.CompositeStream.Seek` | filemgr/composite_stream.go:269-295 | the target is counted from the start, the offset or the end; it is refused as invalid exactly if it is negative or the origin is unknown and as past the end exactly beyond the size, and is the new offset otherwise, unless closing the source fails; a seek that moves drops the source stream, so the stream is in step again after any failure |
| `CompositeStreams.ReadFrom` | filemgr/composite_stream.go:164-295 | two seeks that add up lead where one does, and the next read delivers the content from there, whatever failed before |
| `CompositeStreams.CompositeStream.Close` | filemgr/composite_stream.go:297-317 | a closed stream holds no source stream; a second close does nothing |
| `BackupJobProofs.PublishedOnce` | backupmgr/manager.go:1115-1163 | in every reachable state an import was published at most once, only if it is finished and was no dry run; a job that publishes or has succeeded was not asked to cancel; a job is finished exactly if its state says so |
| `BackupJobProofs.TerminalForever` | backupmgr/manager.go:1315-1397 | over every run, with cancels, crashes, removals and errors at any statement, a finished job whose row is still there is not published again and keeps its state exactly unless it was overturned |
| `BackupJobProofs.CancelPrevails` | backupmgr/manager.go:706-731 | after a cancel a job never publishes or succeeds, as long as its row is there, and is never published if it was not finished by then |
| `BackupProgress.RestartFinishes` | backupmgr/manager.go:747-1163 | from every reachable state, whoever has it in hand, an unfinished job can be brought to its end by a restart and a worker that meets no error: canceled if that was asked for or its artifact was not received, succeeded otherwise, and an import that is no dry run published once more than before |
| `BackupProgress.RecoveredExactly` | backupmgr/manager.go:1463-1513 | recovery cancels a job that was being received, leaves a publication to go on, and queues any other again |
| `BackupProgress.FailureEnds` | backupmgr/manager.go:901-936 | work that fails can end the job failed, from every reachable state, unless it has ended since |
| `BackupProgress.CancelEnds` | backupmgr/manager.go:1262-1271 | a cancel accepted while a worker has the job can end it canceled once the work comes to its next statement |
| `BackupJobProofs.GoneForever` | backupmgr/manager.go:1588-1622 | a row that was removed does not come back |
| `BackupJobProofs.RunLater` | backupmgr/manager.go:849-1397 | over every run a job is there, with what it is and what it has come to, or its row was removed |
| `BackupJobProofs.StepOverturns` | backupmgr/manager.go:295-355 | a finished job changes its state in a step exactly if its worker marks it failed, or the request that queued it cancels it |
| `BackupOverturns.PublishedFailsExactly` | backupmgr/manager.go:901-936 | in every reachable state an import is failed though it was published exactly if the publication was committed with an error, the status was then misread and the job marked failed, in a row and with no crash between, and its request has not canceled it since |
| `BackupOverturns.PublishedCanceledExactly` | backupmgr/manager.go:295-355 | in every reachable state an import is canceled though it was published exactly if it was queued with an error, then published and then canceled by its request, with no crash between, and its worker has not marked it failed since |
| `BackupOverturns.OverturnedAfterTwoErrors` | backupmgr/manager.go:901-936 | any job that has ended well is marked failed only after its last statement was applied with an error and its status could then not be read, in a row and with no crash between |
| `BackupOverturns.PublishedCanFail` | backupmgr/manager.go:901-936 | a run from no jobs in which an import is published and failed |
| `BackupOverturns.PublishedCanBeCanceled` | backupmgr/manager.go:295-355 | a run from no jobs in which an import is published and canceled though nobody asked to cancel it |
| `BackupJobProofs.StepSound` | backupmgr/manager.go:849-1397 | every statement of requests, workers and recovery keeps the invariant |
| `BackupJobProofs.CancelSound` | backupmgr/manager.go:706-731 | a cancel at any time keeps it |
| `BackupJobProofs.WorkSound` | backupmgr/manager.go:849-1163 | a worker at any statement keeps the invariant, whatever came between its read and its write, whether the statement failed, was applied, or was applied with an error, and if its row was removed |
| `BackupJobProofs.WorkOnSound` | backupmgr/manager.go:849-1163 | the same for the job alone: what the worker relies on in its next phase holds |
| `BackupJobProofs.RetainSound` | backupmgr/manager.go:1588-1622 | removing the row of a finished job keeps it, whoever has the job in hand |
| `BackupJobProofs.RunSound` | backupmgr/manager.go:849-1397 | so it holds in every reachable state |
| `BackupJobProofs.RecoverSound` | backupmgr/manager.go:1463-1513 | recovery keeps the invariant though two of its statements ask for no state |
| `BackupJobProofs.ReceiverSound` | backupmgr/manager.go:295-355 | a receiving request keeps it, also when a cancel or recovery came first |
| `BackupJobProofs.QueueUnsureSound` | backupmgr/manager.go:295-355 | so does one whose queueing was applied and reported an error |
| `BackupJobProofs.DropSound` | backupmgr/manager.go:332-342 | the cancelation that follows keeps it, whatever the worker is doing with the job by then |
| `BackupJobProofs.RequestEndsSound` | backupmgr/manager.go:315-352 | so does a request whose cancelation fails |
| `BackupJobStore.JobTable.Cancel` | backupmgr/manager.go:706-731 | a cancel is accepted exactly for an unfinished job that is not publishing |
| `BackupJobStore.JobTable.TransitionState` | backupmgr/manager.go:1361-1383 | a transition happens exactly under its guard, and a refusal tells a cancel from a claim |
| `BackupJobStore.JobTable.FinishSuccessful` | backupmgr/manager.go:1339-1359 | a job succeeds exactly under the guard of the statement, and a refusal is reported as a cancel |
| `BackupJobStore.JobTable.Recover` | backupmgr/manager.go:1416-1437 | the recovery loop refines the specified one |
| `BackupJobStore.JobTable.RecoverOne` | backupmgr/manager.go:1463-1490 | the handling of one job refines the specified one |
| `BackupJobStore.RecoveredJobs` | backupmgr/manager.go:1463-1490 | after recovery every job it read is queued, publishing or canceled |
| `ArchiveRoundTrip.AcceptedExactly` | backupfmt/archive.go:368-418 | an archive file is accepted exactly if it is within its limit, opens without trailing bytes and holds the header, each declared part once in canonical order with its size and digest, and the manifest, within the limits, with a valid manifest that states the checksums of the contents |
| `ArchiveMeaning.AcceptedBounds` | backupfmt/archive.go:368-459 | an accepted archive and all it holds are within every limit of its reader, each part within both part limits, and the summary of its manifest is true of the entries |
| `ArchiveRoundTrip.ListedExactly` | backupfmt/archive.go:461-728 | the entries are read exactly if they are canonical, within the limits, and the manifest is valid |
| `ArchiveRoundTrip.ContentExactly` | backupfmt/validate.go:700-735 | the contents are checked as the bytes of all parts under each reference, empty files included |
| `ArchiveContents.AfterGathers` | backupfmt/archive.go:651-683 | after any number of entries what was digested of each file is the bytes of its parts, in order |
| `ArchiveContents.CheckedContents` | backupfmt/validate.go:700-735 | what the manifest is checked against are the contents of exactly its physical files |
| `ArchiveProofs.ListedIsCanonical` | backupfmt/archive.go:575-728 | an archive whose entries are read has no undeclared, missing, repeated or misplaced part |
| `ArchiveProofs.AfterMeans` | backupfmt/archive.go:503-608 | what the reader has observed after any number of entries is what those entries hold, in ascending order of names |
| `ArchiveProofs.CanonicalIsListed` | backupfmt/archive.go:461-728 | the converse, within the limits |
| `ArchiveRoundTrip.RoundTrip` | backupfmt/archive.go:38-137 | an archive written from any manifest and a matching source is read back exactly if the manifest is valid for the reader, no file has more than 10^8 parts, header, declared part bytes and manifest, the manifest and the archive file stay within their limits, and the checksums are those of the source |
| `ArchiveRoundTrip.ArchiveSize` | backupfmt/archive.go:38-137 | the bytes of a built archive are the header, the declared part bytes and the manifest |
| `ArchiveRoundTrip.LimitKeepsIndicesShort` | backupfmt/validate.go:207-226 | under a part limit of at most 10^8 no file of a valid manifest has more parts than that |
| `ArchiveRoundTrip.BuiltIsCanonical` | backupfmt/archive.go:38-137 | what is built is canonical |
| `ArchiveRoundTrip.ReadBackIsWhatWasBuilt` | backupfmt/archive.go:38-137 | what is read back from a built archive is the same manifest and part bytes, and no other |
| `ArchiveRoundTrip.BuiltContents` | backupfmt/archive.go:104-137 | the contents of a built archive are those of the source |
| `ArchiveProofs.DeclaredAscend` | backupfmt/validate.go:145-178 | the names of the declared parts ascend across files |
| `ArchiveBuilds.BuiltReadsBack` | backupfmt/archive.go:38-88 | whatever Build writes is accepted by a reader with the same limits and a part limit of its own, and then as the completed manifest with the part bytes of the source, exactly if no file has more than 10^8 parts, header, part bytes and manifest stay within the expanded limit and the archive file within its own, the parts are within the reader's limit, and the checksums are those of the source |
| `ArchiveBuilds.ConfiguredReadsBack` | config/config.go:690-699 | under a part limit that can be configured the number of parts is no reason, and for a reader with the builder's part limit the size of a part is none either |
| `ArchiveBuilds.FitsReader` | backupfmt/validate.go:29-143 | a manifest that is valid for its own part limit is valid for another exactly if its parts are within that |
| `ArchiveMeaning.RecordedIsKept` | backupfmt/archive.go:104-219 | what a manifest records of a part or a file is kept by the build and is that of the source |
| `ArchiveMeaning.FilledMatches` | backupfmt/archive.go:104-219 | a source of the right sizes matches a file of which nothing is recorded, and one that was filled in from it |
| `ArchiveRefusals.ExpandedCanBeExceeded` | backupfmt/archive.go:38-88 | for every coding there are a manifest and limits with which the builder writes what the reader refuses for the expanded limit alone |
| `ArchiveRefusals.ArchiveCanBeExceeded` | backupfmt/archive.go:368-418 | the same for the size of the archive file alone |
| `ArchiveRefusals.ChecksumCanBeWrong` | backupfmt/validate.go:741-768 | the same for the checksum of a completed part alone |
| `ArchiveRefusals.PartCanBeTooLarge` | backupmgr/manager.go:1165-1204 | the same for a reader that takes smaller parts than the builder |
| `ArchiveObjects.ObjectChecksumHolds` | backupfmt/validate.go:770-837 | in an accepted archive the full-object checksum of an S3 object is that of the bytes of the file its path is mapped to, also where it is combined from the parts of a composite |
| `ArchiveMeaning.CompositeChecksumHolds` | backupfmt/validate.go:770-837 | in an accepted archive the composite checksum of an S3 object is composed of those of the sources of its file |
| `ArchiveObjects.ContentHasSize` | backupfmt/validate.go:228-276 | the content of a physical file of an accepted archive has the declared size |
| `ArchiveCode.Build` | backupfmt/archive.go:38-88 | a build succeeds exactly if manifest and source match, the completed manifest is valid and small enough and every entry fits its header; it writes header, parts and manifest |
| `ArchiveCode.WriteFile` | backupfmt/archive.go:104-219 | a file is written exactly if its parts have their sizes and the digests that are recorded, fit their headers, and its compatibility MD5 is that of its parts or not recorded; all of these are filled in |
| `ArchiveCode.WriteFiles` | backupfmt/archive.go:90-102 | the same for all files: they are written one after the other exactly if all of them match |
| `ArchiveCode.TarReader.ConsumeEntry` | backupfmt/archive.go:503-573 | the state of the reader follows the specified one, and an entry is refused exactly where that refuses |
| `ArchiveCode.TarReader.ObservePart` | backupfmt/archive.go:575-608 | the same for a part entry |
| `ArchiveCode.TarReader.WriteContent` | backupfmt/archive.go:651-662 | the bytes of a part are digested for its file, and those of the file before it are finished |
| `ArchiveCode.TarReader.FinishFile` | backupfmt/archive.go:677-683 | what was digested of the current file is recorded once |
| `ArchiveCode.ReadTar` | backupfmt/archive.go:461-491 | the reading loop gives the manifest and the observed parts, or refuses |
| `ArchiveCode.CompareObserved` | backupfmt/archive.go:706-728 | true exactly if observed and declared parts agree one to one |
| `ArchiveCode.ReadArchive` | backupfmt/archive.go:368-459 | a manifest exactly for the accepted archive files |
| `ArchiveCode.ValidateFiles` | backupfmt/validate.go:145-178 | true exactly for files in canonical order, each valid, within the limits, with sourced composites; the counts are those of the declared parts |
| `ArchiveCode.ValidatePhysical` | backupfmt/validate.go:228-276 | true exactly if there are no segments, the parts are numbered, named and sized as they must be with digests in hexadecimal and add up, and the compatibility MD5 is that of the parts |
| `ArchiveCode.ValidateComposite` | backupfmt/validate.go:278-332 | true exactly if there are no parts, the segments are numbered, refer to files, are not negative and add up to the size, and there is a completed part for each, numbered and sized as it is, with a checksum that is absent or decodes |
| `ArchiveCode.ValidateSegments` | backupfmt/validate.go:282-291 | true exactly if each segment is numbered, refers to a file and is not negative, with their total |
| `ArchiveCode.ValidateCompleted` | backupfmt/validate.go:300-330 | true exactly if each completed part is numbered and sized as its segment is, with a checksum that is absent or decodes, with their total |
| `ArchiveCode.ValidateRecord` | backupfmt/validate.go:180-205 | true exactly if the reference, the source id, the size and the compatibility MD5 are well formed and the file is valid for its layout |
| `ArchiveCode.AddParts` | backupfmt/validate.go:207-226 | the running counts refuse exactly what leaves the limits in the end |
| `ArchiveCode.ValidateReferences` | backupfmt/validate.go:334-352 | every segment of a composite takes a whole physical file, no file twice |
| `ArchiveCode.ValidateManifest` | backupfmt/validate.go:29-143 | true exactly if the files are valid, the numbers of files and mappings are within their limits and the summary states the counts, provided the other records are valid |
| `ArchiveCode.ValidateContent` | backupfmt/validate.go:700-735 | true exactly if every file has its content and all checksums of completed parts and objects are those of the contents |
| `ArchiveCode.ValidateCompletedContent` | backupfmt/validate.go:741-768 | true exactly if each completed part has no checksum or that of its source |
| `ArchiveCode.ValidateObject` | backupfmt/validate.go:770-801 | true exactly if the object has no checksum or the one of its kind that its file gives |
| `ArchiveCode.CombineCompleted` | backupfmt/validate.go:803-837 | the combined checksum of the completed parts, or none if one of them has no checksum of the algorithm |
| `ArchiveNames.PartNameMatches` | backupfmt/validate.go:257-276 | a part's name is one the reader takes exactly while its index has eight digits |
| `ArchiveNames.PartNameOrder` | backupfmt/archive.go:575-608 | names compare as file references and indices do |
| `ArchiveNames.PaddedOrder` | backupfmt/validate.go:257-276 | zero-padded numbers of a width compare as numbers |
| `ArchiveMeaning.HexExactly` | backupfmt/validate.go:228-276 | a text is taken for a digest of so many bytes exactly if it is the lower-case hexadecimal text of some |
| `ArchiveMeaning.SourceIdExactly` | backupfmt/validate.go:180-205 | a number that is written out is taken for a source id exactly if it is positive and has 64 bits |
| `ArchiveMeaning.RefExactly` | backupfmt/validate.go:25-25 | a text is taken for a file reference exactly if it is written for a number of eight digits |
| `ArchiveMeaning.StatedExactly` | backupfmt/validate.go:314-332 | a completed part states no checksum at all, or one that decodes under one of the five algorithms |

## Left out

- Telegram, local file and memory backends, HTTP handlers, routing, configuration, logging and metrics: input and output around the modelled logic.
- Limits, quotas, conditions, locks, bucket and key matching and checksum checks of the block transactions: they only refuse transactions, so the runs with them are among the runs without.
- Batch transactions of the block protocol (expiry of uploads, cleanup of locks, begin and finish of an import) are sequences of the single steps.
- PurgeFile and rows that predate the delete states; the direct deletion of an upload that was never recorded.
- WebDAV lock exclusivity, properties and quotas; S3 listing and conditional headers.
- Modification times and modes of directory entries, and the normalisation of path texts: paths enter as clean component sequences, so `..` and relative paths do not occur.
- Sync.RunHolds: asks that no query of the run misses a change, which is the exact condition of each page (`Sync.PageExactly`); the code promises nothing for a change that was missed.
- Sync.Query: LIKE and substr are as SQLite has them without further settings; other uses of case or encoding are not modelled.
- DiskCacheStore.Cache.RetireLocked: entries are values told apart by their generation; their reference counts and retired flags are fields of the cache instead of the entry.
- DiskCacheStore.Cache.OpenEntry: the file system calls between the locked sections of open, and a removal that fails, are not part of the step.
- DiskCacheRecovery.Recover: starts from the files whose names, sizes and digests were found valid.
- FileCacheLoadProofs.LoadReturnsContent: a cache file changed on disk is taken to show a new modification time or identity; a change that shows neither is not detected by the code either.
- FileCacheLoadProofs.StepSound: opening a disk entry is one step with its validation; the two cache levels are the maps a load sees, and their own eviction is a free step.
- BlockUploadProofs.CompleteUploadKeeps: the composite row carries sizes and order; the object's metadata, ETag and checksum rows are not part of the tables.
- FileStreams.FileStream.Read: assumes the layout that createFile establishes and a backend reader that gives at least a byte while some are left.
- BackupJobProofs.PublishedOnce: one worker per kind and recovery before the workers; idempotency keys, artifact files and progress counters are not modelled, so retention may remove any finished row.
- ArchiveCode.ValidateManifest: the validity of directories, mappings, S3 and WebDAV records and of the scope is a parameter; MD5 and SHA-256, checksums and their combination, and whether a text decodes as a checksum of an algorithm, are parameters.
- ArchiveCode.ReadArchive: the tar and gzip layer is a parameter that gives back what was packed if its entries fit their headers; the limits are not negative.
- ArchiveCode.Build: the source of parts is total, so reads that fail are not modelled.
- ArchiveObjects.ObjectChecksumHolds: takes the combination of checksums to be right, as it is proved in `CrcFullObject.FullObject` on words instead of texts.
