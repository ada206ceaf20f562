# FileHarbor: verified model

FileHarbor is a file manager whose value lies in what it guarantees when steps fail, processes
crash or requests interleave.  This project models the parts of it that carry those guarantees
and proves them with Dafny 4.11, for every input, every run and every crash point.

    dafny verify dfyconfig.toml

## How it is built

State that the program keeps on disk or under a lock is a class whose methods are the program's
own operations, step for step, with a fault or a cut-off possible at every disk operation.  For
the two journaled protocols (uploads and jobs) the atomic steps are also a pure transition system
(`Enabled`, `Apply`, `Legal`, `Replay`); the class keeps a ghost log of the steps it takes and
proves that the log is a legal run, so every theorem about legal runs holds after every prefix of
every operation, which is to say after every crash.

| files | what they model |
|---|---|
| `UploadParts`, `UploadProtocol`, `UploadRecovery`, `UploadStore`, `UploadQuota` | resumable uploads: part arithmetic, the manifest state machine, crash recovery, the operations, reservations |
| `JobProtocol`, `JobInvariants`, `JobGuarantees`, `JobManager` | background jobs: interleaved steps, the invariant, what follows from it, the manager with its worker, handlers and journal loading |
| `ArchiveNames`, `ArchiveRegistry`, `ArchiveBudget` | entry names, the path registry, the byte budget of an extraction |
| `ZipDirectory`, `ZipEncoding` | the byte-level check of a ZIP or ZIP64 central directory, and encoders of both forms whose output it accepts |
| `BatchTransfer` | batch copy with staging names, batch move, promotion of an extraction stage |
| `RecycleBin` | moving, restoring and purging |
| `LoginThrottle` | two-phase logins and the failure window |
| `AuditLines`, `AuditLog` | repair of a torn log, rotation |
| `TreeWalk` | the bounded walk and directory sizes |
| `Basics` | an option type, bytes, two lemmas on collections |

## Where a promise fails

Five expectations one could have of the code are false as they stand.  Each is stated with the
exact condition under which it holds, and with an input for which it fails.

- The part count is the ceiling of size over chunk size exactly when `size + chunk - 1` stays
  below 2^63; beyond that the sum wraps (`UploadParts.PartCountIsCeiling`,
  `UploadParts.LargestSizeWraps`).  The configuration check at config.go:65 computes the same sum
  and so can itself be fooled; `ValidConfig` assumes that it does not wrap.
- A completion cut off by a crash while its stage is built, with the name still free, can be
  resumed exactly when the requested checksum, if any, matches: finalizing is made durable before
  the checksum is compared, and recovery then refuses to start
  (`UploadRecovery.WrongChecksumCrashIsRefused`, `UploadRecovery.WrongChecksumExample`).
- Copying a batch through staging names is correct exactly when no selected name that equals
  another one plus the staging suffix comes before it; the validated order by name gives that
  (`BatchTransfer.CopiesArriveInOrder`, `BatchTransfer.SortedStagesFirst`,
  `BatchTransfer.UnsortedCopyIsWrong`).
- A well-formed ZIP64 archive within the limits is accepted exactly when its comment has at most
  65515 bytes: with a longer one its locator lies outside the tail that is read
  (`ZipDirectory.LongCommentHidesLocator`, `ZipEncoding.Archive64IsWellFormed`; the empty archive
  with 65516 bytes of comment is `ZipEncoding.OneByteTooMany`).
- A full table of login addresses gives up an entry that is not being checked, and an oldest one,
  exactly when there is one and the empty address is not older than all others: the scan takes the
  empty address for none yet (`LoginThrottle.EvictionIsRight`,
  `LoginThrottle.EmptyAddressIsPassedOver`).

## Assumptions

- SHA-256 is injective; the random identifiers of jobs and recycled items are fresh; the clock never goes back.
- A rename, link, create, append or remove is one atomic step, and what a completed step did
  survives a crash, whether or not the following directory sync was reported as failed.
- The stage of an upload and the private files of uploads and jobs are touched by this program
  only; other programs may change anything else in the destination directory at any time, and
  theorems that need them not to say so.
- Lower-casing a path folds each component on its own and never introduces a slash.
- The quotas of jobs are the built-in constants, and those of uploads do not change over a restart.

## Model

| member | source | states |
|---|---|---|
| UploadParts.PartCountIsCeiling | upload_store.go:948-956 | the part count is the ceiling of size over chunk size if and only if the rounding sum fits 64 bits |
| UploadParts.LargestSizeWraps | upload_store.go:948-956 | the largest 64-bit size with a chunk of 1 MiB has a negative part count |
| UploadParts.ExpectedPartSizeBounds | upload_store.go:958-970 | every part of a non-empty upload is non-empty and at most one chunk |
| UploadParts.ExpectedSizesSumToSize | upload_store.go:958-970 | the expected sizes of all parts add up to the declared size |
| UploadParts.AllRecorded | upload_store.go:547-549 | as many recorded indexes below the part count as parts means every part is recorded, and no more than that is possible |
| UploadParts.ProgressIsExact | upload_store.go:1001-1020 | reported bytes never exceed the size and reach it exactly when all parts are recorded |
| UploadParts.ReceivedBytes | upload_store.go:1003-1006 | the counter over the part map equals the recorded bytes in whatever order the map is visited |
| UploadParts.ReceivedRanges | upload_store.go:981-999 | the reported ranges are ordered, disjoint, non-adjacent, and cover exactly the recorded indexes |
| UploadParts.RangesAreUnique | upload_store.go:981-999 | equal sets of recorded indexes give equal ranges |
| UploadProtocol.ContentHasDeclaredSize | upload_publish.go:64-93 | a fully recorded upload has every index below the part count and assembles to exactly its declared size |
| UploadProtocol.StepKeepsSafe | upload_store.go:783-828 | every disk step keeps the durable-parts invariant, valid manifests and the meaning of a saved digest |
| UploadProtocol.RunKeepsSafe | upload_store.go:202-330 | the invariant holds after every run, and so after every crash |
| UploadProtocol.RecordedPartsAreFrozen | upload_store.go:430-520 | until the upload is over, a recorded part keeps its record and its file through any retries, crashes and recoveries |
| UploadProtocol.TerminalIsAbsorbing | upload_store.go:226-260 | completed and cancelled manifests never change again |
| UploadProtocol.UploadIsFixed | upload_store.go:942-946 | nothing that the creating request fixed ever changes |
| UploadProtocol.ContentIsFrozen | upload_publish.go:64-93 | once all parts are recorded, what they assemble to is settled for the rest of the upload |
| UploadProtocol.StepOnlyPublishes | upload_publish.go:103-110 | no step alters or removes an entry that existed; the only new entry besides the stage is the destination with the assembled parts |
| UploadProtocol.CompletionIsExact | upload_publish.go:64-166 | in any run, with any interference: an upload is completed only out of a moment at which all its parts are recorded and match the requested checksum, and then with the digest of what they assemble to; if nobody else used the directory the destination holds exactly that |
| UploadProtocol.CompletionDeliversParts | upload_publish.go:64-166 | from the moment all parts are recorded, an upload can only be completed as what they assemble to at that moment: same digest, same checksum verdict and, undisturbed, the same bytes in the destination |
| UploadProtocol.PublishedIsNotTakenBack | upload_store.go:557-601 | a finalizing upload whose destination is published can be neither reopened nor cancelled, whatever is tried and wherever it crashes |
| UploadProtocol.CompletedDestinationStays | upload_store.go:226-242 | no later step of the store touches the destination of a completed upload |
| UploadProtocol.LegalPrefix | upload_store.go:202-224 | every prefix of a legal run is legal, so a crash leaves a state the theorems speak about |
| UploadRecovery.RecoveryIsCrashInsensitive | upload_store.go:285-330 | recovery cut off anywhere and run again, any number of times, settles in the same outcome up to time stamps and an orphaned stage |
| UploadRecovery.CrashSafePublication | upload_publish.go:17-166 | from any crash in any run: recovery leads back to active with all recorded parts and no destination, or to completed with a destination equal to the assembled parts of a fully recorded moment of the run, the digest of those parts stored and the requested checksum met, or refuses exactly when the requested checksum never matched; other entries are as before |
| UploadRecovery.RefusalTouchesNothing | upload_store.go:285-330 | recovery refuses exactly a wrong checksum or a foreign destination, and then takes no step at all |
| UploadRecovery.WrongChecksumCrashIsRefused | upload_publish.go:40-97 | anywhere between the save of the intent and the comparison of the checksum, however much of the stage is built, a crash leaves an upload that recovery refuses if the requested checksum is wrong, and, while the name is free, only then |
| UploadRecovery.WrongChecksumExample | upload_publish.go:40-97 | a complete empty upload with a foreign checksum is left, by a crash after the first save, in a state that recovery refuses |
| UploadStore.UploadStore.Perform | upload_store.go:752-781 | every disk operation of the store is an enabled step of the protocol, and the ghost log records it |
| UploadStore.UploadStore.WritePart | upload_store.go:430-520 | a stored part is recorded with its size and digest and its file in place; a recorded part is answered only for the same digest; a failure leaves the manifest as it was, or exactly this part is recorded and its file in place all the same; other parts keep their records and files; the upload then lives for another inactivity time; every other request has its answer; without faults an unrecorded part is stored if and only if it has the expected size and digest and its leftovers are regular files |
| UploadStore.UploadStore.Complete | upload_store.go:522-555 | what it answers, in every state; a completion is answered, under any faults, only with the digest of exactly the parts, which is the requested one if any, and with the requested name directly in the requested directory as its path; without faults it succeeds if and only if the parts are complete, the checksum matches and the name is free or already adopted |
| UploadProtocol.FinalPathIsEntry | upload_publish.go:114-114 | the last component of the final path is the requested name, and before it there is only the requested directory |
| UploadStore.UploadStore.Publish | upload_publish.go:17-115 | publishes the assembled parts without replacing anything; a taken name or a full disk is reported with nothing changed; after any failure the upload is still open with every part, or it is already completed as those parts |
| UploadStore.UploadStore.AssembleParts | upload_publish.go:64-93 | on success the stage holds parts 0 to n-1, in order, and nothing else |
| UploadStore.UploadStore.LinkStage | upload_publish.go:103-113 | the destination appears with the content of the stage, and only where nothing was |
| UploadStore.UploadStore.MarkCompleted | upload_publish.go:135-166 | the completed manifest is durable before any part is removed |
| UploadStore.UploadStore.Reset | upload_publish.go:117-133 | reports the cause only from an active manifest without a stage, and otherwise, with an error of its own, that it could not go back; every part is kept either way |
| UploadStore.UploadStore.Cancel | upload_store.go:557-601 | cancelling succeeds only for an open upload whose destination is not published, and removes its parts only after the cancelled manifest is durable; a cancelled upload lives for the completion time |
| UploadStore.UploadStore.Recover | upload_store.go:202-279 | a restart takes only steps of recovery, keeps the final outcome, and without faults fails exactly when recovery has to refuse |
| UploadStore.UploadStore.RecoverFinalizing | upload_store.go:285-330 | adopts a destination with the content of the parts, reopens the upload if there is none, and refuses otherwise |
| UploadStore.UploadStore.VerifyParts | upload_store.go:859-874 | whatever is on disk: success means every recorded part file is there with its recorded size and digest, and without faults a missing, cut or altered part is the only reason to fail; none is found in a state that runs of the store lead to |
| UploadStore.UploadStore.PartsDigest | upload_store.go:830-857 | yields the digest of the parts one after the other |
| UploadQuota.ProgressKeepsQuota | upload_store.go:696-720 | no operation on an existing upload, and no crash in it, can exceed the reservations |
| UploadQuota.CreationKeepsQuota | upload_store.go:370-376 | a new upload fits the quota if and only if the count is below the limit and its size fits what is left |
| UploadQuota.RunsProgress | upload_store.go:430-601 | every run of an upload's disk steps keeps its request and, once it is over, its manifest |
| UploadQuota.NewUploadIsSafe | upload_store.go:380-409 | a new upload satisfies the durable invariant, whatever else is in the destination directory and even with a stage that an earlier upload of the same identifier left there, so all runs start from it |
| UploadQuota.UploadIndex.constructor | upload_store.go:146-166 | a store without uploads is within its quotas, so every reachable index is |
| UploadQuota.UploadIndex.Reservations | upload_store.go:696-720 | counts the open uploads and adds their sizes without ever exceeding the limit on the sum |
| UploadQuota.UploadIndex.Create | upload_store.go:332-415 | creates at most one upload per identifier within the quotas, exactly as requested and for the inactivity time; what it answers in every other case, in the order in which the request is checked |
| UploadQuota.UploadIndex.ReapExpired | upload_store.go:612-641 | exactly the expired uploads are gone, the others unchanged |
| JobInvariants.StepKeepsInv | job_manager.go:61-297 | every step of submission, handlers, worker, observer, shutdown, crash and loading keeps the invariant, whatever becomes of its save |
| JobInvariants.RunKeepsInv | job_manager.go:61-297 | the invariant holds after every run of interleaved steps with crashes anywhere |
| JobInvariants.FinalStateIsSound | job_manager.go:195-231 | the state given to a returned execution is true of what it published |
| JobGuarantees.OutputsAreJournaled | job_manager.go:244-283 | at every crash point a job's visible outputs are named by its durable record as published or intended, and everything it calls published is visible |
| JobGuarantees.FinalStatesAreTrue | job_manager.go:195-231 | succeeded means no intent and exactly one output for each source, in order, each directly in the destination under the right name; failed, cancelled and interrupted by the worker mean that nothing is visible |
| JobProtocol.OutputsAreEntries | utils/copy_context.go:40-48 | every planned output lies directly in the destination, under the given name or else the last component of its source, with `.zip` exactly when it is compressed |
| JobProtocol.OneStageIsGone | job_manager.go:263-269 | a cleaned stage goes from the list once, at its first place, and the others keep their order |
| JobGuarantees.NoJobIsForgotten | job_manager.go:145-176 | a queued job with an idle worker has a wake-up waiting or the manager is being stopped; at most the worker's own job runs; nothing is queued or running after the stop |
| JobGuarantees.KeysStayUnique | job_manager.go:81-91 | no two records, in memory or on disk, answer to the same idempotency key, across restarts |
| JobGuarantees.QuotasHold | job_store.go:96-112 | at most 64 unfinished jobs, 16 of one scope, 1000 records in memory and on disk, so reading the journal never meets its own limit |
| JobGuarantees.OverJobsNeverStart | job_handlers.go:233-245 | a job that is over never starts again, in no continuation of the run |
| JobGuarantees.CancelledWhileQueued | job_handlers.go:233-245 | cancelling a queued job makes it over, whatever becomes of the save |
| JobManager.JobManager.Submit | job_manager.go:74-150 | what it answers, in every case: a manager that is stopping or unready refuses; a taken key is answered by its record, as existing, hidden or in conflict; with a free key, not found exactly when the request names an unfit earlier job; then, without faults, accepted exactly when the quotas have room after collection; the accepted job is queued as requested, in memory and on disk, and offered to the worker; other records go only when expired |
| JobManager.JobManager.PersistJob | job_manager.go:61-73 | a failed save leaves the service unready and the record partial or interrupted, by its evidence |
| JobManager.JobManager.CollectExpired | job_manager.go:103-128 | only finished records without evidence and a week past their last update disappear, from memory or from disk, also when it fails; success means all of them are gone |
| JobManager.JobManager.CheckPrevious | job_manager.go:92-102 | a retry is allowed if and only if the earlier job is visible, over, of the same scope and asked for the same |
| JobManager.JobManager.Cancel | job_handlers.go:219-250 | a queued job ends at once, a running one is asked to stop, in memory and on disk and with nothing else about it changed; any other request changes nothing |
| JobManager.JobManager.Hide | job_manager.go:301-340 | only a finished job of the scope is hidden; success means the hidden copy is on disk and in memory, failure that memory is unchanged |
| JobManager.JobManager.ChooseNext | job_manager.go:177-194 | the oldest queued job starts next, or the worker goes back to waiting because there is none or it is being stopped |
| JobManager.JobManager.Execute | utils/copy_context.go:20-303 | publishes the planned outputs one by one, each between its intent and its published entry, while handlers interleave; completing means the record lists exactly the plan; unhindered it completes if and only if the plan has no path twice and a new name comes with a single source; a job asked to stop before it starts publishes nothing |
| JobManager.JobManager.PublishNext | utils/copy_context.go:279-299 | one output is staged, intended, renamed and recorded, or the execution breaks off, as it does whenever it is asked to stop or the path is one of its own; the stage is on record until it was cleaned |
| JobManager.JobManager.FinishJob | job_manager.go:198-231 | the state of each ending, when it could be saved: succeeded exactly if completed and audited, partial exactly if not audited or with evidence, interrupted if the manager is stopping, cancelled if the requested cancellation was seen before the lock was taken, failed otherwise; an unsaved ending is partial or interrupted, by its evidence |
| JobManager.JobManager.WorkOnce | job_manager.go:177-233 | one round of the worker: whatever it reports as succeeded has published one output for each source in the destination under the right name, and a job that nothing hinders ends as succeeded if and only if it can be published |
| JobManager.JobManager.Exit | job_manager.go:160-176 | when the worker ends, no job is queued or running: the unfinished ones are interrupted, the others as they were |
| JobManager.JobManager.LoadJobs | job_store.go:96-168 | after a restart memory equals disk, unfinished jobs are interrupted with their evidence kept, and the record limit is never met; without faults it does not fail |
| JobManager.StepLeads | job_manager.go:160-234 | each critical section extends a legal run from an empty state directory |
| ArchiveNames.ValidateName | utils/archive_extract.go:711-737 | a raw name is accepted if and only if it stands for some path of portable components, and that path is returned |
| ArchiveNames.NamesAreSafe | utils/archive_extract.go:711-737 | what an accepted name is in terms of its characters: components of 1 to 255 characters that are no dot names and have no slash of either kind, with one slash of either kind between any two and perhaps one at the end |
| ArchiveNames.EitherSlashWillDo | utils/archive_extract.go:715-716 | exchanging slashes and backslashes anywhere in a name changes nothing |
| ArchiveNames.SplitJoin | utils/archive_extract.go:661-664 | joining components and splitting again gives the components back |
| ArchiveNames.JoinedKeysAgree | utils/archive_extract.go:663-664 | lower-cased joined paths are equal if and only if they are equal component by component |
| ArchiveNames.FoldedKeysAgree | utils/archive_extract.go:663-664 | keys are equal exactly when the paths are as long and fold alike in every place |
| ArchiveRegistry.AddAll | utils/archive_extract.go:639-700 | adding all entries to an empty registry succeeds if and only if the whole list is acceptable, a condition that mentions no order |
| ArchiveRegistry.AcceptanceIgnoresOrder | utils/archive_extract.go:639-700 | a permutation of an acceptable archive is acceptable |
| ArchiveRegistry.Registry.AddEntry | utils/archive_extract.go:647-700 | one more entry is accepted if and only if all entries stay acceptable; the limit error is exact; a conflict between top names cannot arise |
| ArchiveRegistry.Registry.Add | utils/archive_extract.go:647-700 | the same for raw names |
| ArchiveRegistry.Registry.EnterPaths | utils/archive_extract.go:661-689 | the table has one spelling for every needed path, or the entry clashes with an earlier one |
| ArchiveRegistry.TopsAgree | utils/archive_extract.go:690-695 | entries that pass the table never disagree about a top name |
| ArchiveBudget.BudgetReader.Read | utils/archive_extract.go:436-463 | however often it is asked, the reader delivers at most one byte beyond the budget, and only together with the limit error; a sound reader within the budget is passed on unchanged and to its end |
| ArchiveBudget.Extraction.CopyPayload | utils/archive_extract.go:776-816 | against any reader the payload stays within the budget, the counter within bounds; success means the delivered bytes, of the expected length, and a sound reader of the expected length within the budget succeeds, in whatever pieces it delivers |
| ArchiveBudget.Extraction.ExtractTAR | utils/archive_extract.go:949-1026 | for any headers and payload: it ends, never writes more than the budget, and on success every file has its declared length and the entries are acceptable; without faults it succeeds if and only if the headers name an acceptable list of entries with some top and every payload has its declared length, and the stage then holds exactly the payloads |
| ArchiveBudget.Extraction.ExtractZIP | utils/archive_extract.go:858-947 | the same for ZIP, in both directions, with 64-bit sizes as the directory declares them; the conversion check never fires |
| ArchiveBudget.OnlyDotsAreGone | utils/archive_extract.go:985-989 | from the name of a TAR entry all leading `./` are taken away and nothing else |
| ArchiveBudget.Int64Of | utils/archive_extract.go:882-885 | a 64-bit pattern is congruent to the signed number it is read as |
| ArchiveBudget.PrefixGrows | utils/archive_extract.go:928-940 | the declared size that is given back before a file is copied never takes the counter below what is written |
| ZipDirectory.BoundedZIPDirectory | utils/archive_preview.go:55-158 | accepts if and only if the last end record leads to a directory before it, within the limits, tiled by exactly the declared records; all reads are in range, no arithmetic wraps, and it ends |
| ZipDirectory.WalkRecords | utils/archive_preview.go:125-154 | accepts if and only if signed records as many as declared fill the directory without gap or overlap |
| ZipDirectory.ReadEnd64 | utils/archive_preview.go:92-117 | accepts exactly a ZIP64 end record on one disk that reaches up to its locator |
| ZipDirectory.ChainBeginsTiling | utils/archive_preview.go:125-154 | records met so far are the beginning of every tiling, so the tiling is unique |
| ZipDirectory.EndsAreInTail | utils/archive_preview.go:59-72 | no end record lies before the tail that is read |
| ZipDirectory.LongCommentHidesLocator | utils/archive_preview.go:84-87 | a well-formed ZIP64 archive is accepted if and only if its comment has at most 65515 bytes |
| ZipEncoding.Archive64IsWellFormed | utils/archive_preview.go:80-117 | every encoded ZIP64 archive within the limits is well-formed, and accepted if and only if its comment has at most 65515 bytes, unless the comment contains a later consistent end record |
| ZipEncoding.LongCommentIsRefused | utils/archive_preview.go:84-87 | the empty ZIP64 archive with a comment of any number of zero bytes is well-formed, and accepted if and only if there are at most 65515 |
| ZipEncoding.OneByteTooMany | utils/archive_preview.go:84-87 | two concrete well-formed archives that differ by one byte of comment: one is accepted, the other refused |
| ZipEncoding.WellFormedIsAccepted | utils/archive_preview.go:55-158 | every well-formed single-disk archive within the limits is accepted, unless its comment contains a later consistent end record |
| ZipEncoding.ArchiveIsRead | utils/archive_preview.go:125-154 | the check finds exactly the records that were encoded |
| BatchTransfer.Batch.Copy | utils/operations.go:330-390 | every copy arrives, or, if removals succeed, the directory is as before; what was there is never touched |
| BatchTransfer.CopiesArriveInOrder | utils/operations.go:343-388 | copying through the staging names is right if and only if no name that is a staging name of another comes before it |
| BatchTransfer.UnsortedCopyIsWrong | utils/operations.go:343-388 | two concrete names in the wrong order lose one copy and put the other under the wrong name |
| BatchTransfer.SortedStagesFirst | utils/operations.go:91-91 | the order of a validated selection satisfies that condition |
| BatchTransfer.BeforeIsByteOrder | utils/operations.go:91-91 | one name comes before another if and only if, where they first part, it ends or has the smaller character |
| BatchTransfer.Batch.Move | utils/operations.go:395-418 | every item moves, or, if renames back succeed, both directories are as before; every item is always in exactly one of them |
| BatchTransfer.Batch.Promote | utils/archive_extract.go:1226-1253 | all tops are promoted, or rolled back with the cause, or reported as partial exactly when something stayed; nothing is replaced |
| BatchTransfer.Batch.MoveBack | utils/archive_extract.go:1233-1239 | the rollback reports success if and only if both directories are as before |
| RecycleBin.RecycleBin.Move | recycle_bin.go:514-584 | at every failure and cut-off the full item is in its place or in a restorable record; nothing else changes, and a refused move leaves nothing behind when its clean-up succeeds |
| RecycleBin.RecycleBin.Restore | recycle_bin.go:659-726 | at every failure and cut-off the full item is in its record or in its place; an occupied place is never touched |
| RecycleBin.RecycleBin.CopyTree | recycle_bin.go:176-219 | a copy reported as complete is exact, and fails without faults exactly for unsupported trees |
| RecycleBin.RecycleBin.Purge | recycle_bin.go:624-649 | only a valid record is removed |
| RecycleBin.RoundTrip | recycle_bin.go:587-741 | restoring the bin that a move ends in gives back the bin that it began with |
| RecycleBin.RecycleBin.MoveAndRestore | recycle_bin.go:514-726 | a successful move followed by a successful restore, by rename or by copy either way, leaves everything as it was; whatever fails in between, the full item is in its place or restorable |
| LoginThrottle.SixFailuresTakeACooldown | auth/auth.go:270-287 | any six failures of one address with no success or eviction between span at least a minute, however logins interleave |
| LoginThrottle.FailureKeepsSpread | auth/auth.go:276-287 | one more failure keeps every window of six apart |
| LoginThrottle.Manager.Begin | auth/auth.go:231-248 | a login is admitted only if its address neither waits nor is being checked and the table has or can make room, and then always unless the eviction passes over the empty address |
| LoginThrottle.Manager.Finish | auth/auth.go:269-287 | the second phase always finds its own entry still being checked; the fifth failure starts the cooldown, a success forgets the address |
| LoginThrottle.Manager.Cleanup | auth/auth.go:492-520 | exactly those entries stay that are being checked, in a cooldown, or whose last failure, if any, is less than a minute ago |
| LoginThrottle.Manager.EvictOldest | auth/auth.go:473-490 | evicts an entry with the oldest failure among those not being checked, or reports that there is none, unless the entry of the empty address is older than all of them; it always keeps what is known of the other addresses |
| LoginThrottle.EvictionIsRight | auth/auth.go:473-490 | in whatever order the table is visited, the scan ends at an oldest entry that is not being checked if and only if there is one and the empty address is not older than all others |
| LoginThrottle.EmptyAddressIsPassedOver | auth/auth.go:473-490 | two concrete entries, visited in either order: the older one, of the empty address, is never chosen, and in one order none is |
| AuditLines.Validate | runtime.go:84-121 | accepts if and only if every complete line is a good event; cuts off exactly an unterminated last fragment that is not blank |
| AuditLines.TrimIsExact | runtime.go:105-116 | trimming takes away exactly the ASCII white space at both ends |
| AuditLines.AllGoodMeans | runtime.go:113-120 | a good line is not only white space and parses once that is trimmed |
| AuditLines.RepairIsIdempotent | runtime.go:84-121 | the repair keeps every complete line, only shortens the file, and repeating it changes nothing |
| AuditLines.AppendingStaysGood | runtime.go:160-179 | after a repair, a record written in full or torn at any byte leaves a log that is accepted again, with the record among its lines exactly when it was complete |
| AuditLog.Log.Record | runtime.go:150-180 | success means the event's line is the last complete one of the active log; a record that fits within 16 MiB keeps every file and adds exactly one line to the reading, any other moves every file to the next number and loses at most the lines of the fifth; after a failure nothing more is written; without faults a healthy open log never refuses |
| AuditLog.Log.Rotate | runtime.go:182-221 | at every failure and cut-off the files read from the oldest to the active one are a contiguous suffix of all complete lines; at most the last file is given up; success means every file has moved to the next number; without faults it succeeds |
| AuditLog.Log.Open | runtime.go:123-148 | what the program wrote, torn or not, is accepted at every start that meets no fault, and no complete line is lost and no other file touched |
| AuditLog.ShiftKeepsReading | runtime.go:196-205 | moving a file to a vacant number changes nothing for a reader |
| TreeWalk.ScanDirectorySize | utils/directory_size.go:18-41 | a complete report equals the recursive sums; without faults it is complete if and only if the tree is within the limits; sums never overflow |
| TreeWalk.Scan.Walk | utils/traversal.go:35-143 | a walk with nothing incomplete visited exactly the paths of the recursion and added exactly its sums, though any directory may become unreadable before, between or after its entries |
| TreeWalk.PathsAreDistinct | utils/traversal.go:84-130 | every path is visited once |
| TreeWalk.SumIgnoresOrder | utils/traversal.go:84-130 | the sums do not depend on the order in which any directory of the tree is listed |

## Left out

- HTTP routing, CSRF, cookies, JSON decoding, templates, the frontend and the search, favorites, editor and configuration parsers: plumbing or easy members.
- Authorization, ownership and tokens of uploads: a parameter says whether the request is authorized.
- Locks: one atomic step stands for one critical section, so the striped upload locks and the operation gate are not modelled.
- Decompressors and the `archive/zip`, `archive/tar` and RAR readers: headers, chunks and errors are arbitrary values.  The RAR extraction has the accounting of the TAR extraction and is not repeated.
- Symbolic links, inode identity, permissions, disk usage and free-space checks: each is a fault that may or may not occur.
- File modes of extracted entries, the sorted list of top names, and the preflight of destinations that an extraction runs before its renames.
- UploadRecovery.CrashSafePublication: starts from an existing manifest, because creating an upload makes its directory before its manifest (upload_store.go:380-409) and reaping removes the directory entry by entry (upload_store.go:629); a crash there leaves a directory that a restart refuses.
- A crash in the middle of completing may leave an orphaned stage link behind (upload_publish.go:154-164); outcomes are compared without it, and a later upload of the same identifier may start with it.
- The adoption branch of a publication (upload_publish.go:27-31): it needs a stored digest, which a valid active manifest never has, so an existing destination is always reported.
- The comparison of an entry's path with its cleaned form (utils/archive_extract.go:733-735), after every component was checked.
- The field checks of a loaded job record (job_store.go:170-230): records are well-formed values.  For an extraction the destination is kept as the handler leaves it (job_handlers.go:175) and is not required to be clean.
- JobGuarantees.FinalStatesAreTrue: says nothing about the outputs of an interrupted job that a restart has marked, because a restart labels every unfinished job as interrupted even when it published something (job_store.go:150-152).
- The copying and verifying of file contents inside a job's private stage (utils/copy_context.go:90-245): it only decides whether the execution breaks off before the intent.
- Cancelling contexts inside `ZipDirectory`, and a file that changes while it is read there: the check is about the bytes of one archive.
- UTF-8 validity and the reserved device names of leaf names: one predicate on components stands for them.
- Unicode white space in the audit log: the white space trimmed is that of ASCII.
- Sessions, listings and tickets of the login manager: the same clean-up loop, easy members.
- Moving a selection to the bin, listing with cursors, and emptying the bin: loops over the operations modelled.
- Another program that changes an item while it is moved to the recycle bin across volumes; only the version of its root is compared there (recycle_bin.go:564-567).
- The time limit and cancellation of a walk appear as one fault; the names of the reasons for an incomplete report are not modelled.
