# Impartus CLI in Dafny

Impartus CLI downloads, decrypts, catalogues and plays lecture recordings, from the command line and
through a local HTTP server. This project models the parts of it whose behaviour depends on state,
interleaving, failure or index arithmetic, and proves what those parts promise. It needs Dafny 4.11;
`dafny verify dfyconfig.toml` checks all of it.

## The modules

The server's durable job store

- `Retention` orders finished jobs by age and says which of them a bounded history drops.
- `Jobs` gives the effect of every mutation on the job map and the idempotency index, the persisted
  form, and what a restart makes of it.
- `JobStore` is the store object: its mutators, their rollback, pruning and loading.
- `SaveFile` is the snapshot writer over a file system in which every operation may fail and a crash
  may lose whatever was not synced.
- `Coordinator` holds the critical sections of the single-writer persistence worker.
- `StoreSystem` interleaves mutators, flushers, closers, the worker and the disk at every point where
  a lock is released or a channel used, with the functions of `Jobs` and `Coordinator`. What follows
  for every run is in `StoreGuarantees`, and what can still happen in every state, in `StoreProgress`.
- `StoreOnDisk` puts the file writer of `SaveFile` in the place of the worker's save, and says exactly
  which files a crash may leave. `RejectedMutation` applies that to a mutation that was reported as
  failed, and `WorstDisk` shows that the store, which is not told how a save failed, could not expect
  less than its set `possible`.
- `JobEvents` puts the broadcast events of executor and cancel handler beside the store transitions.

The download pipeline

- `Pipeline` moves chunks through stages: two worker pools, bounded queues, a byte budget with an
  escape for oversized chunks, and cancellation at any moment. `PipelineRuns` says more of every run:
  how full the channels get, where results come from, and that a run without failure exists.
- `Collector` restores the order of the results, decides whether a download is complete, and what it
  returns in each case.
- `OutputGate` is the reference-counted gate that serializes writers of one output file.

Redaction

- `Escapes` reads one percent or JSON escape, `EncodedView` decodes layers of them and maps every byte
  back to its raw bytes, `FaithfulSpans` proves that map right, and `PercentCoding` relates percent
  coding on its own to the layers. `Spellings` is every way of writing a text with such escapes, by
  definitions of its own, and proves that the decoders undo them all.
- `Scrubber` cuts ranges out of the raw text. What a credential looks like is a parameter.
- `BreakCursor` is the scan cursor that remembers where it has been, and `CredentialScan` the scan that
  uses two of them, with the recognition of keys as a parameter. `Credentials` says by the text alone
  which ranges the scan finds.

The local library

- `LibraryTables` holds the tables and each transaction as one step on them, `LibraryRecovery` what
  recovery may rely on while other writers, the disk and the database do as they please, and
  `LibraryJobs` the store object with its job lifecycle and crash recovery.
- `Playback` merges resume points, and `DatabaseTime` is the timestamp format that merging rests on.

Smaller protocols

- `MpvClient` correlates requests and responses of the media player.
- `RateLimiter` is the sliding-window login limiter over a least-recently-used table.
- `LocalPlaylist` parses HLS playlists, prints the local one and resolves its paths. `ParsedPlaylist`
  says what becomes of each line of a parsed playlist.

`Ordering` and `Decimal` hold text order, sorting and decimal numerals for the others.

## Exact conditions

Seven statements that one would expect of the code hold only under a condition. Each has its exact
condition, and where the code can fail it an input at which it does.

- The operation that ends a job may prune that very job: exactly when the history is full and no
  finished job is older than it (`Jobs.EndedJobSurvivesIff`), as when the clock has gone back
  (`Jobs.ClockBehindLosesJob`, `Jobs.EndedJobCanBePruned`).
- A mutation that is reported as failed may still come back after a crash. On the disk this is so exactly
  when its file survives the saves so far: a save of it got past the rename, and nothing that a save has
  put on disk for good since was another file (`RejectedMutation.RejectedReturnsIff`).
  `RejectedMutation.RejectedMutationSurvivesCrash` is a run in which it comes back, and
  `RejectedMutation.RejectedMutationStaysOut` one, with a full disk, in which it cannot. The store itself
  is told only that a save failed. As far as it can tell, the mutation may come back exactly if no save of
  the rollback has succeeded when the mutator returns (`RejectedMutation.RejectedMayReturnIff`), and some
  course of the disk bears that out (`WorstDisk.PossibleMeansPossible`).
- Timestamps compare as text only up to the year 9999 (`DatabaseTime.YearLimitIsExact`).
- The login limiter keeps its bound only with a limit of at least one, since an address not in the
  table is granted its first attempt unconditionally (`RateLimiter.LimitMustBePositive`).
- The completed flag of a resume point depends on delivery order (`Playback.CompletedExactlyWhen`,
  with two checkpoints that differ in `Playback.CompletedDependsOnOrder`).
- The canonical scan finds the value after every sensitive key, but for one kind: a value without quotes
  and without scheme after a quoted authorization key, when a break byte such as a space stands right
  before it (`Credentials.QuotedKeyFindsIff`, with an input in `Credentials.SpacedValueIsNotFound`). The
  regular expressions that the code also applies are not part of this model.
- The progress that the events of a job carry never falls, unless a report above 100 precedes its
  completion (`JobEvents.EventsAreOrderly`); the executor makes no such report
  (`JobEvents.ExecutorStaysBelowCompleted`).

## Model

| member | source | states |
|---|---|---|
| StoreSystem.InvariantHolds | internal/server/persistence_coordinator.go:51-212 | Every state that any interleaving of mutators, flushers, closers, worker and disk can reach from a restored file satisfies the system invariant |
| StoreGuarantees.RevisionsStayOrdered | internal/server/persistence_coordinator.go:51-212 | In every schedule the written revision never passes the attempted one, nor that the pending one, nor that the last issued one, and the worker only ever saves a newer revision than the written one |
| StoreGuarantees.FlushNilMeansSaved | internal/server/persistence_coordinator.go:70-117 | A flush answered nil only for a revision at or below the written one, and then no crash can bring back an older file |
| StoreGuarantees.FlushErrorIsFresh | internal/server/persistence_coordinator.go:75-100 | A flush that answers with a save error had an attempt of its revision made since it began; the only other errors are its own context and those given once the worker has gone |
| StoreGuarantees.CloseNilMeansAllSaved | internal/server/store_lifecycle.go:22-61 | Unless its own context gave up, Close returns nil exactly when the written revision is the last one issued; then the store is closed, drained, and that revision is the only one a crash can leave |
| StoreGuarantees.NothingChangesAfterClose | internal/server/store_lifecycle.go:38-61 | Once a closed store has drained its producers, no schedule changes the jobs, the index, the revision or the committed history |
| StoreGuarantees.ReadersSeeCommittedState | internal/server/store.go:145-240 | Whenever readers are let in, memory is the result of the committed mutations, all of them and no other, so an uncommitted durable mutation is never observed |
| StoreGuarantees.MutatorOutcome | internal/server/store_persistence.go:108-151 | A durable mutator that reports success is in the acknowledged history; one that reports a plain failure left no trace in memory, and none on disk once its rollback revision was saved |
| StoreGuarantees.AcknowledgedOnlyGrows | internal/server/store_persistence.go:108-151 | What was acknowledged or committed stays so in every later state, as a prefix |
| StoreGuarantees.CrashRecovers | internal/server/store_persistence.go:15-79 | A crash at any moment leaves one issued revision, at least the last one reported written and containing everything acknowledged before; restarting from it gives an exact index and no unfinished job |
| StoreGuarantees.AfterCloseAllIsOnDisk | internal/server/store_lifecycle.go:22-61 | After a Close that returned nil, whatever anybody still does, memory and history stay as they are and a crash at any moment leaves exactly the last issued revision |
| StoreProgress.NoLostWakeup | internal/server/persistence_coordinator.go:51-68 | In every reachable state, while a published revision is untried and its publisher has woken the worker, a resting worker can take that wake-up, and the worker has not gone |
| StoreProgress.ProducersCanLeave | internal/server/store_lifecycle.go:22-61 | Once no producer waits for its turn or has it, the remaining ones can unregister, and then every close that drains them can go on |
| StoreProgress.StoppedWorkerCanFinish | internal/server/persistence_coordinator.go:136-178 | Once a close has signalled the worker, steps of the worker alone lead to its end, where every waiting close can return |
| StoreProgress.FlushCanSucceed | internal/server/persistence_coordinator.go:70-117 | From every reachable state with a running worker and the last revision published, a flush can begin and be answered nil |
| StoreOnDisk.SaveLatest | internal/server/persistence_coordinator.go:180-190 | The worker's call of the file writer, under any failing file operations, is one turn of the system on its disk, and keeps what a crash may leave exactly what the answers of the saves say |
| StoreOnDisk.WorldHolds | internal/server/persistence_coordinator.go:136-212 | In every run of the store with the file writer on its disk, the files a crash may leave are complete and exactly those of the revisions that the answers of the saves so far say, each of them in the set of possible ones |
| StoreOnDisk.SurvivesIff | internal/server/job_persistence.go:64-134 | By the answers of the saves a crash may leave a revision if and only if a save of it got past the rename, or it was there at the start, and from then on whatever a save put on disk for good was again that revision |
| StoreOnDisk.DiskIsExact | internal/server/job_persistence.go:64-134 | In every run, some directory that may survive a crash has a given file under the live name if and only if that is the file of a revision that survives the saves so far |
| StoreOnDisk.RunIsASchedule | internal/server/persistence_coordinator.go:136-212 | Every run on the disk is a schedule of the system, so that what holds of all schedules holds of it |
| StoreOnDisk.EveryCrashRecovers | internal/server/store_persistence.go:15-79 | A crash at any moment, within a save or not, leaves the file of one revision, which the saves so far have left or which is being saved, at least the last reported written and with everything acknowledged before; the next process begins soundly on that disk, so this holds over any number of crashes |
| RejectedMutation.RejectedMayReturnIff | internal/server/store_persistence.go:108-151 | When a durable mutator returns its failure, its revision is the last but one and carries the rejected mutation; as far as the store can tell, a crash may bring it back if and only if no save of the rollback has succeeded, that is unless only the rollback revision is possible |
| RejectedMutation.RejectedReturnsIff | internal/server/job_persistence.go:64-134 | On the disk, after any run, a crash may bring the rejected mutation back if and only if its file survives the saves so far: unless an older revision had that very file, if and only if a save of its revision got past the rename and nothing that a save put on disk for good since was another; and that file is never the one the rollback restores |
| WorstDisk.PossibleMeansPossible | internal/server/job_persistence.go:64-134 | For every schedule there is a course of the disk, run by the file writer itself, in which a crash may leave every revision the store counts as possible, the rejected one included, but for one that is just being saved |
| RejectedMutation.RejectedMutationSurvivesCrash | internal/server/job_persistence.go:113-134 | A run on the disk: after the rename, the directory sync and the undoing of the rename fail, then the save of the rollback fails; the mutator reports an error and memory is as before, yet whatever directory a crash leaves, the file holds the rejected job |
| RejectedMutation.RejectedMutationStaysOut | internal/server/job_persistence.go:64-99 | A run on a full disk, where both saves fail before the rename: as far as the store can tell the rejected job may come back, but no crash brings it back |
| Coordinator.RecordKeepsOrdered | internal/server/persistence_coordinator.go:180-212 | Recording a save begun earlier keeps the revisions ordered over any publications in between, and the written revision never falls |
| Coordinator.PersistenceCoordinator.PublishSnapshot | internal/server/persistence_coordinator.go:51-68 | A closed coordinator refuses and stays as it was; otherwise the newest revision is pending, with its snapshot, and the worker is woken |
| Coordinator.PersistenceCoordinator.BeginWrite | internal/server/persistence_coordinator.go:180-190 | Captures the pending snapshot exactly when it is newer than what was written |
| Coordinator.PersistenceCoordinator.EndWrite | internal/server/persistence_coordinator.go:191-212 | Records the attempt, its error and, on success, the written revision, and tells whether something newer arrived |
| Coordinator.PersistenceCoordinator.Look | internal/server/persistence_coordinator.go:75-100 | One look of a flush: nil exactly for a written revision, the last error exactly for a tried one with an attempt since it began |
| Coordinator.PersistenceCoordinator.Close | internal/server/persistence_coordinator.go:119-134 | Marks the coordinator closed and signals the worker, and changes nothing else, however often it is called |
| SaveFile.Persistence.Save | internal/server/job_persistence.go:64-134 | The operations that fail decide the answer, nil exactly when all that it needs succeed. Every disk state on the way holds a complete old or new snapshot under the live name, whatever directory a crash leaves; and the answer says exactly what a crash may leave afterwards: the old contents up to the rename, the new one too after it, and only the live one once the directory is synced |
| SaveFile.AnswerIs | internal/server/job_persistence.go:64-134 | Which of its answers a save gives, exactly, by the operations that fail: marshalling, the temporary file, the rollback point, the rename, the directory sync and its undoing; clean-up plays no part |
| SaveFile.Persistence.CreateRollbackFile | internal/server/job_persistence.go:136-152 | Success means a synced rollback file holding the old snapshot, or that there was none |
| SaveFile.Persistence.LinkLive | internal/server/job_persistence.go:136-152 | The rollback point by hard link leaves live and temporary files as they were |
| SaveFile.Persistence.CopyLive | internal/server/job_persistence.go:154-184 | Where links are refused, a synced copy, never over a rollback file that is still there |
| SaveFile.Persistence.UndoRename | internal/server/job_persistence.go:186-191 | Putting the rollback file back restores the old snapshot, or removes the live file when there was none |
| SaveFile.CrashKeepsSafe | internal/server/job_persistence.go:64-134 | A crash at a safe point leaves a safe disk whose live file is one of the allowed snapshots |
| SaveFile.LeftIsExact | internal/server/job_persistence.go:64-134 | A content is counted as left if and only if some surviving directory has it under the live name after a crash |
| SaveFile.RenameIsSafe | internal/server/job_persistence.go:64-134 | Renaming a synced complete file over the live one is safe, and adds exactly that file to what a crash may leave |
| SaveFile.SyncDirIsSafe | internal/server/job_persistence.go:64-134 | Only a successful directory sync narrows what a crash may leave, and it does so to the present live file |
| JobStore.JobStore.CreateJobWithKeyDurable | internal/server/store.go:88-143 | A closed store refuses; a key already indexed returns the existing job and changes nothing; otherwise a pending job with the given ID, request, key and times is added under its ID and key, durably, or, on a failed flush, jobs and index are as before |
| JobStore.JobStore.EndDurably | internal/server/store.go:416-448 | Ending a job publishes the edited and pruned state under one revision and leaves that job as edited and no other changed, though the oldest finished ones may go; on failure memory is the pre-state again, published under the next revision |
| JobStore.JobStore.FailJobIfNonTerminal | internal/server/store.go:344-372 | Applies exactly to an unfinished job of an open store once saved, and leaves it Failed with that error, progress 0 and that time, every other field as it was; all or nothing, and a closed store answers with its own error |
| JobStore.JobStore.CompleteJob | internal/server/store.go:416-448 | Leaves an unfinished job of an open store Completed with those outputs, progress 100, no error and that time, every other field as it was, or on a failed flush nothing; the closed, not-found and already-terminal errors, each in its case, leave everything untouched |
| JobStore.JobStore.CancelJob | internal/server/store.go:452-486 | Leaves an unfinished job Canceled at that time, every other field as it was, all or nothing, with the same three refusals; the job's context is canceled only after the commit |
| JobStore.JobStore.UpdateJobDurable | internal/server/store.go:268-312 | Sets status, progress, error and time of an unfinished job of an open store and nothing else; terminal updates are durable and all or nothing, others publish without waiting |
| JobStore.JobStore.UpdateRunningIfActive | internal/server/store.go:318-338 | Applied exactly when the store is open, the job is unfinished and its progress would not fall: it is then Running at that progress without an error; an error exactly when the store is closed |
| JobStore.JobStore.SetLectureProgress | internal/server/store.go:375-393 | Sets the completed and total counts exactly when the store is open, the job is unfinished and the completed count would not fall |
| JobStore.JobStore.SetFilteredLectures | internal/server/store.go:243-259 | In an open store, sets the filtered count of a job that exists and publishes it, and changes nothing else |
| JobStore.JobStore.SetOutputs | internal/server/store.go:396-413 | In an open store, sets the outputs of a job that exists and publishes them, and changes nothing else |
| JobStore.JobStore.RollbackMutation | internal/server/store_persistence.go:108-123 | Memory becomes the captured state in every field, under a new published revision, and the error says whether that revision was saved |
| JobStore.JobStore.SnapshotAndPublish | internal/server/store_persistence.go:125-141 | The revision grows by one and the coordinator receives the whole job map under it |
| JobStore.JobStore.LoadFromDisk | internal/server/store_persistence.go:15-79 | Loading a file this store wrote gives exactly the restored state, and reports a change exactly when interruption or retention changed the file |
| JobStore.JobStore.PruneTerminalJobsLocked | internal/server/store_retention.go:12-42 | Removes exactly the oldest terminal jobs over the bound, with their index entries |
| JobStore.PrunePersistedTerminalJobs | internal/server/store_retention.go:52-81 | Removes exactly the oldest terminal entries over the bound from a persisted map |
| JobStore.OldestExcess | internal/server/store_retention.go:20-33 | Sorting and taking the front selects exactly the jobs that the order by rank calls the oldest |
| Jobs.ApplyKeepsInv | internal/server/store.go:98-134 | Every mutation keeps the idempotency index exact in both directions and the terminal history within its bound |
| Jobs.DurableChangesFile | internal/server/store.go:88-486 | Every durable mutation changes the file: its job is new there, or has ended, or is gone |
| Jobs.TerminalStatusIsFinal | internal/server/store.go:268-486 | No mutation changes the status of a terminal job |
| Jobs.PruneRemovesOldestTerminal | internal/server/store_retention.go:12-42 | Retention removes only terminal jobs, exactly the excess, each earlier in (updatedAt, id) order than every kept one, and changes no kept job |
| Jobs.EndedJobSurvivesIff | internal/server/store_retention.go:12-42 | The operation that ends a job keeps that very job exactly when the history has room or another terminal job is older |
| Jobs.ClockBehindLosesJob | internal/server/store_retention.go:12-42 | With a full history and a clock behind all of it, the operation that ends a job removes that job |
| Jobs.EndedJobCanBePruned | internal/server/store_retention.go:12-42 | Such a state, which satisfies the invariant: a thousand jobs finished at instant 1, and a job canceled at instant 0 |
| Jobs.PruneCommutesWithSnapshot | internal/server/store_retention.go:12-81 | Pruning the live map and then writing it gives the same file as pruning the written map |
| Jobs.SnapshotIsWellFormed | internal/server/store_persistence.go:125-132 | A snapshot of an indexed store can be loaded: entries sit under their own IDs and no two share a key |
| Jobs.RestoreKeepsInv | internal/server/store_persistence.go:15-79 | A restart rebuilds an exact index, ends every unfinished job and enforces the history bound |
| Jobs.RestoreContents | internal/server/store_persistence.go:15-79 | A restart keeps finished jobs exactly as written, turns unfinished ones into failed ones with the interruption message, drops only what retention drops, and adds nothing |
| Retention.VictimsAreTheOldest | internal/server/store_retention.go:12-42 | Exactly the excess over the bound is dropped, and every dropped job is older than every kept one |
| Retention.RanksAreDense | internal/server/store_retention.go:20-27 | In (updatedAt, id) order exactly k jobs have fewer than k elders: no ties and no gaps |
| Retention.SortedIndexIsRank | internal/server/store_retention.go:20-27 | The position of a job in the sorted list is the number of jobs older than it |
| Retention.SurvivesIffNotOldest | internal/server/store_retention.go:12-42 | With one job too many, a job is dropped exactly when none is older |
| JobEvents.InvariantHolds | internal/server/job_executor.go:50-101 | Every state of every run of executor, cancel handler and silent mutations keeps events and store in step |
| JobEvents.EventsAreOrderly | internal/server/job_executor.go:50-101 | In any run a job has at most one terminal event and no event of any kind follows it; the progress its events carry, cancellation and completion included, falls exactly where a completion follows a report above 100 |
| JobEvents.ExecutorStaysBelowCompleted | internal/server/job_executor.go:90-217 | Every progress value the executor reports lies between 2 and 95 |
| JobEvents.EventsMatchTheStore | internal/server/job_executor.go:232-264 | In any run a job that the store still holds is stored as its terminal event says: Completed with the event's outputs (unless they were replaced later), progress 100 and no error; Failed with the event's error and progress 0; Canceled at the event's progress. Its other events are not ahead of it |
| JobEvents.EndedJobsWereReported | internal/server/job_executor.go:232-264 | A job that completed or failed since startup has its event, with its error or its outputs |
| JobEvents.NoEventWithoutTransition | internal/server/job_executor.go:50-101 | A step that broadcasts applied, in that same step, the transition it reports, to a job that was not terminal, and broadcast exactly the events of that transition, with its progress, error or outputs |
| JobEvents.EventSource.UpdateRunningProgressLocked | internal/server/job_executor.go:56-72 | Broadcasts a progress event exactly when the store applied the update |
| JobEvents.EventSource.StartJob | internal/server/job_executor.go:91-101 | The started event follows the first progress event, or neither is broadcast |
| JobEvents.EventSource.CompleteJob | internal/server/job_executor.go:232-247 | The completed event exactly when the store accepted the completion |
| JobEvents.EventSource.FailJob | internal/server/job_executor.go:249-264 | The failed event exactly when the store applied and saved the failure |
| JobEvents.EventSource.CancelJob | internal/server/handlers.go:250-262 | The canceled event, with the job's progress, exactly when the cancellation was saved |
| JobEvents.EventSource.HandleCancelIfNeeded | internal/server/job_executor.go:74-89 | Cancels without an event, and only when the job's context ended |
| Pipeline.InvariantHolds | internal/downloader/pipeline.go:185-352 | Every schedule of submitter, workers, budget, collector and cancellation keeps the accounting exact |
| Pipeline.BytesInFlight | internal/downloader/pipeline.go:185-206 | In-flight bytes are exactly those acquired and not yet released; above the budget they all belong to one chunk |
| Pipeline.StepLowersMeasure | internal/downloader/pipeline.go:208-352 | Every step lowers a per-chunk stage measure |
| Pipeline.RunsAreBounded | internal/downloader/pipeline.go:208-352 | No schedule is longer than the measure of where it starts |
| Pipeline.BoundOfAnyRun | internal/downloader/pipeline.go:166-352 | A whole run takes at most nine steps a chunk, one a worker and three |
| Pipeline.NeverStuck | internal/downloader/pipeline.go:185-287 | Until submitter and collector are done, some step other than cancelling is enabled, with at least one worker of each kind or after a cancellation |
| PipelineRuns.CleanRunExists | internal/downloader/pipeline.go:166-352 | With a worker of each kind, every playlist has a run in which nothing is canceled, every chunk is decrypted and both sides finish |
| PipelineRuns.QueuesAreBounded | internal/downloader/pipeline.go:134-149 | In every run each channel holds at most twice as many chunks as it has workers, or one |
| PipelineRuns.AdmittedExactlyWhen | internal/downloader/pipeline.go:185-206 | A fetched chunk stops waiting exactly when nothing is in flight, or it fits the budget beside what is, or the context has ended |
| PipelineRuns.OneDroppedEach | internal/downloader/pipeline.go:208-287 | A worker that abandons a chunk is gone, so at most one chunk a worker is abandoned |
| PipelineRuns.ResultsComeFromSteps | internal/downloader/pipeline.go:208-287 | Every result that arrives is of a step of the run on that chunk: success of a decryption that succeeded, failure of one that failed or of a failed download, and canceled only of a download that was |
| Collector.BuildOrderedList | internal/downloader/pipeline.go:354-374 | One entry per collected chunk, by ascending chunk ID |
| Collector.Collect | internal/downloader/pipeline.go:310-352 | Sorts the arrived results into first view, second view and failures, and orders the views |
| Collector.ResultsPartition | internal/downloader/pipeline.go:310-352 | First-view, second-view and failed results together are all results, none counted twice |
| Collector.DownloadIsComplete | internal/downloader/downloader.go:248-315 | When the download returns its lists then, for every interleaving, each selected view's list has one path per URL, in URL order, and at the end of the run the file at each path holds the decryption of that URL's chunk, whatever files were there before |
| Collector.ConcludesExactly | internal/downloader/downloader.go:270-315 | What the download returns for every run: incomplete exactly when some result never arrived, the context's error exactly when all arrived, the caller had canceled and some chunk failed of that, the chunk failures exactly when all arrived and some failed otherwise, the lists exactly when all were decrypted; never the submission's error, because a failed submission leaves the download incomplete |
| Collector.UncanceledRunsConclude | internal/downloader/downloader.go:248-289 | Without a cancellation the download succeeds exactly when every chunk was decrypted, with one path per URL in URL order for both views, and reports chunk failures exactly when some chunk failed |
| Collector.FailuresAreSorted | internal/downloader/pipeline.go:337-345 | The failures reported are those that arrived, each once, in strictly ascending order of view and chunk, whatever order they arrived in |
| Collector.PathsAreDistinct | internal/downloader/downloader.go:551-568 | All decrypted paths of one download differ, so no chunk replaces another |
| Collector.SamePathSameChunk | internal/downloader/pipeline.go:247-287 | Equal paths come only from the same view and chunk ID, however large the ID |
| Collector.UncanceledRunsAreComplete | internal/downloader/pipeline.go:310-352 | Without a cancellation every submitted chunk ends in exactly one of first view, second view or failures |
| EncodedView.SpansTileTheRawText | internal/secrets/secrets.go:817-874 | After any number of layers text and spans have equal length, neighbouring spans are adjacent or are one span shared by bytes that are not ASCII, and together they tile the raw text |
| FaithfulSpans.SpansAreFaithful | internal/secrets/secrets.go:825-874 | The raw bytes between two span boundaries of a view decode, on their own and through the same layers, to exactly the bytes of the view between them |
| FaithfulSpans.ViewSplitsAtACut | internal/secrets/secrets.go:825-874 | Cutting the raw text where a span boundary points cuts the whole layered decoding there: the view is the view of the first part followed by the view of the second |
| EncodedView.ChangedLayerShortens | internal/secrets/secrets.go:830-870 | A layer that changed anything is strictly shorter; one that did not is the same text and spans |
| EncodedView.DecodeEncodedViewLayer | internal/secrets/secrets.go:830-870 | The loop computes the layer of the reference decoder, of which Spellings says what text it gives and FaithfulSpans which spans, and returns a view with mismatched spans unchanged |
| EncodedView.RawEncodedView | internal/secrets/secrets.go:817-823 | One span per byte |
| EncodedView.EveryStretchHasARange | internal/secrets/secrets.go:941-951 | Every non-empty stretch of decoded bytes has a raw range, in bounds and not empty, that holds the span of each of its bytes |
| Escapes.ParseJsonHex4 | internal/secrets/secrets.go:1017-1030 | Gives n exactly for four hexadecimal digits, each in either case, that write n, and refuses anything else |
| Escapes.NibblesAreExact | internal/secrets/secrets.go:472-483 | The lower-case and the upper-case digit of a number below 16 have its value, and no other byte has one |
| Spellings.DecodingUndoesWriting | internal/secrets/secrets.go:830-870 | However a text is written, every byte plain or percent escaped, every code point plain, by a short escape or by \u escapes with surrogate pairs, every hexadecimal digit in either case, one decoded layer gives back what was meant |
| Spellings.PercentDecodingUndoesWriting | internal/secrets/secrets.go:448-483 | The plain percent decoder gives back any bytes, each written plain or percent escaped with digits in either case, and leaves backslashes alone |
| Spellings.ShortEscapesAreExact | internal/secrets/secrets.go:953-995 | The eight short escapes stand for the characters that section 7 of RFC 8259 gives them, and no other letter makes one |
| Spellings.Utf8IsExact | internal/secrets/secrets.go:974-988 | The bytes of a code point have the length of its range, continuation bytes after the first, and stand for that code point by the weights of section 3 of RFC 3629 |
| Spellings.LoneSurrogateIsReplaced | internal/secrets/secrets.go:998-1015 | A surrogate escape that is not part of a pair stands for U+FFFD and takes six bytes only |
| PercentCoding.PercentLayerIsDecodePercent | internal/secrets/secrets.go:448-470 | On text without a backslash the spanned decoder and the plain percent decoder give the same text |
| PercentCoding.DecodeUndoesEncode | internal/secrets/secrets.go:448-483 | Percent decoding undoes the full percent encoding of any bytes |
| PercentCoding.LayersUndoEncodings | internal/secrets/secrets.go:694-780 | Encoding every byte any number of times is undone by as many decoded layers |
| PercentCoding.DecodePercentEscapes | internal/secrets/secrets.go:448-470 | The loop computes the reference decoding, of which Spellings says what it gives, and reports a change exactly when the text got shorter |
| PercentCoding.FullyPercentEncodeToken | internal/secrets/secrets.go:770-780 | Three bytes per byte, and decoding gives the value back |
| Scrubber.ReplaceRawCredentialRanges | internal/secrets/secrets.go:1636-1667 | For ranges in bounds and not empty, in any order and overlapping at will, sorting and merging gives the byte-by-byte reference: bytes outside the union in order, a marker where a range begins and none reaches across |
| Scrubber.EveryRunIsMarked | internal/secrets/secrets.go:1636-1667 | Every run of removed bytes begins with a marker |
| Scrubber.ReplaceEncodedViewRanges | internal/secrets/secrets.go:914-939 | The raw text with exactly the accepted ranges replaced |
| Scrubber.AcceptedArePieces | internal/secrets/secrets.go:914-951 | Accepted ranges are whole raw ranges of matches, in bounds, pairwise disjoint and in order, so kept bytes and replaced spans partition the raw text |
| Scrubber.EveryMatchIsHit | internal/secrets/secrets.go:876-939 | No match is left whole: the raw range of every match, taken or passed over, begins inside a replaced range |
| Scrubber.ScrubEncodedAssignments | internal/secrets/secrets.go:1517-1560 | The result is the text with the ranges recognized in the text and its first three decoded views cut out, or one marker for a text that is too long or decodes further |
| Scrubber.EveryLayerIsScrubbed | internal/secrets/secrets.go:1513-1560 | Unless the scrubber gives up, every raw byte under anything recognized in a decoded view of any depth is cut out |
| Scrubber.OnlyFindingsAreCut | internal/secrets/secrets.go:1513-1560 | A byte is cut out only when it lies under something recognized in one of the views looked at |
| BreakCursor.BreakCursor.Next | internal/secrets/secrets.go:1716-1730 | Answers as the naive forward scan does, and what it remembers and how many bytes it has looked at stay those of serving all requests so far |
| BreakCursor.EveryAnswerIsNaive | internal/secrets/secrets.go:1701-1730 | Over any sequence of start positions every answer is that of the naive scan |
| BreakCursor.WorkIsBounded | internal/secrets/secrets.go:1701-1730 | All requests together look at no byte of the text twice, plus the bytes they step back |
| BreakCursor.TotalWorkIsLinear | internal/secrets/secrets.go:1673-1710 | When no request lies more than one byte before the furthest so far, the bytes looked at are at most the text length plus the number of requests |
| CredentialScan.CanonicalCredentialValueRanges | internal/secrets/secrets.go:1673-1685 | The scan over all delimiters finds what it would without remembered positions, which Credentials says by the text alone, and its two cursors together look at no more than five times the bytes of the text |
| Credentials.ScanFindsCredentials | internal/secrets/secrets.go:1673-1770 | A range is found exactly when it is the credential of some delimiter after a sensitive key, lies within the text, is not empty and does not read REDACTED; the credential is what is between the quotes, or from the first byte that is not space to the first break, or, after an authorization key, the word after a scheme and else the whole value |
| Credentials.OneCredentialEach | internal/secrets/secrets.go:1742-1770 | A delimiter after a sensitive key has exactly one credential, after it and within the text, unless only white space follows |
| Credentials.RangeAtIsExact | internal/secrets/secrets.go:1742-1770 | At one delimiter a range is reported exactly when it is the credential there, not empty and not redacted already |
| Credentials.AuthorizationIsExact | internal/secrets/secrets.go:1808-1856 | After an authorization key: the word after a scheme up to the first break within the value, else the whole value, to the end of the line or parameter when neither key nor value is quoted |
| Credentials.QuotedKeyFindsIff | internal/secrets/secrets.go:1808-1819 | After a quoted authorization key a value without quotes and scheme is found exactly when no break byte stands right before it |
| Credentials.SpacedValueIsNotFound | internal/secrets/secrets.go:1808-1819 | Such a value, after a space, that this scan does not find |
| CredentialScan.ScanIsDisciplined | internal/secrets/secrets.go:1673-1710 | On any text the scan asks each cursor for at most two positions a byte, none more than one byte before an earlier one |
| CredentialScan.RangeAsksNear | internal/secrets/secrets.go:1742-1856 | For one delimiter the positions asked for lie from there on with no delimiter between, the one step back included |
| CredentialScan.CanonicalCredentialRangeAt | internal/secrets/secrets.go:1742-1770 | One delimiter: finds and asks what the reference says, whose range Credentials.RangeAtIsExact gives by the text alone |
| CredentialScan.AuthorizationValueRange | internal/secrets/secrets.go:1808-1819 | An authorization value: the word after a scheme, or else the whole value, with the positions that the reference asks for |
| CredentialScan.RecognizedSchemeCredentialRange | internal/secrets/secrets.go:1838-1856 | The word after a known scheme, asked for only when there is one |
| CredentialScan.QuotedValueEnd | internal/secrets/secrets.go:1958-1968 | The next unescaped quote of the same kind, or the end of the text |
| BreakCursor.AssignmentValueEnd | internal/secrets/secrets.go:1958-1975 | The unquoted scan returns the first break byte |
| LibraryJobs.Store.RecoverInterruptedJobs | internal/library/jobs.go:356-405 | Fails only on a database error; otherwise the listed recoverable jobs of the kind are dealt out to exactly one of recovered, pending and skipped, and every recovered one comes with its manifest; under the producer lock none of the kind is left running and every verdict still stands; alone, no other job changes and each manifest is what the files make |
| LibraryJobs.Store.RecoverOne | internal/library/jobs.go:381-402 | One job: pending when its outputs are not all valid or changed meanwhile, recovered when committed, skipped when it is no longer recoverable |
| LibraryJobs.Store.InterruptRunning | internal/library/jobs.go:365-374 | Exactly the running jobs of the kind become recoverable, with the interruption summary and time, and no other field, row or table changes |
| LibraryJobs.Store.ContainRecoveryError | internal/library/jobs.go:413-423 | Job-state failures skip the job, unstable outputs park it, anything else aborts |
| LibraryRecovery.RecoveryIsIdempotent | internal/library/jobs.go:356-405 | Recovering again over unchanged files recovers and skips nothing, leaves the same jobs pending, and changes no status, artifact or file row |
| LibraryJobs.TerminalIsForever | internal/library/jobs.go:159-291 | Between any two committed states, across crashes and other writers, a terminal job's row is unchanged, and a completed job keeps its artifact row and one digested file row per expected path under its logical ID |
| LibraryJobs.Store.CreateJob | internal/library/jobs.go:117-156 | A pending job with its logical ID, only for a valid ID and kind, when files are expected and their paths differ, and never over an existing ID |
| LibraryJobs.Store.StartJob | internal/library/jobs.go:159-179 | Succeeds exactly from pending or recoverable; the row is then running, with one attempt more, started now, and no finish or summary, every other field as it was |
| LibraryJobs.Store.FinishJob | internal/library/jobs.go:182-215 | Succeeds exactly for a job that is not terminal; the row then has the given status, summary and time, every other field as it was |
| LibraryJobs.Store.RequireJobTransition | internal/library/jobs.go:705-724 | Says why an update matched no row: missing, terminal, or wrong state |
| LibraryJobs.Store.CompleteJob | internal/library/jobs.go:218-227 | Success means that the manifest was built again from the files on disk, and the job is completed under the manifest's ID: as it was, if it was completed before, and otherwise finished now without a summary |
| LibraryJobs.Store.CompleteValidatedJob | internal/library/jobs.go:234-291 | Digests are filled before the transaction; then either the manifest and the completion, which sets status, artifact, time and summary of that row, commit together or nothing changes |
| LibraryJobs.Store.SetRecoverableSummary | internal/library/jobs.go:726-730 | Changes the summary of a job that is still recoverable and nothing else |
| LibraryTables.CompleteKeepsInv | internal/library/jobs.go:234-343 | A completion records the artifact and a digested row for every expected path, and touches no other job |
| LibraryTables.CompleteErrors | internal/library/jobs.go:325-350 | Which error a completion ends in, by the state of the job, in both directions |
| LibraryTables.BuiltMatches | internal/library/jobs.go:658-703 | A manifest built from an expectation always matches that expectation, so recovery never aborts on a mismatch |
| LibraryTables.MatchesManifest | internal/library/jobs.go:679-703 | True exactly when metadata and file count agree and every expected file matches the manifest's last file of its path |
| LibraryTables.MatchesIs | internal/library/jobs.go:679-703 | When the manifest's paths differ: metadata and file count agree and every expected file has one of its path and shape, with its digest, if it has one |
| LibraryTables.Build | internal/library/jobs.go:658-677 | A manifest exactly when files are expected, their paths are distinct and each is a regular file that is not empty, in its container and with the digest expected, if any; it then says of each its path, shape, digest and size |
| LibraryTables.DigestManifestFiles | internal/library/verify.go:247-261 | Fills exactly the open digests, from files whose size is still the recorded one, or refuses |
| LibraryTables.RecordManifestTx | internal/library/artifact.go:111-193 | The upserts compute the recorded tables: the artifact row with the manifest, updated now and created when it first was; or they refuse, exactly when another identity is stored |
| LibraryTables.WithFilesHasRows | internal/library/artifact.go:160-192 | After the upserts every file of the manifest has a row that says what it says, and no other row changes |
| LibraryTables.WithFilesDates | internal/library/artifact.go:160-192 | A file row that changes is verified and updated now, and keeps the time it was created |
| LibraryTables.RecordedKeepsInv | internal/library/artifact.go:111-193 | Recording a manifest whose ID is its identity is never refused, loses no row and no digest, and keeps every completed job's rows |
| Playback.Library.RecordPlayback | internal/library/playback.go:26-87 | Stores exactly the checkpoints of a known artifact with finite, not negative seconds, a position within the duration, if any, and a time not in the future, when the database works; otherwise the matching error and no change; the row of that artifact alone is upserted |
| Playback.StoredIsTheLatestMerged | internal/library/playback.go:48-71 | Whatever the delivery order, the stored row is the merge of exactly the checkpoints with the greatest timestamp: their largest position, and their largest duration unless that is shorter, else none |
| Playback.MergeIsAssociativeAndCommutative | internal/library/playback.go:53-69 | Merging checkpoints of one time is associative and commutative, keeps them valid, and is what the upsert does |
| Playback.DeliveryOrderDoesNotMatter | internal/library/playback.go:48-71 | The same checkpoints in any order, repeated or not, store the same position, duration and timestamp |
| Playback.CompletedExactlyWhen | internal/library/playback.go:66-71 | The completed flag is set exactly by the completed checkpoints that were not older than one already stored |
| Playback.CompletedDependsOnOrder | internal/library/playback.go:66-71 | Two checkpoints that store a completed resume point in one order and one that is not completed in the other |
| Playback.CompletedNeverReverts | internal/library/playback.go:66-71 | Once stored, completed stays, and the stored timestamp never goes back |
| DatabaseTime.TextOrderIsTimeOrder | internal/library/time.go:5-11 | For years up to 9999, comparing stored timestamps as text is comparing the instants |
| DatabaseTime.FormatLayout | internal/library/time.go:5-11 | Up to the year 9999 the text has thirty characters in the fixed layout, and every calendar field reads back from its place |
| DatabaseTime.FormatIsInjective | internal/library/time.go:5-11 | Different instants have different texts |
| DatabaseTime.YearLimitIsExact | internal/library/time.go:5-11 | Text order agrees with time order for all years up to a limit if and only if the limit is at most 9999 |
| OutputGate.InvariantHolds | internal/downloader/ffmpeg.go:161-200 | Every run of entering, taking, giving up and releasing keeps the gate table exact |
| OutputGate.MutualExclusion | internal/downloader/ffmpeg.go:161-200 | At most one caller holds the gate of a key |
| OutputGate.TableIsExact | internal/downloader/ffmpeg.go:161-200 | A key is in the table exactly while somebody holds or waits for it |
| OutputGate.TokenIsExact | internal/downloader/ffmpeg.go:161-200 | The token is present exactly when nobody holds the gate, so a release never blocks and a waiter can take a free gate |
| OutputGate.FinalOutputGates.Enter | internal/downloader/ffmpeg.go:167-175 | Finds or makes the gate of the key and refers to it |
| OutputGate.FinalOutputGates.Take | internal/downloader/ffmpeg.go:177-178 | The holder takes the token and nothing else changes |
| OutputGate.FinalOutputGates.Release | internal/downloader/ffmpeg.go:179-189 | Returns the token to an empty channel and drops an unused gate; repeating it changes nothing |
| OutputGate.FinalOutputGates.Cancel | internal/downloader/ffmpeg.go:191-198 | A waiter that gives up leaves the token alone and drops an unused gate |
| MpvClient.InvariantHolds | internal/player/client.go:196-371 | Every interleaving of callers, read loop and shutdown keeps the request table sound |
| MpvClient.RequestsAreAnsweredOnce | internal/player/client.go:232-371 | Pending never exceeds its limit, each channel receives at most one send, which never blocks, and a caller gets its own answer or the terminal error |
| MpvClient.ResponsesAreCarried | internal/player/client.go:290-304 | In any run a response that was taken out of pending is from then on in one place, its channel or its caller, and unchanged |
| MpvClient.WaitersAreNotForgotten | internal/player/client.go:196-211 | Until done closes, a waiting caller's request is pending, taken or answered; afterwards the caller can always return |
| MpvClient.IdsAreUnique | internal/player/client.go:232-245 | The next request ID was never used, and registering puts it in pending |
| MpvClient.ShutdownIsFinal | internal/player/client.go:353-371 | After a shutdown nothing is pending, nothing can register, and the first terminal error stays |
| MpvClient.Client.RegisterPending | internal/player/client.go:232-245 | A fresh ID exactly when open and under the limit; otherwise the terminal error or the limit error, each in its case, and no change |
| MpvClient.Client.ClaimResponse | internal/player/client.go:290-296 | Takes the request out of pending exactly when it is there |
| MpvClient.Client.Send | internal/player/client.go:297-304 | The channel is empty, so the one send of a request does not block |
| MpvClient.Client.BeginShutdown | internal/player/client.go:353-364 | Takes every pending request out for the terminal error, once |
| MpvClient.Client.Shutdown | internal/player/client.go:353-371 | Every request that was pending receives the terminal error before done closes |
| MpvClient.Client.Await | internal/player/client.go:196-211 | Returns the answer when there is one, else the terminal error |
| MpvClient.Client.RemovePending | internal/player/client.go:247-253 | Forgets the caller's own request and nothing else |
| RateLimiter.AtMostLimitPerWindow | internal/server/ratelimiter.go:36-116 | In any run with a clock that does not go back, no window holds more than the limit of grants to an address not evicted or reset meanwhile, cleanup included |
| RateLimiter.GrantedExactlyWhen | internal/server/ratelimiter.go:36-75 | In any run an attempt is granted exactly when fewer than the limit of grants to that address since its last eviction or reset lie in the window that ends now |
| RateLimiter.LimitMustBePositive | internal/server/ratelimiter.go:36-75 | That bound holds of all runs if and only if the limit is at least one |
| RateLimiter.EvictsLeastRecentlyUsed | internal/server/ratelimiter.go:36-92 | In any run the entry map, the element map and the list hold the same addresses without duplicates and within capacity; an address is evicted exactly when a full table meets a new one, and it is the least recently asked about |
| RateLimiter.SpreadBoundsWindows | internal/server/ratelimiter.go:53-74 | Grants of which any limit plus one span a window never crowd into one window, wherever it ends |
| RateLimiter.LoginRateLimiter.Allow | internal/server/ratelimiter.go:36-75 | Computes the ruling of the model on map, list and index together |
| RateLimiter.LoginRateLimiter.EvictOldestUnsafe | internal/server/ratelimiter.go:79-92 | Removes the address at the back of the list everywhere |
| RateLimiter.LoginRateLimiter.Prune | internal/server/ratelimiter.go:53-60 | Keeps exactly the timestamps after the cutoff, in order |
| RateLimiter.CleanupForgetsStale | internal/server/ratelimiter.go:96-116 | In a run a cleanup forgets exactly the stale addresses and no grant that counts |
| RateLimiter.LoginRateLimiter.Cleanup | internal/server/ratelimiter.go:96-116 | Visiting the entries in any order removes exactly the addresses whose last timestamp is older than two windows, everywhere, and leaves the others as they were |
| RateLimiter.LoginRateLimiter.Reset | internal/server/ratelimiter.go:149-157 | Removes one address everywhere |
| LocalPlaylist.LocalPlaylistRoundTrip | internal/downloader/play.go:346-359 | Parsing the printed local playlist gives its URLs in order, durations rounded to milliseconds, no key and no second view, up to the segment limit, and the limit error above it |
| LocalPlaylist.LocalPlaylistServesUpstream | internal/downloader/play.go:307-359 | Every URL a player reads from the local playlist is served from the same position of the upstream playlist |
| LocalPlaylist.PathLeadsBack | internal/downloader/play.go:307-333 | The i-th local path of a view leads to its i-th upstream URL, and an index out of range to not-found |
| LocalPlaylist.OnlyListedSegmentsAreFound | internal/downloader/play.go:307-333 | Nothing but a URL of the named view is found, and only under the session token |
| LocalPlaylist.TargetBoundsSegments | internal/downloader/play.go:361-377 | No printed duration exceeds the target duration, as section 4.3.3.1 of RFC 8216 requires, and with at least one segment the target is the least whole number of seconds that bounds the unrounded durations |
| LocalPlaylist.ParsePlaylist | internal/client/client_playlist.go:111-177 | The loop computes the reference parse of any lines, with the first error |
| LocalPlaylist.ParsedListsEveryReference | internal/client/client_playlist.go:111-177 | A parsed playlist lists every media reference, resolved, once and in order, first view before second, each with a duration, within the segment limit |
| ParsedPlaylist.ParsedPlaylistIs | internal/client/client_playlist.go:111-177 | A parsed playlist lists the references before the first discontinuity as the first view and the others as the second, each with the duration of the last tag since the reference before it, or zero, and the key of the first key line whose URI resolves to one |
| ParsedPlaylist.ParseFailsAt | internal/client/client_playlist.go:127-160 | Which error a line ends the parse with, and when |
| ParsedPlaylist.KeyUriIsFirstMatch | internal/client/client_playlist.go:124-133 | The URI of a key line is the first closed and non-empty one in quotes |
| ParsedPlaylist.ExtInfIs | internal/client/client_playlist.go:227-237 | A duration is the number before the first comma, or zero when that is no positive number |
| LocalPlaylist.BuildLocalM3U8 | internal/downloader/play.go:346-359 | Prints exactly the lines of the local playlist, each with its line break |
| LocalPlaylist.LocalLinesAre | internal/downloader/play.go:346-359 | The lines of the local playlist one by one: six of header, a duration and a URL for each segment, and the end |
| LocalPlaylist.PrintMsIs | internal/downloader/play.go:346-359 | A printed duration is whole seconds, a point and three digits that together say the thousandths |
| LocalPlaylist.TargetDuration | internal/downloader/play.go:361-370 | The loop computes the ceiling of the longest duration, or of the fallback when there is none |

## Left out

- StoreSystem.InvariantHolds: that the worker is eventually scheduled or a condition variable eventually signalled is not stated. `StoreProgress` says what can happen from every state, and `Pipeline.NeverStuck` and `Pipeline.BoundOfAnyRun` give progress for the pipeline up to scheduling.
- JobStore.JobStore.UpdateJobDurable: jobs are values in the map, so readers that keep a pointer to a job, and the aliasing that creates, are not modelled.
- JobEvents.EndedJobsWereReported: a job canceled by the executor itself has no event, because the code broadcasts none; UpdateJob is excluded because nothing in the server calls it.
- Pipeline.BytesInFlight: queues are sets of chunks rather than FIFO channels, which admits more orders than the code does; sizes and the budget are unbounded integers.
- Collector.ConcludesExactly: which error is returned, not its text; where chunk failures accompany a cancellation or an incomplete download the code joins both texts.
- Collector.Collect: the text of a failure is not modelled; with one result for each chunk it never decides the order.
- PercentCoding.FullyPercentEncodeToken: the query, path and JSON encoders of the standard library are not modelled beside it.
- Scrubber.ScrubEncodedAssignments: the regular expressions and the canonical key scan are the parameter `find`; the evidence list is not modelled.
- CredentialScan.CanonicalCredentialValueRanges: which keys are sensitive, the white space of a rune, where a word ends and which words are schemes are parameters; the scans for keys and closing quotes are not counted in the work.
- LibraryJobs.Store.RecoverInterruptedJobs: the order of the result lists, the decoding of stored rows and the trimming of IDs are not modelled; validity of a file on disk is an abstract record of size, container and digest.
- LibraryJobs.Store.CreateJob: what the texts of ID and kind parse to is given, and expected artifacts arrive normalized; the text normalization of views, roles and paths is not modelled.
- LocalPlaylist.LocalPlaylistRoundTrip: number parsing and media URL resolution are parameters assumed to read back what was printed; durations are reals, so infinite and not-a-number durations are not modelled.
- MpvClient.Client.Await: the event channel, write deadlines and JSON framing are not modelled.
- OutputGate.FinalOutputGates.Enter: path normalization and muxer selection are not modelled.
- Machine integer widths: revisions, request IDs, byte counts and nanoseconds are unbounded, so wrap-around after 2^63 or 2^64 steps is not modelled; the 16-bit accumulator of the JSON escape reader is shown not to overflow.
- Monotonic clock readings: instants are calendar or integer times, supplied by the caller.
- A jobs file edited by hand: two entries with one idempotency key are resolved by map order in the code, and only files the store wrote are covered.
- HTTP handlers, WebSocket delivery, the event stream, upstream API calls and redirects.
- The database engine, migrations, file permissions, symlink checks and platform-specific rename behaviour.
- AES, SHA-256, JSON marshalling, ffmpeg and mpv themselves.
- Playback of a stream: the key store, the origin policy and the segment proxy.
- The watcher loop, CLI flags, configuration validation and progress display.
