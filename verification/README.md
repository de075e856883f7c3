# Behaviour of the knowledge platform's core, modelled and proved

A Dafny 4.11 project. It models the parts of the platform that keep state under concurrency or take apart untrusted
input, and proves what they guarantee over every run and every input. `dafny verify dfyconfig.toml` checks all of it.

Every database transaction and every single UPDATE is one atomic step, and actors interleave between steps. Clocks
never go back, random tokens and ids are drawn once. Functions that cannot be seen or are not the point (SHA-256,
UTF-8 decoding, Unicode normalisation, whether the queue takes a publication) are parameters about which
nothing is assumed. Objects and tables that the program updates in place are classes; each of their methods is tied
to a step function on values, and the theorems are about those functions and their runs.

| files | what they model |
|---|---|
| JobQueuePort, SqliteJobQueue | the reference job queue in memory and the SQLite table queue |
| JobQueueRefinement, JobQueueGuarantees, InMemoryGuarantees, QueueCalls | that they are one queue; bounded retries, idempotency keys, absorbing states; what each call does |
| RequestRateLimit, RateLimitWindow | fixed-window counters, single and batch; the sliding-window bound |
| ProcessingLease, LeaseEffects | execution tokens and leases of a processing job; who may act when |
| JobOutbox, OutboxPublications, OutboxSweep | the outbox and its dispatchers; how often it publishes; the dispatcher's loop |
| StorageQuota, QuotaRuns, QuotaAmounts | the storage ledger of an organization; conservation of the quota |
| ChunkedUpload, ChunkedUploadRuns, UploadAnswers | upload sessions, parts and reassembly; round trip, interleavings, crashes; every answer |
| ZipArchive, ZipAdmission, ZipSafety | the admission check of office packages; exactly which archives it admits; what their names can reach |
| TextNodes, TextLines, HeadingStack, ParsedTree, ParsedLines, ParsedText, ParsedLimits, DocxNodes, CompiledDocument | documents cut into nodes; the tree they form; the schema checks |
| SheetLabels, SheetTables, SheetNodes, SheetCells | spreadsheet labels and ranges; table blocks; their nodes |
| AgentRunLog, AgentRunGuarantees, AgentRunCalls, ScriptSegments, ScriptRules | runs and their event logs; scripts and the turns they are cut into |
| Assessments, AssessmentGrades, BoundingBoxes, BoxCover | submission and grading; intersection over union |
| Numerals, Text, Utf8, FiniteSets | decimal numerals; splitting, joining, trimming; encoded lengths; sizes of sets |

## What the proofs found

- The queues agree on more and on fewer names than the absence of "::" suggests: `a:` and `a` collide, because the
  in-memory key joins queue and key with "::". The exact condition is that no two names in use collide.
- A SQLite queue that is reopened restarts its counter and fails to create jobs until it has passed the stored rows.
- The rate limiter admits at most 2 * limit - 1 requests in any window-long interval, one less than twice the limit,
  and that many are possible.
- Two scopes share a rate limit counter if one holds a colon; scopes without one never do.
- A completed processing job is not final: `markProcessingCancelled` updates by id alone.
- Publishing from the outbox is at least once. It is at most once over clean steps. Another publication before the
  next reset is possible exactly if a dispatcher has already found the job queued, or one that is about to read it, or
  can still claim the row, may find it so: the job is queued or processing, or it has a queue job and can be cancelled
  and resumed. A job cancelled before its row was dispatched is not published until a reset.
- The storage quota can be exceeded by an upload that settles after its reservation expired, and by two overlapping
  writers of one derived key. It holds throughout a run exactly if every settlement finds room for what it adds beyond
  its own running reservation; a writer that dies does the quota no harm.
- A temporary blob left without its row makes its part, and so the upload, impossible to finish. Exactly three things
  leave one: a put that dies after writing it, a write that fails after creating it, and the ignored failure to remove
  the blob of a refused part.
- A Markdown line of one to six hashes and two or more white space characters, the last of them no line terminator,
  yields a heading with an empty title, which the document schema refuses; no other input yields an empty node.
- The last ratio check of the archive admission can never be the one that fails.
- A script whose failure directly follows a tool call loses the calls of that turn when it is replayed.

## Model

| member | source | states |
|---|---|---|
| JobQueueRefinement.Refinement | packages/core/src/sqlite-job-queue.ts:9 | The two queues have one semantics: over a set of queue names, every run with a clock that never goes back is answered alike by both, call by call, if and only if no two of the names can collide in the in-memory key |
| JobQueueRefinement.PlainNamesSeparable | packages/core/src/job-queue-port.ts:87 | Names without "::" that do not end in ":" never collide |
| JobQueueRefinement.CollisionSeparates | packages/core/src/job-queue-port.ts:87-111 | Two names that collide are told apart by two creations that the queues answer differently |
| JobQueueRefinement.BackwardClockSeparates | packages/core/src/job-queue-port.ts:118 | With a clock that goes back the queues claim different jobs, whatever the queue |
| JobQueueRefinement.StepAgrees | packages/core/src/job-queue-port.ts:76-186 | One call on coupled states: same reply, and the states stay coupled |
| JobQueueRefinement.DuplicatesAgree | packages/core/src/job-queue-port.ts:85-92 | The key map and the latest-row lookup find the same job for a repeated key |
| JobQueueRefinement.SweepIsRecovery | packages/core/src/job-queue-port.ts:164-178 | Recovering one record at a time over a snapshot equals one UPDATE of all expired rows |
| JobQueueRefinement.OldestIsFirst | packages/core/src/job-queue-port.ts:118-119 | Under a monotone clock the oldest queued record is the first row |
| JobQueuePort.InMemoryJobQueue.EnqueueJob | packages/core/src/job-queue-port.ts:77-111 | Creates a queued job, or returns the live or completed job of the key; error cases change nothing |
| JobQueuePort.InMemoryJobQueue.ClaimJob | packages/core/src/job-queue-port.ts:113-128 | Claims the oldest queued job of the queue, or none |
| JobQueuePort.InMemoryJobQueue.SettleJob | packages/core/src/job-queue-port.ts:130-154 | Completes or fails an active job; settled again the same way is a no-op, otherwise an error |
| JobQueuePort.InMemoryJobQueue.CancelJob | packages/core/src/job-queue-port.ts:156-162 | Cancels a queued job and says whether it did |
| JobQueuePort.InMemoryJobQueue.RecoverExpiredLeases | packages/core/src/job-queue-port.ts:164-178 | Returns every expired job to the queue or fails it, and counts them |
| JobQueuePort.InMemoryJobQueue.ListJobs | packages/core/src/job-queue-port.ts:180-184 | The jobs of a queue sorted by the text of their id |
| JobQueuePort.JobIdInjective | packages/core/src/job-queue-port.ts:93-94 | Different sequence numbers give different ids, also past eight digits |
| JobQueuePort.SortedKeeps | packages/core/src/job-queue-port.ts:118 | Sorting neither loses nor repeats a job |
| SqliteJobQueue.SqliteJobQueue.EnqueueRow | packages/core/src/sqlite-job-queue.ts:129-158 | Inserts a row, returns the live or completed latest row of the key, or fails on a taken id |
| SqliteJobQueue.SqliteJobQueue.ClaimRow | packages/core/src/sqlite-job-queue.ts:160-171 | Claims the first queued row of the queue |
| SqliteJobQueue.SqliteJobQueue.SettleRow | packages/core/src/sqlite-job-queue.ts:173-189 | Completes or fails an active row |
| SqliteJobQueue.SqliteJobQueue.CancelRow | packages/core/src/sqlite-job-queue.ts:191-196 | Cancels a queued row |
| SqliteJobQueue.SqliteJobQueue.RecoverRows | packages/core/src/sqlite-job-queue.ts:198-201 | One UPDATE of all expired rows, with its count |
| SqliteJobQueue.SqliteJobQueue.ListRows | packages/core/src/sqlite-job-queue.ts:203-206 | Rows ordered by id |
| JobQueueGuarantees.StepHealthy | packages/core/src/sqlite-job-queue.ts:91-120 | Every call keeps: queued jobs have an attempt left, active ones hold a lease and have used one, failed ones have none left, and of each queue and key only the latest job can be neither failed nor cancelled |
| JobQueueGuarantees.RunHealthy | packages/core/src/sqlite-job-queue.ts:129-206 | Over every run of the table queue these hold, identities never change, attempts never fall and terminal jobs stay as they were |
| JobQueueGuarantees.RetriesBounded | packages/core/src/sqlite-job-queue.ts:160-201 | In the table queue, without new jobs, the successful claims of any run plus the attempts left after it are at most the attempts left before it |
| InMemoryGuarantees.MemoryStepHealthy | packages/core/src/job-queue-port.ts:77-178 | Every call of the in-memory queue, for every queue name and clock, keeps: distinct issued ids, queued jobs have an attempt left, active ones hold a lease and have used one, failed ones have none left, the key map points to the latest job of each joined key and only that job can be neither failed nor cancelled |
| InMemoryGuarantees.MemoryRunHealthy | packages/core/src/job-queue-port.ts:77-178 | Over every run of the in-memory queue these hold, identities never change, attempts never fall and terminal jobs stay as they were |
| InMemoryGuarantees.MemoryRetriesBounded | packages/core/src/job-queue-port.ts:113-178 | In the in-memory queue, without new jobs, the successful claims of any run plus the attempts left after it are at most the attempts left before it |
| InMemoryGuarantees.DuplicateExactly | packages/core/src/job-queue-port.ts:85-92 | A call with a key creates a job if and only if every job with the same joined key is failed or cancelled; otherwise it returns the live or completed one |
| JobQueueGuarantees.ListedInCreationOrder | packages/core/src/sqlite-job-queue.ts:121-122 | Below 10^8 jobs a listing is in order of creation |
| JobQueueGuarantees.ReopenedDatabaseRejects | packages/core/src/sqlite-job-queue.ts:68-80 | A process that reopens a stored database draws taken ids: creation fails exactly while the counter is behind the stored rows |
| JobQueueGuarantees.ReopenedFailures | packages/core/src/sqlite-job-queue.ts:68-80 | Exactly as many creations fail as rows were stored, each leaving the rows as they are, and the next one succeeds |
| QueueCalls.TableCreatesExactly | packages/core/src/sqlite-job-queue.ts:129-158 | In the table queue a job is created unless the call is invalid or a queued, active or completed job of the queue has the key; this is the job created, and otherwise nothing changes |
| QueueCalls.MemoryCreatesExactly | packages/core/src/job-queue-port.ts:77-111 | The same in memory, by the joined key |
| QueueCalls.TableClaims | packages/core/src/sqlite-job-queue.ts:160-171 | The first queued row of the queue is claimed, for the lease asked, and no other row changes |
| QueueCalls.MemoryClaims | packages/core/src/job-queue-port.ts:113-128 | The queued job created first is claimed, the one added first among those of one time, even under a clock that goes back, and no other changes |
| QueueCalls.TableSettles | packages/core/src/sqlite-job-queue.ts:173-196 | What completing, failing and cancelling do to the one job named, in each of its states, and what they answer |
| QueueCalls.MemorySettles | packages/core/src/job-queue-port.ts:130-162 | The same in memory |
| QueueCalls.TableLeaseRuns | packages/core/src/sqlite-job-queue.ts:117-119 | A job claimed at one time for a lease is taken out of execution by a recovery at another if and only if the lease has ended by then |
| QueueCalls.MemoryLeaseRuns | packages/core/src/job-queue-port.ts:164-178 | The same in memory |
| QueueCalls.TableRecovers | packages/core/src/sqlite-job-queue.ts:198-201 | Exactly the active jobs whose lease has ended are taken out of execution: failed if their attempts are used up, else queued again, without a lease and with the error of an expired one; no other job changes, and the count is how many were taken out |
| QueueCalls.MemoryRecovers | packages/core/src/job-queue-port.ts:164-178 | The same in memory |
| QueueCalls.TableLists | packages/core/src/sqlite-job-queue.ts:203-206 | A listing holds every job of the queue as often as it is stored, and no other |
| QueueCalls.MemoryLists | packages/core/src/job-queue-port.ts:180-184 | The same in memory |
| RequestRateLimit.RateLimiter.Consume | packages/database/src/request-rate-limit.ts:97-134 | One upsert: the counter restarts or grows, and the decision and delay follow from it |
| RequestRateLimit.RateLimiter.ConsumeBatch | packages/database/src/request-rate-limit.ts:27-95 | The statements of a batch one by one, rolled back at the first key over its limit |
| RequestRateLimit.BatchIsAllOrNothing | packages/database/src/request-rate-limit.ts:50-95 | A batch is allowed if and only if every key alone would be; then each counter moves as it would alone and no other moves, otherwise none moves and the first key over its limit is reported |
| RequestRateLimit.RetryDelayExact | packages/database/src/request-rate-limit.ts:121-133 | After a denial, waiting n seconds with no other call admits the key again if and only if n is at least the returned delay |
| RequestRateLimit.BatchRetryDelayExact | packages/database/src/request-rate-limit.ts:71-93 | The same for the key that denied a batch |
| RequestRateLimit.DecidedByUse | packages/database/src/request-rate-limit.ts:97-134 | A well-formed request is admitted if and only if the open window of its key has fewer uses than the limit; admitted or not it counts as one more use, in that window or as the first of a new one, and no other counter moves |
| RequestRateLimit.InvalidExactly | packages/database/src/request-rate-limit.ts:27-48 | A batch is refused as invalid exactly if it is empty, over the size limit, holds a limit or window below 1, or names a key twice; then nothing changes |
| RequestRateLimit.KeySeparates | packages/database/src/request-rate-limit.ts:23-25 | Two requests whose scopes hold no colon share a counter if and only if both scope and subject are the same |
| RequestRateLimit.ScopesCollide | packages/database/src/request-rate-limit.ts:23-25 | Some subjects of two scopes share a counter if and only if one scope with its colon begins with the other with its colon |
| RateLimitWindow.SlidingWindowBound | packages/database/src/request-rate-limit.ts:58-71 | Over every run of single and batch calls, a key used with one limit and window admits at most 2 * limit - 1 requests in any half-open interval as long as the window |
| RateLimitWindow.BoundIsTight | packages/database/src/request-rate-limit.ts:58-71 | For every limit and window some run admits exactly 2 * limit - 1 |
| ProcessingLease.ProcessingJob.ClaimExecution | packages/database/src/processing-execution-lease.ts:11-48 | Claims a queued row, else one whose lease is over; rejects short leases without a change |
| ProcessingLease.ProcessingJob.RefreshExecution | packages/database/src/processing-execution-lease.ts:50-68 | Extends the lease of the holder while it is running |
| ProcessingLease.ProcessingJob.UpdateExecutionStage | packages/database/src/processing-execution-lease.ts:70-95 | Sets stage and progress for the holder while its lease is running |
| ProcessingLease.ProcessingJob.ClaimExpiredForRecovery | packages/database/src/processing-execution-lease.ts:114-137 | Takes over a row whose lease is over |
| ProcessingLease.ProcessingJob.ReleaseRecovered | packages/database/src/processing-execution-lease.ts:139-164 | Returns the row to the queue for the token that holds it |
| ProcessingLease.ProcessingJob.ClearCancelledExpired | packages/database/src/processing-execution-lease.ts:166-187 | Ends a cancellation whose worker let its lease run out |
| ProcessingLease.ProcessingJob.Complete | apps/worker/src/index.ts:252-284 | Completes the row for the holder of a running lease |
| ProcessingLease.ProcessingJob.Fail | apps/worker/src/index.ts:286-323 | Fails or requeues the row for the holder of a running lease |
| ProcessingLease.ProcessingJob.Cancel | apps/worker/src/index.ts:232-250 | Cancels the row by id, whatever its state |
| ProcessingLease.ProcessingJob.CancelRequest | packages/core/src/index.ts:2349-2400 | Cancels a queued row, asks a processing one to stop |
| ProcessingLease.ProcessingJob.ResumeRequest | packages/core/src/index.ts:2402-2506 | Queues a cancelled row again |
| ProcessingLease.AlwaysValid | packages/database/src/processing-execution-lease.ts:11-187 | In every run token and lease are set exactly while the row is processing or being cancelled |
| ProcessingLease.HolderOnly | packages/database/src/processing-execution-lease.ts:50-164 | Whoever releases or takes a lease-checked step claimed the row with that token, has held it ever since, and no other claim succeeded in between |
| ProcessingLease.GoneForGood | packages/database/src/processing-execution-lease.ts:11-187 | A token that has left the row never comes back |
| ProcessingLease.Fencing | packages/database/src/processing-execution-lease.ts:50-164 | Once a token has left the row, nothing presented with it ever succeeds |
| ProcessingLease.TakeoverXorHolder | packages/database/src/processing-execution-lease.ts:38-63 | A takeover and a lease-checked step of the holder are never enabled together, and except at the instant of expiry one of them is |
| ProcessingLease.ExpiredNeverRevived | packages/database/src/processing-execution-lease.ts:50-95 | From the moment a lease is over, no lease-checked step of its holder succeeds in any continuation |
| ProcessingLease.CompletedUntilCancelled | apps/worker/src/index.ts:232-250 | A completed row changes by a step if and only if the step marks it cancelled |
| ProcessingLease.CompletionCanBeUndone | apps/worker/src/index.ts:232-250 | A run in which a late worker cancels a job another worker completed, and a user queues it again |
| LeaseEffects.LeaseRunsTo | packages/database/src/processing-execution-lease.ts:11-137 | After a claim, a heartbeat or a progress report that names an expiry, only its holder may settle, report or extend before the expiry and anybody may take over after it; no other token may settle at any time |
| LeaseEffects.HeartbeatKeeps | packages/database/src/processing-execution-lease.ts:50-95 | Over every run, a holder that is not cancelled, does not let go and is not taken over after its lease keeps the row, and the lease on it is the one its last successful extension named |
| LeaseEffects.SettledOrGivenBack | apps/worker/src/index.ts:252-323 | A release, a resumption and a failure to be retried leave the row open to the next claim at once, completion, final failure and cancellation close it, and only a cancelled row can be resumed |
| LeaseEffects.CancellationAsked | packages/core/src/index.ts:2349-2400 | After a request to cancel nobody may take or settle the row; it is cancelled at once if it was queued and otherwise cleared exactly from the end of its lease on |
| LeaseEffects.CancellableExactly | packages/core/src/index.ts:2349-2400 | A job can be asked to stop if and only if at some time a new worker could take it |
| JobOutbox.Outbox.DispatchPending | packages/core/src/job-outbox.ts:31-172 | One dispatcher alone: oldest dispatchable row first, discarded, sent or returned to pending, stopping at a failed publication or at the limit |
| JobOutbox.TallyCounts | packages/core/src/job-outbox.ts:39-171 | The counts returned are the numbers of rows that became sent and discarded, no other row is touched, and a sweep that neither failed nor used up its limit leaves nothing to dispatch |
| OutboxSweep.LoopIsVisits | packages/core/src/job-outbox.ts:31-172 | The loop of one dispatcher is a run of the protocol: always the oldest row due is claimed, its job read, published if queued, and written; it stops only at a refusal, at its limit or with nothing due |
| OutboxSweep.LoopDecides | packages/core/src/job-outbox.ts:76-171 | A row becomes sent only if its job is queued and discarded only if it is not, no job changes, and the rows sent have used up as many answers of the queue, in order and each an acceptance; a failure is the next answer, a refusal |
| OutboxSweep.VisitEnds | packages/core/src/job-outbox.ts:56-166 | An undisturbed visit of a dispatchable row leaves it discarded if the job is not queued, sent if the publication succeeds, and pending if it fails |
| OutboxSweep.ClaimHoldsUntil | packages/core/src/job-outbox.ts:20-74 | A claim keeps every other dispatcher off the row until its lease is over, and no longer |
| OutboxSweep.HolderDecides | packages/core/src/job-outbox.ts:82-166 | The writes of the holder: sent and discarded are final, a failure hands the row back |
| OutboxSweep.OthersDecideNothing | packages/core/src/job-outbox.ts:82-166 | A dispatcher that does not hold the row changes neither row nor job by any write |
| OutboxSweep.ResetIsPublished | packages/core/src/index.ts:2440-2490 | After a reset a new dispatcher can publish the job and mark the row sent |
| OutboxSweep.ResumedExactly | packages/core/src/index.ts:2402-2506 | Exactly a cancelled processing job can be resumed, leaving the row only if the job has a queue job, and whoever reads it next finds it queued |
| OutboxSweep.MarksExactly | apps/worker/src/index.ts:232-323 | A worker may mark the job cancelled from its successful claim until it writes how the job ended, or after it has met the job cancelled or to be cancelled |
| OutboxSweep.MarkedIsResumable | apps/worker/src/index.ts:232-250 | The mark makes the job resumable whatever it was, leaves the row alone, and is made once |
| OutboxSweep.FinalizationEnds | apps/worker/src/index.ts:202-216 | A failed finalization is found queued again if and only if it is to be retried, and one that has ended does not fail any more |
| JobOutbox.SentWasPublished | packages/core/src/job-outbox.ts:101-148 | In every interleaving with crashes and expiries a sent row was published after its latest reset to pending |
| JobOutbox.DiscardedWasNotQueued | packages/core/src/job-outbox.ts:76-99 | A discarded row had its job read as not queued after its latest reset |
| JobOutbox.OlderDispatcherHarmless | packages/core/src/job-outbox.ts:82-166 | A dispatcher that claimed before a reset never changes the row after it |
| JobOutbox.NeverStuck | packages/core/src/job-outbox.ts:20-74 | With a new token and no running lease, the row can be claimed if and only if it is not sent or discarded |
| OutboxPublications.MayPublishTwice | packages/core/src/job-outbox.ts:101-148 | A run that publishes twice without a reset between: delivery is at least once |
| OutboxPublications.AtMostOnce | packages/core/src/job-outbox.ts:56-166 | In every run whose steps are clean (a publication succeeds only for the dispatcher that holds the row, no claim takes the row from a dispatcher that has published, no failed publication is written by one) at most one publication follows the latest reset, and after one the row is sent or held by a dispatcher that has published |
| OutboxPublications.PublishedAgainExactly | packages/core/src/job-outbox.ts:56-148 | After any run, a further publication before the next reset is possible if and only if a dispatcher has found the job queued and not yet published; or the job may be found queued once more without a reset and the row is pending or being dispatched or a dispatcher has yet to read the job; or a dispatcher has yet to read the job, the job can be resumed, and the holder of the row has yet to write down the publication that gives the job its queue job |
| OutboxPublications.RevivedPublishes | packages/core/src/index.ts:2440-2490 | A job with a queue job that is cancelled, being cancelled or may yet be marked cancelled by a worker can be resumed without resetting the row, and a dispatcher that had yet to read it publishes |
| OutboxPublications.CancelledUndispatched | packages/core/src/job-outbox.ts:76-99 | A job cancelled before its row was dispatched is never published until a resumption resets the row |
| OutboxPublications.LateYetOnce | packages/core/src/job-outbox.ts:101-148 | Clean steps are not necessary: a run with a late publication that publishes once and can never publish again before a reset |
| JobOutbox.AlwaysValid | packages/core/src/job-outbox.ts:56-166 | Token and lease are on the row exactly while it is being dispatched, by a dispatcher that has not finished |
| StorageQuota.StorageLedger.Usage | packages/core/src/index.ts:234-279 | Bytes of distinct blobs plus derived assets, and bytes under unexpired reservations |
| StorageQuota.StorageLedger.ReserveStorage | packages/core/src/index.ts:376-396 | Reserves exactly when the bytes are positive and fit beside usage and reservations |
| StorageQuota.StorageLedger.ReserveDerived | packages/core/src/index.ts:300-334 | Reserves the growth of an asset, nothing if it does not grow |
| StorageQuota.StorageLedger.CommitDerived | packages/core/src/index.ts:337-363 | Records the new size and drops the reservation |
| StorageQuota.StorageLedger.PersistVersion | packages/core/src/index.ts:1376-1474 | Adds a version and drops its reservation |
| StorageQuota.StorageLedger.ReleaseReservation | packages/core/src/index.ts:398-403 | Drops one reservation and nothing else |
| QuotaRuns.StepSound | packages/core/src/index.ts:234-403 | Every action, crashes of writers among them, keeps: usage plus unexpired reservations within the quota, each live writer covered by its reservation |
| QuotaRuns.QuotaConserved | packages/core/src/index.ts:234-403 | Over every interleaving of uploads, sessions, replacements, recompiles and derived writes the quota holds, crashed writers included, provided direct and derived writes settle before their reservation expires and no two live writers of one derived key overlap; upload sessions need no such condition |
| QuotaRuns.FreshSound | packages/core/src/index.ts:234-279 | An organization without versions, assets and reservations is within its quota |
| QuotaRuns.SettleBlobExactly | packages/core/src/index.ts:1376-1474 | Settling an upload keeps the quota if and only if what it adds beyond its own running reservation fits: always while the reservation covers it, otherwise exactly when the rest would be granted anew |
| QuotaRuns.SettleAssetExactly | packages/core/src/index.ts:337-363 | Committing an asset, whether late or overlapped, keeps the quota if and only if its growth at that moment is at most its own running reservation or the rest would be granted anew |
| QuotaRuns.StepExactly | packages/core/src/index.ts:234-403 | From within the quota, a step of any kind stays within it if and only if it is not a settlement without that room |
| QuotaRuns.QuotaExactly | packages/core/src/index.ts:234-403 | Over every run the quota holds throughout if and only if every settlement of the run finds that room |
| QuotaRuns.TakeoverGranted | apps/worker/src/index.ts:629-634 | From every sound state: after the writer of a derived key dies, writing a key is overlap-free if and only if no other live writer has it, which is always so for the key of the dead one; the write is granted if and only if its growth fits; and the state stays sound |
| QuotaRuns.ReuseIsFree | packages/core/src/index.ts:252-253 | A version that reuses a stored blob leaves usage unchanged |
| QuotaRuns.UsedAfterStore | packages/core/src/index.ts:254-270 | Writing an asset changes usage by the difference of its sizes |
| QuotaRuns.ReservedAfterReserve | packages/core/src/index.ts:272-279 | A reservation counts up to, and not at, its expiry |
| QuotaRuns.ReservedAfterRelease | packages/core/src/index.ts:398-403 | A released reservation no longer counts; if it was over it did not count before |
| QuotaAmounts.BlobsAre | packages/core/src/index.ts:252-253 | A blob is stored once, with the size its latest version names |
| QuotaAmounts.UsedAfterVersion | packages/core/src/index.ts:244-271 | A new version adds its bytes, less those of the latest version with the same blob |
| QuotaAmounts.GrantedExactly | packages/core/src/index.ts:376-396 | A reservation is granted if and only if usage and running reservations with it on them are within the quota |
| QuotaAmounts.GrowthIsLeast | packages/core/src/index.ts:300-334 | What is reserved for an asset is the least room in which it can be written |
| QuotaRuns.LateSettlementOverruns | packages/core/src/index.ts:1376-1474 | A run in which an upload settles after its reservation expired exceeds the quota |
| QuotaRuns.OverlappingWritersOverrun | packages/core/src/index.ts:300-363 | A run in which two live writers of one derived key overlap exceeds the quota; SettleAssetExactly says exactly when |
| ChunkedUpload.UploadSession.PutPart | packages/core/src/index.ts:1714-1774 | Stores a part of the expected size once, recognises the same part again, refuses a different one |
| ChunkedUpload.UploadSession.RequestFinalization | packages/core/src/index.ts:1802-1855 | Moves a complete open session to finalizing |
| ChunkedUpload.UploadSession.FinalizeUpload | packages/core/src/index.ts:1857-1890 | Reads the parts back in order and checks count, numbers, length and hash |
| ChunkedUpload.UploadSession.AssembleParts | packages/core/src/index.ts:1869-1882 | The checks of the assembled file, one by one |
| ChunkedUploadRuns.CreatedProper | packages/core/src/index.ts:1489-1531 | A session is created if and only if the file is over 8 and up to 100 MiB and the hash well formed; it is open, empty and has 3 to 25 parts |
| UploadAnswers.CreatedExactly | packages/core/src/index.ts:1489-1531 | Why a session is refused, and what a created one is: as many parts of 4 MiB as hold the file, open, empty, good for a day |
| UploadAnswers.PutAnswers | packages/core/src/index.ts:1714-1774 | For every session and call which of the refusals is answered, and that none but the recorded expiry changes anything |
| UploadAnswers.RequestAnswers | packages/core/src/index.ts:1802-1855 | When finalization is granted, answered again, or refused and why |
| UploadAnswers.ReceivedAscends | packages/core/src/index.ts:1555-1562 | The received parts are the numbers of the recorded rows, each once, ascending |
| ChunkedUploadRuns.SizesAddUp | packages/core/src/index.ts:1704-1712 | The expected part sizes are positive, at most the part size, and sum to the declared size |
| ChunkedUploadRuns.Pigeonhole | packages/core/src/index.ts:1819-1823 | As many distinct in-range part numbers as parts: all of 1..totalParts are present, and sorted they are consecutive |
| ChunkedUploadRuns.RunSound | packages/core/src/index.ts:1533-1960 | Over every interleaving of puts, crashes, failed writes, removals that fail, requests, expiries, cleanups that stop halfway and the removal of parts after completion: rows are distinct, in range and of the expected size, while the session is open or finalizing each has its blob with that size and hash, a put between its halves owns its part, and a session being finalized is complete |
| ChunkedUploadRuns.OnlyTheHashCanFail | packages/core/src/index.ts:1869-1882 | Once a session is finalizing, only the hash of the whole file can still be refused |
| ChunkedUploadRuns.RoundTrip | packages/core/src/index.ts:1714-1882 | Pieces of a file in any order, with any repeats and malformed calls: finalization is accepted if and only if every piece arrived, and then it assembles the file |
| ChunkedUploadRuns.PutReceives | packages/core/src/index.ts:1714-1774 | A well-sized piece is stored the first time and reported as a duplicate afterwards; a malformed call changes nothing |
| ChunkedUploadRuns.OrphanBlocksForever | packages/core/src/index.ts:1743-1770 | A blob without a row and without a put on its way blocks its part for good: every retry is refused and the upload is never assembled |
| ChunkedUploadRuns.PutExactly | packages/core/src/index.ts:1714-1774 | In an open session the first well-sized put of a part is stored if and only if no such blob is in its way |
| ChunkedUploadRuns.OrphansHappen | packages/core/src/index.ts:1743-1770 | From a new session one is left by a put that dies after writing, by a write that fails after creating the blob, and by a refused part whose blob cannot be removed |
| ChunkedUploadRuns.OrphansExactly | packages/blob-store/src/index.ts:82-109 | As long as there is none, a step of any kind leaves a blob without a row if and only if it is one of those three |
| ZipArchive.Validate | packages/core/src/index.ts:1189-1275 | Runs the admission checks with their loops and returns the names visited |
| ZipArchive.LocateEnd | packages/core/src/index.ts:1190-1201 | The backward search for the end record |
| ZipArchive.WalkDirectory | packages/core/src/index.ts:1222-1266 | The cursor loop with its totals and its set of names |
| ZipArchive.TakeEntry | packages/core/src/index.ts:1235-1264 | The checks of one entry |
| ZipArchive.EndIsLast | packages/core/src/index.ts:1190-1201 | The end record found is the last one that ends the file at its comment, and none is found only if there is none |
| Text.SplitJoins | packages/core/src/index.ts:1245-1251 | The segments a name is judged by are the stretches between its slashes |
| ZipAdmission.AdmittedExactly | packages/core/src/index.ts:1189-1275 | For any prefix, any records, any gap and any comment behind which no further end record is found: the archive is admitted visiting exactly these names in order if and only if it has 1 to 5000 entries, each permitted, safely and distinctly named, within the size limit, with the primary document among them |
| ZipAdmission.PlainAdmittedExactly | packages/core/src/index.ts:1189-1275 | The same for every archive without a comment, with nothing else asked of it |
| ZipAdmission.AdmittedIsArchive | packages/core/src/index.ts:1189-1275 | Whatever is admitted is, byte for byte, prefix, records that tile the declared directory, gap and end record, and its entries are admissible under the names visited |
| ZipSafety.SafeIsConfined | packages/core/src/index.ts:1245-1251 | A name is safe if and only if it is not empty, does not start at the root, holds no backslash, and its path resolved segment by segment is itself |
| ZipSafety.SafeStaysBelow | packages/core/src/index.ts:1245-1251 | Extracted below any directory, a safe name resolves to a place below that directory |
| ZipSafety.MacroIs | packages/core/src/index.ts:1252-1254 | A macro is what is called vbaProject.bin in any case, in whatever directory |
| ZipSafety.PermittedIsHarmless | packages/core/src/index.ts:1235-1264 | An entry is permitted if and only if it is stored or deflated, not encrypted, and at most a hundred times its compressed size |
| ZipSafety.AdmittedIsSafe | packages/core/src/index.ts:1189-1275 | Every name of every admitted archive is confined, distinct and no macro, every entry harmless, there are at most 5000 of them of at most 200 MiB together, and the primary document is among them |
| ZipAdmission.FinalRatioRedundant | packages/core/src/index.ts:1267-1274 | The ratio checks of the entries imply the final ratio check |
| ZipAdmission.EntryRoundTrip | packages/core/src/index.ts:1222-1234 | A written central directory record reads back as written, whatever its ignored bytes are |
| ZipAdmission.EndReassembles | packages/core/src/index.ts:1203-1216 | The end record found is the one its own fields describe |
| TextNodes.HeadingIsGreediest | apps/worker/src/resource-parser.ts:67 | A line is a heading exactly when the regular expression has a match, and the match taken is the one with the most white space |
| TextNodes.TextParser.ReadText | apps/worker/src/resource-parser.ts:33-103 | The pass over the lines, with its limits and errors |
| TextNodes.TextParser.FlushParagraph | apps/worker/src/resource-parser.ts:46-64 | Closes the open paragraph under the current heading |
| TextNodes.TextParser.AddHeading | apps/worker/src/resource-parser.ts:70-90 | Pops the stack and files a heading |
| TextNodes.TextParser.ReadLine | apps/worker/src/resource-parser.ts:66-100 | One line: heading, text or blank |
| ParsedText.ParsedFaithfully | apps/worker/src/resource-parser.ts:33-103 | The non-blank lines are exactly the source lines of the nodes, in order; every node is the title or the trimmed text of its line range; ids and orders count up; each heading sits under the nearest earlier heading of smaller level, each paragraph under the latest heading; 1 to 10000 nodes |
| TextLines.LinesCut | apps/worker/src/resource-parser.ts:36 | The content is its lines put together with terminators that are each a line feed alone or after a carriage return; no line holds a line feed, and none before a bare one ends in a carriage return |
| TextLines.CutIsLines | apps/worker/src/resource-parser.ts:36 | No other lines can be put together so |
| TextLines.UnifiedJoins | apps/worker/src/resource-parser.ts:36 | With the carriage return before each line feed removed, the content is its lines joined by line feeds |
| ParsedText.NodeStands | apps/worker/src/resource-parser.ts:33-103 | A node stands in the content from the start of its first line to the end of its last, counted in line feeds; a paragraph is that stretch, trimmed and with its line ends unified, a heading that line after its hashes, trimmed |
| ParsedText.TitleIs | apps/worker/src/resource-parser.ts:67-72 | The level of a heading line is the number of its hashes, one to six, and its title is what follows them, trimmed |
| ParsedLimits.ParsedExactly | apps/worker/src/resource-parser.ts:33-103 | A text is refused as empty exactly if it is all white space, and as too large exactly if it has more than 100000 lines or 10000 blocks, or a heading or a stretch of body lines of more than 32 KiB; otherwise every block gives one node |
| Utf8.LengthIsEncoded | apps/worker/src/resource-parser.ts:74-94 | The byte length the limits use is the length of the UTF-8 encoding of RFC 3629, section 3 |
| Text.TrimIs | apps/worker/src/resource-parser.ts:59 | A trimmed text is the stretch between the outermost characters that are no white space |
| ParsedText.ParsedIsStructured | packages/contracts/src/index.ts:142-199 | Whatever the parser returns passes the structural checks of the document schema |
| ParsedText.EmptyExactly | packages/contracts/src/index.ts:120-134 | Some node has blank content if and only if some heading line has an empty title |
| ParsedText.EmptyHeadingIs | apps/worker/src/resource-parser.ts:67-72 | A heading line has an empty title if and only if it is one to six hashes and then two or more white space characters of which the last is no line terminator |
| ParsedText.OneEmptyHeading | apps/worker/src/resource-parser.ts:33-103 | A document of one such line is parsed into a single heading node with empty content |
| ParsedText.HashAndTwoSpaces | apps/worker/src/resource-parser.ts:67-72 | "#" and two spaces is such a line, and this is what the parser returns for it |
| HeadingStack.StackDeepens | apps/worker/src/resource-parser.ts:78-90 | Levels grow from the bottom of the stack to its top |
| HeadingStack.TopIsNearest | apps/worker/src/resource-parser.ts:78-87 | The top of the popped stack is the nearest earlier heading of smaller level, or of any level for a paragraph |
| DocxNodes.Nodes | runtimes/python/parse_document.py:115-161 | One node per paragraph with text, in order, filed under the nearest earlier heading of smaller level; fails if and only if there are more than 10000 paragraphs |
| DocxNodes.NodesAreStructured | packages/contracts/src/index.ts:142-199 | Whatever is returned for a Word document passes the structural checks of the document schema |
| CompiledDocument.Check | packages/contracts/src/index.ts:142-199 | The structural checks with their id and order maps, issue by issue |
| CompiledDocument.NoIssuesExactly | packages/contracts/src/index.ts:142-199 | There is no issue if and only if ids and orders are distinct, sources match and every parent is a node of smaller order |
| CompiledDocument.ReportedExactly | packages/contracts/src/index.ts:142-199 | An issue is reported if and only if it is true of the document: the first node with the id or order, the source, the missing, own or later parent |
| CompiledDocument.Lineage | packages/contracts/src/index.ts:174-198 | Then following parents from any node ends at a node without one |
| SheetLabels.ColumnLabel | runtimes/python/parse_document.py:333-339 | The loop computes the label |
| SheetLabels.LabelDecodes | runtimes/python/parse_document.py:333-339 | A label decodes to its column, is made of A-Z, and is empty only for 0 |
| SheetLabels.ColumnEncodes | runtimes/python/parse_document.py:333-339 | Every word over A-Z is the label of the column it decodes to |
| SheetLabels.LabelsInOrder | runtimes/python/parse_document.py:333-339 | Labels grow with the column: by length, then alphabetically |
| SheetLabels.RangeRoundTrip | runtimes/python/parse_document.py:342-343 | A range decodes to its first row, last row and width |
| SheetLabels.CellRoundTrip | runtimes/python/parse_document.py:417 | A cell name decodes to its column and row |
| SheetTables.TableBlocks | runtimes/python/parse_document.py:355-394 | The blocking loop |
| SheetTables.BlocksPartition | runtimes/python/parse_document.py:355-394 | The blocks put end to end are exactly the non-empty rows in order, each at its position and beside its formulas; each block has 1 to 200 rows within the byte bound unless it is a single row; and a block followed without a gap was full |
| SheetTables.RowKept | runtimes/python/parse_document.py:364-375 | A kept row is the trimmed row of at most 40 columns, padded with empty cells to cover its formulas |
| SheetNodes.TableNodes | runtimes/python/parse_document.py:397-445 | One node per block of each sheet, ordered throughout |
| SheetNodes.CollectFormulas | runtimes/python/parse_document.py:403-420 | The formula loop with its limits and its flag |
| SheetNodes.BlockRow | runtimes/python/parse_document.py:386-390 | The k-th row of a block is the row of the sheet at its start plus k |
| SheetNodes.RangeIsTrue | runtimes/python/parse_document.py:399-402 | The range of a node decodes to its true first row, last row and greatest width |
| SheetNodes.FormulasReported | runtimes/python/parse_document.py:403-420 | Every reported formula decodes to the cell it stands in, and unless the truncation flag is set every formula of the block is reported in full |
| SheetNodes.PlacesExactly | runtimes/python/parse_document.py:406-411 | The formula places are the formula cells of the block, all of them and nothing else |
| SheetCells.BlockCell | runtimes/python/parse_document.py:355-394 | The k-th row of a block is a row of the sheet, cell by cell and formula by formula, over the first 40 columns |
| SheetCells.RowFound | runtimes/python/parse_document.py:355-394 | A row of the sheet with any text or formula in its first 40 columns is a row of some block |
| SheetCells.FormulaFound | runtimes/python/parse_document.py:403-420 | Every formula in the first 40 columns beside a row of the sheet is a formula place of a block, at its own cell |
| SheetCells.FormulaIsThere | runtimes/python/parse_document.py:403-420 | Every formula place of a block is a formula of the sheet at that cell |
| SheetCells.FlagExactly | runtimes/python/parse_document.py:403-420 | The truncation flag is set if and only if the block has more than 1000 formula cells or one of more than 4096 characters |
| SheetCells.ReportsInOrder | runtimes/python/parse_document.py:403-420 | The first 1000 formulas are reported, top to bottom and left to right, each cut after 4096 characters |
| SheetCells.ContentReads | runtimes/python/parse_document.py:346-352 | Split at line feeds and tabs, the content of a node is its rows and cells, if these hold no such characters |
| SheetCells.NodesAreBounded | runtimes/python/parse_document.py:376-394 | A node has at most 200 rows, and less than 200 KiB of content unless it is a single row |
| SheetCells.OrdersCountUp | runtimes/python/parse_document.py:425 | Nodes are numbered throughout, from 0 |
| SheetCells.BlocksCountUp | runtimes/python/parse_document.py:400-422 | The nodes of each sheet are numbered on their own, from 1 |
| SheetCells.SpacesDiffer | runtimes/python/parse_document.py:364-366 | What blank means here and in the text parser differs in exactly six characters |
| AgentRunLog.RunStore.BeginRun | packages/core/src/agent-sessions.ts:1008-1091 | Starts a run with its first event unless the session has a running one |
| AgentRunLog.RunStore.PersistTurn | packages/core/src/agent-sessions.ts:846-965 | Records an answered turn as a completed run |
| AgentRunLog.RunStore.CompleteRun | packages/core/src/agent-sessions.ts:1093-1279 | Completes a running run with its tool events |
| AgentRunLog.RunStore.SettleRun | packages/core/src/agent-sessions.ts:1281-1334 | Fails or stops a running run with one more event |
| AgentRunLog.RunStore.StopRun | packages/core/src/agent-sessions.ts:1336-1358 | Given what an earlier reading found: stops a run seen running if it still is and is refused otherwise, reports a run seen settled |
| AgentRunLog.RunStore.ProjectRun | packages/core/src/agent-run-event-projection.ts:32-184 | Checks a stream of core events and appends its rows |
| AgentRunLog.RunStore.CheckEvents | packages/core/src/agent-run-event-projection.ts:36-92 | The loop that admits a stream or refuses it |
| AgentRunGuarantees.StepHealthy | packages/core/src/agent-sessions.ts:846-1358 | Every writer keeps the invariant of RunHealthy |
| AgentRunGuarantees.RunHealthy | packages/core/src/agent-sessions.ts:846-1358 | In every reachable store each log is numbered 1..n and starts with its only start event; a running log is just that; a settled one has exactly one end event, last and matching its status; tool by tool completions never outnumber requests and in the end equal them; and a session has at most one running run |
| AgentRunGuarantees.EmptyHealthy | packages/core/src/agent-sessions.ts:1008-1091 | The invariant of RunHealthy holds before the first run |
| AgentRunGuarantees.StopAnswers | packages/core/src/agent-sessions.ts:1341-1357 | Whatever happens between the reading and the settlement, a stop of a run seen running ends it if and only if it still runs and otherwise is refused as not running; a run seen settled is reported as it is and left alone |
| AgentRunGuarantees.SettledForGood | packages/core/src/agent-sessions.ts:1093-1358 | A settled run never changes again |
| AgentRunGuarantees.GuardsNeverFire | packages/core/src/agent-run-event-projection.ts:102-107 | A sequence number is never taken and a running run never holds a projected event |
| AgentRunGuarantees.ProjectedLog | packages/core/src/agent-run-event-projection.ts:94-184 | A projected stream of any admitted shape leaves a good log |
| AgentRunCalls.SettlesExactly | packages/core/src/agent-sessions.ts:1281-1334 | A running run of the user ends with one event, a stop as stopped and a failure as failed; any other call changes nothing and says why |
| AgentRunCalls.CompletesExactly | packages/core/src/agent-sessions.ts:1093-1279 | A running run of the user is completed exactly for one search, or a search and a reading, each within its limits; the log then is start, each call requested and completed, end |
| AgentRunCalls.ScanExactly | packages/core/src/agent-run-event-projection.ts:36-92 | The loop accepts a stream if and only if each event is allowed where it stands, said of the stream alone |
| AgentRunCalls.AdmittedExactly | packages/core/src/agent-run-event-projection.ts:36-92 | A stream is admitted if and only if it starts with a start, every event is allowed where it stands, its one ending is last, and every call requested is completed |
| AgentRunCalls.ProjectsExactly | packages/core/src/agent-run-event-projection.ts:94-184 | An admitted stream is written to a running run once, as its start and what is shown of it, and the run ends as the stream does; otherwise nothing is written |
| ScriptSegments.ValidateScript | packages/agent-runtime/src/agent-core.ts:83-126 | Accepts a script, unchanged, exactly when it is valid |
| ScriptRules.ValidExactly | packages/agent-runtime/src/agent-core.ts:83-126 | A script is valid if and only if every event of it is well written and in its place and its one ending is last, said of the positions of the script alone |
| ScriptRules.WordsAre | packages/agent-runtime/src/agent-core.ts:83-126 | Stable codes, tool names and call ids are a first character from one alphabet and the rest from another, within their lengths |
| ScriptSegments.CompileSegments | packages/agent-runtime/src/pi-adapter.ts:78-136 | The compilation loop with its current segment |
| ScriptSegments.TurnsSuffice | packages/agent-runtime/src/pi-adapter.ts:124-135 | Every turn but the last ends on tool calls, and the last has none or fails |
| ScriptSegments.ReplayedExactly | packages/agent-runtime/src/pi-adapter.ts:72-136 | A valid script is replayed exactly as written if and only if every request is directly followed by its completion, no failure directly follows a tool call, and the failure code is a stable one |
| ScriptSegments.FailureDropsCalls | packages/agent-runtime/src/pi-adapter.ts:118-214 | A failure that ends a turn leaves the earlier turns and the text of that turn and drops all its calls |
| ScriptSegments.CallIsLost | packages/agent-runtime/src/pi-adapter.ts:118-214 | Every valid script of one call, its completion and a failure is not orderly and replays as the failure alone |
| ScriptSegments.CallThenFailureExists | packages/agent-runtime/src/pi-adapter.ts:118-214 | There is such a script |
| ScriptSegments.ReplayOrderly | packages/agent-runtime/src/pi-adapter.ts:138-214 | Whatever is replayed has that form |
| Assessments.AssessmentStore.CreateAssessment | packages/core/src/assessments.ts:169-253 | Copies the questions once per practice set |
| Assessments.AssessmentStore.StartAssessment | packages/core/src/assessments.ts:302-332 | Draft becomes active; submitted is refused |
| Assessments.AssessmentStore.SubmitAttempt | packages/core/src/assessments.ts:334-459 | One attempt per question, graded at once if it has an answer key |
| Assessments.AssessmentStore.SubmitAssessment | packages/core/src/assessments.ts:461-493 | Submits an active assessment with as many attempts as questions |
| Assessments.AssessmentStore.SubmitReview | packages/core/src/manual-free-response-reviews.ts:235-279 | One human grade within the rubric for an ungraded attempt |
| Assessments.EveryQuestionAnswered | packages/core/src/assessments.ts:464-476 | As many attempts as questions, none attempted twice: every question is answered |
| Assessments.RunSound | packages/core/src/assessments.ts:169-493 | Over every interleaving, with stale reads before each write: attempts belong to their questions, no question is attempted twice, grades are fair, and wherever a submission counted or happened there are as many attempts as questions |
| Assessments.SubmittedIsComplete | packages/core/src/assessments.ts:461-493 | In every reachable state a submitted assessment has exactly one attempt per question |
| Assessments.GradesAreFair | packages/core/src/manual-free-response-reviews.ts:126-131 | Every grade has 0 <= score <= maximum, maximum > 0, and is correct exactly when the score is the maximum |
| AssessmentGrades.GradesMean | packages/core/src/assessments.ts:334-459 | In every reachable state an attempt at an exact question is graded 1 if its normalized response is the normalized key and 0 otherwise, and any other attempt has no grade or a human one within the rubric of its question |
| AssessmentGrades.CreatedExactly | packages/core/src/assessments.ts:169-253 | An assessment is created as a draft of its user, once per practice set, with the questions given and no change to others |
| AssessmentGrades.OnlyItsUser | packages/core/src/assessments.ts:302-476 | Starting, answering and submitting are open exactly to the user of the assessment in the status for it |
| AssessmentGrades.SubmittedExactly | packages/core/src/assessments.ts:461-493 | Counting and then submitting submits exactly the user's own active assessment with as many attempts as questions |
| AssessmentGrades.AnsweredOnce | packages/core/src/assessments.ts:368-459 | An attempt is stored, trimmed, exactly if its question has none yet and can be graded; no attempt or grade is lost |
| AssessmentGrades.ReviewedExactly | packages/core/src/manual-free-response-reviews.ts:235-279 | A human grade is given exactly to an ungraded attempt with a rubric, within the rubric and at most 100 |
| Assessments.GradedOnce | packages/core/src/manual-free-response-reviews.ts:270-279 | A grade is never replaced or removed |
| BoundingBoxes.InUnitInterval | apps/worker/src/locator-evaluation.ts:67-79 | The value lies between 0 and 1 |
| BoundingBoxes.Symmetric | apps/worker/src/locator-evaluation.ts:67-79 | The value does not depend on the order of the boxes |
| BoundingBoxes.OneExactly | apps/worker/src/locator-evaluation.ts:67-79 | It is 1 if and only if the boxes are equal |
| BoundingBoxes.ZeroExactly | apps/worker/src/locator-evaluation.ts:67-79 | It is 0 if and only if the interiors have no point in common |
| BoundingBoxes.UnionPositive | apps/worker/src/locator-evaluation.ts:79 | The denominator is positive |
| BoundingBoxes.NestedIsShare | apps/worker/src/locator-evaluation.ts:67-79 | A box inside another scores the share of it that it covers |
| BoxCover.IouIsCovered | apps/worker/src/locator-evaluation.ts:67-79 | The value is the area that both boxes cover by the area that either covers, the latter cut into disjoint boxes |
| BoxCover.OutsideIsCovered | apps/worker/src/locator-evaluation.ts:67-79 | Those boxes cover every point of one box outside the other, and each by one of them only |
| BoundingBoxes.CompareBbox | apps/worker/src/locator-evaluation.ts:81-98 | A failure is recorded exactly when a box is missing, invalid or overlaps too little, and the value is returned exactly for valid boxes |

## Left out

- JobQueuePort.JobIdInjective: says nothing of the locale; ids contain only `job-` and digits, for which the sorts used agree.
- JobQueueRefinement.Refinement: the JSON round trip of payloads, `updatedAt` and non-integer lease lengths are not modelled.
- RateLimitWindow.SlidingWindowBound: keys stand for scope and subject joined by ":", the hash of the key and waits on row locks are not modelled.
- ProcessingLease.HolderOnly: the resource row beside the job, error messages and progress reports are not modelled; upload finalization jobs, which other statements update by id, and the order in which a worker takes its steps are not part of the model.
- JobOutbox.SentWasPublished: `attemptCount` and delivery after publication are not modelled; a publication succeeds or fails.
- OutboxPublications.PublishedAgainExactly: a dispatcher or worker that has crashed counts as one that may still act, whether the queue finds a cancelled queue job again is left open, and a worker may be interrupted at any time while it executes a job.
- QuotaRuns.QuotaConserved: the format of derived asset keys, and deletion of resources, which only lowers usage, are not modelled.
- ChunkedUpload.UploadSession.PutPart: one clock reading per call; the file type checks and the look-up of an identical stored version are not modelled.
- ZipArchive.Validate: the ratio tests are cross-multiplied integers, which decide as the quotients do; lower-casing is ASCII, which decides the same for the one name tested.
- TextNodes.TextParser.ReadText: lone surrogates in the text are not modelled.
- DocxNodes.Nodes: the match of the style name and the shortening of long paragraphs are parameters.
- SheetNodes.TableNodes: reading cells from workbooks and the limits on sheets are not modelled.
- AgentRunLog.RunStore.CompleteRun: access and evidence checks inside the transaction are one outcome given to the step; messages, evidence rows and tool call rows are not modelled.
- ScriptSegments.ReplayedExactly: the agent loop that plays the turns is a library; its order of text, calls and turns is taken as described by the adapter.
- Assessments.AssessmentStore.SubmitAttempt: checks on courses and sources, events and mastery snapshots are not modelled, nor are the attempts of practice sets, which are graded the same way.
- BoundingBoxes.OneExactly: over real numbers; rounding and non-finite coordinates are not modelled.
- The PostgreSQL queue, the outboxes of skill runs and learning reports, the other document parsers, gateways, web routes and pages: near copies of what is modelled, or input and output.
- Strings are sequences of Unicode scalar values: where the program counts UTF-16 units, lengths differ for characters beyond the basic plane.
- Read anomalies inside a transaction and crashes in the middle of one.
