# JustScan backend: a verified model

JustScan scans container images and follows what becomes of the findings. This project models the parts
of its Go backend whose correctness is hardest to see, and proves what they are meant to guarantee. It
verifies with Dafny 4.11: `dafny verify dfyconfig.toml`.

Four kinds of code are covered.

- **Protocols between workers that share a database or a channel.** The background-job lease
  (`JobLease.dfy`), the fenced delivery of pipeline callbacks (`PipelineCallbacks.dfy`), the life of a scan
  (`ScanLifecycle.dfy`) with its step log (`StepLog.dfy`), the advisory locks around vulnerability changes
  (`MutationLocks.dfy`) and the Xray permits (`XrayPermits.dfy`). Each is a step system: a state, an
  action for every atomic statement, a total function from state and action to the next state, and runs over
  arbitrary action lists. A crashed worker takes no more steps. Every conditional `UPDATE` is a function on
  one row that yields nothing when its `WHERE` clause fails; the system and the class that updates the table
  in place use the same row functions, and the methods say field by field what they do. Theorems are about all
  runs.
- **The synchronization of the CVE change history** (`CveHistory.dfy`): windows, pages and events with a
  durable cursor, written as the loops they are. The store keeps a ghost log of all durable states, so a
  claim about the log is a claim about every point at which a crash can happen. Statements that can fail
  are nondeterministic choices, and a failed write may or may not have been committed.
- **What current intelligence says about a finding.** Choosing the evidence (`Evidence.dfy`), version ranges
  (`AffectedRanges.dfy`), the derived posture and its append-only log (`Posture.dfy`), and the policies judged
  on top of it (`Policy.dfy`).
- **Algorithms with an exact specification.** Dependency depths (`Sbom.dfy`), the sliding-window limiter
  (`RateLimiter.dfy`), the dedupe key (`DedupeKey.dfy`), the merge of findings (`FindingMerge.dfy`) and what
  repeating it does (`RepeatedMerge.dfy`).

`Basics.dfy` holds shared vocabulary. Strings of which only the order matters are carried as ranks, and
`StringOrder.RankIsOrderEmbedding` shows that this loses nothing.

## What does not hold as it stands

Some properties one would expect are false of the code. For each there is a lemma with an input that shows
it, and a lemma that says exactly when the code does meet the property.

- *The history sync can skip events.* `fetchHistoryPage` (services/backend/scanner/cve_history.go:445-450)
  formats the end of a window with RFC 3339, which drops the fraction of the second, while closing the window moves
  the cursor to the unrounded end. An event strictly in between is never asked for and lies below the cursor
  ever after. `CveHistory.LostEventsExactly` says which events a finished run loses, in terms of the cursor
  and clock it started with; `CveHistory.FractionOfASecondLosesAnEvent` gives the failing family, and
  `CveHistory.WholeSecondsLoseNothing` the safe one.
- *The attempt count of a callback is not the number of attempts.* A claim does not compare the count that the
  worker read earlier, and an attempt is counted only by the mark after it. The stored count never exceeds five,
  but `PipelineCallbacks.AttemptsAreUnbounded` builds runs with any number of attempts by workers with old counts,
  and `PipelineCallbacks.CrashesAreNotCounted` runs with any number of attempts whose workers crash after the POST.
  `PipelineCallbacks.CountIsExactIffOrderly` is the exact condition, on the steps of the run: every attempt is
  closed by its own effective mark, with no other mark since the worker read the row. One worker that does not
  crash meets it (`PipelineCallbacks.OneSteadyWorkerIsExact`).
- *Ordered locking does not exclude every deadlock.* The locks are taken in the order of scan identifiers, but each
  through `hashtext`, and any three scans of which the outer two collide and the middle one does not let two
  transactions block each other (`MutationLocks.OtherHashGetsStuck`). `MutationLocks.DeadlockFreeIffConvex`: however
  transactions on given scans interleave, they never come to a standstill if and only if no scan among them
  lies between two colliding ones and has a different key. Scans that do not collide among themselves are safe
  (`MutationLocks.NoCollisionNoDeadlock`), whatever collides elsewhere. The standstill is that of the locks by
  themselves; PostgreSQL would detect it and abort one of the transactions, which is not part of this model.
- *A timeline with several changes at one version depends on their order* (`AffectedRanges.OrderCanMatter`).
  `AffectedRanges.AnyOrderDoesIffAgreement` says exactly when it does not, for the changes as they are received.
- *Merging the same findings twice can change the references* (`FindingMerge.ReferencesAreRespelled`: a list of one
  blank reference is taken over and then dropped). `FindingMerge.FindingsMergeAgainIff` and
  `FindingMerge.EntriesMergeAgainIff` give the exact condition for whole lists with keys repeated in any way:
  the reference lists of every incoming key settle (`RepeatedMerge.Settles`). For a single finding
  the condition is short (`FindingMerge.FindingMergesAgainIff`). Everything else, and the references as
  trimmed, non-empty names without order, always stays the same (`FindingMerge.FindingsMergeOnce`).
- *Two findings can be merged although their packages differ* (`FindingMerge.KeysCanCollide`), because identifier and
  package are put together with a bar that may occur in them. `FindingMerge.KeysAreEqualIff` says exactly when, and
  identifiers without a bar are always told apart (`FindingMerge.KeysTellApart`).
- *A recovered scan keeps an open step.* Recovery after a restart writes the row but not the step log
  (`StepLog.RecoveryLeavesStepOpen`); `StepLog.OpenStepIsClosedIff` says when such a step is closed later.
- *Intelligence that lowers a severity can make a policy fail* (`Policy.ReducedSeverityCanFail`).
  `Policy.NeverNewlyFailsIffNoWorse` is the exact condition on the findings under which no policy can newly fail.

## Assumptions

- Time never runs backwards where the code compares clock readings of its own; clock readings are stored and read
  back without loss.
- The CVE feed answers a window with the events up to the last whole second of its end, in the order of time and
  identifier, and never adds an event behind the cursor. `CveHistory.Honest` states this, and
  `CveHistory.PagingIsHonest` that such feeds exist. What holds for any feed at all is stated without it.
- A run of the synchronization is described up to its end: the totals the feed reports are bounded from some request
  on, or requests fail from some point on. `CveHistory.CutOffIsBounded` shows that any client, cut off after any
  number of requests, is of that kind.
- One run of the synchronization at a time: runs of all instances exclude one another by an advisory lock
  (services/backend/scanner/cve_history.go:1469-1503). That a database session could lose the lock while its run
  goes on is not considered.
- Identifiers of rows are unique, and a row reads back as it was written.
- Library sorts are represented by insertion, which gives the same result for the orders at hand.

## Model

| member | source | states |
|---|---|---|
| StringOrder.RankIsOrderEmbedding | services/backend/scanner/cve_history.go:1101-1109 | comparing ranks is comparing byte strings, and different strings have different ranks |
| Severity.SeverityScale | services/backend/scanner/grype.go:587-600 | critical ranks above high, high above medium, medium above low, in any letter case, and any other word lowest |
| CveHistory.AtOrAfter | services/backend/scanner/cve_history.go:1101-1109 | the test for "already passed" is exactly the negation of lying above the cursor in the order by time, then identifier |
| CveHistory.Store.WriteEvent | services/backend/scanner/cve_history.go:1180-1237 | an event row only grows (processed mark, attempts), and an unacknowledged write may or may not be in the database |
| CveHistory.Store.PersistCursor | services/backend/scanner/cve_history.go:1260-1266 | the durable cursor only moves up, also when the write reports an error |
| CveHistory.Store.ProcessChange | services/backend/scanner/cve_history.go:1111-1237 | unless a write is refused, the outcome follows from the stored row and what is met: aborted exactly if the row cannot be read, tracking is unknown, a tracked event has no snapshot, or its ingestion fails during a cancellation or before the third attempt; quarantined exactly at the third; the row is marked processed exactly if it is untracked or ingested, and an attempt is counted exactly for a failed ingestion that was not cancelled; other events are untouched |
| CveHistory.PassingOneEvent | services/backend/scanner/cve_history.go:1055-1079 | moving the cursor to the next event of the feed passes that event and no other |
| CveHistory.ClosingAWindow | services/backend/scanner/cve_history.go:1090-1096 | moving the cursor to the window end passes, unseen, only events after the last whole second of the window |
| CveHistory.NothingSkippedSoFar | services/backend/scanner/cve_history.go:1027-1099 | what earlier runs handled and what this run has seen cover everything below the cursor |
| CveHistory.TakeUpPage | services/backend/scanner/cve_history.go:1055-1080 | after a page the run stands at the next position of the feed, whatever was skipped, processed or quarantined; on an abort every durable state is still sound |
| CveHistory.SyncPage | services/backend/scanner/cve_history.go:1042-1088 | after a page the run stands in the window where the index of the next request says; a further page is asked for exactly if the last one was full, not empty, and short of the reported total, which for an honest feed means exactly that events of the window remain |
| CveHistory.CloseWindow | services/backend/scanner/cve_history.go:1090-1097 | the cursor ends at or past the window end, and the closing is on record exactly if the cursor moved |
| CveHistory.SyncWindow | services/backend/scanner/cve_history.go:1037-1097 | a window ends with all its events taken up and the cursor at its end, for any page sizes; on an error the durable states are sound |
| CveHistory.SyncNext | services/backend/scanner/cve_history.go:1032-1098 | windows follow one another without gap or overlap up to now, each 120 days long or ending now |
| CveHistory.SyncWindows | services/backend/scanner/cve_history.go:1027-1099 | for any feed the durable states only advance and success means the cursor has reached now; a run fails only if a request failed, a write was refused, or an event met circumstances in which it cannot be passed; for an honest feed no durable state, crash or error exit included, has skipped an event outside the gaps |
| CveHistory.NextRunIsJudgedToo | services/backend/scanner/cve_history.go:1027-1031 | whatever stopped a run, the next one starts from a state in which nothing has been skipped |
| CveHistory.LostEventsExactly | services/backend/scanner/cve_history.go:445-450 | a finished run has handled an event if and only if the event does not lie strictly between a window end and the whole second before it |
| CveHistory.WhereARunStarts | services/backend/scanner/cve_history.go:1027-1031 | a run takes up what lies above the stored cursor, and the last 24 hours if there is none |
| CveHistory.WholeSecondsLoseNothing | services/backend/scanner/cve_history.go:445-450 | with cursor and clock on whole seconds there is no such gap |
| CveHistory.FractionOfASecondLosesAnEvent | services/backend/scanner/cve_history.go:445-450 | with a clock inside a second there always is one, and an event a nanosecond before the clock falls into it |
| CveHistory.PagingIsHonest | services/backend/scanner/cve_history.go:445-486 | a client that serves the sorted feed in pages of any size meets the assumptions on feeds |
| CveHistory.CutOffIsBounded | services/backend/scanner/cve_history.go:1037-1050 | any client cut off after any number of requests is within the bound on totals, and stays honest if it was |
| Sbom.LabelsAreDepths | services/backend/scanner/sbom.go:203-234 | labels that are walk lengths and have been passed on everywhere are the shortest walk lengths, and missing exactly where there is no walk |
| Sbom.Tables | services/backend/scanner/sbom.go:204-215 | the index, the adjacency table and the initial queue hold exactly the components, the edges and the roots |
| Sbom.ChildLabelled | services/backend/scanner/sbom.go:223-231 | labelling a child and queueing it keeps labels sound and the queue in label order, on cyclic graphs too |
| Sbom.Visit | services/backend/scanner/sbom.go:216-233 | one turn of the queue keeps the search invariant, and either labels something new or shortens the queue |
| Sbom.SetDepths | services/backend/scanner/sbom.go:203-234 | in place, for any graph: every depth is the length of a shortest dependency path from a root, absent exactly if there is none, and nothing else is changed |
| Sbom.BuildComponents | services/backend/scanner/sbom.go:36-60 | one component per distinct non-empty reference, the root first and marked, references and identifiers one to one |
| Sbom.BuildEdges | services/backend/scanner/sbom.go:62-80 | the edges stand, in order and one for one, for the recorded dependencies whose two references are listed, and the warnings name exactly the missing ones |
| Sbom.WalksAreChains | services/backend/scanner/sbom.go:62-80 | a walk over the built edges is a chain of dependencies of the document |
| Sbom.ChainsAreWalks | services/backend/scanner/sbom.go:62-80 | and every chain of the document is such a walk |
| Sbom.PersistGraph | services/backend/scanner/sbom.go:36-88 | from document to stored rows: depths are shortest chains from the root of the document, edges stand one for one for listed dependencies, warnings name the missing references, and the completeness flag says exactly whether there is a root, there are records, and everything is listed |
| JobLease.RetryDelay | services/backend/backgroundjobs/jobs.go:631-650 | the loop computes min(30 s, 2^n s) for every attempt n of at least 1 |
| JobLease.OnlyTheLatestClaimWrites | services/backend/backgroundjobs/jobs.go:700-853 | in every reachable state an update by a worker takes effect only if its claim is the latest of the job |
| JobLease.OwnedMeansRunning | services/backend/backgroundjobs/jobs.go:445-557 | in every reachable state a job with a lease owner is running |
| JobLease.FinishedStays | services/backend/backgroundjobs/jobs.go:764-811 | no later step of anybody changes a succeeded or failed row |
| JobLease.KeptLeaseExcludesOthers | services/backend/backgroundjobs/jobs.go:724-762 | while a lease never lapses and its holder does not let go, nobody else can claim the job |
| JobLease.RetriesStayWithinBudget | services/backend/backgroundjobs/jobs.go:597-698 | for processors that keep the count, a job is transiently requeued at most five times in its whole life, across all its claims |
| JobLease.EnqueuedJobIsQueued | services/backend/backgroundjobs/jobs.go:445-501 | a new job is queued without a lease |
| JobLease.WhatCanBeClaimed | services/backend/backgroundjobs/jobs.go:445-501 | an idle worker can claim a job exactly if it is queued and due, or running without a lease or after it |
| JobLease.WhatHoldingOnDoes | services/backend/backgroundjobs/jobs.go:750-853 | renewing and reporting extend the lease of the holder by half a minute, and a report replaces the payload |
| JobLease.WhatLettingGoDoes | services/backend/backgroundjobs/jobs.go:652-811 | the row after its holder finishes it, fails it, requeues it, or puts it off |
| JobLease.WhatARefusedRequeueLeaves | services/backend/backgroundjobs/jobs.go:530-553 | a requeue that is refused changes no row and leaves its worker with nothing but failing the job |
| JobLease.RetriesCanHappen | services/backend/backgroundjobs/jobs.go:652-698 | the budget can be used up: a job can be put off any number of times up to five |
| JobLease.JobCanAlwaysSucceed | services/backend/backgroundjobs/jobs.go:445-562 | no job is ever lost: whatever has happened and whoever has crashed, a job that is not finished can still be claimed and completed |
| JobLease.JobTable.Claim | services/backend/backgroundjobs/jobs.go:445-501 | takes the oldest queued job that is due, else the oldest running one whose lease has run out, leaving out passive types and locked rows; it becomes running, owned by the worker, and leased for half a minute; nothing is taken exactly if there is no such job |
| JobLease.JobTable.Renew | services/backend/backgroundjobs/jobs.go:750-762 | extends the lease by half a minute from now exactly if the job is running and the worker's own |
| JobLease.JobTable.UpdateProgress | services/backend/backgroundjobs/jobs.go:813-853 | with an owner only the holder writes, without one any running job is written; both extend the lease |
| JobLease.JobTable.RequeueJob | services/backend/backgroundjobs/jobs.go:700-722 | gives the job up for two seconds exactly if it is still held, and leaves it running |
| JobLease.JobTable.RequeueTransient | services/backend/backgroundjobs/jobs.go:652-698 | counts the attempt in the payload within the budget, and reports whether the row was put off |
| JobLease.JobTable.Settle | services/backend/backgroundjobs/jobs.go:503-562 | a lost lease or a shutdown leaves the row alone; otherwise each result of the processor, or the lack of a processor, leads to its own final row, given field by field |
| PipelineCallbacks.ClaimTimesIncrease | services/backend/pipelines/pipeline_scans.go:359-383 | the claim times of a request, which serve as fencing tokens, strictly increase |
| PipelineCallbacks.OnlyTheLatestClaimWrites | services/backend/pipelines/pipeline_scans.go:385-497 | a release, a delivery mark or a failure mark takes effect only for the latest claim |
| PipelineCallbacks.FinalStays | services/backend/pipelines/pipeline_scans.go:193-221 | delivered and failed are final, also when the callback is queued again: no later step changes the row, claims it, or marks it |
| PipelineCallbacks.StoredCountIsBounded | services/backend/pipelines/pipeline_scans.go:465-497 | the stored count never exceeds five, and is below five while pending, although workers use stale counts |
| PipelineCallbacks.WhatCreationDoes | services/backend/pipelines/pipeline_scans.go:193-221 | a new request waits for the end of its scan, if it wants a callback |
| PipelineCallbacks.WhatQueueingDoes | services/backend/pipelines/pipeline_scans.go:193-221 | a waiting request, or a pending one that was never claimed, becomes pending and due, and no other changes |
| PipelineCallbacks.WhatCanBeClaimed | services/backend/pipelines/pipeline_scans.go:359-383 | a request can be claimed exactly while it is pending and due |
| PipelineCallbacks.WhatTheHolderCanDo | services/backend/pipelines/pipeline_scans.go:385-497 | the effect on the row of everything the holder of the latest claim can do |
| PipelineCallbacks.OnlyDeliveryDelivers | services/backend/pipelines/pipeline_scans.go:452-463 | a step makes a request delivered exactly if it is a delivered mark after a POST, under the claim of a pending row |
| PipelineCallbacks.DeliveredHasCause | services/backend/pipelines/pipeline_scans.go:434-463 | every delivered request was marked so by the worker of its latest claim, after its POST |
| PipelineCallbacks.PendingCanBeDelivered | services/backend/pipelines/pipeline_scans.go:330-463 | whatever has happened, a pending request can still be claimed and delivered |
| PipelineCallbacks.CountIsExactIffOrderly | services/backend/pipelines/pipeline_scans.go:396-497 | throughout a run the stored count and the requests on the wire add up to the attempts made, if and only if every attempt is closed by its own effective mark with no other mark since the worker read the row |
| PipelineCallbacks.OneSteadyWorkerIsExact | services/backend/pipelines/pipeline_scans.go:330-497 | a request left to one worker that does not crash has every attempt counted |
| PipelineCallbacks.AttemptsAreUnbounded | services/backend/pipelines/pipeline_scans.go:330-383 | any number of failed attempts by workers with old counts can leave a request pending with a count of at most one |
| PipelineCallbacks.CrashesAreNotCounted | services/backend/pipelines/pipeline_scans.go:434-463 | any number of attempts whose workers crash after the POST leaves the count at zero |
| PipelineCallbacks.ComputeVerdict | services/backend/pipelines/pipeline_scans.go:271-291 | pending, failing, passing and error verdicts are each given exactly when they should be |
| PipelineCallbacks.RequestTable.QueueCallback | services/backend/pipelines/pipeline_scans.go:193-221 | makes a waiting request pending once its scan has ended, and otherwise changes nothing |
| PipelineCallbacks.RequestTable.ClaimPending | services/backend/pipelines/pipeline_scans.go:359-383 | claims a due pending request and remembers the time of the claim as its token |
| PipelineCallbacks.RequestTable.ReleaseClaim | services/backend/pipelines/pipeline_scans.go:385-394 | reschedules the request only under the token of its claim |
| PipelineCallbacks.RequestTable.MarkFailure | services/backend/pipelines/pipeline_scans.go:465-497 | under the token, counts the attempt and retries after its square in minutes, or fails for good |
| PipelineCallbacks.RequestTable.DeliverCallback | services/backend/pipelines/pipeline_scans.go:396-463 | for every way a delivery can go, the row it leaves, field by field: delivered if accepted, put off if there is nothing to deliver yet, tried again after the square of the attempts in minutes, or failed; any row not pending under the claim stays |
| MutationLocks.SortedUniqueScanIds | services/backend/scanner/intelligence.go:623-638 | the same non-nil identifiers, each once, strictly increasing |
| MutationLocks.OrderIsUnique | services/backend/scanner/intelligence.go:623-638 | only one list is like that, so all transactions agree on the order |
| MutationLocks.ConvexHashNeverStuck | services/backend/scanner/intelligence.go:601-621 | if no scan that is touched lies between two colliding ones and has another key, any number of transactions, in any interleaving, can always go on |
| MutationLocks.OtherHashGetsStuck | services/backend/scanner/intelligence.go:601-621 | any three scans for which that fails let two transactions block each other |
| MutationLocks.DeadlockFreeIffConvex | services/backend/scanner/intelligence.go:601-621 | for any given scans, locking in identifier order excludes deadlock exactly if the hash is convex on them |
| MutationLocks.NoCollisionNoDeadlock | services/backend/scanner/intelligence.go:601-621 | scans that do not collide among themselves are safe, whatever collides elsewhere |
| MutationLocks.TwoScansNeverDeadlock | services/backend/scanner/intelligence.go:601-621 | transactions that touch at most two scans between them are safe with any hash |
| ScanLifecycle.OneClaimOneEndOneNotification | services/backend/scanner/worker.go:889-959 | over all interleavings and crashes a scan is claimed at most once, ends at most once, and at most one notification goes out, which names its status |
| ScanLifecycle.FinalStatusStays | services/backend/scanner/worker.go:1058-1079 | a final status, its step and its completion time never change |
| ScanLifecycle.EndHasCause | services/backend/scanner/progress.go:160-250 | completion comes from the claiming worker; failure from it, from a failed dispatch other than a full queue, or from a watchdog or recovery that found the row stale at the moment of its update |
| ScanLifecycle.LiveScanIsLeftAlone | services/backend/scanner/progress.go:228-250 | a scan that shows signs of life is not failed behind its worker's back |
| ScanLifecycle.WinnerAnnounces | services/backend/scanner/worker.go:943-959 | whoever ends the scan announces it once unless it crashes or cannot log the completion, whatever the others do |
| ScanLifecycle.PendingScanCanComplete | services/backend/scanner/worker.go:1058-1079 | a pending scan can be claimed, completed and announced by any free worker |
| ScanLifecycle.AbandonedScanEnds | services/backend/scanner/progress.go:228-250 | a scan without a sign of life at or past the cutoff is ended by a watchdog round and announced as failed, whatever became of its worker |
| ScanLifecycle.PollInterval | services/backend/scanner/progress.go:47-63 | a quarter of the stale timeout or the wanted interval, whichever is shorter, but at least fifteen seconds |
| ScanLifecycle.ScanTable.ClaimScan | services/backend/scanner/worker.go:1058-1079 | pending to running, and nothing else |
| ScanLifecycle.ScanTable.CompleteScan | services/backend/scanner/worker.go:809-865 | only a running scan is completed, and completion is announced exactly if it took effect and its last step was logged |
| ScanLifecycle.ScanTable.PersistFailedScan | services/backend/scanner/worker.go:898-941 | fails a pending or running scan, with a cutoff only if its row is stale when it is written |
| ScanLifecycle.ScanTable.SetFailed | services/backend/scanner/worker.go:889-896 | a failure is announced exactly if it took effect |
| ScanLifecycle.ScanTable.MarkScanFailed | services/backend/scanner/dispatch.go:75-109 | a failed dispatch fails a pending or running scan without a notification; a full queue is no failure |
| ScanLifecycle.ScanTable.CancelScan | services/backend/handlers/scans/cancel.go:50-79 | cancels a pending or running scan, and nothing else |
| ScanLifecycle.ScanTable.TouchHeartbeat | services/backend/scanner/progress.go:84-91 | a heartbeat is written only for a running scan |
| ScanLifecycle.ScanTable.TouchProgress | services/backend/scanner/progress.go:65-82 | progress is written only for a pending or running scan |
| ScanLifecycle.ScanTable.RecoverScans | services/backend/scanner/progress.go:160-218 | the same scans are looked up, and each is failed exactly if it still runs and is stale at the moment of its update; the count is the number of those; undisturbed, exactly those scans are failed |
| ScanLifecycle.ScanTable.FailStaleScans | services/backend/scanner/progress.go:228-250 | the running scans without a sign of life at or past the cutoff are looked up, and each is failed and announced exactly if it is still open and stale at the moment of its own update, whatever others do in between; undisturbed, exactly those scans are failed and announced, once each |
| ScanLifecycle.ScanQueue.Enqueue | services/backend/scanner/worker.go:231-272 | a scan is queued at most once, a full queue leaves the scan pending, and a scan that was not queued keeps no reservation |
| ScanLifecycle.ScanQueue.Dequeue | services/backend/scanner/worker.go:274-286 | jobs leave in order, and their identifier becomes free again |
| StepLog.ScanRecord.UpdateCurrentStep | services/backend/scanner/steps.go:162-193 | the current step is written exactly for the statuses that may show it |
| StepLog.ScanRecord.SetScanStep | services/backend/scanner/steps.go:39-108 | the row shows the step exactly if its status allows it; the log is unchanged if the step is the open one, and otherwise its open entry is closed and, if the row was written, the new entry follows with the next position |
| StepLog.ScanRecord.AppendTerminalStepLog | services/backend/scanner/steps.go:110-160 | appends the closed entry of a terminal step after closing an open one, unless it is the last already, and leaves the row alone |
| StepLog.RunKeepsShape | services/backend/scanner/steps.go:39-160 | positions are 0, 1, 2, ..., all entries but the last are closed, terminal entries are closed from the start |
| StepLog.LogIsAppendOnly | services/backend/scanner/steps.go:39-160 | an entry keeps its place, and once closed it never changes |
| StepLog.NoActiveStepOnceTerminal | services/backend/scanner/steps.go:81-88 | once a scan has ended no active step is appended |
| StepLog.EndIsRecordedOnce | services/backend/scanner/steps.go:115-160 | however often the end is recorded, it gets at most one entry |
| StepLog.OpenStepIsClosedIff | services/backend/scanner/steps.go:69-88 | a step left open at the end of a scan is closed exactly if somebody records the end or tries another step |
| StepLog.RecoveryLeavesStepOpen | services/backend/scanner/worker.go:430-454 | a scan failed by recovery after a restart has such a step |
| XrayPermits.PermitsAreConserved | services/backend/scanner/xray_workers.go:24-53 | tokens in a pool are the permits held on it and never exceed its capacity; a waiting permit holds nothing; a holder can return its permit at once |
| XrayPermits.WaiterCanBeServed | services/backend/scanner/xray_workers.go:46-83 | from every reachable state a waiting permit can be granted after at most one other has been returned, so switching pools cannot deadlock |
| XrayPermits.NothingWithoutCapacity | services/backend/scanner/xray_workers.go:60-65 | with pools of no capacity nobody is ever served |
| XrayPermits.ChangingToImports | services/backend/scanner/xray_workers.go:44-53 | a permit that changes to imports has given its work permit back before it waits for an import permit |
| XrayPermits.WorkPermit.Acquire | services/backend/scanner/xray_workers.go:24-35 | takes one token or none, and waits exactly if the pool is full and the context is not done |
| XrayPermits.WorkPermit.Release | services/backend/scanner/xray_workers.go:37-42 | returns one token exactly if the permit was held |
| XrayPermits.WorkPermit.AcquireImport | services/backend/scanner/xray_workers.go:44-53 | the old permit is returned before the new one is waited for |
| Evidence.PreferenceIsStrictOrder | services/backend/scanner/intelligence.go:823-846 | preference is a strict order that decides between any two records |
| Evidence.LatestEvidence | services/backend/scanner/intelligence.go:793-821 | one record per named source, in the order of the sources, each behind no other record of its source: feed before snapshot, exact before wildcard, then the later observed, later created, greater identifier |
| Evidence.LatestPostScanEvidence | services/backend/scanner/intelligence.go:764-787 | the same over the records dated after the scan, change events by their creation here |
| Evidence.NothingBetterIsPassedOver | services/backend/scanner/intelligence.go:823-846 | a feed record is never passed over for a snapshot, an exact one for a wildcard of the same kind, nor a newer one for an older one |
| Evidence.SelectionIsUnique | services/backend/scanner/intelligence.go:789-821 | the set of records determines the selection; arrival order plays no part |
| Evidence.Conflicts | services/backend/scanner/intelligence.go:848-865 | comparing every record with the first finds a conflict exactly if some two records differ in more than the order of fixed versions |
| AffectedRanges.MatchIdentity | services/backend/scanner/intelligence_identity.go:266-301 | an identity in doubt is never reported as a match, and an unconstrained range always matches |
| AffectedRanges.InForceIsGreatest | services/backend/scanner/intelligence_identity.go:400-407 | the change in force is one at the greatest version at or below the given one |
| AffectedRanges.SortStably | services/backend/scanner/intelligence_identity.go:400 | sorting changes neither the elements nor what is in force |
| AffectedRanges.EvaluateTimeline | services/backend/scanner/intelligence_identity.go:378-414 | affected exactly if every change can be read and the status in force, the last one at the greatest version not above the given one, is affected or vulnerable; unknown exactly if a change cannot be read or no status is given |
| AffectedRanges.OrderIrrelevantIffAgreement | services/backend/scanner/intelligence_identity.go:378-414 | every order of the parsed changes gives the same answer if and only if the changes at the deciding version agree |
| AffectedRanges.AnyOrderDoesIffAgreement | services/backend/scanner/intelligence_identity.go:378-414 | as received, every order of the changes gives the same answer if and only if one of them cannot be read or those at the deciding version agree |
| AffectedRanges.OrderCanMatter | services/backend/scanner/intelligence_identity.go:378-414 | two changes at one version give opposite answers listed one way and the other |
| AffectedRanges.DistinctVersionsNeedNoOrder | services/backend/scanner/intelligence_identity.go:378-414 | changes at distinct versions can be listed in any order |
| AffectedRanges.EvaluateRanges | services/backend/scanner/intelligence_identity.go:190-219 | affected exactly if there are no ranges or one hits the package, unknown exactly if none hits and one is in doubt, with hits and doubts told from the fields of range and package |
| AffectedRanges.AggregateIsJoin | services/backend/scanner/intelligence_identity.go:190-219 | the result over two lists together is the stronger of the two results |
| AffectedRanges.DecisionsStand | services/backend/scanner/intelligence_identity.go:190-264 | an answer other than unknown is never overturned by learning a missing package name, package URL or version |
| Posture.ClearedOnlyWithoutDoubt | services/backend/scanner/intelligence_identity.go:144-188 | a finding is cleared exactly if the source says so or gives ranges of which none that concerns the package is affected or in doubt |
| Posture.WhatStatesMean | services/backend/scanner/intelligence_identity.go:144-188 | each state exactly by what the source says about the vulnerability, the package, its fixes and its severity |
| Posture.WorseIsWorseIff | services/backend/scanner/intelligence_identity.go:176-183 | for affected findings without ranges or new fixes, a worse assessment gives no better state, except exactly that within one severity a score below the finding's own reduces what a missing score left unchanged |
| Posture.AgreementFixesState | services/backend/scanner/intelligence_identity.go:75-91 | sources that agree lead to the same state, whichever represents them |
| Posture.DerivePosture | services/backend/scanner/intelligence_identity.go:44-110 | a conflict leaves the posture open and names the sources; agreement gives the shared assessment with the newest time and the newest change event |
| Posture.PostureSpeaksForAll | services/backend/scanner/intelligence_identity.go:44-110 | a conflict asks for a rescan and names all sources; otherwise state, severity and score are those of every source; the posture is as recent as its newest record, and its change event is that of the newest record with one, present whenever some record has one and there is no conflict |
| Posture.WhatPosturesShow | services/backend/scanner/intelligence_identity.go:44-110 | every field of the posture, for a conflict and for agreement |
| Posture.DerivedIgnoresOrder | services/backend/scanner/intelligence_identity.go:44-110 | the posture is determined by the set of records |
| Posture.WhatCountsAsChange | services/backend/scanner/intelligence.go:902-916 | two postures count as the same exactly if they differ at most in the change event and the order of fixed versions |
| Posture.WhatEventsShow | services/backend/scanner/intelligence.go:691-721 | an event shows what was there before, if anything, and what is there now |
| Posture.PostureStore.Transition | services/backend/scanner/intelligence.go:526-547 | writing a row with its event keeps, for every finding, the log a gapless story that begins from nothing and ends at the row |
| Posture.PostureStore.RefreshFinding | services/backend/scanner/intelligence.go:502-556 | a row and an event are written exactly if the row does not say what the evidence says, and exactly then one change is reported |
| Posture.PostureStore.RefreshPostures | services/backend/scanner/intelligence.go:500-560 | afterwards all rows say what the evidence says, one event per change and each change reported as its event says, other rows untouched, and rows that were up to date cause no write |
| Posture.PostureStore.RefreshTwice | services/backend/scanner/intelligence.go:500-560 | a second refresh without new evidence writes nothing, reports nothing, and leaves every row and event as it was |
| Policy.EvaluatePolicy | services/backend/compliance/evaluate.go:19-97 | the policy fails exactly if a rule is broken by too many findings or by one it forbids; the violations are exactly those, rule by rule and finding by finding |
| Policy.ViolationsIffBroken | services/backend/compliance/evaluate.go:90-96 | an empty violation list means exactly that no rule is broken |
| Policy.NeverNewlyFailsIffNoWorse | services/backend/compliance/evaluate.go:19-97 | a change of the findings leaves every passing policy passing if and only if nothing a rule can look at gets worse |
| Policy.RemovalNeverFails | services/backend/compliance/evaluate.go:19-97 | removing or reordering findings turns no policy from pass to fail |
| Policy.OrderIsIrrelevant | services/backend/compliance/evaluate.go:19-97 | the verdict depends neither on the order of findings nor on that of rules |
| Policy.FilterSuppressed | services/backend/compliance/evaluate.go:128-141 | keeps the findings that are not suppressed, in order |
| Policy.SuppressionNeverFails | services/backend/compliance/evaluate.go:128-141 | suppressing findings cannot make a policy fail |
| Policy.EvaluateCurrent | services/backend/compliance/intelligence.go:75-162 | judges the current view of the findings, in which hidden ones are left out and the others are shown as their postures say, in order; asks for validation exactly if a changed finding in view is in doubt; names every changed finding once |
| Policy.OverlayIsSilentIff | services/backend/compliance/intelligence.go:185-202 | a posture leaves a finding as it is exactly if it repeats it or is silent about severity, score and vector, and agrees on fixed versions |
| Policy.WhatPosturesDo | services/backend/compliance/intelligence.go:164-202 | which postures hide a finding or put it in doubt, and what the others show in each field |
| Policy.JoinedInParts | services/backend/compliance/intelligence.go:197-198 | fixed versions are joined by a comma and a blank between any two of them |
| Policy.NoPosturesNoDifference | services/backend/compliance/intelligence.go:75-162 | without postures the current view is the finding list itself |
| Policy.ExclusionNeverFails | services/backend/compliance/intelligence.go:164-172 | postures that only exclude findings cannot make a policy fail |
| Policy.ReducedSeverityCanFail | services/backend/compliance/intelligence.go:185-202 | a posture that lowers a severity can |
| Policy.WhatImpactsMean | services/backend/compliance/intelligence.go:376-392 | each impact exactly by the two verdicts and what is new about a failure |
| Policy.NewFailureHasCause | services/backend/compliance/intelligence.go:376-392 | a new failure is always due to a posture that rewrites a finding instead of excluding it |
| RateLimiter.KeepAfter | services/backend/middlewares/ratelimit.go:57-63 | the filter through the same array keeps exactly the live times, in order |
| RateLimiter.WindowIsCovered | services/backend/middlewares/ratelimit.go:38-72 | also under changing limits, the requests accepted in any window are covered by the limit under which the last of them was accepted |
| RateLimiter.AtMostLimitInAnyWindow | services/backend/middlewares/ratelimit.go:50-72 | with a fixed limit no window holds more accepted requests than that |
| RateLimiter.RefusedIffWindowIsFull | services/backend/middlewares/ratelimit.go:65-71 | a request is refused exactly if the window that ends with it holds as many accepted requests as the limit |
| RateLimiter.Limiter.Check | services/backend/middlewares/ratelimit.go:50-72 | accepts a request exactly if fewer than the limit were accepted in the window before it, nothing ever forgotten, and reports how many remain |
| RateLimiter.Serve | services/backend/middlewares/ratelimit.go:50-72 | over any list of requests the limiter accepts exactly what the never-forgetting reference accepts |
| DedupeKey.BuildPreimage | services/backend/backgroundjobs/jobs.go:65-75 | the loop writes every part with its decimal length and a colon in front |
| DedupeKey.ReadsBack | services/backend/backgroundjobs/jobs.go:65-75 | a reader recovers the parts, whatever bytes they contain |
| DedupeKey.PreimagesDiffer | services/backend/backgroundjobs/jobs.go:65-75 | two lists of parts give the same bytes exactly if they are the same list |
| IndexedMerge.Merge | services/backend/scanner/grype.go:257-302 | merging through the index is merging with a search for the last slot of the key each time |
| IndexedMerge.IndexAfterTakeIn | services/backend/scanner/grype.go:268-276 | the index always names the right slot |
| IndexedMerge.KeysStayUnique | services/backend/scanner/grype.go:257-279 | unique keys stay unique |
| References.CombinedNames | services/backend/scanner/grype.go:357-382 | combining two reference lists loses no reference and invents none |
| References.Combine | services/backend/scanner/kb.go:98-130 | the loops gather the references cleaned, each name once, in the order of first appearance; an empty side leaves the other as it is |
| FindingMerge.MergeLocalScannerFindings | services/backend/scanner/grype.go:257-279 | is the indexed merge of findings by identifier and package |
| FindingMerge.MergeKBEntries | services/backend/scanner/grype.go:281-302 | is the indexed merge of knowledge-base entries by identifier |
| FindingMerge.FindingsAreUnited | services/backend/scanner/grype.go:257-355 | existing findings keep their places and keys, new keys follow once each and nothing else; in every slot severity, score and description are the greatest that went into it, the score with the vector it came with, and no given version, fix, title or data source is lost to a missing one |
| FindingMerge.EntriesAreUnited | services/backend/scanner/grype.go:281-324 | the same for knowledge-base entries |
| FindingMerge.WhatMergingKeeps | services/backend/scanner/grype.go:326-352 | every field of two findings merged |
| FindingMerge.WhatMergingEntriesKeeps | services/backend/scanner/grype.go:304-324 | every field of two entries merged |
| FindingMerge.KeysAreEqualIff | services/backend/scanner/grype.go:353-355 | two findings are taken for one exactly if identifier and package agree apart from white space around them, or if a bar in one of the names makes them look so |
| FindingMerge.KeysTellApart | services/backend/scanner/grype.go:353-355 | without a bar in the identifiers different findings are kept apart |
| FindingMerge.KeysCanCollide | services/backend/scanner/grype.go:353-355 | with one, findings of two packages can be merged into one |
| References.TrimMeans | services/backend/scanner/grype.go:353-375 | trimming takes white space away at both ends and nothing else |
| FindingMerge.FindingsMergeOnce | services/backend/scanner/grype.go:257-382 | merging the same findings again never changes anything but the spelling and order of references |
| FindingMerge.EntriesMergeOnce | services/backend/scanner/grype.go:281-324 | the same for knowledge-base entries |
| RepeatedMerge.GatheredIsSameIffTidy | services/backend/scanner/grype.go:357-382 | cleaning leaves a reference list alone exactly if every reference is clean and named once |
| RepeatedMerge.CombinedAgainIff | services/backend/scanner/grype.go:357-382 | combining with the same list a second time changes nothing exactly if that list is empty, or tidy onto an empty one, or some reference on either side has a name |
| RepeatedMerge.FoldedAgainIffSettles | services/backend/scanner/grype.go:357-382 | the exact condition for any number of lists combined in turn, including blank ones that cancel each other out |
| RepeatedMerge.SlotIsFolded | services/backend/scanner/grype.go:257-279 | the references in a slot are those it had, combined with every incoming list of its key in turn |
| RepeatedMerge.MergingAgainIffSettled | services/backend/scanner/grype.go:257-302 | an indexed merge repeated with the same input changes nothing at all if and only if the lists of every incoming key settle |
| FindingMerge.FindingMergesAgainIff | services/backend/scanner/grype.go:326-382 | merging one finding into a slot twice equals merging it once, if and only if its references pass the short condition |
| FindingMerge.EntryMergesAgainIff | services/backend/scanner/kb.go:98-130 | the same for one knowledge-base entry |
| FindingMerge.FindingsMergeAgainIff | services/backend/scanner/grype.go:257-382 | merging the same findings again changes nothing at all if and only if the reference lists of every incoming key settle |
| FindingMerge.EntriesMergeAgainIff | services/backend/scanner/grype.go:281-324 | the same for knowledge-base entries |
| FindingMerge.ReferencesAreRespelled | services/backend/scanner/grype.go:357-363 | the spelling can indeed change, because an empty side leaves the other uncleaned |

## Left out

- HTTP, SQL text, scanner processes, notification delivery, mail, archives, routing, settings and the frontend: input and output, or libraries.
- SHA-256, JSON codecs, semantic-version and constraint parsing, package-URL and CPE matching: parameters, abstract orders or inputs that have already been parsed.
- `fixedVersionsForIdentity` (services/backend/scanner/intelligence_identity.go:416-465): a parameter of the posture; collecting and sorting the strings would only add easy members.
- The explanatory reason texts, messages of violations, progress counters and error columns.
- `violationListsDiffer` (services/backend/compliance/intelligence.go:427-443): an input of `Policy.Classify`, since it compares encoded texts.
- Letter case and surrounding blanks of status words and identifiers outside `FindingMerge.dfy`, and of the severity words in policies: taken as already normalized. Ranking upper-cases a severity word as the program does.
- Floating point: scores are real numbers.
- The output lines of a scan step (services/backend/scanner/steps.go:195-228): they only append to the latest entry.
- Request spacing and retries of the history client (services/backend/scanner/cve_history.go:277-412): a request either yields a page or fails.
- The order in which warnings of a document are stored, and the merging of equal ones.
- Column defaults that the database or its mapper may put in place of empty fields.
- Deletion of scans, findings and their rows.
- The Xray provider flow itself: its worker appears as an actor that completes, fails or crashes, and as an arbitrary caller of its permit.
- CveHistory.SyncWindow: a feed whose reported totals grow without bound could keep the page loop busy for ever, so that case is described only up to any number of requests, after which requests fail.
- CveHistory.Store.PersistCursor: requires the new cursor to lie above the stored one, as it does for a run that is alone; two runs at once, after one has lost its advisory lock, are not modelled.
- JobLease.WhatCanBeClaimed: the step system has only job types that are not passive, and no locked rows; `JobLease.JobTable.Claim` has both.
- JobLease.JobTable.Settle: an update that the database refuses with an error is left out; it writes nothing, which the step system covers as a step that is not taken.
- JobLease.RetriesStayWithinBudget: speaks of processors that keep the retry count in the payload they report, because a report overwrites the payload.
- ScanLifecycle.ScanTable.RecoverScans: the requeueing of pending scans before it is `ScanLifecycle.ScanQueue.Enqueue`, scan by scan; failing database statements are left out.
- ScanLifecycle.ScanQueue.Enqueue: does not model a cancelled request context, nor the step log it writes to, which `StepLog.ScanRecord.SetScanStep` covers.
- StepLog.ScanRecord.SetScanStep: taken as one atomic step, while the program issues several statements; two overlapping calls for one scan are not modelled.
- Posture.DerivePosture: does not model the reason texts, and takes the collected fixed versions as a parameter.
- Policy.EvaluateCurrent: does not model the lists of changed CVE names and reasons, which are sorted for display.
- RateLimiter.Limiter.Check: a bucket's array is shown as a sequence between calls; room that append may reuse or grow is not modelled.
- XrayPermits.WaiterCanBeServed: says that a waiting permit can be served, not that the scheduler will serve it.
