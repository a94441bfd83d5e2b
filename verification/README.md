# Slurmy: a verified model

Slurmy runs solver-problem pairs on a SLURM cluster. This Dafny project models the parts of it whose
correctness rests on more than one function: the protocol by which several submitters share one user's
submit limit, the concurrent snapshot cache of the web application, the automatic recovery of idle jobs,
the admission of background operations, the batch planner, the paginated table of pairs, the incremental
refresh of results, the StarExec export, the quantifier scoping of the Drodi parser, and job naming.

Code that changes state step by step is written as Dafny methods and classes, each proved against a
specification function or relation; the properties are lemmas about those specifications, over all inputs
and over all runs. `dafny verify dfyconfig.toml` checks everything.

| file | models |
|---|---|
| `FairShare`, `Coordinator`, `Turns`, `QueueListing` | `implementation/submit_coordinator.py` |
| `SnapshotCache`, `CacheProtocol`, `CacheGuarantees`, `CacheProgress` | `web-app/slurmy_web/snapshot_cache.py`: the class, its threads as a transition system, what every reachable state promises, and that none is a deadlock |
| `RecoveryWatch` | `web-app/slurmy_web/recovery_watch.py` |
| `Operations`, `TaskPage`, `Incremental`, `Results` | `web-app/slurmy_web/app.py` and `monitor.py` |
| `PairOrder`, `Packing`, `Planner`, `PlannerProperties`, `BatchSize` | `implementation/slurmy.py` and `web-app/slurmy_web/batch_suggestion.py` |
| `QuantifierScope`, `QuantifierRewrite`, `QuantifierProperties` | `TPTPQuantifiers` in `workflows/example-solvers/drodi/Drodi.c` |
| `StreamNames`, `StarExec`, `LogMerge`, `OutputCopy` | `implementation/remote_export.py` and `implementation/starexec_export.py` |
| `JobNames` | `implementation/job_names.py` |
| `Options`, `Numbers`, `Sequences`, `Text`, `Totals`, `Names`, `Division`, `Decimal`, `StableSort` | sums over maps, orders, division, numerals and Python's sort, shared by the others |

## Reading the model

- **Submit coordinator.** A state is the lease table, the capacity record, the user's queue and the clock.
  One call of the script is one step, because it holds a file lock throughout; what squeue, sacctmgr and
  sbatch answer is a parameter (`World`). Other steps are a finished SLURM element, work of other programs
  arriving and leaving, a release, and time passing. `Targets` is the allocation computed by `fair_targets`.
- **Snapshot cache.** Each critical section is one atomic action; a loading thread is a program counter
  (blocked on its host lock, loading, loaded, failed, leaving). A ghost history records per key the value
  published last and how the last load ended; freshness is stated against that history.
- **Recovery watch.** A run is a sequence of observations, heartbeats, stops and resumes of any jobs. A
  lifetime of an entry is a run during which the entry exists and the user does not resume the job.
- **Quantifiers.** A text is a sequence of tokens: characters, and quoted blocks as one opaque token each.
  `Rewritten` says where every parenthesis goes; `MarkedText` is the same text with the inserted tokens
  marked, so that "deleting the inserted parentheses" has a meaning. The buffer is an array that grows.
- **Planner.** `IsPlan` lists what a numbering of batches must satisfy. It has exactly one solution
  (`PlanUnique`), the packing loop computes it (`Plan`), and no other admissible numbering has fewer
  batches (`FewestBatches`).
- **Incremental refresh.** Times are real numbers. A result index is written at one time and moved into
  place later; a refresh reads at one time, and records a later time from a different clock. `Safe` bounds
  these gaps.

## Where the code does not do what is said of it

Each of these is a lemma with the exact condition or a concrete run.

- `implementation/README.md:124-129` calls the observed ceiling temporary. A later rejection combines the
  new observation with the old one even after that has expired
  (`implementation/submit_coordinator.py:186-188`), so the recorded value never rises
  (`ObservedNeverRises`, `ExpiredCeilingReturns`; exact condition in `RejectionRecordsTotal`).
- `implementation/README.md:153-154` says retries are at least a minute apart. That holds while the entry
  of a job exists (`RetriesSpaced`). When the entry is dropped, because a heartbeat did not find the job,
  and the job is then seen active again, or when the user resumes the job, only the idle time separates two
  retries (`RetriesSpacedAlways`). `SpacingExactly` gives the condition for every state, and
  `SpacingLostAcrossLifetimes` what it comes to after a drop or a resume. The same lines say that retries stop
  after three attempts without new results. That too holds per entry: without progress there are at most
  `maxAttempts` retries for every entry that begins (`RetriesPerLifetime`), and a job whose entry keeps being
  dropped is retried any number of times, one idle time apart (`AttemptsRenewed`).
- `implementation/README.md:123-125` says the submitters divide the available slots among the active jobs. The
  rotation advances only with an accepted submission, and a free slot goes to whoever polls first among those
  whose turn it is. A job that sees a free slot once at each turn of a cycle is served (`ServedWithinCycle`,
  `ServedWithinSubmitters`); one that polls as often as the others, but always after a freed slot has been
  taken again, is passed over for ever (`RaceBegins`, `PassedOverForEver`).
- A status is fresh if and only if the value is current and the last load either succeeded or failed with
  an empty message: an exception without text is stored but not recognised as an error
  (`web-app/slurmy_web/snapshot_cache.py:41-43`, `FreshExactly`, `EmptyFailureLooksFresh`).
- A stop overlaps not only downloads and a resume but also a deletion that is waiting for it
  (`OneOfEachKind` bounds what may overlap, `StopBesideDeletion` is the run). When the subprocess of the deletion starts, it is alone (`DeletionRunsAlone`).
- `TPTPQuantifiers` looks one character ahead to tell `!=` from a quantifier. After it has inserted a
  closing parenthesis between the two characters, as it does on `?!=>`, the next turn takes the `!` for a
  quantifier. `OpensExactly` gives the
  condition; a text without `!=>` never meets it.
- The wall-time column of the fast page is the one of the full rows unless a progress record is filed under
  a pair it does not name (`KeyIsColumn`, `MisfiledRecordMoves`). The snapshot parser never files one so
  (`ParseCalls`, `ParsedPagesAgree`).
- The minute subtracted from the last refresh time is enough exactly when the cutoff it gives lies before
  anything that may still appear (`Safe`; `IncrementalEqualsFull` and `UnsafeLosesResult`).
- A copied log line carries a time stamp unless it had none and a total in the prefix is not a plain decimal,
  such as 1E-7 or -0.0 (`CopyStamped`). Only then does copying the copy prefix a line again
  (`CopiedOnceExactly`, `PrefixedTwice`).
- The merge of log archives writes each log exactly once if and only if a pair has at most one log of each
  kind (`EachLogOnce`); a second one is dropped (`SecondLogLost`).

## Model

| member | source | states |
|---|---|---|
| `FairShare.FairTargets` | implementation/submit_coordinator.py:84-102 | the loop that pops demands and redistributes shares returns the allocation about which the following rows speak |
| `FairShare.TargetsTotal` | implementation/submit_coordinator.py:84-102 | the targets sum to the capacity (none if negative) or to the total demand, whichever is less |
| `FairShare.TargetsFair` | implementation/submit_coordinator.py:85-102 | no target exceeds its demand or is negative, and an unsatisfied job is at most one behind any other |
| `FairShare.MaxMinOptimal` | implementation/submit_coordinator.py:85 | any feasible allocation that gives a job more gives less to some job whose target is at most that job's plus one |
| `FairShare.FairDivisionUnique` | implementation/submit_coordinator.py:85 | any other balanced allocation of the same total differs by at most one slot per job |
| `FairShare.LevelRises` | implementation/submit_coordinator.py:89-101 | the equal share never falls from one pop to the next |
| `FairShare.LevelSeparates` | implementation/submit_coordinator.py:90-97 | exactly the jobs with demands above the final share are the ones left waiting |
| `FairShare.TargetsMonotone` | implementation/submit_coordinator.py:84-102 | for a fixed turn more capacity never lowers any target |
| `FairShare.HitsPerCycle` | implementation/submit_coordinator.py:93-95 | in n consecutive turns every position of a rotated list of n gets the bonus exactly `extra` times |
| `FairShare.RotationFair` | implementation/submit_coordinator.py:93-97 | over one cycle of turns all waiting jobs receive the same total, and satisfied jobs always their demand |
| `Turns.ServedWithinCycle` | implementation/submit_coordinator.py:158-177 | in any run, a job below its best share that polls with a slot free once at each turn of a cycle, among the same demands and slots, calls sbatch |
| `Turns.ServedWithinSubmitters` | implementation/submit_coordinator.py:158-177 | so a job with nothing queued is served within as many turns as there are live submitters |
| `Turns.PassedOverForEver` | implementation/submit_coordinator.py:158-177 | for every n, in a run of 2n rounds in which three live submitters poll in turn, 3n submissions are accepted and one of the three never calls sbatch |
| `Turns.RaceBegins` | implementation/submit_coordinator.py:158-177 | the state from which this happens is reached from an empty queue by three attempts |
| `QueueListing.Snapshot` | implementation/submit_coordinator.py:64-81 | total is other plus the sum of the per-job counts, and each count is the number of lines of that job |
| `QueueListing.OwnerExactly` | implementation/submit_coordinator.py:66-78 | a line belongs to a job if and only if what follows its first bar is the jobs directory and then a name of ASCII letters, digits, dots, underscores and hyphens |
| `QueueListing.JobCounted` | implementation/submit_coordinator.py:68-78 | the count of a job is the number of lines that belong to it |
| `QueueListing.OtherCounted` | implementation/submit_coordinator.py:69-80 | the rest is the number of lines that belong to no job and are not blank |
| `Coordinator.SubmitCoordinator.Attempt` | implementation/submit_coordinator.py:123-194 | one attempt changes leases, ceilings, turn and queue exactly as the step relation says, for every answer of squeue, sacctmgr and sbatch |
| `Coordinator.SubmitCoordinator.Submit` | implementation/submit_coordinator.py:166-194 | what each sbatch outcome does to the capacity record and the queue |
| `Coordinator.SubmitCoordinator.DropExpired` | implementation/submit_coordinator.py:131-139 | only leases renewed within 45 seconds remain, and they give the demands |
| `Coordinator.SubmitCoordinator.ShareOf` | implementation/submit_coordinator.py:158-160 | the share of a job from what other work and jobs without a submitter leave of the ceiling |
| `Coordinator.SubmitCoordinator.Release` | implementation/submit_coordinator.py:126-128 | removes this job's lease and no other |
| `Coordinator.WorkConserving` | implementation/submit_coordinator.py:157-165 | some live submitter may submit if and only if the queue is below the known ceiling and some live submitter is below its request |
| `Coordinator.SharesUsedUp` | implementation/submit_coordinator.py:158-165 | when all shares are used, the ceiling is reached or every request is met |
| `Coordinator.AttemptAsDecided` | implementation/submit_coordinator.py:129-165 | an attempt issues sbatch exactly when the decision about which work conservation is stated says so |
| `Coordinator.AttemptDecides` | implementation/submit_coordinator.py:151-165 | sbatch is called exactly when the queue is readable and, without a positive limit in force, the job is below its maximum, or, with the least such limit c, the queue is below c and the job below its share in the fair division of c less everything queued by others than the live submitters |
| `Coordinator.LimitLearned` | implementation/submit_coordinator.py:151-165 | an answer about the association limit is asked for when the last is more than 300 seconds old, is recorded whatever it is, and stops an attempt at that limit; a younger one is kept |
| `Coordinator.LeasesLeft` | implementation/submit_coordinator.py:130-139 | an attempt leaves its own lease and those of the last 45 seconds, and exactly their positive requests are divided for |
| `Coordinator.ReleasedClaimsNothing` | implementation/submit_coordinator.py:126-139 | a released job has no claim until it asks again |
| `Coordinator.RepliesTell` | implementation/submit_coordinator.py:145-194 | which reply is given when, the counts it tells, and that the turn advances only with an accepted submission and the observation changes only with a limit rejection of a non-empty queue |
| `Coordinator.IssueGuards` | implementation/submit_coordinator.py:160-165 | sbatch is only issued below the own maximum and below the ceiling in force |
| `Coordinator.AcceptedWithinLimits` | implementation/submit_coordinator.py:172-181 | an accepted submission adds one element and stays within the requested maximum and the ceiling |
| `Coordinator.NeverAboveRequest` | implementation/submit_coordinator.py:123-194 | in every run no job's count exceeds the largest maximum it asked for (or what it started with) |
| `Coordinator.NeverAboveLimit` | implementation/submit_coordinator.py:151-165 | in every run in which each answer confirms the limit, which is recorded already or due to be asked for, the queue exceeds it, or its size at the start, at most by the other work that arrives |
| `Coordinator.LimitRespected` | implementation/submit_coordinator.py:155-165 | after a limit rejection every sbatch within 300 seconds, by any job after any steps, is issued below the observed ceiling recorded then, which is at most the queue size at the rejection |
| `Coordinator.ObservedNeverRises` | implementation/submit_coordinator.py:186-189 | over any run the recorded observation stays positive and never rises, even after it has expired |
| `Coordinator.RejectionRecordsTotal` | implementation/submit_coordinator.py:182-189 | the size at a rejection is recorded if and only if no smaller positive value was recorded before |
| `Coordinator.ExpiredCeilingReturns` | implementation/submit_coordinator.py:186-188 | an expired ceiling of 10 is in force again after a rejection at 100 |
| `SnapshotCache.Cache.Begin` | web-app/slurmy_web/snapshot_cache.py:55-71 | the first critical section of `get`: serve, refuse, join the pending load or start one |
| `SnapshotCache.Cache.Publish` | web-app/slurmy_web/snapshot_cache.py:77-78 | a finished load replaces the entry, clearing error and retry time |
| `SnapshotCache.Cache.Fail` | web-app/slurmy_web/snapshot_cache.py:79-82 | a failed load keeps the value and sets error and retry time |
| `SnapshotCache.Cache.Settle` | web-app/slurmy_web/snapshot_cache.py:83-91 | the load leaves `pending`, and the oldest idle other entries are evicted while over the limit |
| `SnapshotCache.Cache.Invalidate` | web-app/slurmy_web/snapshot_cache.py:48-53 | every entry is outdated and may be retried, its value is kept |
| `SnapshotCache.Cache.LookBeat` | web-app/slurmy_web/snapshot_cache.py:13-21 | a heartbeat is skipped if some page of the host was loaded within the window without error; otherwise the host's lock is found or made |
| `SnapshotCache.Cache.GetStatus` | web-app/slurmy_web/snapshot_cache.py:33-46 | the status computed from entry, pending set and clocks |
| `SnapshotCache.Cache.End` | web-app/slurmy_web/snapshot_cache.py:93-103 | the end of `get`: the saved value without a wait, a wait that timed out, or what the finished refresh left |
| `CacheProtocol.EvictBounds` | web-app/slurmy_web/snapshot_cache.py:86-90 | eviction removes only idle entries and ends within the limit plus the pending loads |
| `CacheProtocol.OldestEvicted` | web-app/slurmy_web/snapshot_cache.py:86-90 | an evicted key was entered before every idle key that stays, and no more keys go than must |
| `CacheProtocol.ActionKeeps` | web-app/slurmy_web/snapshot_cache.py:13-103 | every atomic step of every thread keeps single flight, one call per host, honest entries and the size bound |
| `CacheGuarantees.Reachable` | web-app/slurmy_web/snapshot_cache.py:13-103 | every interleaving of any number of threads reaches only states with those invariants |
| `CacheGuarantees.OneLoaderPerKey` | web-app/slurmy_web/snapshot_cache.py:67-71 | at most one live loader per key |
| `CacheGuarantees.OneCallPerHost` | web-app/slurmy_web/snapshot_cache.py:21-27 | at most one loader or heartbeat call runs per host |
| `CacheGuarantees.SizeBounded` | web-app/slurmy_web/snapshot_cache.py:85-90 | for a limit of at least 1, entries number at most the limit plus the loads in flight |
| `CacheGuarantees.GetAnswers` | web-app/slurmy_web/snapshot_cache.py:55-71 | the start of `get` serves only the value published last, refuses only with an error to report, and starts a load exactly when none is pending |
| `CacheGuarantees.GetRefreshes` | web-app/slurmy_web/snapshot_cache.py:55-71 | past the retry time the saved value is served if and only if no reload is forced and it is younger than the lifetime asked for; otherwise a refresh runs, with a new thread if and only if none is pending; the lifetime is recorded |
| `CacheGuarantees.GetBacksOff` | web-app/slurmy_web/snapshot_cache.py:55-71 | before the retry time nothing is loaded; what is saved is served or the error repeated |
| `CacheGuarantees.BeatSkippedExactly` | web-app/slurmy_web/snapshot_cache.py:13-21 | a heartbeat is skipped if and only if a page of its own host was published in the window and its last load left no message |
| `CacheGuarantees.StatusTells` | web-app/slurmy_web/snapshot_cache.py:33-46 | refreshing means that some thread loads the key; updated, age and error are those of the value and entry |
| `CacheGuarantees.GetEnds` | web-app/slurmy_web/snapshot_cache.py:93-103 | any number of steps after the call began, without a forced wait it answers the value saved at the call; woken it answers what was published last, or the error; timed out with nothing saved it says that the refresh runs |
| `CacheProgress.ReachableIsLive` | web-app/slurmy_web/snapshot_cache.py:13-27 | in every reachable state each held host lock has a live holder, hosts have separate locks, and a load about to end has left a value or an error |
| `CacheProgress.NoDeadlock` | web-app/slurmy_web/snapshot_cache.py:67-91 | while a refresh is pending its own thread can go on, or a running call to the same host can end |
| `CacheProgress.WokenGetsAnswer` | web-app/slurmy_web/snapshot_cache.py:84-103 | whoever is woken and looks at once gets the latest value or an error text |
| `CacheGuarantees.ValueReplacedByPublish` | web-app/slurmy_web/snapshot_cache.py:77-82 | no step but a publication for that key changes a saved value |
| `CacheGuarantees.EvictedOnlyWhenIdle` | web-app/slurmy_web/snapshot_cache.py:85-90 | an entry disappears only at the end of a load, over the limit and not while loading |
| `CacheGuarantees.FreshExactly` | web-app/slurmy_web/snapshot_cache.py:33-46 | in every reachable state a value is reported fresh if and only if it is the latest one, young, with no refresh in flight, and the last load did not fail with a message |
| `CacheGuarantees.FreshWithoutAsking` | web-app/slurmy_web/snapshot_cache.py:33-46 | the same when no value is named |
| `CacheGuarantees.StaleAfterInvalidate` | web-app/slurmy_web/snapshot_cache.py:48-53 | after `invalidate` every status of a key is stale until the next publication for it, whatever happens meanwhile |
| `CacheGuarantees.NoLoadWhileBackingOff` | web-app/slurmy_web/snapshot_cache.py:63-66 | during the backoff after a failure no caller starts a load, not even with `force`, as long as nobody invalidates the cache and the entry is not evicted |
| `CacheGuarantees.EmptyFailureLooksFresh` | web-app/slurmy_web/snapshot_cache.py:41-44 | for every value, with or without a fetch time, a run after which the last load failed and yet the status is fresh without error |
| `RecoveryWatch.Recovery.Observe` | web-app/slurmy_web/recovery_watch.py:60-92 | the loop over observed jobs performs one step per job and returns exactly the jobs selected |
| `RecoveryWatch.Recovery.ObserveJob` | web-app/slurmy_web/recovery_watch.py:65-91 | one observation in all its branches |
| `RecoveryWatch.Recovery.IdleCandidates` | web-app/slurmy_web/recovery_watch.py:25-48 | the loop over heartbeat rows performs one step per row and returns exactly the rows due |
| `RecoveryWatch.Recovery.BeatRow` | web-app/slurmy_web/recovery_watch.py:31-47 | one heartbeat row in all its branches |
| `RecoveryWatch.Recovery.Stop` | web-app/slurmy_web/recovery_watch.py:50-53 | blocks the job and forgets its entry |
| `RecoveryWatch.Recovery.Resume` | web-app/slurmy_web/recovery_watch.py:55-58 | unblocks the job with a new entry |
| `RecoveryWatch.PotentialFalls` | web-app/slurmy_web/recovery_watch.py:76-91 | no step within a lifetime raises the potential, and every retry lowers it by at least one |
| `RecoveryWatch.RetriesBounded` | web-app/slurmy_web/recovery_watch.py:81-91 | the retries of one lifetime number at most max_attempts times the missing pairs |
| `RecoveryWatch.RetriesPaid` | web-app/slurmy_web/recovery_watch.py:81-91 | retries so far plus the remaining potential never exceed the initial potential |
| `RecoveryWatch.BoundAttained` | web-app/slurmy_web/recovery_watch.py:81-91 | that bound is exact: a run within one lifetime reaches it |
| `RecoveryWatch.NoProgressStops` | web-app/slurmy_web/recovery_watch.py:88-91 | without progress, retries are the attempts used and stop at max_attempts |
| `RecoveryWatch.RetriesPerLifetime` | web-app/slurmy_web/recovery_watch.py:76-91 | on every trace that shows no new completed task, the retries are at most `maxAttempts` times the entries that begin |
| `RecoveryWatch.AttemptsRenewed` | web-app/slurmy_web/recovery_watch.py:25-92 | for all settings and every n, some trace in time order that shows nothing but the same unchanged job has n retries |
| `RecoveryWatch.RetriesSpaced` | web-app/slurmy_web/recovery_watch.py:88-90 | within a lifetime two retries are at least retry_seconds apart even when progress resets the attempts |
| `RecoveryWatch.RetriesSpacedAlways` | web-app/slurmy_web/recovery_watch.py:86-90 | whatever happens, two retries of a job are at least idle_seconds apart |
| `RecoveryWatch.EarliestExact` | web-app/slurmy_web/recovery_watch.py:60-92 | from a given time on, without drop or resume, an unblocked job can be retried at exactly the times from its earliest time |
| `RecoveryWatch.SpacingExactly` | web-app/slurmy_web/recovery_watch.py:86-90 | after a retry and any events, the next retry can come too early if and only if the job is not blocked and its earliest time is too early |
| `RecoveryWatch.LifetimeKeepsSpacing` | web-app/slurmy_web/recovery_watch.py:88-90 | within a lifetime the earliest time is never too early |
| `RecoveryWatch.DropsAndResumesRenew` | web-app/slurmy_web/recovery_watch.py:38-40 | a heartbeat that does not find the job, and a resume, both end the lifetime in that sense |
| `RecoveryWatch.EighteenSecondsApart` | web-app/slurmy_web/recovery_watch.py:25-92 | a run from the start with two retries 18 seconds apart |
| `RecoveryWatch.SpacingLostAcrossLifetimes` | web-app/slurmy_web/recovery_watch.py:38-40 | under any settings and in any state, once an entry was dropped or renewed by a resume, a retry at time u + idle_seconds is possible, and the spacing can be broken if and only if that is less than retry_seconds after the last retry |
| `RecoveryWatch.RetryHasEvidence` | web-app/slurmy_web/recovery_watch.py:25-92 | in every run a retry follows at least idle_seconds in which every processed event of the job showed no worker, an inactive controller, an incomplete unfinished job, an available queue and no operation |
| `RecoveryWatch.RetryExactly` | web-app/slurmy_web/recovery_watch.py:63-92 | an observation retries a job if and only if it shows all this, the job is watched or being submitted, and idle time, retry time and attempts allow it |
| `RecoveryWatch.EntryExactly` | web-app/slurmy_web/recovery_watch.py:69-91 | an entry is left if and only if the unfinished job was watched or has workers, a controller or a submission; with its progress, attempts, retry and idle time |
| `RecoveryWatch.BeatExactly` | web-app/slurmy_web/recovery_watch.py:25-48 | a heartbeat drops an entry if and only if the queue is known, nothing is busy and the job is stopped or gone, and resets the idle time unless the row is quiet |
| `RecoveryWatch.RetryWasWitnessed` | web-app/slurmy_web/recovery_watch.py:75-80 | every retried job was seen working or resumed before, and not stopped since |
| `RecoveryWatch.StoppedNotRetried` | web-app/slurmy_web/recovery_watch.py:50-58 | between a stop and the next resume there is no retry |
| `RecoveryWatch.HeartbeatIsReadOnly` | web-app/slurmy_web/recovery_watch.py:26-48 | heartbeats change nothing but the idle time and never create an entry |
| `RecoveryWatch.CandidateIffRetry` | web-app/slurmy_web/recovery_watch.py:46-47 | a heartbeat names a quiet job exactly when a full observation at that time would retry it |
| `Operations.Registry.Request` | web-app/slurmy_web/app.py:1217-1247 | a request is refused, joined or admitted exactly by the rules for its label and what runs in its scope |
| `Operations.Registry.Shutdown` | web-app/slurmy_web/app.py:1422-1430 | a shutdown is accepted exactly when nothing runs |
| `Operations.RunKeeps` | web-app/slurmy_web/app.py:1217-1281 | every run of requests, waits, starts and ends keeps mutual exclusion per scope |
| `Operations.OneOfEachKind` | web-app/slurmy_web/app.py:1221-1240 | at most one stop, one deletion and one other operation run in a scope, and a stop overlaps only downloads, a resume or a deletion waiting for it |
| `Operations.AnsweredExactly` | web-app/slurmy_web/app.py:1219-1242 | a second deletion or stop joins the first; no other deletion is refused; a stop is refused if and only if something other than a download or a resume runs in the scope, anything else if and only if anything runs |
| `Operations.DeletionWaitsForAll` | web-app/slurmy_web/app.py:1224-1228 | an admitted deletion waits for exactly the operations that run in its scope |
| `Operations.StopBesideDeletion` | web-app/slurmy_web/app.py:1221-1240 | a reachable state in which a stop and a deletion that waits for it both run |
| `Operations.DeletionRunsAlone` | web-app/slurmy_web/app.py:1254-1263 | when the subprocess of a deletion starts and while it runs, nothing else runs in its scope |
| `Operations.DeletionWaitsForTwo` | web-app/slurmy_web/app.py:1223-1228 | a deletion waits for at most two operations |
| `Operations.NoThreeTogether` | web-app/slurmy_web/app.py:1231-1240 | apart from deletions no three operations run in one scope |
| `Operations.ShutdownIsFinal` | web-app/slurmy_web/app.py:1427-1430 | once shutting down, nothing runs and nothing is admitted |
| `Operations.EndIsFinal` | web-app/slurmy_web/app.py:1264-1276 | an operation that has ended never runs again |
| `PairOrder.OrderPairs` | implementation/slurmy.py:39-54 | each order name gives its ordering, the random one from the drawn positions, and every other name is an error |
| `PairOrder.RankSettings` | implementation/slurmy.py:47-50 | the dictionary filled with `setdefault` ranks configurations by their first pair |
| `PairOrder.Shuffle` | implementation/slurmy.py:53 | the shuffle exchanges rows from the back with drawn positions |
| `PairOrder.OrderKeepsPairs` | implementation/slurmy.py:40 | each of the three orderings is a permutation |
| `PairOrder.AnyOrderDrawn` | implementation/slurmy.py:53 | every arrangement of the pairs is the result of some draws |
| `PairOrder.ConfigurationsContiguous` | implementation/slurmy.py:46-51 | in solver-major order the pairs of a configuration are contiguous |
| `PairOrder.ConfigurationsStable` | implementation/slurmy.py:51 | within a configuration pairs keep their order |
| `PairOrder.ConfigurationsByFirstPair` | implementation/slurmy.py:47-51 | configurations stand in the order of their first pairs |
| `PairOrder.ProblemsSortedStable` | implementation/slurmy.py:44-45 | problem-major order is sorted by problem and stable for each problem |
| `PairOrder.ProblemsAlphabetical` | implementation/slurmy.py:44-45 | no pair stands before one whose problem is smaller by the first differing character |
| `PairOrder.OrderIdempotent` | implementation/slurmy.py:39-54 | both orderings are idempotent |
| `Planner.Plan` | implementation/slurmy.py:308-331 | the packing loop returns a plan for the allocation keys, and each batch holds exactly the pairs numbered with it, in order |
| `Planner.NextKey` | implementation/slurmy.py:319-324 | the group counter changes exactly with the configuration under solver-major order |
| `Planner.File` | implementation/slurmy.py:325-330 | a pair joins the last batch of its key while it has room and opens the next number otherwise |
| `Packing.PlanUnique` | implementation/slurmy.py:308-331 | the requirements on a plan determine it |
| `Packing.PlanOptimal` | implementation/slurmy.py:309-311 | no numbering that keeps keys apart within the limit uses fewer batches |
| `PlannerProperties.FewestBatches` | implementation/slurmy.py:309-331 | the same for the batches produced |
| `PlannerProperties.FewestAdmissible` | implementation/slurmy.py:308-331 | pairs in one batch agree in cores, threads, CPUs and both exclusive flags and, in solver-major order, have no other configuration between them; and no assignment with these properties within the limit has fewer batches |
| `PlannerProperties.BatchesWithinLimit` | implementation/slurmy.py:326-330 | every batch is non-empty and within the limit |
| `PlannerProperties.EveryTaskInOneBatch` | implementation/slurmy.py:318-331 | the batches together hold every pair exactly once |
| `PlannerProperties.OneConfigurationEach` | implementation/slurmy.py:320-324 | a solver-major batch does not span a configuration change |
| `PlannerProperties.BatchesInTaskOrder` | implementation/slurmy.py:316-331 | under solver-major order batch numbers never go back |
| `PlannerProperties.SolverMajorKeepsOrder` | implementation/slurmy.py:316-331 | solver-major batches laid end to end are the list of pairs |
| `PlannerProperties.KeysAreConfigurations` | implementation/slurmy.py:316-324 | a table with contiguous configurations is planned with one key per configuration |
| `PlannerProperties.SuggestedSizeBound` | web-app/slurmy_web/batch_suggestion.py:64-66 | with the suggested size a plan over k keys has at most 2P + k - 1 batches |
| `PlannerProperties.SmallerSizeExceeds` | web-app/slurmy_web/batch_suggestion.py:64-66 | with any smaller size every distribution of the pairs needs more than 2P batches |
| `BatchSize.Suggest` | web-app/slurmy_web/batch_suggestion.py:33-68 | the estimate, or the first complaint in the program's order; the size is the least one for which two batches per slot suffice |
| `BatchSize.SlotsAreMost` | web-app/slurmy_web/batch_suggestion.py:49-57 | the slots counted for a node are the largest number of pairs that fit on it at once |
| `BatchSize.SlotsOverMost` | web-app/slurmy_web/batch_suggestion.py:46-57 | the slots counted over all nodes are the largest number of pairs that can be spread over them at once |
| `BatchSize.InterpretExactly` | web-app/slurmy_web/batch_suggestion.py:38-45 | which cores, threads and flags are accepted and as what; numbers exactly as they are printed, an empty number of threads as one |
| `BatchSize.SuggestedLeast` | web-app/slurmy_web/batch_suggestion.py:66 | the rounded quotient is that least size |
| `TaskPage.FastEqualsSlow` | web-app/slurmy_web/app.py:342-375 | without a search, for every sort column and direction, the fast page is the slice of the sorted full rows |
| `TaskPage.RowOrderPreorder` | web-app/slurmy_web/app.py:337-338 | comparing by folded value and number is a total preorder |
| `TaskPage.SlowRowsSorted` | web-app/slurmy_web/app.py:334-339 | the full rows that have a value are sorted by folded value and number, up or down, the others follow in their order |
| `TaskPage.RowsRanked` | web-app/slurmy_web/app.py:330-338 | for each of the ten columns and both directions, any two rows with a value stand in the order of the folded text or the number shown, ties by pair number, and a missing value comes last |
| `TaskPage.RefusedExactly` | web-app/slurmy_web/app.py:343-344 | exactly the unknown columns and directions are refused |
| `TaskPage.RowTells` | web-app/slurmy_web/app.py:286-320 | what a finished and a running pair show, the memory in bytes |
| `TaskPage.ProgressExactly` | web-app/slurmy_web/app.py:287-320 | an unfinished pair shows its own record, or the one of the batch its number lies in, if that names it |
| `TaskPage.SortedRowsDetermined` | web-app/slurmy_web/app.py:337-339 | when no number has two rows, every sorted arrangement is this one |
| `TaskPage.PageIsTheSort` | web-app/slurmy_web/app.py:342-375 | the shown page is the one cut from any correctly sorted arrangement of the full rows |
| `TaskPage.ParsedPagesAgree` | web-app/slurmy_web/app.py:342-375 | so it is for every column on every parsed snapshot |
| `TaskPage.KeyIsColumn` | web-app/slurmy_web/app.py:360-369 | the fast key equals the column of the full row if and only if no misfiled record is involved |
| `TaskPage.PagesShowEverythingOnce` | web-app/slurmy_web/app.py:350-356 | enough pages together show every row exactly once |
| `TaskPage.SearchShowsMatches` | web-app/slurmy_web/app.py:353-358 | the pages of a search together show exactly the rows it finds |
| `TaskPage.AbsentLast` | web-app/slurmy_web/app.py:334-339 | rows without a value come last in both directions |
| `TaskPage.ParseCalls` | web-app/slurmy_web/monitor.py:1139-1147 | malformed lines are skipped, and the record of a pair is that of the last line that names it |
| `TaskPage.CallLineRead` | implementation/templates/call.sh:31-35 | a line that a call publishes is read back as its pair, state and start |
| `TaskPage.MisfiledRecordMoves` | web-app/slurmy_web/app.py:366-369 | with a misfiled record the two sort orders differ |
| `Results.Parsed` | web-app/slurmy_web/monitor.py:883-902 | rows that are too short or do not start with a number are skipped, the others are collected per pair |
| `Results.LastRowWins` | web-app/slurmy_web/monitor.py:885-902 | the record of a pair is that of its last readable row |
| `Results.PublishedRead` | implementation/templates/call.sh:116 | a published row is read back with pair, completeness, status, exit code, wall time and SZS answer |
| `Results.ReadExactly` | web-app/slurmy_web/monitor.py:883-902 | exactly the rows of at least fifteen fields that start with a number are read |
| `Results.NormalizeExactly` | web-app/slurmy_web/monitor.py:937-948 | only the status of a solver error changes; to what, for every SZS answer in any letter case and every exit code |
| `Results.NormalizeIdempotent` | web-app/slurmy_web/monitor.py:937-948 | normalising a record twice changes nothing more |
| `Results.Job.Summarize` | web-app/slurmy_web/monitor.py:951-964 | all records are normalised in place, and completed count, wall sum and maximum and both status tables are those of the results |
| `Results.SummaryDetermined` | web-app/slurmy_web/monitor.py:951-964 | equal results have equal summaries in every field |
| `Results.SummedByResult` | web-app/slurmy_web/monitor.py:951-956 | a completed result adds its wall time, a missing one counts as zero, also for the maximum |
| `Incremental.ParseReplace` | implementation/templates/call.sh:124-134 | publishing a result changes what is read from the batch index at that pair only |
| `Incremental.ReadEntry` | web-app/slurmy_web/monitor.py:292-303 | whatever order index files are read in, the entry of a pair is that of its own batch's file |
| `Incremental.RefreshExact` | web-app/slurmy_web/app.py:488-502 | every full or incremental refresh leaves exactly what the files say |
| `Incremental.IncrementalEqualsFull` | web-app/slurmy_web/app.py:488-502 | after any run ending in a refresh the merged results equal those of reading every file |
| `Incremental.SummariesEqualFull` | web-app/slurmy_web/app.py:498-502 | so do completed count, status tables and wall totals |
| `Incremental.MinuteSuffices` | web-app/slurmy_web/app.py:490 | less than 60 seconds of lag and delay are always safe |
| `Incremental.MinuteNeeded` | web-app/slurmy_web/app.py:490 | in whole seconds, safe if and only if less than 60 |
| `Incremental.UnsafeLosesResult` | web-app/slurmy_web/app.py:490-501 | beyond the margin a result published right after the reading stays invisible to the next refresh |
| `QuantifierRewrite.TextBuffer.ScopeQuantifiers` | workflows/example-solvers/drodi/Drodi.c:2774-2874 | on balanced text the loop succeeds if and only if all quoted blocks are closed, and then the buffer holds the rewritten text |
| `QuantifierRewrite.TextBuffer.Insert` | workflows/example-solvers/drodi/Drodi.c:2798-2807 | one token is inserted, everything behind it moves up, a full buffer grows first |
| `QuantifierRewrite.TextBuffer.FindScope` | workflows/example-solvers/drodi/Drodi.c:2811-2851 | the inner loop finds the first place where the scope ends, or an unclosed quoted block |
| `QuantifierRewrite.TextBuffer.OpenScope` | workflows/example-solvers/drodi/Drodi.c:2797-2866 | both parentheses of one quantifier are inserted |
| `QuantifierRewrite.MoveUp` | workflows/example-solvers/drodi/Drodi.c:2805 | the overlapping move of a range of an array by one place |
| `QuantifierRewrite.PairIsNextStage` | workflows/example-solvers/drodi/Drodi.c:2809-2866 | scanning the text grown so far puts the pair where the scan of the original text says |
| `QuantifierProperties.CloseIsFirstStop` | workflows/example-solvers/drodi/Drodi.c:2811-2851 | the parenthesis is closed before the first `<`, `|`, `&`, `)`, `=>`, `~&`, `~|` or end of the text at which as many parentheses were closed as opened since the quantifier |
| `QuantifierProperties.BalancedExactly` | workflows/example-solvers/drodi/Drodi.c:2833-2849 | the balance assumed and kept is that no prefix closes more than it opens and the whole closes as much as it opens |
| `QuantifierProperties.NothingLost` | workflows/example-solvers/drodi/Drodi.c:2774-2874 | deleting the inserted tokens gives back the input, and only parentheses are inserted |
| `QuantifierProperties.OnePairEach` | workflows/example-solvers/drodi/Drodi.c:2795-2869 | each opened scope adds exactly one pair |
| `QuantifierProperties.ResultBalanced` | workflows/example-solvers/drodi/Drodi.c:2774-2874 | balanced input gives balanced output |
| `QuantifierProperties.ScopeInResult` | workflows/example-solvers/drodi/Drodi.c:2797-2866 | in the result the pair of a quantifier encloses exactly its scope, itself balanced |
| `QuantifierScope.ScopesNest` | workflows/example-solvers/drodi/Drodi.c:2811-2851 | inserted pairs nest properly |
| `QuantifierScope.NegatedConnectiveWhole` | workflows/example-solvers/drodi/Drodi.c:2823-2827 | no pair closes between the two characters of a negated connective |
| `QuantifierProperties.OpensExactly` | workflows/example-solvers/drodi/Drodi.c:2795 | exactly the quantifiers are scoped if and only if no inequality sign is split |
| `QuantifierProperties.OpensSpelledOut` | workflows/example-solvers/drodi/Drodi.c:2795 | without `!=>` in the text a scope is opened at every `?` and at every `!` that no `=` follows, and nowhere else |
| `QuantifierProperties.InequalityTakenForQuantifier` | workflows/example-solvers/drodi/Drodi.c:2795 | on `?!=>` an inequality sign is scoped |
| `StreamNames.NameGivesTask` | implementation/remote_export.py:41-46 | the number read from a printed log name is the pair's, for every solver, problem and directory name |
| `StreamNames.NamePrinted` | implementation/remote_export.py:41-46 | the name printed for every solver, problem, number and stream, and when there is none |
| `StreamNames.PairIdExactly` | implementation/starexec_export.py:28 | a name has a number if and only if it ends in three underscores, digits, perhaps `.stderr`, and `.log`, and then that one |
| `StreamNames.SearchFinds` | implementation/starexec_export.py:28 | a name that ends in a match of the pattern has no earlier one |
| `StarExec.FileAll` | implementation/remote_export.py:96-130 | the loop over pairs files all logs in order, or stops exactly when a pair with logs has an unusable name |
| `StarExec.FileMember` | implementation/remote_export.py:112-129 | a member goes to the archive of its kind and no other |
| `StarExec.KindExactly` | implementation/remote_export.py:112-129 | a member is an output log if it is a file whose name ends in `.solver.log`, an error log if in `.solver-stderr.log` |
| `StarExec.StreamsOfFiled` | implementation/starexec_export.py:85-90 | reading the archives back gives every log under its own pair |
| `StarExec.ArchivesHold` | implementation/remote_export.py:96-130 | the first archive gives back under each number exactly the output logs of that task, the second its error logs |
| `LogMerge.Merge` | implementation/starexec_export.py:128-147 | advancing both iterators through sorted rows writes for every row the first log of each kind |
| `LogMerge.PartsExactly` | implementation/starexec_export.py:130-146 | for a pair the first output log is written, and behind it the first error log, each if there is one |
| `LogMerge.Export` | implementation/starexec_export.py:106-108 | repeated pairs in the summary are an error; otherwise rows are sorted and merged |
| `LogMerge.EachLogOnce` | implementation/starexec_export.py:130-146 | a file holds exactly the logs of its pair, stdout before stderr, if and only if there is at most one of each kind |
| `LogMerge.PipelineConservesLogs` | implementation/starexec_export.py:85-147 | filed, read back and merged, every log is in the file of its pair and nothing else is |
| `LogMerge.FilesIncreasing` | implementation/starexec_export.py:130-138 | files are written once per pair, in order |
| `LogMerge.SecondLogLost` | implementation/starexec_export.py:132-133 | a second log of the same kind is skipped |
| `OutputCopy.CopyOutput` | implementation/starexec_export.py:93-98 | stamped lines are kept, others get the prefix, a missing newline is added |
| `OutputCopy.StampedExactly` | implementation/starexec_export.py:29 | a line is stamped if and only if it begins with two plain decimals, a slash between and a tab behind them |
| `OutputCopy.LineKept` | implementation/starexec_export.py:96-98 | the copy is the line, behind the prefix unless stamped, and before a newline if it had none |
| `OutputCopy.CopyStamped` | implementation/starexec_export.py:93-98 | the copy of a line is stamped if and only if the line was or both totals are plain decimals |
| `OutputCopy.CopiedOnceExactly` | implementation/starexec_export.py:93-98 | the output splits into the copied lines again, and copying it once more, with any prefix, changes nothing if and only if both totals are plain decimals or every line was stamped from the start |
| `OutputCopy.CopyIdempotent` | implementation/starexec_export.py:93-98 | the same for any prefix whatsoever: a second copy changes nothing if and only if every copied line is stamped |
| `OutputCopy.PrefixStamped` | implementation/starexec_export.py:60-65 | a text behind the printed prefix begins with a stamp if and only if both totals are plain decimals |
| `OutputCopy.PlainTotalsCopyOnce` | implementation/starexec_export.py:93-98 | with plain decimals copying the copy with any prefix changes nothing |
| `OutputCopy.PrefixedTwice` | implementation/starexec_export.py:60-65 | with a total printed as 1E-7 or -0.0 any line without a stamp is prefixed twice |
| `JobNames.UnusedName` | implementation/job_names.py:4-16 | the result is unused, has the least free number, at most one more than there are names, and fits 100 characters |
| `JobNames.BaseExactly` | implementation/job_names.py:5 | the base is the first hundred characters of the name without outer white space |
| `JobNames.CandidateExactly` | implementation/job_names.py:11-13 | a numbered name is as much of the base as fits a hundred characters with the number in parentheses behind it |
| `JobNames.CandidatesDiffer` | implementation/job_names.py:12-13 | differently numbered candidates differ even when the base is cut |
| `JobNames.FailuresBounded` | implementation/job_names.py:11-16 | n failed candidates need n existing names |

## Left out

- Files, locks, subprocesses, SSH, archives and JSON: only their outcomes are modelled. The texts the coordinator prints, and the kind of each error, are reduced to the reply.
- `Coordinator.SubmitCoordinator.Attempt`: clock times are integers; the format of job identifiers in lease files is taken as checked.
- `CacheGuarantees.GetEnds`: how long a caller waits is not modelled, only whether it was woken in time; nor is `peek`.
- `Operations.DeletionRunsAlone`: that a deletion gives up after 300 seconds is a possible end of waiting, without the time.
- `QuantifierRewrite.TextBuffer.ScopeQuantifiers`: quoted blocks are single tokens (JumpOverQuotes is not part of this model), two of them do not touch, brackets are balanced, and reallocation succeeds.
- `PairOrder.OrderPairs`: the positions drawn by the seeded generator are a parameter.
- `BatchSize.Suggest`: flags are given as already read; reading the node list is not modelled.
- `Planner.Plan`: reading and rendering commands, and the rejection of a batch size that is not positive, are left to the caller.
- `TaskPage.FastEqualsSlow`: the reading of decimal times, the diagnosis of an unfinished pair, the node column, case folding and the clock are parameters, the same for both pages; measurements are real numbers; filtering by outcome only chooses the list of pairs.
- `Incremental.IncrementalEqualsFull`: a refresh reads all files at one moment; metadata, logs and progress are not merged; the memory-limit override for old jobs is not modelled. Sums are exact, without rounding.
- `Results.Parsed`: reading a decimal number is a parameter; columns that no summary uses are dropped. Letter case and digits are ASCII.
- `JobNames.UnusedName`: the white space stripped is ASCII.
- The awk summary of the collector, which treats letter case and return codes differently from the Python summary.
- The StarExec summary row and benchmark paths: text formatting with no property across functions.
- Workflow editing, import and export of workflows, migration, routing, sessions, charts and time estimates.
- The rest of Drodi and the other bundled solvers.
