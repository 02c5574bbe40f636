# Qodalis CLI server: verified models

Models of the stateful parts of the Qodalis CLI server, with proofs of what they
promise. `dafny verify dfyconfig.toml` checks everything.

**Background jobs.** A job is a registration with a list of runs holding slots, one
coalescing waiting flag, an overlap policy, a timer that re-arms itself, and options
that change while runs are live. `JobState` says what each synchronous section of the
scheduler does to that state; any interleaving of sections is a run of the machine.
`JobSafety` proves what every step keeps, `JobRuns` what holds over whole runs, and
`JobRhythm` when the timer fires over whole runs of cron and interval jobs.
`JobSections` says what each section leaves, option by option and run by run, and that an
active job never loses its timer.
`JobRegistration` performs the sections in place, on run and timer objects, and every
method is proved to do what the machine says; `JobEventLoop` carries out any event by
the section it stands for. `JobRetries` is the coroutine of one run with its retry loop,
interleaved at each await with other events of its job. `JobStore` is the in-memory
history with its two indexes, and `JobHistory` pages through it to delete while other
coroutines go on saving.
`JobStats` computes the charts.

**Files.** `FileTree` gives the JSON file provider's tree as a value and reads it as a
map from paths to entries; `FileLaws` says what each operation does to that map and
when it fails; `FileDoc` is the JSON document. `JsonFiles` has the mutable nodes with
their children lists: resolving, creating parents, deep copies and all five operations
in place, proved to do what `FileTree` says, to change nothing when they fail with an
error of the provider's own, and to keep the saved document equal to the tree.

**Shell words.** `ShellWords` has the quote and escape scanner with its nested loops,
the quoter and the command line builder, and the round trips between them.
`ShellGrammar` says what a text means without a scanner.

**Shell processes.** `ProcessTree` walks the process list and picks what closing a
shell signals.

**Event sockets.** `EventSockets` has the bounded queue and the sender of each socket;
runs are interleavings of the steps of all sockets, and the manager keeps them in its
dictionaries.

**Audit log.** `AuditLog` sets the two bounded rings against a log that never forgets.

Where the code does less than its comments promise, the exact condition is proved, and a
concrete case shows the failure:

- A move onto a path that is a prefix of the other may lose what it moves:
  `FileLaws.MoveKeepsExactly`, with `FileLaws.MoveBelowItselfLoses` and
  `FileLaws.MoveOntoParentLoses`.
- An id saved again under another job leaves its old record behind:
  `JobStore.SaveAgreesExactly`, with `JobStore.SaveUnderAnotherJobDisagrees`.
- An option update, a resume or a start after an early firing fires a cron occurrence
  again: `JobRhythm.CronKeepsRhythm`, `JobRhythm.CronAscendsExactly` and
  `JobRhythm.RescheduleRepeatsExactly`, with `JobRhythm.ResumeRepeatsAnOccurrence`.
- An interval job that is rescheduled while a run's first attempt is under way may be due
  again at once: `JobRhythm.IntervalsKeptExactly` and
  `JobRhythm.RescheduleKeepsIntervalExactly`, with `JobRhythm.ResumeShortensAnInterval`.
- A start during a stop leaves two timers: `JobRhythm.StartLeavesOneTimer`, with
  `JobRhythm.StartDuringStopLeavesTwoTimers`.
- A cancel that comes while a retry without delay is announced does not stop it:
  `JobRetries.RetryBeginsCancelledExactly`, with `JobRetries.ZeroDelayRetryBeginsCancelled`.
- An update that gives an unscheduled job a schedule and is refused for a later value leaves
  it active with a schedule and no timer: `JobSections.StepKeepsTimed`, with
  `JobSections.RefusedUpdateStrands`.
- Deleting a job's finished runs leaves one when a discarded run goes between two pages:
  `JobHistory.DeletionMissesExactly`, with `JobHistory.DiscardMissesARun`.

## Model

| member | source | states |
|---|---|---|
| JobSafety.StepKeepsSlots | plugins/jobs/qodalis_cli_jobs/cli_job_scheduler.py:593-645 | In every section a run takes a slot only below the limit in force; a waiting run implies that all slots are taken, of a limit of at least 1, for all policies and across option updates |
| JobSafety.StepKeepsTimers | plugins/jobs/qodalis_cli_jobs/cli_job_scheduler.py:524-587 | No section leaves a job two timers that can still fire, or one while it is not active, updates that fail midway included |
| JobSafety.AlwaysSafe | plugins/jobs/qodalis_cli_jobs/cli_job_scheduler.py:58-90 | Both invariants hold in every state that any interleaving reaches from one where they hold |
| JobSafety.SafeFromRegistration | plugins/jobs/qodalis_cli_jobs/cli_job_scheduler.py:188-227 | So they hold in every state that any interleaving reaches from registration |
| JobRuns.NeverAboveTheLimit | plugins/jobs/qodalis_cli_jobs/cli_job_scheduler.py:593-639 | With a limit that is never lowered, live runs never exceed it |
| JobRuns.AboveTheLimitDrains | plugins/jobs/qodalis_cli_jobs/cli_job_scheduler.py:400-401 | After a lowering the live count only shrinks, and no run starts, until it is below the new limit |
| JobRuns.NoOvertaking | plugins/jobs/qodalis_cli_jobs/cli_job_scheduler.py:593-619 | While a run waits, no due or triggered run starts or changes anything, and some run holds a slot |
| JobRuns.WaitsForReleases | plugins/jobs/qodalis_cli_jobs/cli_job_scheduler.py:631-639 | With k live runs and limit L, without cancel or limit change, the waiting run still waits after k - L releases, whatever else is due in between |
| JobRuns.StartsAtTheRelease | plugins/jobs/qodalis_cli_jobs/cli_job_scheduler.py:631-639 | It starts at exactly the (k - L + 1)-th release, launched at once, as the next run |
| JobRuns.WaitingEnds | plugins/jobs/qodalis_cli_jobs/cli_job_scheduler.py:636-645 | A waiting run is never lost: it stops waiting only by starting or by a stop or cancel |
| JobRuns.EndsExactlyOnce | plugins/jobs/qodalis_cli_jobs/cli_job_scheduler.py:631-634 | A run leaves the slot list at most once and then for good; it left if and only if its end occurred |
| JobRuns.StartedIsLivePlusEnded | plugins/jobs/qodalis_cli_jobs/cli_job_scheduler.py:621-639 | Runs started equal runs live plus runs ended, over every interleaving |
| JobRuns.CancelReachesEveryRun | plugins/jobs/qodalis_cli_jobs/cli_job_scheduler.py:641-645 | A cancel, job stop or scheduler stop sets the cancellation of every run started so far, and nothing unsets it |
| JobSections.FiringRuns | plugins/jobs/qodalis_cli_jobs/cli_job_scheduler.py:572-587 | A timer that fires starts a run in any free slot, launched, as the next run; with every slot taken none starts, and by policy one waits and the oldest is cancelled; the next timer is set, or none without a schedule |
| JobSections.TriggerRuns | plugins/jobs/qodalis_cli_jobs/cli_job_scheduler.py:330-344 | A trigger starts a run in any free slot, or lets one wait, likewise, and touches nothing else |
| JobSections.EndFreesSlot | plugins/jobs/qodalis_cli_jobs/cli_job_scheduler.py:631-639 | The end of a run takes out its place alone, the others keep their order, and the waiting run takes the slot if that leaves room |
| JobSections.ControlsExactly | plugins/jobs/qodalis_cli_jobs/cli_job_scheduler.py:346-373 | What pausing, resuming and stopping leave of status, timer, waiting run and every run's cancellation |
| JobSections.CancelsExactly | plugins/jobs/qodalis_cli_jobs/cli_job_scheduler.py:307-381 | A cancel reaches every run and the waiting one, the scheduler's stop the timer as well, and nothing else changes |
| JobSections.StartExactly | plugins/jobs/qodalis_cli_jobs/cli_job_scheduler.py:229-256 | A start restores status and last run, sets the timer of an active job, and starts at most one run, as a due run |
| JobSections.UpdateSetsExactly | plugins/jobs/qodalis_cli_jobs/cli_job_scheduler.py:383-432 | Option by option: an accepted update has every given value, a schedule taking the interval's place and the reverse; a refused one has exactly the values before the first that is refused, and never the limit |
| JobSections.UpdateExactly | plugins/jobs/qodalis_cli_jobs/cli_job_scheduler.py:383-447 | An update is accepted if and only if all its values are; then the waiting run starts if the limit given has room, and an active job is rescheduled by the new options; a refused one touches nothing but options |
| JobSections.TimeoutExactly | plugins/jobs/qodalis_cli_jobs/cli_job_scheduler.py:749-761 | A time that runs out cancels its own run and no other |
| JobSections.LastRunExactly | plugins/jobs/qodalis_cli_jobs/cli_job_scheduler.py:790-800 | Over any run, the last run on record is the one put there last, by an attempt or a start that restores it |
| JobSections.StepKeepsTimed | plugins/jobs/qodalis_cli_jobs/cli_job_scheduler.py:524-587 | An active job of a started scheduler has a timer exactly when it has a schedule or an interval; a section breaks that if and only if it is an update that gives an unscheduled job one and is refused for a later value |
| JobSections.AlwaysTimed | plugins/jobs/qodalis_cli_jobs/cli_job_scheduler.py:524-587 | So over any run without such an update an active scheduled job is never without its timer |
| JobSections.RegisteredTimedExactly | plugins/jobs/qodalis_cli_jobs/cli_job_scheduler.py:188-227 | From registration that holds unless a scheduled, enabled job is registered once the scheduler runs |
| JobSections.RefusedUpdateStrands | plugins/jobs/qodalis_cli_jobs/cli_job_scheduler.py:412-432 | A refused update that leaves an active job with a schedule and no timer |
| JobRhythm.StartLeavesOneTimer | plugins/jobs/qodalis_cli_jobs/cli_job_scheduler.py:229-256 | Starting, with any saved state, leaves a job one timer if and only if none could still fire, or the job is active without a schedule and gets none |
| JobRhythm.StartDuringStopLeavesTwoTimers | plugins/jobs/qodalis_cli_jobs/cli_job_scheduler.py:307-318 | A start before the stop under way has reached the job's timer leaves two |
| JobRhythm.FireMovesOn | plugins/jobs/qodalis_cli_jobs/cli_job_scheduler.py:545-554 | Whatever the clock reads, a firing schedules a strictly later occurrence and passes over only ones already due |
| JobRhythm.CronFiresOccurrences | plugins/jobs/qodalis_cli_jobs/cli_job_scheduler.py:533-554 | Over any run, updates that replace the schedule included, a firing whose timer a cron schedule set is of an occurrence of that schedule |
| JobRhythm.CronKeepsRhythm | plugins/jobs/qodalis_cli_jobs/cli_job_scheduler.py:524-587 | Over any run, with pauses, stops, starts and updates that change the schedule itself, a firing set by a cron schedule is later than the firing before if and only if no rescheduling in between read a clock with an occurrence after it up to what fired before: a clock before it, when that was an occurrence too; every occurrence passed over was due already |
| JobRhythm.CronAscendsExactly | plugins/jobs/qodalis_cli_jobs/cli_job_scheduler.py:533-554 | So a run under cron schedules, replaced or not, fires in order and nothing twice if and only if every rescheduling was on time |
| JobRhythm.RescheduleRepeatsExactly | plugins/jobs/qodalis_cli_jobs/cli_job_scheduler.py:533-554 | After any run, an update, a resume or a start that leaves the job a cron schedule makes it due no later than it fired last if and only if an occurrence lies after the clock up to then; and at that very time if and only if it is the first of them |
| JobRhythm.ResumeRepeatsAnOccurrence | plugins/jobs/qodalis_cli_jobs/cli_job_scheduler.py:356-364 | A run of a cron job that fires one occurrence twice: an early timer, a pause and a resume |
| JobRuns.DueWhenFull | plugins/jobs/qodalis_cli_jobs/cli_job_scheduler.py:606-619 | A due run that finds every slot taken is dropped or refused, waits, or waits having cancelled the oldest run and no other, by policy |
| JobRhythm.IntervalsKeptExactly | plugins/jobs/qodalis_cli_jobs/cli_job_scheduler.py:555-564 | Over any run, updates that change the interval included, a firing set by an interval is due exactly one interval after the firing before, and after a rescheduling in between at least that if and only if the interval was over, or the fired run on record and no run asked for at once; never in the past |
| JobRhythm.RescheduleKeepsIntervalExactly | plugins/jobs/qodalis_cli_jobs/cli_job_scheduler.py:533-564 | After any run, an update, a resume or a start keeps the interval since the last firing under exactly that condition |
| JobRhythm.ResumeShortensAnInterval | plugins/jobs/qodalis_cli_jobs/cli_job_scheduler.py:356-364 | A run of an interval job that is due again half an interval after a firing |
| JobRhythm.StartCatchesUpExactly | plugins/jobs/qodalis_cli_jobs/cli_job_scheduler.py:229-271 | A start keeps a saved pause or stop, and runs an active job once if and only if it runs on start and a run is owed (none yet, an occurrence missed, or the interval passed) and, but for an interval job, a slot is free |
| JobRhythm.OwedExactly | plugins/jobs/qodalis_cli_jobs/cli_job_scheduler.py:258-271 | A run is due on start exactly when there was none yet, an occurrence was missed, the interval is over, or there is no schedule |
| JobRegistration.Registration.Admit | plugins/jobs/qodalis_cli_jobs/cli_job_scheduler.py:593-625 | Done in place, admission is the machine's: slot, wait, cancel the oldest, drop or refuse |
| JobRegistration.Registration.Release | plugins/jobs/qodalis_cli_jobs/cli_job_scheduler.py:631-639 | Done in place, a release takes out exactly its run and starts the waiting one if there is room |
| JobRegistration.Registration.CancelRuns | plugins/jobs/qodalis_cli_jobs/cli_job_scheduler.py:641-645 | The loop sets every run's cancellation and drops the waiting run |
| JobRegistration.Registration.ScheduleNext | plugins/jobs/qodalis_cli_jobs/cli_job_scheduler.py:524-570 | Done in place, scheduling sets the next run and creates one timer task as the machine says |
| JobRegistration.Registration.TimerFire | plugins/jobs/qodalis_cli_jobs/cli_job_scheduler.py:572-587 | A timer that wakes admits, launches and reschedules, as `JobSections.FiringRuns` says; a cancelled one does nothing |
| JobRegistration.Registration.Trigger | plugins/jobs/qodalis_cli_jobs/cli_job_scheduler.py:330-344 | A trigger admits at once and says whether it was refused |
| JobRegistration.Registration.Pause | plugins/jobs/qodalis_cli_jobs/cli_job_scheduler.py:346-354 | Pausing cancels the timer; refused when paused already |
| JobRegistration.Registration.Resume | plugins/jobs/qodalis_cli_jobs/cli_job_scheduler.py:356-364 | Resuming reschedules; refused unless paused |
| JobRegistration.Registration.Stop | plugins/jobs/qodalis_cli_jobs/cli_job_scheduler.py:366-373 | Stopping cancels the timer and all runs |
| JobRegistration.Registration.CancelCurrent | plugins/jobs/qodalis_cli_jobs/cli_job_scheduler.py:375-381 | Cancelling reaches live and waiting runs; refused when there are none |
| JobRegistration.Registration.UpdateOptions | plugins/jobs/qodalis_cli_jobs/cli_job_scheduler.py:383-447 | Sets options as `JobSections.UpdateSetsExactly` says: a refused value keeps the changes before it and reaches neither slots nor timer; a raised limit may start the waiting run |
| JobRegistration.Registration.StartScheduler | plugins/jobs/qodalis_cli_jobs/cli_job_scheduler.py:229-271 | Start restores the saved state and schedules or runs the job, each job once |
| JobRegistration.Registration.StopScheduler | plugins/jobs/qodalis_cli_jobs/cli_job_scheduler.py:307-318 | The scheduler's stop cancels runs, waiting run and timer |
| JobEventLoop.CanHappen | plugins/jobs/qodalis_cli_jobs/cli_job_scheduler.py:58-90 | Decides from the registration's own lists and tasks whether an event can happen |
| JobEventLoop.Perform | plugins/jobs/qodalis_cli_jobs/cli_job_scheduler.py:307-447 | Carries out any event that can happen by its section, in place; a run stays in the list unless it is the one that ends |
| JobRetries.Run | plugins/jobs/qodalis_cli_jobs/cli_job_scheduler.py:647-685 | Interleaved at every await with other events of the job, the run makes the attempts and delays that these and the attempts' ends decide, puts each attempt on record, holds its slot throughout and gives it back exactly once, in every way it can end; all that happened is a legal run of the machine |
| JobRetries.Execute | plugins/jobs/qodalis_cli_jobs/cli_job_scheduler.py:697-800 | One attempt: each of its four endings by how the job came back and the cancellation at that moment, the cancellation a timeout sets, and its record, or none when the store fails |
| JobRetries.TimesOutExactly | plugins/jobs/qodalis_cli_jobs/cli_job_scheduler.py:749-761 | An attempt sets its own run's cancellation exactly when its time is over before the run is cancelled |
| JobRetries.GoesOnExactly | plugins/jobs/qodalis_cli_jobs/cli_job_scheduler.py:647-685 | Under options that stay, a run goes on if and only if its attempt is on record as failed, retries are left, it is not cancelled when the loop looks at the attempt and, unless the delay is zero, not at the end of the delay |
| JobRetries.AttemptsAreBounded | plugins/jobs/qodalis_cli_jobs/cli_job_scheduler.py:647-685 | Under options that stay at most max_retries + 1 attempts, and exactly that many if and only if every one before the last failed and was not cancelled when the loop looked nor, unless the delay is zero, at the end of the delay; every attempt that another follows is of that kind |
| JobRetries.RetryBeginsCancelledExactly | plugins/jobs/qodalis_cli_jobs/cli_job_scheduler.py:655-681 | A retry begins with the cancellation set if and only if it had no delay to wait and something cancelled the run after the loop had looked at the failed attempt |
| JobRetries.StepCancelsExactly | plugins/jobs/qodalis_cli_jobs/cli_job_scheduler.py:606-645 | The sections that set a run's cancellation are exactly a cancel, job stop or scheduler stop, its own timeout, and a due run that overlaps it as the oldest one |
| JobRetries.ZeroDelayRetryBeginsCancelled | plugins/jobs/qodalis_cli_jobs/cli_job_scheduler.py:676-681 | A cancel while a retry without delay is announced does not end the run; with any delay it does |
| JobRetries.FirstAttemptBeginsCancelled | plugins/jobs/qodalis_cli_jobs/cli_job_scheduler.py:330-344 | A run cancelled between its trigger and its launch begins its first attempt cancelled |
| JobRetries.EveryAttemptRecorded | plugins/jobs/qodalis_cli_jobs/cli_job_scheduler.py:790-800 | Whatever the job's other runs put on record meanwhile, each attempt of a run becomes the job's last start once, except a last one that the store lost |
| JobRetries.RunTotalDelay | plugins/jobs/qodalis_cli_jobs/cli_job_scheduler.py:687-695 | The k completed delays of a run total k*b, b*k*(k+1)/2 or b*(2^k - 1) by strategy |
| JobRetries.EndingOf | plugins/jobs/qodalis_cli_jobs/cli_job_scheduler.py:697-815 | Completed exactly when the job returns uncancelled, timed out when its time is over uncancelled, failed when it raises, and else cancelled |
| JobStore.SaveAgreesExactly | plugins/jobs/qodalis_cli_jobs/in_memory_job_storage_provider.py:24-33 | Saving keeps the two indexes in agreement if and only if the id keeps its job |
| JobStore.SaveUnderAnotherJobDisagrees | plugins/jobs/qodalis_cli_jobs/in_memory_job_storage_provider.py:24-33 | A second save of an id under another job leaves the first record in its list |
| JobStore.DeleteIsWithout | plugins/jobs/qodalis_cli_jobs/in_memory_job_storage_provider.py:68-75 | Deleting from one list takes the id out of both indexes everywhere and nothing else |
| JobStore.AlwaysAgree | plugins/jobs/qodalis_cli_jobs/in_memory_job_storage_provider.py:24-75 | The indexes agree after any saves, deletes and prunes that keep ids with their jobs |
| JobStore.SaveLaw | plugins/jobs/qodalis_cli_jobs/in_memory_job_storage_provider.py:24-33 | A record of a new id comes first and the others follow as they were; one saved again keeps its place; no other record or job is touched |
| JobStore.DropMore | plugins/jobs/qodalis_cli_jobs/in_memory_job_storage_provider.py:68-75 | What a deletion leaves keeps its order |
| JobStore.MatchingMore | plugins/jobs/qodalis_cli_jobs/in_memory_job_storage_provider.py:35-49 | The records of a status keep their order; no status, and the empty one, let every record through |
| JobStore.StoredExactlyOnce | plugins/jobs/qodalis_cli_jobs/in_memory_job_storage_provider.py:19-33 | An id has a place in the lists if and only if it is stored; then exactly one over all lists, in its own job's, with the same record |
| JobStore.InMemoryJobStorage.SaveExecution | plugins/jobs/qodalis_cli_jobs/in_memory_job_storage_provider.py:24-33 | Done in place with its search loop, saving replaces the record of the id or puts it first |
| JobStore.InMemoryJobStorage.GetExecutions | plugins/jobs/qodalis_cli_jobs/in_memory_job_storage_provider.py:35-49 | The records from offset on, at most limit of them, of the matching ones, and how many match |
| JobStore.InMemoryJobStorage.DeleteExecution | plugins/jobs/qodalis_cli_jobs/in_memory_job_storage_provider.py:68-75 | True exactly when there was a record; then both indexes lose exactly it |
| JobStore.InMemoryJobStorage.Prune | plugins/jobs/qodalis_cli_jobs/in_memory_job_storage_provider.py:60-66 | The loop removes exactly the records started before the time and returns how many left both indexes |
| JobHistory.FutureKeepsFinished | plugins/jobs/qodalis_cli_jobs/cli_job_scheduler.py:486-510 | Whatever other coroutines save, a finished match stays and moves only further back |
| JobHistory.PageKeepsPaging | plugins/jobs/qodalis_cli_jobs/cli_job_scheduler.py:495-502 | A page read moves the paging on without missing a match; the last page ends it |
| JobHistory.DeletionMissesExactly | plugins/jobs/qodalis_cli_jobs/cli_job_scheduler.py:495-502 | When a record leaves the history between two pages, a finished match still to be read is never read if and only if it is the next one and the record matched and stood before it |
| JobHistory.DiscardMissesARun | plugins/jobs/qodalis_cli_jobs/cli_job_scheduler.py:823-829 | With one record more than a page, discarding the running one after the first page keeps the oldest from being read |
| JobHistory.Scheduler.DeleteExecutions | plugins/jobs/qodalis_cli_jobs/cli_job_scheduler.py:486-516 | With new runs saved between pages and between deletions, every match finished at the call is removed, no running run is, and the count is the number of records that left although a page may repeat an id |
| JobStats.ColumnHoldsTime | plugins/jobs/qodalis_cli_jobs/job_stats.py:161-174 | In exact arithmetic a start time in the range lies in the interval of its column and of no other |
| JobStats.ColumnOutside | plugins/jobs/qodalis_cli_jobs/job_stats.py:174 | A time before the range counts in the first column, one after it in the last |
| JobStats.OutcomeExactly | plugins/jobs/qodalis_cli_jobs/job_stats.py:28-43 | Which status texts, tidied, stand for which outcome |
| JobStats.ComputeStats | plugins/jobs/qodalis_cli_jobs/job_stats.py:154-199 | Every cell of the chart counts exactly its runs, the jobs listed are exactly those with runs, each once, and each summary is of its runs |
| JobStats.CountsConserve | plugins/jobs/qodalis_cli_jobs/job_stats.py:154-199 | By outcome, columns, totals and per-job figures add up to the same number, and together to the number of runs |
| JobStats.P95IsNearestRank | plugins/jobs/qodalis_cli_jobs/job_stats.py:146-147 | The index is in bounds; at least 95% of the durations are at most the value chosen and fewer than 95% are below it |
| JobStats.P95IsUnique | plugins/jobs/qodalis_cli_jobs/job_stats.py:146-147 | Only one value satisfies that |
| JobStats.Summarise | plugins/jobs/qodalis_cli_jobs/job_stats.py:126-151 | The loop counts by outcome, and rate, average, p95, maximum and last failure are those of the runs |
| JobStats.DurationsExactly | plugins/jobs/qodalis_cli_jobs/job_stats.py:134-135 | The durations summarised are those of the runs that are not running, each as often as runs have it |
| JobStats.AverageBetween | plugins/jobs/qodalis_cli_jobs/job_stats.py:145 | The average lies between any bounds of the durations |
| JobStats.TotalAddsUp | plugins/jobs/qodalis_cli_jobs/job_stats.py:145 | The total of joined durations is the sum of their totals |
| JobStats.CollectRuns | plugins/jobs/qodalis_cli_jobs/job_stats.py:102-123 | While new runs start and others are saved again between pages, every run of the range stored at the call is collected, none twice, and nothing but records of the range that the store held meanwhile; if ids are distinct, what is collected under an id is of its job and start time |
| FileTree.LookupUpdated | plugins/filesystem-json/qodalis_cli_filesystem_json/json_file_provider.py:328-338 | Changing a node changes what is read at and below its path and at no other path |
| FileTree.EnsureParentsOk | plugins/filesystem-json/qodalis_cli_filesystem_json/json_file_provider.py:340-360 | Creating parents succeeds if and only if no prefix is a file and, without create, all exist; which error it gives otherwise |
| FileTree.LookupEnsured | plugins/filesystem-json/qodalis_cli_filesystem_json/json_file_provider.py:340-360 | It makes every prefix a directory and changes no other path |
| FileLaws.WriteFileSucceeds | plugins/filesystem-json/qodalis_cli_filesystem_json/json_file_provider.py:185-199 | Writing fails exactly for the root, a directory, and a path through a file, and with which error |
| FileLaws.WriteFileLaw | plugins/filesystem-json/qodalis_cli_filesystem_json/json_file_provider.py:185-216 | Writing makes that path that file and its parents directories and changes no other path; the tree stays well-formed |
| FileLaws.MkdirSucceeds | plugins/filesystem-json/qodalis_cli_filesystem_json/json_file_provider.py:231-248 | When creating a directory fails, recursive or not, and with which error |
| FileLaws.MkdirLaw | plugins/filesystem-json/qodalis_cli_filesystem_json/json_file_provider.py:231-248 | Afterwards the path and its prefixes are directories and no other path has changed |
| FileLaws.RemoveLaw | plugins/filesystem-json/qodalis_cli_filesystem_json/json_file_provider.py:250-265 | Removing takes away the path and all below it and nothing else; when it fails and how |
| FileLaws.CopyLaw | plugins/filesystem-json/qodalis_cli_filesystem_json/json_file_provider.py:267-281 | The destination becomes the copy, replacing what stood there, its parents exist, all else is unchanged; when it fails and how |
| FileLaws.MoveLaw | plugins/filesystem-json/qodalis_cli_filesystem_json/json_file_provider.py:283-308 | When neither path is a prefix of the other: the old subtree at dest, nothing at src, missing parents created, all else unchanged |
| FileLaws.MoveGeneral | plugins/filesystem-json/qodalis_cli_filesystem_json/json_file_provider.py:283-308 | What a move does, when it fails and how, on every pair of paths |
| FileLaws.MoveKeepsExactly | plugins/filesystem-json/qodalis_cli_filesystem_json/json_file_provider.py:283-308 | On every pair of paths: a move delivers the subtree if and only if dest is not at or below src and, for src below dest, nothing stands at the path it would remove again |
| FileLaws.MoveBelowItselfLoses | plugins/filesystem-json/qodalis_cli_filesystem_json/json_file_provider.py:283-308 | A directory moved below itself is lost |
| FileLaws.MoveOntoParentLoses | plugins/filesystem-json/qodalis_cli_filesystem_json/json_file_provider.py:283-308 | A directory moved onto its parent loses the entry of its own name |
| FileDoc.WriteThenRead | plugins/filesystem-json/qodalis_cli_filesystem_json/json_file_provider.py:53-81 | Reading a written document gives the same tree, for every tree |
| FileDoc.WritesFields | plugins/filesystem-json/qodalis_cli_filesystem_json/json_file_provider.py:53-64 | A written node has its name, type and content under these names and its children's documents in order |
| FileDoc.ReadsExactly | plugins/filesystem-json/qodalis_cli_filesystem_json/json_file_provider.py:66-81 | A document is read exactly when name and type are texts, content is one or missing, and children is missing or an array that is read throughout; the node has these, or nothing where they are missing |
| JsonFiles.JsonFileStorageProvider.AddChild | plugins/filesystem-json/qodalis_cli_filesystem_json/json_file_provider.py:90-92 | Appending to one node's children list changes the whole tree exactly at that node's path |
| JsonFiles.JsonFileStorageProvider.RemoveChild | plugins/filesystem-json/qodalis_cli_filesystem_json/json_file_provider.py:94-96 | Filtering one node's children list changes the whole tree exactly there |
| JsonFiles.JsonFileStorageProvider.ResolveNode | plugins/filesystem-json/qodalis_cli_filesystem_json/json_file_provider.py:328-338 | The loop finds the node at the path, or none when there is none |
| JsonFiles.JsonFileStorageProvider.EnsureParentsNode | plugins/filesystem-json/qodalis_cli_filesystem_json/json_file_provider.py:340-360 | The loop creates what is missing; once it has created a directory nothing can fail, so a failure leaves every node as it was |
| JsonFiles.JsonFileStorageProvider.DeepCopy | plugins/filesystem-json/qodalis_cli_filesystem_json/json_file_provider.py:362-376 | The copy consists of new nodes only and shows the same tree under the new name; no old node changes |
| JsonFiles.JsonFileStorageProvider.FromDict | plugins/filesystem-json/qodalis_cli_filesystem_json/json_file_provider.py:66-81 | The nodes built from a document show the tree it tells, or the reading fails |
| JsonFiles.JsonFileStorageProvider.ToDict | plugins/filesystem-json/qodalis_cli_filesystem_json/json_file_provider.py:53-64 | The document written from the nodes is that of the tree they show |
| JsonFiles.JsonFileStorageProvider.Load | plugins/filesystem-json/qodalis_cli_filesystem_json/json_file_provider.py:131-140 | Loading gives the file's tree, or an empty root without a file |
| JsonFiles.JsonFileStorageProvider.ReloadsTheSame | plugins/filesystem-json/qodalis_cli_filesystem_json/json_file_provider.py:131-151 | In every reachable state after the first save, the document on disk loads as the tree in memory |
| JsonFiles.JsonFileStorageProvider.ReadFile | plugins/filesystem-json/qodalis_cli_filesystem_json/json_file_provider.py:177-183 | Reads exactly what the map from paths to entries holds, and fails without an entry or on a directory |
| JsonFiles.JsonFileStorageProvider.WriteFile | plugins/filesystem-json/qodalis_cli_filesystem_json/json_file_provider.py:185-216 | In place: the new tree and the error are as specified, a failure changes neither tree nor document, a success saves the tree |
| JsonFiles.JsonFileStorageProvider.Mkdir | plugins/filesystem-json/qodalis_cli_filesystem_json/json_file_provider.py:231-248 | In place, likewise; nothing is saved when the directory was there and recursive was not asked for |
| JsonFiles.JsonFileStorageProvider.Remove | plugins/filesystem-json/qodalis_cli_filesystem_json/json_file_provider.py:250-265 | In place, likewise |
| JsonFiles.JsonFileStorageProvider.Copy | plugins/filesystem-json/qodalis_cli_filesystem_json/json_file_provider.py:267-281 | In place, likewise, also when the source hangs below the replaced destination or above it |
| JsonFiles.JsonFileStorageProvider.Move | plugins/filesystem-json/qodalis_cli_filesystem_json/json_file_provider.py:283-308 | In place, likewise, on every pair of paths |
| ShellWords.SplitShellWords | packages/abstractions/src/qodalis_cli_server_abstractions/shell_words.py:17-75 | The index-moving scanner with its nested loops computes the words of the text, for every text |
| ShellWords.ReadDoubleQuoted | packages/abstractions/src/qodalis_cli_server_abstractions/shell_words.py:42-58 | The inner loop reads a double-quoted part up to its closing quote, or finds none |
| ShellGrammar.SplitsByPieces | packages/abstractions/src/qodalis_cli_server_abstractions/shell_words.py:17-75 | Every text is a sequence of escapes, quoted parts, gaps and letters, with unclosed quotes and a last backslash as letters; splitting gives what the pieces mean, however it is taken apart |
| ShellGrammar.DoubleQuotedExactly | packages/abstractions/src/qodalis_cli_server_abstractions/shell_words.py:42-58 | A double-quoted part closes exactly where its units do: an escaped quote or backslash is that character, and a backslash before any other character stays |
| ShellGrammar.DoubleQuotesKeepExactly | packages/abstractions/src/qodalis_cli_server_abstractions/shell_words.py:48-58 | Text without double quotes, put between them, reads as itself if and only if none of its backslashes stands last or before another one |
| ShellWords.QuoteReadsBack | src/qodalis_cli/mcp/commands.py:105-119 | Wherever a quoted value stands, it adds exactly the value to the word under way |
| ShellGrammar.QuoteChooses | src/qodalis_cli/mcp/commands.py:102-119 | A word is left as it is exactly when it is not empty and has no special character; else it is quoted, by single quotes exactly when it has double quotes and no single ones |
| ShellWords.QuoteThenSplit | src/qodalis_cli/mcp/commands.py:105-119 | Quoting any string and splitting gives back that one string |
| ShellWords.QuoteAllThenSplit | src/qodalis_cli/mcp/commands.py:105-119 | Any list of strings, quoted and joined by spaces, splits back to that list |
| ShellWords.RawCommand | src/qodalis_cli/mcp/commands.py:122-133 | The parts collected by the loop, joined by spaces |
| ShellWords.PartsExactly | src/qodalis_cli/mcp/commands.py:122-133 | The path words and the keys stand in the line as they are, whatever they hold; only values are quoted |
| ShellWords.RawCommandSplits | src/qodalis_cli/mcp/commands.py:122-133 | For plain path words and keys the command line splits into the path, the value if non-empty, and one word per argument in order |
| ShellWords.PlainExactly | src/qodalis_cli/mcp/commands.py:122-133 | A word copied unquoted is read back as itself, whatever follows, if and only if it is non-empty and holds nothing the splitter treats specially (a quote, a backslash, white space); for every word |
| ProcessTree.Descendants | src/qodalis_cli/services/cli_shell_session_manager.py:858-871 | Terminates on any parent relation and returns, without duplicates, exactly the processes reachable from root, root excluded |
| ProcessTree.CollectTargets | src/qodalis_cli/services/cli_shell_session_manager.py:879-892 | The targets are exactly the shell's tree, group, session and marked processes, except pid 1 and below, the server and its group |
| EventSockets.AlwaysDelivers | src/qodalis_cli/services/cli_event_socket_manager.py:69-94 | Sent, then in flight, then queued is always "connected" and a subsequence of the events for the socket, in publish order without repeats; at most 1000 are queued; all events are there if and only if none found the queue full |
| EventSockets.OthersDoNotMatter | src/qodalis_cli/services/cli_event_socket_manager.py:33-36 | A run without the steps of the other sockets is legal and leaves a socket's events and queue the same |
| EventSockets.EventSocketManager.OthersLeaveAlone | src/qodalis_cli/services/cli_event_socket_manager.py:33-36 | So the manager's dictionaries hold of a socket what they would without the others: none delays or disturbs another |
| EventSockets.EverythingAcceptedArrives | src/qodalis_cli/services/cli_event_socket_manager.py:87-94 | A sender that has not failed can send all that was accepted, in order |
| EventSockets.Receives | src/qodalis_cli/services/cli_event_socket_manager.py:102-119 | True exactly for everyone's events, for a socket without principal while no authentication is required, for the user, and for holders of the permission; a failing check counts as no |
| EventSockets.AuthenticationExactly | src/qodalis_cli/services/cli_event_socket_manager.py:54-62 | Authentication is not required exactly where nothing checks it or the check says no; a check that raises requires it |
| EventSockets.KnownExactly | src/qodalis_cli/services/cli_event_socket_manager.py:121-188 | Over any run a socket is known, with the caller it connected for, exactly from its connection to its end |
| EventSockets.DueExactly | src/qodalis_cli/services/cli_event_socket_manager.py:69-119 | Over any run an event is for a socket exactly if the socket is connected for a caller whom the audience names: by user, by a permission whose check says yes, or without restriction |
| EventSockets.EventSocketManager.PublishEvent | src/qodalis_cli/services/cli_event_socket_manager.py:69-85 | The loop over the clients is one publish step for every socket: queued at the end where the event is addressed to the caller and fewer than 1000 wait, else the queue stays as it is |
| EventSockets.EventSocketManager.HandleConnection | src/qodalis_cli/services/cli_event_socket_manager.py:121-161 | A new socket starts with "connected" queued before any event |
| EventSockets.EventSocketManager.TakeMessage | src/qodalis_cli/services/cli_event_socket_manager.py:87-90 | The sender takes the oldest message |
| EventSockets.EventSocketManager.EndSend | src/qodalis_cli/services/cli_event_socket_manager.py:90-94 | After a failed send the sender stops for good, after any other it goes on |
| EventSockets.EventSocketManager.EndConnection | src/qodalis_cli/services/cli_event_socket_manager.py:96-181 | Ending a connection stops its sender and forgets its queue |
| EventSockets.EventSocketManager.CutOff | src/qodalis_cli/services/cli_event_socket_manager.py:214-215 | Stopping one sender before all clients are disconnected leaves the socket known, without queue |
| EventSockets.EventSocketManager.Delivered | src/qodalis_cli/services/cli_event_socket_manager.py:69-94 | The same of the dictionaries, in every state the manager reaches |
| AuditLog.RingRefines | plugins/audit/qodalis_cli_audit/in_memory_audit_store.py:21-71 | After any logs, prunes and clears a ring is the newest part of the full log of its class, within its bound |
| AuditLog.EvictedByItsOwnClass | plugins/audit/qodalis_cli_audit/in_memory_audit_store.py:34-36 | An entry is gone only after at least its own class's bound of later entries of its class |
| AuditLog.OtherClassEvictsNothing | plugins/audit/qodalis_cli_audit/in_memory_audit_store.py:34-36 | No number of failed sign-ins evicts another entry, nor the other way round |
| AuditLog.HoldsTheLatest | plugins/audit/qodalis_cli_audit/in_memory_audit_store.py:21-36 | Until a prune or clear a ring holds exactly the latest entries of its class |
| AuditLog.ListingRefines | plugins/audit/qodalis_cli_audit/in_memory_audit_store.py:38-41 | The unfiltered listing is strictly newest recorded first, holds exactly what the rings hold, and lacks only entries with enough later ones |
| AuditLog.InMemoryAuditStore.LogEntry | plugins/audit/qodalis_cli_audit/in_memory_audit_store.py:34-36 | Done in place, logging pushes onto the ring of the entry's class |
| AuditLog.InMemoryAuditStore.GetEntries | plugins/audit/qodalis_cli_audit/in_memory_audit_store.py:38-62 | The successive filters, then the offset, then the limit: entry k of the result is entry offset + k of those that meet all criteria, as many as there are and the limit allows |
| AuditLog.CriteriaExactly | plugins/audit/qodalis_cli_audit/in_memory_audit_store.py:43-57 | What each criterion asks: texts without regard to case, a missing actor as the empty one, from inclusive and until exclusive |
| AuditLog.SelectMore | plugins/audit/qodalis_cli_audit/in_memory_audit_store.py:43-57 | What is selected keeps its order |
| AuditLog.PagesJoin | plugins/audit/qodalis_cli_audit/in_memory_audit_store.py:58-61 | Pages of n entries at 0, n, 2n and so on join to the whole selection |
| AuditLog.InMemoryAuditStore.PruneBefore | plugins/audit/qodalis_cli_audit/in_memory_audit_store.py:64-71 | Keeps exactly what is not older and returns how many it removed |
| AuditLog.InMemoryAuditStore.ClearAll | plugins/audit/qodalis_cli_audit/in_memory_audit_store.py:73-75 | Both rings are empty afterwards |

## Left out

- JobRegistration.Registration.Trigger: a trigger call that is itself cancelled between admitting and launching; its run would hold its slot unlaunched.
- JobRegistration.Registration.StartScheduler: start is one step; control calls during its awaits and overlapping starts are outside, apart from `JobRhythm.StartLeavesOneTimer`.
- JobRegistration.Registration.UpdateOptions: descriptions and groups, which nothing else reads; the texts of schedules and intervals, which come in as parsed or invalid values.
- JobRetries.EveryAttemptRecorded: a discarded completed run's record leaves the history again; its start stays the job's last.
- JobRetries.Run: the body of an attempt is a free choice of how it came back; that the retry limits updates set meanwhile are bounded is assumed, since the loop need not end otherwise; run data other than the slot, its cancellation and the last start.
- JobRhythm.CronKeepsRhythm: a cron expression is an abstract function giving the least of its occurrences above a time.
- JobStore.InMemoryJobStorage.SaveExecution: records are values, so a stored record that its owner changes before saving again is not captured; nor is `query_executions`.
- JobHistory.Scheduler.DeleteExecutions: other coroutines only save, and ids are not used again once deleted; what a deletion by one of them, such as a discarded run's, makes the paging miss is `JobHistory.DeletionMissesExactly`.
- JobStats.ComputeStats: floating-point rounding, ISO texts, job names, the recent runs per job and the order in which jobs are listed.
- JobStats.CollectRuns: runs without an id, which are kept apart by object identity; runs deleted while pages are read; stores that list in another order than newest first.
- FileTree.LookupUpdated: paths are lists of segments; trimming and normalising path texts is not modelled.
- JsonFiles.JsonFileStorageProvider.WriteFile: a text with a lone surrogate, whose encoding raises once the content is set or the parents are created.
- Saving a document that raises: the operation has then already changed the tree.
- FileDoc.WriteThenRead: sizes, times and permissions of nodes, and values of other JSON types in a document.
- JsonFiles.JsonFileStorageProvider.Load: a document with repeated names, children below files or a root that is no directory loads as it is, but the laws are then not claimed.
- ShellWords.RawCommandSplits: path words and keys that need quoting are copied unquoted; `ShellWords.PlainExactly` says that they then may not read back.
- EventSockets.EventSocketManager.EndConnection: whether a send cut off by stopping had gone out is a free choice.
- `broadcast_message`, `send_to_user` and the farewell of `broadcast_disconnect`, which bypass the queues; binding sockets to sessions.
- AuditLog.InMemoryAuditStore.GetEntries: lower-casing is a parameter.
- Interrupted runs finished at start, persisted job states, broadcasts and logging of the scheduler: I/O around the sections modelled.
- Reading the process list and signalling: the list is input.
- `list`, `stat`, `exists` and downloads of the file provider, and other file and job stores: easy reads or other back ends.
- Controllers, MCP transport, data explorers, the users and admin plugins: I/O or wrappers.
