# batchq in Dafny

batchq is a job scheduler: users submit jobs with `afterok` dependencies, a server keeps them in one SQLite
database, and runners claim them, either to run them locally or to hand them to SLURM. This project models the parts of
it that are hard to get right and proves what they promise.

* **The queue as a state machine.** `Jobs`, `Claims` and `Transactions` define the tables and every transaction as a
  function on the whole store; `Cascade` and `Resolve` define the two graph algorithms among them. `Sqlite` holds the
  imperative code: the class `SqliteStorage` has the source's loops and branches, and each method's contract equates
  the new database with the transaction applied to the old one. `Lifecycle` runs arbitrary sequences of transactions
  from an empty database. Submitting is two steps, the validation read and the insert transaction, with anything in
  between; so is a bulk cleanup, which reads the ids of any states first. `Runs`, `Acyclicity`, `Throttles`, `Replay`, `Handoff`,
  `Selection`, `BatchReports` and `Origins` prove what holds over all runs. `RowOutcomes` and `ClaimOutcomes` say what every
  transaction and claim means in statuses, columns, detail keys and numbers, without the vocabulary they are defined in.
* **Cleanup and archiving.** `Removal` plans which ended jobs may go, `Archive` moves them chunk by chunk with a fault
  possible at every database call. `Shadow` relates its database, which has all columns, to that of the state machine.
  `Hydration` loads relations in bulk.
* **The server's shutdown handshake.** `Drain` interleaves the atomic steps of any number of requests and triggers.
* **The client.** `Retry` sends a submit over a transport that may refuse, delay, duplicate or lose it.
* **The runners.** `DripFeed`, `SlurmRunner` and `SlurmDirective` cover array batches, budgets and the dependency
  directive; `SimpleRunner` keeps the books of the local runner, and `RunLimit` interleaves its loop with a signal.
* **Parsers, printers and expansion.** `ArraySpec`, `Walltime`, `Expansion`, over the string primitives in `Text`.

Each transaction is one step because the source writes through a single connection (`storage/sqlite.go:122-130`). Ids
are integers: only equality and order matter. Times are opaque integers. The table constraints are those the code relies
on: a lock row per job id, child rows keyed by job id, and edges that are foreign keys into the jobs table. The schema
file itself is not part of this model.

## Where the code falls short of a plausible claim

Each of these has a concrete run or input, and the condition under which the claim does hold.

* Validation alone does not keep the dependency graph acyclic. A submit may name its own id if that id was valid when
  validated and has been canceled and cleaned up before the insert (`Acyclicity.ValidationAloneAllowsSelfLoop`). An
  insert closes a cycle exactly if the job names itself (`Acyclicity.CycleIffSelfNamed`).
* A successful job may end up with a failed parent once jobs are handed to SLURM (`Handoff.SuccessMayOutliveParent`).
  A running job can still get there exactly if one of its parents is handed off now (`Handoff.OutlivedExactly`).
* A bulk cleanup without archive takes any states, and strips and deletes by id alone. Asked for RUNNING it deletes the
  job under its runner (`Archive.RunningJobDeleted`, `Selection.LiveSelectionUnlocks`); a WAITING job stripped of its
  edges is queued before its parent has run (`Selection.LiveSelectionPromotes`). It touches an unfinished job exactly if
  no archive was asked for and some unfinished job passes the filter together with everything that depends on it
  (`Archive.TouchesUnfinishedExactly`, `Archive.Archiver.CleanupBulk`); with an archive it never does. Even a job that
  had ended may be cleaned up, submitted again and claimed between the selection and the strip
  (`Selection.StaleSelectionUnlocks`). Locks hold along a run exactly if no strip meets an active job
  (`Selection.LocksHoldExactly`), and so whenever only ended jobs are selected and no selected id is submitted again
  (`Selection.UnlessReinsertedLocked`).
* A plain submit may name an array and give no index. A batch runner that meets such a job is told for ever that more is
  eligible, and gets nothing (`BatchReports.StrayStarvesRunner`). More is reported exactly if the scan passed over a
  fitting job of that kind, and never because of a race (`BatchReports.MoreEligibleExactly`).
* A busy shutdown may give up the socket before the database is closed (`Drain.BusyShutdownMayUnlinkFirst`): from a
  committed shutdown with the database still open this can happen exactly if the commit was busy or accepting had failed
  (`Drain.SocketFirstExactly`). A busy drain that runs out of time closes the database under running handlers
  (`Drain.TimedOutDrainMayBreakHandlers`): from such a state this can happen exactly if a handler is running now
  (`Drain.HandlerBreaksExactly`).
* Archiving loses nothing at any commit, but an error return before anything was counted removes the archive. In
  `Archive.LosingRun` the fifth database call fails and the details of a job are gone. A job is lost exactly if the failing
  call was the delete of its own chunk and it had child rows (`Archive.LostOnErrorExactly`).
* Demand for an untyped resource can exceed everything advertised for it, since it is not charged to the typed variants
  it draws on. This can happen exactly if some variant has a positive count and the runner may hold two jobs at once,
  which one without a processor and a memory maximum never does (`SimpleRunner.OvercommitExactly`).
* The simple runner may receive one job more than its limit, whatever the limit (`RunLimit.SomeRunExceeds`): this
  takes a signal, and a signal suffices, between the two looks at `keepRunning` once the limit is used up
  (`RunLimit.LimitExactly`, `RunLimit.SignalInWindow`, `RunLimit.ReadInWindow`).
* The SLURM directive silently ignores a QUEUED parent (`SlurmDirective.OnlyQueuedIsDropped`); a job past the gate has
  none until it is itself cleaned up (`SlurmDirective.NoUnfinishedParentDropped`).
* A client id does not exclude a second job once the first has been cleaned up (`Retry.CleanupAllowsAnother`): another
  creation can still come exactly if a copy is on its way or the client may send again (`Retry.AnotherComesExactly`).
  There is at most one more than cleanups of that id (`Retry.Client.SubmitJob`).
* Array specifications are parsed with 64-bit wrap-around: one is accepted with negative indices, and over another the
  parser never returns (`ArraySpec.NegativeIndicesAccepted`, `ArraySpec.EndlessTerm`). A term means its progression
  exactly if the step past its upper bound stays in range (`ArraySpec.ProgressionExactly`).
* A wall time of -1 survives printing and parsing, other negative ones do not (`Walltime.RoundTrip`); an index list
  survives exactly if it does not end in the largest int (`ArraySpec.PrintedSpecifies`).

## Model

| member | source | states |
|---|---|---|
| Graph.FalloutLeast | storage/sqlite.go:2047-2086 | The jobs downstream of some roots through a given set of intermediates are contained in every set that is closed under dependents. |
| Graph.RankedIsAcyclic | storage/sqlite.go:387-400 | A table whose edges all climb in some ranking has no dependency cycle. |
| Cascade.CancelDoomsExactly | storage/sqlite.go:2005-2086 | Canceling a job, live or already ended, cancels exactly the live target and the live jobs reachable from it through live dependents, and changes nothing else. |
| Cascade.DoomedStep | storage/sqlite.go:2168-2194 | What canceling two sets together dooms is what the first dooms plus what the second dooms afterwards. |
| Cascade.CancelEachDoomsExactly | storage/sqlite.go:2168-2194 | Canceling a list one by one, each seeing the previous writes, dooms exactly what canceling the set dooms. |
| Cascade.CancelArrayOrderFree | storage/sqlite.go:2168-2194 | The final statuses do not depend on the order or repetition of the listed members. |
| Cascade.DoomedSwallows | storage/sqlite.go:2047-2086 | Afterwards no live job depends on the target or on anything canceled. |
| Cascade.CascadeFromEnded | storage/sqlite.go:1940-1956 | A parent that has just failed cascades to the same set as a canceled one. |
| RowOutcomes.DoomedIsSwept | storage/sqlite.go:2047-2086 | A cascade cancels unfinished jobs only, each of which depends on the root or on a canceled one, until no unfinished job does. |
| RowOutcomes.CancelOutcome | storage/sqlite.go:2005-2086 | A cancel makes an unfinished job CANCELED, leaves an ended one, and sweeps below either. |
| Resolve.PassPromotesExactly | storage/sqlite.go:1139-1231 | One pass queues exactly the scanned candidates whose parents were all met before the pass, whatever the scan order. |
| RowOutcomes.PassOutcome | storage/sqlite.go:1139-1231 | A pass queues exactly the WAITING or UNKNOWN jobs all of whose parents are SUCCESS or PROXYQUEUED, cancels those with a CANCELED or FAILED parent, and touches no other. |
| Resolve.ResolveOneKeepsSettled | storage/sqlite.go:1139-1231 | Deciding any candidate, at any time, leaves the final outcome of resolution unchanged. |
| Resolve.PassShrinks | storage/sqlite.go:1139-1231 | A pass that changes anything strictly shrinks the set of pending jobs. |
| Resolve.FixpointIsSettled | storage/sqlite.go:1139-1231 | A full pass that changes nothing has reached the outcome: no pending job is promotable or below a failed one. |
| Resolve.PassesSettle | storage/sqlite.go:1139-1231 | As many full passes as there are pending jobs, in any scan orders, always reach the same outcome. |
| Resolve.WaitingHasMovableAncestor | storage/sqlite.go:1139-1231 | In a settled acyclic table every pending job has, through pending jobs, an ancestor that is queued, running or held. |
| Claims.ClaimsAreFree | storage/sqlite.go:1550-1566 | Whatever a claim hands out was queued and unlocked, and nothing is handed out twice in a batch. |
| ClaimOutcomes.ClaimGoesFirst | storage/sqlite.go:1235-1330 | A claim hands out a job exactly if one is queued, unlocked, fits and is below its throttle, and then one with the highest priority, among those the earliest submit time, and among those the smallest id. |
| ClaimOutcomes.ClaimEffect | storage/sqlite.go:1550-1566 | That job is RUNNING and locked for the runner, and nothing else changes. |
| ClaimOutcomes.LeadGoesFirst | storage/sqlite.go:1332-1454 | A batch claim goes by the job that comes first in the same order among those that lead to work, and takes the job itself or a batch of its array: unlocked queued tasks, lowest index first, as many as the budget allows. |
| ClaimOutcomes.PassedOverExactly | storage/sqlite.go:1332-1376 | The scan comes by exactly the queued jobs with a higher priority, or as high and an earlier submit time, or both the same and a smaller id. |
| ClaimOutcomes.ReportExactly | storage/sqlite.go:1376-1454 | Blocked, deferred and more eligible, in terms of the jobs the scan came by: one does not fit, one is held back by the budget and nothing was taken, one led nowhere or the batch met a lock. |
| ClaimOutcomes.RacedReads | storage/sqlite.go:1520-1545 | A batch that does not use up its budget meets a lock exactly if a waiting task is locked; locked tasks behind the budget are not met. |
| ClaimOutcomes.ThrottleCarried | storage/sqlite.go:1467-1545 | A batch carries the throttle its array's tasks agree on. |
| ClaimOutcomes.FitsBoundsExactly | storage/sqlite.go:1586-1619 | A job fits exactly if the numbers in its details procs, mem and walltime are within each positive bound. |
| ClaimOutcomes.FitsResourcesExactly | storage/sqlite.go:1636-1690 | What is required is every detail behind the prefix "resource.". |
| ClaimOutcomes.NumberIsMet | storage/sqlite.go:1636-1690 | A number is met by a supply that reaches it. |
| ClaimOutcomes.LabelsAreMet | storage/sqlite.go:1705-1729 | A label list is met exactly by a pool entry that lists every label asked for, not counting space around labels or empty ones. |
| ClaimOutcomes.EmptyNeedIsMet | storage/sqlite.go:1705-1710 | An empty value asks only that the name be advertised. |
| ClaimOutcomes.OwnSupply | storage/sqlite.go:1656-1673 | A count adds to the supply of its own name. |
| ClaimOutcomes.VariantSupply | storage/sqlite.go:1656-1673 | A count of "name:type" adds to the supply of the untyped name. |
| ClaimOutcomes.OtherSupply | storage/sqlite.go:1656-1673 | No other entry adds to it. |
| ClaimOutcomes.ThrottleExactly | storage/sqlite.go:1735-1777 | With array_throttle n in its details a task may run exactly while fewer than n tasks of the same array_id are RUNNING, or n is not positive. |
| Lifecycle.InsertKeepsValid | storage/sqlite.go:320-346 | An accepted insert keeps the invariant, adds only unclaimed jobs and changes no existing row. |
| Lifecycle.CancelKeepsValid | storage/sqlite.go:2005-2086 | Canceling a set that swallows its live dependents keeps the invariant. |
| Lifecycle.FailureKeepsValid | storage/sqlite.go:1961-2003 | Ending an active job unsuccessfully together with its cascade keeps the invariant. |
| Lifecycle.FinishKeepsValid | storage/sqlite.go:1922-1959 | Ending an active job in any end state keeps the invariant. |
| Lifecycle.ResolveKeepsValid | storage/sqlite.go:1139-1231 | A resolution pass keeps the invariant although validation and insertion are separate steps. |
| Lifecycle.ClaimKeepsValid | storage/sqlite.go:1550-1566 | Claiming queued unlocked jobs keeps the invariant. |
| Lifecycle.CleanupKeepsValid | storage/sqlite.go:2584-2608 | Cleaning up one job keeps the invariant, foreign keys included. |
| Lifecycle.StepKeepsValid | storage/sqlite.go:320-346 | Every transaction keeps the invariant, the strip by id alone included. |
| Lifecycle.EveryRunIsValid | storage/sqlite.go:122-130 | In every state any sequence of transactions reaches, unguarded strips of ids selected earlier included: every queued, running or handed-off job has only successful or handed-off parents, edges and locks belong to rows, and no unclaimed job is locked. |
| Origins.EveryRowWasValidated | storage/sqlite.go:320-346 | Every row ever stored was submitted in a batch all of whose parents were rows, neither CANCELED nor FAILED, when it was validated. |
| Runs.StepEvolves | storage/sqlite.go:1856-2135 | Every transaction moves each job along the state diagram, keeps owners and edges, locks exactly what it starts, and removes rows, edges or locks only of the jobs a cleanup names. |
| Runs.EndedAndOwnedForever | storage/sqlite.go:2026-2045 | Until it is itself cleaned up an ended job keeps its status and a lock its owner, whatever else happens. |
| Runs.LocksFollowTheDiagram | storage/sqlite.go:1550-1566 | In every run no cleanup of which names the job, it has a lock if it is running, handed off, successful or failed, and none if unclaimed. |
| Runs.ParentStays | storage/sqlite.go:1188-1192 | As long as a job is not cleaned up its parents stay; a successful one stays so, and a handed-off one never returns to the queue. |
| Selection.LocksHoldExactly | storage/sqlite.go:2325-2359 | Along any run every running or handed-off job stays locked exactly if no strip of selected ids meets one. |
| Selection.UnlessReinsertedLocked | storage/sqlite.go:2325-2359 | As long as only ended jobs are selected and no selected id is submitted again, selected jobs stay ended and active ones locked. |
| Selection.LiveSelectionUnlocks | service/service.go:1093-1121 | A run, with nothing submitted again, in which a selected running job loses its lock and then its row. |
| Selection.LiveSelectionPromotes | storage/sqlite.go:2325-2359 | A run in which a selected waiting job loses its edges and is queued while its parent has not run. |
| Selection.StaleSelectionUnlocks | storage/sqlite.go:2325-2359 | A run from the empty database to a RUNNING job without a lock. |
| Runs.NoClaimRace | storage/sqlite.go:1292-1312 | In every reachable state no queued job is locked, so the lost-race branch is never taken and a claim comes back empty only if nothing is admissible. |
| BatchReports.MoreEligibleExactly | storage/sqlite.go:1332-1454 | In every reachable state a batch claim reports more eligible work exactly if its scan passed over a fitting job of an array without indexed queued tasks. |
| BatchReports.IndexedRunsNeverReport | storage/sqlite.go:1332-1454 | In runs whose submits give an index with every array name, it is never reported. |
| BatchReports.StrayStarvesRunner | service/service.go:134-136 | A run after which every batch claim changes nothing and reports more eligible work. |
| Runs.ClaimIsFirstAdmissible | storage/sqlite.go:1235-1330 | In every reachable state a claim hands out j exactly if j is the first admissible queued job by priority, submit time and id. |
| Runs.UnproxiedRunsKeepParentsSucceeded | storage/sqlite.go:1188-1192 | In runs without handoff every job past the gate has only successful parents. |
| Runs.ClaimedJobsHaveSuccessfulAncestors | storage/sqlite.go:1235-1330 | In runs without handoff every transitive ancestor of a job ever claimed has succeeded. |
| Acyclicity.CycleIffSelfNamed | storage/sqlite.go:418-492 | An accepted row closes a dependency cycle exactly if it names itself. |
| Acyclicity.RunsStayAcyclic | storage/sqlite.go:387-400 | The graph is acyclic in every reachable state of a run in which no submit names itself. |
| Acyclicity.NoDeadlock | storage/sqlite.go:1139-1231 | Once resolution has settled in such a run, every waiting job waits for one that is queued, running or held. |
| Acyclicity.ValidationAloneAllowsSelfLoop | storage/sqlite.go:330-336 | A run in which a job comes to depend on itself between validation and insertion. |
| Throttles.ClaimAddsBelowThrottle | storage/sqlite.go:1735-1777 | A claim takes a task of a throttled array only while fewer than its throttle are running. |
| Throttles.ThrottleHolds | storage/sqlite.go:1246-1330 | In every run that claims one job at a time, at most N tasks of an array with throttle N are running. |
| Replay.MarkProxiedReplay | storage/sqlite.go:1856-1900 | Repeating an accepted handoff is accepted and changes nothing. |
| Replay.EndProxiedReplay | storage/sqlite.go:1978-1993 | Repeating the end of a handed-off job is accepted and changes nothing; a different end state is refused. |
| Replay.EndJobReplay | storage/sqlite.go:1922-1959 | Repeating the end of an owned job is refused and changes nothing. |
| Replay.InsertReplay | storage/sqlite.go:351-386 | Inserting the same nonempty batch again is refused and changes nothing. |
| RowOutcomes.ParentsChecked | storage/sqlite.go:389-400 | Validation accepts exactly parents that are rows and neither CANCELED nor FAILED. |
| RowOutcomes.RowAcceptedExactly | storage/sqlite.go:418-454 | A row is accepted exactly with a new id, no parent twice, and parents that are rows or the job itself. |
| RowOutcomes.InsertedRows | storage/sqlite.go:418-492 | Every submit of a stored batch is a new row as submitted: USERHOLD if held, QUEUED without parents, otherwise WAITING; no other row changes. |
| RowOutcomes.EndJobOutcome | storage/sqlite.go:1922-1959 | The owner's RUNNING job becomes SUCCESS exactly on exit code 0, otherwise FAILED with a sweep below it; for any other job nothing happens. |
| RowOutcomes.EndProxiedOutcome | storage/sqlite.go:1961-2003 | A PROXYQUEUED job gets the end state that was reported, with the same sweep. |
| RowOutcomes.MarkOutcome | storage/sqlite.go:1856-1900 | The owner's RUNNING or PROXYQUEUED job is PROXYQUEUED, keeps its lock, and its recorded details are replaced key by key. |
| RowOutcomes.UpdateOutcome | storage/sqlite.go:1902-1920 | The given keys are replaced or added, and nothing else changes. |
| RowOutcomes.HoldOutcome | storage/sqlite.go:2109-2120 | A QUEUED, WAITING or held job becomes USERHOLD; any other is left alone. |
| RowOutcomes.ReleaseOutcome | storage/sqlite.go:2122-2135 | A held job becomes WAITING; any other is left alone. |
| RowOutcomes.HoldThenRelease | storage/sqlite.go:2109-2135 | Held and released, a job waits to be resolved again. |
| RowOutcomes.AdjustOutcome | storage/sqlite.go:2196-2212 | The priority changes by exactly the delta, only before a claim. |
| RowOutcomes.CleanupOutcome | storage/sqlite.go:2584-2608 | Row, details, lock and recorded details go exactly if no other job depends on the job. |
| Handoff.OutlivedExactly | storage/sqlite.go:1188-1192 | In every reachable state a running locked job can, without being cleaned up, still succeed under an unsuccessful parent exactly if some parent is handed off now. |
| Handoff.SuccessMayOutliveParent | storage/sqlite.go:1188-1192 | A run from the empty database in which a successful job ends up with a failed parent. |
| Sqlite.FrontierStep | storage/sqlite.go:2051-2083 | One step of the breadth-first search keeps its invariant: everything seen is live and downstream, and only queued nodes may have unseen dependents. |
| Sqlite.SqliteStorage.ValidateDeps | storage/sqlite.go:389-400 | Accepts exactly if every parent exists and has neither failed nor been canceled. |
| Sqlite.SqliteStorage.InsertJobTx | storage/sqlite.go:418-492 | Adds exactly the job's row and edges, or refuses on a known id, a repeated parent or a missing parent. |
| Sqlite.SqliteStorage.InsertBatch | storage/sqlite.go:351-386 | All jobs of a batch or none. |
| Sqlite.SqliteStorage.ResolveDependencies | storage/sqlite.go:1139-1231 | Performs one pass over all pending jobs and reports exactly how many it queued and canceled. |
| Sqlite.SqliteStorage.CascadeCancel | storage/sqlite.go:2047-2086 | The loop terminates and cancels exactly the live fallout of its start. |
| Sqlite.SqliteStorage.CancelJob | storage/sqlite.go:2005-2024 | The new database is the cancel transaction applied to the old one. |
| Sqlite.SqliteStorage.CancelArray | storage/sqlite.go:2168-2194 | All members are canceled with their cascades, or nothing happens if there is none or one does not exist. |
| Sqlite.SqliteStorage.MarkJobProxied | storage/sqlite.go:1856-1900 | Hands off the owner's running job and merges its details, accepts a repeat, refuses anything else unchanged. |
| Sqlite.SqliteStorage.UpdateRunningDetails | storage/sqlite.go:1902-1920 | Merges the given details into an existing job's, and nothing else. |
| Sqlite.SqliteStorage.EndJob | storage/sqlite.go:1922-1959 | Ends the owner's running job, SUCCESS exactly on exit code 0, with no unfinished dependent left after a failure, or refuses unchanged. |
| Sqlite.SqliteStorage.EndProxiedJob | storage/sqlite.go:1961-2003 | Ends a handed-off job and cascades a failure, accepts a repeat, refuses unchanged otherwise. |
| Sqlite.SqliteStorage.HoldJob | storage/sqlite.go:2109-2120 | Holds a job that is not claimed, or refuses unchanged. |
| Sqlite.SqliteStorage.ReleaseJob | storage/sqlite.go:2122-2135 | Puts a held job back to waiting, or refuses unchanged. |
| Sqlite.SqliteStorage.AdjustJobPriority | storage/sqlite.go:2196-2212 | Adds the delta to an unclaimed job's priority, or refuses unchanged. |
| Sqlite.SqliteStorage.JobFitsLimits | storage/sqlite.go:1586-1619 | Whether the job's sizes stay within the bounds that are set. |
| Sqlite.SqliteStorage.CountSupply | storage/sqlite.go:1656-1673 | The advertised count of a resource, plus its typed variants for an untyped request, in any iteration order. |
| Sqlite.SqliteStorage.JobFitsResources | storage/sqlite.go:1636-1690 | Whether every required resource is supplied, by count or by label set. |
| Sqlite.SqliteStorage.JobArrayThrottleOk | storage/sqlite.go:1735-1777 | Whether the job's array is below its throttle. |
| Sqlite.SqliteStorage.ClaimNextJob | storage/sqlite.go:1235-1330 | Claims the job of highest priority, earliest submit time and smallest id that may be given, and nothing else; reports races and blocked jobs exactly. |
| Sqlite.SqliteStorage.ClaimArrayTasksTx | storage/sqlite.go:1467-1545 | Claims exactly the batch of one array and returns its throttle, or defers exactly if the gate says so; reports a race exactly if a candidate it tried was locked. |
| Sqlite.SqliteStorage.TryCandidate | storage/sqlite.go:1376-1450 | What one queued job yields: over the limits, a deferred array, nothing, or the whole batch. |
| Sqlite.SqliteStorage.ClaimNextArrayBatch | storage/sqlite.go:1332-1454 | Claims exactly what the first job in that order gives that leads to work; more eligible, blocked, deferred and the throttle are stated exactly in terms of the jobs passed over and the batch taken. |
| Sqlite.SqliteStorage.CleanupJob | storage/sqlite.go:2584-2608 | Strips and deletes the job's rows in one transaction, or leaves everything unchanged if another job refers to it. |
| DripFeed.DefersExactly | storage/sqlite.go:1500-1519 | A batch is held back exactly if the budget cuts the array short and whole arrays are wanted or the budget is below the minimum; never for a tail that fits. |
| DripFeed.BatchIsFirstTasks | storage/sqlite.go:1467-1545 | A batch is the first tasks of the array in index order, as many as the budget allows, or nothing. |
| DripFeed.BatchesPartition | storage/sqlite.go:1467-1545 | Successive batches under any budgets are consecutive pieces of the array in index order: none twice, none skipped. |
| DripFeed.BudgetRespectsCaps | runner/slurm.go:305-323 | A pass's budget is positive or unbounded and exceeds neither cap. |
| DripFeed.BudgetExactly | runner/slurm.go:305-323 | A pass stops exactly if the queue is full or no job is left; otherwise its budget is all that one of the caps leaves. |
| DripFeed.ClampExactly | runner/slurm.go:256-268 | The ceiling is the smaller cap that is set, and exactly a larger minimum is cut down to it. |
| DripFeed.FullBudgetIsCeiling | runner/slurm.go:256-268 | On an empty SLURM queue the first budget is the ceiling the clamp used. |
| DripFeed.ClampedNeverStarves | runner/slurm.go:256-268 | So such a pass never defers an array unless whole arrays are demanded and this one does not fit. |
| SlurmRunner.BatchWithinBudget | runner/slurm.go:328-337 | A claimed batch never exceeds a positive budget. |
| SlurmRunner.Runner.Budget | runner/slurm.go:305-323 | The budget from queue length and jobs left, or a stop. |
| SlurmRunner.Runner.SubmitBatch | runner/slurm.go:433-492 | Counts and charges exactly the tasks whose request arrives and finds them in the runner's hands, and none if sbatch fails. |
| SlurmRunner.Runner.Start | runner/slurm.go:270-385 | Whatever others do to the queue in between, a run with a cap records at most that many handoffs and its counter is exactly the rest; it ends early only if squeue fails, no task may be submitted, or a claim finds nothing. |
| SlurmDirective.AfterOkDirective | runner/slurm.go:1070-1170 | Refuses exactly if some parent is no row, CANCELED, FAILED, UNKNOWN, USERHOLD or WAITING, or in hand without a SLURM id; otherwise lists, without repetition, exactly the recorded ids, and nothing if all parents succeeded. |
| SlurmDirective.WholeExactly | runner/slurm.go:1137-1143 | An array is depended on as a whole exactly if the parents carry as many different indices as its size. |
| SlurmDirective.EmitGroup | runner/slurm.go:1137-1162 | One group adds its SLURM array ids if the whole array is depended on, and its element ids otherwise. |
| SlurmDirective.WholeListsAll | runner/slurm.go:1139-1143 | As many distinct indices as the array has tasks means every task of the array is among the parents. |
| SlurmDirective.CollapseKeepsMeaning | runner/slurm.go:1070-1170 | The collapsed directive waits for exactly the SLURM jobs that one id per parent would wait for. |
| SlurmDirective.NoUnfinishedParentDropped | runner/slurm.go:1080-1130 | Whatever happens while the parents of a job past the gate are read one after the other, each of them had succeeded when read or is named. |
| SlurmDirective.OnlyQueuedIsDropped | runner/slurm.go:1087-1101 | Of the unfinished parents that do not cause an error, exactly the QUEUED ones are not named. |
| SimpleRunner.CompletionKeepsBooks | runner/simple.go:861-876 | Removing a completed job by id and returning its reservation keeps the books balanced and only frees. |
| SimpleRunner.StartKeepsBooks | runner/simple.go:808-817 | Reserving for a job that fits keeps the books balanced. |
| SimpleRunner.LaunchReads | runner/simple.go:526-547 | A start reserves the numbers in the details procs and mem, and nothing for one that is missing. |
| SimpleRunner.StartThenComplete | runner/simple.go:808-876 | Completing gives back what starting reserved. |
| SimpleRunner.LooksForJob | runner/simple.go:394-411 | The loop looks for a job exactly while each maximum that is set is not used up, and without one exactly while nothing runs. |
| SimpleRunner.NeedReads | runner/simple.go:171-183 | What a job asks for of a resource is the positive number behind "resource.". |
| SimpleRunner.OfferReads | runner/simple.go:159-200 | Counts are offered less what runs and not below zero, everything else as advertised. |
| SimpleRunner.OfferFits | runner/simple.go:152-200 | A job that fitted the offered pool still fits its counted resources when it starts, whatever completed since. |
| SimpleRunner.VariantsNeverCharged | runner/simple.go:152-200 | Where typed variants are advertised, untyped requests are offered a variant's full count however many already run. |
| SimpleRunner.LegalStaysWithin | runner/simple.go:152-200 | After any sequence of claims and completions the books balance, and a resource that is typed, or has no variant with a positive count, is not overcommitted. |
| SimpleRunner.OvercommitExactly | runner/simple.go:394-432 | Some sequence of claims the loop makes brings the demand above all that is advertised, variants included, exactly if the resource is untyped, some variant has a positive count, and the runner may hold two jobs at once. |
| SimpleRunner.Runner.Complete | runner/simple.go:861-876 | The new state is the old one without the job and with its reservation returned. |
| SimpleRunner.Runner.StartJob | runner/simple.go:526-547 | Starts and reserves exactly if the sizes are well formed and the launch succeeds, and changes nothing otherwise. |
| SimpleRunner.Runner.AvailableResources | runner/simple.go:159-200 | Each count less the running demand and not below zero; labels unchanged. |
| SimpleRunner.Runner.Claim | runner/simple.go:394-432 | What a claim with stale snapshot limits brings still fits when it arrives. |
| SimpleRunner.Runner.Pass | runner/simple.go:365-440 | A pass asks the server if nobody wants to stop, jobs are left and there is room, and receives exactly what the server has for the limits it sends. |
| SimpleRunner.Runner.Start | runner/simple.go:394-460 | At every release of the lock available plus reserved equals each positive maximum, neither is negative, and no resource with a single pool is overcommitted; it ends early only when stopped with nothing running. |
| RunLimit.LimitExactly | runner/simple.go:394-440 | In every interleaving with a signal at most one job more than the limit is received, and that exactly when a claim is answered after the limit was used up, which needs a signal between the two reads. |
| RunLimit.SignalInWindow | runner/simple.go:412-417 | From inside that window a signal leads to the extra job. |
| RunLimit.ReadInWindow | runner/simple.go:412-417 | Without it the second read closes the loop and nothing more is ever received. |
| RunLimit.SomeRunExceeds | runner/simple.go:394-440 | Whatever the limit, some run exceeds it by one. |
| Removal.CycleBlocks | service/service.go:1156-1180 | Meeting a node that is on the stack means it cannot be removed. |
| Removal.Planner.CanRemove | service/service.go:1156-1180 | The memoised search answers exactly whether everything downstream is an acyclic set of candidates. |
| Removal.Planner.Add | service/service.go:1182-1198 | Post-order emission keeps dependents before parents. |
| Removal.PlanRemoval | service/service.go:1144-1208 | Terminates on any edges; returns exactly the removable candidates, each once, dependents first; emitted plus blocked is the number of candidates. |
| Removal.PlanIsClosed | service/service.go:1144-1208 | Every dependent of a planned job is planned. |
| Archive.RestoreFresh | storage/sqlite.go:2396-2466 | Restoring a batch of new jobs makes each complete and changes no other. |
| Archive.RestoreKeeps | storage/sqlite.go:2396-2466 | A row or detail that is already in the archive stays as it is; what is missing is added. |
| Archive.GoneMeans | storage/sqlite.go:2325-2359 | Removed jobs leave no row, child row or lock; all others are as they were. |
| Archive.OnlyEndedMove | service/service.go:945-950 | Only SUCCESS, FAILED and CANCELED jobs are moved. |
| Archive.DeleteIsPartial | storage/sqlite.go:2325-2359 | Once everything is stripped, any part may be deleted without breaking a foreign key. |
| Archive.Archiver.CleanupJobs | storage/sqlite.go:2325-2359 | Commits only partly cleaned states with no dangling edge; on success exactly the given jobs are gone. |
| Archive.Archiver.LoadJobs | storage/sqlite.go:2472-2548 | One complete record for each id that exists, in the order of the ids. |
| Archive.Archiver.MoveChunk | service/service.go:923-973 | At every commit of a chunk nothing is lost; on success exactly the chunk has moved. |
| Archive.Archiver.ArchiveOrdered | service/service.go:900-985 | At every commit or crash point every job is complete in one of the databases, unfinished ones untouched in the live one, and no live edge dangles; for every schedule of failing calls, which call stopped it, what is then left and what was counted, exactly; only ended jobs move, an unfinished one stops the run at its own chunk, and on success exactly the ids moved. |
| Archive.Archiver.CleanupCandidates | storage/sqlite.go:2260-2300 | Exactly the jobs in the given states, with an end time before the limit if one is given, and all edges into them. |
| Archive.PlannedIsRemovable | service/service.go:1144-1208 | The planner, which sees only the edges into candidates, removes exactly the jobs that pass the filter with everything that depends on them. |
| Archive.Archiver.Plan | service/service.go:1144-1208 | For any states: exactly those jobs, dependents first and closed under dependents, with planned plus blocked equal to the number of candidates. |
| Archive.Archiver.CleanupBulk | service/service.go:1078-1130 | For any states: with an archive no unfinished job is ever touched and the run is refused only if one is planned; otherwise it fails exactly on a failing call; on success exactly the planned jobs are gone, an unfinished one was touched exactly if no archive was asked for and one was planned, and removed plus blocked is matched. |
| Archive.TouchesUnfinishedExactly | service/service.go:1093-1121 | A bulk cleanup that goes through touches an unfinished job exactly if no archive was asked for and one is planned. |
| Archive.RunningJobDeleted | server/handlers.go:421-449 | Asked for RUNNING, it removes a running job's row and lock. |
| Archive.LostOnErrorExactly | service/service.go:965-978 | When an error return drops the archive, a job is incomplete in both databases exactly if the failing call was the delete of its chunk and it had child rows. |
| Archive.LosingRun | service/service.go:965-978 | A run of the archiver whose fifth call fails, after which a job's details are in neither database. |
| Shadow.DeleteShadows | storage/sqlite.go:2325-2359 | Strip and delete are the same transaction in both models: allowed together, with corresponding results. |
| Hydration.GroupedIsFetched | storage/sqlite.go:592-600 | One job's rows in a grouped result are, in order, what its own query returns. |
| Hydration.FetchedAscends | storage/sqlite.go:592-600 | A fetched list is ascending in its key and holds exactly the job's rows. |
| Hydration.JobDef.LoadRelations | storage/sqlite.go:548-579 | The per-job path: every relation complete, three of them ordered. |
| Hydration.BatchFetchInto | storage/sqlite.go:699-730 | Whatever the chunk boundaries, every job gets what its own query returns and other relations stay. |
| Hydration.BatchHydrate | storage/sqlite.go:601-693 | Every distinct job ends up with every relation as its own ordered query returns it, whatever it held before. |
| Hydration.PathsAgree | storage/sqlite.go:592-600 | Equal lists where the per-job query is ordered, equal entries everywhere. |
| Drain.StatementAgrees | server/server.go:451-483 | Each statement of shutdown keeps the flags consistent with the mutex holder's position. |
| Drain.RunsKeepInv | server/server.go:451-483 | The handshake invariant holds in every interleaving of requests and triggers. |
| Drain.NoHandlerAfterClose | server/server.go:562-587 | Unless a busy drain ran out of time, no handler ever meets a closed database. |
| Drain.HandlerBreaksExactly | server/server.go:451-483 | From a committed shutdown with the database open, some continuation lets a handler meet a closed database exactly if one is running now. |
| Drain.IdleCommitSilences | server/server.go:451-483 | After a commit that saw nothing in flight no admitted handler runs, and the socket is gone only after the database. |
| Drain.RejectedDidNothing | server/server.go:573-579 | A rejected request never used the database. |
| Drain.AbortReopens | server/server.go:461-465 | With the mutex free, draining says exactly that a shutdown has committed, and then the database is closed. |
| Drain.IdleDecides | server/server.go:451-466 | An idle trigger commits exactly if it read nothing in flight; otherwise it returns with draining cleared and nothing else changed. |
| Drain.IdleCullGivesWay | server/server.go:461-466 | One that enters while a request is in flight gives up with the database open, and a request that has announced itself is then admitted. |
| Drain.IdleRunsNeverBusy | server/server.go:451-483 | Where only the idle monitor asks, no commit is ever busy and no handler meets a closed database. |
| Drain.OthersCommit | server/server.go:467-483 | Any other trigger commits: busy, it stops the listener, waits for handlers or the end of its time, and then closes the database; idle, it closes the database first. |
| Drain.CommittedForever | server/server.go:451-483 | After a commit draining is never cleared, the path never changes, and the database is closed at most once. |
| Drain.SocketOutlivesDatabase | server/server.go:415-432 | The socket is given up only after the database unless a commit was busy or accepting failed. |
| Drain.SocketFirstExactly | server/server.go:415-432 | From a committed shutdown with the database open, some continuation with a working listener gives up the socket first exactly if the commit was busy or accepting had failed. |
| Drain.BusyShutdownMayUnlinkFirst | server/server.go:223-224 | A run in which a busy shutdown gives up the socket first. |
| Drain.TimedOutDrainMayBreakHandlers | server/server.go:471-474 | A run in which a handler meets a closed database. |
| Retry.Server.SubmitJob | service/service.go:89-156 | At most one job comes of a submission even if other copies land, or jobs are cleaned up, between the lookup and the insert; with an id, at most one more than cleanups of it; it fails only for an invalid request, a bad database, or a new id that is taken. |
| Retry.Client.DoOnce | client/client.go:371-435 | One exchange under any fate keeps that bound; with a client id, one that arrives, is valid and meets a working database is accepted; after an error the client retries without an id, nothing was created and nothing is on its way. |
| Retry.Client.DoRetry | client/client.go:297-325 | At most four sends, one if retrying needs a respawn the client cannot do; it gives up earlier only on an accepted request, a canceled context, or an error that is final; with a client id it fails only if none of its sends went through. |
| Retry.FinalExactly | client/client.go:331-358 | Final are a broken exchange and, with a client id, any answer below 500; without one also timeouts and every answer but a draining 503. |
| Retry.Client.SubmitJob | client/client.go:571-584 | Under every sequence of outcomes at most one job ever comes of a submit without id, late copies included, and with an id at most one more than cleanups of it; a success names the job, and with an id it fails only if none of its sends went through. |
| Retry.LandingIsSafe | service/service.go:97-109 | A copy that arrives late never breaks that bound. |
| Retry.CleanupAllowsAnother | service/service.go:97-109 | A late copy of a submit whose job was cleaned up creates it again, so the bound is met. |
| Retry.AnotherComesExactly | client/client.go:297-325 | With a client id, some continuation creates a job once more exactly if a copy is on its way or the client may still send. |
| Expansion.AddressReads | support/taskaddr.go:12-22 | A printed task address is read back as its array id and index. |
| Expansion.KindReads | service/service.go:169-183 | Both kinds of entries are read back. |
| Expansion.ResolveTarget | service/service.go:207-226 | A task address gives exactly one member of that index, an array the ids of all its members in order, any other name itself. |
| Expansion.RefusedExactly | service/service.go:258-344 | When an entry is a bad request: an unknown task, aftercorr on a task or on no array, a different size, or an index without a member. |
| Expansion.WaitsForAll | service/service.go:246-249 | Whoever has the entries for parents waits for every member of every array named with afterok. |
| Expansion.ExpandSingleDeps | service/service.go:231-253 | Refused exactly for aftercorr or an unknown task; otherwise the parents of all entries in order, every member of every named array among them. |
| Expansion.ExpandArrayDeps | service/service.go:258-344 | Refused exactly if some entry is; otherwise each task gets, in order, what each entry gives it, once for every time its index is listed. |
| Expansion.AfterCorrMatches | service/service.go:318-339 | On distinct indices aftercorr is accepted exactly if the parent array has one task for each index and no other. |
| Expansion.AfterCorrParent | service/service.go:326-339 | Then each task's parent is the only member with its index. |
| Expansion.StoredIndicesAreDistinct | storage/sqlite.go:447-454 | An array submit with dependency entries is stored only if its indices are distinct: a repeated index repeats an edge. |
| Expansion.StoredAfterCorrMatches | service/service.go:318-339 | So a stored array with an aftercorr entry has exactly the indices of the parent array. |
| Expansion.SubmitArray | service/service.go:350-430 | Refused exactly for a missing script, no indices, or an entry that is malformed or cannot be expanded; otherwise validated and inserted as a whole, one row for each index with its own and its expanded parents, and what is stored pairs with its aftercorr arrays index by index. |
| Expansion.TaskReads | service/service.go:374-410 | A stored task carries hold, priority and time as asked for, and array id, index, size and throttle under the keys the claims read, and those claims read them back. |
| ArraySpec.ProgressionExactly | jobs/arrayspec.go:81-85 | The loop over a term adds exactly lo, lo + step, ... up to hi, and adds no negative index, exactly if the step past hi stays in the 64-bit range; then it ends. |
| ArraySpec.AddTerm | jobs/arrayspec.go:48-85 | One term adds exactly what its wrapping loop visits, up to the cap; endless exactly if the loop never passes hi. |
| ArraySpec.ParseArraySpec | jobs/arrayspec.go:31-93 | Accepts exactly what specifies something, with the ascending union of the terms' indices; otherwise says why and where, or that the loop never ends. |
| ArraySpec.CapExactly | jobs/arrayspec.go:10-15 | A plain range of n indices gives n tasks and is accepted exactly up to 100000. |
| ArraySpec.BadTerms | jobs/arrayspec.go:58-80 | A range that runs backwards, a step that is not positive and an empty term are malformed. |
| ArraySpec.ThrottleReads | jobs/arrayspec.go:36-47 | Behind the last percent sign stands the throttle, which must be positive. |
| ArraySpec.NegativeIndicesAccepted | jobs/arrayspec.go:81-85 | A specification that is accepted with two negative indices. |
| ArraySpec.EndlessTerm | jobs/arrayspec.go:81-85 | A specification over which the parser never returns. |
| ArraySpec.JoinIntList | runner/slurm.go:1172-1179 | The comma-separated numerals. |
| ArraySpec.PrintedSpecifies | runner/slurm.go:881-885 | A printed list with throttle specifies the same indices and throttle exactly if it does not contain the largest int. |
| ArraySpec.PrintAndParse | jobs/arrayspec.go:31-93 | Parsing what was printed gives back the list and the throttle. |
| Walltime.SlurmSecsToWalltime | runner/slurm.go:1378-1395 | The spelling of a number of seconds, with days or without. |
| Walltime.SpelledText | runner/slurm.go:1378-1395 | Hours, minutes and seconds without padding, behind the days if there are any. |
| Walltime.SpelledNegative | runner/slurm.go:1378-1395 | A negative number carries its sign on every part, and its days are dropped. |
| Walltime.ParseWalltimeString | jobs/jobdef.go:438-497 | The meaning of a wall time text, -1 if it cannot be read. |
| Walltime.ClockPartsRead | jobs/jobdef.go:454-480 | Two or more parts are read from the right; a missing hour or minute is 0, missing seconds are -1, and one unreadable part spoils all. |
| Walltime.SecondsAlone | jobs/jobdef.go:481-488 | A number alone is seconds. |
| Walltime.MinutesAndSeconds | jobs/jobdef.go:454-480 | Two numbers are minutes and seconds. |
| Walltime.DaysWrapAround | jobs/jobdef.go:489-495 | Days that do not fit wrap around in 64 bits. |
| Walltime.NonNegativeRoundTrip | runner/slurm.go:1378-1395 | Every number of seconds from zero up is read back from its spelling. |
| Walltime.NegativeReads | jobs/jobdef.go:438-497 | Whole negative days are read back as zero, other negative numbers as unreadable. |
| Walltime.RoundTrip | jobs/jobdef.go:438-497 | The spelling is read back exactly from -1 up. |

## Left out

* SQL text, drivers, journal modes, connection recovery, vacuum and backup: tables are maps and sets, a transaction is one
  step, and a failed transaction leaves the store unchanged.
* HTTP, JSON, authentication, peer credentials, logging, web pages and the command line.
* Names, notes, return codes, file paths, script bodies, the kind column and real time: they do not affect scheduling. The
  archive model keeps all columns and child rows except locks, which are never archived.
* Holding, releasing and re-prioritising whole arrays: they would only repeat the single-job operations.
* Tasks of one array with equal indices, which an array submit without dependencies may have, are claimed in id order; the
  source leaves their order to the database.
* The overflow of counters and priorities in the queue; the parsers do model 64-bit range.
* The case-insensitive matching of `LIKE` for resource keys.
* Orphan recovery, whose safety rests on wall-clock age.
* Electing a server and respawning one.
* Any request that carries the server's own ownership header bypasses the drain gate, on every route. The server itself
  sends only health probes that way, which do not use the database; another client that does so is not modelled.
* Submits and other requests that arrive while an archive run is under way, in the archive model; the state machine does
  interleave the strip and delete transactions with everything else.
- SimpleRunner.Runner.Start: assumes the server hands out no job twice, which the queue guarantees until a cleanup.
- SlurmDirective.CollapseKeepsMeaning: assumes that SLURM array ids hold no underscore and that each task was submitted once,
  as the runner does; the order of the ids is not stated, since SLURM ignores it.
- SlurmRunner.Runner.Start: counts recorded handoffs; tasks that SLURM accepted but could not be recorded are not counted, as in
  the source.
- Expansion.ExpandArrayDeps: reads each array once, from one state, and leaves storage errors out.
- Expansion.SubmitArray: leaves out the array id a retry brings along, under which the stored array would be answered. A
  client detail under one of the keys the service adds is taken to be refused by the table, whose key it repeats.
- SimpleRunner.OvercommitExactly: with a job limit, takes the advertised total to fit an int, as the source's sum must.
- Retry.Client.DoOnce: that a request refused at the door did no work is what the server's drain gate guarantees
  (`Drain.RejectedDidNothing`); here it is the branch of the transport.
- Hydration.BatchHydrate: requires distinct jobs, as the listings it is called on are; of two copies of a job one would
  stay empty.
