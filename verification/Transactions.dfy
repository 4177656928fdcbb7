/** Every database transaction as a function on the whole store; a failed transaction leaves it unchanged. */
module Transactions {
  import opened Collections
  import opened Jobs
  import opened Claims
  import Cascade

  /** A job on its way in. afterOk keeps the caller's list, duplicates included. */
  datatype Submit = Submit(id: Id, afterOk: seq<Id>, hold: bool, priority: int, time: int, details: map<string, string>)

  /** The least a submit must bring. */
  const SCRIPT: map<string, string> := map["script" := "true"]

  // ----- Submission --------------------------------------------------------

  /** validateDeps: every parent exists and has not failed or been canceled. */
  predicate DepsValid(m: JobTable, afterOk: seq<Id>) {
    forall i :: 0 <= i < |afterOk| ==> afterOk[i] in m && !m[afterOk[i]].status.Fatal()
  }

  function InitialStatus(job: Submit): Status {
    if job.hold then UserHold else if job.afterOk == [] then Queued else Waiting
  }

  /** What the table constraints accept: a new id, no edge twice, every parent a row once the job's own row is in. */
  predicate RowAccepted(m: JobTable, job: Submit) {
    && job.id !in m
    && (forall i, j :: 0 <= i < j < |job.afterOk| ==> job.afterOk[i] != job.afterOk[j])
    && (forall i :: 0 <= i < |job.afterOk| ==> job.afterOk[i] in m || job.afterOk[i] == job.id)
  }

  function Row(job: Submit): Job {
    Job(InitialStatus(job), job.priority, job.time, Elements(job.afterOk), job.details)
  }

  /** insertJobTx for each job of a batch, in one transaction. */
  function InsertRows(m: JobTable, batch: seq<Submit>): Option<JobTable> {
    if batch == [] then Some(m) else
      match InsertRows(m, batch[..|batch| - 1])
      case None => None
      case Some(n) =>
        var job := batch[|batch| - 1];
        if RowAccepted(n, job) then Some(n[job.id := Row(job)]) else None
  }

  function Insert(s: Store, batch: seq<Submit>): Store {
    match InsertRows(s.jobs, batch) case Some(m) => s.(jobs := m) case None => s
  }

  // ----- Runner transitions ------------------------------------------------

  predicate Owns(s: Store, j: Id, runner: string) { j in s.claims && s.claims[j] == runner }

  function Merge(s: Store, j: Id, details: map<string, string>): Store {
    s.(running := s.running[j := (if j in s.running then s.running[j] else map[]) + details])
  }

  /** MarkJobProxied succeeds on the owner's RUNNING job, and again on the PROXYQUEUED job it left. */
  predicate ProxyAccepted(s: Store, j: Id, runner: string) {
    Owns(s, j, runner) && j in s.jobs && (s.jobs[j].status == Running || s.jobs[j].status == ProxyQueued)
  }

  function MarkProxied(s: Store, j: Id, runner: string, details: map<string, string>): Store {
    if ProxyAccepted(s, j, runner)
    then Merge(s.(jobs := SetStatus(s.jobs, {j}, ProxyQueued)), j, details)
    else s
  }

  function UpdateDetails(s: Store, j: Id, details: map<string, string>): Store {
    if details == map[] || j !in s.jobs then s else Merge(s, j, details)
  }

  predicate EndAccepted(s: Store, j: Id, runner: string) {
    Owns(s, j, runner) && j in s.jobs && s.jobs[j].status == Running
  }

  /** End a job; on anything but success, cancel what depends on it. */
  ghost function Finish(m: JobTable, j: Id, st: Status): JobTable {
    var n := SetStatus(m, {j}, st);
    if st == Success then n else Cascade.CascadeFrom(n, j)
  }

  ghost function EndJob(s: Store, j: Id, runner: string, code: int): Store {
    if EndAccepted(s, j, runner)
    then s.(jobs := Finish(s.jobs, j, if code == 0 then Success else Failed))
    else s
  }

  /** The handler admits only end states; storage then wants PROXYQUEUED, or the same end state again. */
  predicate EndProxiedAccepted(s: Store, j: Id, st: Status) {
    !st.Live() && j in s.jobs && (s.jobs[j].status == ProxyQueued || s.jobs[j].status == st)
  }

  ghost function EndProxied(s: Store, j: Id, st: Status): Store {
    if EndProxiedAccepted(s, j, st) && s.jobs[j].status == ProxyQueued
    then s.(jobs := Finish(s.jobs, j, st))
    else s
  }

  // ----- User actions ------------------------------------------------------

  ghost function CancelJob(s: Store, j: Id): Store {
    if j in s.jobs then s.(jobs := Cascade.CancelWithCascade(s.jobs, j)) else s
  }

  ghost function CancelArray(s: Store, ids: seq<Id>): Store {
    if Elements(ids) <= s.jobs.Keys then s.(jobs := Cascade.CancelEach(s.jobs, ids)) else s
  }

  predicate Holdable(st: Status) { st == Queued || st == Waiting || st == UserHold }

  function Hold(s: Store, j: Id): Store {
    if j in s.jobs && Holdable(s.jobs[j].status) then s.(jobs := SetStatus(s.jobs, {j}, UserHold)) else s
  }

  function Release(s: Store, j: Id): Store {
    if j in s.jobs && s.jobs[j].status == UserHold then s.(jobs := SetStatus(s.jobs, {j}, Waiting)) else s
  }

  function AdjustPriority(s: Store, j: Id, delta: int): Store {
    if j in s.jobs && Holdable(s.jobs[j].status)
    then s.(jobs := s.jobs[j := s.jobs[j].(priority := s.jobs[j].priority + delta)])
    else s
  }

  // ----- Cleanup -----------------------------------------------------------

  /** Delete every child row of the given jobs: edges, details, lock and running details. */
  function Strip(s: Store, ids: set<Id>): Store {
    Store(map j | j in s.jobs :: if j in ids then s.jobs[j].(afterOk := {}, details := map[]) else s.jobs[j],
          s.claims - ids, s.running - ids)
  }

  /** The foreign keys let the job rows go: no child row and no edge of another job refers to them. */
  predicate Deletable(s: Store, ids: set<Id>) {
    && (forall j :: j in ids && j in s.jobs ==>
          s.jobs[j].afterOk == {} && s.jobs[j].details == map[] && j !in s.claims && j !in s.running)
    && (forall j :: j in s.jobs && j !in ids ==> forall p :: p in s.jobs[j].afterOk ==> p !in ids)
  }

  function Delete(s: Store, ids: set<Id>): Store {
    if Deletable(s, ids) then s.(jobs := s.jobs - ids) else s
  }

  /** CleanupJob: strip and delete in one transaction, or nothing. */
  function Cleanup(s: Store, j: Id): Store {
    var n := Strip(s, {j});
    if Deletable(n, {j}) then Delete(n, {j}) else s
  }
}
