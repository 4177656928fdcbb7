/** The queue as a state machine: what holds in every state any sequence of transactions can reach. */
module Lifecycle {
  import opened Collections
  import opened Jobs
  import opened Claims
  import opened Transactions
  import Cascade
  import Resolve

  /** The database, the submissions that have passed validateDeps but are not inserted yet, and the ids a bulk cleanup
      or archiving run has once read as ended. */
  datatype Server = Server(db: Store, validated: set<seq<Submit>>, selected: set<Id>)

  /** One transaction, or a read that precedes one: validation before an insert, selection before a strip. */
  datatype Op =
    | Validate(batch: seq<Submit>)
    | InsertBatch(batch: seq<Submit>)
    | ResolvePass(order: seq<Id>)
    | ClaimNextJob(runner: string, limits: Limits)
    | ClaimNextArrayBatch(runner: string, limits: Limits, gate: Gate)
    | MarkJobProxied(job: Id, runner: string, details: map<string, string>)
    | UpdateRunningDetails(job: Id, details: map<string, string>)
    | EndOwnJob(job: Id, runner: string, code: int)
    | EndProxiedJob(job: Id, status: Status)
    | CancelOneJob(job: Id)
    | CancelMembers(members: seq<Id>)
    | HoldJob(job: Id)
    | ReleaseJob(job: Id)
    | Reprioritize(job: Id, delta: int)
    | CleanupJob(job: Id)
    | Select(ids: set<Id>)
    | StripRows(ids: set<Id>)
    | DeleteRows(ids: set<Id>)

  /** The effect of one op on the database. */
  ghost function ApplyDb(s: Store, op: Op): Store {
    match op
    case Validate(_) => s
    case InsertBatch(batch) => Insert(s, batch)
    case ResolvePass(order) => s.(jobs := Resolve.Pass(s.jobs, order))
    case ClaimNextJob(runner, limits) => ClaimNext(s, runner, limits)
    case ClaimNextArrayBatch(runner, limits, gate) => ClaimBatch(s, runner, limits, gate)
    case MarkJobProxied(j, runner, details) => MarkProxied(s, j, runner, details)
    case UpdateRunningDetails(j, details) => UpdateDetails(s, j, details)
    case EndOwnJob(j, runner, code) => EndJob(s, j, runner, code)
    case EndProxiedJob(j, st) => EndProxied(s, j, st)
    case CancelOneJob(j) => CancelJob(s, j)
    case CancelMembers(members) => CancelArray(s, members)
    case HoldJob(j) => Hold(s, j)
    case ReleaseJob(j) => Release(s, j)
    case Reprioritize(j, delta) => AdjustPriority(s, j, delta)
    case CleanupJob(j) => Cleanup(s, j)
    case Select(_) => s
    case StripRows(ids) => Strip(s, ids)
    case DeleteRows(ids) => Delete(s, ids)
  }

  ghost function Apply(s: Server, op: Op): Server {
    match op
    case Validate(batch) =>
      if forall i :: 0 <= i < |batch| ==> DepsValid(s.db.jobs, batch[i].afterOk)
      then s.(validated := s.validated + {batch}) else s
    case InsertBatch(batch) =>
      if batch in s.validated then s.(db := ApplyDb(s.db, op), validated := s.validated - {batch}) else s
    case Select(ids) => s.(selected := s.selected + ids)
    case StripRows(ids) => if ids <= s.selected then s.(db := ApplyDb(s.db, op)) else s
    case _ => s.(db := ApplyDb(s.db, op))
  }

  const EMPTY := Server(Store(map[], map[], map[]), {}, {})

  ghost function RunFrom(s: Server, ops: seq<Op>): Server {
    if ops == [] then s else Apply(RunFrom(s, ops[..|ops| - 1]), ops[|ops| - 1])
  }

  /** The state a fresh server reaches after ops. */
  ghost function Run(ops: seq<Op>): Server { RunFrom(EMPTY, ops) }

  lemma RunSnoc(ops: seq<Op>, op: Op)
    ensures Run(ops + [op]) == Apply(Run(ops), op)
  {
    assert (ops + [op])[..|ops|] == ops;
  }

  lemma {:induction false} RunAppend(before: seq<Op>, more: seq<Op>)
    ensures Run(before + more) == RunFrom(Run(before), more)
  {
    if more == [] {
      assert before + more == before;
    } else {
      RunAppend(before, more[..|more| - 1]);
      RunSnoc(before + more[..|more| - 1], more[|more| - 1]);
      assert before + more == before + more[..|more| - 1] + [more[|more| - 1]];
    }
  }

  // ----- The invariant -----------------------------------------------------

  /** Every job past the dependency gate has only met parents. */
  ghost predicate DependencySafe(m: JobTable) {
    forall j, p :: j in m && m[j].status.Released() && p in m[j].afterOk && p in m ==> m[p].status.Met()
  }

  /** Lock rows and running details belong to jobs, and no unclaimed job is locked. */
  ghost predicate LocksMatch(s: Store) {
    && (forall j :: j in s.claims ==> j in s.jobs)
    && (forall j :: j in s.running ==> j in s.jobs)
    && (forall j :: j in s.claims ==> !s.jobs[j].status.Unclaimed())
  }

  ghost predicate Valid(s: Store) {
    && ParentsExist(s.jobs)
    && DependencySafe(s.jobs)
    && LocksMatch(s)
    && (forall j :: j in s.jobs ==> s.jobs[j].status != Unknown)
  }

  // ----- Each transaction keeps it -----------------------------------------

  lemma {:induction false} InsertKeepsValid(s: Store, batch: seq<Submit>)
    requires Valid(s)
    ensures InsertRows(s.jobs, batch).Some? ==>
      var n := InsertRows(s.jobs, batch).value;
      && Valid(s.(jobs := n)) && s.jobs.Keys <= n.Keys
      && (forall j :: j in s.jobs ==> n[j] == s.jobs[j])
      && (forall j :: j in n && j !in s.jobs ==> n[j].status.Unclaimed())
  {
    if batch != [] && InsertRows(s.jobs, batch).Some? {
      var init, job := batch[..|batch| - 1], batch[|batch| - 1];
      InsertKeepsValid(s, init);
      var m := InsertRows(s.jobs, init).value;
      InsertRowKeepsValid(s.(jobs := m), job);
    }
  }

  lemma InsertRowKeepsValid(s: Store, job: Submit)
    requires Valid(s) && RowAccepted(s.jobs, job)
    ensures Valid(s.(jobs := s.jobs[job.id := Row(job)]))
  {
    var n := s.jobs[job.id := Row(job)];
    assert Row(job).status.Released() ==> Row(job).afterOk == {};
    forall j, p | j in n && n[j].status.Released() && p in n[j].afterOk && p in n ensures n[p].status.Met() {
      assert j != job.id && p in s.jobs;
    }
  }

  /** Canceling a set that swallows its dependents keeps the invariant:
      no released job is left under a canceled parent. */
  lemma CancelKeepsValid(s: Store, d: set<Id>)
    requires Valid(s) && Cascade.Swallows(s.jobs, {}, d)
    ensures Valid(s.(jobs := SetStatus(s.jobs, d, Canceled)))
  {
    var n := SetStatus(s.jobs, d, Canceled);
    forall j, p | j in n && n[j].status.Released() && p in n[j].afterOk && p in n ensures n[p].status.Met() {
      assert n[j] == s.jobs[j];
      assert p !in d;
    }
  }

  /** o is m with j ended in a failure and the set d below it canceled. */
  ghost predicate FailedWith(m: JobTable, o: JobTable, j: Id, st: Status, d: set<Id>) {
    && o.Keys == m.Keys && j in m && j !in d
    && o[j] == m[j].(status := st)
    && (forall k :: k in m && k != j ==> o[k] == if k in d then m[k].(status := Canceled) else m[k])
    && (forall k :: k in d && k in m ==> m[k].status.Live())
    && (forall p, c :: (p == j || p in d) && c in m && c != j && m[c].status.Live() && p in m[c].afterOk ==> c in d)
  }

  lemma FinishFails(m: JobTable, j: Id, st: Status) returns (d: set<Id>)
    requires j in m && st.Fatal()
    ensures FailedWith(m, Finish(m, j, st), j, st, d)
  {
    var n := SetStatus(m, {j}, st);
    Cascade.CascadeFromEnded(n, j);
    Cascade.DoomedSwallows(n, {j});
    d := Cascade.Doomed(n, {j});
    assert n[j] == m[j].(status := st) && j !in d;
    assert forall k :: k in n && k != j ==> n[k] == m[k];
  }

  /** Ending an active job keeps the invariant, because failure takes its dependents down with it. */
  lemma FailureKeepsValid(s: Store, o: JobTable, j: Id, st: Status, d: set<Id>)
    requires Valid(s) && FailedWith(s.jobs, o, j, st, d)
    requires s.jobs[j].status.Active() && st.Fatal()
    ensures Valid(s.(jobs := o))
  {
    FailureKeepsSafe(s, o, j, st, d);
    FailureKeepsLocks(s, o, j, st, d);
    hide DependencySafe, LocksMatch;
  }

  lemma FailureKeepsSafe(s: Store, o: JobTable, j: Id, st: Status, d: set<Id>)
    requires DependencySafe(s.jobs) && FailedWith(s.jobs, o, j, st, d)
    requires s.jobs[j].status.Active() && st.Fatal()
    ensures DependencySafe(o)
  {
    forall k, p | k in o && o[k].status.Released() && p in o[k].afterOk && p in o ensures o[p].status.Met() {
      assert k != j && o[k] == s.jobs[k];
      assert p != j && p !in d;
    }
  }

  lemma FailureKeepsLocks(s: Store, o: JobTable, j: Id, st: Status, d: set<Id>)
    requires LocksMatch(s) && FailedWith(s.jobs, o, j, st, d) && st.Fatal()
    ensures LocksMatch(s.(jobs := o))
  {}

  lemma FinishKeepsValid(s: Store, j: Id, st: Status)
    requires Valid(s) && j in s.jobs && s.jobs[j].status.Active() && !st.Live()
    ensures Valid(s.(jobs := Finish(s.jobs, j, st)))
  {
    if st == Success {
      RelabelKeepsValid(s, j, st);
    } else {
      var d := FinishFails(s.jobs, j, st);
      FailureKeepsValid(s, Finish(s.jobs, j, st), j, st, d);
    }
  }

  lemma ResolveKeepsValid(s: Store, order: seq<Id>)
    requires Valid(s)
    ensures Valid(s.(jobs := Resolve.Pass(s.jobs, order)))
  {
    var m, n := s.jobs, Resolve.Pass(s.jobs, order);
    Resolve.PassDecides(m, order);
    forall j | j in n ensures n[j].afterOk == m[j].afterOk && (n[j].status.Met() <==> m[j].status.Met()) {
      Resolve.DecidedKeepsMet(m, n, j);
    }
    forall j, p | j in n && n[j].status.Released() && p in n[j].afterOk && p in n ensures n[p].status.Met() {
      if m[j].status.Pending() {
        Resolve.PassPromotesExactly(m, order, j);
        assert j in Resolve.Promotable(m);
      }
      assert m[p].status.Met();
    }
  }

  lemma ClaimKeepsValid(s: Store, ids: set<Id>, runner: string)
    requires Valid(s) && ids <= WithStatus(s.jobs, Queued)
    ensures Valid(Claim(s, ids, runner))
  {
    var n := SetStatus(s.jobs, ids, Running);
    forall j, p | j in n && n[j].status.Released() && p in n[j].afterOk && p in n ensures n[p].status.Met() {
      assert s.jobs[j].status.Released();
    }
  }

  /** A status change between two unmet or two met statuses cannot hurt a dependent. */
  lemma RelabelKeepsValid(s: Store, j: Id, st: Status)
    requires Valid(s) && j in s.jobs && st != Unknown
    requires s.jobs[j].status.Met() ==> st.Met()
    requires st.Released() ==> s.jobs[j].status.Released()
    requires j in s.claims ==> !st.Unclaimed()
    ensures Valid(s.(jobs := SetStatus(s.jobs, {j}, st)))
  {
    var n := SetStatus(s.jobs, {j}, st);
    assert forall k :: k in n && k != j ==> n[k] == s.jobs[k];
    assert n[j] == s.jobs[j].(status := st);
    assert DependencySafe(n) by {
      forall k, p | k in n && n[k].status.Released() && p in n[k].afterOk && p in n ensures n[p].status.Met() {
        assert s.jobs[k].status.Released() && s.jobs[p].status.Met();
      }
    }
    assert LocksMatch(s.(jobs := n));
  }

  lemma StripKeepsValid(s: Store, ids: set<Id>)
    requires Valid(s)
    ensures Valid(Strip(s, ids))
  {
  }

  lemma DeleteKeepsValid(s: Store, ids: set<Id>)
    requires Valid(s)
    ensures Valid(Delete(s, ids))
  {
  }

  lemma CleanupKeepsValid(s: Store, j: Id)
    requires Valid(s)
    ensures Valid(Cleanup(s, j))
  {
  }

  lemma HoldKeepsValid(s: Store, j: Id)
    requires Valid(s)
    ensures Valid(Hold(s, j))
  {
    if j in s.jobs && Holdable(s.jobs[j].status) { RelabelKeepsValid(s, j, UserHold); }
  }

  lemma ReleaseKeepsValid(s: Store, j: Id)
    requires Valid(s)
    ensures Valid(Release(s, j))
  {
    if j in s.jobs && s.jobs[j].status == UserHold { RelabelKeepsValid(s, j, Waiting); }
  }

  lemma UserStepKeepsValid(s: Store, op: Op)
    requires Valid(s)
    requires op.CancelOneJob? || op.CancelMembers? || op.HoldJob? || op.ReleaseJob? || op.Reprioritize?
    ensures Valid(ApplyDb(s, op))
  {
    hide Valid;
    match op
    case CancelOneJob(j) =>
      Cascade.CancelDoomsExactly(s.jobs, j);
      Cascade.DoomedSwallows(s.jobs, {j});
      CancelKeepsValid(s, Cascade.Doomed(s.jobs, {j}));
    case CancelMembers(members) =>
      Cascade.CancelEachDoomsExactly(s.jobs, members);
      Cascade.DoomedSwallows(s.jobs, Elements(members));
      CancelKeepsValid(s, Cascade.Doomed(s.jobs, Elements(members)));
    case HoldJob(j) => HoldKeepsValid(s, j);
    case ReleaseJob(j) => ReleaseKeepsValid(s, j);
    case Reprioritize(_, _) => RepriorityKeepsValid(s, op);
  }

  lemma MarkKeepsValid(s: Store, j: Id, runner: string, details: map<string, string>)
    requires Valid(s)
    ensures Valid(MarkProxied(s, j, runner, details))
  {
    if ProxyAccepted(s, j, runner) { RelabelKeepsValid(s, j, ProxyQueued); }
  }

  lemma EndOwnKeepsValid(s: Store, j: Id, runner: string, code: int)
    requires Valid(s)
    ensures Valid(EndJob(s, j, runner, code))
  {
    hide Valid;
    if EndAccepted(s, j, runner) { FinishKeepsValid(s, j, if code == 0 then Success else Failed); }
  }

  lemma EndProxiedKeepsValid(s: Store, j: Id, st: Status)
    requires Valid(s)
    ensures Valid(EndProxied(s, j, st))
  {
    hide Valid;
    if EndProxiedAccepted(s, j, st) && s.jobs[j].status == ProxyQueued { FinishKeepsValid(s, j, st); }
  }

  lemma RunnerStepKeepsValid(s: Store, op: Op)
    requires Valid(s)
    requires op.ClaimNextJob? || op.ClaimNextArrayBatch? || op.MarkJobProxied? || op.EndOwnJob? || op.EndProxiedJob?
    ensures Valid(ApplyDb(s, op))
  {
    hide Valid, Claim, MarkProxied, EndJob, EndProxied;
    match op
    case ClaimNextJob(runner, limits) =>
      ClaimsAreFree(s, limits, Gate(0, 0, false));
      if NextClaim(s, limits).Some? { ClaimKeepsValid(s, {NextClaim(s, limits).value}, runner); }
    case ClaimNextArrayBatch(runner, limits, gate) =>
      ClaimsAreFree(s, limits, gate);
      ClaimKeepsValid(s, Elements(NextBatch(s, limits, gate)), runner);
    case MarkJobProxied(j, runner, details) => MarkKeepsValid(s, j, runner, details);
    case EndOwnJob(j, runner, code) => EndOwnKeepsValid(s, j, runner, code);
    case EndProxiedJob(j, st) => EndProxiedKeepsValid(s, j, st);
  }

  lemma StepKeepsValid(s: Store, op: Op)
    requires Valid(s)
    ensures Valid(ApplyDb(s, op))
  {
    match op
    case Validate(_) =>
    case InsertBatch(batch) => InsertKeepsValid(s, batch);
    case ResolvePass(order) => ResolveKeepsValid(s, order);
    case UpdateRunningDetails(_, _) =>
    case CleanupJob(j) => CleanupKeepsValid(s, j);
    case Select(_) =>
    case StripRows(ids) => StripKeepsValid(s, ids);
    case DeleteRows(ids) => DeleteKeepsValid(s, ids);
    case _ =>
      if op.ClaimNextJob? || op.ClaimNextArrayBatch? || op.MarkJobProxied? || op.EndOwnJob? || op.EndProxiedJob? {
        RunnerStepKeepsValid(s, op);
      } else {
        UserStepKeepsValid(s, op);
      }
  }

  lemma RepriorityKeepsValid(s: Store, op: Op)
    requires Valid(s) && op.Reprioritize?
    ensures Valid(ApplyDb(s, op))
  {
  }

  /** In every reachable state, with validation and insertion as separate steps, every queued, running
      or handed-off job has only parents that succeeded or were handed off. */
  lemma {:induction false} EveryRunIsValid(ops: seq<Op>)
    ensures Valid(Run(ops).db)
  {
    if ops != [] {
      EveryRunIsValid(ops[..|ops| - 1]);
      StepKeepsValid(Run(ops[..|ops| - 1]).db, ops[|ops| - 1]);
    }
  }
}
