/** Properties of whole runs, derived from how one transaction may change the store. */
module Runs {
  import opened Collections
  import opened Jobs
  import opened Ordering
  import opened Graph
  import opened Claims
  import opened Transactions
  import opened Lifecycle
  import Cascade
  import Resolve

  /** The edges of the job state diagram. */
  predicate Follows(a: Status, b: Status) {
    || a == b
    || (a.Live() && b == Canceled)
    || (a.Pending() && b == Queued)
    || (a == Queued && b == Running)
    || (a == Running && b == ProxyQueued)
    || (a.Active() && (b == Success || b == Failed))
    || (Holdable(a) && b == UserHold)
    || (a == UserHold && b == Waiting)
  }

  /** The jobs a cleanup op names. */
  function Cleaned(op: Op): set<Id> {
    match op
    case CleanupJob(j) => {j}
    case StripRows(ids) => ids
    case DeleteRows(ids) => ids
    case _ => {}
  }

  /** What a job present before and after may have become. */
  ghost predicate RowEvolves(a: Job, b: Job, cleaned: bool) {
    && Follows(a.status, b.status)
    && ((b.afterOk == a.afterOk && b.details == a.details) || (cleaned && b.afterOk == {} && b.details == map[]))
  }

  /** How one transaction may change the store; cleaned are the jobs it names for cleanup. */
  ghost predicate Evolves(s: Store, t: Store, cleaned: set<Id>, proxying: bool) {
    && (forall j :: j in s.jobs && j in t.jobs ==> RowEvolves(s.jobs[j], t.jobs[j], j in cleaned))
    && (forall j :: j in s.jobs && j in t.jobs && s.jobs[j].status != ProxyQueued && t.jobs[j].status == ProxyQueued ==>
          proxying)
    && (forall j :: j in t.jobs && j !in s.jobs ==> t.jobs[j].status.Unclaimed())
    && (forall j :: j in s.jobs && j !in t.jobs ==> j in cleaned)
    && (forall j :: j in s.claims && j !in t.claims ==> j in cleaned)
    && (forall j :: j in s.claims && j in t.claims ==> t.claims[j] == s.claims[j])
    && (forall j :: j in t.claims && j !in s.claims ==>
          j in s.jobs && j in t.jobs && s.jobs[j].status == Queued && t.jobs[j].status == Running)
    && (forall j :: j in s.jobs && j in t.jobs && s.jobs[j].status != Running && t.jobs[j].status == Running ==>
          j in t.claims && j !in s.claims)
  }

  lemma CancelEvolves(s: Store, d: set<Id>)
    requires forall j :: j in d ==> j in s.jobs && s.jobs[j].status.Live()
    ensures Evolves(s, s.(jobs := SetStatus(s.jobs, d, Canceled)), {}, false)
  {
  }

  lemma FinishEvolves(s: Store, j: Id, st: Status)
    requires j in s.jobs && s.jobs[j].status.Active() && !st.Live()
    ensures Evolves(s, s.(jobs := Finish(s.jobs, j, st)), {}, false)
  {
    if st != Success {
      var d := FinishFails(s.jobs, j, st);
    }
  }

  lemma ClaimEvolves(s: Store, ids: set<Id>, runner: string)
    requires ids <= WithStatus(s.jobs, Queued) - s.claims.Keys
    ensures Evolves(s, Claim(s, ids, runner), {}, false)
  {
    forall j | j in ids ensures j in s.jobs && s.jobs[j].status == Queued && j !in s.claims {
      assert j in WithStatus(s.jobs, Queued) - s.claims.Keys;
    }
  }

  lemma RelabelEvolves(s: Store, j: Id, st: Status)
    requires j in s.jobs && Follows(s.jobs[j].status, st) && st != Running && st != ProxyQueued
    ensures Evolves(s, s.(jobs := SetStatus(s.jobs, {j}, st)), {}, false)
  {
    var n := SetStatus(s.jobs, {j}, st);
    assert n[j] == s.jobs[j].(status := st);
    assert forall k :: k in n && k != j ==> n[k] == s.jobs[k];
  }

  lemma CancelOneEvolves(s: Store, j: Id)
    ensures Evolves(s, CancelJob(s, j), {}, false)
  {
    hide Evolves;
    SameEvolves(s, {});
    Cascade.CancelDoomsExactly(s.jobs, j);
    Cascade.DoomedSwallows(s.jobs, {j});
    CancelEvolves(s, Cascade.Doomed(s.jobs, {j}));
  }

  lemma CancelMembersEvolves(s: Store, members: seq<Id>)
    ensures Evolves(s, CancelArray(s, members), {}, false)
  {
    hide Evolves;
    SameEvolves(s, {});
    Cascade.CancelEachDoomsExactly(s.jobs, members);
    Cascade.DoomedSwallows(s.jobs, Elements(members));
    CancelEvolves(s, Cascade.Doomed(s.jobs, Elements(members)));
  }

  lemma HoldEvolves(s: Store, j: Id)
    ensures Evolves(s, Hold(s, j), {}, false)
  {
    hide Evolves;
    SameEvolves(s, {});
    if j in s.jobs && Holdable(s.jobs[j].status) { RelabelEvolves(s, j, UserHold); }
  }

  lemma ReleaseEvolves(s: Store, j: Id)
    ensures Evolves(s, Release(s, j), {}, false)
  {
    hide Evolves;
    SameEvolves(s, {});
    if j in s.jobs && s.jobs[j].status == UserHold { RelabelEvolves(s, j, Waiting); }
  }

  lemma ReprioritizeEvolves(s: Store, j: Id, delta: int)
    ensures Evolves(s, AdjustPriority(s, j, delta), {}, false)
  {}

  lemma UserStepEvolves(s: Store, op: Op)
    requires op.CancelOneJob? || op.CancelMembers? || op.HoldJob? || op.ReleaseJob? || op.Reprioritize?
    ensures Evolves(s, ApplyDb(s, op), {}, false)
  {
    hide Evolves, CancelJob, CancelArray, Hold, Release, AdjustPriority;
    match op
    case CancelOneJob(j) => CancelOneEvolves(s, j);
    case CancelMembers(members) => CancelMembersEvolves(s, members);
    case HoldJob(j) => HoldEvolves(s, j);
    case ReleaseJob(j) => ReleaseEvolves(s, j);
    case Reprioritize(j, delta) => ReprioritizeEvolves(s, j, delta);
  }

  lemma MarkEvolves(s: Store, j: Id, runner: string, details: map<string, string>)
    ensures Evolves(s, MarkProxied(s, j, runner, details), {}, true)
  {}

  lemma EndOwnEvolves(s: Store, j: Id, runner: string, code: int)
    ensures Evolves(s, EndJob(s, j, runner, code), {}, false)
  {
    if EndAccepted(s, j, runner) { FinishEvolves(s, j, if code == 0 then Success else Failed); }
  }

  lemma EndProxiedEvolves(s: Store, j: Id, st: Status)
    ensures Evolves(s, EndProxied(s, j, st), {}, false)
  {
    if EndProxiedAccepted(s, j, st) && s.jobs[j].status == ProxyQueued { FinishEvolves(s, j, st); }
  }

  lemma RunnerStepEvolves(s: Store, op: Op)
    requires op.ClaimNextJob? || op.ClaimNextArrayBatch? || op.MarkJobProxied? || op.EndOwnJob? || op.EndProxiedJob?
    ensures Evolves(s, ApplyDb(s, op), {}, op.MarkJobProxied?)
  {
    hide Evolves, EndJob, EndProxied, Claim, MarkProxied;
    match op
    case ClaimNextJob(runner, limits) =>
      ClaimsAreFree(s, limits, Gate(0, 0, false));
      SameEvolves(s, {});
      if NextClaim(s, limits).Some? { ClaimEvolves(s, {NextClaim(s, limits).value}, runner); }
    case ClaimNextArrayBatch(runner, limits, gate) =>
      ClaimsAreFree(s, limits, gate);
      ClaimEvolves(s, Elements(NextBatch(s, limits, gate)), runner);
    case MarkJobProxied(j, runner, details) => MarkEvolves(s, j, runner, details);
    case EndOwnJob(j, runner, code) => EndOwnEvolves(s, j, runner, code);
    case EndProxiedJob(j, st) => EndProxiedEvolves(s, j, st);
  }

  lemma {:induction false} InsertEvolves(s: Store, batch: seq<Submit>)
    ensures InsertRows(s.jobs, batch).Some? ==> Evolves(s, s.(jobs := InsertRows(s.jobs, batch).value), {}, false)
    ensures InsertRows(s.jobs, batch).Some? ==> forall j :: j in s.jobs ==>
      j in InsertRows(s.jobs, batch).value && InsertRows(s.jobs, batch).value[j] == s.jobs[j]
  {
    if batch != [] && InsertRows(s.jobs, batch).Some? {
      InsertEvolves(s, batch[..|batch| - 1]);
    }
  }

  lemma ResolveEvolves(s: Store, order: seq<Id>)
    ensures Evolves(s, s.(jobs := Resolve.Pass(s.jobs, order)), {}, false)
  {
    Resolve.PassDecides(s.jobs, order);
  }

  lemma StripEvolves(s: Store, ids: set<Id>)
    ensures Evolves(s, Strip(s, ids), ids, false)
  {}

  lemma DeleteEvolves(s: Store, ids: set<Id>)
    ensures Evolves(s, Delete(s, ids), ids, false)
  {}

  lemma CleanupEvolves(s: Store, j: Id)
    ensures Evolves(s, Cleanup(s, j), {j}, false)
  {}

  lemma CleaningEvolves(s: Store, op: Op)
    requires op.CleanupJob? || op.StripRows? || op.DeleteRows?
    ensures Evolves(s, ApplyDb(s, op), Cleaned(op), false)
  {
    hide Evolves, Strip, Delete, Cleanup, Deletable;
    match op
    case CleanupJob(j) => CleanupEvolves(s, j);
    case StripRows(ids) => StripEvolves(s, ids);
    case DeleteRows(ids) =>
      DeleteEvolves(s, ids);
      SameEvolves(s, ids);
  }

  lemma SameEvolves(s: Store, cleaned: set<Id>)
    ensures Evolves(s, s, cleaned, false)
  {}

  /** Every transaction moves every job along an edge of the state diagram or leaves it where it is;
      only cleanup removes rows, edges or locks, and no lock ever changes hands. */
  lemma StepEvolves(s: Store, op: Op)
    ensures Evolves(s, ApplyDb(s, op), Cleaned(op), op.MarkJobProxied?)
  {
    match op
    case Validate(_) =>
    case InsertBatch(batch) => InsertEvolves(s, batch);
    case ResolvePass(order) => ResolveEvolves(s, order);
    case UpdateRunningDetails(_, _) =>
    case Select(_) =>
    case _ =>
      if op.CleanupJob? || op.StripRows? || op.DeleteRows? { CleaningEvolves(s, op); }
      else if op.ClaimNextJob? || op.ClaimNextArrayBatch? || op.MarkJobProxied? || op.EndOwnJob? || op.EndProxiedJob? {
        RunnerStepEvolves(s, op);
      } else {
        UserStepEvolves(s, op);
      }
  }

  lemma ApplyEvolves(s: Server, op: Op)
    ensures Evolves(s.db, Apply(s, op).db, Cleaned(op), op.MarkJobProxied?)
  {
    StepEvolves(s.db, op);
  }

  // ----- Claims ------------------------------------------------------------

  /** No cleanup names the job. Cleanups of other jobs are free to happen. */
  ghost predicate Spares(ops: seq<Op>, j: Id) { forall i :: 0 <= i < |ops| ==> j !in Cleaned(ops[i]) }

  /** j's end state and owner, if it has them, are kept. */
  ghost predicate Keeps(s: Store, t: Store, j: Id) {
    && (j in s.jobs && !s.jobs[j].status.Live() ==> j in t.jobs && t.jobs[j].status == s.jobs[j].status)
    && (j in s.claims ==> j in t.claims && t.claims[j] == s.claims[j])
  }

  lemma EvolvingKeeps(s: Store, t: Store, cleaned: set<Id>, proxying: bool, j: Id)
    requires Evolves(s, t, cleaned, proxying) && j !in cleaned
    ensures Keeps(s, t, j)
  {}

  /** Whatever else the server does, an ended job keeps its status and a lock its owner until this job is cleaned up. */
  lemma {:induction false} EndedAndOwnedForever(s: Server, ops: seq<Op>, j: Id)
    requires Spares(ops, j)
    ensures Keeps(s.db, RunFrom(s, ops).db, j)
  {
    if ops != [] {
      var init, op := RunFrom(s, ops[..|ops| - 1]), ops[|ops| - 1];
      EndedAndOwnedForever(s, ops[..|ops| - 1], j);
      ApplyEvolves(init, op);
      EvolvingKeeps(init.db, Apply(init, op).db, Cleaned(op), op.MarkJobProxied?, j);
    }
  }

  /** A job that ran is locked, and one never claimed is not. */
  ghost predicate LockFits(s: Store, j: Id) {
    j in s.jobs ==>
      && (s.jobs[j].status.Active() || s.jobs[j].status == Success || s.jobs[j].status == Failed ==> j in s.claims)
      && (s.jobs[j].status.Unclaimed() ==> j !in s.claims)
  }

  lemma EvolvingKeepsLock(s: Store, t: Store, cleaned: set<Id>, proxying: bool, j: Id)
    requires Evolves(s, t, cleaned, proxying) && j !in cleaned && LockFits(s, j) && Valid(s) && Valid(t)
    ensures LockFits(t, j)
  {
    if j in t.jobs && j in s.jobs { assert Follows(s.jobs[j].status, t.jobs[j].status); }
  }

  /** In every run no cleanup of which names the job, its lock matches its status. */
  lemma {:induction false} LocksFollowTheDiagram(ops: seq<Op>, j: Id)
    requires Spares(ops, j)
    ensures LockFits(Run(ops).db, j)
  {
    if ops != [] {
      var init, op := ops[..|ops| - 1], ops[|ops| - 1];
      LocksFollowTheDiagram(init, j);
      EveryRunIsValid(init);
      EveryRunIsValid(ops);
      ApplyEvolves(Run(init), op);
      EvolvingKeepsLock(Run(init).db, Run(ops).db, Cleaned(op), op.MarkJobProxied?, j);
    }
  }

  /** A row and its edges stay while no cleanup names it. */
  lemma {:induction false} EdgesStay(s: Server, ops: seq<Op>, j: Id)
    requires Spares(ops, j) && j in s.db.jobs
    ensures j in RunFrom(s, ops).db.jobs && RunFrom(s, ops).db.jobs[j].afterOk == s.db.jobs[j].afterOk
  {
    if ops != [] {
      var init, op := ops[..|ops| - 1], ops[|ops| - 1];
      EdgesStay(s, init, j);
      ApplyEvolves(RunFrom(s, init), op);
      assert RowEvolves(RunFrom(s, init).db.jobs[j], RunFrom(s, ops).db.jobs[j], false);
    }
  }

  /** What a met parent's status may have become: success stays, and a handed-off job never comes back to the queue. */
  predicate StaysOut(a: Status, b: Status) {
    (a == Success ==> b == Success) && (a == ProxyQueued ==> b == ProxyQueued || !b.Live())
  }

  /** The parents of a job stay, whatever is cleaned up, as long as the job itself is not. */
  lemma {:induction false} ParentStays(before: seq<Op>, more: seq<Op>, j: Id, p: Id)
    requires Spares(more, j) && j in Run(before).db.jobs && p in Run(before).db.jobs[j].afterOk
    ensures p in Run(before).db.jobs && p in RunFrom(Run(before), more).db.jobs
    ensures StaysOut(Run(before).db.jobs[p].status, RunFrom(Run(before), more).db.jobs[p].status)
  {
    hide Evolves, Apply, Cleaned, DependencySafe, LocksMatch, StaysOut;
    EveryRunIsValid(before);
    if more == [] {
      SameStaysOut(Run(before).db.jobs[p].status);
    } else {
      var init, op := more[..|more| - 1], more[|more| - 1];
      ParentStays(before, init, j, p);
      EdgesStay(Run(before), more, j);
      RunAppend(before, more);
      EveryRunIsValid(before + more);
      ApplyEvolves(RunFrom(Run(before), init), op);
      EvolvingStaysOut(Run(before).db.jobs[p].status, RunFrom(Run(before), init).db, RunFrom(Run(before), more).db,
                       Cleaned(op), op.MarkJobProxied?, p);
    }
  }

  lemma SameStaysOut(a: Status)
    ensures StaysOut(a, a)
  {}

  lemma EvolvingStaysOut(a: Status, s: Store, t: Store, cleaned: set<Id>, proxying: bool, p: Id)
    requires Evolves(s, t, cleaned, proxying) && p in s.jobs && p in t.jobs && StaysOut(a, s.jobs[p].status)
    ensures StaysOut(a, t.jobs[p].status)
  {
    assert RowEvolves(s.jobs[p], t.jobs[p], p in cleaned);
  }

  /** In every reachable state no queued job is locked: the lost-race branch of a claim is never taken. */
  lemma NoClaimRace(ops: seq<Op>)
    ensures WithStatus(Run(ops).db.jobs, Queued) !! Run(ops).db.claims.Keys
    ensures forall limits :: NextClaim(Run(ops).db, limits).None? <==> Admissible(Run(ops).db.jobs, limits) == {}
  {
    EveryRunIsValid(ops);
    var s := Run(ops).db;
    forall j | j in WithStatus(s.jobs, Queued) ensures j !in s.claims {
      assert s.jobs[j].status.Unclaimed();
    }
    forall limits ensures Admissible(s.jobs, limits) - s.claims.Keys == Admissible(s.jobs, limits) {
      forall j | j in Admissible(s.jobs, limits) ensures j !in s.claims {
        assert s.jobs[j].status.Unclaimed();
      }
    }
  }

  /** In every reachable state a claim hands out exactly the first queued job, by priority, submit time and id, that
      passes limits, resources and throttle. */
  lemma ClaimIsFirstAdmissible(ops: seq<Op>, limits: Limits, j: Id)
    ensures var s := Run(ops).db;
      NextClaim(s, limits) == Some(j) <==> IsFirst(ClaimOrder(s.jobs), Admissible(s.jobs, limits), j)
  {
    NoClaimRace(ops);
    var s := Run(ops).db;
    var all := Admissible(s.jobs, limits);
    assert all - s.claims.Keys == all by {
      forall k | k in all ensures k !in s.claims { assert k in WithStatus(s.jobs, Queued); }
    }
    ClaimOrderIsStrict(s.jobs, all);
    if IsFirst(ClaimOrder(s.jobs), all, j) { FirstUnique(ClaimOrder(s.jobs), all, j, First(ClaimOrder(s.jobs), all)); }
  }

  // ----- Success without proxying ------------------------------------------

  ghost predicate NoProxying(ops: seq<Op>) { forall i :: 0 <= i < |ops| ==> !ops[i].MarkJobProxied? }

  predicate PastTheGate(s: Store, j: Id)
    requires j in s.jobs
  {
    s.jobs[j].status.Released() || s.jobs[j].status == Success || s.jobs[j].status == Failed || j in s.claims
  }

  /** Every job that was ever released has only successful parents. */
  ghost predicate ParentsSucceeded(s: Store) {
    && (forall j :: j in s.jobs ==> s.jobs[j].status != ProxyQueued)
    && (forall j, p :: j in s.jobs && PastTheGate(s, j) && p in s.jobs[j].afterOk && p in s.jobs ==>
          s.jobs[p].status == Success)
  }

  /** With the gate invariant and no proxying, a successful parent is the only met parent there can be. */
  lemma StepKeepsParentsSucceeded(s: Store, t: Store, cleaned: set<Id>)
    requires ParentsSucceeded(s) && Evolves(s, t, cleaned, false)
    requires Valid(s) && Valid(t)
    ensures ParentsSucceeded(t)
  {
    forall j ensures j in t.jobs ==> t.jobs[j].status != ProxyQueued { }
    forall j, p | j in t.jobs && PastTheGate(t, j) && p in t.jobs[j].afterOk && p in t.jobs
      ensures t.jobs[p].status == Success
    {
      if !t.jobs[j].status.Released() {
        assert j in s.jobs && RowEvolves(s.jobs[j], t.jobs[j], j in cleaned);
        assert PastTheGate(s, j) && p in s.jobs[j].afterOk;
        assert p in s.jobs && s.jobs[p].status == Success;
        assert RowEvolves(s.jobs[p], t.jobs[p], p in cleaned);
      }
    }
  }

  lemma {:induction false} UnproxiedRunsKeepParentsSucceeded(ops: seq<Op>)
    requires NoProxying(ops)
    ensures ParentsSucceeded(Run(ops).db)
  {
    if ops != [] {
      var init, op := ops[..|ops| - 1], ops[|ops| - 1];
      UnproxiedRunsKeepParentsSucceeded(init);
      EveryRunIsValid(init);
      EveryRunIsValid(ops);
      ApplyEvolves(Run(init), op);
      StepKeepsParentsSucceeded(Run(init).db, Run(ops).db, Cleaned(op));
    }
  }

  lemma {:induction false} AncestorsSucceeded(s: Store, path: seq<Id>, n: nat)
    requires ParentsSucceeded(s) && Valid(s)
    requires Chain(s.jobs, s.jobs.Keys, path) && path[|path| - 1] in s.jobs && PastTheGate(s, path[|path| - 1])
    requires n < |path| - 1
    ensures path[n] in s.jobs && s.jobs[path[n]].status == Success
    decreases |path| - n
  {
    if n + 1 < |path| - 1 { AncestorsSucceeded(s, path, n + 1); }
    assert Link(s.jobs, s.jobs.Keys, path[n], path[n + 1]);
  }

  /** Where nothing is handed to SLURM, every job ever claimed has only successful ancestors. */
  lemma ClaimedJobsHaveSuccessfulAncestors(ops: seq<Op>, ancestor: Id, j: Id)
    requires NoProxying(ops)
    ensures var s := Run(ops).db;
      j in s.claims && Downstream(s.jobs, s.jobs.Keys, {ancestor}, j) ==>
        j in s.jobs && ancestor in s.jobs && s.jobs[ancestor].status == Success
  {
    UnproxiedRunsKeepParentsSucceeded(ops);
    EveryRunIsValid(ops);
    var s := Run(ops).db;
    if j in s.claims && Downstream(s.jobs, s.jobs.Keys, {ancestor}, j) {
      var path :| Chain(s.jobs, s.jobs.Keys, path) && |path| > 1 && path[0] in {ancestor} && path[|path| - 1] == j;
      AncestorsSucceeded(s, path, 0);
    }
  }
}
