/** The %N concurrency throttle of an array, over every run that claims one job at a time. */
module Throttles {
  import opened Collections
  import opened Jobs
  import opened Claims
  import opened Transactions
  import opened Lifecycle
  import opened Runs
  import Cascade
  import Resolve

  /** Claims go only through ClaimNextJob, and every task submitted to the array carries throttle n. */
  ghost predicate ThrottledRun(ops: seq<Op>, arrayId: string, n: nat) {
    && (forall i :: 0 <= i < |ops| ==> !ops[i].ClaimNextArrayBatch?)
    && (forall i, k :: 0 <= i < |ops| && ops[i].InsertBatch? && 0 <= k < |ops[i].batch| ==>
        SharesThrottle(Row(ops[i].batch[k]), arrayId, n))
  }

  predicate SharesThrottle(job: Job, arrayId: string, n: nat) {
    "array_id" in job.details && job.details["array_id"] == arrayId ==> Throttle(job) == Some(n)
  }

  ghost predicate TableShares(m: JobTable, arrayId: string, n: nat) {
    forall j :: j in m ==> SharesThrottle(m[j], arrayId, n)
  }

  lemma {:induction false} InsertShares(m: JobTable, batch: seq<Submit>, arrayId: string, n: nat)
    requires TableShares(m, arrayId, n)
    requires forall k :: 0 <= k < |batch| ==> SharesThrottle(Row(batch[k]), arrayId, n)
    ensures InsertRows(m, batch).Some? ==> TableShares(InsertRows(m, batch).value, arrayId, n)
  {
    if batch != [] && InsertRows(m, batch).Some? {
      InsertShares(m, batch[..|batch| - 1], arrayId, n);
    }
  }

  lemma OtherStepsShare(s: Store, op: Op, arrayId: string, n: nat)
    requires TableShares(s.jobs, arrayId, n) && !op.InsertBatch?
    ensures TableShares(ApplyDb(s, op).jobs, arrayId, n)
  {
    StepEvolves(s, op);
    var t := ApplyDb(s, op);
    NoNewRows(s, op);
    forall j | j in t.jobs ensures SharesThrottle(t.jobs[j], arrayId, n) {
      assert RowEvolves(s.jobs[j], t.jobs[j], j in Cleaned(op));
      assert SharesThrottle(s.jobs[j], arrayId, n);
    }
  }

  lemma NoNewRows(s: Store, op: Op)
    requires !op.InsertBatch?
    ensures forall j :: j in ApplyDb(s, op).jobs ==> j in s.jobs
  {
    match op
    case ResolvePass(order) => Resolve.PassDecides(s.jobs, order);
    case CancelOneJob(j) => Cascade.CancelDoomsExactly(s.jobs, j);
    case CancelMembers(members) => Cascade.CancelEachDoomsExactly(s.jobs, members);
    case _ =>
  }

  /** Only claims put jobs into RUNNING. */
  lemma NoNewLocks(s: Store, op: Op)
    requires !op.ClaimNextJob? && !op.ClaimNextArrayBatch?
    ensures forall j :: j in ApplyDb(s, op).claims ==> j in s.claims
  {
  }

  lemma NewlyRunningAreNewlyLocked(s: Store, t: Store, cleaned: set<Id>, proxying: bool, arrayId: string)
    requires Evolves(s, t, cleaned, proxying)
    ensures RunningIn(t.jobs, arrayId) <= RunningIn(s.jobs, arrayId) + (t.claims.Keys - s.claims.Keys)
  {
    forall j | j in RunningIn(t.jobs, arrayId)
      ensures j in RunningIn(s.jobs, arrayId) || (j in t.claims && j !in s.claims)
    {
      assert j in t.jobs && t.jobs[j].status == Running;
      if j in s.jobs && s.jobs[j].status == Running {
        assert RowEvolves(s.jobs[j], t.jobs[j], j in cleaned);
      }
    }
  }

  /** ClaimNextJob adds at most one running task to an array, and only while it is below its throttle. */
  lemma ClaimAddsBelowThrottle(s: Store, limits: Limits, arrayId: string, n: nat)
    requires TableShares(s.jobs, arrayId, n) && NextClaim(s, limits).Some?
    ensures var j := NextClaim(s, limits).value;
      j in s.jobs && (j in InArray(s.jobs, arrayId) ==> |RunningIn(s.jobs, arrayId)| < n)
  {
    var j := NextClaim(s, limits).value;
    ClaimsAreFree(s, limits, Gate(0, 0, false));
    assert j in s.jobs && ThrottleOk(s.jobs, j) && SharesThrottle(s.jobs[j], arrayId, n);
  }

  lemma ClaimKeepsThrottle(s: Store, runner: string, limits: Limits, arrayId: string, n: nat)
    requires TableShares(s.jobs, arrayId, n) && |RunningIn(s.jobs, arrayId)| <= n && NextClaim(s, limits).Some?
    ensures |RunningIn(Claim(s, {NextClaim(s, limits).value}, runner).jobs, arrayId)| <= n
  {
    hide NextClaim, TableShares;
    var j := NextClaim(s, limits).value;
    ClaimAddsBelowThrottle(s, limits, arrayId, n);
    var before := RunningIn(s.jobs, arrayId);
    var after := RunningIn(Claim(s, {j}, runner).jobs, arrayId);
    assert after <= if j in InArray(s.jobs, arrayId) then before + {j} else before;
    SubsetCardinality(after, if j in InArray(s.jobs, arrayId) then before + {j} else before);
  }

  lemma StepKeepsThrottle(s: Store, op: Op, arrayId: string, n: nat)
    requires TableShares(s.jobs, arrayId, n) && |RunningIn(s.jobs, arrayId)| <= n && !op.ClaimNextArrayBatch?
    ensures |RunningIn(ApplyDb(s, op).jobs, arrayId)| <= n
  {
    hide TableShares, RunningIn;
    if op.ClaimNextJob? {
      if NextClaim(s, op.limits).Some? { ClaimKeepsThrottle(s, op.runner, op.limits, arrayId, n); }
    } else {
      OtherStepsStartNothing(s, op, arrayId);
      SubsetCardinality(RunningIn(ApplyDb(s, op).jobs, arrayId), RunningIn(s.jobs, arrayId));
    }
  }

  lemma OtherStepsStartNothing(s: Store, op: Op, arrayId: string)
    requires !op.ClaimNextJob? && !op.ClaimNextArrayBatch?
    ensures RunningIn(ApplyDb(s, op).jobs, arrayId) <= RunningIn(s.jobs, arrayId)
  {
    var t := ApplyDb(s, op);
    StepEvolves(s, op);
    NoNewLocks(s, op);
    assert t.claims.Keys - s.claims.Keys == {};
    NewlyRunningAreNewlyLocked(s, t, Cleaned(op), op.MarkJobProxied?, arrayId);
  }

  /** At most n tasks of a throttled array are ever RUNNING at once. */
  lemma ApplyOrNot(s: Server, op: Op)
    ensures Apply(s, op).db == s.db || Apply(s, op).db == ApplyDb(s.db, op)
  {}

  lemma {:induction false} ThrottleHolds(ops: seq<Op>, arrayId: string, n: nat)
    requires ThrottledRun(ops, arrayId, n)
    ensures TableShares(Run(ops).db.jobs, arrayId, n)
    ensures |RunningIn(Run(ops).db.jobs, arrayId)| <= n
  {
    if ops == [] {
      assert RunningIn(Run(ops).db.jobs, arrayId) == {};
    } else {
      var init, op := ops[..|ops| - 1], ops[|ops| - 1];
      hide TableShares, RunningIn, Apply, ApplyDb;
      ThrottleHolds(init, arrayId, n);
      var s := Run(init).db;
      ApplyOrNot(Run(init), op);
      StepKeepsThrottle(s, op, arrayId, n);
      if op.InsertBatch? {
        InsertShares(s.jobs, op.batch, arrayId, n);
      } else {
        OtherStepsShare(s, op, arrayId, n);
      }
    }
  }
}
