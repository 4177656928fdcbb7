/** What a batch claim tells an empty-handed runner, over all runs. */
module BatchReports {
  import opened Collections
  import opened Jobs
  import opened Claims
  import opened Transactions
  import opened Lifecycle
  import opened Runs
  import Acyclicity
  import Handoff

  /** A job that names an array no queued task of which has an index. */
  ghost predicate Unindexed(m: JobTable, j: Id)
    requires j in m
  {
    m[j].Detail("array_id") != "" && QueuedTasks(m, m[j].Detail("array_id")) == {}
  }

  ghost predicate SomeUnindexed(s: Store, limits: Limits, seen: set<Id>) {
    exists j :: j in seen && j in s.jobs && Fits(s.jobs, limits, j) && Unindexed(s.jobs, j)
  }

  ghost predicate QueuedUnlocked(s: Store) { forall j :: j in s.jobs && s.jobs[j].status == Queued ==> j !in s.claims }

  lemma FreeIsQueued(s: Store, arrayId: string)
    requires QueuedUnlocked(s)
    ensures |FreeTasks(s, arrayId)| == |QueuedTasks(s.jobs, arrayId)|
  {
    QueuedTasksExist(s.jobs, arrayId);
    forall j | j in QueuedTasks(s.jobs, arrayId) ensures j !in s.claims { assert s.jobs[j].status == Queued; }
    assert QueuedTasks(s.jobs, arrayId) - s.claims.Keys == QueuedTasks(s.jobs, arrayId);
    DistinctCardinality(FreeTasks(s, arrayId));
  }

  /** Without locks on queued jobs, a claim comes away empty exactly from an array without indexed queued tasks. */
  lemma BarrenIsUnindexed(s: Store, gate: Gate, j: Id)
    requires QueuedUnlocked(s) && j in s.jobs && s.jobs[j].status == Queued
    ensures Barren(s, gate, j) <==> Unindexed(s.jobs, j)
  {
    var a := s.jobs[j].Detail("array_id");
    FreeIsQueued(s, a);
    assert |QueuedTasks(s.jobs, a)| == 0 <==> QueuedTasks(s.jobs, a) == {};
  }

  lemma NobodyRaces(s: Store, gate: Gate, arrayId: string)
    requires QueuedUnlocked(s)
    ensures !Raced(s, arrayId, gate)
  {
    forall c ensures !RacedBy(s, arrayId, gate, c) {
      assert c in QueuedTasks(s.jobs, arrayId) ==> c in s.jobs && s.jobs[c].status == Queued;
    }
  }

  /** In every reachable state a batch claim reports more eligible work exactly if the scan passed over a fitting job
      of an array without indexed queued tasks; no race ever makes it do so. */
  lemma MoreEligibleExactly(ops: seq<Op>, limits: Limits, gate: Gate, more: bool, blocked: bool, deferred: bool,
                            throttle: int)
    requires BatchReport(Run(ops).db, limits, gate, more, blocked, deferred, throttle)
    ensures var s := Run(ops).db;
      more <==> SomeUnindexed(s, limits, PassedOver(s.jobs, BatchLead(s, limits, gate)))
  {
    EveryRunIsValid(ops);
    var s := Run(ops).db;
    assert QueuedUnlocked(s);
    var seen := PassedOver(s.jobs, BatchLead(s, limits, gate));
    forall j | j in seen ensures Barren(s, gate, j) <==> Unindexed(s.jobs, j) { BarrenIsUnindexed(s, gate, j); }
    forall a ensures !Raced(s, a, gate) { NobodyRaces(s, gate, a); }
    if SomeBarren(s, limits, gate, seen) {
      var j :| j in seen && j in s.jobs && Fits(s.jobs, limits, j) && Barren(s, gate, j);
      assert Unindexed(s.jobs, j);
    }
    if SomeUnindexed(s, limits, seen) {
      var j :| j in seen && j in s.jobs && Fits(s.jobs, limits, j) && Unindexed(s.jobs, j);
      assert Barren(s, gate, j);
    }
  }

  // ----- When it never happens ---------------------------------------------

  predicate Indexed(job: Job) { job.Detail("array_id") != "" ==> "array_index" in job.details }

  ghost predicate AllIndexed(m: JobTable) { forall j :: j in m ==> Indexed(m[j]) }

  /** Every submit that names an array gives its index, as array submits do. */
  ghost predicate IndexedRun(ops: seq<Op>) {
    forall i, k :: 0 <= i < |ops| && ops[i].InsertBatch? && 0 <= k < |ops[i].batch| ==> Indexed(Row(ops[i].batch[k]))
  }

  lemma {:induction false} InsertKeepsIndexed(m: JobTable, batch: seq<Submit>)
    requires AllIndexed(m) && forall k :: 0 <= k < |batch| ==> Indexed(Row(batch[k]))
    ensures InsertRows(m, batch).Some? ==> AllIndexed(InsertRows(m, batch).value)
  {
    if batch != [] && InsertRows(m, batch).Some? { InsertKeepsIndexed(m, batch[..|batch| - 1]); }
  }

  lemma OthersKeepIndexed(s: Store, op: Op)
    requires AllIndexed(s.jobs) && !op.InsertBatch?
    ensures AllIndexed(ApplyDb(s, op).jobs)
  {
    StepEvolves(s, op);
    Acyclicity.OtherStepsShrink(s, op);
    forall j | j in ApplyDb(s, op).jobs ensures Indexed(ApplyDb(s, op).jobs[j]) {
      assert RowEvolves(s.jobs[j], ApplyDb(s, op).jobs[j], j in Cleaned(op));
    }
  }

  lemma {:induction false} RunsStayIndexed(ops: seq<Op>)
    requires IndexedRun(ops)
    ensures AllIndexed(Run(ops).db.jobs)
  {
    if ops != [] {
      var init, op := ops[..|ops| - 1], ops[|ops| - 1];
      RunsStayIndexed(init);
      if op.InsertBatch? {
        InsertKeepsIndexed(Run(init).db.jobs, op.batch);
      } else {
        OthersKeepIndexed(Run(init).db, op);
      }
    }
  }

  /** In such runs an empty-handed runner is never told that more is eligible. */
  lemma IndexedRunsNeverReport(ops: seq<Op>, limits: Limits, gate: Gate, more: bool, blocked: bool, deferred: bool,
                               throttle: int)
    requires IndexedRun(ops) && BatchReport(Run(ops).db, limits, gate, more, blocked, deferred, throttle)
    ensures !more
  {
    MoreEligibleExactly(ops, limits, gate, more, blocked, deferred, throttle);
    RunsStayIndexed(ops);
    var s := Run(ops).db;
    forall j | j in PassedOver(s.jobs, BatchLead(s, limits, gate)) ensures !Unindexed(s.jobs, j) {
      if s.jobs[j].Detail("array_id") != "" {
        assert Indexed(s.jobs[j]);
        assert j in QueuedTasks(s.jobs, s.jobs[j].Detail("array_id"));
      }
    }
  }

  // ----- And when it always does -------------------------------------------

  /** A plain submit may name an array and give no index. */
  const UNINDEXED := Submit(1, [], false, 0, 0, SCRIPT["array_id" := "x"])

  lemma StrayIsStored() returns (ops: seq<Op>)
    ensures Run(ops).db == Store(map[1 := Row(UNINDEXED)], map[], map[])
  {
    Handoff.InsertOne(EMPTY, UNINDEXED);
    RunSnoc([], Validate([UNINDEXED]));
    RunSnoc([] + [Validate([UNINDEXED])], InsertBatch([UNINDEXED]));
    ops := [] + [Validate([UNINDEXED])] + [InsertBatch([UNINDEXED])];
  }

  lemma StrayIsBarren(s: Store)
    requires s == Store(map[1 := Row(UNINDEXED)], map[], map[])
    ensures Unindexed(s.jobs, 1) && Fits(s.jobs, Handoff.ANY, 1)
    ensures forall gate: Gate :: Barren(s, gate, 1) && BatchLead(s, Handoff.ANY, gate) == None
  {
    assert Row(UNINDEXED).details == SCRIPT["array_id" := "x"];
    assert QueuedTasks(s.jobs, "x") == {};
    forall gate: Gate ensures Barren(s, gate, 1) && BatchLead(s, Handoff.ANY, gate) == None {
      BarrenIsUnindexed(s, gate, 1);
      assert BatchLeads(s, Handoff.ANY, gate) == {};
    }
  }

  lemma NothingClaimed(s: Store, runner: string, gate: Gate)
    requires BatchLead(s, Handoff.ANY, gate) == None
    ensures ClaimBatch(s, runner, Handoff.ANY, gate) == s
  {
    assert Elements<Id>([]) == {} && SetStatus(s.jobs, {}, Running) == s.jobs;
  }

  lemma MoreReported(s: Store, gate: Gate, more: bool, blocked: bool, deferred: bool, throttle: int)
    requires 1 in s.jobs && s.jobs[1].status == Queued && Fits(s.jobs, Handoff.ANY, 1) && Barren(s, gate, 1)
    requires BatchLead(s, Handoff.ANY, gate) == None
    requires BatchReport(s, Handoff.ANY, gate, more, blocked, deferred, throttle)
    ensures more
  {
    hide Barren, BatchLead, Fits;
    assert 1 in PassedOver(s.jobs, None);
    assert SomeBarren(s, Handoff.ANY, gate, PassedOver(s.jobs, None));
  }

  /** Then a batch runner without bounds is told, claim after claim, that more is eligible, and gets nothing. */
  lemma StrayStarvesRunner() returns (ops: seq<Op>)
    ensures forall runner, gate :: ClaimBatch(Run(ops).db, runner, Handoff.ANY, gate) == Run(ops).db
    ensures forall gate, more, blocked, deferred, throttle ::
      BatchReport(Run(ops).db, Handoff.ANY, gate, more, blocked, deferred, throttle) ==> more
  {
    hide ClaimBatch, BatchReport, BatchLead, Barren, Fits;
    ops := StrayIsStored();
    var s := Run(ops).db;
    StrayIsBarren(s);
    forall runner, gate ensures ClaimBatch(s, runner, Handoff.ANY, gate) == s {
      NothingClaimed(s, runner, gate);
    }
    forall gate, more, blocked, deferred, throttle |
      BatchReport(s, Handoff.ANY, gate, more, blocked, deferred, throttle)
      ensures more
    {
      MoreReported(s, gate, more, blocked, deferred, throttle);
    }
  }
}
