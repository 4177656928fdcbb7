/** A bulk cleanup reads the ids it strips, and strips by id alone: what that may cost, and when it costs nothing. */
module Selection {
  import opened Collections
  import opened Jobs
  import opened Claims
  import opened Transactions
  import opened Lifecycle
  import opened Runs
  import Acyclicity
  import Handoff
  import Resolve

  /** Every job in a runner's hands is locked. */
  ghost predicate ActiveLocked(s: Store) {
    forall j :: j in s.jobs && s.jobs[j].status.Active() ==> j in s.claims
  }

  /** The transaction about to run strips a job some runner is working on. */
  ghost predicate StripsActive(s: Server, op: Op) {
    op.StripRows? && op.ids <= s.selected && exists j :: j in op.ids && j in s.db.jobs && s.db.jobs[j].status.Active()
  }

  lemma EvolvingKeepsActiveLocked(s: Store, t: Store, proxying: bool)
    requires ActiveLocked(s) && Evolves(s, t, {}, proxying)
    ensures ActiveLocked(t)
  {
    forall j | j in t.jobs && t.jobs[j].status.Active() ensures j in t.claims {
      assert j in s.jobs && Follows(s.jobs[j].status, t.jobs[j].status);
    }
  }

  lemma OtherStepsKeepActiveLocked(s: Store, op: Op)
    requires ActiveLocked(s) && !op.StripRows?
    ensures ActiveLocked(ApplyDb(s, op))
  {
    if !op.CleanupJob? && !op.DeleteRows? {
      StepEvolves(s, op);
      EvolvingKeepsActiveLocked(s, ApplyDb(s, op), op.MarkJobProxied?);
    }
  }

  lemma StripUnlocksActive(s: Store, ids: set<Id>)
    requires ActiveLocked(s)
    ensures ActiveLocked(Strip(s, ids)) <==> forall j :: j in ids && j in s.jobs ==> !s.jobs[j].status.Active()
  {
    var t := Strip(s, ids);
    forall j | j in ids && j in s.jobs ensures j in t.jobs && t.jobs[j].status == s.jobs[j].status && j !in t.claims { }
  }

  lemma ApplyUnlocksExactly(s: Server, op: Op)
    requires ActiveLocked(s.db)
    ensures ActiveLocked(Apply(s, op).db) <==> !StripsActive(s, op)
  {
    if op.StripRows? {
      StripUnlocksActive(s.db, op.ids);
    } else {
      OtherStepsKeepActiveLocked(s.db, op);
    }
  }

  ghost predicate AlwaysLocked(ops: seq<Op>) {
    ActiveLocked(Run(ops).db) && (ops == [] || AlwaysLocked(ops[..|ops| - 1]))
  }

  ghost predicate NeverStripsActive(ops: seq<Op>) {
    ops == [] || (NeverStripsActive(ops[..|ops| - 1]) && !StripsActive(Run(ops[..|ops| - 1]), ops[|ops| - 1]))
  }

  /** Along a run every active job stays locked exactly if no strip meets one. */
  lemma {:induction false} LocksHoldExactly(ops: seq<Op>)
    ensures AlwaysLocked(ops) <==> NeverStripsActive(ops)
  {
    if ops != [] {
      var init, op := ops[..|ops| - 1], ops[|ops| - 1];
      LocksHoldExactly(init);
      if ActiveLocked(Run(init).db) { ApplyUnlocksExactly(Run(init), op); }
    }
  }

  // ----- When a selection goes stale ---------------------------------------

  predicate Inserts(op: Op, j: Id) {
    op.InsertBatch? && exists k :: 0 <= k < |op.batch| && op.batch[k].id == j
  }

  ghost predicate Reinserts(s: Server, op: Op) { exists j :: j in s.selected && Inserts(op, j) }

  /** No id that was ever selected is inserted again. */
  ghost predicate NothingReinserted(ops: seq<Op>) {
    ops == [] || (NothingReinserted(ops[..|ops| - 1]) && !Reinserts(Run(ops[..|ops| - 1]), ops[|ops| - 1]))
  }

  /** Every selection so far was of jobs that had ended. */
  ghost predicate OnlyEndedSelected(ops: seq<Op>) {
    ops == [] || (OnlyEndedSelected(ops[..|ops| - 1]) && !SelectsLive(Run(ops[..|ops| - 1]), ops[|ops| - 1]))
  }

  ghost predicate SelectsLive(s: Server, op: Op) {
    op.Select? && exists j :: j in op.ids && j in s.db.jobs && s.db.jobs[j].status.Live()
  }

  ghost predicate SelectedEnded(s: Server) {
    forall j :: j in s.selected && j in s.db.jobs ==> !s.db.jobs[j].status.Live()
  }

  lemma {:induction false} InsertedRowsAreNew(m: JobTable, batch: seq<Submit>)
    requires InsertRows(m, batch).Some?
    ensures forall j :: j in InsertRows(m, batch).value ==> j in m || exists k :: 0 <= k < |batch| && batch[k].id == j
  {
    if batch != [] { InsertedRowsAreNew(m, batch[..|batch| - 1]); }
  }

  lemma NewRowsComeFromInserts(s: Store, op: Op, j: Id)
    requires j in ApplyDb(s, op).jobs && j !in s.jobs
    ensures Inserts(op, j)
  {
    if op.InsertBatch? {
      InsertedRowsAreNew(s.jobs, op.batch);
    } else {
      Acyclicity.OtherStepsShrink(s, op);
    }
  }

  lemma EndedStaysEnded(s: Server, op: Op, j: Id)
    requires j in s.db.jobs && !s.db.jobs[j].status.Live() && j in Apply(s, op).db.jobs
    ensures !Apply(s, op).db.jobs[j].status.Live()
  {
    hide Apply, Cleaned;
    ApplyEvolves(s, op);
    assert Follows(s.db.jobs[j].status, Apply(s, op).db.jobs[j].status);
  }

  lemma StepKeepsSelectedEnded(s: Server, op: Op)
    requires SelectedEnded(s)
    requires !Reinserts(s, op) && !SelectsLive(s, op)
    ensures SelectedEnded(Apply(s, op))
  {
    var t := Apply(s, op);
    forall j | j in t.selected && j in t.db.jobs ensures !t.db.jobs[j].status.Live() {
      if j in s.db.jobs && !s.db.jobs[j].status.Live() {
        EndedStaysEnded(s, op, j);
      } else if j in s.selected {
        NewRowsComeFromInserts(s.db, op, j);
      }
    }
  }

  /** As long as only ended jobs are selected and no selected id is inserted again, what was selected stays ended and
      every active job stays locked. */
  lemma {:induction false} UnlessReinsertedLocked(ops: seq<Op>)
    requires NothingReinserted(ops) && OnlyEndedSelected(ops)
    ensures SelectedEnded(Run(ops)) && ActiveLocked(Run(ops).db)
  {
    if ops != [] {
      var init, op := ops[..|ops| - 1], ops[|ops| - 1];
      UnlessReinsertedLocked(init);
      StepKeepsSelectedEnded(Run(init), op);
      ApplyUnlocksExactly(Run(init), op);
    }
  }

  // ----- A stale selection -------------------------------------------------

  const JOB := Handoff.PARENT

  lemma StillNothing(ops: seq<Op>, op: Op)
    requires NothingReinserted(ops) && !Reinserts(Run(ops), op)
    ensures NothingReinserted(ops + [op])
  {
    assert (ops + [op])[..|ops|] == ops;
  }

  lemma Submitted(ops: seq<Op>) returns (more: seq<Op>)
    requires Run(ops).db == EMPTY.db && Run(ops).validated == {}
    ensures Run(more) == Run(ops).(db := Store(map[1 := Row(JOB)], map[], map[]))
    ensures NothingReinserted(ops) && 1 !in Run(ops).selected ==> NothingReinserted(more)
  {
    Handoff.InsertOne(Run(ops), JOB);
    RunSnoc(ops, Validate([JOB]));
    var mid := ops + [Validate([JOB])];
    RunSnoc(mid, InsertBatch([JOB]));
    more := mid + [InsertBatch([JOB])];
    if NothingReinserted(ops) && 1 !in Run(ops).selected {
      StillNothing(ops, Validate([JOB]));
      StillNothing(mid, InsertBatch([JOB]));
    }
  }

  /** A job canceled and read as ended. */
  lemma CanceledAndSelected() returns (ops: seq<Op>)
    ensures var s := EMPTY.(db := CancelJob(Store(map[1 := Row(JOB)], map[], map[]), 1));
      Run(ops) == s.(selected := {1})
  {
    ops := Submitted([]);
    var s := Run(ops).db;
    RunSnoc(ops, CancelOneJob(1));
    Acyclicity.CancelEnds(s, 1);
    ops := ops + [CancelOneJob(1)];
    RunSnoc(ops, Select({1}));
    ops := ops + [Select({1})];
  }

  /** Then cleaned up by someone else. */
  lemma SelectedThenGone() returns (ops: seq<Op>)
    ensures Run(ops) == EMPTY.(selected := {1})
  {
    ops := CanceledAndSelected();
    RunSnoc(ops, CleanupJob(1));
    Acyclicity.CancelAndCleanupRemoves(Store(map[1 := Row(JOB)], map[], map[]), 1);
    ops := ops + [CleanupJob(1)];
  }

  /** The id is submitted again and claimed before the strip: the job is then RUNNING without a lock. */
  lemma StaleSelectionUnlocks() returns (ops: seq<Op>)
    ensures var s := Run(ops).db; 1 in s.jobs && s.jobs[1].status == Running && 1 !in s.claims
  {
    ops := SelectedThenGone();
    ops := Submitted(ops);
    assert WithStatus(Run(ops).db.jobs, Queued) == {1};
    Handoff.NextIsLone(ops, 1, "runner");
    RunSnoc(ops, ClaimNextJob("runner", Handoff.ANY));
    ops := ops + [ClaimNextJob("runner", Handoff.ANY)];
    RunSnoc(ops, StripRows({1}));
    ops := ops + [StripRows({1})];
  }

  // ----- A live selection --------------------------------------------------

  lemma JobClaimed() returns (ops: seq<Op>)
    ensures Run(ops).db == Store(map[1 := Row(JOB).(status := Running)], map[1 := "runner"], map[])
    ensures NothingReinserted(ops)
  {
    ops := Submitted([]);
    assert WithStatus(Run(ops).db.jobs, Queued) == {1};
    Handoff.NextIsLone(ops, 1, "runner");
    StillNothing(ops, ClaimNextJob("runner", Handoff.ANY));
    ops := ops + [ClaimNextJob("runner", Handoff.ANY)];
  }

  lemma RunningJobGoes(s: Store)
    requires s == Store(map[1 := Row(JOB).(status := Running)], map[1 := "runner"], map[])
    ensures Strip(s, {1}) == Store(map[1 := Row(JOB).(status := Running, details := map[])], map[], map[])
    ensures Delete(Strip(s, {1}), {1}).jobs == map[]
  {
    assert Row(JOB).afterOk == {} && Row(JOB).details == SCRIPT;
    var t := Strip(s, {1});
    assert t.jobs == map[1 := Row(JOB).(status := Running, details := map[])] && t.claims == map[];
    assert Deletable(t, {1});
    assert t.jobs - {1} == map[];
  }

  /** Nothing stops a bulk cleanup from selecting a running job: stripped, it runs on without a lock, and then its row
      goes. */
  lemma LiveSelectionUnlocks() returns (ops: seq<Op>)
    ensures NothingReinserted(ops)
    ensures var s := Run(ops).db; 1 in s.jobs && s.jobs[1].status == Running && 1 !in s.claims
    ensures Run(ops + [DeleteRows({1})]).db.jobs == map[]
  {
    hide Strip, Delete, Row;
    ops := JobClaimed();
    RunningJobGoes(Run(ops).db);
    RunSnoc(ops, Select({1}));
    StillNothing(ops, Select({1}));
    ops := ops + [Select({1})];
    RunSnoc(ops, StripRows({1}));
    StillNothing(ops, StripRows({1}));
    ops := ops + [StripRows({1})];
    RunSnoc(ops, DeleteRows({1}));
  }

  /** Or a waiting one: stripped of its edges, the next resolution pass queues it before its parent has run. */
  lemma LiveSelectionPromotes() returns (ops: seq<Op>)
    ensures var s := Run(ops).db;
      && Elements(Handoff.CHILD.afterOk) == {1} && 1 in s.jobs && 2 in s.jobs
      && s.jobs[1].status == Queued && s.jobs[2].status == Queued
  {
    ops := Handoff.SubmitBoth();
    RunSnoc(ops, Select({2}));
    ops := ops + [Select({2})];
    RunSnoc(ops, StripRows({2}));
    ops := ops + [StripRows({2})];
    var m := Run(ops).db.jobs;
    RunSnoc(ops, ResolvePass([2]));
    ops := ops + [ResolvePass([2])];
    assert [2][..0] == [];
    assert Resolve.Pass(m, [2]) == Resolve.ResolveOne(m, 2);
    assert ParentsMet(m, 2) && !HasFatalParent(m, 2);
  }
}
