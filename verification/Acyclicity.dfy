/** The dependency graph over whole runs: when it stays acyclic, and why waiting always ends. */
module Acyclicity {
  import opened Collections
  import opened Jobs
  import opened Graph
  import opened Claims
  import opened Transactions
  import opened Lifecycle
  import Cascade
  import Resolve

  ghost predicate HasRanking(m: JobTable) { exists rank: map<Id, nat> :: Ranked(m, rank) }

  /** The submit names its own id among its parents. */
  predicate NamesItself(job: Submit) { job.id in job.afterOk }

  ghost predicate NobodyNamesItself(ops: seq<Op>) {
    forall i, k :: 0 <= i < |ops| && ops[i].InsertBatch? && 0 <= k < |ops[i].batch| ==> !NamesItself(ops[i].batch[k])
  }

  lemma NewRowOnTop(m: JobTable, rank: map<Id, nat>, job: Submit)
    requires ParentsExist(m) && Ranked(m, rank) && RowAccepted(m, job) && !NamesItself(job)
    ensures Ranked(m[job.id := Row(job)], rank[job.id := RankBound(rank)])
  {
    var n, top := m[job.id := Row(job)], rank[job.id := RankBound(rank)];
    forall p, c | Link(n, n.Keys, p, c) && p in top ensures top[p] < top[c] {
      if c == job.id {
        assert p in job.afterOk && p in m;
      } else {
        assert Link(m, m.Keys, p, c) && p in m;
      }
    }
  }

  /** Inserting a row the table accepts closes a cycle exactly when the row names itself. */
  lemma CycleIffSelfNamed(m: JobTable, job: Submit)
    requires ParentsExist(m) && HasRanking(m) && RowAccepted(m, job)
    ensures Acyclic(m[job.id := Row(job)]) <==> !NamesItself(job)
  {
    var n := m[job.id := Row(job)];
    if NamesItself(job) {
      assert Link(n, n.Keys, job.id, job.id);
      DownstreamStep(n, n.Keys, {job.id}, job.id, job.id);
    } else {
      var rank: map<Id, nat> :| Ranked(m, rank);
      NewRowOnTop(m, rank, job);
      assert ParentsExist(n);
      RankedIsAcyclic(n, rank[job.id := RankBound(rank)]);
    }
  }

  lemma {:induction false} InsertKeepsRanking(s: Store, batch: seq<Submit>)
    requires Valid(s) && HasRanking(s.jobs)
    requires forall k :: 0 <= k < |batch| ==> !NamesItself(batch[k])
    ensures InsertRows(s.jobs, batch).Some? ==> HasRanking(InsertRows(s.jobs, batch).value)
  {
    if batch != [] && InsertRows(s.jobs, batch).Some? {
      var init, job := batch[..|batch| - 1], batch[|batch| - 1];
      InsertKeepsRanking(s, init);
      InsertKeepsValid(s, init);
      var m := InsertRows(s.jobs, init).value;
      var rank: map<Id, nat> :| Ranked(m, rank);
      NewRowOnTop(m, rank, job);
    }
  }

  /** Apart from insertion, transactions add no rows and no edges. */
  ghost predicate Shrinks(m: JobTable, n: JobTable) {
    forall j :: j in n ==> j in m && n[j].afterOk <= m[j].afterOk
  }

  lemma ShrinkKeepsRanking(m: JobTable, n: JobTable)
    requires HasRanking(m) && Shrinks(m, n)
    ensures HasRanking(n)
  {
    var rank: map<Id, nat> :| Ranked(m, rank);
    forall p, c | Link(n, n.Keys, p, c) && p in rank ensures rank[p] < rank[c] {
      assert Link(m, m.Keys, p, c);
    }
    assert Ranked(n, rank);
  }

  lemma OtherStepsShrink(s: Store, op: Op)
    requires !op.InsertBatch?
    ensures Shrinks(s.jobs, ApplyDb(s, op).jobs)
  {
    match op
    case ResolvePass(order) => Resolve.PassDecides(s.jobs, order);
    case CancelOneJob(j) => Cascade.CancelDoomsExactly(s.jobs, j);
    case CancelMembers(members) => Cascade.CancelEachDoomsExactly(s.jobs, members);
    case _ =>
  }

  lemma {:induction false} RunsStayRanked(ops: seq<Op>)
    requires NobodyNamesItself(ops)
    ensures HasRanking(Run(ops).db.jobs)
  {
    if ops == [] {
      assert Ranked(Run(ops).db.jobs, map[]);
    } else {
      var init, op := ops[..|ops| - 1], ops[|ops| - 1];
      RunsStayRanked(init);
      EveryRunIsValid(init);
      var s := Run(init).db;
      if op.InsertBatch? {
        InsertKeepsRanking(s, op.batch);
      } else {
        OtherStepsShrink(s, op);
        ShrinkKeepsRanking(s.jobs, ApplyDb(s, op).jobs);
      }
    }
  }

  /** The graph is acyclic in every reachable state as long as no submit names itself. */
  lemma RunsStayAcyclic(ops: seq<Op>)
    requires NobodyNamesItself(ops)
    ensures Acyclic(Run(ops).db.jobs)
  {
    RunsStayRanked(ops);
    EveryRunIsValid(ops);
    var rank: map<Id, nat> :| Ranked(Run(ops).db.jobs, rank);
    RankedIsAcyclic(Run(ops).db.jobs, rank);
  }

  /** No deadlock: once resolution has settled, every waiting job waits, through waiting jobs only,
      for one that is queued, running or held. */
  lemma NoDeadlock(ops: seq<Op>, j: Id) returns (path: seq<Id>)
    requires NobodyNamesItself(ops)
    requires var m := Run(ops).db.jobs; Resolve.Settled(m) == m && j in m && m[j].status == Waiting
    ensures var m := Run(ops).db.jobs;
      && Chain(m, PendingJobs(m), path) && |path| > 1 && path[|path| - 1] == j
      && path[0] in m && Resolve.Movable(m[path[0]].status)
  {
    RunsStayRanked(ops);
    EveryRunIsValid(ops);
    var m := Run(ops).db.jobs;
    var rank: map<Id, nat> :| Ranked(m, rank);
    path := Resolve.WaitingHasMovableAncestor(m, rank, j);
  }

  // ----- The case validation alone does not exclude ------------------------

  const FIRST := Submit(1, [], false, 0, 0, SCRIPT)
  const AGAIN := Submit(1, [1], false, 0, 0, SCRIPT)

  lemma InsertSingle(s: Store, job: Submit)
    requires RowAccepted(s.jobs, job)
    ensures Insert(s, [job]) == s.(jobs := s.jobs[job.id := Row(job)])
  {
    assert [job][..0] == [];
    assert InsertRows(s.jobs, [job]) == Some(s.jobs[job.id := Row(job)]);
  }

  lemma SubmitThenRevalidate()
    ensures Run([Validate([FIRST]), InsertBatch([FIRST]), Validate([AGAIN])])
         == Server(Store(map[1 := Row(FIRST)], map[], map[]), {[AGAIN]}, {})
  {
    RunSnoc([], Validate([FIRST]));
    assert [] + [Validate([FIRST])] == [Validate([FIRST])];
    RunSnoc([Validate([FIRST])], InsertBatch([FIRST]));
    InsertSingle(EMPTY.db, FIRST);
    assert [Validate([FIRST])] + [InsertBatch([FIRST])] == [Validate([FIRST]), InsertBatch([FIRST])];
    RunSnoc([Validate([FIRST]), InsertBatch([FIRST])], Validate([AGAIN]));
    assert [Validate([FIRST]), InsertBatch([FIRST])] + [Validate([AGAIN])]
        == [Validate([FIRST]), InsertBatch([FIRST]), Validate([AGAIN])];
  }

  /** A job with no dependents can be canceled and cleaned away. */
  lemma CancelAndCleanupRemoves(s: Store, j: Id)
    requires s.jobs.Keys == {j} && s.claims == map[] && s.running == map[]
    ensures Cleanup(CancelJob(s, j), j) == Store(map[], map[], map[])
  {
    Cascade.CancelDoomsExactly(s.jobs, j);
    var n := Strip(CancelJob(s, j), {j});
    assert n.jobs.Keys == {j};
    assert Deletable(n, {j});
    assert n.jobs - {j} == map[];
  }

  lemma CancelEnds(s: Store, j: Id)
    requires s.jobs.Keys == {j}
    ensures var t := CancelJob(s, j); t.jobs.Keys == {j} && !t.jobs[j].status.Live()
  {
    Cascade.CancelDoomsExactly(s.jobs, j);
  }

  /** Validation reads before the insert transaction begins. If the id is canceled and cleaned up in between,
      a submit may name itself and is accepted: the job then waits for itself. */
  lemma ValidationAloneAllowsSelfLoop() returns (ops: seq<Op>)
    ensures !Acyclic(Run(ops).db.jobs)
  {
    var o3 := [Validate([FIRST]), InsertBatch([FIRST]), Validate([AGAIN])];
    SubmitThenRevalidate();
    RunSnoc(o3, CancelOneJob(1));
    RunSnoc(o3 + [CancelOneJob(1)], CleanupJob(1));
    CancelAndCleanupRemoves(Run(o3).db, 1);
    var o5 := o3 + [CancelOneJob(1)] + [CleanupJob(1)];
    RunSnoc(o5, InsertBatch([AGAIN]));
    InsertSingle(Run(o5).db, AGAIN);
    ops := o5 + [InsertBatch([AGAIN])];
    var m := Run(ops).db.jobs;
    assert 1 in m && 1 in m[1].afterOk by { assert AGAIN.afterOk[0] == 1; }
    assert Link(m, m.Keys, 1, 1);
    DownstreamStep(m, m.Keys, {1}, 1, 1);
  }
}
