/** What handing a job to SLURM costs: a run in which a successful job ends up with a failed parent. */
module Handoff {
  import opened Collections
  import opened Jobs
  import opened Claims
  import opened Transactions
  import opened Lifecycle
  import opened Runs
  import Resolve

  const ANY := Limits(0, 0, 0, map[])
  const PARENT := Submit(1, [], false, 0, 0, SCRIPT)
  const CHILD := Submit(2, [1], false, 0, 0, SCRIPT)

  function Plain(st: Status, parents: set<Id>): Job { Job(st, 0, 0, parents, SCRIPT) }

  function Two(a: Status, b: Status): JobTable { map[1 := Plain(a, {}), 2 := Plain(b, {1})] }

  /** A plain queued job that is alone in the queue is the one a runner without bounds gets. */
  lemma LoneClaim(s: Store, j: Id, runner: string)
    requires WithStatus(s.jobs, Queued) == {j} && j in s.jobs && s.jobs[j].details == SCRIPT && j !in s.claims
    ensures ClaimNext(s, runner, ANY) == Claim(s, {j}, runner)
  {
    assert j in WithStatus(s.jobs, Queued);
    assert Fits(s.jobs, ANY, j) && ThrottleOk(s.jobs, j);
    assert Admissible(s.jobs, ANY) - s.claims.Keys == {j} by {
      forall k | k in Admissible(s.jobs, ANY) ensures k == j { assert k in WithStatus(s.jobs, Queued); }
      assert j in Admissible(s.jobs, ANY);
    }
  }

  lemma NextIsLone(ops: seq<Op>, j: Id, runner: string)
    requires var s := Run(ops).db;
      WithStatus(s.jobs, Queued) == {j} && j in s.jobs && s.jobs[j].details == SCRIPT && j !in s.claims
    ensures Run(ops + [ClaimNextJob(runner, ANY)]).db == Claim(Run(ops).db, {j}, runner)
  {
    LoneClaim(Run(ops).db, j, runner);
    RunSnoc(ops, ClaimNextJob(runner, ANY));
  }

  lemma InsertOne(s: Server, job: Submit)
    requires s.validated == {} && DepsValid(s.db.jobs, job.afterOk) && RowAccepted(s.db.jobs, job)
    ensures Apply(Apply(s, Validate([job])), InsertBatch([job])) ==
      s.(db := s.db.(jobs := s.db.jobs[job.id := Row(job)]))
  {
    assert [job][..0] == [];
    assert InsertRows(s.db.jobs, [job]) == Some(s.db.jobs[job.id := Row(job)]);
    var v := Apply(s, Validate([job]));
    assert v == s.(validated := {[job]});
    assert v.validated - {[job]} == {};
  }

  lemma SubmitBoth() returns (ops: seq<Op>)
    ensures Run(ops) == Server(Store(Two(Queued, Waiting), map[], map[]), {}, {})
  {
    ops := [];
    InsertOne(Run(ops), PARENT);
    RunSnoc(ops, Validate([PARENT]));
    RunSnoc(ops + [Validate([PARENT])], InsertBatch([PARENT]));
    ops := ops + [Validate([PARENT])] + [InsertBatch([PARENT])];
    InsertOne(Run(ops), CHILD);
    RunSnoc(ops, Validate([CHILD]));
    RunSnoc(ops + [Validate([CHILD])], InsertBatch([CHILD]));
    ops := ops + [Validate([CHILD])] + [InsertBatch([CHILD])];
    assert Elements(CHILD.afterOk) == {1};
    assert Elements(PARENT.afterOk) == {};
    assert Run(ops).db.jobs == Two(Queued, Waiting);
  }

  lemma ParentIsLone(s: Store)
    requires s == Store(Two(Queued, Waiting), map[], map[])
    ensures WithStatus(s.jobs, Queued) == {1}
    ensures Claim(s, {1}, "slurm").jobs == Two(Running, Waiting) && Claim(s, {1}, "slurm").claims == map[1 := "slurm"]
  {
  }

  lemma ClaimParent() returns (ops: seq<Op>)
    ensures Run(ops).db.jobs == Two(Running, Waiting) && Run(ops).db.claims == map[1 := "slurm"]
  {
    hide Claim, WithStatus;
    ops := SubmitBoth();
    ParentIsLone(Run(ops).db);
    NextIsLone(ops, 1, "slurm");
    ops := ops + [ClaimNextJob("slurm", ANY)];
  }

  lemma ProxyParent() returns (ops: seq<Op>)
    ensures Run(ops).db.jobs == Two(ProxyQueued, Waiting) && Run(ops).db.claims == map[1 := "slurm"]
  {
    ops := ClaimParent();
    var op := MarkJobProxied(1, "slurm", map[]);
    RunSnoc(ops, op);
    ops := ops + [op];
  }

  lemma PromoteChild() returns (ops: seq<Op>)
    ensures Run(ops).db.jobs == Two(ProxyQueued, Queued) && Run(ops).db.claims == map[1 := "slurm"]
  {
    ops := ProxyParent();
    var m, op := Run(ops).db.jobs, ResolvePass([2]);
    RunSnoc(ops, op);
    ops := ops + [op];
    assert [2][..0] == [];
    assert Resolve.Pass(m, [2]) == Resolve.ResolveOne(m, 2);
    assert ParentsMet(m, 2) && !HasFatalParent(m, 2);
  }

  lemma ChildIsLone(s: Store)
    requires s.jobs == Two(ProxyQueued, Queued) && s.claims == map[1 := "slurm"]
    ensures WithStatus(s.jobs, Queued) == {2}
    ensures Claim(s, {2}, "local").jobs == Two(ProxyQueued, Running)
    ensures Claim(s, {2}, "local").claims == map[1 := "slurm", 2 := "local"]
  {
  }

  lemma ClaimChild() returns (ops: seq<Op>)
    ensures Run(ops).db.jobs == Two(ProxyQueued, Running) && Run(ops).db.claims == map[1 := "slurm", 2 := "local"]
  {
    ops := PromoteChild();
    ChildIsLone(Run(ops).db);
    NextIsLone(ops, 2, "local");
    ops := ops + [ClaimNextJob("local", ANY)];
  }

  /** j succeeded although a parent did not. */
  ghost predicate Outlived(s: Store, j: Id) {
    && j in s.jobs && s.jobs[j].status == Success
    && exists p :: p in s.jobs[j].afterOk && p in s.jobs && s.jobs[p].status != Success
  }

  ghost predicate HasProxiedParent(s: Store, j: Id)
    requires j in s.jobs
  {
    exists p :: p in s.jobs[j].afterOk && p in s.jobs && s.jobs[p].status == ProxyQueued
  }

  lemma SuccessLeavesParents(s: Store, j: Id, runner: string, p: Id)
    requires j in s.jobs && s.jobs[j].status == Running && Owns(s, j, runner) && p in s.jobs && p != j
    ensures var t := EndJob(s, j, runner, 0);
      && j in t.jobs && t.jobs[j] == s.jobs[j].(status := Success) && p in t.jobs && t.jobs[p] == s.jobs[p]
  {
  }

  lemma FailureLeavesEnded(s: Store, p: Id, j: Id)
    requires p in s.jobs && s.jobs[p].status == ProxyQueued && j in s.jobs && j != p && !s.jobs[j].status.Live()
    ensures var t := EndProxied(s, p, Failed);
      && p in t.jobs && t.jobs[p].status == Failed && j in t.jobs && t.jobs[j] == s.jobs[j]
  {
    var d := FinishFails(s.jobs, p, Failed);
  }

  /** Two steps lead from a running job with a handed-off parent to a success under a failed parent. */
  lemma ProxiedParentMayFail(s: Server, j: Id, p: Id) returns (more: seq<Op>)
    requires j in s.db.jobs && s.db.jobs[j].status == Running && j in s.db.claims
    requires p in s.db.jobs[j].afterOk && p in s.db.jobs && s.db.jobs[p].status == ProxyQueued
    ensures Spares(more, j) && Outlived(RunFrom(s, more).db, j)
  {
    hide Spares, EndJob, EndProxied, Apply, RunFrom;
    var first, second := EndOwnJob(j, s.db.claims[j], 0), EndProxiedJob(p, Failed);
    more := [first, second];
    TwoSteps(s, first, second);
    EndsSpareAll(j, p, s.db.claims[j]);
    EndsApply(s, j, s.db.claims[j]);
    EndsProxiedApply(Apply(s, first), p);
    SuccessLeavesParents(s.db, j, s.db.claims[j], p);
    FailureLeavesEnded(Apply(s, first).db, p, j);
  }

  lemma EndsApply(s: Server, j: Id, runner: string)
    ensures Apply(s, EndOwnJob(j, runner, 0)).db == EndJob(s.db, j, runner, 0)
  {}

  lemma EndsProxiedApply(s: Server, p: Id)
    ensures Apply(s, EndProxiedJob(p, Failed)).db == EndProxied(s.db, p, Failed)
  {}

  lemma EndsSpareAll(j: Id, p: Id, runner: string)
    ensures forall k :: Spares([EndOwnJob(j, runner, 0), EndProxiedJob(p, Failed)], k)
  {
  }

  lemma TwoSteps(s: Server, first: Op, second: Op)
    ensures RunFrom(s, [first, second]) == Apply(Apply(s, first), second)
  {
    assert [first, second][..1] == [first] && [first][..0] == [];
    assert RunFrom(s, []) == s && RunFrom(s, [first]) == Apply(s, first);
  }

  /** In every reachable state, a claimed running job can still succeed under an unsuccessful parent exactly if one of
      its parents is handed off right now: the guard the resolution pass let through. */
  lemma OutlivedExactly(before: seq<Op>, j: Id)
    requires var s := Run(before).db; j in s.jobs && s.jobs[j].status == Running && j in s.claims
    ensures HasProxiedParent(Run(before).db, j) <==>
      exists more :: Spares(more, j) && Outlived(RunFrom(Run(before), more).db, j)
  {
    EveryRunIsValid(before);
    var s := Run(before);
    if HasProxiedParent(s.db, j) {
      var p :| p in s.db.jobs[j].afterOk && p in s.db.jobs && s.db.jobs[p].status == ProxyQueued;
      var more := ProxiedParentMayFail(s, j, p);
    } else {
      forall more | Spares(more, j) ensures !Outlived(RunFrom(s, more).db, j) {
        EdgesStay(s, more, j);
        forall p | p in s.db.jobs[j].afterOk
          ensures p in RunFrom(s, more).db.jobs && RunFrom(s, more).db.jobs[p].status == Success
        {
          assert s.db.jobs[p].status == Success;
          ParentStays(before, more, j, p);
        }
      }
    }
  }

  /** Such a job exists: with handoff, a job can succeed and its parent still fail. */
  lemma SuccessMayOutliveParent() returns (ops: seq<Op>)
    ensures Outlived(Run(ops).db, 2)
  {
    var before := ClaimChild();
    var more := ProxiedParentMayFail(Run(before), 2, 1);
    RunAppend(before, more);
    ops := before + more;
  }
}
