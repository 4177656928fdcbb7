/** The SLURM runner's passes: claim a budget-sized batch, hand it off, charge it against the job cap. */
module SlurmRunner {
  import opened Collections
  import opened Ordering
  import opened Jobs
  import opened Claims
  import opened DripFeed
  import opened Transactions
  import opened Sqlite
  import opened ClaimOutcomes

  /** A batch never exceeds a positive budget. */
  lemma BatchWithinBudget(s: Store, limits: Limits, gate: Gate)
    requires gate.maxTasks > 0
    ensures |NextBatch(s, limits, gate)| <= gate.maxTasks
  {
    var leads := BatchLeads(s, limits, gate);
    ClaimOrderIsStrict(s.jobs, leads);
    if leads != {} {
      var a := s.jobs[First(ClaimOrder(s.jobs), leads)].Detail("array_id");
      assert a != "" ==> |Batch(s, a, gate)| <= gate.maxTasks;
    }
  }

  /** Charge handed-off tasks against the jobs left; a cap that is not set is never charged. */
  function Charge(availJobs: int, submitted: nat): int {
    if availJobs > 0 then (if availJobs - submitted < 0 then 0 else availJobs - submitted) else availJobs
  }

  /** The tasks that are recorded as handed off: those whose request arrives and finds them in the runner's hands. */
  function Recorded(tasks: seq<Id>, runner: string, reached: nat -> bool, states: nat -> Store): nat {
    if tasks == [] then 0
    else
      var i := |tasks| - 1;
      Recorded(tasks[..i], runner, reached, states)
        + if reached(i) && ProxyAccepted(states(i), tasks[i], runner) then 1 else 0
  }

  class Runner {
    const id: string
    const maxJobs: int
    const maxUserJobs: int
    const minArray: int
    const fullArray: bool
    const resources: map<string, string>
    var availJobs: int
    ghost var handedOff: nat
    // handedOff: tasks submitted to SLURM and recorded as such.

    constructor (id: string, maxJobs: int, maxUserJobs: int, minArray: int, fullArray: bool,
                 resources: map<string, string>)
      ensures this.maxJobs == maxJobs && handedOff == 0
    {
      this.id, this.maxJobs, this.maxUserJobs, this.minArray := id, maxJobs, maxUserJobs, minArray;
      this.fullArray, this.resources := fullArray, resources;
      availJobs, handedOff := maxJobs, 0;
    }

    /** Between the runner's requests anybody may change the queue in any way. */
    method Others(store: SqliteStorage, next: Store)
      modifies store
      ensures store.Db() == next
    {
      store.jobs, store.claims, store.running := next.jobs, next.claims, next.running;
    }

    /** sbatch failed: every claimed task is canceled. */
    method CancelTasks(store: SqliteStorage, tasks: seq<Id>, states: nat -> Store)
      modifies store
    {
      for i := 0 to |tasks| {
        Others(store, states(i));
        var _ := store.CancelJob(tasks[i]);
      }
    }

    /** submitArrayBatch, and submitSingleJob for a batch of one: sbatch once, then record each task; a task that
        cannot be recorded is not counted. states gives the queue each request meets, reached whether it gets there. */
    method SubmitBatch(store: SqliteStorage, tasks: seq<Id>, details: map<string, string>, accepted: bool,
                       reached: nat -> bool, states: nat -> Store)
      returns (submitted: nat)
      modifies store, this`availJobs, this`handedOff
      ensures submitted == if accepted then Recorded(tasks, id, reached, states) else 0
      ensures submitted <= |tasks| && handedOff == old(handedOff) + submitted
      ensures availJobs == Charge(old(availJobs), submitted)
    {
      submitted := 0;
      if !accepted {
        CancelTasks(store, tasks, states);
        return;
      }
      for i := 0 to |tasks|
        invariant submitted == Recorded(tasks[..i], id, reached, states) <= i
        invariant availJobs == old(availJobs) && handedOff == old(handedOff)
      {
        assert tasks[..i + 1][..i] == tasks[..i];
        Others(store, states(i));
        if reached(i) {
          var ok := store.MarkJobProxied(tasks[i], id, details);
          if ok { submitted := submitted + 1; }
        }
      }
      assert tasks[..|tasks|] == tasks;
      handedOff := handedOff + submitted;
      if availJobs > 0 {
        availJobs := availJobs - submitted;
        if availJobs < 0 { availJobs := 0; }
      }
    }

    /** The task budget of one pass, from the SLURM queue length and the jobs left; None stops the runner. */
    method Budget(inQueue: nat) returns (maxTasks: Option<int>)
      ensures maxTasks == PassBudget(maxUserJobs, inQueue, availJobs)
    {
      var n := -1;
      if maxUserJobs > 0 {
        var budget := maxUserJobs - inQueue;
        if budget <= 0 { return None; }
        n := budget;
      }
      if availJobs == 0 { return None; }
      if availJobs > 0 && (n < 0 || availJobs < n) { n := availJobs; }
      return Some(n);
    }

    /** The loop of Start: pass after pass, each with the queue length squeue reports (or none, if it fails) and the
        state the queue is in when the claim arrives. With a cap, no run hands off more, and what is left is exactly the
        rest: the clamp at zero never hides an overdraft. It ends before the last pass only if squeue fails, if no task
        may be submitted, or if the claim finds nothing and is not told that more is eligible. */
    method Start(store: SqliteStorage, queueLengths: seq<Option<nat>>, states: nat -> Store)
      returns (submittedOne: bool, passes: nat)
      requires handedOff == 0
      modifies store, this`availJobs, this`handedOff
      ensures maxJobs > 0 ==> handedOff <= maxJobs && availJobs == maxJobs - handedOff
      ensures submittedOne <==> handedOff > 0
      ensures passes <= |queueLengths|
      ensures passes < |queueLengths| ==> var inQueue := queueLengths[passes];
        || inQueue.None?
        || PassBudget(maxUserJobs, inQueue.value, availJobs).None?
        || NextBatch(states(passes), Offer(), PassGate(PassBudget(maxUserJobs, inQueue.value, availJobs).value)) == []
    {
      hide NextBatch, BatchReport, LeadsToWork, IsLead, Recorded;
      submittedOne := false;
      availJobs := maxJobs;
      var minTasks := ClampMinArray(minArray, maxUserJobs, maxJobs).0;
      for n := 0 to |queueLengths|
        invariant maxJobs > 0 ==> handedOff <= maxJobs && availJobs == maxJobs - handedOff
        invariant submittedOne <==> handedOff > 0
      {
        passes := n;
        if queueLengths[n].None? { return; }
        var maxTasks := Budget(queueLengths[n].value);
        if maxTasks.None? { return; }
        BudgetRespectsCaps(maxUserJobs, queueLengths[n].value, availJobs);
        Others(store, states(n));
        var gate := Gate(maxTasks.value, minTasks, fullArray);
        var limits := Limits(-1, -1, -1, resources);
        if gate.maxTasks > 0 { BatchWithinBudget(store.Db(), limits, gate); }
        var tasks, moreEligible, blocked, deferred, throttle := store.ClaimNextArrayBatch(id, limits, gate);
        if tasks == [] {
          if !moreEligible { return; }
        } else {
          var accepted: bool := *;
          var reached: nat -> bool, later: nat -> Store := *, *;
          var submitted := SubmitBatch(store, tasks, map[], accepted, reached, later);
          if submitted > 0 { submittedOne := true; }
        }
      }
      passes := |queueLengths|;
    }

    /** What a claim offers, and the gate of a pass with this budget. */
    function Offer(): Limits { Limits(-1, -1, -1, resources) }

    function PassGate(maxTasks: int): Gate {
      Gate(maxTasks, ClampMinArray(minArray, maxUserJobs, maxJobs).0, fullArray)
    }
  }
}
