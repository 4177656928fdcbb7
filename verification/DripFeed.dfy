/** An array claimed in budget-sized batches, and the budget that sizes them. */
module DripFeed {
  import opened Collections
  import opened Ordering
  import opened Jobs
  import opened Claims

  // ----- One batch ---------------------------------------------------------

  /** The gate holds a batch back only when the budget is what cuts the array short, and either whole arrays
      are wanted or the budget is below the minimum. A tail that fits is never held back. */
  lemma DefersExactly(available: nat, maxTasks: int, minTasks: int, fullArray: bool)
    ensures Defers(available, maxTasks, minTasks, fullArray) <==>
      0 < maxTasks < available && (fullArray || maxTasks < minTasks)
  {
  }

  /** The tasks of one array nobody has locked. */
  ghost predicate NoneLocked(s: Store, arrayId: string) {
    QueuedTasks(s.jobs, arrayId) !! s.claims.Keys
  }

  /** A batch is the first tasks of the array in index order, as many as budget and supply allow; or nothing. */
  lemma BatchIsFirstTasks(s: Store, arrayId: string, gate: Gate, q: seq<Id>)
    requires NoneLocked(s, arrayId) && Lists(TaskOrder(s.jobs), QueuedTasks(s.jobs, arrayId), q)
    ensures Batch(s, arrayId, gate) ==
      if 0 < gate.maxTasks < |q| && (gate.fullArray || gate.maxTasks < gate.minTasks) then []
      else if 0 < gate.maxTasks < |q| then q[..gate.maxTasks]
      else q
  {
    var all := QueuedTasks(s.jobs, arrayId);
    assert all - s.claims.Keys == all;
    QueuedTasksExist(s.jobs, arrayId);
    TaskOrderIsStrict(s.jobs, all);
    ListingUnique(TaskOrder(s.jobs), all, FreeTasks(s, arrayId), q);
    DistinctCardinality(q);
    DefersExactly(|q|, gate.maxTasks, gate.minTasks, gate.fullArray);
  }

  // ----- Successive batches ------------------------------------------------

  /** Claim batch after batch of one array, each with its own budget and gates. */
  ghost function Drip(s: Store, arrayId: string, runner: string, gates: seq<Gate>): Store {
    if gates == [] then s else
      var t := Drip(s, arrayId, runner, gates[..|gates| - 1]);
      Claim(t, Elements(Batch(t, arrayId, gates[|gates| - 1])), runner)
  }

  ghost function DripTasks(s: Store, arrayId: string, runner: string, gates: seq<Gate>): seq<Id> {
    if gates == [] then [] else
      var init := gates[..|gates| - 1];
      DripTasks(s, arrayId, runner, init) + Batch(Drip(s, arrayId, runner, init), arrayId, gates[|gates| - 1])
  }

  lemma ListsDrop(less: (Id, Id) -> bool, s: set<Id>, q: seq<Id>, n: nat)
    requires Lists(less, s, q) && n <= |q|
    ensures Lists(less, s - Elements(q[..n]), q[n..])
  {
    forall x ensures x in q[n..] <==> x in s - Elements(q[..n]) {
      assert x in s <==> x in Elements(q);
      assert q == q[..n] + q[n..];
    }
  }

  /** Claiming a prefix of the queue order leaves exactly the rest, in the same order. */
  lemma ClaimLeavesRest(s: Store, arrayId: string, runner: string, q: seq<Id>, n: nat)
    requires NoneLocked(s, arrayId) && Lists(TaskOrder(s.jobs), QueuedTasks(s.jobs, arrayId), q) && n <= |q|
    ensures var t := Claim(s, Elements(q[..n]), runner);
      NoneLocked(t, arrayId) && Lists(TaskOrder(t.jobs), QueuedTasks(t.jobs, arrayId), q[n..])
  {
    var taken := Elements(q[..n]);
    var t := Claim(s, taken, runner);
    var all := QueuedTasks(s.jobs, arrayId);
    forall j ensures j in QueuedTasks(t.jobs, arrayId) <==> j in all - taken {
      if j in s.jobs { assert t.jobs[j].details == s.jobs[j].details; }
    }
    assert QueuedTasks(t.jobs, arrayId) == all - taken;
    ListsDrop(TaskOrder(s.jobs), all, q, n);
    var rest := q[n..];
    forall i, k | 0 <= i < k < |rest| ensures TaskOrder(t.jobs)(rest[i], rest[k]) {
      assert TaskOrder(s.jobs)(rest[i], rest[k]);
      assert t.jobs[rest[i]].details == s.jobs[rest[i]].details && t.jobs[rest[k]].details == s.jobs[rest[k]].details;
    }
  }

  lemma OneMoreBatch(s: Store, arrayId: string, runner: string, gate: Gate, q: seq<Id>)
    requires NoneLocked(s, arrayId) && Lists(TaskOrder(s.jobs), QueuedTasks(s.jobs, arrayId), q)
    ensures var batch := Batch(s, arrayId, gate);
      var t := Claim(s, Elements(batch), runner);
      && |batch| <= |q| && batch == q[..|batch|]
      && NoneLocked(t, arrayId) && Lists(TaskOrder(t.jobs), QueuedTasks(t.jobs, arrayId), q[|batch|..])
  {
    BatchIsFirstTasks(s, arrayId, gate, q);
    var batch := Batch(s, arrayId, gate);
    assert batch == q[..|batch|];
    ClaimLeavesRest(s, arrayId, runner, q, |batch|);
  }

  lemma PrefixPlusPrefix(q: seq<Id>, n: nat, k: nat)
    requires n + k <= |q|
    ensures q[..n] + q[n..][..k] == q[..n + k] && q[n..][k..] == q[n + k..]
  {
  }

  /** Successive batches, concatenated, are a prefix of the array in index order: no task twice, none skipped. */
  lemma {:induction false} BatchesPartition(s: Store, arrayId: string, runner: string, gates: seq<Gate>, q: seq<Id>)
    requires NoneLocked(s, arrayId) && Lists(TaskOrder(s.jobs), QueuedTasks(s.jobs, arrayId), q)
    ensures var done := DripTasks(s, arrayId, runner, gates);
      var t := Drip(s, arrayId, runner, gates);
      && |done| <= |q| && done == q[..|done|]
      && NoneLocked(t, arrayId) && Lists(TaskOrder(t.jobs), QueuedTasks(t.jobs, arrayId), q[|done|..])
  {
    if gates == [] {
      assert q[0..] == q;
    } else {
      var init, gate := gates[..|gates| - 1], gates[|gates| - 1];
      BatchesPartition(s, arrayId, runner, init, q);
      var done, t := DripTasks(s, arrayId, runner, init), Drip(s, arrayId, runner, init);
      OneMoreBatch(t, arrayId, runner, gate, q[|done|..]);
      PrefixPlusPrefix(q, |done|, |Batch(t, arrayId, gate)|);
    }
  }

  // ----- The budget of a pass ----------------------------------------------

  /** clampMinArray: the minimum, bounded by the smaller of the caps that are set; -1 when none is. */
  function ClampMinArray(minArray: int, maxUserJobs: int, maxJobs: int): (r: (int, int, bool)) {
    var user := if maxUserJobs > 0 then maxUserJobs else -1;
    var ceiling := if maxJobs > 0 && (user < 0 || maxJobs < user) then maxJobs else user;
    if minArray > 0 && ceiling > 0 && minArray > ceiling then (ceiling, ceiling, true) else (minArray, ceiling, false)
  }

  /** The task budget of one iteration of Start; None stops the pass. -1 is unbounded. */
  function PassBudget(maxUserJobs: int, inQueue: nat, availJobs: int): Option<int> {
    if maxUserJobs > 0 && maxUserJobs - inQueue <= 0 then None
    else if availJobs == 0 then None
    else
      var budget := if maxUserJobs > 0 then maxUserJobs - inQueue else -1;
      Some(if availJobs > 0 && (budget < 0 || availJobs < budget) then availJobs else budget)
  }

  /** A budget never exceeds either cap, and is positive or unbounded. */
  lemma BudgetRespectsCaps(maxUserJobs: int, inQueue: nat, availJobs: int)
    requires PassBudget(maxUserJobs, inQueue, availJobs).Some?
    ensures var b := PassBudget(maxUserJobs, inQueue, availJobs).value;
      && (b == -1 <==> maxUserJobs <= 0 && availJobs < 0) && b != 0 && b >= -1
      && (maxUserJobs > 0 ==> inQueue + b <= maxUserJobs)
      && (availJobs > 0 ==> b <= availJobs)
  {
  }

  /** With an empty SLURM queue and no job submitted yet, the budget is the ceiling clampMinArray computed. */
  lemma FullBudgetIsCeiling(minArray: int, maxUserJobs: int, maxJobs: int)
    requires maxJobs == -1 || maxJobs > 0
    ensures PassBudget(maxUserJobs, 0, maxJobs) == Some(ClampMinArray(minArray, maxUserJobs, maxJobs).1)
  {
  }

  /** So a pass at the full ceiling never defers an array, however large, unless whole arrays are demanded. */
  lemma ClampedNeverStarves(minArray: int, maxUserJobs: int, maxJobs: int, available: nat, fullArray: bool)
    requires maxJobs == -1 || maxJobs > 0
    ensures var min := ClampMinArray(minArray, maxUserJobs, maxJobs).0;
      var budget := PassBudget(maxUserJobs, 0, maxJobs).value;
      Defers(available, budget, min, fullArray) <==> fullArray && 0 < budget < available
  {
    var min := ClampMinArray(minArray, maxUserJobs, maxJobs).0;
    var budget := PassBudget(maxUserJobs, 0, maxJobs).value;
    DefersExactly(available, budget, min, fullArray);
  }

  /** clampMinArray: the ceiling is the smallest cap that is set (-1 if none is), and only a larger minimum is cut down
      to it. */
  lemma ClampExactly(minArray: int, maxUserJobs: int, maxJobs: int)
    ensures var (min, ceiling, clamped) := ClampMinArray(minArray, maxUserJobs, maxJobs);
      && (maxUserJobs <= 0 && maxJobs <= 0 ==> ceiling == -1)
      && (maxUserJobs > 0 && maxJobs <= 0 ==> ceiling == maxUserJobs)
      && (maxUserJobs <= 0 && maxJobs > 0 ==> ceiling == maxJobs)
      && (maxUserJobs > 0 && maxJobs > 0 ==>
            ceiling <= maxUserJobs && ceiling <= maxJobs && (ceiling == maxUserJobs || ceiling == maxJobs))
      && (clamped <==> 0 < ceiling < minArray)
      && (clamped ==> min == ceiling) && (!clamped ==> min == minArray)
  {}

  /** A pass stops exactly if the SLURM queue is full or no job is left; otherwise it may take all that either cap
      leaves. */
  lemma BudgetExactly(maxUserJobs: int, inQueue: nat, availJobs: int)
    ensures PassBudget(maxUserJobs, inQueue, availJobs).None? <==>
      (maxUserJobs > 0 && inQueue >= maxUserJobs) || availJobs == 0
    ensures PassBudget(maxUserJobs, inQueue, availJobs).Some? ==>
      var b := PassBudget(maxUserJobs, inQueue, availJobs).value;
      && (maxUserJobs > 0 && availJobs < 0 ==> b + inQueue == maxUserJobs)
      && (maxUserJobs <= 0 && availJobs > 0 ==> b == availJobs)
      && (maxUserJobs > 0 && availJobs > 0 ==> b + inQueue == maxUserJobs || b == availJobs)
  {}
}
