/** What a claim hands out, in columns, detail keys and numbers. */
module ClaimOutcomes {
  import opened Collections
  import opened Ordering
  import opened Text
  import opened Jobs
  import opened Claims

  // ----- Details that are numbers ------------------------------------------

  /** The detail is the numeral of n. A detail that is missing, or no numeral, counts as 0. */
  ghost predicate Asks(job: Job, key: string, n: int) {
    if key in job.details && Atoi(job.details[key]).Some?
    then MIN_INT <= n <= MAX_INT && Atoi(job.details[key]) == Atoi(Itoa(n))
    else n == 0
  }

  lemma AsksQuantity(job: Job, key: string, n: int)
    requires Asks(job, key, n)
    ensures Quantity(job, key) == n
  {
    if key in job.details && Atoi(job.details[key]).Some? {
      AtoiItoa(n);
    } else {
      assert Atoi("").None?;
    }
  }

  /** A job fits exactly if it asks for no more processors, memory and wall time than the bounds that are set. */
  lemma FitsBoundsExactly(job: Job, limits: Limits, procs: int, mem: int, walltime: int)
    requires Asks(job, "procs", procs) && Asks(job, "mem", mem) && Asks(job, "walltime", walltime)
    ensures FitsLimits(job, limits) <==>
      && (limits.maxProcs > 0 ==> procs <= limits.maxProcs)
      && (limits.maxMemory > 0 ==> mem <= limits.maxMemory)
      && (limits.maxWalltime > 0 ==> walltime <= limits.maxWalltime)
  {
    hide Quantity, Asks;
    AsksQuantity(job, "procs", procs);
    AsksQuantity(job, "mem", mem);
    AsksQuantity(job, "walltime", walltime);
  }

  // ----- Resources ---------------------------------------------------------

  /** What is required stands behind the prefix "resource.". */
  lemma FitsResourcesExactly(job: Job, pool: map<string, string>)
    ensures FitsResources(job, pool) <==>
      forall key :: key in job.details && "resource." <= key ==>
        Provides(pool, key[|"resource."|..], job.details[key])
  {
    hide Provides;
    if FitsResources(job, pool) {
      forall key | key in job.details && "resource." <= key
        ensures Provides(pool, key[|"resource."|..], job.details[key])
      {
        assert key == RESOURCE_PREFIX + key[|"resource."|..];
      }
    } else {
      var name :| RESOURCE_PREFIX + name in job.details && !Provides(pool, name, job.details[RESOURCE_PREFIX + name]);
      var key := RESOURCE_PREFIX + name;
      assert "resource." <= key && key[|"resource."|..] == name;
    }
  }

  /** A number is met by a supply that reaches it. */
  lemma NumberIsMet(pool: map<string, string>, name: string, n: nat)
    requires n <= MAX_INT
    ensures Provides(pool, name, Itoa(n)) <==> Supply(pool, name) >= n
  {
    hide Supply;
    AtoiItoa(n);
  }

  /** Anything else is a list: it is met by a pool whose own list for that name holds every entry of it, not counting
      space around an entry, nor empty entries. */
  lemma LabelsAreMet(pool: map<string, string>, name: string, need: seq<string>, offered: seq<string>)
    requires Parts(need) && Parts(offered) && Atoi(Join(need, ',')).None?
    requires name in pool && pool[name] == Join(offered, ',')
    ensures Provides(pool, name, Join(need, ',')) <==>
      forall n :: n in need && TrimSpace(n) != "" ==> exists o :: o in offered && TrimSpace(o) == TrimSpace(n)
    ensures !Provides(pool - {name}, name, Join(need, ','))
  {
    hide Join, Split, Atoi, TrimSpace;
    LabelsOfParts(need);
    LabelsOfParts(offered);
    if Join(need, ',') == "" { NothingNeeded(need); }
    forall n | n in need && TrimSpace(n) != "" ensures TrimSpace(n) in Labels(Join(need, ',')) {}
  }

  lemma NothingNeeded(need: seq<string>)
    requires Parts(need) && Join(need, ',') == ""
    ensures forall n :: n in need ==> TrimSpace(n) == ""
  {
    JoinedIsLong(need);
    assert TrimSpace("") == "";
  }

  lemma JoinedIsLong(need: seq<string>)
    ensures |need| > 1 ==> Join(need, ',') != ""
  {}

  /** The entries of a list, which hold no comma. */
  ghost predicate Parts(words: seq<string>) { words != [] && forall i :: 0 <= i < |words| ==> Free(words[i], ',') }

  lemma LabelsOfParts(words: seq<string>)
    requires Parts(words)
    ensures forall w :: w in Labels(Join(words, ',')) <==> w != "" && exists p :: p in words && TrimSpace(p) == w
  {
    hide Join, Split, TrimSpace;
    SplitJoin(words, ',');
  }

  /** An empty value asks only that the name be advertised. */
  lemma EmptyNeedIsMet(pool: map<string, string>, name: string)
    ensures Provides(pool, name, "") <==> name in pool
  {
    assert Atoi("").None?;
  }

  /** The supply, entry by entry: nothing in an empty pool; */
  lemma EmptySupply(name: string)
    ensures Supply(map[], name) == 0
  {
    assert TypedVariants(map[], name) == {};
  }

  /** the name's own count; */
  lemma OwnSupply(pool: map<string, string>, name: string, n: nat)
    requires name !in pool && n <= MAX_INT
    ensures Supply(pool[name := Itoa(n)], name) == Supply(pool, name) + n
  {
    AtoiItoa(n);
    var more := pool[name := Itoa(n)];
    assert !(name + ":" <= name);
    assert TypedVariants(more, name) == TypedVariants(pool, name);
    SumOverSame(TypedVariants(pool, name), v => CountIn(more, v), v => CountIn(pool, v));
  }

  /** for an untyped name, also the count of every entry "name:type"; */
  lemma VariantSupply(pool: map<string, string>, name: string, kind: string, n: nat)
    requires Free(name, ':') && name + ":" + kind !in pool && n <= MAX_INT
    ensures Supply(pool[name + ":" + kind := Itoa(n)], name) == Supply(pool, name) + n
  {
    AtoiItoa(n);
    var v := name + ":" + kind;
    var more := pool[v := Itoa(n)];
    assert name != v && name + ":" <= v;
    var before, after := TypedVariants(pool, name), TypedVariants(more, name);
    assert after == before + {v} && v !in before;
    SumOverPick(after, u => CountIn(more, u), v);
    assert after - {v} == before;
    SumOverSame(before, u => CountIn(more, u), u => CountIn(pool, u));
  }

  /** and nothing else, for a typed name not even its siblings. */
  lemma OtherSupply(pool: map<string, string>, name: string, other: string, value: string)
    requires other !in pool && other != name && (name + ":" <= other ==> !Free(name, ':'))
    ensures Supply(pool[other := value], name) == Supply(pool, name)
  {
    var more := pool[other := value];
    if Free(name, ':') {
      assert TypedVariants(more, name) == TypedVariants(pool, name);
      SumOverSame(TypedVariants(pool, name), u => CountIn(more, u), u => CountIn(pool, u));
    }
  }

  /** A label list, or a negative number, supplies no count. */
  lemma LabelSupply(pool: map<string, string>, name: string, value: string)
    requires name !in pool && (Atoi(value).None? || Atoi(value).value < 0)
    ensures Supply(pool[name := value], name) == Supply(pool, name)
  {
    var more := pool[name := value];
    assert !(name + ":" <= name);
    assert TypedVariants(more, name) == TypedVariants(pool, name);
    SumOverSame(TypedVariants(pool, name), v => CountIn(more, v), v => CountIn(pool, v));
  }

  // ----- Throttles ---------------------------------------------------------

  /** The tasks of an array that are RUNNING. */
  function RunningTasks(m: JobTable, arrayId: string): set<Id> {
    set k | k in m && "array_id" in m[k].details && m[k].details["array_id"] == arrayId && m[k].status == Running
  }

  /** A task whose details give its array a throttle n may run exactly while fewer than n of its tasks run. */
  lemma ThrottleExactly(m: JobTable, j: Id, n: int)
    requires j in m && "array_id" in m[j].details && m[j].details["array_id"] != ""
    requires "array_throttle" in m[j].details && m[j].details["array_throttle"] == Itoa(n) && MIN_INT <= n <= MAX_INT
    ensures ThrottleOk(m, j) <==> n <= 0 || |RunningTasks(m, m[j].details["array_id"])| < n
  {
    AtoiItoa(n);
    assert Itoa(n) != "";
    var a := m[j].details["array_id"];
    assert RunningIn(m, a) == RunningTasks(m, a);
  }

  lemma NoThrottle(m: JobTable, j: Id)
    requires j in m && ("array_id" !in m[j].details || "array_throttle" !in m[j].details)
    ensures ThrottleOk(m, j)
  {}

  // ----- Claiming one job --------------------------------------------------

  /** A runner may be given the job: QUEUED, unlocked, within what the runner offers, its array below the throttle. */
  ghost predicate MayBeGiven(s: Store, limits: Limits, k: Id) {
    && k in s.jobs && s.jobs[k].status == Queued && k !in s.claims
    && FitsLimits(s.jobs[k], limits) && FitsResources(s.jobs[k], limits.resources) && ThrottleOk(s.jobs, k)
  }

  /** ClaimNextJob hands out a job exactly if there is one to give, and then the one with the highest priority, the
      earliest submit time among those, and the smallest id among those. */
  lemma ClaimGoesFirst(s: Store, limits: Limits)
    ensures NextClaim(s, limits).None? <==> forall k :: !MayBeGiven(s, limits, k)
    ensures NextClaim(s, limits).Some? ==> var j := NextClaim(s, limits).value;
      && MayBeGiven(s, limits, j)
      && forall k :: MayBeGiven(s, limits, k) ==>
           || s.jobs[k].priority < s.jobs[j].priority
           || (s.jobs[k].priority == s.jobs[j].priority && s.jobs[k].submitted > s.jobs[j].submitted)
           || (s.jobs[k].priority == s.jobs[j].priority && s.jobs[k].submitted == s.jobs[j].submitted && k >= j)
  {
    hide FitsLimits, FitsResources, ThrottleOk;
    var free := Admissible(s.jobs, limits) - s.claims.Keys;
    assert forall k :: MayBeGiven(s, limits, k) <==> k in free;
    ClaimOrderIsStrict(s.jobs, free);
    if free != {} {
      var j := First(ClaimOrder(s.jobs), free);
      assert j in free;
    }
  }

  lemma GivenIsQueued(s: Store, limits: Limits)
    ensures forall k :: MayBeGiven(s, limits, k) ==> k in s.jobs
  {}

  /** The job that was given is RUNNING and locked for the runner; nothing else changes. */
  lemma ClaimEffect(s: Store, runner: string, limits: Limits)
    ensures var t := ClaimNext(s, runner, limits);
      match NextClaim(s, limits)
      case None => t == s
      case Some(j) => j in s.jobs ==>
        && t.jobs == s.jobs[j := s.jobs[j].(status := Running)] && t.claims == s.claims[j := runner]
        && t.running == s.running
  {
    hide NextClaim;
    match NextClaim(s, limits)
    case None =>
    case Some(j) =>
      if j in s.jobs {
        assert SetStatus(s.jobs, {j}, Running) == s.jobs[j := s.jobs[j].(status := Running)];
        assert ClaimNext(s, runner, limits).claims == s.claims[j := runner];
      }
  }

  // ----- Claiming a batch --------------------------------------------------

  /** The QUEUED tasks of an array that have an index. */
  function WaitingTasks(m: JobTable, arrayId: string): set<Id> {
    set k | k in m && m[k].status == Queued && "array_id" in m[k].details && m[k].details["array_id"] == arrayId
      && "array_index" in m[k].details
  }

  /** The budget cuts the array short, and whole arrays are wanted or the budget is below the minimum. */
  predicate HoldsBack(m: JobTable, arrayId: string, gate: Gate) {
    0 < gate.maxTasks < |WaitingTasks(m, arrayId)| && (gate.fullArray || gate.maxTasks < gate.minTasks)
  }

  predicate IsPlain(job: Job) { "array_id" !in job.details || job.details["array_id"] == "" }

  /** The job leads to work: it is a plain job nobody holds, or its array is not held back and has an unlocked task. */
  ghost predicate LeadsToWork(s: Store, limits: Limits, gate: Gate, k: Id) {
    && k in s.jobs && s.jobs[k].status == Queued
    && FitsLimits(s.jobs[k], limits) && FitsResources(s.jobs[k], limits.resources)
    && if IsPlain(s.jobs[k]) then k !in s.claims
       else
         && !HoldsBack(s.jobs, s.jobs[k].details["array_id"], gate)
         && exists t :: t in WaitingTasks(s.jobs, s.jobs[k].details["array_id"]) && t !in s.claims
  }

  lemma SameTasks(m: JobTable, arrayId: string, gate: Gate)
    ensures QueuedTasks(m, arrayId) == WaitingTasks(m, arrayId)
    ensures Deferred(m, arrayId, gate) <==> HoldsBack(m, arrayId, gate)
  {
    forall k ensures k in QueuedTasks(m, arrayId) <==> k in WaitingTasks(m, arrayId) {}
  }

  /** What a batch is: unlocked waiting tasks of the array, lowest index first, as many as the budget allows. */
  ghost predicate IsBatch(s: Store, arrayId: string, gate: Gate, tasks: seq<Id>) {
    var free := WaitingTasks(s.jobs, arrayId) - s.claims.Keys;
    && Distinct(tasks) && (forall t :: t in tasks ==> t in free)
    && |tasks| == (if 0 < gate.maxTasks < |free| then gate.maxTasks else |free|)
    && (forall i, k :: 0 <= i < k < |tasks| ==> NoLaterIndex(s.jobs, tasks[i], tasks[k]))
    && (forall t, u :: t in tasks && u in free && u !in tasks ==> NoLaterIndex(s.jobs, t, u))
  }

  ghost predicate NoLaterIndex(m: JobTable, t: Id, u: Id) {
    && t in m && u in m
    && forall x, y :: Asks(m[t], "array_index", x) && Asks(m[u], "array_index", y) ==> x <= y
  }

  lemma OrderedByIndex(m: JobTable, t: Id, u: Id)
    requires TaskOrder(m)(t, u)
    ensures NoLaterIndex(m, t, u)
  {
    forall x, y | Asks(m[t], "array_index", x) && Asks(m[u], "array_index", y) ensures x <= y {
      AsksQuantity(m[t], "array_index", x);
      AsksQuantity(m[u], "array_index", y);
    }
  }

  lemma InOrderOfIndex(s: Store, arrayId: string)
    ensures var free := FreeTasks(s, arrayId);
      forall i, k :: 0 <= i < k < |free| ==> NoLaterIndex(s.jobs, free[i], free[k])
  {
    hide NoLaterIndex;
    var free := FreeTasks(s, arrayId);
    forall i, k | 0 <= i < k < |free| ensures NoLaterIndex(s.jobs, free[i], free[k]) {
      assert TaskOrder(s.jobs)(free[i], free[k]);
      OrderedByIndex(s.jobs, free[i], free[k]);
    }
  }

  /** A prefix of a listing comes before the rest of it. */
  lemma PrefixComesFirst(m: JobTable, free: seq<Id>, n: nat)
    requires n <= |free| && forall i, k :: 0 <= i < k < |free| ==> NoLaterIndex(m, free[i], free[k])
    ensures forall t, u :: t in free[..n] && u in free && u !in free[..n] ==> NoLaterIndex(m, t, u)
  {
    hide NoLaterIndex;
    forall t, u | t in free[..n] && u in free && u !in free[..n] ensures NoLaterIndex(m, t, u) {
      var i :| 0 <= i < n && free[..n][i] == t;
      var k :| 0 <= k < |free| && free[k] == u;
      assert forall l :: 0 <= l < n ==> free[..n][l] == free[l];
      assert free[i] == t && i < k;
    }
  }

  lemma PrefixOfFree(s: Store, arrayId: string, gate: Gate)
    ensures var free := FreeTasks(s, arrayId);
      IsBatch(s, arrayId, gate, free[..Claimable(|free|, gate.maxTasks)])
    ensures |FreeTasks(s, arrayId)| == |WaitingTasks(s.jobs, arrayId) - s.claims.Keys|
  {
    hide NoLaterIndex, WaitingTasks, QueuedTasks, TaskOrder, Deferred, HoldsBack;
    SameTasks(s.jobs, arrayId, gate);
    var free := FreeTasks(s, arrayId);
    DistinctCardinality(free);
    InOrderOfIndex(s, arrayId);
    var n := Claimable(|free|, gate.maxTasks);
    PrefixComesFirst(s.jobs, free, n);
    assert forall t :: t in free <==> t in Elements(free);
    assert forall i :: 0 <= i < n ==> free[..n][i] == free[i];
  }

  lemma Pick<T>(s: set<T>) returns (x: T)
    requires s != {}
    ensures x in s
  {
    x :| x in s;
  }

  lemma LeadsAre(s: Store, limits: Limits, gate: Gate, k: Id)
    ensures k in BatchLeads(s, limits, gate) <==> LeadsToWork(s, limits, gate, k)
  {
    hide FitsLimits, FitsResources, IsBatch;
    if k in s.jobs && !IsPlain(s.jobs[k]) {
      var a := s.jobs[k].details["array_id"];
      SameTasks(s.jobs, a, gate);
      PrefixOfFree(s, a, gate);
      assert Batch(s, a, gate) != [] <==> !HoldsBack(s.jobs, a, gate) && |FreeTasks(s, a)| > 0;
      var free := WaitingTasks(s.jobs, a) - s.claims.Keys;
      if free != {} {
        var t := Pick(free);
        assert t in WaitingTasks(s.jobs, a) && t !in s.claims;
      }
      assert forall t :: t in WaitingTasks(s.jobs, a) && t !in s.claims ==> t in free;
    }
  }

  /** ClaimNextArrayBatch goes by the job of highest priority, earliest submit time and smallest id of those that lead
      to work: it takes the job itself if it is plain, and otherwise a batch of its array. It takes nothing exactly if
      no job leads to work. */
  lemma LeadGoesFirst(s: Store, limits: Limits, gate: Gate)
    ensures BatchLead(s, limits, gate).None? <==> forall k :: !LeadsToWork(s, limits, gate, k)
    ensures BatchLead(s, limits, gate).None? ==> NextBatch(s, limits, gate) == []
    ensures BatchLead(s, limits, gate).Some? ==> var j := BatchLead(s, limits, gate).value;
      && LeadsToWork(s, limits, gate, j)
      && (forall k :: LeadsToWork(s, limits, gate, k) ==>
            || s.jobs[k].priority < s.jobs[j].priority
            || (s.jobs[k].priority == s.jobs[j].priority && s.jobs[k].submitted > s.jobs[j].submitted)
            || (s.jobs[k].priority == s.jobs[j].priority && s.jobs[k].submitted == s.jobs[j].submitted && k >= j))
      && if IsPlain(s.jobs[j]) then NextBatch(s, limits, gate) == [j]
         else IsBatch(s, s.jobs[j].details["array_id"], gate, NextBatch(s, limits, gate))
  {
    hide FitsLimits, FitsResources, IsBatch, LeadsToWork, BatchLeads;
    forall k ensures k in BatchLeads(s, limits, gate) <==> LeadsToWork(s, limits, gate, k) {
      LeadsAre(s, limits, gate, k);
    }
    LeadExists(s, limits, gate);
    var leads := BatchLeads(s, limits, gate);
    ClaimOrderIsStrict(s.jobs, leads);
    if leads != {} {
      var j := First(ClaimOrder(s.jobs), leads);
      WorkIsQueued(s, limits, gate);
      BatchOfLead(s, gate, j, limits);
    }
  }

  /** What a batch claim goes by, and what it takes. */
  ghost predicate IsLead(s: Store, limits: Limits, gate: Gate, j: Id, tasks: seq<Id>) {
    && LeadsToWork(s, limits, gate, j)
    && (forall k :: LeadsToWork(s, limits, gate, k) ==>
          || s.jobs[k].priority < s.jobs[j].priority
          || (s.jobs[k].priority == s.jobs[j].priority && s.jobs[k].submitted > s.jobs[j].submitted)
          || (s.jobs[k].priority == s.jobs[j].priority && s.jobs[k].submitted == s.jobs[j].submitted && k >= j))
    && if IsPlain(s.jobs[j]) then tasks == [j] else IsBatch(s, s.jobs[j].details["array_id"], gate, tasks)
  }

  /** A lead has something to give. */
  lemma LeadHasTasks(s: Store, limits: Limits, gate: Gate)
    ensures BatchLead(s, limits, gate).Some? ==> NextBatch(s, limits, gate) != []
    ensures BatchLead(s, limits, gate).Some? ==>
      IsLead(s, limits, gate, BatchLead(s, limits, gate).value, NextBatch(s, limits, gate))
  {
    hide FitsLimits, FitsResources, IsBatch;
    LeadGoesFirst(s, limits, gate);
    var leads := BatchLeads(s, limits, gate);
    ClaimOrderIsStrict(s.jobs, leads);
    if leads != {} { assert First(ClaimOrder(s.jobs), leads) in leads; }
  }

  lemma LeadExists(s: Store, limits: Limits, gate: Gate)
    ensures BatchLeads(s, limits, gate) <= s.jobs.Keys
  {}

  lemma WorkIsQueued(s: Store, limits: Limits, gate: Gate)
    ensures forall k :: LeadsToWork(s, limits, gate, k) ==> k in s.jobs
  {}

  lemma BatchOfLead(s: Store, gate: Gate, j: Id, limits: Limits)
    requires LeadsToWork(s, limits, gate, j)
    ensures !IsPlain(s.jobs[j]) ==>
      IsBatch(s, s.jobs[j].details["array_id"], gate, Batch(s, s.jobs[j].Detail("array_id"), gate))
  {
    hide FitsLimits, FitsResources, IsBatch;
    if !IsPlain(s.jobs[j]) {
      var a := s.jobs[j].details["array_id"];
      SameTasks(s.jobs, a, gate);
      PrefixOfFree(s, a, gate);
    }
  }

  // ----- What a batch claim reports ----------------------------------------

  /** k comes before j: higher priority, or as high and submitted earlier, or both the same and the id smaller. */
  predicate Earlier(m: JobTable, k: Id, j: Id)
    requires k in m && j in m
  {
    || m[j].priority < m[k].priority
    || (m[j].priority == m[k].priority && m[j].submitted > m[k].submitted)
    || (m[j].priority == m[k].priority && m[j].submitted == m[k].submitted && k < j)
  }

  lemma PassedOverExactly(m: JobTable, claimed: Option<Id>, k: Id)
    requires claimed.Some? ==> claimed.value in m
    ensures k in PassedOver(m, claimed) <==>
      k in m && m[k].status == Queued && (claimed.Some? ==> Earlier(m, k, claimed.value))
  {}

  /** The scan came by the job, and it fits what the runner offers. */
  ghost predicate CameBy(s: Store, limits: Limits, lead: Option<Id>, k: Id) {
    && k in s.jobs && s.jobs[k].status == Queued && FitsLimits(s.jobs[k], limits)
    && FitsResources(s.jobs[k], limits.resources)
    && (lead.Some? && lead.value in s.jobs ==> Earlier(s.jobs, k, lead.value))
  }

  /** It led to nothing although nothing held it back: a plain job that is locked, or a task of an array all of whose
      waiting tasks are locked. */
  ghost predicate LedNowhere(s: Store, gate: Gate, k: Id)
    requires k in s.jobs
  {
    if IsPlain(s.jobs[k]) then k in s.claims
    else
      var a := s.jobs[k].details["array_id"];
      !HoldsBack(s.jobs, a, gate) && forall t :: t in WaitingTasks(s.jobs, a) ==> t in s.claims
  }

  /** The four reports. Blocked: the scan came by a job that does not fit. Deferred: it found nothing, and came by a job
      whose array is held back. More: it came by a job that led nowhere, or its batch met a lock. */
  lemma ReportExactly(s: Store, limits: Limits, gate: Gate, more: bool, blocked: bool, deferred: bool, throttle: int)
    requires BatchReport(s, limits, gate, more, blocked, deferred, throttle)
    ensures var lead := BatchLead(s, limits, gate);
      && (lead.Some? ==> lead.value in s.jobs)
      && (blocked <==> exists k :: DoesNotFit(s, limits, lead, k))
      && (deferred <==> lead.None? && exists k :: CameBy(s, limits, lead, k) && WaitsForBudget(s, gate, k))
      && (more <==>
            || (exists k :: CameBy(s, limits, lead, k) && LedNowhere(s, gate, k))
            || (lead.Some? && !IsPlain(s.jobs[lead.value])
                && Raced(s, s.jobs[lead.value].details["array_id"], gate)))
  {
    hide FitsLimits, FitsResources;
    LeadGoesFirst(s, limits, gate);
    var lead := BatchLead(s, limits, gate);
    var seen := PassedOver(s.jobs, lead);
    forall k ensures k in seen <==>
                       k in s.jobs && s.jobs[k].status == Queued && (lead.Some? ==> Earlier(s.jobs, k, lead.value))
    {
      PassedOverExactly(s.jobs, lead, k);
    }
    forall k | k in seen && k in s.jobs
      ensures Barren(s, gate, k) <==> LedNowhere(s, gate, k)
      ensures HeldBack(s, gate, k) <==> WaitsForBudget(s, gate, k)
    {
      BarrenExactly(s, gate, k);
    }
    hide PassedOver, Barren, LedNowhere, HeldBack, WaitsForBudget, Earlier, LeadsToWork, IsBatch;
    SomeExactly(s, limits, gate, lead);
  }

  ghost predicate DoesNotFit(s: Store, limits: Limits, lead: Option<Id>, k: Id) {
    && k in s.jobs && s.jobs[k].status == Queued
    && !(FitsLimits(s.jobs[k], limits) && FitsResources(s.jobs[k], limits.resources))
    && (lead.Some? && lead.value in s.jobs ==> Earlier(s.jobs, k, lead.value))
  }

  ghost predicate WaitsForBudget(s: Store, gate: Gate, k: Id) {
    k in s.jobs && !IsPlain(s.jobs[k]) && HoldsBack(s.jobs, s.jobs[k].details["array_id"], gate)
  }

  lemma SomeExactly(s: Store, limits: Limits, gate: Gate, lead: Option<Id>)
    requires lead.Some? ==> lead.value in s.jobs
    requires forall k :: k in PassedOver(s.jobs, lead) <==>
      k in s.jobs && s.jobs[k].status == Queued && (lead.Some? ==> Earlier(s.jobs, k, lead.value))
    requires forall k :: k in PassedOver(s.jobs, lead) && k in s.jobs ==>
      (Barren(s, gate, k) <==> LedNowhere(s, gate, k)) && (HeldBack(s, gate, k) <==> WaitsForBudget(s, gate, k))
    ensures var seen := PassedOver(s.jobs, lead);
      && (SomeBlocked(s, limits, seen) <==> exists k :: DoesNotFit(s, limits, lead, k))
      && (SomeHeld(s, limits, gate, seen) <==> exists k :: CameBy(s, limits, lead, k) && WaitsForBudget(s, gate, k))
      && (SomeBarren(s, limits, gate, seen) <==> exists k :: CameBy(s, limits, lead, k) && LedNowhere(s, gate, k))
  {
    hide FitsLimits, FitsResources, PassedOver, Barren, LedNowhere, HeldBack, WaitsForBudget, Earlier;
    var seen := PassedOver(s.jobs, lead);
    forall k ensures k in seen && k in s.jobs && Fits(s.jobs, limits, k) <==> CameBy(s, limits, lead, k) {}
    forall k ensures k in seen && k in s.jobs && !Fits(s.jobs, limits, k) <==> DoesNotFit(s, limits, lead, k) {}
  }

  lemma BarrenExactly(s: Store, gate: Gate, k: Id)
    requires k in s.jobs
    ensures Barren(s, gate, k) <==> LedNowhere(s, gate, k)
    ensures HeldBack(s, gate, k) <==> WaitsForBudget(s, gate, k)
  {
    hide IsBatch;
    if !IsPlain(s.jobs[k]) {
      var a := s.jobs[k].details["array_id"];
      SameTasks(s.jobs, a, gate);
      PrefixOfFree(s, a, gate);
      var free := WaitingTasks(s.jobs, a) - s.claims.Keys;
      if free != {} {
        var t := Pick(free);
        assert t in WaitingTasks(s.jobs, a) && t !in s.claims;
      }
      assert forall t :: t in WaitingTasks(s.jobs, a) && t !in s.claims ==> t in free;
    }
  }

  /** Without a budget, or with one that the unlocked tasks do not use up, a batch meets a lock exactly if some waiting
      task is locked. Locked tasks behind all the unlocked ones are not met once the budget is used up. */
  lemma RacedReads(s: Store, arrayId: string, gate: Gate)
    ensures gate.maxTasks <= 0 || gate.maxTasks > |WaitingTasks(s.jobs, arrayId) - s.claims.Keys| ==>
      (Raced(s, arrayId, gate) <==> exists c :: c in WaitingTasks(s.jobs, arrayId) && c in s.claims)
    ensures 0 < gate.maxTasks <= |WaitingTasks(s.jobs, arrayId) - s.claims.Keys| && LockedLast(s, arrayId) ==>
      !Raced(s, arrayId, gate)
  {
    SameTasks(s.jobs, arrayId, gate);
    PrefixOfFree(s, arrayId, gate);
    hide IsBatch, WaitingTasks;
    var free := FreeTasks(s, arrayId);
    if c :| c in WaitingTasks(s.jobs, arrayId) && c in s.claims {
      assert gate.maxTasks <= 0 || gate.maxTasks > |free| ==> RacedBy(s, arrayId, gate, c);
      assert gate.maxTasks <= 0 || gate.maxTasks > |free| ==> c in Racers(s, arrayId, gate);
    }
    if Raced(s, arrayId, gate) {
      var c := Pick(Racers(s, arrayId, gate));
      assert c in WaitingTasks(s.jobs, arrayId) && c in s.claims && RacedBy(s, arrayId, gate, c);
      if 0 < gate.maxTasks <= |free| && LockedLast(s, arrayId) { NotBefore(s, arrayId, c, free[gate.maxTasks - 1]); }
    }
  }

  /** Every locked waiting task has a higher index than every unlocked one. */
  ghost predicate LockedLast(s: Store, arrayId: string) {
    forall c, t | c in WaitingTasks(s.jobs, arrayId) && t in WaitingTasks(s.jobs, arrayId) ::
      c in s.claims && t !in s.claims ==> HigherIndex(s.jobs, c, t)
  }

  ghost predicate HigherIndex(m: JobTable, c: Id, t: Id) {
    c in m && t in m && exists x, y :: Asks(m[c], "array_index", x) && Asks(m[t], "array_index", y) && x > y
  }

  lemma NotBefore(s: Store, arrayId: string, c: Id, t: Id)
    requires LockedLast(s, arrayId) && c in WaitingTasks(s.jobs, arrayId) && c in s.claims
    requires t in FreeTasks(s, arrayId)
    ensures !TaskOrder(s.jobs)(c, t)
  {
    SameTasks(s.jobs, arrayId, Gate(0, 0, false));
    assert t in Elements(FreeTasks(s, arrayId));
    assert HigherIndex(s.jobs, c, t);
    var x, y :| Asks(s.jobs[c], "array_index", x) && Asks(s.jobs[t], "array_index", y) && x > y;
    AsksQuantity(s.jobs[c], "array_index", x);
    AsksQuantity(s.jobs[t], "array_index", y);
  }

  /** A batch carries the throttle its array's tasks agree on. */
  lemma ThrottleCarried(m: JobTable, arrayId: string, gate: Gate, n: int)
    requires MIN_INT <= n <= MAX_INT && !HoldsBack(m, arrayId, gate) && WaitingTasks(m, arrayId) != {}
    requires forall t :: t in WaitingTasks(m, arrayId) ==>
      "array_throttle" in m[t].details && m[t].details["array_throttle"] == Itoa(n)
    ensures BatchThrottle(m, arrayId, gate) == n
  {
    hide Itoa;
    SameTasks(m, arrayId, gate);
    QueuedTasksExist(m, arrayId);
    TaskOrderIsStrict(m, QueuedTasks(m, arrayId));
    var first := First(TaskOrder(m), QueuedTasks(m, arrayId));
    assert first in WaitingTasks(m, arrayId);
    assert m[first].Detail("array_throttle") == Itoa(n);
    InRangeReads(n);
    hide AtoiOrZero;
  }
}
