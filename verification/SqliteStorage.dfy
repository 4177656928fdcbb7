/** The storage layer: each method is one transaction over the tables, proved to do what Transactions says. */
module Sqlite {
  import opened Collections
  import opened Ordering
  import opened Text
  import opened Jobs
  import opened Graph
  import opened Claims
  import opened Transactions
  import Cascade
  import opened RowOutcomes
  import opened ClaimOutcomes
  import Resolve

  lemma {:induction false} RefusedStaysRefused(m: JobTable, batch: seq<Submit>, n: nat)
    requires n <= |batch| && InsertRows(m, batch[..n]).None?
    ensures InsertRows(m, batch).None?
    decreases |batch| - n
  {
    if n < |batch| {
      assert batch[..n + 1][..n] == batch[..n];
      RefusedStaysRefused(m, batch, n + 1);
    } else {
      assert batch[..n] == batch;
    }
  }

  /** The candidates seen so far that ended up with status st. */
  ghost function Became(m: JobTable, order: seq<Id>, st: Status): set<Id> {
    set j | j in m && j in order && Resolve.Pass(m, order)[j].status == st
  }

  lemma BecameNext(m: JobTable, order: seq<Id>, j: Id, st: Status)
    requires j in m && m[j].status.Pending() && j !in order
    ensures var now := Resolve.Pass(m, order);
      && now[j] == m[j] && j !in Became(m, order, st)
      && Became(m, order + [j], st) ==
           Became(m, order, st) + if Resolve.ResolveOne(now, j)[j].status == st then {j} else {}
  {
    Resolve.PassPromotesExactly(m, order, j);
    assert (order + [j])[..|order|] == order;
    var now, next := Resolve.Pass(m, order), Resolve.Pass(m, order + [j]);
    assert next == Resolve.ResolveOne(now, j);
    hide Resolve.ResolveOne, Resolve.Pass;
    OthersResolveLater(now, j);
    var add := if next[j].status == st then {j} else {};
    forall k ensures k in Became(m, order + [j], st) <==> k in Became(m, order, st) || k in add {
      assert k in order + [j] <==> k in order || k == j;
    }
    assert Became(m, order + [j], st) == Became(m, order, st) + add;
  }

  lemma OthersResolveLater(m: JobTable, j: Id)
    ensures forall k :: k in m && k != j ==> Resolve.ResolveOne(m, j)[k] == m[k]
  {}

  lemma PassNext(m: JobTable, candidates: seq<Id>, i: nat)
    requires i < |candidates| && Distinct(candidates)
    requires candidates[i] in m && m[candidates[i]].status.Pending()
    ensures var now, j := Resolve.Pass(m, candidates[..i]), candidates[i];
      && j in now && now[j] == m[j] && Resolve.Pass(m, candidates[..i + 1]) == Resolve.ResolveOne(now, j)
      && CountNext(m, candidates, i, Queued) && CountNext(m, candidates, i, Canceled)
  {
    CountStep(m, candidates, i, Queued);
    CountStep(m, candidates, i, Canceled);
  }

  lemma CountStep(m: JobTable, candidates: seq<Id>, i: nat, st: Status)
    requires i < |candidates| && Distinct(candidates)
    requires candidates[i] in m && m[candidates[i]].status.Pending()
    ensures var now, j := Resolve.Pass(m, candidates[..i]), candidates[i];
      && j in now && now[j] == m[j] && Resolve.Pass(m, candidates[..i + 1]) == Resolve.ResolveOne(now, j)
      && CountNext(m, candidates, i, st)
  {
    var seen, j := candidates[..i], candidates[i];
    assert j !in seen;
    BecameNext(m, seen, j, st);
    assert candidates[..i + 1] == seen + [j] && (seen + [j])[..i] == seen;
  }

  /** The next candidate adds one to a count exactly if it became that status. */
  ghost predicate CountNext(m: JobTable, candidates: seq<Id>, i: nat, st: Status)
    requires i < |candidates|
  {
    var next := Resolve.Pass(m, candidates[..i + 1]);
    candidates[i] in next &&
    |Became(m, candidates[..i + 1], st)| ==
      |Became(m, candidates[..i], st)| + if next[candidates[i]].status == st then 1 else 0
  }

  /** A pass over all candidates queued the promotable ones; what it canceled is what is newly canceled. */
  lemma PassCounts(m: JobTable, order: seq<Id>)
    requires Elements(order) == PendingJobs(m)
    ensures Became(m, order, Queued) == Resolve.Promotable(m)
    ensures Became(m, order, Canceled) == WithStatus(Resolve.Pass(m, order), Canceled) - WithStatus(m, Canceled)
  {
    Resolve.PassDecides(m, order);
    assert forall j :: j in order <==> j in Elements(order);
    forall j ensures j in Became(m, order, Queued) <==> j in Resolve.Promotable(m) {
      if j in PendingJobs(m) { Resolve.PassPromotesExactly(m, order, j); }
    }
    var n := Resolve.Pass(m, order);
    forall j ensures j in Became(m, order, Canceled) <==> j in WithStatus(n, Canceled) - WithStatus(m, Canceled) {
      if j in m && n[j].status == Canceled && j !in PendingJobs(m) { assert n[j] == m[j]; }
    }
  }

  /** The state of the breadth-first search: everything seen is downstream of start,
      and only jobs still in the queue may have unseen dependents. */
  ghost predicate Frontier(m: JobTable, start: Id, seen: set<Id>, queue: seq<Id>) {
    && start in seen
    && (forall c :: c in seen && c != start ==> c in LiveJobs(m) && Downstream(m, LiveJobs(m), {start}, c))
    && (forall q :: q in queue ==> q in seen)
    && (forall p, c :: p in seen && p !in queue && Link(m, LiveJobs(m), p, c) ==> c in seen)
  }

  lemma FrontierStep(m: JobTable, start: Id, seen: set<Id>, queue: seq<Id>, rows: set<Id>, children: seq<Id>)
    requires Frontier(m, start, seen, queue) && queue != []
    requires var now := SetStatus(m, seen - {start}, Canceled);
      forall c :: c in rows <==> Link(now, LiveJobs(now), queue[0], c)
    requires Elements(children) == rows - seen
    ensures Frontier(m, start, seen + rows, queue[1..] + children)
    ensures forall c :: c in children ==> c in LiveJobs(m) && c !in seen
  {
    var live, cur := LiveJobs(m), queue[0];
    var now := SetStatus(m, seen - {start}, Canceled);
    assert forall c :: c in children <==> c in Elements(children);
    forall c | c in rows - seen ensures c in live && Downstream(m, live, {start}, c) {
      assert c in m && now[c] == m[c] && Link(m, live, cur, c);
      DownstreamStep(m, live, {start}, cur, c);
    }
    var next := queue[1..] + children;
    forall p, c | p in seen + rows && p !in next && Link(m, live, p, c) ensures c in seen + rows {
      if p in seen && p == cur && c !in seen {
        assert now[c] == m[c] && Link(now, LiveJobs(now), cur, c);
      }
    }
  }

  /** An empty queue means everything reachable has been seen. */
  lemma FrontierDone(m: JobTable, start: Id, seen: set<Id>)
    requires Frontier(m, start, seen, [])
    ensures seen - {start} == Cascade.Reached(m, start)
  {
    FalloutLeast(m, LiveJobs(m), {start}, seen);
    forall c | c in seen - {start} ensures c in Cascade.Reached(m, start) { assert c in m; }
  }

  lemma ScanStops(m: JobTable, queued: seq<Id>, i: nat, part: set<Id>)
    requires Lists(ClaimOrder(m), WithStatus(m, Queued), queued) && i < |queued|
    requires part <= WithStatus(m, Queued) && queued[i] in part && Elements(queued[..i]) !! part
    ensures StrictOrderOn(ClaimOrder(m), part) && First(ClaimOrder(m), part) == queued[i]
    ensures Elements(queued[..i]) == PassedOver(m, Some(queued[i]))
  {
    ClaimOrderIsStrict(m, WithStatus(m, Queued));
    ListedBefore(ClaimOrder(m), WithStatus(m, Queued), queued, i);
    FirstListed(ClaimOrder(m), WithStatus(m, Queued), queued, i, part);
  }

  lemma ClaimNothing(s: Store, runner: string)
    ensures Elements<Id>([]) == {} && Claim(s, {}, runner) == s
  {
    assert SetStatus(s.jobs, {}, Running) == s.jobs;
  }

  lemma ClaimOneMore(s: Store, ids: set<Id>, j: Id, runner: string)
    ensures Claim(Claim(s, ids, runner), {j}, runner) == Claim(s, ids + {j}, runner)
  {
  }

  /** One more unlocked candidate keeps the claimed tasks a listing of the unlocked candidates seen. */
  lemma ListingGrows(less: (Id, Id) -> bool, all: set<Id>, cands: seq<Id>, i: nat, locked: set<Id>, tasks: seq<Id>)
    requires Lists(less, all, cands) && i < |cands| && cands[i] !in locked
    requires Lists(less, Elements(cands[..i]) - locked, tasks)
    ensures Lists(less, Elements(cands[..i + 1]) - locked, tasks + [cands[i]])
  {
    var c := cands[i];
    ElementsAppend(tasks, c);
    ElementsAppend(cands[..i], c);
    assert cands[..i + 1] == cands[..i] + [c];
    forall k | 0 <= k < |tasks| ensures less(tasks[k], c) && tasks[k] != c {
      assert tasks[k] in Elements(tasks);
      var l :| 0 <= l < i && cands[..i][l] == tasks[k];
      assert cands[l] == tasks[k];
    }
  }

  /** The tasks claimed from the first candidates are the first of all free tasks. */
  lemma ListedSoFar(s: Store, arrayId: string, cands: seq<Id>, i: nat, tasks: seq<Id>)
    requires var less := TaskOrder(s.jobs);
      && Lists(less, QueuedTasks(s.jobs, arrayId), cands) && i <= |cands|
      && Lists(less, Elements(cands[..i]) - s.claims.Keys, tasks)
    ensures |tasks| <= |FreeTasks(s, arrayId)| && tasks == FreeTasks(s, arrayId)[..|tasks|]
    ensures i == |cands| ==> tasks == FreeTasks(s, arrayId)
  {
    var less, locked := TaskOrder(s.jobs), s.claims.Keys;
    var all := QueuedTasks(s.jobs, arrayId);
    QueuedTasksExist(s.jobs, arrayId);
    TaskOrderIsStrict(s.jobs, all);
    var later := Elements(cands[i..]) - locked;
    assert cands == cands[..i] + cands[i..];
    assert forall j :: j in cands <==> j in Elements(cands);
    assert StrictOrderOn(less, later) by { assert later <= all; }
    var rest := Sorted(less, later);
    JoinListings(less, cands, i, locked, tasks, rest);
    assert Elements(cands) - locked == all - locked;
    ListingUnique(less, all - locked, tasks + rest, FreeTasks(s, arrayId));
    if i == |cands| { assert later == {}; DistinctCardinality(rest); }
  }

  /** What claiming or skipping the next candidate does to the listing and to the store. */
  lemma NextCandidate(s: Store, arrayId: string, cands: seq<Id>, i: nat, tasks: seq<Id>, runner: string)
    requires Lists(TaskOrder(s.jobs), QueuedTasks(s.jobs, arrayId), cands) && i < |cands|
    requires Lists(TaskOrder(s.jobs), Elements(cands[..i]) - s.claims.Keys, tasks)
    ensures var c, now := cands[i], Claim(s, Elements(tasks), runner);
      && c in now.jobs && now.jobs[c].status == Queued && (c in now.claims <==> c in s.claims)
      && (c in s.claims ==>
            QueuedTasks(s.jobs, arrayId) * s.claims.Keys != {}
            && Lists(TaskOrder(s.jobs), Elements(cands[..i + 1]) - s.claims.Keys, tasks))
      && (c !in s.claims ==>
            Claim(now, {c}, runner) == Claim(s, Elements(tasks + [c]), runner)
            && Lists(TaskOrder(s.jobs), Elements(cands[..i + 1]) - s.claims.Keys, tasks + [c]))
  {
    var c := cands[i];
    var all := QueuedTasks(s.jobs, arrayId);
    assert c in Elements(cands);
    ElementsAppend(cands[..i], c);
    assert cands[..i + 1] == cands[..i] + [c];
    assert c !in Elements(tasks) by { assert c !in cands[..i]; }
    if c in s.claims {
      assert c in all * s.claims.Keys;
      assert Elements(cands[..i + 1]) - s.claims.Keys == Elements(cands[..i]) - s.claims.Keys;
    } else {
      ClaimOneMore(s, Elements(tasks), c, runner);
      ElementsAppend(tasks, c);
      ListingGrows(TaskOrder(s.jobs), all, cands, i, s.claims.Keys, tasks);
    }
  }

  lemma JoinListings(less: (Id, Id) -> bool, cands: seq<Id>, i: nat, locked: set<Id>, tasks: seq<Id>, rest: seq<Id>)
    requires Ordered(less, cands) && Distinct(cands) && i <= |cands|
    requires Lists(less, Elements(cands[..i]) - locked, tasks)
    requires Lists(less, Elements(cands[i..]) - locked, rest)
    ensures Lists(less, Elements(cands) - locked, tasks + rest)
  {
    forall a, b | a in tasks && b in rest ensures less(a, b) && a != b {
      assert a in Elements(tasks) && b in Elements(rest);
      var k :| 0 <= k < i && cands[..i][k] == a;
      var l :| 0 <= l < |cands| - i && cands[i..][l] == b;
      assert cands[k] == a && cands[i + l] == b;
    }
    assert cands == cands[..i] + cands[i..];
    forall x ensures x in tasks + rest <==> x in Elements(cands) - locked {
      assert x in tasks <==> x in Elements(tasks);
      assert x in rest <==> x in Elements(rest);
    }
  }

  /** Once the budget is spent the scan stops at once, so the last candidate seen is the last task claimed. */
  ghost predicate Spent(cands: seq<Id>, i: nat, tasks: seq<Id>, gate: Gate) {
    0 < gate.maxTasks == |tasks| ==> 0 < i <= |cands| && tasks[|tasks| - 1] == cands[i - 1]
  }

  /** The locked candidates seen are the locked ones that come before the budget is spent. */
  lemma RacedBefore(s: Store, arrayId: string, gate: Gate, cands: seq<Id>, i: nat, tasks: seq<Id>)
    requires Lists(TaskOrder(s.jobs), QueuedTasks(s.jobs, arrayId), cands) && i <= |cands|
    requires var free := FreeTasks(s, arrayId);
      |tasks| <= |free| && tasks == free[..|tasks|] && (i == |cands| ==> tasks == free)
    requires Spent(cands, i, tasks, gate) && (i < |cands| ==> 0 < gate.maxTasks <= |tasks|)
    requires gate.maxTasks > 0 ==> |tasks| <= gate.maxTasks
    ensures Elements(cands[..i]) * s.claims.Keys != {} <==> Raced(s, arrayId, gate)
  {
    var free := FreeTasks(s, arrayId);
    forall c ensures c in Elements(cands[..i]) && c in s.claims <==> RacedBy(s, arrayId, gate, c) {
      if 0 < gate.maxTasks <= |free| {
        SeenBeforeLast(s, arrayId, cands, i, free[gate.maxTasks - 1], c);
      } else {
        assert cands[..i] == cands;
        assert c in Elements(cands) <==> c in QueuedTasks(s.jobs, arrayId);
      }
    }
    assert Elements(cands[..i]) * s.claims.Keys == Racers(s, arrayId, gate);
  }

  lemma SeenBeforeLast(s: Store, arrayId: string, cands: seq<Id>, i: nat, last: Id, c: Id)
    requires Lists(TaskOrder(s.jobs), QueuedTasks(s.jobs, arrayId), cands) && 0 < i <= |cands|
    requires last == cands[i - 1] && last in FreeTasks(s, arrayId)
    ensures c in Elements(cands[..i]) && c in s.claims
      <==> c in QueuedTasks(s.jobs, arrayId) && c in s.claims && TaskOrder(s.jobs)(c, last)
  {
    var all, less := QueuedTasks(s.jobs, arrayId), TaskOrder(s.jobs);
    QueuedTasksExist(s.jobs, arrayId);
    TaskOrderIsStrict(s.jobs, all);
    ListedBefore(less, all, cands, i - 1);
    assert last !in s.claims by { assert last in Elements(FreeTasks(s, arrayId)); }
    assert cands[..i] == cands[..i - 1] + [last];
    assert c in Elements(cands[..i]) <==> c in cands[..i - 1] || c == last;
  }

  lemma FirstCandidate(m: JobTable, arrayId: string, cands: seq<Id>)
    requires Lists(TaskOrder(m), QueuedTasks(m, arrayId), cands) && cands != []
    ensures StrictOrderOn(TaskOrder(m), QueuedTasks(m, arrayId)) && QueuedTasks(m, arrayId) != {} && cands[0] in m
    ensures First(TaskOrder(m), QueuedTasks(m, arrayId)) == cands[0]
  {
    var all, less := QueuedTasks(m, arrayId), TaskOrder(m);
    QueuedTasksExist(m, arrayId);
    TaskOrderIsStrict(m, all);
    assert cands[0] in Elements(cands);
    forall y | y in all && y != cands[0] ensures less(cands[0], y) {
      assert y in Elements(cands);
      var k :| 0 <= k < |cands| && cands[k] == y;
    }
    FirstUnique(less, all, First(less, all), cands[0]);
  }

  // ----- The flags of a batch claim ----------------------------------------

  ghost predicate Flagged(s: Store, limits: Limits, gate: Gate, seen: set<Id>, more: bool, blocked: bool,
                          deferred: bool) {
    && (more <==> SomeBarren(s, limits, gate, seen))
    && (blocked <==> SomeBlocked(s, limits, seen))
    && (deferred <==> SomeHeld(s, limits, gate, seen))
  }

  /** One more job passed over contributes to exactly one flag. */
  lemma FlagsGrow(s: Store, limits: Limits, gate: Gate, seen: set<Id>, j: Id, more: bool, blocked: bool, deferred: bool)
    requires Flagged(s, limits, gate, seen, more, blocked, deferred) && j in s.jobs
    ensures SomeBlocked(s, limits, seen + {j}) <==> blocked || !Fits(s.jobs, limits, j)
    ensures SomeBarren(s, limits, gate, seen + {j}) <==> more || (Fits(s.jobs, limits, j) && Barren(s, gate, j))
    ensures SomeHeld(s, limits, gate, seen + {j}) <==> deferred || (Fits(s.jobs, limits, j) && HeldBack(s, gate, j))
  {
    var wider := seen + {j};
    assert j in wider;
    if more { var k :| k in seen && k in s.jobs && Fits(s.jobs, limits, k) && Barren(s, gate, k); assert k in wider; }
    if blocked { var k :| k in seen && k in s.jobs && !Fits(s.jobs, limits, k); assert k in wider; }
    if deferred {
      var k :| k in seen && k in s.jobs && Fits(s.jobs, limits, k) && HeldBack(s, gate, k);
      assert k in wider;
    }
  }

  /** What a batch claim finds out about a queued job. */
  datatype Sighting = OverLimits | Lost | Held | Taken

  ghost predicate Sighted(s: Store, limits: Limits, gate: Gate, j: Id, found: Sighting)
    requires j in s.jobs
  {
    match found
    case OverLimits => !Fits(s.jobs, limits, j)
    case Lost => Fits(s.jobs, limits, j) && Barren(s, gate, j)
    case Held => Fits(s.jobs, limits, j) && HeldBack(s, gate, j)
    case Taken => Fits(s.jobs, limits, j) && !Barren(s, gate, j) && !HeldBack(s, gate, j)
  }

  /** The four sightings exclude each other, and only the last one makes a lead. */
  lemma SightingDecides(s: Store, limits: Limits, gate: Gate, j: Id, found: Sighting)
    requires j in s.jobs && s.jobs[j].status == Queued && Sighted(s, limits, gate, j, found)
    ensures found.OverLimits? <==> !Fits(s.jobs, limits, j)
    ensures found.Lost? <==> Fits(s.jobs, limits, j) && Barren(s, gate, j)
    ensures found.Held? <==> Fits(s.jobs, limits, j) && HeldBack(s, gate, j)
    ensures found.Taken? <==> j in BatchLeads(s, limits, gate)
    ensures found.Held? ==> Deferred(s.jobs, s.jobs[j].Detail("array_id"), gate)
  {
  }

  /** So the scan's flags stay exact. */
  lemma SightingFlags(s: Store, limits: Limits, gate: Gate, seen: set<Id>, j: Id, found: Sighting, more: bool,
                      blocked: bool, deferred: bool)
    requires Flagged(s, limits, gate, seen, more, blocked, deferred)
    requires j in s.jobs && s.jobs[j].status == Queued && Sighted(s, limits, gate, j, found)
    ensures Flagged(s, limits, gate, seen + {j}, more || found.Lost?, blocked || found.OverLimits?,
                    deferred || found.Held?)
  {
    FlagsGrow(s, limits, gate, seen, j, more, blocked, deferred);
    SightingDecides(s, limits, gate, j, found);
  }

  /** The first job in scan order that yields work is the lead, and the scan has passed over the rest. */
  lemma AtLead(s: Store, limits: Limits, gate: Gate, queued: seq<Id>, i: nat)
    requires Lists(ClaimOrder(s.jobs), WithStatus(s.jobs, Queued), queued) && i < |queued|
    requires queued[i] in BatchLeads(s, limits, gate) && Elements(queued[..i]) !! BatchLeads(s, limits, gate)
    ensures BatchLead(s, limits, gate) == Some(queued[i])
    ensures Elements(queued[..i]) == PassedOver(s.jobs, Some(queued[i]))
    ensures queued[i] in s.jobs && NextBatch(s, limits, gate) == Yield(s, gate, queued[i])
  {
    ScanStops(s.jobs, queued, i, BatchLeads(s, limits, gate));
  }

  lemma NothingFlagged(s: Store, limits: Limits, gate: Gate)
    ensures Flagged(s, limits, gate, {}, false, false, false)
  {}

  /** What the scan saw before the job it took, and what the batch met, make up the report. */
  lemma ReportTaken(s: Store, limits: Limits, gate: Gate, j: Id, seen: set<Id>, more: bool, blocked: bool,
                    deferred: bool, raced: bool, throttle: int)
    requires BatchLead(s, limits, gate) == Some(j) && j in s.jobs && seen == PassedOver(s.jobs, Some(j))
    requires Flagged(s, limits, gate, seen, more, blocked, deferred)
    requires (raced <==> YieldRaced(s, gate, j)) && throttle == YieldThrottle(s.jobs, gate, j)
    ensures BatchReport(s, limits, gate, more || raced, blocked, false, throttle)
  {}

  lemma ReportNothing(s: Store, limits: Limits, gate: Gate, seen: set<Id>, more: bool, blocked: bool, deferred: bool)
    requires BatchLead(s, limits, gate) == None && seen == PassedOver(s.jobs, None)
    requires Flagged(s, limits, gate, seen, more, blocked, deferred)
    ensures BatchReport(s, limits, gate, more, blocked, deferred, 0)
  {}

  lemma NoLead(s: Store, limits: Limits, gate: Gate, queued: seq<Id>)
    requires Lists(ClaimOrder(s.jobs), WithStatus(s.jobs, Queued), queued)
    requires Elements(queued) !! BatchLeads(s, limits, gate)
    ensures BatchLead(s, limits, gate) == None && Elements(queued) == PassedOver(s.jobs, None)
  {
    assert BatchLeads(s, limits, gate) <= Elements(queued);
  }

  lemma MissingMember(m: JobTable, members: seq<Id>, i: nat)
    requires i < |members| && members[i] !in m
    ensures !(Elements(members) <= m.Keys)
  {
    assert members[i] in Elements(members);
  }

  lemma NoneMissing(m: JobTable, members: seq<Id>)
    requires forall k :: 0 <= k < |members| ==> members[k] in m
    ensures Elements(members) <= m.Keys
  {}

  lemma NothingCanceled(m: JobTable, none: seq<Id>)
    requires none == []
    ensures Cascade.CancelEach(m, none) == m
  {}

  lemma CancelEachNext(m: JobTable, members: seq<Id>, i: nat)
    requires i < |members|
    ensures Cascade.CancelEach(m, members[..i + 1]) ==
      Cascade.CascadeFrom(Cascade.CancelOne(Cascade.CancelEach(m, members[..i]), members[i]), members[i])
    ensures Cascade.CancelOne(Cascade.CancelEach(m, members[..i]), members[i]).Keys ==
      Cascade.CancelEach(m, members[..i]).Keys
    ensures Cascade.CancelEach(m, members[..i]).Keys == m.Keys
  {
    assert members[..i + 1][..i] == members[..i];
    Cascade.CancelEachDoomsExactly(m, members[..i]);
  }

  class SqliteStorage {
    var jobs: JobTable
    var claims: map<Id, string>
    var running: map<Id, map<string, string>>

    ghost function Db(): Store
      reads this
    {
      Store(jobs, claims, running)
    }

    constructor ()
      ensures Db() == Store(map[], map[], map[])
    {
      jobs, claims, running := map[], map[], map[];
    }

    // ----- Submission ------------------------------------------------------

    method ValidateDeps(afterOk: seq<Id>) returns (ok: bool)
      ensures ok == DepsValid(jobs, afterOk)
      ensures ok <==> forall p :: p in afterOk ==> p in jobs && jobs[p].status != Canceled && jobs[p].status != Failed
    {
      ParentsChecked(jobs, afterOk);
      for i := 0 to |afterOk|
        invariant forall k :: 0 <= k < i ==> afterOk[k] in jobs && !jobs[afterOk[k]].status.Fatal()
      {
        if afterOk[i] !in jobs { return false; }
        var status := jobs[afterOk[i]].status;
        if status == Canceled || status == Failed { return false; }
      }
      return true;
    }

    /** insertJobTx: the job row first, then one job_deps row per parent. */
    method InsertJobTx(job: Submit) returns (ok: bool)
      modifies this`jobs
      ensures ok == RowAccepted(old(jobs), job)
      ensures ok ==> jobs == old(jobs)[job.id := Row(job)] && StoredAs(job, jobs[job.id])
    {
      if job.id in jobs { return false; }
      var status := if job.hold then UserHold else if job.afterOk == [] then Queued else Waiting;
      ghost var before := jobs;
      var row := Job(status, job.priority, job.time, {}, job.details);
      jobs := jobs[job.id := row];
      assert Elements(job.afterOk[..0]) == {};
      for i := 0 to |job.afterOk|
        invariant jobs == before[job.id := row.(afterOk := Elements(job.afterOk[..i]))]
        invariant forall k, l :: 0 <= k < l < i ==> job.afterOk[k] != job.afterOk[l]
        invariant forall k :: 0 <= k < i ==> job.afterOk[k] in before || job.afterOk[k] == job.id
      {
        var parent := job.afterOk[i];
        var present := jobs[job.id].afterOk;
        if parent in present {
          var k :| 0 <= k < i && job.afterOk[k] == parent;
          return false;
        }
        if parent !in jobs { return false; }
        forall k | 0 <= k < i ensures job.afterOk[k] != parent {
          assert job.afterOk[..i][k] in present;
        }
        ElementsAppend(job.afterOk[..i], parent);
        assert job.afterOk[..i + 1] == job.afterOk[..i] + [parent];
        jobs := jobs[job.id := jobs[job.id].(afterOk := present + {parent})];
      }
      assert job.afterOk[..|job.afterOk|] == job.afterOk;
      return true;
    }

    /** InsertJob and InsertArray: all rows or none. */
    method InsertBatch(batch: seq<Submit>) returns (ok: bool)
      modifies this`jobs
      ensures Db() == Insert(old(Db()), batch)
      ensures ok == InsertRows(old(jobs), batch).Some?
    {
      var saved := jobs;
      for i := 0 to |batch|
        invariant InsertRows(saved, batch[..i]) == Some(jobs)
      {
        assert batch[..i + 1][..i] == batch[..i];
        ok := InsertJobTx(batch[i]);
        if !ok {
          RefusedStaysRefused(saved, batch, i + 1);
          jobs := saved;
          return;
        }
      }
      assert batch[..|batch|] == batch;
      return true;
    }

    // ----- Resolution ------------------------------------------------------

    /** One pass; candidates come back in any order, and each sees what was written before it. */
    method ResolveDependencies() returns (promoted: nat, canceled: nat, ghost order: seq<Id>)
      modifies this`jobs
      ensures Elements(order) == PendingJobs(old(jobs)) && Distinct(order)
      ensures jobs == Resolve.Pass(old(jobs), order)
      ensures promoted == |Resolve.Promotable(old(jobs))|
      ensures canceled == |WithStatus(jobs, Canceled) - WithStatus(old(jobs), Canceled)|
    {
      ghost var m := jobs;
      var candidates := Enumerate(set j | j in jobs && jobs[j].status.Pending());
      order := candidates;
      promoted, canceled := 0, 0;
      for i := 0 to |candidates|
        invariant jobs == Resolve.Pass(m, candidates[..i])
        invariant promoted == |Became(m, candidates[..i], Queued)|
        invariant canceled == |Became(m, candidates[..i], Canceled)|
      {
        var j := candidates[i];
        assert j in Elements(candidates);
        PassNext(m, candidates, i);
        var became := ResolveCandidate(j);
        if became == Canceled {
          canceled := canceled + 1;
        } else if became == Queued {
          promoted := promoted + 1;
        }
      }
      assert candidates[..|candidates|] == candidates;
      PassCounts(m, order);
    }

    /** Look up the parents of one candidate and decide it; returns its status afterwards. */
    method ResolveCandidate(j: Id) returns (became: Status)
      requires j in jobs && jobs[j].status.Pending()
      modifies this`jobs
      ensures jobs == Resolve.ResolveOne(old(jobs), j)
      ensures j in jobs && became == jobs[j].status
    {
      var canQueue, shouldCancel := CheckParents(j);
      if shouldCancel {
        jobs := jobs[j := jobs[j].(status := Canceled)];
      } else if canQueue {
        jobs := jobs[j := jobs[j].(status := Queued)];
      }
      became := jobs[j].status;
    }

    method CheckParents(j: Id) returns (canQueue: bool, shouldCancel: bool)
      requires j in jobs
      ensures canQueue == ParentsMet(jobs, j) && shouldCancel == HasFatalParent(jobs, j)
    {
      canQueue, shouldCancel := true, false;
      var parents := Enumerate(jobs[j].afterOk);
      assert forall p :: p in parents <==> p in jobs[j].afterOk by {
        assert forall p :: p in parents <==> p in Elements(parents);
      }
      for i := 0 to |parents|
        invariant canQueue <==> forall k :: 0 <= k < i && parents[k] in jobs ==> jobs[parents[k]].status.Met()
        invariant shouldCancel <==> exists k :: 0 <= k < i && parents[k] in jobs && jobs[parents[k]].status.Fatal()
      {
        if parents[i] in jobs {
          var status := jobs[parents[i]].status;
          if status != Success && status != ProxyQueued { canQueue := false; }
          if status == Canceled || status == Failed { shouldCancel := true; }
        }
      }
      forall p | p in jobs[j].afterOk ensures exists k :: 0 <= k < |parents| && parents[k] == p { assert p in parents; }
      forall k | 0 <= k < |parents| ensures parents[k] in jobs[j].afterOk { assert parents[k] in parents; }
    }

    // ----- Cancellation ----------------------------------------------------

    method CancelOne(j: Id) returns (found: bool)
      modifies this`jobs
      ensures found == (j in old(jobs))
      ensures jobs == Cascade.CancelOne(old(jobs), j)
    {
      if j !in jobs { return false; }
      if jobs[j].status.Code() >= Canceled.Code() { return true; }
      jobs := jobs[j := jobs[j].(status := Canceled)];
      return true;
    }

    /** The dependents of a job that have not ended, in the order the query yields them. */
    method LiveDependents(parent: Id) returns (rows: seq<Id>)
      ensures Distinct(rows)
      ensures forall c :: c in rows <==> Link(jobs, LiveJobs(jobs), parent, c)
    {
      rows := Enumerate(set c | c in jobs && parent in jobs[c].afterOk && jobs[c].status.Code() < Canceled.Code());
      assert forall c :: c in rows <==> c in Elements(rows);
    }

    /** Breadth-first over live dependents. */
    method CascadeCancel(start: Id)
      modifies this`jobs
      ensures jobs == Cascade.CascadeFrom(old(jobs), start)
    {
      ghost var m := jobs;
      var queue := [start];
      var seen := {start};
      assert SetStatus(m, {start} - {start}, Canceled) == m;
      while queue != []
        invariant Frontier(m, start, seen, queue)
        invariant jobs == SetStatus(m, seen - {start}, Canceled)
        decreases LiveJobs(m) + {start} - seen, |queue|
      {
        var rows := LiveDependents(queue[0]);
        var children, all := Unseen(rows, seen);
        FrontierStep(m, start, seen, queue, Elements(rows), children);
        assert forall c :: c in children ==> jobs[c] == m[c];
        CancelAll(children);
        assert (seen - {start}) + Elements(children) == all - {start};
        queue := queue[1..] + children;
        if children != [] {
          assert children[0] in children && children[0] in all;
        }
        seen := all;
      }
      FrontierDone(m, start, seen);
    }

    method Unseen(rows: seq<Id>, seen: set<Id>) returns (children: seq<Id>, all: set<Id>)
      ensures Elements(children) == Elements(rows) - seen
      ensures all == seen + Elements(rows)
      ensures children == [] ==> all == seen
    {
      children, all := [], seen;
      assert Elements(rows[..0]) == {};
      for k := 0 to |rows|
        invariant Elements(children) == Elements(rows[..k]) - seen
        invariant all == seen + Elements(rows[..k])
        invariant children == [] ==> all == seen
      {
        ElementsAppend(rows[..k], rows[k]);
        assert rows[..k + 1] == rows[..k] + [rows[k]];
        if rows[k] !in all {
          ElementsAppend(children, rows[k]);
          all := all + {rows[k]};
          children := children + [rows[k]];
        }
      }
      assert rows[..|rows|] == rows;
    }

    method CancelAll(children: seq<Id>)
      requires forall c :: c in children ==> c in jobs && jobs[c].status.Live()
      modifies this`jobs
      ensures jobs == SetStatus(old(jobs), Elements(children), Canceled)
    {
      ghost var m := jobs;
      assert Elements(children[..0]) == {};
      for k := 0 to |children|
        invariant jobs == SetStatus(m, Elements(children[..k]), Canceled)
      {
        var c := children[k];
        assert c in children && m[c].status.Live();
        assert children[..k + 1] == children[..k] + [c];
        ElementsAppend(children[..k], c);
        var found := CancelOne(c);
        assert jobs == SetStatus(m, Elements(children[..k + 1]), Canceled);
      }
      assert children[..|children|] == children;
    }

    method CancelJob(j: Id) returns (ok: bool)
      modifies this`jobs
      ensures ok == (j in old(jobs)) && Db() == Transactions.CancelJob(old(Db()), j)
    {
      ok := CancelOne(j);
      if ok { CascadeCancel(j); }
    }

    /** The members were listed before the transaction began; a missing one rolls everything back. */
    method CancelArray(members: seq<Id>) returns (ok: bool)
      modifies this`jobs
      ensures ok == (members != [] && Elements(members) <= old(jobs).Keys)
      ensures Db() == Transactions.CancelArray(old(Db()), members)
    {
      if members == [] { return false; }
      hide Cascade.CancelEach, Elements;
      var saved := jobs;
      NothingCanceled(jobs, members[..0]);
      for i := 0 to |members|
        invariant jobs == Cascade.CancelEach(saved, members[..i])
        invariant forall k :: 0 <= k < i ==> members[k] in saved
      {
        ok := CancelMember(saved, members, i);
        if !ok {
          MissingMember(saved, members, i);
          jobs := saved;
          return;
        }
      }
      assert members[..|members|] == members;
      NoneMissing(saved, members);
      return true;
    }

    /** One member, after those before it. */
    method CancelMember(ghost saved: JobTable, members: seq<Id>, i: nat) returns (ok: bool)
      requires i < |members| && jobs == Cascade.CancelEach(saved, members[..i])
      modifies this`jobs
      ensures ok <==> members[i] in saved
      ensures ok ==> jobs == Cascade.CancelEach(saved, members[..i + 1])
    {
      hide Cascade.CancelEach, Cascade.CancelOne, Cascade.CascadeFrom;
      CancelEachNext(saved, members, i);
      ok := CancelOne(members[i]);
      if ok { CascadeCancel(members[i]); }
    }

    // ----- Runner transitions ----------------------------------------------

    predicate RunnerOwns(j: Id, runner: string)
      reads this`claims
    {
      j in claims && claims[j] == runner
    }

    method RecordDetails(j: Id, details: map<string, string>)
      modifies this`running
      ensures Db() == Merge(old(Db()), j, details)
    {
      running := running[j := (if j in running then running[j] else map[]) + details];
    }

    method MarkJobProxied(j: Id, runner: string, details: map<string, string>) returns (ok: bool)
      modifies this`jobs, this`running
      ensures ok == ProxyAccepted(old(Db()), j, runner)
      ensures Db() == MarkProxied(old(Db()), j, runner, details)
    {
      if !RunnerOwns(j, runner) || j !in jobs { return false; }
      if jobs[j].status == Running {
        jobs := jobs[j := jobs[j].(status := ProxyQueued)];
      } else if jobs[j].status != ProxyQueued {
        return false;
      }
      assert jobs == SetStatus(old(jobs), {j}, ProxyQueued);
      RecordDetails(j, details);
      return true;
    }

    method UpdateRunningDetails(j: Id, details: map<string, string>) returns (ok: bool)
      modifies this`running
      ensures ok == (details == map[] || j in jobs)
      ensures Db() == UpdateDetails(old(Db()), j, details)
    {
      if details == map[] { return true; }
      if j !in jobs { return false; }
      RecordDetails(j, details);
      return true;
    }

    method EndJob(j: Id, runner: string, code: int) returns (ok: bool)
      modifies this`jobs
      ensures ok == EndAccepted(old(Db()), j, runner)
      ensures Db() == Transactions.EndJob(old(Db()), j, runner, code)
      ensures ok <==> RunnerOwns(j, runner) && j in jobs && old(j in jobs && jobs[j].status == Running)
      ensures ok ==> (jobs[j].status == Success <==> code == 0) && (jobs[j].status == Failed <==> code != 0)
      ensures ok && code != 0 ==> forall d :: d in jobs && d != j && j in jobs[d].afterOk ==> Ended(jobs[d].status)
    {
      EndJobOutcome(Db(), j, runner, code);
      if !RunnerOwns(j, runner) || j !in jobs || jobs[j].status != Running { return false; }
      var newStatus := if code != 0 then Failed else Success;
      jobs := jobs[j := jobs[j].(status := newStatus)];
      assert jobs == SetStatus(old(jobs), {j}, newStatus);
      if newStatus != Success { CascadeCancel(j); }
      return true;
    }

    method EndProxiedJob(j: Id, status: Status) returns (ok: bool)
      modifies this`jobs
      ensures ok == EndProxiedAccepted(old(Db()), j, status)
      ensures Db() == EndProxied(old(Db()), j, status)
    {
      if status != Success && status != Failed && status != Canceled { return false; }
      if j !in jobs { return false; }
      if jobs[j].status != ProxyQueued { return jobs[j].status == status; }
      jobs := jobs[j := jobs[j].(status := status)];
      assert jobs == SetStatus(old(jobs), {j}, status);
      if status != Success { CascadeCancel(j); }
      return true;
    }

    // ----- User actions ----------------------------------------------------

    method HoldJob(j: Id) returns (ok: bool)
      modifies this`jobs
      ensures ok == (j in old(jobs) && Holdable(old(jobs)[j].status))
      ensures Db() == Hold(old(Db()), j)
    {
      if j !in jobs || !(jobs[j].status == Queued || jobs[j].status == Waiting || jobs[j].status == UserHold) {
        return false;
      }
      jobs := jobs[j := jobs[j].(status := UserHold)];
      assert jobs == SetStatus(old(jobs), {j}, UserHold);
      return true;
    }

    method ReleaseJob(j: Id) returns (ok: bool)
      modifies this`jobs
      ensures ok == (j in old(jobs) && old(jobs)[j].status == UserHold)
      ensures Db() == Release(old(Db()), j)
    {
      if j !in jobs || jobs[j].status != UserHold { return false; }
      jobs := jobs[j := jobs[j].(status := Waiting)];
      assert jobs == SetStatus(old(jobs), {j}, Waiting);
      return true;
    }

    method AdjustJobPriority(j: Id, delta: int) returns (ok: bool)
      modifies this`jobs
      ensures ok == (delta == 0 || (j in old(jobs) && Holdable(old(jobs)[j].status)))
      ensures Db() == AdjustPriority(old(Db()), j, delta)
    {
      if delta == 0 {
        assert j in jobs ==> jobs[j := jobs[j]] == jobs;
        return true;
      }
      if j !in jobs || !Holdable(jobs[j].status) { return false; }
      jobs := jobs[j := jobs[j].(priority := jobs[j].priority + delta)];
      return true;
    }

    // ----- Claims ----------------------------------------------------------

    method JobFitsLimits(j: Id, limits: Limits) returns (fits: bool)
      requires j in jobs
      ensures fits == FitsLimits(jobs[j], limits)
    {
      var procs, mem, walltime := Quantity(jobs[j], "procs"), Quantity(jobs[j], "mem"), Quantity(jobs[j], "walltime");
      if limits.maxProcs > 0 && procs > limits.maxProcs { return false; }
      if limits.maxMemory > 0 && mem > limits.maxMemory { return false; }
      if limits.maxWalltime > 0 && walltime > limits.maxWalltime { return false; }
      return true;
    }

    /** Add up what a pool offers of one countable resource, typed variants included for an untyped name. */
    method CountSupply(pool: map<string, string>, name: string) returns (avail: int)
      ensures avail == Supply(pool, name)
    {
      avail := CountIn(pool, name);
      if Index(name, ':') < 0 {
        var variants := TypedVariants(pool, name);
        ghost var total := SumOver(variants, v => CountIn(pool, v));
        while variants != {}
          invariant avail + SumOver(variants, v => CountIn(pool, v)) == CountIn(pool, name) + total
          decreases variants
        {
          var v :| v in variants;
          SumOverPick(variants, v => CountIn(pool, v), v);
          avail := avail + CountIn(pool, v);
          variants := variants - {v};
        }
      }
    }

    method JobFitsResources(j: Id, pool: map<string, string>) returns (fits: bool)
      requires j in jobs
      ensures fits == FitsResources(jobs[j], pool)
    {
      var required := Enumerate(set k | k in jobs[j].details && RESOURCE_PREFIX <= k);
      assert forall k :: k in required <==> k in Elements(required);
      for i := 0 to |required|
        invariant forall l :: 0 <= l < i ==>
          required[l] in jobs[j].details && RESOURCE_PREFIX <= required[l] &&
          Provides(pool, required[l][|RESOURCE_PREFIX|..], jobs[j].details[required[l]])
      {
        var k := required[i];
        assert k in required;
        var name, need := k[|RESOURCE_PREFIX|..], jobs[j].details[k];
        assert k == RESOURCE_PREFIX + name;
        match ParseCount(need) {
          case Some(n) =>
            var avail := CountSupply(pool, name);
            if avail < n { return false; }
          case None =>
            if name !in pool || !LabelSubset(need, pool[name]) { return false; }
        }
      }
      forall name | RESOURCE_PREFIX + name in jobs[j].details
        ensures Provides(pool, name, jobs[j].details[RESOURCE_PREFIX + name])
      {
        var k := RESOURCE_PREFIX + name;
        assert k in required;
        assert k[|RESOURCE_PREFIX|..] == name;
      }
      return true;
    }

    method JobArrayThrottleOk(j: Id) returns (ok: bool)
      requires j in jobs
      ensures ok == ThrottleOk(jobs, j)
    {
      match Throttle(jobs[j]) {
        case None => return true;
        case Some(n) =>
          var arrayId := jobs[j].Detail("array_id");
          return |RunningIn(jobs, arrayId)| < n;
      }
    }

    /** claimJobTx: the lock row is the atomic primitive; an existing one means the race was lost. */
    method ClaimJobTx(j: Id, runner: string) returns (claimed: bool)
      requires j in jobs && jobs[j].status == Queued
      modifies this`jobs, this`claims
      ensures claimed == (j !in old(claims))
      ensures Db() == if claimed then Claim(old(Db()), {j}, runner) else old(Db())
    {
      if j in claims { return false; }
      claims := claims[j := runner];
      jobs := jobs[j := jobs[j].(status := Running)];
      assert jobs == SetStatus(old(jobs), {j}, Running);
      assert claims == Claim(old(Db()), {j}, runner).claims;
      return true;
    }

    method IsAdmissible(j: Id, limits: Limits) returns (fits: bool)
      requires j in jobs && jobs[j].status == Queued
      ensures fits == (j in Admissible(jobs, limits))
    {
      fits := JobFitsLimits(j, limits);
      if fits { fits := JobFitsResources(j, limits.resources); }
      if fits { fits := JobArrayThrottleOk(j); }
    }

    /** Hand out the first queued job, in claim order, that fits, is below its throttle and is not locked. */
    method ClaimNextJob(runner: string, limits: Limits) returns (claimed: Option<Id>, moreEligible: bool, blocked: bool)
      modifies this`jobs, this`claims
      ensures claimed == NextClaim(old(Db()), limits)
      ensures Db() == ClaimNext(old(Db()), runner, limits)
      ensures var passed := PassedOver(old(jobs), claimed);
        && (moreEligible <==> passed * Admissible(old(jobs), limits) * old(claims).Keys != {})
        && (blocked <==> passed - Admissible(old(jobs), limits) != {})
      ensures claimed.None? <==> forall k :: !MayBeGiven(old(Db()), limits, k)
      ensures claimed.Some? ==> MayBeGiven(old(Db()), limits, claimed.value)
      ensures claimed.Some? ==> forall k :: MayBeGiven(old(Db()), limits, k) ==>
        var a, b := old(jobs)[k], old(jobs)[claimed.value];
        || a.priority < b.priority
        || (a.priority == b.priority && a.submitted > b.submitted)
        || (a.priority == b.priority && a.submitted == b.submitted && k >= claimed.value)
    {
      hide MayBeGiven, Fits, ThrottleOk, Claim;
      GivenIsQueued(Db(), limits);
      ClaimGoesFirst(Db(), limits);
      ghost var m, locks := jobs, claims;
      ghost var admissible := Admissible(m, limits);
      ghost var free := admissible - locks.Keys;
      ClaimOrderIsStrict(m, WithStatus(m, Queued));
      var queued := Sort(ClaimOrder(jobs), WithStatus(jobs, Queued));
      moreEligible, blocked := false, false;
      assert Elements(queued[..0]) == {};
      for i := 0 to |queued|
        invariant jobs == m && claims == locks
        invariant Elements(queued[..i]) !! free
        invariant moreEligible <==> Elements(queued[..i]) * admissible * locks.Keys != {}
        invariant blocked <==> Elements(queued[..i]) - admissible != {}
      {
        var j := queued[i];
        assert j in Elements(queued);
        ElementsAppend(queued[..i], j);
        assert queued[..i + 1] == queued[..i] + [j];
        var fits := IsAdmissible(j, limits);
        if !fits {
          blocked := true;
          assert j in Elements(queued[..i + 1]) - admissible;
        } else {
          var won := ClaimJobTx(j, runner);
          if !won {
            moreEligible := true;
            assert j in Elements(queued[..i + 1]) * admissible * locks.Keys;
          } else {
            ScanStops(m, queued, i, free);
            claimed := Some(j);
            return;
          }
        }
      }
      assert queued[..|queued|] == queued;
      claimed := None;
      assert Elements(queued) == PassedOver(m, None);
      assert free == {} by { assert free <= Elements(queued); }
    }

    /** claimArrayTasksTx: the gate first, then the tasks in index order until the budget is spent. */
    method ClaimArrayTasksTx(arrayId: string, runner: string, gate: Gate)
      returns (tasks: seq<Id>, deferred: bool, moreEligible: bool, throttle: int)
      modifies this`jobs, this`claims
      ensures deferred == Deferred(old(jobs), arrayId, gate)
      ensures tasks == Batch(old(Db()), arrayId, gate)
      ensures Db() == Claim(old(Db()), Elements(tasks), runner)
      ensures moreEligible <==> !deferred && Raced(old(Db()), arrayId, gate)
      ensures throttle == BatchThrottle(old(jobs), arrayId, gate)
    {
      QueuedTasksExist(jobs, arrayId);
      TaskOrderIsStrict(jobs, QueuedTasks(jobs, arrayId));
      var cands := Sort(TaskOrder(jobs), QueuedTasks(jobs, arrayId));
      DistinctCardinality(cands);
      tasks, deferred, moreEligible, throttle := [], false, false, 0;
      ClaimNothing(Db(), runner);
      var available := |cands|;
      var claimable := available;
      if gate.maxTasks > 0 && gate.maxTasks < claimable { claimable := gate.maxTasks; }
      var effectiveMin := gate.minTasks;
      if gate.fullArray { effectiveMin := available; }
      if effectiveMin > 0 && claimable < effectiveMin && available > claimable {
        deferred := true;
        return;
      }
      if |cands| > 0 {
        FirstCandidate(jobs, arrayId, cands);
        throttle := AtoiOrZero(jobs[cands[0]].Detail("array_throttle"));
      }
      tasks, moreEligible := ClaimInOrder(arrayId, cands, runner, gate);
    }

    /** Claim candidates one by one, skipping locked ones, until the budget is spent. */
    method ClaimInOrder(arrayId: string, cands: seq<Id>, runner: string, gate: Gate)
      returns (tasks: seq<Id>, moreEligible: bool)
      requires Lists(TaskOrder(jobs), QueuedTasks(jobs, arrayId), cands)
      modifies this`jobs, this`claims
      ensures var free := FreeTasks(old(Db()), arrayId); tasks == free[..Claimable(|free|, gate.maxTasks)]
      ensures Db() == Claim(old(Db()), Elements(tasks), runner)
      ensures moreEligible <==> Raced(old(Db()), arrayId, gate)
    {
      hide QueuedTasks, Raced, Claim, TaskOrder;
      ghost var s := Db();
      tasks, moreEligible := [], false;
      ClaimNothing(s, runner);
      assert Elements(cands[..0]) == {};
      for i := 0 to |cands|
        invariant Lists(TaskOrder(s.jobs), Elements(cands[..i]) - s.claims.Keys, tasks)
        invariant gate.maxTasks > 0 ==> |tasks| <= gate.maxTasks
        invariant Spent(cands, i, tasks, gate)
        invariant Db() == Claim(s, Elements(tasks), runner)
        invariant moreEligible <==> Elements(cands[..i]) * s.claims.Keys != {}
      {
        if gate.maxTasks > 0 && |tasks| >= gate.maxTasks {
          ListedSoFar(s, arrayId, cands, i, tasks);
          RacedBefore(s, arrayId, gate, cands, i, tasks);
          return;
        }
        var c := cands[i];
        NextCandidate(s, arrayId, cands, i, tasks, runner);
        var claimed := ClaimJobTx(c, runner);
        if !claimed {
          moreEligible := true;
        } else {
          tasks := tasks + [c];
        }
      }
      assert cands[..|cands|] == cands;
      ListedSoFar(s, arrayId, cands, |cands|, tasks);
      RacedBefore(s, arrayId, gate, cands, |cands|, tasks);
    }

    /** One queued candidate of a batch claim. */
    method TryCandidate(j: Id, runner: string, limits: Limits, gate: Gate, deferredArrays: set<string>)
      returns (found: Sighting, tasks: seq<Id>, raced: bool, throttle: int)
      requires j in jobs && jobs[j].status == Queued
      requires forall a :: a in deferredArrays ==> Deferred(jobs, a, gate)
      modifies this`jobs, this`claims
      ensures Sighted(old(Db()), limits, gate, j, found)
      ensures found.Taken? ==> tasks == Yield(old(Db()), gate, j) && Db() == Claim(old(Db()), Elements(tasks), runner)
      ensures found.Taken? ==>
        (raced <==> YieldRaced(old(Db()), gate, j)) && throttle == YieldThrottle(old(jobs), gate, j)
      ensures !found.Taken? ==> Db() == old(Db())
    {
      tasks, raced, throttle := [], false, 0;
      ClaimNothing(Db(), runner);
      var fits := JobFitsLimits(j, limits);
      if fits { fits := JobFitsResources(j, limits.resources); }
      if !fits { return OverLimits, tasks, raced, throttle; }
      var arrayId := jobs[j].Detail("array_id");
      if arrayId != "" && arrayId in deferredArrays { return Held, tasks, raced, throttle; }
      if arrayId == "" {
        var claimed := ClaimJobTx(j, runner);
        if !claimed { return Lost, tasks, raced, throttle; }
        assert Elements([j]) == {j};
        return Taken, [j], false, 0;
      }
      var held: bool;
      tasks, held, raced, throttle := ClaimArrayTasksTx(arrayId, runner, gate);
      found := if held then Held else if tasks == [] then Lost else Taken;
    }

    /** Hand out the first plain job or the first array batch there is, in claim order. */
    method ClaimNextArrayBatch(runner: string, limits: Limits, gate: Gate)
      returns (tasks: seq<Id>, moreEligible: bool, blocked: bool, deferred: bool, throttle: int)
      modifies this`jobs, this`claims
      ensures tasks == NextBatch(old(Db()), limits, gate)
      ensures Db() == ClaimBatch(old(Db()), runner, limits, gate)
      ensures BatchReport(old(Db()), limits, gate, moreEligible, blocked, deferred, throttle)
      ensures tasks == [] <==> forall k :: !LeadsToWork(old(Db()), limits, gate, k)
      ensures tasks != [] ==> exists lead :: IsLead(old(Db()), limits, gate, lead, tasks)
    {
      LeadGoesFirst(Db(), limits, gate);
      LeadHasTasks(Db(), limits, gate);
      hide LeadsToWork, IsBatch, IsLead, IsPlain;
      hide Flagged, BatchLeads, BatchReport, Deferred;
      ghost var s := Db();
      ClaimOrderIsStrict(jobs, WithStatus(jobs, Queued));
      var queued := Sort(ClaimOrder(jobs), WithStatus(jobs, Queued));
      moreEligible, blocked, deferred, throttle := false, false, false, 0;
      var deferredArrays: set<string> := {};
      assert Elements(queued[..0]) == {};
      NothingFlagged(s, limits, gate);
      for i := 0 to |queued|
        invariant Db() == s && throttle == 0
        invariant forall a :: a in deferredArrays ==> Deferred(s.jobs, a, gate)
        invariant Elements(queued[..i]) !! BatchLeads(s, limits, gate)
        invariant Flagged(s, limits, gate, Elements(queued[..i]), moreEligible, blocked, deferred)
      {
        var j := queued[i];
        assert j in Elements(queued);
        ElementsAppend(queued[..i], j);
        assert queued[..i + 1] == queued[..i] + [j];
        var found, batch, raced, carried := TryCandidate(j, runner, limits, gate, deferredArrays);
        SightingDecides(s, limits, gate, j, found);
        SightingFlags(s, limits, gate, Elements(queued[..i]), j, found, moreEligible, blocked, deferred);
        match found
        case OverLimits => blocked := true;
        case Lost => moreEligible := true;
        case Held =>
          deferred, deferredArrays := true, deferredArrays + {jobs[j].Detail("array_id")};
        case Taken =>
          AtLead(s, limits, gate, queued, i);
          ReportTaken(s, limits, gate, j, Elements(queued[..i]), moreEligible, blocked, deferred, raced, carried);
          return batch, moreEligible || raced, blocked, false, carried;
      }
      assert queued[..|queued|] == queued;
      NoLead(s, limits, gate, queued);
      ReportNothing(s, limits, gate, Elements(queued), moreEligible, blocked, deferred);
      ClaimNothing(s, runner);
      tasks := [];
    }

    // ----- Cleanup ---------------------------------------------------------

    method CleanupJob(j: Id) returns (ok: bool)
      modifies this
      ensures Db() == Cleanup(old(Db()), j)
      ensures ok == Deletable(Strip(old(Db()), {j}), {j})
    {
      var saved := (jobs, claims, running);
      claims, running := claims - {j}, running - {j};
      if j in jobs { jobs := jobs[j := jobs[j].(afterOk := {}, details := map[])]; }
      assert Db() == Strip(old(Db()), {j});
      ok := forall k :: k in jobs && k != j ==> j !in jobs[k].afterOk;
      if ok {
        jobs := jobs - {j};
      } else {
        jobs, claims, running := saved.0, saved.1, saved.2;
      }
    }
  }
}
