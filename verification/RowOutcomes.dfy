/** What each transaction means for the rows, in statuses and columns, without the vocabulary it is defined in. */
module RowOutcomes {
  import opened Collections
  import opened Jobs
  import opened Graph
  import opened Claims
  import opened Transactions
  import Cascade
  import Resolve

  predicate Ended(st: Status) { st == Success || st == Failed || st == Canceled }

  // ----- Submitting --------------------------------------------------------

  /** Validation: every parent is a row that is neither CANCELED nor FAILED. */
  lemma ParentsChecked(m: JobTable, afterOk: seq<Id>)
    ensures DepsValid(m, afterOk) <==>
      forall p :: p in afterOk ==> p in m && m[p].status != Canceled && m[p].status != Failed
  {
    if DepsValid(m, afterOk) {
      forall p | p in afterOk ensures p in m && m[p].status != Canceled && m[p].status != Failed {
        var i :| 0 <= i < |afterOk| && afterOk[i] == p;
      }
    } else {
      var i :| 0 <= i < |afterOk| && !(afterOk[i] in m && !m[afterOk[i]].status.Fatal());
      var p := afterOk[i];
      assert p in afterOk && (p !in m || m[p].status == Canceled || m[p].status == Failed);
    }
  }

  /** A row is accepted exactly if its id is new, no parent is named twice, and each is a row or the job itself. */
  lemma RowAcceptedExactly(m: JobTable, job: Submit)
    ensures InsertRows(m, [job]).Some? <==>
      job.id !in m && Distinct(job.afterOk) && forall p :: p in job.afterOk ==> p in m || p == job.id
  {
    assert [job][..0] == [];
    forall i | 0 <= i < |job.afterOk| ensures job.afterOk[i] in job.afterOk {}
  }

  /** The row a submit becomes: held if asked for, queued without parents, otherwise waiting; all else as submitted. */
  ghost predicate StoredAs(job: Submit, row: Job) {
    && row.priority == job.priority && row.submitted == job.time && row.details == job.details
    && (forall p :: p in row.afterOk <==> p in job.afterOk)
    && (job.hold ==> row.status == UserHold)
    && (!job.hold && |job.afterOk| == 0 ==> row.status == Queued)
    && (!job.hold && |job.afterOk| > 0 ==> row.status == Waiting)
  }

  lemma {:induction false} InsertedRows(m: JobTable, batch: seq<Submit>)
    requires InsertRows(m, batch).Some?
    ensures var n := InsertRows(m, batch).value;
      && (forall k :: 0 <= k < |batch| ==> batch[k].id !in m && batch[k].id in n && StoredAs(batch[k], n[batch[k].id]))
      && (forall i, k :: 0 <= i < k < |batch| ==> batch[i].id != batch[k].id)
      && (forall j :: j in m ==> j in n && n[j] == m[j])
      && (forall j :: j in n && j !in m ==> exists k :: 0 <= k < |batch| && batch[k].id == j)
  {
    if batch != [] {
      var init, last := batch[..|batch| - 1], batch[|batch| - 1];
      InsertedRows(m, init);
      var before, n := InsertRows(m, init).value, InsertRows(m, batch).value;
      assert n == before[last.id := Row(last)];
      forall k | 0 <= k < |batch|
        ensures batch[k].id !in m && batch[k].id in n && StoredAs(batch[k], n[batch[k].id])
      {
        if k < |init| { assert init[k] == batch[k]; }
      }
      forall i, k | 0 <= i < k < |batch| ensures batch[i].id != batch[k].id {
        assert init[i] == batch[i];
        if k < |init| { assert init[k] == batch[k]; }
      }
      forall j | j in n && j !in m ensures exists k :: 0 <= k < |batch| && batch[k].id == j {
        if j in before {
          var k :| 0 <= k < |init| && init[k].id == j;
          assert batch[k].id == j;
        } else {
          assert batch[|batch| - 1].id == j;
        }
      }
    }
  }

  // ----- Resolution --------------------------------------------------------

  /** A pass over all candidates queues exactly the WAITING (or UNKNOWN) jobs all of whose parents are SUCCESS or
      PROXYQUEUED; it cancels at least those with a CANCELED or FAILED parent, and no job that is past waiting. */
  lemma PassOutcome(m: JobTable, order: seq<Id>, j: Id)
    requires j in m && Elements(order) == PendingJobs(m)
    ensures var n := Resolve.Pass(m, order);
      && j in n && n[j].(status := m[j].status) == m[j]
      && (m[j].status != Waiting && m[j].status != Unknown ==> n[j] == m[j])
      && (m[j].status == Waiting || m[j].status == Unknown ==>
            && (n[j].status == Queued <==>
                  forall p :: p in m[j].afterOk && p in m ==> m[p].status == Success || m[p].status == ProxyQueued)
            && ((exists p :: p in m[j].afterOk && p in m && (m[p].status == Canceled || m[p].status == Failed)) ==>
                  n[j].status == Canceled)
            && (n[j].status == Queued || n[j].status == Canceled || n[j].status == m[j].status))
  {
    Resolve.PassDecides(m, order);
    assert j in PendingJobs(m) <==> j in order;
    if m[j].status.Pending() {
      Resolve.PassPromotesExactly(m, order, j);
      if HasFatalParent(m, j) { PassCancels(m, order, j); }
    }
  }

  lemma {:induction false} PassCancels(m: JobTable, order: seq<Id>, j: Id)
    requires j in m && m[j].status.Pending() && HasFatalParent(m, j)
    ensures j in order ==> Resolve.Pass(m, order)[j].status == Canceled
    ensures j in Resolve.Pass(m, order) && HasFatalParent(Resolve.Pass(m, order), j)
    ensures Resolve.Pass(m, order)[j].status == Canceled || Resolve.Pass(m, order)[j].status == m[j].status
  {
    if order != [] {
      var init, last := order[..|order| - 1], order[|order| - 1];
      PassCancels(m, init, j);
      var before := Resolve.Pass(m, init);
      Resolve.ResolveOneDecides(before, last);
      var p :| p in before[j].afterOk && p in before && before[p].status.Fatal();
      assert Resolve.ResolveOne(before, last)[p] == before[p];
      assert Resolve.ResolveOne(before, last)[j].afterOk == before[j].afterOk;
    } else {
      assert Resolve.Pass(m, order) == m;
    }
  }

  // ----- Ending and cancelling ---------------------------------------------

  /** Between m and n exactly unfinished jobs below root were canceled, until no unfinished job depends on root or on a
      canceled one. Nothing but the status changed. */
  ghost predicate Swept(m: JobTable, n: JobTable, root: Id) {
    && n.Keys == m.Keys
    && (forall d :: d in m && d != root ==>
          n[d] == m[d] || (!Ended(m[d].status) && n[d] == m[d].(status := Canceled)))
    && (forall d, p :: d in n && d != root && p in n[d].afterOk && (p == root || (p in m && n[p] != m[p])) ==>
          Ended(n[d].status))
    && (forall d :: d in m && d != root && n[d] != m[d] ==>
          exists p :: p in m[d].afterOk && (p == root || (p in m && n[p] != m[p])))
  }

  lemma DoomedHasParent(m: JobTable, root: Id, d: Id)
    requires d in Cascade.Doomed(m, {root}) && d != root
    ensures exists p :: p in m[d].afterOk && (p == root || p in Cascade.Doomed(m, {root}))
  {
    var live := LiveJobs(m);
    var path :| Chain(m, live, path) && |path| > 1 && path[0] in {root} && path[|path| - 1] == d;
    var p := path[|path| - 2];
    assert Link(m, live, p, d);
    if |path| > 2 {
      var init := path[..|path| - 1];
      assert Link(m, live, path[|path| - 3], p);
      assert Chain(m, live, init) && init[0] in {root} && init[|init| - 1] == p;
      assert p in Fallout(m, live, {root});
    }
  }

  lemma DoomedIsSwept(m: JobTable, root: Id)
    requires root in m
    ensures Swept(m, SetStatus(m, Cascade.Doomed(m, {root}), Canceled), root)
  {
    var doomed := Cascade.Doomed(m, {root});
    var n := SetStatus(m, doomed, Canceled);
    Cascade.DoomedSwallows(m, {root});
    forall d | d in m && d != root && n[d] != m[d]
      ensures exists p :: p in m[d].afterOk && (p == root || (p in m && n[p] != m[p]))
    {
      DoomedHasParent(m, root, d);
      var p :| p in m[d].afterOk && (p == root || p in doomed);
      assert p == root || n[p] != m[p];
    }
    forall d, p | d in n && d != root && p in n[d].afterOk && (p == root || (p in m && n[p] != m[p]))
      ensures Ended(n[d].status)
    {
      assert p == root || p in doomed;
      assert m[d].status.Live() ==> d in doomed;
    }
  }

  /** Canceling a job cancels it if it is unfinished, and sweeps what depends on it even if it had ended. */
  lemma CancelOutcome(s: Store, j: Id)
    ensures j !in s.jobs ==> CancelJob(s, j) == s
    ensures var t := CancelJob(s, j); j in s.jobs ==>
      && t.claims == s.claims && t.running == s.running && Swept(s.jobs, t.jobs, j)
      && t.jobs[j] == if Ended(s.jobs[j].status) then s.jobs[j] else s.jobs[j].(status := Canceled)
  {
    if j in s.jobs {
      Cascade.CancelDoomsExactly(s.jobs, j);
      DoomedIsSwept(s.jobs, j);
    }
  }

  /** A job that has just ended badly sweeps what depends on it. */
  lemma FinishOutcome(m: JobTable, j: Id, st: Status)
    requires j in m && Ended(st)
    ensures var n := Finish(m, j, st);
      && n.Keys == m.Keys && n[j] == m[j].(status := st)
      && (st == Success ==> forall d :: d in m && d != j ==> n[d] == m[d])
      && (st != Success ==> Swept(m[j := m[j].(status := st)], n, j))
  {
    var ended := m[j := m[j].(status := st)];
    assert SetStatus(m, {j}, st) == ended;
    if st != Success {
      Cascade.CascadeFromEnded(ended, j);
      DoomedIsSwept(ended, j);
    }
  }

  /** EndJob: for the owner's RUNNING job, SUCCESS exactly on exit code 0 and FAILED otherwise, and a failure cancels
      what depends on it; for any other job, nothing. */
  lemma EndJobOutcome(s: Store, j: Id, runner: string, code: int)
    ensures var t := EndJob(s, j, runner, code);
      if j in s.claims && s.claims[j] == runner && j in s.jobs && s.jobs[j].status == Running
      then
        && t.claims == s.claims && t.running == s.running && t.jobs.Keys == s.jobs.Keys
        && t.jobs[j] == s.jobs[j].(status := t.jobs[j].status)
        && (code == 0 ==> t.jobs[j].status == Success && forall d :: d in s.jobs && d != j ==> t.jobs[d] == s.jobs[d])
        && (code != 0 ==> t.jobs[j].status == Failed && Swept(s.jobs[j := s.jobs[j].(status := Failed)], t.jobs, j))
      else t == s
  {
    if EndAccepted(s, j, runner) {
      FinishOutcome(s.jobs, j, Success);
      FinishOutcome(s.jobs, j, Failed);
    }
  }

  /** EndProxiedJob: for a PROXYQUEUED job, the end state that was reported, with the same sweep. */
  lemma EndProxiedOutcome(s: Store, j: Id, st: Status)
    ensures var t := EndProxied(s, j, st);
      if j in s.jobs && s.jobs[j].status == ProxyQueued && Ended(st)
      then
        && t.claims == s.claims && t.running == s.running && t.jobs.Keys == s.jobs.Keys
        && t.jobs[j] == s.jobs[j].(status := st)
        && (st == Success ==> forall d :: d in s.jobs && d != j ==> t.jobs[d] == s.jobs[d])
        && (st != Success ==> Swept(s.jobs[j := s.jobs[j].(status := st)], t.jobs, j))
      else t == s
    ensures EndProxiedAccepted(s, j, st) <==>
      Ended(st) && j in s.jobs && (s.jobs[j].status == ProxyQueued || s.jobs[j].status == st)
  {
    if j in s.jobs && Ended(st) { FinishOutcome(s.jobs, j, st); }
  }

  // ----- Handing off -------------------------------------------------------

  /** MarkJobProxied: the owner's RUNNING (or already PROXYQUEUED) job is PROXYQUEUED, the given details replace or join
      its recorded ones, and its lock stays. */
  lemma MarkOutcome(s: Store, j: Id, runner: string, details: map<string, string>)
    ensures ProxyAccepted(s, j, runner) <==>
      && j in s.claims && s.claims[j] == runner
      && j in s.jobs && (s.jobs[j].status == Running || s.jobs[j].status == ProxyQueued)
    ensures var t := MarkProxied(s, j, runner, details);
      if ProxyAccepted(s, j, runner)
      then
        && t.jobs == s.jobs[j := s.jobs[j].(status := ProxyQueued)] && t.claims == s.claims
        && DetailsJoined(s, t, j, details)
      else t == s
  {
    if ProxyAccepted(s, j, runner) {
      assert SetStatus(s.jobs, {j}, ProxyQueued) == s.jobs[j := s.jobs[j].(status := ProxyQueued)];
    }
  }

  ghost predicate DetailsJoined(s: Store, t: Store, j: Id, details: map<string, string>) {
    && (forall k :: k != j ==> (k in t.running <==> k in s.running))
    && (forall k :: k != j && k in s.running ==> t.running[k] == s.running[k])
    && j in t.running && (forall key :: key in details ==> key in t.running[j] && t.running[j][key] == details[key])
    && forall key :: key !in details ==>
         && (key in t.running[j] <==> j in s.running && key in s.running[j])
         && (key in t.running[j] ==> t.running[j][key] == s.running[j][key])
  }

  lemma UpdateOutcome(s: Store, j: Id, details: map<string, string>)
    ensures var t := UpdateDetails(s, j, details);
      if details != map[] && j in s.jobs
      then t.jobs == s.jobs && t.claims == s.claims && DetailsJoined(s, t, j, details)
      else t == s
  {}

  // ----- User actions ------------------------------------------------------

  /** Holding a job that is QUEUED or WAITING (or held already) makes it USERHOLD; any other job is left alone. */
  lemma HoldOutcome(s: Store, j: Id)
    ensures Hold(s, j) ==
      if j in s.jobs && (s.jobs[j].status == Queued || s.jobs[j].status == Waiting || s.jobs[j].status == UserHold)
      then s.(jobs := s.jobs[j := s.jobs[j].(status := UserHold)])
      else s
  {
    assert j in s.jobs ==> SetStatus(s.jobs, {j}, UserHold) == s.jobs[j := s.jobs[j].(status := UserHold)];
  }

  /** Releasing a held job makes it WAITING, never QUEUED: its parents are looked at again. */
  lemma ReleaseOutcome(s: Store, j: Id)
    ensures Release(s, j) ==
      if j in s.jobs && s.jobs[j].status == UserHold
      then s.(jobs := s.jobs[j := s.jobs[j].(status := Waiting)])
      else s
  {
    assert j in s.jobs ==> SetStatus(s.jobs, {j}, Waiting) == s.jobs[j := s.jobs[j].(status := Waiting)];
  }

  /** A priority changes by delta, and only before a job is claimed. */
  lemma AdjustOutcome(s: Store, j: Id, delta: int)
    ensures var t := AdjustPriority(s, j, delta);
      if j in s.jobs && (s.jobs[j].status == Queued || s.jobs[j].status == Waiting || s.jobs[j].status == UserHold)
      then
        && t.jobs.Keys == s.jobs.Keys && t.claims == s.claims && t.running == s.running
        && t.jobs[j].priority - s.jobs[j].priority == delta
        && t.jobs[j] == s.jobs[j].(priority := t.jobs[j].priority)
        && forall d :: d in s.jobs && d != j ==> t.jobs[d] == s.jobs[d]
      else t == s
  {}

  /** Held and released, a job that waited waits again, and a queued one has to wait for the next resolution. */
  lemma HoldThenRelease(s: Store, j: Id)
    requires j in s.jobs && (s.jobs[j].status == Queued || s.jobs[j].status == Waiting)
    ensures Release(Hold(s, j), j) == s.(jobs := s.jobs[j := s.jobs[j].(status := Waiting)])
    ensures s.jobs[j].status == Waiting ==> Release(Hold(s, j), j) == s
  {
    HoldOutcome(s, j);
    ReleaseOutcome(Hold(s, j), j);
  }

  // ----- Cleanup -----------------------------------------------------------

  /** Cleaning up a job removes its row, edges, details and lock exactly if no other job depends on it. */
  lemma CleanupOutcome(s: Store, j: Id)
    requires j in s.jobs
    ensures var t := Cleanup(s, j);
      if forall d :: d in s.jobs && d != j ==> j !in s.jobs[d].afterOk
      then
        && j !in t.jobs && j !in t.claims && j !in t.running
        && (forall d :: d != j ==> (d in t.jobs <==> d in s.jobs) && (d in s.jobs ==> t.jobs[d] == s.jobs[d]))
        && (forall d :: d != j ==> (d in t.claims <==> d in s.claims) && (d in s.claims ==> t.claims[d] == s.claims[d]))
      else t == s
  {
    var n := Strip(s, {j});
    assert Deletable(n, {j}) <==> forall d :: d in s.jobs && d != j ==> j !in s.jobs[d].afterOk by {
      assert forall d :: d in s.jobs && d != j ==> n.jobs[d] == s.jobs[d];
    }
  }
}
