/** ResolveDependencies: what one pass does, and where repeated passes end. */
module Resolve {
  import opened Jobs
  import opened Graph
  import opened Collections

  /** The decision for one candidate. A candidate that is no longer pending is left alone. */
  ghost function ResolveOne(m: JobTable, j: Id): (n: JobTable)
    ensures n.Keys == m.Keys
  {
    if j !in m || !m[j].status.Pending() then m
    else if HasFatalParent(m, j) then m[j := m[j].(status := Canceled)]
    else if ParentsMet(m, j) then m[j := m[j].(status := Queued)]
    else m
  }

  /** One pass over the candidates in the order the query returned them. */
  ghost function Pass(m: JobTable, order: seq<Id>): (n: JobTable)
    ensures n.Keys == m.Keys
  {
    if order == [] then m else ResolveOne(Pass(m, order[..|order| - 1]), order[|order| - 1])
  }

  ghost function Passes(m: JobTable, orders: seq<seq<Id>>): JobTable {
    if orders == [] then m else Pass(Passes(m, orders[..|orders| - 1]), orders[|orders| - 1])
  }

  /** Pending jobs below a canceled or failed job, through pending jobs only. */
  ghost function Condemned(m: JobTable): set<Id> {
    Fallout(m, PendingJobs(m), FatalJobs(m))
  }

  ghost function Promotable(m: JobTable): set<Id> {
    set j | j in m && m[j].status.Pending() && ParentsMet(m, j)
  }

  /** Where resolution ends: the promotable jobs queued, the condemned ones canceled, the rest untouched. */
  ghost function Settled(m: JobTable): JobTable {
    map j | j in m ::
      if j in Promotable(m) then m[j].(status := Queued)
      else if j in Condemned(m) then m[j].(status := Canceled)
      else m[j]
  }

  // ----- One candidate -----------------------------------------------------

  /** n differs from m only in pending jobs that were queued or canceled. */
  ghost predicate Decided(m: JobTable, n: JobTable) {
    && n.Keys == m.Keys
    && forall k :: k in m && n[k] != m[k] ==>
         m[k].status.Pending() && (n[k] == m[k].(status := Queued) || n[k] == m[k].(status := Canceled))
  }

  /** Deciding pending jobs never changes whether a parent is met, so scan order cannot affect promotion. */
  lemma DecidedKeepsMet(m: JobTable, n: JobTable, k: Id)
    requires Decided(m, n) && k in m
    ensures n[k].afterOk == m[k].afterOk
    ensures n[k].status.Met() <==> m[k].status.Met()
    ensures ParentsMet(n, k) <==> ParentsMet(m, k)
  {
    forall p | p in m ensures n[p].status.Met() <==> m[p].status.Met() {
      if n[p] != m[p] { assert m[p].status.Pending(); }
    }
  }

  lemma DecidedTransitive(m: JobTable, n: JobTable, o: JobTable)
    requires Decided(m, n) && Decided(n, o)
    ensures Decided(m, o)
  {
    forall k | k in m && o[k] != m[k]
      ensures m[k].status.Pending() && (o[k] == m[k].(status := Queued) || o[k] == m[k].(status := Canceled))
    {
      if n[k] != m[k] { assert !n[k].status.Pending(); }
    }
  }

  lemma ResolveOneDecides(m: JobTable, j: Id)
    ensures Decided(m, ResolveOne(m, j))
    ensures ResolveOne(m, j) != m ==> j in PendingJobs(m) && PendingJobs(ResolveOne(m, j)) == PendingJobs(m) - {j}
  {
  }

  lemma CondemnedIsPending(m: JobTable, j: Id)
    requires j in Condemned(m)
    ensures j in PendingJobs(m) && j !in Promotable(m)
  {
    var path :| Chain(m, PendingJobs(m), path) && |path| > 1 && path[0] in FatalJobs(m) && path[|path| - 1] == j;
    assert Link(m, PendingJobs(m), path[|path| - 2], j);
    if |path| > 2 { assert Link(m, PendingJobs(m), path[|path| - 3], path[|path| - 2]); }
  }

  lemma CancelKeepsCondemned(m: JobTable, j: Id)
    requires j in m && m[j].status.Pending() && HasFatalParent(m, j)
    ensures j in Condemned(m)
    ensures Condemned(ResolveOne(m, j)) == Condemned(m) - {j}
  {
    var n := ResolveOne(m, j);
    var p :| p in m[j].afterOk && p in m && m[p].status.Fatal();
    DownstreamStep(m, PendingJobs(m), FatalJobs(m), p, j);
    assert FatalJobs(n) == FatalJobs(m) + {j} && PendingJobs(n) == PendingJobs(m) - {j};
    FalloutClosed(n, PendingJobs(n), FatalJobs(n));
    var s := FatalJobs(n) + Condemned(n);
    assert Closed(m, PendingJobs(m), s) by {
      forall q, c | q in s && Link(m, PendingJobs(m), q, c) ensures c in s {
        if c != j { assert Link(n, PendingJobs(n), q, c); }
      }
    }
    FalloutLeast(m, PendingJobs(m), FatalJobs(m), s);
    var t := FatalJobs(m) + Condemned(m);
    FalloutClosed(m, PendingJobs(m), FatalJobs(m));
    assert Closed(n, PendingJobs(n), t) by {
      forall q, c | q in t && Link(n, PendingJobs(n), q, c) ensures c in t {
        assert Link(m, PendingJobs(m), q, c);
      }
    }
    FalloutLeast(n, PendingJobs(n), FatalJobs(n), t);
    forall c | c in Condemned(m) ensures c in PendingJobs(m) { CondemnedIsPending(m, c); }
  }

  lemma PromoteKeepsCondemned(m: JobTable, j: Id)
    requires j in m && m[j].status.Pending() && ParentsMet(m, j)
    ensures Condemned(ResolveOne(m, j)) == Condemned(m)
  {
    var n := ResolveOne(m, j);
    assert !HasFatalParent(m, j);
    assert FatalJobs(n) == FatalJobs(m) && PendingJobs(n) == PendingJobs(m) - {j};
    FalloutMonotone(n, m, PendingJobs(n), PendingJobs(m), FatalJobs(n), FatalJobs(m));
    FalloutClosed(n, PendingJobs(n), FatalJobs(n));
    var s := FatalJobs(m) + Condemned(n);
    assert Closed(m, PendingJobs(m), s) by {
      forall q, c | q in s && Link(m, PendingJobs(m), q, c) ensures c in s {
        if q in Condemned(n) { CondemnedIsPending(n, q); }
        assert c != j;
        assert Link(n, PendingJobs(n), q, c);
      }
    }
    FalloutLeast(m, PendingJobs(m), FatalJobs(m), s);
    forall c | c in Condemned(m) ensures c in PendingJobs(m) { CondemnedIsPending(m, c); }
  }

  /** Deciding a candidate early, late or twice does not move the destination. */
  lemma ResolveOneKeepsSettled(m: JobTable, j: Id)
    ensures Settled(ResolveOne(m, j)) == Settled(m)
  {
    var n := ResolveOne(m, j);
    ResolveOneDecides(m, j);
    if n != m {
      var fatal := HasFatalParent(m, j);
      if fatal {
        CancelKeepsCondemned(m, j);
        CondemnedIsPending(m, j);
      } else {
        PromoteKeepsCondemned(m, j);
      }
      forall k | k in m ensures Settled(n)[k] == Settled(m)[k] {
        DecidedKeepsMet(m, n, k);
        if k == j {
          assert j !in Promotable(n) && j !in PendingJobs(n);
          if j in Condemned(n) { CondemnedIsPending(n, j); }
        } else {
          assert n[k] == m[k];
        }
      }
    }
  }

  // ----- Whole passes ------------------------------------------------------

  lemma {:induction false} PassDecides(m: JobTable, order: seq<Id>)
    ensures Decided(m, Pass(m, order))
    ensures PendingJobs(Pass(m, order)) <= PendingJobs(m)
  {
    if order != [] {
      var init := order[..|order| - 1];
      PassDecides(m, init);
      ResolveOneDecides(Pass(m, init), order[|order| - 1]);
      DecidedTransitive(m, Pass(m, init), Pass(m, order));
    }
  }

  /** One pass queues exactly the candidates whose parents were already met, whatever the scan order. */
  lemma {:induction false} PassPromotesExactly(m: JobTable, order: seq<Id>, j: Id)
    requires j in m && m[j].status.Pending()
    ensures Pass(m, order)[j].status == Queued <==> j in order && j in Promotable(m)
    ensures j !in order ==> Pass(m, order)[j] == m[j]
  {
    if order != [] {
      var init, last := order[..|order| - 1], order[|order| - 1];
      var n := Pass(m, init);
      assert order == init + [last];
      PassPromotesExactly(m, init, j);
      PassDecides(m, init);
      DecidedKeepsMet(m, n, j);
      if last == j {
        if ParentsMet(n, j) { assert !HasFatalParent(n, j); }
      }
    }
  }

  lemma {:induction false} PassKeepsSettled(m: JobTable, order: seq<Id>)
    ensures Settled(Pass(m, order)) == Settled(m)
  {
    if order != [] {
      var init := order[..|order| - 1];
      PassKeepsSettled(m, init);
      ResolveOneKeepsSettled(Pass(m, init), order[|order| - 1]);
    }
  }

  /** A pass that changes anything takes at least one job out of the pending set. */
  lemma {:induction false} PassShrinks(m: JobTable, order: seq<Id>)
    ensures Pass(m, order) != m ==> PendingJobs(Pass(m, order)) < PendingJobs(m)
    ensures Pass(m, order) == m ==> forall j :: j in order ==> ResolveOne(m, j) == m
  {
    if order != [] {
      var init, last := order[..|order| - 1], order[|order| - 1];
      PassShrinks(m, init);
      PassDecides(m, init);
      ResolveOneDecides(Pass(m, init), last);
      forall j | j in order && Pass(m, order) == m ensures ResolveOne(m, j) == m {
        assert j in init || j == last;
      }
    }
  }

  lemma NothingFatalAbovePending(m: JobTable)
    requires forall j :: j in PendingJobs(m) ==> !HasFatalParent(m, j)
    ensures Condemned(m) == {}
  {
    assert forall p, c :: p in FatalJobs(m) ==> !Link(m, PendingJobs(m), p, c);
    FalloutLeast(m, PendingJobs(m), FatalJobs(m), FatalJobs(m));
    FalloutClosed(m, PendingJobs(m), FatalJobs(m));
    assert PendingJobs(m) * FatalJobs(m) == {};
  }

  /** A pass over every pending job that changes nothing has nothing left to do. */
  lemma FixpointIsSettled(m: JobTable, order: seq<Id>)
    requires PendingJobs(m) <= Elements(order) && Pass(m, order) == m
    ensures Settled(m) == m
  {
    PassShrinks(m, order);
    forall j | j in PendingJobs(m)
      ensures !HasFatalParent(m, j) && !ParentsMet(m, j)
    {
      assert ResolveOne(m, j) == m;
    }
    NothingFatalAbovePending(m);
  }

  /** As many passes as there are pending jobs always reach the same end, in any scan orders. */
  lemma {:induction false} PassesSettle(m: JobTable, orders: seq<seq<Id>>)
    requires forall i :: 0 <= i < |orders| ==> PendingJobs(m) <= Elements(orders[i])
    ensures Settled(Passes(m, orders)) == Settled(m)
    ensures PendingJobs(Passes(m, orders)) <= PendingJobs(m)
    ensures Passes(m, orders) == Settled(m) || |PendingJobs(Passes(m, orders))| + |orders| <= |PendingJobs(m)|
    ensures |orders| >= |PendingJobs(m)| ==> Passes(m, orders) == Settled(m)
  {
    if orders == [] {
      if PendingJobs(m) == {} { NothingPendingIsSettled(m); }
    } else {
      var init, last := orders[..|orders| - 1], orders[|orders| - 1];
      PassesSettle(m, init);
      var n := Passes(m, init);
      PassKeepsSettled(n, last);
      PassDecides(n, last);
      PassShrinks(n, last);
      if Pass(n, last) == n {
        FixpointIsSettled(n, last);
      } else {
        SubsetCardinality(PendingJobs(Pass(n, last)), PendingJobs(n));
        if n == Settled(m) { SettledIsFixed(n, last); }
        if PendingJobs(Pass(n, last)) == {} { NothingPendingIsSettled(Pass(n, last)); }
      }
    }
  }

  lemma NothingPendingIsSettled(m: JobTable)
    requires PendingJobs(m) == {}
    ensures Settled(m) == m
  {
    NothingFatalAbovePending(m);
  }

  lemma {:induction false} SettledIsFixed(m: JobTable, order: seq<Id>)
    requires Settled(m) == m
    ensures Pass(m, order) == m
  {
    if order != [] {
      SettledIsFixed(m, order[..|order| - 1]);
      var j := order[|order| - 1];
      if j in m && m[j].status.Pending() {
        assert Settled(m)[j] == m[j];
        if HasFatalParent(m, j) { CancelKeepsCondemned(m, j); }
      }
    }
  }

  // ----- No deadlock -------------------------------------------------------

  /** The statuses a job can leave without its parents' help. */
  predicate Movable(st: Status) { st == Queued || st == Running || st == UserHold }

  /** Once resolution has settled, whatever still waits is waiting, through waiting jobs only,
      for a job that is queued, running or held. */
  lemma {:induction false} WaitingHasMovableAncestor(m: JobTable, rank: map<Id, nat>, j: Id) returns (path: seq<Id>)
    requires ParentsExist(m) && Ranked(m, rank) && Settled(m) == m
    requires j in m && m[j].status.Pending()
    ensures Chain(m, PendingJobs(m), path) && |path| > 1 && path[|path| - 1] == j
    ensures path[0] in m && Movable(m[path[0]].status)
    decreases rank[j]
  {
    assert Settled(m)[j] == m[j];
    if HasFatalParent(m, j) { CancelKeepsCondemned(m, j); }
    var p :| p in m[j].afterOk && p in m && !m[p].status.Met();
    assert !m[p].status.Fatal();
    assert Link(m, m.Keys, p, j) && Link(m, PendingJobs(m), p, j);
    if m[p].status.Pending() {
      var upper := WaitingHasMovableAncestor(m, rank, p);
      path := upper + [j];
    } else {
      path := [p, j];
    }
  }
}
