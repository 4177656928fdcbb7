/** What a cancellation does to the whole table. */
module Cascade {
  import opened Jobs
  import opened Graph
  import opened Collections

  function CancelOne(m: JobTable, j: Id): JobTable {
    if j in m && m[j].status.Live() then m[j := m[j].(status := Canceled)] else m
  }

  /** The live jobs a cascade from start reaches: dependents of dependents, never passing an ended job. */
  ghost function Reached(m: JobTable, start: Id): set<Id> {
    Fallout(m, LiveJobs(m), {start}) - {start}
  }

  ghost function CascadeFrom(m: JobTable, start: Id): JobTable {
    SetStatus(m, Reached(m, start), Canceled)
  }

  /** cancelOne, then cascadeCancel. */
  ghost function CancelWithCascade(m: JobTable, j: Id): JobTable {
    CascadeFrom(CancelOne(m, j), j)
  }

  /** cancelOne and cascadeCancel for each id in turn, each seeing what the previous ones wrote. */
  ghost function CancelEach(m: JobTable, ids: seq<Id>): JobTable {
    if ids == [] then m else
      CancelWithCascade(CancelEach(m, ids[..|ids| - 1]), ids[|ids| - 1])
  }

  /** The jobs doomed by cancelling roots: the live roots, and all live fallout of any root. */
  ghost function Doomed(m: JobTable, roots: set<Id>): set<Id> {
    LiveJobs(m) * (roots + Fallout(m, LiveJobs(m), roots))
  }

  lemma CancelledTable(m: JobTable, s: set<Id>)
    requires s <= m.Keys
    ensures SameEdges(m, SetStatus(m, s, Canceled))
    ensures LiveJobs(SetStatus(m, s, Canceled)) == LiveJobs(m) - s
  {
    forall j ensures j in LiveJobs(SetStatus(m, s, Canceled)) <==> j in LiveJobs(m) - s { }
  }

  /** Doomed is exactly what one cancel changes, whether or not its target had already ended. */
  lemma CancelDoomsExactly(m: JobTable, j: Id)
    ensures CancelWithCascade(m, j) == SetStatus(m, Doomed(m, {j}), Canceled)
  {
    var n := CancelOne(m, j);
    var live, left := LiveJobs(m), LiveJobs(n);
    assert left == live - {j};
    var reached := Fallout(n, left, {j});
    FalloutClosed(n, left, {j});
    FalloutMonotone(n, m, left, live, {j}, {j});
    var s := {j} + reached;
    assert Closed(m, live, s) by {
      forall p, c | p in s && Link(m, live, p, c) ensures c in s {
        if c != j { assert Link(n, left, p, c); }
      }
    }
    FalloutLeast(m, live, {j}, s);
    assert Doomed(m, {j}) == (live * {j}) + (reached - {j});
  }

  /** Cancelling one more job after roots dooms what cancelling both together dooms. */
  lemma DoomedStep(m: JobTable, roots: set<Id>, j: Id)
    ensures var after := SetStatus(m, Doomed(m, roots), Canceled);
      Doomed(m, roots + {j}) == Doomed(m, roots) + Doomed(after, {j})
  {
    var first := Doomed(m, roots);
    var after := SetStatus(m, first, Canceled);
    CancelledTable(m, first);
    var live, left := LiveJobs(m), LiveJobs(after);
    var second := Fallout(after, left, {j});
    FalloutClosed(after, left, {j});
    FalloutClosed(m, live, roots);
    FalloutMonotone(m, m, live, live, roots, roots + {j});
    FalloutMonotone(after, m, left, live, {j}, roots + {j});
    var s := roots + first + {j} + second;
    assert Closed(m, live, s) by {
      forall p, c | p in s && Link(m, live, p, c) ensures c in s {
        if p in roots + first {
          assert p in roots + Fallout(m, live, roots);
        } else if c !in first {
          assert Link(after, left, p, c);
        }
      }
    }
    FalloutLeast(m, live, roots + {j}, s);
  }

  /** Cancelling a list of jobs one by one dooms exactly what cancelling the set of them dooms. */
  lemma {:induction false} CancelEachDoomsExactly(m: JobTable, ids: seq<Id>)
    ensures CancelEach(m, ids) == SetStatus(m, Doomed(m, Elements(ids)), Canceled)
  {
    if ids == [] {
      assert Doomed(m, {}) == {} by { FalloutLeast(m, LiveJobs(m), {}, {}); }
    } else {
      var init, last := ids[..|ids| - 1], ids[|ids| - 1];
      CancelEachDoomsExactly(m, init);
      var after := SetStatus(m, Doomed(m, Elements(init)), Canceled);
      CancelDoomsExactly(after, last);
      DoomedStep(m, Elements(init), last);
      assert Elements(ids) == Elements(init) + {last};
    }
  }

  /** So the order in which CancelArray meets the members of an array does not matter. */
  lemma CancelArrayOrderFree(m: JobTable, ids: seq<Id>, others: seq<Id>)
    requires Elements(ids) == Elements(others)
    ensures CancelEach(m, ids) == CancelEach(m, others)
  {
    CancelEachDoomsExactly(m, ids);
    CancelEachDoomsExactly(m, others);
  }

  /** d is made of live jobs and swallows every live job that depends on a root or on a member. */
  ghost predicate Swallows(m: JobTable, roots: set<Id>, d: set<Id>) {
    && (forall j :: j in d ==> j in m && m[j].status.Live())
    && (forall p, c :: (p in roots || p in d) && c in m && m[c].status.Live() && p in m[c].afterOk ==> c in d)
  }

  /** After a cancel nothing live still depends on the target or on anything it doomed. */
  lemma DoomedSwallows(m: JobTable, roots: set<Id>)
    ensures Swallows(m, roots, Doomed(m, roots))
  {
    forall p, c | (p in roots || p in Doomed(m, roots)) && c in m && m[c].status.Live() && p in m[c].afterOk
      ensures c in Doomed(m, roots)
    {
      DownstreamStep(m, LiveJobs(m), roots, p, c);
    }
  }

  /** A failed parent that has already ended cascades the same way. */
  lemma CascadeFromEnded(m: JobTable, start: Id)
    requires start in m && !m[start].status.Live()
    ensures CascadeFrom(m, start) == SetStatus(m, Doomed(m, {start}), Canceled)
  {
    FalloutClosed(m, LiveJobs(m), {start});
    assert Doomed(m, {start}) == Reached(m, start);
  }
}
