/** planRemoval: which cleanup candidates can go, and in what order. */
module Removal {
  import opened Collections
  import opened Jobs

  /** One job_deps row: job depends on parent. */
  datatype Edge = Edge(job: Id, parent: Id)

  /** A walk from a job to its dependents, their dependents, and so on. */
  ghost predicate Walk(edges: seq<Edge>, path: seq<Id>) {
    |path| > 0 && forall i :: 0 < i < |path| ==> Edge(path[i], path[i - 1]) in edges
  }

  ghost predicate WalkFrom(edges: seq<Edge>, id: Id, path: seq<Id>) {
    Walk(edges, path) && path[0] == id
  }

  /** Everything that depends on the job, directly or not, is a candidate too, and no walk from it meets a cycle. */
  ghost predicate CanGo(cand: set<Id>, edges: seq<Edge>, id: Id) {
    forall path :: WalkFrom(edges, id, path) ==> path[|path| - 1] in cand && Distinct(path)
  }

  /** The candidates reachable from a job by walks. */
  ghost function Below(cand: set<Id>, edges: seq<Edge>, id: Id): set<Id> {
    set x | x in cand && exists path :: WalkFrom(edges, id, path) && path[|path| - 1] == x
  }

  // ----- Walks -------------------------------------------------------------

  lemma SelfWalk(edges: seq<Edge>, id: Id)
    ensures WalkFrom(edges, id, [id])
  {
  }

  lemma PrependWalk(edges: seq<Edge>, id: Id, dep: Id, path: seq<Id>)
    requires Edge(dep, id) in edges && WalkFrom(edges, dep, path)
    ensures WalkFrom(edges, id, [id] + path)
  {
    var p := [id] + path;
    forall i | 0 < i < |p| ensures Edge(p[i], p[i - 1]) in edges {
      if i > 1 { assert p[i] == path[i - 1] && p[i - 1] == path[i - 2]; }
    }
  }

  lemma AppendWalk(edges: seq<Edge>, path: seq<Id>, next: Id)
    requires Walk(edges, path) && Edge(next, path[|path| - 1]) in edges
    ensures Walk(edges, path + [next])
  {
  }

  /** A blocked dependent blocks the job. */
  lemma BlockedAbove(cand: set<Id>, edges: seq<Edge>, id: Id, dep: Id)
    requires Edge(dep, id) in edges && !CanGo(cand, edges, dep)
    ensures !CanGo(cand, edges, id)
  {
    var path :| WalkFrom(edges, dep, path) && !(path[|path| - 1] in cand && Distinct(path));
    PrependWalk(edges, id, dep, path);
    var p := [id] + path;
    assert p[|p| - 1] == path[|path| - 1];
    if !Distinct(path) {
      var i, j :| 0 <= i < j < |path| && path[i] == path[j];
      assert p[i + 1] == p[j + 1];
    }
  }

  /** A job met again on the way down lies on a cycle. */
  lemma CycleBlocks(cand: set<Id>, edges: seq<Edge>, stack: seq<Id>, id: Id)
    requires Walk(edges, stack + [id]) && id in stack
    ensures !CanGo(cand, edges, id)
  {
    var k :| 0 <= k < |stack| && stack[k] == id;
    var path := (stack + [id])[k..];
    assert forall i :: 0 <= i < |path| ==> path[i] == (stack + [id])[k + i];
    assert WalkFrom(edges, id, path);
    assert path[0] == path[|path| - 1];
  }

  /** A candidate all of whose dependents can go can go itself. */
  lemma AllBelowGo(cand: set<Id>, edges: seq<Edge>, id: Id)
    requires id in cand && forall dep :: Edge(dep, id) in edges ==> CanGo(cand, edges, dep)
    ensures CanGo(cand, edges, id)
  {
    forall path | WalkFrom(edges, id, path) ensures path[|path| - 1] in cand && Distinct(path) {
      if |path| > 1 {
        var dep, rest := path[1], path[1..];
        assert forall i :: 0 <= i < |rest| ==> rest[i] == path[i + 1];
        assert Edge(path[1], path[0]) in edges;
        assert WalkFrom(edges, dep, rest);
        NoReturn(cand, edges, id, dep, rest);
        assert path == [id] + rest;
      }
    }
  }

  lemma ReturnBlocks(cand: set<Id>, edges: seq<Edge>, id: Id, dep: Id, path: seq<Id>, k: nat)
    requires Edge(dep, id) in edges && WalkFrom(edges, dep, path) && k < |path| && path[k] == id
    ensures !CanGo(cand, edges, dep)
  {
    var around := path[..k + 1] + [dep];
    AppendWalk(edges, path[..k + 1], dep);
    assert WalkFrom(edges, dep, around);
    assert around[0] == around[|around| - 1];
  }

  lemma NoReturn(cand: set<Id>, edges: seq<Edge>, id: Id, dep: Id, path: seq<Id>)
    requires Edge(dep, id) in edges && WalkFrom(edges, dep, path)
    ensures CanGo(cand, edges, dep) ==> id !in path
  {
    if id in path {
      var k :| 0 <= k < |path| && path[k] == id;
      ReturnBlocks(cand, edges, id, dep, path, k);
    }
  }

  /** Walking down from a removable job shrinks what is below: the measure of the post-order recursion. */
  lemma BelowShrinks(cand: set<Id>, edges: seq<Edge>, id: Id, dep: Id)
    requires Edge(dep, id) in edges && CanGo(cand, edges, id)
    ensures CanGo(cand, edges, dep) && Below(cand, edges, dep) < Below(cand, edges, id)
  {
    if !CanGo(cand, edges, dep) { BlockedAbove(cand, edges, id, dep); }
    forall x | x in Below(cand, edges, dep) ensures x in Below(cand, edges, id) && x != id {
      var path :| WalkFrom(edges, dep, path) && path[|path| - 1] == x;
      PrependWalk(edges, id, dep, path);
      assert ([id] + path)[|path|] == x;
      NoReturn(cand, edges, id, dep, path);
    }
    SelfWalk(edges, id);
    assert [id][|[id]| - 1] == id;
    assert id in Below(cand, edges, id);
  }

  // ----- The planner -------------------------------------------------------

  datatype Mark = Visiting | Removable | Blocked

  /** Each job after all of its dependents. */
  ghost predicate DependentsFirst(edges: seq<Edge>, order: seq<Id>) {
    forall i, dep :: 0 <= i < |order| && Edge(dep, order[i]) in edges ==> dep in order[..i]
  }

  class Planner {
    const cand: set<Id>
    ghost const edges: seq<Edge>
    const dependents: map<Id, seq<Id>>
    var state: map<Id, Mark>
    var added: set<Id>
    var order: seq<Id>

    function Dependents(id: Id): seq<Id> { if id in dependents then dependents[id] else [] }

    ghost predicate Grouped() {
      forall id, dep :: dep in Dependents(id) <==> Edge(dep, id) in edges
    }

    /** Finished marks tell the truth; only jobs on the stack are still being visited. */
    ghost predicate Marks(stack: seq<Id>)
      reads this
    {
      && (forall id :: id in state && state[id] == Visiting ==> id in stack)
      && (forall id :: id in state && state[id] == Removable ==> CanGo(cand, edges, id))
      && (forall id :: id in state && state[id] == Blocked ==> !CanGo(cand, edges, id))
    }

    ghost predicate Emitted()
      reads this
    {
      && Distinct(order) && Elements(order) == added && DependentsFirst(edges, order)
      && (forall id :: id in added ==> CanGo(cand, edges, id))
    }

    constructor (cand: set<Id>, ghost edges: seq<Edge>, dependents: map<Id, seq<Id>>)
      requires forall id, dep :: dep in (if id in dependents then dependents[id] else []) <==> Edge(dep, id) in edges
      ensures this.cand == cand && this.edges == edges && this.dependents == dependents
      ensures Grouped() && Marks([]) && Emitted() && order == []
    {
      this.cand, this.edges, this.dependents := cand, edges, dependents;
      state, added, order := map[], {}, [];
    }

    /** canRemove: depth first with memo; a job met while still being visited closes a cycle. */
    method CanRemove(id: Id, ghost stack: seq<Id>) returns (ok: bool)
      requires Grouped() && Marks(stack) && Walk(edges, stack + [id])
      modifies this`state
      ensures Marks(stack) && ok == CanGo(cand, edges, id)
      ensures old(state).Keys <= state.Keys
      decreases cand - state.Keys, 1
    {
      if id in state {
        if state[id] == Visiting {
          CycleBlocks(cand, edges, stack, id);
          state := state[id := Blocked];
          return false;
        }
        return state[id] == Removable;
      }
      if id !in cand {
        SelfWalk(edges, id);
        assert [id][|[id]| - 1] == id;
        state := state[id := Blocked];
        return false;
      }
      state := state[id := Visiting];
      assert Marks(stack + [id]);
      ok := AllCanGo(id, stack);
      state := state[id := if ok then Removable else Blocked];
    }

    /** The loop over the dependents: stop at the first that cannot go. */
    method AllCanGo(id: Id, ghost stack: seq<Id>) returns (ok: bool)
      requires Grouped() && Marks(stack + [id]) && Walk(edges, stack + [id]) && id in cand && id in state
      modifies this`state
      ensures Marks(stack + [id]) && ok == CanGo(cand, edges, id)
      ensures old(state).Keys <= state.Keys
      decreases cand - state.Keys, 2
    {
      hide CanGo, Walk;
      var deps := Dependents(id);
      for i := 0 to |deps|
        invariant Marks(stack + [id]) && old(state).Keys <= state.Keys
        invariant forall k :: 0 <= k < i ==> CanGo(cand, edges, deps[k])
      {
        assert deps[i] in deps;
        AppendWalk(edges, stack + [id], deps[i]);
        var below := CanRemove(deps[i], stack + [id]);
        if !below {
          BlockedAbove(cand, edges, id, deps[i]);
          return false;
        }
      }
      forall dep | Edge(dep, id) in edges ensures CanGo(cand, edges, dep) { assert dep in deps; }
      AllBelowGo(cand, edges, id);
      return true;
    }

    /** add: emit the dependents, then the job. */
    method Add(id: Id)
      requires Grouped() && Marks([]) && Emitted()
      modifies this`state, this`added, this`order
      ensures Marks([]) && Emitted()
      ensures old(added) <= added && (CanGo(cand, edges, id) ==> id in added)
      decreases Below(cand, edges, id), 1
    {
      if id in added { return; }
      assert Walk(edges, [] + [id]);
      var ok := CanRemove(id, []);
      if ok {
        AddDependents(id);
        if id !in added { Emit(id, Dependents(id)); }
      }
    }

    method AddDependents(id: Id)
      requires Grouped() && Marks([]) && Emitted() && CanGo(cand, edges, id)
      modifies this`state, this`added, this`order
      ensures Marks([]) && Emitted()
      ensures old(added) <= added && forall k :: 0 <= k < |Dependents(id)| ==> Dependents(id)[k] in added
      decreases Below(cand, edges, id), 0
    {
      var deps := Dependents(id);
      for i := 0 to |deps|
        invariant Marks([]) && Emitted() && old(added) <= added
        invariant forall k :: 0 <= k < i ==> deps[k] in added
      {
        assert deps[i] in deps;
        BelowShrinks(cand, edges, id, deps[i]);
        Add(deps[i]);
      }
    }

    method Emit(id: Id, ghost deps: seq<Id>)
      requires Grouped() && Marks([]) && Emitted() && id !in added && CanGo(cand, edges, id)
      requires deps == Dependents(id) && forall k :: 0 <= k < |deps| ==> deps[k] in added
      modifies this`added, this`order
      ensures Marks([]) && Emitted() && added == old(added) + {id}
    {
      ghost var before := order;
      ElementsAppend(order, id);
      order := order + [id];
      added := added + {id};
      assert id !in before by { assert id !in Elements(before); }
      forall i, dep | 0 <= i < |order| && Edge(dep, order[i]) in edges ensures dep in order[..i] {
        if i < |before| {
          assert order[..i] == before[..i];
        } else {
          assert order[..i] == before;
          assert dep in deps;
          assert dep in Elements(before);
        }
      }
    }
  }

  /** The dependents of each parent, in edge order. */
  method GroupEdges(edges: seq<Edge>) returns (dependents: map<Id, seq<Id>>)
    ensures forall id, dep :: dep in (if id in dependents then dependents[id] else []) <==> Edge(dep, id) in edges
  {
    dependents := map[];
    for i := 0 to |edges|
      invariant forall id, dep :: dep in (if id in dependents then dependents[id] else []) <==>
        Edge(dep, id) in edges[..i]
    {
      var e := edges[i];
      assert edges[..i + 1] == edges[..i] + [e];
      var sofar := if e.parent in dependents then dependents[e.parent] else [];
      dependents := dependents[e.parent := sofar + [e.job]];
    }
    assert edges[..|edges|] == edges;
  }

  ghost function RemovableAmong(ids: seq<Id>, cand: set<Id>, edges: seq<Edge>): set<Id> {
    set id | id in ids && CanGo(cand, edges, id)
  }

  lemma OneMoreAmong(ids: seq<Id>, id: Id, cand: set<Id>, edges: seq<Edge>)
    requires id !in ids
    ensures |RemovableAmong(ids + [id], cand, edges)| ==
      |RemovableAmong(ids, cand, edges)| + if CanGo(cand, edges, id) then 1 else 0
  {
    var before := RemovableAmong(ids, cand, edges);
    assert RemovableAmong(ids + [id], cand, edges) == if CanGo(cand, edges, id) then before + {id} else before;
  }

  method EmitAll(planner: Planner, candidates: seq<Id>)
    requires planner.Grouped() && planner.Marks([]) && planner.Emitted() && planner.order == []
    requires planner.cand == Elements(candidates)
    modifies planner
    ensures planner.Marks([]) && planner.Emitted()
    ensures Elements(planner.order) == RemovableAmong(candidates, planner.cand, planner.edges)
  {
    for i := 0 to |candidates|
      invariant planner.Marks([]) && planner.Emitted()
      invariant forall k :: 0 <= k < i && CanGo(planner.cand, planner.edges, candidates[k]) ==>
        candidates[k] in planner.added
    {
      planner.Add(candidates[i]);
    }
    forall id ensures id in planner.added <==> id in RemovableAmong(candidates, planner.cand, planner.edges) {
      SelfWalk(planner.edges, id);
      assert [id][|[id]| - 1] == id;
      assert id in candidates <==> id in planner.cand;
    }
  }

  method CountBlocked(planner: Planner, candidates: seq<Id>) returns (blocked: nat)
    requires planner.Grouped() && planner.Marks([])
    modifies planner`state
    ensures Distinct(candidates) ==> blocked + |RemovableAmong(candidates, planner.cand, planner.edges)| == |candidates|
  {
    blocked := 0;
    ghost var cand, edges := planner.cand, planner.edges;
    assert RemovableAmong(candidates[..0], cand, edges) == {};
    for i := 0 to |candidates|
      invariant planner.Marks([])
      invariant Distinct(candidates) ==> blocked + |RemovableAmong(candidates[..i], cand, edges)| == i
    {
      var id := candidates[i];
      assert Walk(edges, [] + [id]);
      var ok := planner.CanRemove(id, []);
      assert candidates[..i + 1] == candidates[..i] + [id];
      if Distinct(candidates) { OneMoreAmong(candidates[..i], id, cand, edges); }
      if !ok { blocked := blocked + 1; }
    }
    assert candidates[..|candidates|] == candidates;
  }

  /** For any candidates and any edges, cyclic or not: exactly the removable candidates, each once,
      dependents before parents, and the count of the rest. */
  method PlanRemoval(candidates: seq<Id>, edges: seq<Edge>) returns (order: seq<Id>, blocked: nat)
    ensures Distinct(order) && DependentsFirst(edges, order)
    ensures Elements(order) == RemovableAmong(candidates, Elements(candidates), edges)
    ensures Distinct(candidates) ==> |order| + blocked == |candidates|
  {
    var dependents := GroupEdges(edges);
    var planner := new Planner(Elements(candidates), edges, dependents);
    EmitAll(planner, candidates);
    order := planner.order;
    blocked := CountBlocked(planner, candidates);
    DistinctCardinality(order);
  }

  /** The plan is dependency-closed: whoever depends on a removed job is removed too, and earlier. */
  lemma PlanIsClosed(cand: set<Id>, edges: seq<Edge>, removed: set<Id>)
    requires forall id :: id in removed <==> id in cand && CanGo(cand, edges, id)
    ensures forall id, dep :: id in removed && Edge(dep, id) in edges ==> dep in removed
  {
    forall id, dep | id in removed && Edge(dep, id) in edges ensures dep in removed {
      BelowShrinks(cand, edges, id, dep);
      SelfWalk(edges, dep);
      assert [dep][|[dep]| - 1] == dep;
    }
  }
}
