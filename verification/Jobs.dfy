/** Job rows and the table they live in. */
module Jobs {

  /** A job id. The source uses UUID text; only equality and ORDER BY id matter here. */
  type Id = int

  datatype Status =
    | Unknown | UserHold | Waiting | Queued | ProxyQueued | Running
    | Canceled | Success | Failed
  {
    /** The integer stored in the status column. */
    function Code(): nat {
      match this
      case Unknown => 0 case UserHold => 1 case Waiting => 2 case Queued => 3
      case ProxyQueued => 4 case Running => 5 case Canceled => 6 case Success => 7 case Failed => 8
    }

    /** `status < CANCELED`: the job has not reached an end state. */
    predicate Live() { Code() < Canceled.Code() }

    /** The parent statuses that satisfy an afterok edge. */
    predicate Met() { this == Success || this == ProxyQueued }

    /** The parent statuses that doom a dependent. */
    predicate Fatal() { this == Canceled || this == Failed }

    /** The statuses ResolveDependencies looks at. */
    predicate Pending() { this == Waiting || this == Unknown }

    /** In a runner's hands. */
    predicate Active() { this == Running || this == ProxyQueued }

    /** Not claimed by any runner yet. */
    predicate Unclaimed() { this == Unknown || this == UserHold || this == Waiting || this == Queued }

    /** Past the dependency gate but not finished. */
    predicate Released() { this == Queued || this == Running || this == ProxyQueued }
  }

  datatype Job = Job(status: Status, priority: int, submitted: int,
                     afterOk: set<Id>, details: map<string, string>)
  {
    function Detail(key: string): string {
      if key in details then details[key] else ""
    }
  }

  type JobTable = map<Id, Job>

  /** UPDATE jobs SET status = st WHERE id IN ids. */
  function SetStatus(m: JobTable, ids: set<Id>, st: Status): (r: JobTable)
    ensures r.Keys == m.Keys
  {
    map j | j in m :: if j in ids then m[j].(status := st) else m[j]
  }

  function WithStatus(m: JobTable, st: Status): set<Id> {
    set j | j in m && m[j].status == st
  }

  ghost function LiveJobs(m: JobTable): set<Id> { set j | j in m && m[j].status.Live() }
  ghost function FatalJobs(m: JobTable): set<Id> { set j | j in m && m[j].status.Fatal() }
  ghost function PendingJobs(m: JobTable): set<Id> { set j | j in m && m[j].status.Pending() }

  ghost predicate ParentsMet(m: JobTable, j: Id)
    requires j in m
  {
    forall p :: p in m[j].afterOk && p in m ==> m[p].status.Met()
  }

  ghost predicate HasFatalParent(m: JobTable, j: Id)
    requires j in m
  {
    exists p :: p in m[j].afterOk && p in m && m[p].status.Fatal()
  }

  /** The job_deps foreign key: every parent is a row of the table. */
  ghost predicate ParentsExist(m: JobTable) {
    forall j, p :: j in m && p in m[j].afterOk ==> p in m
  }

  /** The two tables differ in statuses only. */
  ghost predicate SameEdges(m: JobTable, n: JobTable) {
    && m.Keys == n.Keys
    && forall j :: j in m ==> n[j].afterOk == m[j].afterOk
  }
}

/** Chains of dependency edges, from a parent towards its dependents. */
module Graph {
  import opened Jobs

  /** child depends on parent and lies within the given set. */
  ghost predicate Link(m: JobTable, within: set<Id>, parent: Id, child: Id) {
    child in within && child in m && parent in m[child].afterOk
  }

  ghost predicate Chain(m: JobTable, within: set<Id>, path: seq<Id>) {
    |path| > 0 && forall i :: 0 < i < |path| ==> Link(m, within, path[i - 1], path[i])
  }

  /** Some chain of at least one edge leads from a member of roots to c. */
  ghost predicate Downstream(m: JobTable, within: set<Id>, roots: set<Id>, c: Id) {
    exists path :: Chain(m, within, path) && |path| > 1 && path[0] in roots && path[|path| - 1] == c
  }

  /** All of them. */
  ghost function Fallout(m: JobTable, within: set<Id>, roots: set<Id>): set<Id> {
    set c | c in m && Downstream(m, within, roots, c)
  }

  ghost predicate Closed(m: JobTable, within: set<Id>, s: set<Id>) {
    forall p, c :: p in s && Link(m, within, p, c) ==> c in s
  }

  lemma DownstreamStep(m: JobTable, within: set<Id>, roots: set<Id>, p: Id, c: Id)
    requires p in roots || Downstream(m, within, roots, p)
    requires Link(m, within, p, c)
    ensures Downstream(m, within, roots, c)
  {
    if p in roots {
      assert Chain(m, within, [p, c]);
    } else {
      var path :| Chain(m, within, path) && |path| > 1 && path[0] in roots && path[|path| - 1] == p;
      var longer := path + [c];
      assert Chain(m, within, longer) && longer[0] in roots && longer[|longer| - 1] == c;
    }
  }

  /** Fallout together with its roots is closed. */
  lemma FalloutClosed(m: JobTable, within: set<Id>, roots: set<Id>)
    ensures Closed(m, within, roots + Fallout(m, within, roots))
    ensures Fallout(m, within, roots) <= within
  {
    forall p, c | p in roots + Fallout(m, within, roots) && Link(m, within, p, c)
      ensures c in Fallout(m, within, roots)
    {
      DownstreamStep(m, within, roots, p, c);
    }
    forall c | c in Fallout(m, within, roots) ensures c in within {
      var path :| Chain(m, within, path) && |path| > 1 && path[0] in roots && path[|path| - 1] == c;
      assert Link(m, within, path[|path| - 2], path[|path| - 1]);
    }
  }

  lemma {:induction false} ChainStaysInside(m: JobTable, within: set<Id>, s: set<Id>, path: seq<Id>, n: nat)
    requires Chain(m, within, path) && path[0] in s && Closed(m, within, s) && n < |path|
    ensures path[n] in s
  {
    if n > 0 {
      ChainStaysInside(m, within, s, path, n - 1);
      assert Link(m, within, path[n - 1], path[n]);
    }
  }

  /** Fallout lies in every closed set that holds the roots. */
  lemma FalloutLeast(m: JobTable, within: set<Id>, roots: set<Id>, s: set<Id>)
    requires roots <= s && Closed(m, within, s)
    ensures Fallout(m, within, roots) <= s
  {
    forall c | c in Fallout(m, within, roots) ensures c in s {
      var path :| Chain(m, within, path) && |path| > 1 && path[0] in roots && path[|path| - 1] == c;
      ChainStaysInside(m, within, s, path, |path| - 1);
    }
  }

  /** Fewer nodes or roots give less fallout; statuses play no part. */
  lemma FalloutMonotone(m: JobTable, n: JobTable, within: set<Id>, wider: set<Id>, roots: set<Id>, more: set<Id>)
    requires SameEdges(m, n) && within <= wider && roots <= more
    ensures Fallout(m, within, roots) <= Fallout(n, wider, more)
  {
    forall c | c in Fallout(m, within, roots) ensures c in Fallout(n, wider, more) {
      var path :| Chain(m, within, path) && |path| > 1 && path[0] in roots && path[|path| - 1] == c;
      assert Chain(n, wider, path);
    }
  }

  // ----- Acyclicity --------------------------------------------------------

  /** No job is its own ancestor. */
  ghost predicate Acyclic(m: JobTable) {
    forall j :: j in m ==> !Downstream(m, m.Keys, {j}, j)
  }

  /** Every job ranks above its parents. */
  ghost predicate Ranked(m: JobTable, rank: map<Id, nat>) {
    && (forall j :: j in m ==> j in rank)
    && forall p, c :: Link(m, m.Keys, p, c) && p in rank ==> rank[p] < rank[c]
  }

  lemma {:induction false} RankClimbs(m: JobTable, rank: map<Id, nat>, path: seq<Id>, n: nat)
    requires ParentsExist(m) && Ranked(m, rank) && Chain(m, m.Keys, path) && path[0] in m && 0 < n < |path|
    ensures path[n] in m && path[0] in rank && path[n] in rank && rank[path[0]] < rank[path[n]]
  {
    assert Link(m, m.Keys, path[n - 1], path[n]);
    if n > 1 { RankClimbs(m, rank, path, n - 1); }
  }

  lemma RankedIsAcyclic(m: JobTable, rank: map<Id, nat>)
    requires ParentsExist(m) && Ranked(m, rank)
    ensures Acyclic(m)
  {
    forall j | j in m ensures !Downstream(m, m.Keys, {j}, j) {
      forall path | Chain(m, m.Keys, path) && |path| > 1 && path[0] in {j} ensures path[|path| - 1] != j {
        RankClimbs(m, rank, path, |path| - 1);
      }
    }
  }

  ghost function RankBound<T>(rank: map<T, nat>): (b: nat)
    ensures forall j :: j in rank ==> rank[j] < b
  {
    if rank == map[] then 0 else
      var j :| j in rank;
      var rest := rank - {j};
      var b := RankBound(rest);
      assert forall i :: i in rank && i != j ==> i in rest;
      if b > rank[j] then b else rank[j] + 1
  }
}
