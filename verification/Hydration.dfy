/** Loading job relations in bulk: one grouped query per table and chunk, against one query per job. */
module Hydration {
  import opened Collections
  import opened Jobs
  import opened Ordering

  /** The five relation tables of a job. */
  datatype Relation = Deps | Details | RunningDetails | Inputs | Outputs

  /** A row of a relation, without its job id. key stands for the parent id, the detail key or the path. */
  datatype Row = Row(key: int, value: string)

  datatype Entry = Entry(job: Id, row: Row)

  type Table = set<Entry>

  /** PRIMARY KEY (job_id, ...). */
  ghost predicate Keyed(table: Table) {
    forall e, f :: e in table && f in table && e.job == f.job && e.row.key == f.row.key ==> e == f
  }

  const ROW_ORDER := (a: Row, b: Row) => a.key < b.key
  const ENTRY_ORDER := (e: Entry, f: Entry) => e.job < f.job || (e.job == f.job && e.row.key < f.row.key)

  function Rows(table: Table, j: Id): set<Row> { set e | e in table && e.job == j :: e.row }

  lemma RowsAreOrdered(table: Table, j: Id)
    requires Keyed(table)
    ensures StrictOrderOn(ROW_ORDER, Rows(table, j))
  {
    forall a, b | a in Rows(table, j) && b in Rows(table, j) && a != b ensures ROW_ORDER(a, b) || ROW_ORDER(b, a) {
      assert Entry(j, a) in table && Entry(j, b) in table;
    }
  }

  lemma EntriesAreOrdered(table: Table)
    requires Keyed(table)
    ensures StrictOrderOn(ENTRY_ORDER, table)
  {}

  /** What the per-job query with ORDER BY returns. */
  ghost predicate IsFetched(table: Table, j: Id, q: seq<Row>) { Lists(ROW_ORDER, Rows(table, j), q) }

  /** WHERE job_id IN (ids). */
  function Matching(table: Table, ids: set<Id>): set<Entry> { set e | e in table && e.job in ids }

  // ----- Picking one job out of a grouped result ---------------------------

  function RowsOf(q: seq<Entry>, j: Id): seq<Row> {
    if q == [] then []
    else if q[|q| - 1].job == j then RowsOf(q[..|q| - 1], j) + [q[|q| - 1].row]
    else RowsOf(q[..|q| - 1], j)
  }

  lemma RowsOfAppend(q: seq<Entry>, e: Entry, j: Id)
    ensures RowsOf(q + [e], j) == if e.job == j then RowsOf(q, j) + [e.row] else RowsOf(q, j)
  {
    assert (q + [e])[..|q|] == q;
  }

  lemma {:induction false} RowsOfMembers(q: seq<Entry>, j: Id)
    ensures Elements(RowsOf(q, j)) == set e | e in q && e.job == j :: e.row
  {
    if q != [] {
      var init, last := q[..|q| - 1], q[|q| - 1];
      RowsOfMembers(init, j);
      assert forall e :: e in q <==> e in init || e == last;
      if last.job == j { ElementsAppend(RowsOf(init, j), last.row); }
    }
  }

  lemma {:induction false} RowsOfOrdered(q: seq<Entry>, j: Id)
    requires Ordered(ENTRY_ORDER, q)
    ensures Ordered(ROW_ORDER, RowsOf(q, j))
  {
    if q != [] {
      var init, last := q[..|q| - 1], q[|q| - 1];
      RowsOfOrdered(init, j);
      RowsOfMembers(init, j);
      var rows := RowsOf(init, j);
      if last.job == j {
        forall i | 0 <= i < |rows| ensures ROW_ORDER(rows[i], last.row) {
          assert rows[i] in Elements(rows);
          var e :| e in init && e.job == j && e.row == rows[i];
          assert ENTRY_ORDER(e, last);
        }
      }
    }
  }

  lemma OrderedIsDistinct(q: seq<Row>)
    requires Ordered(ROW_ORDER, q)
    ensures Distinct(q)
  {
    forall i, k | 0 <= i < k < |q| ensures q[i] != q[k] {
      assert ROW_ORDER(q[i], q[k]);
    }
  }

  /** The rows of one job, in the order they come in the grouped result, are what its own query returns. */
  lemma GroupedIsFetched(table: Table, ids: set<Id>, q: seq<Entry>, j: Id)
    requires Lists(ENTRY_ORDER, Matching(table, ids), q)
    ensures j in ids ==> IsFetched(table, j, RowsOf(q, j))
    ensures j !in ids ==> RowsOf(q, j) == []
  {
    RowsOfMembers(q, j);
    RowsOfOrdered(q, j);
    OrderedIsDistinct(RowsOf(q, j));
    assert forall e :: e in q <==> e in Elements(q);
    if j in ids {
      assert Elements(RowsOf(q, j)) == Rows(table, j);
    } else {
      assert Elements(RowsOf(q, j)) == {};
      HasElements(RowsOf(q, j));
    }
  }

  lemma HasElements(q: seq<Row>)
    ensures q != [] ==> Elements(q) != {}
  {
    if q != [] { assert q[0] in Elements(q); }
  }

  // ----- The code ----------------------------------------------------------

  const CHUNK_SIZE := 500

  /** A job being filled in: its relation lists, by table. */
  class JobDef {
    const id: Id
    var lists: map<Relation, seq<Row>>

    constructor (id: Id)
      ensures this.id == id && lists == map[]
    {
      this.id, lists := id, map[];
    }

    function List(rel: Relation): seq<Row>
      reads this
    {
      if rel in lists then lists[rel] else []
    }

    method Append(rel: Relation, row: Row)
      modifies this
      ensures List(rel) == old(List(rel)) + [row]
      ensures forall r :: r != rel ==> List(r) == old(List(r))
    {
      lists := lists[rel := List(rel) + [row]];
    }

    /** loadJobRelations: one query per table. Details and running details come without ORDER BY. */
    method LoadRelations(tables: Relation -> Table)
      requires forall rel :: Keyed(tables(rel))
      modifies this
      ensures forall rel :: Distinct(List(rel)) && Elements(List(rel)) == Rows(tables(rel), id)
      ensures IsFetched(tables(Deps), id, List(Deps))
      ensures IsFetched(tables(Inputs), id, List(Inputs)) && IsFetched(tables(Outputs), id, List(Outputs))
    {
      RowsAreOrdered(tables(Deps), id);
      RowsAreOrdered(tables(Inputs), id);
      RowsAreOrdered(tables(Outputs), id);
      var deps := Sort(ROW_ORDER, Rows(tables(Deps), id));
      var details := Enumerate(Rows(tables(Details), id));
      var running := Enumerate(Rows(tables(RunningDetails), id));
      var inputs := Sort(ROW_ORDER, Rows(tables(Inputs), id));
      var outputs := Sort(ROW_ORDER, Rows(tables(Outputs), id));
      lists := map[Deps := deps, Details := details, RunningDetails := running, Inputs := inputs, Outputs := outputs];
      forall rel ensures Distinct(List(rel)) && Elements(List(rel)) == Rows(tables(rel), id) {
        match rel
        case Deps => assert List(rel) == deps;
        case Details => assert List(rel) == details;
        case RunningDetails => assert List(rel) == running;
        case Inputs => assert List(rel) == inputs;
        case Outputs => assert List(rel) == outputs;
      }
    }
  }

  /** byID finds each listed job by its id. */
  ghost predicate Indexed(jobs: set<JobDef>, byId: map<Id, JobDef>) {
    && (forall j :: j in jobs ==> j.id in byId && byId[j.id] == j)
    && (forall i :: i in byId ==> byId[i] in jobs && byId[i].id == i)
  }

  function ListIn(lists: map<Relation, seq<Row>>, rel: Relation): seq<Row> { if rel in lists then lists[rel] else [] }

  /** The rows of one relation have been appended to the lists the job had. */
  ghost predicate HasRows(j: JobDef, rel: Relation, was: map<Relation, seq<Row>>, rows: seq<Entry>)
    reads j
  {
    && j.List(rel) == ListIn(was, rel) + RowsOf(rows, j.id)
    && forall r :: r != rel ==> j.List(r) == ListIn(was, r)
  }

  ghost predicate Scanned(jobs: set<JobDef>, rel: Relation, was: map<JobDef, map<Relation, seq<Row>>>,
                          rows: seq<Entry>)
    reads jobs
  {
    forall j :: j in jobs && j in was ==> HasRows(j, rel, was[j], rows)
  }

  /** The scan callback: append the row to the list of the job it belongs to. */
  method ScanRow(jobs: set<JobDef>, byId: map<Id, JobDef>, rel: Relation, result: seq<Entry>, n: nat,
                 ghost was: map<JobDef, map<Relation, seq<Row>>>)
    requires Indexed(jobs, byId) && n < |result| && was.Keys == jobs && Scanned(jobs, rel, was, result[..n])
    modifies jobs
    ensures Scanned(jobs, rel, was, result[..n + 1])
  {
    var e := result[n];
    RowsGrow(result, n);
    if e.job in byId {
      AppendRow(byId[e.job], rel, result, n, was[byId[e.job]]);
    }
    hide RowsOf;
    forall j | j in jobs ensures HasRows(j, rel, was[j], result[..n + 1]) {
      if j.id == e.job { assert byId[e.job] == j; } else { assert HasRows(j, rel, was[j], result[..n]); }
    }
  }

  method AppendRow(j: JobDef, rel: Relation, result: seq<Entry>, n: nat, ghost was: map<Relation, seq<Row>>)
    requires n < |result| && result[n].job == j.id && HasRows(j, rel, was, result[..n])
    modifies j
    ensures HasRows(j, rel, was, result[..n + 1])
  {
    RowsGrow(result, n);
    hide RowsOf;
    j.Append(rel, result[n].row);
  }

  lemma RowsGrow(result: seq<Entry>, n: nat)
    requires n < |result|
    ensures forall j: Id :: result[n].job == j ==>
      RowsOf(result[..n + 1], j) == RowsOf(result[..n], j) + [result[n].row]
    ensures forall j: Id :: result[n].job != j ==> RowsOf(result[..n + 1], j) == RowsOf(result[..n], j)
  {
    assert result[..n + 1] == result[..n] + [result[n]];
    forall j: Id {
      RowsOfAppend(result[..n], result[n], j);
    }
  }

  /** One chunk's result, row by row. */
  method ScanInto(jobs: set<JobDef>, byId: map<Id, JobDef>, rel: Relation, result: seq<Entry>)
    requires Indexed(jobs, byId)
    modifies jobs
    ensures forall j :: j in jobs ==> j.List(rel) == old(j.List(rel)) + RowsOf(result, j.id)
    ensures forall j, r :: j in jobs && r != rel ==> j.List(r) == old(j.List(r))
  {
    hide RowsOf, Scanned, HasRows;
    ghost var was := map j: JobDef | j in jobs :: j.lists;
    NothingScanned(jobs, rel, was);
    assert result[..0] == [];
    for n := 0 to |result|
      invariant Scanned(jobs, rel, was, result[..n])
    {
      ScanRow(jobs, byId, rel, result, n, was);
    }
    assert result[..|result|] == result;
    ScannedMeans(jobs, rel, was, result);
    assert forall j, r :: j in jobs ==> ListIn(was[j], r) == old(j.List(r));
  }

  lemma NothingScanned(jobs: set<JobDef>, rel: Relation, was: map<JobDef, map<Relation, seq<Row>>>)
    requires forall j :: j in jobs && j in was ==> j.lists == was[j]
    ensures Scanned(jobs, rel, was, [])
  {}

  lemma ScannedMeans(jobs: set<JobDef>, rel: Relation, was: map<JobDef, map<Relation, seq<Row>>>, rows: seq<Entry>)
    requires Scanned(jobs, rel, was, rows) && was.Keys == jobs
    ensures forall j :: j in jobs ==> j.List(rel) == ListIn(was[j], rel) + RowsOf(rows, j.id)
    ensures forall j, r :: j in jobs && r != rel ==> j.List(r) == ListIn(was[j], r)
  {}

  /** One relation is loaded for the jobs whose ids are done, and still empty for the others. */
  ghost predicate Loaded(jobs: set<JobDef>, done: set<Id>, rel: Relation, table: Table)
    reads jobs
  {
    forall j :: j in jobs ==> if j.id in done then IsFetched(table, j.id, j.List(rel)) else j.List(rel) == []
  }

  /** One chunk: query it and scan its rows. */
  method FetchChunk(jobs: set<JobDef>, byId: map<Id, JobDef>, chunk: set<Id>, rel: Relation, table: Table,
                    ghost done: set<Id>)
    requires Indexed(jobs, byId) && Keyed(table) && done !! chunk && Loaded(jobs, done, rel, table)
    modifies jobs
    ensures Loaded(jobs, done + chunk, rel, table)
    ensures forall j, r :: j in jobs && r != rel ==> j.List(r) == old(j.List(r))
  {
    EntriesAreOrdered(table);
    var result := Sort(ENTRY_ORDER, Matching(table, chunk));
    ScanInto(jobs, byId, rel, result);
    forall j | j in jobs
      ensures if j.id in done + chunk then IsFetched(table, j.id, j.List(rel)) else j.List(rel) == []
    {
      GroupedIsFetched(table, chunk, result, j.id);
      if j.id in chunk {
        assert j.List(rel) == [] + RowsOf(result, j.id);
      } else {
        assert j.List(rel) == old(j.List(rel)) + [];
      }
    }
  }

  /** batchFetchInto: chunk by chunk, whatever the chunk boundaries, every job gets what its own query returns. */
  method BatchFetchInto(jobs: set<JobDef>, byId: map<Id, JobDef>, ids: seq<Id>, rel: Relation, table: Table)
    requires Indexed(jobs, byId) && Keyed(table) && Distinct(ids) && Elements(ids) == byId.Keys
    requires Loaded(jobs, {}, rel, table)
    modifies jobs
    ensures forall j :: j in jobs ==> IsFetched(table, j.id, j.List(rel))
    ensures forall j, r :: j in jobs && r != rel ==> j.List(r) == old(j.List(r))
  {
    var start := 0;
    assert Elements(ids[..0]) == {};
    while start < |ids|
      invariant 0 <= start <= |ids| && Loaded(jobs, Elements(ids[..start]), rel, table)
      invariant forall j, r :: j in jobs && r != rel ==> j.List(r) == old(j.List(r))
    {
      var end := if start + CHUNK_SIZE < |ids| then start + CHUNK_SIZE else |ids|;
      ChunkMembers(ids, start, end);
      FetchChunk(jobs, byId, Elements(ids[start..end]), rel, table, Elements(ids[..start]));
      start := end;
    }
    assert ids[..|ids|] == ids;
  }

  lemma ChunkMembers(ids: seq<Id>, start: nat, end: nat)
    requires Distinct(ids) && start <= end <= |ids|
    ensures Elements(ids[..end]) == Elements(ids[..start]) + Elements(ids[start..end])
    ensures Elements(ids[..start]) !! Elements(ids[start..end])
  {
    assert ids[..end] == ids[..start] + ids[start..end];
    forall i | i in Elements(ids[..start]) ensures i !in Elements(ids[start..end]) {
      var k :| 0 <= k < start && ids[..start][k] == i;
      assert ids[k] == i;
      assert forall l :: 0 <= l < end - start ==> ids[start..end][l] == ids[start + l];
    }
  }

  /** Empty every job and index the jobs by id. */
  method Reset(jobs: seq<JobDef>) returns (byId: map<Id, JobDef>, ids: seq<Id>)
    requires forall i, k :: 0 <= i < k < |jobs| ==> jobs[i].id != jobs[k].id
    modifies Elements(jobs)
    ensures Indexed(Elements(jobs), byId) && Distinct(ids) && Elements(ids) == byId.Keys
    ensures forall j :: j in jobs ==> j.lists == map[]
  {
    byId, ids := map[], [];
    for n := 0 to |jobs|
      invariant |ids| == n && forall i :: 0 <= i < n ==> ids[i] == jobs[i].id && jobs[i].lists == map[]
      invariant forall i :: i in byId <==> i in ids
      invariant forall i :: 0 <= i < n ==> jobs[i].id in byId && byId[jobs[i].id] == jobs[i]
    {
      assert jobs[n] in Elements(jobs);
      jobs[n].lists := map[];
      byId := byId[jobs[n].id := jobs[n]];
      ids := ids + [jobs[n].id];
    }
    assert forall i :: i in Elements(ids) <==> i in byId.Keys;
  }

  /** One relation table for all jobs; the relations in others stay as they are. */
  method FetchRelation(jobs: set<JobDef>, byId: map<Id, JobDef>, ids: seq<Id>, rel: Relation, tables: Relation -> Table,
                       ghost done: set<Relation>)
    requires Indexed(jobs, byId) && Keyed(tables(rel)) && Distinct(ids) && Elements(ids) == byId.Keys
    requires rel !in done && Hydrated(jobs, done, tables)
    modifies jobs
    ensures Hydrated(jobs, done + {rel}, tables)
  {
    BatchFetchInto(jobs, byId, ids, rel, tables(rel));
  }

  /** The relations in done are loaded, the others empty. */
  ghost predicate Hydrated(jobs: set<JobDef>, done: set<Relation>, tables: Relation -> Table)
    reads jobs
  {
    forall j, rel :: j in jobs ==> if rel in done then IsFetched(tables(rel), j.id, j.List(rel)) else j.List(rel) == []
  }

  /** batchHydrate: for any list of distinct jobs, whatever they held before, every job ends up with what the per-job
      path would have loaded. */
  method BatchHydrate(jobs: seq<JobDef>, tables: Relation -> Table)
    requires forall rel :: Keyed(tables(rel))
    requires forall i, k :: 0 <= i < k < |jobs| ==> jobs[i].id != jobs[k].id
    modifies Elements(jobs)
    ensures forall j, rel :: j in jobs ==> IsFetched(tables(rel), j.id, j.List(rel))
  {
    var all := Elements(jobs);
    var byId, ids := Reset(jobs);
    FetchRelation(all, byId, ids, Deps, tables, {});
    FetchRelation(all, byId, ids, Details, tables, {} + {Deps});
    FetchRelation(all, byId, ids, RunningDetails, tables, {} + {Deps} + {Details});
    FetchRelation(all, byId, ids, Inputs, tables, {} + {Deps} + {Details} + {RunningDetails});
    FetchRelation(all, byId, ids, Outputs, tables, {} + {Deps} + {Details} + {RunningDetails} + {Inputs});
    forall j, rel | j in jobs ensures IsFetched(tables(rel), j.id, j.List(rel)) {
      assert rel.Deps? || rel.Details? || rel.RunningDetails? || rel.Inputs? || rel.Outputs?;
      assert j in all;
    }
  }

  /** So the two paths agree: the same lists where the per-job query is ordered, and the same entries everywhere. */
  lemma PathsAgree(table: Table, j: Id, batch: seq<Row>, single: seq<Row>)
    requires Keyed(table) && IsFetched(table, j, batch)
    ensures IsFetched(table, j, single) ==> batch == single
    ensures Elements(single) == Rows(table, j) ==> Elements(batch) == Elements(single)
  {
    RowsAreOrdered(table, j);
    if IsFetched(table, j, single) { ListingUnique(ROW_ORDER, Rows(table, j), batch, single); }
  }

  /** What is fetched is ascending in the key, and holds exactly the job's rows. */
  lemma FetchedAscends(table: Table, j: Id, q: seq<Row>)
    requires IsFetched(table, j, q)
    ensures forall i, k :: 0 <= i < k < |q| ==> q[i].key < q[k].key
    ensures forall row :: row in q <==> Entry(j, row) in table
  {
    forall i, k | 0 <= i < k < |q| ensures q[i].key < q[k].key { assert ROW_ORDER(q[i], q[k]); }
    forall row ensures row in q <==> Entry(j, row) in table {
      assert row in q <==> row in Elements(q);
      if Entry(j, row) in table { assert row in Rows(table, j); }
    }
  }
}
