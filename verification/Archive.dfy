/** Moving ended jobs to an archive, transaction by transaction, under any failures. */
module Archive {
  import opened Collections
  import opened Jobs
  import Removal

  /** The columns of a jobs row. */
  datatype Columns = Columns(status: Status, priority: int, name: string, notes: string,
                             submitted: int, started: int, ended: int, returnCode: int)
  // A time of 0 stands for an empty column.

  /** The rows of every child table that an archive keeps. */
  datatype Children = Children(deps: set<Id>, details: map<string, string>, running: map<string, string>,
                               inputs: set<string>, outputs: set<string>)

  const NONE := Children({}, map[], map[], {}, {})

  /** A database: job rows, child rows per job, and the lock rows, which are never archived. */
  datatype Database = Database(rows: map<Id, Columns>, kids: map<Id, Children>, locks: set<Id>)
  {
    function Kids(j: Id): Children { if j in kids then kids[j] else NONE }
  }

  const EMPTY := Database(map[], map[], {})

  /** What LoadJobs reads for one job. */
  datatype Record = Record(id: Id, row: Columns, kids: Children)

  /** The foreign keys hold: edges point at rows, child and lock rows belong to rows. */
  ghost predicate Sound(db: Database) {
    && (forall j, p :: p in db.Kids(j).deps ==> p in db.rows)
    && (forall j :: j !in db.rows ==> db.Kids(j) == NONE && j !in db.locks)
  }

  /** The job is all there: its row and every child row. */
  predicate Complete(db: Database, j: Id, row: Columns, kids: Children) {
    j in db.rows && db.rows[j] == row && db.Kids(j) == kids
  }

  // ----- Transactions ------------------------------------------------------

  function Strip(db: Database, ids: set<Id>): Database {
    Database(db.rows, db.kids - ids, db.locks - ids)
  }

  ghost predicate Deletable(db: Database, ids: set<Id>) {
    && (forall j :: j in ids ==> db.Kids(j) == NONE && j !in db.locks)
    && (forall j, p :: j !in ids && p in db.Kids(j).deps ==> p !in ids)
  }

  function Delete(db: Database, ids: set<Id>): Database {
    Database(db.rows - ids, db.kids - ids, db.locks)
  }

  /** INSERT OR IGNORE of one record and its child rows: what is already there wins. */
  function RestoreOne(arc: Database, r: Record): Database {
    var had := arc.Kids(r.id);
    Database(if r.id in arc.rows then arc.rows else arc.rows[r.id := r.row],
             arc.kids[r.id := Children(had.deps + r.kids.deps, r.kids.details + had.details,
                                       r.kids.running + had.running,
                                       had.inputs + r.kids.inputs, had.outputs + r.kids.outputs)],
             arc.locks)
  }

  function Restore(arc: Database, batch: seq<Record>): Database {
    if batch == [] then arc else RestoreOne(Restore(arc, batch[..|batch| - 1]), batch[|batch| - 1])
  }

  predicate Terminal(st: Status) { st == Success || st == Failed || st == Status.Canceled }

  // ----- What a cleanup in progress may look like --------------------------

  /** db is start with some of ids stripped and some of those deleted; nothing else changed. */
  ghost predicate PartlyCleaned(start: Database, db: Database, ids: set<Id>) {
    && Sound(db)
    && (forall j :: j in db.rows ==> j in start.rows && db.rows[j] == start.rows[j])
    && (forall j :: j in start.rows && j !in ids ==> j in db.rows && db.Kids(j) == start.Kids(j))
    && (forall j :: db.Kids(j) == start.Kids(j) || (j in ids && db.Kids(j) == NONE))
    && (forall j :: j in start.locks && j !in ids ==> j in db.locks)
  }

  /** Whoever depends on one of ids is one of ids. */
  ghost predicate DependencyClosed(db: Database, ids: set<Id>) {
    forall j, p :: p in db.Kids(j).deps && p in ids ==> j in ids
  }

  /** The planner's order: dependents before their parents. */
  ghost predicate DependentsFirst(db: Database, ids: seq<Id>) {
    forall i, j :: 0 <= i < |ids| && ids[i] in db.Kids(j).deps ==> j in ids[..i]
  }

  lemma {:induction false} RestoreFresh(arc: Database, batch: seq<Record>)
    requires forall i :: 0 <= i < |batch| ==> batch[i].id !in arc.rows && arc.Kids(batch[i].id) == NONE
    requires forall i, k :: 0 <= i < k < |batch| ==> batch[i].id != batch[k].id
    ensures forall i :: 0 <= i < |batch| ==> Complete(Restore(arc, batch), batch[i].id, batch[i].row, batch[i].kids)
    ensures forall j :: (forall i :: 0 <= i < |batch| ==> batch[i].id != j) ==>
      (j in Restore(arc, batch).rows <==> j in arc.rows)
      && (j in arc.rows ==> Restore(arc, batch).rows[j] == arc.rows[j])
      && Restore(arc, batch).Kids(j) == arc.Kids(j)
  {
    if batch != [] {
      var init, r := batch[..|batch| - 1], batch[|batch| - 1];
      RestoreFresh(arc, init);
      var mid := Restore(arc, init);
      assert mid.Kids(r.id) == NONE && r.id !in mid.rows;
      assert r.kids.details + map[] == r.kids.details && r.kids.running + map[] == r.kids.running;
      var done := RestoreOne(mid, r);
      assert done.Kids(r.id) == r.kids;
    }
  }

  lemma StripIsPartial(start: Database, part: set<Id>, ids: set<Id>)
    requires Sound(start) && part <= ids
    ensures PartlyCleaned(start, Strip(start, part), ids)
  {
    var db := Strip(start, part);
    assert forall j :: db.Kids(j) == if j in part then NONE else start.Kids(j);
  }

  /** With everything stripped, any part may be deleted, and nothing dangles afterwards. */
  lemma DeleteIsPartial(start: Database, ids: set<Id>, gone: set<Id>, chunk: set<Id>)
    requires Sound(start) && DependencyClosed(start, ids) && gone <= ids && chunk <= ids
    ensures Deletable(Delete(Strip(start, ids), gone), chunk)
    ensures PartlyCleaned(start, Delete(Strip(start, ids), gone), ids)
  {
    var db := Delete(Strip(start, ids), gone);
    assert forall j :: db.Kids(j) == if j in ids then NONE else start.Kids(j);
  }

  // ----- The archiver ------------------------------------------------------

  /** A committed state of both databases. */
  datatype Snapshot = Snapshot(live: Database, archive: Database)

  /** The live store still has all of the job, and its lock if it had one. */
  predicate Untouched(start: Database, live: Database, j: Id)
    requires j in start.rows
  {
    Complete(live, j, start.rows[j], start.Kids(j)) && (j in start.locks ==> j in live.locks)
  }

  /** No job that has not ended was touched. */
  ghost predicate Spared(start: Database, live: Database) {
    forall j :: j in start.rows && !Terminal(start.rows[j].status) ==> Untouched(start, live, j)
  }

  /** Every job of the start state is complete in one of the two databases, unfinished ones in the live one, and no live
      edge dangles. */
  ghost predicate NothingLost(start: Database, snap: Snapshot) {
    && Sound(snap.live) && Spared(start, snap.live)
    && forall j :: j in start.rows ==>
         Complete(snap.live, j, start.rows[j], start.Kids(j)) || Complete(snap.archive, j, start.rows[j], start.Kids(j))
  }

  ghost predicate TraceSafe(start: Database, trace: seq<Snapshot>) {
    forall k :: 0 <= k < |trace| ==> NothingLost(start, trace[k])
  }

  lemma TraceExtends(start: Database, trace: seq<Snapshot>, snap: Snapshot)
    requires TraceSafe(start, trace) && NothingLost(start, snap)
    ensures TraceSafe(start, trace + [snap])
  {}

  /** One of the ids is a job that has not ended. */
  ghost predicate Unended(db: Database, ids: set<Id>) {
    exists j :: j in ids && j in db.rows && !Terminal(db.rows[j].status)
  }

  /** Exactly the jobs moved so far, all of them ended, are in the archive, complete; the others are untouched in the
      live store. */
  ghost predicate Moved(start: Database, moved: set<Id>, live: Database, archive: Database) {
    && !Unended(start, moved) && live == Delete(Strip(start, moved), moved)
    && (forall j :: j in start.rows && j in moved ==> Complete(archive, j, start.rows[j], start.Kids(j)))
    && (forall j :: !(j in start.rows && j in moved) ==> j !in archive.rows && archive.Kids(j) == NONE)
  }

  /** What a cleanup of ids may commit on the way: partly cleaned live stores, the archive untouched. */
  ghost predicate CleanupTrace(before: seq<Snapshot>, trace: seq<Snapshot>, archive: Database, start: Database,
                               ids: set<Id>) {
    && before <= trace
    && forall k :: |before| <= k < |trace| ==> trace[k].archive == archive && PartlyCleaned(start, trace[k].live, ids)
  }

  const CHUNK_SIZE := 500

  /** How an archiving run ends: every chunk moved, or at a canceled context, at a database call, or at a live job. */
  datatype Stop = Finished | Canceled | LoadFailed | NotEnded | WriteFailed | StripFailed | DeleteFailed

  /** The database calls an unfinished chunk has made when it stops there; a finished chunk has made all five. */
  function CallsMade(stop: Stop): nat {
    match stop
    case Canceled => 1
    case LoadFailed => 2
    case NotEnded => 2
    case WriteFailed => 3
    case StripFailed => 4
    case DeleteFailed => 5
    case Finished => 0
  }

  /** Calls from first up to last went through. */
  ghost predicate Clean(faults: nat -> bool, first: nat, last: nat) { forall c :: first <= c < last ==> !faults(c) }

  /** Of the calls made, exactly the last one failed, unless none did. */
  ghost predicate StoppedBy(faults: nat -> bool, first: nat, last: nat, failed: bool) {
    first <= last &&
      if failed then first < last && faults(last - 1) && Clean(faults, first, last - 1) else Clean(faults, first, last)
  }

  lemma CallsJoin(faults: nat -> bool, first: nat, middle: nat, last: nat, failed: bool)
    requires StoppedBy(faults, first, middle, false) && StoppedBy(faults, middle, last, failed)
    ensures StoppedBy(faults, first, last, failed)
  {
  }

  /** The end of the chunk that starts at i. */
  function ChunkEnd(ids: seq<Id>, i: nat): (n: nat)
    requires i <= |ids|
    ensures i <= n <= |ids| && n <= i + CHUNK_SIZE
  {
    if i + CHUNK_SIZE < |ids| then i + CHUNK_SIZE else |ids|
  }

  /** The live database when a run stopped in the chunk that starts at i. */
  ghost function LiveAt(start: Database, ids: seq<Id>, i: nat, stop: Stop): Database
    requires i <= |ids|
  {
    var done := Elements(ids[..i]);
    var live := Delete(Strip(start, done), done);
    if stop == DeleteFailed then Strip(live, Elements(ids[i..ChunkEnd(ids, i)])) else live
  }

  class Archiver {
    const faults: nat -> bool
    var live: Database
    var archive: Database
    var calls: nat
    ghost var trace: seq<Snapshot>
    // faults says which database calls fail, by number. trace holds every committed state.

    constructor (live: Database, faults: nat -> bool)
      ensures this.live == live && this.faults == faults && archive == EMPTY && calls == 0 && trace == []
    {
      this.live, this.faults, archive, calls, trace := live, faults, EMPTY, 0, [];
    }

    method Fault() returns (bad: bool)
      modifies this`calls
      ensures calls == old(calls) + 1 && StoppedBy(faults, old(calls), calls, bad)
    {
      bad := faults(calls);
      calls := calls + 1;
    }

    method Commit()
      modifies this`trace
      ensures trace == old(trace) + [Snapshot(live, archive)]
    {
      trace := trace + [Snapshot(live, archive)];
    }

    /** CleanupJobs: strip every batch, then delete every batch, each in its own transaction. */
    method CleanupJobs(ids: seq<Id>) returns (ok: bool)
      requires Sound(live) && DependencyClosed(live, Elements(ids))
      modifies this`live, this`trace, this`calls
      ensures CleanupTrace(old(trace), trace, archive, old(live), Elements(ids))
      ensures PartlyCleaned(old(live), live, Elements(ids))
      ensures ok ==> live == Delete(Strip(old(live), Elements(ids)), Elements(ids))
      ensures StoppedBy(faults, old(calls), calls, !ok)
      ensures 0 < |ids| <= CHUNK_SIZE ==> OneBatch(old(calls), calls, old(live), live, Elements(ids), ok)
    {
      ok := StripAll(ids);
      if ok {
        ghost var before := calls;
        ok := DeleteAll(ids, old(live));
        CallsJoin(faults, old(calls), before, calls, !ok);
      }
    }

    method StripAll(ids: seq<Id>) returns (ok: bool)
      requires Sound(live)
      modifies this`live, this`trace, this`calls
      ensures CleanupTrace(old(trace), trace, archive, old(live), Elements(ids))
      ensures PartlyCleaned(old(live), live, Elements(ids))
      ensures ok ==> live == Strip(old(live), Elements(ids))
      ensures StoppedBy(faults, old(calls), calls, !ok)
      ensures 0 < |ids| <= CHUNK_SIZE ==> calls == old(calls) + 1 && (!ok ==> live == old(live))
    {
      ghost var start, all := live, Elements(ids);
      var i := 0;
      StripIsPartial(start, {}, all);
      assert Elements(ids[..0]) == {};
      while i < |ids|
        invariant 0 <= i <= |ids| && StoppedBy(faults, old(calls), calls, false)
        invariant |ids| <= CHUNK_SIZE ==>
          if i == 0 then calls == old(calls) && live == old(live) else i == |ids| && calls == old(calls) + 1
        invariant live == Strip(start, Elements(ids[..i])) && PartlyCleaned(start, live, all)
        invariant CleanupTrace(old(trace), trace, archive, start, all)
      {
        var next := ChunkEnd(ids, i);
        ghost var before := calls;
        var bad := Fault();
        CallsJoin(faults, old(calls), before, calls, bad);
        if bad { return false; }
        PrefixElements(ids, i, next);
        StripIsPartial(start, Elements(ids[..next]), all);
        live := Strip(live, Elements(ids[i..next]));
        assert live == Strip(start, Elements(ids[..next]));
        Commit();
        i := next;
      }
      assert ids[..|ids|] == ids;
      return true;
    }

    method DeleteAll(ids: seq<Id>, ghost start: Database) returns (ok: bool)
      requires Sound(start) && DependencyClosed(start, Elements(ids)) && live == Strip(start, Elements(ids))
      modifies this`live, this`trace, this`calls
      ensures CleanupTrace(old(trace), trace, archive, start, Elements(ids))
      ensures PartlyCleaned(start, live, Elements(ids))
      ensures ok ==> live == Delete(Strip(start, Elements(ids)), Elements(ids))
      ensures StoppedBy(faults, old(calls), calls, !ok)
      ensures 0 < |ids| <= CHUNK_SIZE ==> calls == old(calls) + 1 && (!ok ==> live == old(live))
    {
      hide PartlyCleaned, Deletable, DependencyClosed, Sound, NothingLost;
      ghost var all := Elements(ids);
      var i := 0;
      assert live == Delete(Strip(start, all), {});
      DeleteIsPartial(start, all, {}, {});
      assert Elements(ids[..0]) == {};
      while i < |ids|
        invariant 0 <= i <= |ids| && StoppedBy(faults, old(calls), calls, false)
        invariant |ids| <= CHUNK_SIZE ==>
          if i == 0 then calls == old(calls) && live == old(live) else i == |ids| && calls == old(calls) + 1
        invariant live == Delete(Strip(start, all), Elements(ids[..i])) && PartlyCleaned(start, live, all)
        invariant CleanupTrace(old(trace), trace, archive, start, all)
      {
        var next := ChunkEnd(ids, i);
        ghost var before := calls;
        var bad := Fault();
        CallsJoin(faults, old(calls), before, calls, bad);
        if bad { return false; }
        PrefixElements(ids, i, next);
        DeleteIsPartial(start, all, Elements(ids[..i]), Elements(ids[i..next]));
        assert Deletable(live, Elements(ids[i..next]));
        live := Delete(live, Elements(ids[i..next]));
        assert live == Delete(Strip(start, all), Elements(ids[..next]));
        DeleteIsPartial(start, all, Elements(ids[..next]), {});
        Commit();
        i := next;
      }
      assert ids[..|ids|] == ids;
      return true;
    }

    /** LoadJobs: the records of the ids that exist, in the order asked for. */
    method LoadJobs(ids: seq<Id>) returns (batch: seq<Record>)
      requires Distinct(ids)
      ensures Loaded(live, Elements(ids), batch) && |batch| == Present(live, Elements(ids))
      ensures InOrder(batch, Existing(live, ids))
    {
      batch := [];
      assert Elements(ids[..0]) == {};
      for n := 0 to |ids|
        invariant Loaded(live, Elements(ids[..n]), batch) && |batch| == Present(live, Elements(ids[..n]))
        invariant InOrder(batch, Existing(live, ids[..n]))
      {
        var j := ids[n];
        assert ids[..n + 1][..n] == ids[..n];
        CountOneMore(live, ids, n);
        LoadOneMore(live, ids, n, batch);
        if j in live.rows {
          batch := batch + [Record(j, live.rows[j], live.Kids(j))];
        }
      }
      assert ids[..|ids|] == ids;
    }

    method RestoreJobs(batch: seq<Record>) returns (ok: bool)
      modifies this`archive, this`trace, this`calls
      ensures ok ==> archive == Restore(old(archive), batch) && trace == old(trace) + [Snapshot(live, archive)]
      ensures !ok ==> archive == old(archive) && trace == old(trace)
      ensures calls == old(calls) + 1 && StoppedBy(faults, old(calls), calls, !ok)
    {
      var bad := Fault();
      if bad { return false; }
      archive := Restore(archive, batch);
      Commit();
      return true;
    }

    method AllTerminal(batch: seq<Record>) returns (ok: bool)
      ensures ok <==> forall i :: 0 <= i < |batch| ==> Terminal(batch[i].row.status)
    {
      for i := 0 to |batch|
        invariant forall k :: 0 <= k < i ==> Terminal(batch[k].row.status)
      {
        if !Terminal(batch[i].row.status) { return false; }
      }
      return true;
    }

    /** First half of a chunk: load it, check it, write it to the archive. */
    method WriteChunk(chunk: seq<Id>, ghost start: Database, ghost done: set<Id>) returns (written: nat, stop: Stop)
      requires Distinct(chunk) && Sound(live) && Moved(start, done, live, archive) && done !! Elements(chunk)
      requires TraceSafe(start, trace)
      modifies this`archive, this`trace, this`calls
      ensures TraceSafe(start, trace) && Wrote(start, done, Elements(chunk), live, old(archive), archive, written, stop)
      ensures WriteCalls(faults, old(calls), calls, stop)
    {
      written := 0;
      var bad := Fault();
      if bad { return 0, LoadFailed; }
      var batch := LoadJobs(chunk);
      var ended := AllTerminal(batch);
      EndedAsLoaded(start, done, Elements(chunk), live, batch);
      if !ended { return 0, NotEnded; }
      ghost var before := calls;
      var ok := WriteBatch(batch, start, done, Elements(chunk));
      CallsJoin(faults, old(calls), before, calls, !ok);
      return |batch|, if ok then Finished else WriteFailed;
    }

    method WriteBatch(batch: seq<Record>, ghost start: Database, ghost done: set<Id>, ghost chunk: set<Id>)
      returns (ok: bool)
      requires Sound(live) && Moved(start, done, live, archive) && done !! chunk && Loaded(live, chunk, batch)
      requires TraceSafe(start, trace) && !Unended(start, chunk)
      modifies this`archive, this`trace, this`calls
      ensures TraceSafe(start, trace) && calls == old(calls) + 1 && StoppedBy(faults, old(calls), calls, !ok)
      ensures Present(live, chunk) == Present(start, chunk)
      ensures ok ==> Written(start, done, chunk, live, archive)
      ensures !ok ==> archive == old(archive)
    {
      ChunkArchived(start, done, chunk, live, archive, batch);
      TraceExtends(start, trace, Snapshot(live, Restore(archive, batch)));
      ok := RestoreJobs(batch);
    }

    /** Second half: delete it from live. */
    method DeleteChunk(chunk: seq<Id>, ghost start: Database, ghost done: set<Id>) returns (stop: Stop)
      requires Sound(live) && DependencyClosed(live, Elements(chunk)) && 0 < |chunk| <= CHUNK_SIZE
      requires Written(start, done, Elements(chunk), live, archive) && TraceSafe(start, trace)
      modifies this`live, this`trace, this`calls
      ensures TraceSafe(start, trace)
      ensures stop.Finished? || stop.StripFailed? || stop.DeleteFailed?
      ensures stop.Finished? ==> Moved(start, done + Elements(chunk), live, archive)
      ensures !stop.Finished? ==> NothingLost(start, Snapshot(live, archive))
      ensures stop.StripFailed? ==> live == old(live)
      ensures stop.DeleteFailed? ==> live == Strip(old(live), Elements(chunk))
      ensures calls == old(calls) + if stop.StripFailed? then 1 else 2
      ensures StoppedBy(faults, old(calls), calls, !stop.Finished?)
    {
      ghost var was, before := live, trace;
      var first := calls;
      var ok := CleanupJobs(chunk);
      PartialIsSafe(start, done, Elements(chunk), was, live, archive);
      forall k | 0 <= k < |trace| ensures NothingLost(start, trace[k]) {
        if k >= |before| { PartialIsSafe(start, done, Elements(chunk), was, trace[k].live, archive); }
      }
      if ok { ChunkMoved(start, done, Elements(chunk), was, archive); }
      stop := if ok then Finished else if calls == first + 1 then StripFailed else DeleteFailed;
    }

    /** One chunk: written to the archive, then deleted from live. */
    method MoveChunk(ids: seq<Id>, i: nat, ghost start: Database) returns (moved: nat, stop: Stop)
      requires Sound(start) && DependentsFirst(start, ids) && Distinct(ids) && i < |ids|
      requires Moved(start, Elements(ids[..i]), live, archive) && TraceSafe(start, trace)
      modifies this`live, this`archive, this`trace, this`calls
      ensures TraceSafe(start, trace) && ChunkOutcome(start, ids, i, live, archive, moved, stop)
      ensures ChunkCalls(faults, old(calls), calls, stop)
    {
      var next := ChunkEnd(ids, i);
      var chunk := ids[i..next];
      ghost var done := Elements(ids[..i]);
      PrefixElements(ids, i, next);
      DistinctSplit(ids, i, next);
      ChunkIsClosed(start, ids, i, next, live);
      MovedIsSafe(start, ids, i, live, archive);
      moved, stop := WriteChunk(chunk, start, done);
      if stop.Finished? {
        ghost var before := calls;
        stop := DeleteChunk(chunk, start, done);
        BothHalves(faults, old(calls), before, calls, stop);
      } else {
        FirstHalf(faults, old(calls), calls, stop);
      }
      ChunkEnds(start, ids, i, old(live), live, archive, moved, stop);
    }

    /** archiveOrdered: move chunk by chunk until something fails; an archive that received nothing is removed.
        The k-th chunk, which starts at at, is the one it stopped in. */
    method ArchiveOrdered(ids: seq<Id>) returns (count: nat, stop: Stop, ghost k: nat, ghost at: nat)
      requires Sound(live) && DependentsFirst(live, ids) && Distinct(ids)
      requires archive == EMPTY && trace == [] && calls == 0
      modifies this
      ensures TraceSafe(old(live), trace)
      ensures Outcome(old(live), ids, live, archive, count, stop, at)
      ensures Schedule(faults, ids, k, at, calls, stop)
    {
      hide Moved, NothingLost, Present, Unended, LiveAt, Sound;
      ghost var start := live;
      count, stop, k := 0, Finished, 0;
      var i := 0;
      NoneMoved(start, ids);
      while i < |ids|
        invariant TraceSafe(start, trace) && Progress(start, ids, k, i, live, archive, count)
        invariant stop.Finished? && calls == 5 * k && StoppedBy(faults, 0, calls, false)
        decreases |ids| - i
      {
        ghost var before := calls;
        var canceled := Fault();
        CallsJoin(faults, 0, before, calls, canceled);
        if canceled {
          at := i;
          StopsBetween(start, ids, k, i, live, archive, count);
          if count == 0 { archive := EMPTY; }
          return count, Stop.Canceled, k, at;
        }
        var moved: nat;
        before := calls;
        moved, stop := MoveChunk(ids, i, start);
        ChunkSchedule(faults, ids, k, i, before, calls, stop);
        if !stop.Finished? {
          at := i;
          StopsInside(start, ids, k, i, live, archive, count, moved, stop);
          if count == 0 { archive := EMPTY; }
          return;
        }
        ProgressStep(start, ids, k, i, live, archive, count, moved);
        i, count, k := ChunkEnd(ids, i), count + moved, k + 1;
      }
      at := i;
      AllMoved(start, ids, k, live, archive, count);
      if count == 0 { archive := EMPTY; }
    }

    /** CleanupCandidates: the jobs in the given states (older than endBefore, if one is given),
        and every edge whose parent is among them. */
    method CleanupCandidates(statuses: set<Status>, endBefore: Option<int>)
      returns (ids: seq<Id>, edges: seq<Removal.Edge>)
      ensures Distinct(ids) && Elements(ids) == Candidates(live, statuses, endBefore)
      ensures forall j :: j in ids <==>
        && j in live.rows && live.rows[j].status in statuses
        && (endBefore.Some? ==> live.rows[j].ended != 0 && live.rows[j].ended < endBefore.value)
      ensures forall j, p :: Removal.Edge(j, p) in edges <==> p in live.Kids(j).deps && p in ids
    {
      ids := Enumerate(Candidates(live, statuses, endBefore));
      assert forall j :: j in ids <==> j in Elements(ids);
      edges := Enumerate(set j, p | j in live.kids && p in live.kids[j].deps && p in ids :: Removal.Edge(j, p));
      forall j, p ensures Removal.Edge(j, p) in edges <==> p in live.Kids(j).deps && p in ids {
        assert Removal.Edge(j, p) in edges <==> Removal.Edge(j, p) in Elements(edges);
      }
    }

    /** The removal plan for the selected jobs, whatever their states: exactly those that may go, dependents first. */
    method Plan(statuses: set<Status>, endBefore: Option<int>) returns (order: seq<Id>, matched: nat, blocked: nat)
      ensures Distinct(order) && DependentsFirst(live, order) && DependencyClosed(live, Elements(order))
      ensures Elements(order) == Planned(live, statuses, endBefore) && Present(live, Elements(order)) == |order|
      ensures matched == |Candidates(live, statuses, endBefore)| && |order| + blocked == matched
    {
      var ids, edges := CleanupCandidates(statuses, endBefore);
      order, blocked := Removal.PlanRemoval(ids, edges);
      matched := |ids|;
      DistinctCardinality(ids);
      DistinctCardinality(order);
      PlannedIsRemovable(live, statuses, endBefore, ids, edges);
      PlanIsOrdered(live, order, edges, ids);
    }

    /** CleanupBulk: select, plan, and move or delete. Moving is safe at every commit and never touches an unfinished
        job; it is refused if one is planned. If it goes through, exactly the planned jobs are gone, in the archive if
        one was asked for, and removed plus blocked accounts for every candidate. */
    method CleanupBulk(statuses: set<Status>, endBefore: Option<int>, keep: bool)
      returns (matched: nat, removed: nat, blocked: nat, ok: bool, refused: bool)
      requires Sound(live) && archive == EMPTY && trace == [] && calls == 0
      modifies this
      ensures keep ==> TraceSafe(old(live), trace) && Spared(old(live), live)
      ensures !keep ==> CleanupTrace([], trace, EMPTY, old(live), Planned(old(live), statuses, endBefore))
      ensures !keep ==> archive == EMPTY && PartlyCleaned(old(live), live, Planned(old(live), statuses, endBefore))
      ensures StoppedBy(faults, 0, calls, !ok && !refused)
      ensures refused ==> keep && !ok && Unended(old(live), Planned(old(live), statuses, endBefore))
      ensures matched == |Candidates(old(live), statuses, endBefore)|
      ensures ok ==> removed + blocked == matched && Gone(old(live), live, Planned(old(live), statuses, endBefore))
      ensures !ok ==> removed == 0
      ensures ok && keep ==> Moved(old(live), Planned(old(live), statuses, endBefore), live, archive)
      ensures ok ==>
        (!Spared(old(live), live) <==> !keep && Unended(old(live), Planned(old(live), statuses, endBefore)))
    {
      var order: seq<Id>;
      order, matched, blocked := Plan(statuses, endBefore);
      refused := false;
      if keep {
        var stop: Stop;
        ghost var k, at: nat;
        var count: nat;
        count, stop, k, at := ArchiveOrdered(order);
        ok, refused := stop.Finished?, stop.NotEnded?;
        removed := if ok then count else 0;
        assert order[..|order|] == order;
        if refused { PrefixElements(order, at, ChunkEnd(order, at)); }
      } else {
        ok := CleanupJobs(order);
        removed := if ok then |order| else 0;
      }
      if ok { TouchesUnfinishedExactly(old(live), live, archive, statuses, endBefore, keep); }
    }
  }

  // ----- What a bulk cleanup removes ---------------------------------------

  function Candidates(db: Database, statuses: set<Status>, endBefore: Option<int>): set<Id> {
    set j | j in db.rows && Eligible(db.rows[j], statuses, endBefore)
  }

  /** A walk from a job to its dependents, their dependents, and so on. */
  ghost predicate Walk(db: Database, path: seq<Id>) {
    |path| > 0 && forall i :: 0 < i < |path| ==> path[i - 1] in db.Kids(path[i]).deps
  }

  /** The job and everything that depends on it, directly or not, passes the filter, and no walk from it meets a
      cycle. */
  ghost predicate MayGo(db: Database, cand: set<Id>, j: Id) {
    forall path :: Walk(db, path) && path[0] == j ==> path[|path| - 1] in cand && Distinct(path)
  }

  ghost function Planned(db: Database, statuses: set<Status>, endBefore: Option<int>): set<Id> {
    set j | j in db.rows && MayGo(db, Candidates(db, statuses, endBefore), j)
  }

  /** Exactly these jobs are gone. */
  ghost predicate Gone(start: Database, live: Database, ids: set<Id>) { live == Delete(Strip(start, ids), ids) }

  ghost predicate EdgesOf(db: Database, ids: seq<Id>, edges: seq<Removal.Edge>) {
    forall j, p :: Removal.Edge(j, p) in edges <==> p in db.Kids(j).deps && p in ids
  }

  /** Within the candidates both kinds of walks are the same. */
  lemma {:induction false} SameWalks(db: Database, ids: seq<Id>, edges: seq<Removal.Edge>, path: seq<Id>)
    requires EdgesOf(db, ids, edges)
    ensures Removal.Walk(edges, path) ==> Walk(db, path)
    ensures Walk(db, path) && Removal.CanGo(Elements(ids), edges, path[0]) ==> Removal.Walk(edges, path)
  {
    if Removal.Walk(edges, path) {
      forall i | 0 < i < |path| ensures path[i - 1] in db.Kids(path[i]).deps {
        assert Removal.Edge(path[i], path[i - 1]) in edges;
      }
    }
    if |path| > 1 && Walk(db, path) && Removal.CanGo(Elements(ids), edges, path[0]) {
      var init := path[..|path| - 1];
      SameWalks(db, ids, edges, init);
      assert Removal.WalkFrom(edges, path[0], init);
      assert init[|init| - 1] in ids;
      assert Removal.Edge(path[|path| - 1], path[|path| - 2]) in edges;
    }
  }

  /** The planner works on the edges into candidates only; that is enough. */
  lemma PlannedIsRemovable(db: Database, statuses: set<Status>, endBefore: Option<int>, ids: seq<Id>,
                           edges: seq<Removal.Edge>)
    requires EdgesOf(db, ids, edges) && Elements(ids) == Candidates(db, statuses, endBefore)
    ensures Removal.RemovableAmong(ids, Elements(ids), edges) == Planned(db, statuses, endBefore)
  {
    var cand := Elements(ids);
    forall j ensures MayGo(db, cand, j) <==> Removal.CanGo(cand, edges, j) {
      if MayGo(db, cand, j) {
        forall path | Removal.WalkFrom(edges, j, path) ensures path[|path| - 1] in cand && Distinct(path) {
          SameWalks(db, ids, edges, path);
        }
      }
      if Removal.CanGo(cand, edges, j) {
        forall path | Walk(db, path) && path[0] == j ensures path[|path| - 1] in cand && Distinct(path) {
          SameWalks(db, ids, edges, path);
          assert Removal.WalkFrom(edges, j, path);
        }
      }
    }
    forall j | MayGo(db, cand, j) ensures j in cand {
      assert Walk(db, [j]) && [j][|[j]| - 1] == j;
    }
    forall j ensures j in Removal.RemovableAmong(ids, cand, edges) <==> j in Planned(db, statuses, endBefore) {
      assert j in ids <==> j in cand;
    }
  }

  lemma PlanIsOrdered(db: Database, order: seq<Id>, edges: seq<Removal.Edge>, ids: seq<Id>)
    requires EdgesOf(db, ids, edges) && Removal.DependentsFirst(edges, order)
    requires Elements(order) <= Elements(ids) && Elements(ids) <= db.rows.Keys
    ensures DependentsFirst(db, order) && DependencyClosed(db, Elements(order))
    ensures Elements(order) * db.rows.Keys == Elements(order)
  {
    forall i, j | 0 <= i < |order| && order[i] in db.Kids(j).deps ensures j in order[..i] {
      assert order[i] in Elements(order);
      assert Removal.Edge(j, order[i]) in edges;
    }
    PrefixIsClosed(db, order, |order|);
    assert order[..|order|] == order;
  }

  /** A bulk cleanup that goes through touches an unfinished job exactly if no archive was asked for and some job that
      has not ended passes the filter together with everything that depends on it. */
  lemma TouchesUnfinishedExactly(start: Database, live: Database, archive: Database, statuses: set<Status>,
                                 endBefore: Option<int>, keep: bool)
    requires Gone(start, live, Planned(start, statuses, endBefore))
    requires keep ==> Moved(start, Planned(start, statuses, endBefore), live, archive)
    ensures !Spared(start, live) <==> !keep && Unended(start, Planned(start, statuses, endBefore))
  {
    var planned := Planned(start, statuses, endBefore);
    if Unended(start, planned) {
      var j :| j in planned && j in start.rows && !Terminal(start.rows[j].status);
      assert j !in live.rows && !Untouched(start, live, j);
    } else {
      forall j | j in start.rows && !Terminal(start.rows[j].status) ensures Untouched(start, live, j) {
        assert j !in planned;
        assert live.Kids(j) == start.Kids(j);
      }
    }
  }

  /** One running job, locked. */
  const BUSY := Database(map[1 := Columns(Running, 0, "", "", 1, 1, 0, 0)], map[], {1})

  /** Asked to delete the running jobs, the server does: neither a row nor a lock is left, while the process runs. */
  method RunningJobDeleted() returns (live: Database, ok: bool)
    ensures ok && 1 in BUSY.rows && BUSY.rows[1].status == Running && live.rows == map[] && live.locks == {}
  {
    var archiver := new Archiver(BUSY, c => false);
    assert forall j :: BUSY.Kids(j) == NONE;
    var matched, removed, blocked, refused;
    matched, removed, blocked, ok, refused := archiver.CleanupBulk({Running}, None, false);
    assert MayGo(BUSY, Candidates(BUSY, {Running}, None), 1) by {
      forall path | Walk(BUSY, path) && path[0] == 1
        ensures path[|path| - 1] in Candidates(BUSY, {Running}, None) && Distinct(path)
      {
        assert |path| > 1 ==> path[0] in BUSY.Kids(path[1]).deps;
      }
    }
    assert Planned(BUSY, {Running}, None) == {1};
    live := archiver.live;
  }

  /** What the two transactions of a single batch leave behind. */
  ghost predicate OneBatch(first: nat, last: nat, was: Database, live: Database, ids: set<Id>, ok: bool) {
    if ok then last == first + 2
    else (last == first + 1 && live == was) || (last == first + 2 && live == Strip(was, ids))
  }

  /** i is where the k-th chunk starts. */
  ghost predicate Chunked(ids: seq<Id>, k: nat, i: nat) {
    i <= |ids| && i == if k * CHUNK_SIZE < |ids| then k * CHUNK_SIZE else |ids|
  }

  /** What the first half of a chunk leaves. */
  ghost predicate Wrote(start: Database, done: set<Id>, chunk: set<Id>, live: Database, before: Database,
                        archive: Database,
                        written: nat, stop: Stop) {
    && (stop.Finished? || stop.LoadFailed? || stop.NotEnded? || stop.WriteFailed?)
    && (stop.Finished? ==> Written(start, done, chunk, live, archive) && written == Present(start, chunk))
    && (!stop.Finished? ==> archive == before)
    && (stop.NotEnded? ==> Unended(start, chunk))
    && (stop.Finished? || stop.WriteFailed? ==> !Unended(start, chunk))
  }

  ghost predicate WriteCalls(faults: nat -> bool, first: nat, last: nat, stop: Stop) {
    && last == first + (if stop.LoadFailed? || stop.NotEnded? then 1 else 2)
    && StoppedBy(faults, first, last, stop.LoadFailed? || stop.WriteFailed?)
  }

  /** What one chunk leaves. */
  ghost predicate ChunkOutcome(start: Database, ids: seq<Id>, i: nat, live: Database, archive: Database, moved: nat,
                               stop: Stop)
    requires i < |ids|
  {
    && !stop.Canceled?
    && (stop.Finished? ==> Moved(start, Elements(ids[..ChunkEnd(ids, i)]), live, archive)
                           && moved == Present(start, Elements(ids[i..ChunkEnd(ids, i)])))
    && (!stop.Finished? ==> NothingLost(start, Snapshot(live, archive)) && live == LiveAt(start, ids, i, stop))
    && StopsAtUnended(start, ids, i, stop)
  }

  /** What the check of the chunk that starts at i says about it, if it got that far. */
  ghost predicate StopsAtUnended(start: Database, ids: seq<Id>, i: nat, stop: Stop)
    requires i <= |ids|
  {
    && (stop.NotEnded? ==> Unended(start, Elements(ids[i..ChunkEnd(ids, i)])))
    && (stop.WriteFailed? || stop.StripFailed? || stop.DeleteFailed? || stop.Finished? ==>
          !Unended(start, Elements(ids[i..ChunkEnd(ids, i)])))
  }

  lemma ChunkEnds(start: Database, ids: seq<Id>, i: nat, was: Database, live: Database, archive: Database, moved: nat,
                  stop: Stop)
    requires i < |ids| && !stop.Canceled? && was == Delete(Strip(start, Elements(ids[..i])), Elements(ids[..i]))
    requires var done, chunk := Elements(ids[..i]), Elements(ids[i..ChunkEnd(ids, i)]);
      && (stop.Finished? ==> Moved(start, done + chunk, live, archive) && moved == Present(start, chunk))
      && (stop.DeleteFailed? ==> live == Strip(was, chunk))
    requires !stop.Finished? ==> NothingLost(start, Snapshot(live, archive)) && (!stop.DeleteFailed? ==> live == was)
    requires StopsAtUnended(start, ids, i, stop)
    ensures ChunkOutcome(start, ids, i, live, archive, moved, stop)
  {
    PrefixElements(ids, i, ChunkEnd(ids, i));
  }

  /** The context check precedes a chunk's other calls. */
  ghost predicate ChunkCalls(faults: nat -> bool, first: nat, last: nat, stop: Stop) {
    && last + 1 == first + (if stop.Finished? then 5 else CallsMade(stop))
    && StoppedBy(faults, first, last, !stop.Finished? && !stop.NotEnded?)
  }

  lemma FirstHalf(faults: nat -> bool, first: nat, last: nat, stop: Stop)
    requires WriteCalls(faults, first, last, stop) && (stop.LoadFailed? || stop.NotEnded? || stop.WriteFailed?)
    ensures ChunkCalls(faults, first, last, stop)
  {
  }

  lemma BothHalves(faults: nat -> bool, first: nat, middle: nat, last: nat, stop: Stop)
    requires WriteCalls(faults, first, middle, Finished) && StoppedBy(faults, middle, last, !stop.Finished?)
    requires stop.Finished? || stop.StripFailed? || stop.DeleteFailed?
    requires last == middle + if stop.StripFailed? then 1 else 2
    ensures ChunkCalls(faults, first, last, stop)
  {
    CallsJoin(faults, first, middle, last, !stop.Finished?);
  }

  lemma ChunkSchedule(faults: nat -> bool, ids: seq<Id>, k: nat, i: nat, first: nat, last: nat, stop: Stop)
    requires Chunked(ids, k, i) && i < |ids| && first == 5 * k + 1
    requires StoppedBy(faults, 0, first, false) && ChunkCalls(faults, first, last, stop)
    ensures !stop.Finished? ==> Schedule(faults, ids, k, i, last, stop)
    ensures stop.Finished? ==> last == 5 * (k + 1) && StoppedBy(faults, 0, last, false)
  {
    CallsJoin(faults, 0, first, last, !stop.Finished? && !stop.NotEnded?);
  }

  /** k chunks, up to i, have moved. */
  ghost predicate Progress(start: Database, ids: seq<Id>, k: nat, i: nat, live: Database, archive: Database,
                           count: nat) {
    && Sound(start) && DependentsFirst(start, ids) && Distinct(ids) && Chunked(ids, k, i)
    && Moved(start, Elements(ids[..i]), live, archive) && count == Present(start, Elements(ids[..i]))
  }

  lemma ProgressStep(start: Database, ids: seq<Id>, k: nat, i: nat, live: Database, archive: Database, count: nat,
                     moved: nat)
    requires Sound(start) && DependentsFirst(start, ids) && Distinct(ids) && Chunked(ids, k, i) && i < |ids|
    requires count == Present(start, Elements(ids[..i])) && ChunkOutcome(start, ids, i, live, archive, moved, Finished)
    ensures Progress(start, ids, k + 1, ChunkEnd(ids, i), live, archive, count + moved)
  {
    CountPrefix(start, ids, i, ChunkEnd(ids, i));
  }

  lemma StopsBetween(start: Database, ids: seq<Id>, k: nat, i: nat, live: Database, archive: Database, count: nat)
    requires Progress(start, ids, k, i, live, archive, count) && i < |ids|
    ensures Outcome(start, ids, live, if count == 0 then EMPTY else archive, count, Stop.Canceled, i)
  {
    MovedIsSafe(start, ids, i, live, archive);
  }

  lemma StopsInside(start: Database, ids: seq<Id>, k: nat, i: nat, live: Database, archive: Database, count: nat,
                    moved: nat,
                    stop: Stop)
    requires Chunked(ids, k, i) && i < |ids| && count == Present(start, Elements(ids[..i]))
    requires ChunkOutcome(start, ids, i, live, archive, moved, stop) && !stop.Finished?
    ensures Outcome(start, ids, live, if count == 0 then EMPTY else archive, count, stop, i)
  {
  }

  lemma AllMoved(start: Database, ids: seq<Id>, k: nat, live: Database, archive: Database, count: nat)
    requires Progress(start, ids, k, |ids|, live, archive, count)
    ensures Outcome(start, ids, live, if count == 0 then EMPTY else archive, count, Finished, |ids|)
  {
    assert ids[..|ids|] == ids;
    StopCleanly(start, ids, |ids|, live, archive);
  }

  /** Where a run stopped, read off the fault schedule: k whole chunks of five calls each went through, and then either
      nothing was left, or a job had not ended, or the first call that fails is the one that stops it. */
  ghost predicate Schedule(faults: nat -> bool, ids: seq<Id>, k: nat, at: nat, calls: nat, stop: Stop) {
    && Chunked(ids, k, at) && (stop.Finished? <==> at == |ids|)
    && calls == 5 * k + CallsMade(stop)
    && StoppedBy(faults, 0, calls, !stop.Finished? && !stop.NotEnded?)
  }

  /** How many of the ids are rows. */
  function Present(db: Database, ids: set<Id>): nat { |ids * db.rows.Keys| }

  lemma CountPrefix(db: Database, ids: seq<Id>, i: nat, next: nat)
    requires Distinct(ids) && i <= next <= |ids|
    ensures Present(db, Elements(ids[..next])) == Present(db, Elements(ids[..i])) + Present(db, Elements(ids[i..next]))
  {
    DistinctSplit(ids, i, next);
    PrefixElements(ids, i, next);
    var a, b := Elements(ids[..i]) * db.rows.Keys, Elements(ids[i..next]) * db.rows.Keys;
    assert Elements(ids[..next]) * db.rows.Keys == a + b;
  }

  lemma CountOneMore(db: Database, ids: seq<Id>, n: nat)
    requires Distinct(ids) && n < |ids|
    ensures Present(db, Elements(ids[..n + 1])) == Present(db, Elements(ids[..n])) + if ids[n] in db.rows then 1 else 0
  {
    var before := Elements(ids[..n]) * db.rows.Keys;
    ElementsAppend(ids[..n], ids[n]);
    assert ids[..n + 1] == ids[..n] + [ids[n]];
    assert ids[n] !in ids[..n];
    assert Elements(ids[..n + 1]) * db.rows.Keys == if ids[n] in db.rows then before + {ids[n]} else before;
  }

  predicate Eligible(row: Columns, statuses: set<Status>, endBefore: Option<int>) {
    row.status in statuses && (endBefore.Some? ==> row.ended != 0 && row.ended < endBefore.value)
  }

  /** What an archiving run leaves. The live store is determined by where it stopped: the chunks before held ended jobs
      only, and an unfinished job stops the run at its own chunk, untouched. With an archive nothing is lost; an archive
      that received nothing is gone. */
  ghost predicate Outcome(start: Database, ids: seq<Id>, live: Database, archive: Database, count: nat, stop: Stop,
                          at: nat) {
    && at <= |ids| && live == LiveAt(start, ids, at, stop) && count == Present(start, Elements(ids[..at]))
    && Spared(start, live) && !Unended(start, Elements(ids[..at])) && StopsAtUnended(start, ids, at, stop)
    && (count > 0 ==> NothingLost(start, Snapshot(live, archive)))
    && (count == 0 ==> archive == EMPTY)
    && (stop.Finished? ==> at == |ids| && Moved(start, Elements(ids), live, archive))
  }

  lemma NoneMoved(start: Database, ids: seq<Id>)
    requires Sound(start)
    ensures Moved(start, Elements(ids[..0]), start, EMPTY) && Present(start, Elements(ids[..0])) == 0
  {
    assert Elements(ids[..0]) == {};
    NothingToStrip(start);
    assert forall j :: EMPTY.Kids(j) == NONE;
    assert {} * start.rows.Keys == {};
  }

  lemma NothingToStrip(db: Database)
    ensures Delete(Strip(db, {}), {}) == db
  {
    assert db.rows - {} == db.rows && db.kids - {} - {} == db.kids && db.locks - {} == db.locks;
  }

  /** Between chunks everything is safe; an archive of nothing is still empty. */
  lemma StopCleanly(start: Database, ids: seq<Id>, i: nat, live: Database, archive: Database)
    requires Sound(start) && DependentsFirst(start, ids) && i <= |ids|
    requires Moved(start, Elements(ids[..i]), live, archive)
    ensures NothingLost(start, Snapshot(live, archive))
    ensures Present(start, Elements(ids[..i])) == 0 ==> Moved(start, Elements(ids[..i]), live, EMPTY)
  {
    MovedIsSafe(start, ids, i, live, archive);
    var done := Elements(ids[..i]);
    if Present(start, done) == 0 {
      NothingWasThere(start, done);
      assert forall j :: EMPTY.Kids(j) == NONE;
    }
  }

  lemma NothingWasThere(start: Database, done: set<Id>)
    requires Sound(start) && Present(start, done) == 0
    ensures forall j :: j in done ==> j !in start.rows && start.Kids(j) == NONE
    ensures Delete(Strip(start, done), done).rows == start.rows
    ensures forall j :: Delete(Strip(start, done), done).Kids(j) == start.Kids(j)
  {
    var live := Delete(Strip(start, done), done);
    assert done * start.rows.Keys == {};
    forall j | j in done ensures j !in start.rows && start.Kids(j) == NONE {
      assert j in start.rows ==> j in done * start.rows.Keys;
    }
    assert forall j :: j in live.rows <==> j in start.rows;
    assert forall j :: live.Kids(j) == if j in done then NONE else start.Kids(j);
  }

  /** What an error return can cost. A run that stopped before anything was counted removes its archive. Then a job is
      incomplete exactly if the delete transaction of its own chunk was what failed and it had child rows: the strip
      before it had committed. Crashing at any commit costs nothing; returning the error does. */
  lemma LostOnErrorExactly(start: Database, ids: seq<Id>, at: nat, stop: Stop, j: Id)
    requires Sound(start) && at <= |ids| && Present(start, Elements(ids[..at])) == 0 && j in start.rows
    ensures var live := LiveAt(start, ids, at, stop);
      !Complete(live, j, start.rows[j], start.Kids(j)) && !Complete(EMPTY, j, start.rows[j], start.Kids(j))
      <==> stop.DeleteFailed? && j in ids[at..ChunkEnd(ids, at)] && start.Kids(j) != NONE
  {
    var done, chunk := Elements(ids[..at]), Elements(ids[at..ChunkEnd(ids, at)]);
    NothingWasThere(start, done);
    var before := Delete(Strip(start, done), done);
    assert Strip(before, chunk).Kids(j) == if j in chunk then NONE else before.Kids(j);
    assert Strip(before, chunk).rows == before.rows;
    assert j in ids[at..ChunkEnd(ids, at)] <==> j in chunk;
  }

  /** One ended job with a detail. */
  const DETAILED := Database(map[1 := Columns(Success, 0, "", "", 1, 1, 1, 0)],
                             map[1 := Children({}, map["script" := "x"], map[], {}, {})], {})

  /** Such a run: the fifth call, the delete of the first chunk, fails. The archive is removed and the job's detail is
      in neither database. */
  method LosingRun() returns (live: Database, archive: Database, stop: Stop)
    ensures stop == DeleteFailed && archive == EMPTY
    ensures 1 in live.rows && DETAILED.Kids(1) != NONE && live.Kids(1) == NONE
  {
    var archiver := new Archiver(DETAILED, FIFTH_FAILS);
    assert forall j :: DETAILED.Kids(j) == if j == 1 then DETAILED.kids[1] else NONE;
    var ids: seq<Id> := [1];
    var count: nat;
    ghost var k, at: nat;
    count, stop, k, at := archiver.ArchiveOrdered(ids);
    FifthCallStops(k, at, archiver.calls, stop);
    DetailIsStripped();
    return archiver.live, archiver.archive, stop;
  }

  lemma DetailIsStripped()
    ensures var live := LiveAt(DETAILED, [1], 0, DeleteFailed); 1 in live.rows && live.Kids(1) == NONE
    ensures !Unended(DETAILED, Elements([1]))
  {
    var ids: seq<Id> := [1];
    assert Elements(ids[..0]) == {};
    NothingToStrip(DETAILED);
    assert ids[0] in Elements(ids[0..1]);
  }

  /** The schedule that fails the fifth call only. */
  const FIFTH_FAILS: nat -> bool := c => c == 4

  lemma FifthCallStops(k: nat, at: nat, calls: nat, stop: Stop)
    requires Schedule(FIFTH_FAILS, [1], k, at, calls, stop) && !stop.NotEnded?
    ensures stop.DeleteFailed? && at == 0
  {
    assert FIFTH_FAILS(4);
    assert k > 0 ==> at == 1 && calls >= 5;
  }

  // ----- Why a chunk is safe -----------------------------------------------

  lemma PrefixIsClosed(start: Database, ids: seq<Id>, n: nat)
    requires DependentsFirst(start, ids) && n <= |ids|
    ensures DependencyClosed(start, Elements(ids[..n]))
  {
    forall j, p | p in start.Kids(j).deps && p in Elements(ids[..n]) ensures j in Elements(ids[..n]) {
      var k :| 0 <= k < n && ids[..n][k] == p;
      assert ids[k] == p && j in ids[..k];
      var l :| 0 <= l < k && ids[..k][l] == j;
      assert ids[..n][l] == j;
    }
  }

  /** Dependents of a chunk are in the chunk or already gone. */
  lemma ChunkIsClosed(start: Database, ids: seq<Id>, i: nat, next: nat, live: Database)
    requires DependentsFirst(start, ids) && Distinct(ids) && i <= next <= |ids|
    requires live == Delete(Strip(start, Elements(ids[..i])), Elements(ids[..i]))
    ensures DependencyClosed(live, Elements(ids[i..next]))
  {
    var done := Elements(ids[..i]);
    assert forall j :: live.Kids(j) == if j in done then NONE else start.Kids(j);
    PrefixIsClosed(start, ids, next);
    PrefixElements(ids, i, next);
  }

  lemma MovedIsSafe(start: Database, ids: seq<Id>, n: nat, live: Database, archive: Database)
    requires Sound(start) && DependentsFirst(start, ids) && n <= |ids|
    requires Moved(start, Elements(ids[..n]), live, archive)
    ensures NothingLost(start, Snapshot(live, archive))
  {
    var done := Elements(ids[..n]);
    PrefixIsClosed(start, ids, n);
    assert forall j :: live.Kids(j) == if j in done then NONE else start.Kids(j);
  }

  /** After the write, everything moved or about to be moved is in the archive, and the live store is untouched. */
  ghost predicate Written(start: Database, done: set<Id>, chunk: set<Id>, live: Database, archive: Database) {
    && !Unended(start, done + chunk) && live == Delete(Strip(start, done), done)
    && (forall j :: j in start.rows && j in done + chunk ==> Complete(archive, j, start.rows[j], start.Kids(j)))
    && (forall j :: !(j in start.rows && j in done + chunk) ==> j !in archive.rows && archive.Kids(j) == NONE)
  }

  lemma ChunkArchived(start: Database, done: set<Id>, chunk: set<Id>, live: Database, archive: Database,
                      batch: seq<Record>)
    requires Sound(live) && Moved(start, done, live, archive) && done !! chunk
    requires Loaded(live, chunk, batch) && !Unended(start, chunk)
    ensures Written(start, done, chunk, live, Restore(archive, batch)) && Present(live, chunk) == Present(start, chunk)
    ensures NothingLost(start, Snapshot(live, Restore(archive, batch)))
  {
    assert forall j :: live.Kids(j) == if j in done then NONE else start.Kids(j);
    assert forall j :: j in live.rows <==> j in start.rows && j !in done;
    assert chunk * live.rows.Keys == chunk * start.rows.Keys;
    RestoreFresh(archive, batch);
    var after := Restore(archive, batch);
    forall j | j in start.rows && j in done + chunk ensures Complete(after, j, start.rows[j], start.Kids(j)) {
      if j in chunk {
        var k :| 0 <= k < |batch| && batch[k].id == j;
        assert Complete(after, batch[k].id, batch[k].row, batch[k].kids);
      } else {
        assert Complete(archive, j, start.rows[j], start.Kids(j));
      }
    }
    forall j | !(j in start.rows && j in done + chunk) ensures j !in after.rows && after.Kids(j) == NONE {
      assert j !in archive.rows && archive.Kids(j) == NONE;
    }
    PartialIsSafe(start, done, chunk, live, live, after);
  }

  lemma EndedAsLoaded(start: Database, done: set<Id>, chunk: set<Id>, live: Database, batch: seq<Record>)
    requires live == Delete(Strip(start, done), done) && done !! chunk && Loaded(live, chunk, batch)
    ensures (exists k :: 0 <= k < |batch| && !Terminal(batch[k].row.status)) <==> Unended(start, chunk)
  {
    if k :| 0 <= k < |batch| && !Terminal(batch[k].row.status) {
      assert Complete(live, batch[k].id, batch[k].row, batch[k].kids);
      assert batch[k].id in chunk;
    }
    if j :| j in chunk && j in start.rows && !Terminal(start.rows[j].status) {
      assert j in live.rows;
      var k :| 0 <= k < |batch| && batch[k].id == j;
      assert Complete(live, batch[k].id, batch[k].row, batch[k].kids);
    }
  }

  lemma DistinctSplit(ids: seq<Id>, i: nat, next: nat)
    requires Distinct(ids) && i <= next <= |ids|
    ensures Elements(ids[..i]) !! Elements(ids[i..next])
  {
    forall j | j in Elements(ids[..i]) ensures j !in Elements(ids[i..next]) {
      var k :| 0 <= k < i && ids[..i][k] == j;
      assert ids[k] == j;
      assert forall l :: 0 <= l < next - i ==> ids[i..next][l] == ids[i + l];
    }
  }

  /** While the chunk is being deleted, what is no longer complete in the live store is in the archive. */
  lemma PartialIsSafe(start: Database, done: set<Id>, chunk: set<Id>, was: Database, live: Database, archive: Database)
    requires Written(start, done, chunk, was, archive) && PartlyCleaned(was, live, chunk)
    ensures NothingLost(start, Snapshot(live, archive))
  {
    assert forall j :: was.Kids(j) == if j in done then NONE else start.Kids(j);
  }

  lemma ChunkMoved(start: Database, done: set<Id>, chunk: set<Id>, was: Database, archive: Database)
    requires Written(start, done, chunk, was, archive)
    ensures Moved(start, done + chunk, Delete(Strip(was, chunk), chunk), archive)
  {
    var a, b := Delete(Strip(was, chunk), chunk), Delete(Strip(start, done + chunk), done + chunk);
    assert a.rows == b.rows && a.kids == b.kids && a.locks == b.locks;
  }

  /** The batch holds the record of each id that is a row, once. */
  ghost predicate Loaded(db: Database, ids: set<Id>, batch: seq<Record>) {
    && (forall k :: 0 <= k < |batch| ==> batch[k].id in ids && Complete(db, batch[k].id, batch[k].row, batch[k].kids))
    && (forall j :: j in ids && j in db.rows ==> exists k :: 0 <= k < |batch| && batch[k].id == j)
    && (forall k, l :: 0 <= k < l < |batch| ==> batch[k].id != batch[l].id)
  }

  /** Those of the ids that are rows, in their order. */
  function Existing(db: Database, ids: seq<Id>): seq<Id> {
    if ids == [] then [] else
      var init, last := Existing(db, ids[..|ids| - 1]), ids[|ids| - 1];
      if last in db.rows then init + [last] else init
  }

  ghost predicate InOrder(batch: seq<Record>, ids: seq<Id>) {
    |batch| == |ids| && forall k :: 0 <= k < |ids| ==> batch[k].id == ids[k]
  }

  lemma LoadOneMore(db: Database, ids: seq<Id>, n: nat, batch: seq<Record>)
    requires Distinct(ids) && n < |ids| && Loaded(db, Elements(ids[..n]), batch)
    ensures var j := ids[n];
      if j in db.rows then Loaded(db, Elements(ids[..n + 1]), batch + [Record(j, db.rows[j], db.Kids(j))])
      else Loaded(db, Elements(ids[..n + 1]), batch)
  {
    var j := ids[n];
    ElementsAppend(ids[..n], j);
    assert ids[..n + 1] == ids[..n] + [j];
    assert j !in Elements(ids[..n]);
    if j in db.rows {
      var more := batch + [Record(j, db.rows[j], db.Kids(j))];
      forall i | i in Elements(ids[..n + 1]) && i in db.rows ensures exists k :: 0 <= k < |more| && more[k].id == i {
        if i == j {
          assert more[|batch|].id == j;
        } else {
          var k :| 0 <= k < |batch| && batch[k].id == i;
          assert more[k].id == i;
        }
      }
    }
  }

  lemma PrefixElements(ids: seq<Id>, i: nat, next: nat)
    requires i <= next <= |ids|
    ensures Elements(ids[..next]) == Elements(ids[..i]) + Elements(ids[i..next])
    ensures Elements(ids[..next]) <= Elements(ids) && Elements(ids[i..next]) <= Elements(ids)
  {
    assert ids[..next] == ids[..i] + ids[i..next];
    assert ids == ids[..next] + ids[next..];
  }

  // ----- The same in rows and statuses -------------------------------------

  /** Only SUCCESS, FAILED and CANCELED jobs are ever moved, and any other job that is planned keeps the run from
      finishing. */
  lemma OnlyEndedMove(start: Database, moved: set<Id>, live: Database, archive: Database)
    requires Moved(start, moved, live, archive)
    ensures forall j :: j in moved && j in start.rows ==>
      start.rows[j].status == Success || start.rows[j].status == Failed || start.rows[j].status == Status.Canceled
    ensures forall j :: j in moved && j in start.rows ==> !start.rows[j].status.Live()
  {
    forall j | j in moved && j in start.rows ensures Terminal(start.rows[j].status) {}
  }

  /** An unfinished job is one whose status is none of these. */
  lemma UnendedExactly(db: Database, ids: set<Id>)
    ensures Unended(db, ids) <==> exists j :: j in ids && j in db.rows && db.rows[j].status.Live()
  {
    if Unended(db, ids) {
      var j :| j in ids && j in db.rows && !Terminal(db.rows[j].status);
      assert db.rows[j].status.Live();
    }
    if j :| j in ids && j in db.rows && db.rows[j].status.Live() { assert !Terminal(db.rows[j].status); }
  }

  /** Jobs that are gone leave no row, child row or lock; every other job is as it was. */
  lemma GoneMeans(start: Database, live: Database, ids: set<Id>)
    requires Gone(start, live, ids)
    ensures forall j :: j in live.rows <==> j in start.rows && j !in ids
    ensures forall j :: j in ids ==> j !in live.kids && j !in live.locks
    ensures forall j :: j !in ids ==>
      && live.Kids(j) == start.Kids(j) && (j in live.locks <==> j in start.locks)
      && (j in start.rows ==> live.rows[j] == start.rows[j])
  {}

  /** INSERT OR IGNORE: a row that is there already stays as it is, a detail that is there keeps its value, and what is
      missing is added. */
  lemma RestoreKeeps(arc: Database, r: Record)
    ensures var n := RestoreOne(arc, r);
      && r.id in n.rows && n.rows[r.id] == (if r.id in arc.rows then arc.rows[r.id] else r.row)
      && (forall j :: j in arc.rows ==> j in n.rows && n.rows[j] == arc.rows[j])
      && (forall p :: p in n.Kids(r.id).deps <==> p in arc.Kids(r.id).deps || p in r.kids.deps)
      && (forall p :: p in n.Kids(r.id).inputs <==> p in arc.Kids(r.id).inputs || p in r.kids.inputs)
      && (forall p :: p in n.Kids(r.id).outputs <==> p in arc.Kids(r.id).outputs || p in r.kids.outputs)
      && (forall key :: key in arc.Kids(r.id).details ==>
            key in n.Kids(r.id).details && n.Kids(r.id).details[key] == arc.Kids(r.id).details[key])
      && (forall key :: key in r.kids.details && key !in arc.Kids(r.id).details ==>
            key in n.Kids(r.id).details && n.Kids(r.id).details[key] == r.kids.details[key])
      && (forall key :: key in r.kids.running ==> key in n.Kids(r.id).running)
  {}

  /** Chunks hold 500 ids, the last one what is left. */
  lemma ChunksOf500(ids: seq<Id>, i: nat)
    requires i < |ids|
    ensures |ids[i..ChunkEnd(ids, i)]| == if |ids| - i < 500 then |ids| - i else 500
  {}
}
