/** Requests that arrive twice: whether the repetition is accepted, and what it changes. */
module Replay {
  import opened Collections
  import opened Jobs
  import opened Claims
  import opened Transactions

  /** Repeating a handoff whose response was lost changes nothing. */
  lemma MarkProxiedReplay(s: Store, j: Id, runner: string, details: map<string, string>)
    ensures var t := MarkProxied(s, j, runner, details);
      MarkProxied(t, j, runner, details) == t && (ProxyAccepted(s, j, runner) ==> ProxyAccepted(t, j, runner))
  {
    if ProxyAccepted(s, j, runner) {
      var t := MarkProxied(s, j, runner, details);
      assert SetStatus(t.jobs, {j}, ProxyQueued) == t.jobs;
      assert t.running[j] + details == t.running[j];
    }
  }

  /** Reporting the end of a handed-off job twice with the same status changes nothing the second time and
      is accepted; a different end state is refused. */
  lemma EndProxiedReplay(s: Store, j: Id, st: Status, other: Status)
    requires EndProxiedAccepted(s, j, st)
    ensures var t := EndProxied(s, j, st);
      && EndProxied(t, j, st) == t && EndProxiedAccepted(t, j, st)
      && (other != st ==> !EndProxiedAccepted(t, j, other))
  {
  }

  /** Ending an owned job is not idempotent: the repeat is refused and changes nothing. */
  lemma EndJobReplay(s: Store, j: Id, runner: string, code: int)
    requires EndAccepted(s, j, runner)
    ensures var t := EndJob(s, j, runner, code); !EndAccepted(t, j, runner) && EndJob(t, j, runner, code) == t
  {
  }

  /** Inserting the same batch again is refused by the primary key and changes nothing. */
  lemma {:induction false} InsertReplay(s: Store, batch: seq<Submit>)
    requires batch != []
    ensures Insert(Insert(s, batch), batch) == Insert(s, batch)
  {
    if InsertRows(s.jobs, batch).Some? {
      var n := InsertRows(s.jobs, batch).value;
      InsertedIdsPresent(s.jobs, batch);
      assert batch[0].id in n;
      KnownIdRefuses(n, batch);
    }
  }

  lemma {:induction false} InsertedIdsPresent(m: JobTable, batch: seq<Submit>)
    ensures InsertRows(m, batch).Some? ==> forall k :: 0 <= k < |batch| ==> batch[k].id in InsertRows(m, batch).value
    ensures InsertRows(m, batch).Some? ==> m.Keys <= InsertRows(m, batch).value.Keys
  {
    if batch != [] { InsertedIdsPresent(m, batch[..|batch| - 1]); }
  }

  lemma {:induction false} KnownIdRefuses(m: JobTable, batch: seq<Submit>)
    requires batch != [] && batch[0].id in m
    ensures InsertRows(m, batch).None?
  {
    if |batch| > 1 {
      KnownIdRefuses(m, batch[..|batch| - 1]);
    } else {
      assert batch[..0] == [];
    }
  }
}
