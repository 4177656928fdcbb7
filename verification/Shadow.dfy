/** The archiver's view of the database and the queue's: the same cleanup transactions, seen at two levels of detail. */
module Shadow {
  import opened Jobs
  import opened Claims
  import Archive
  import Transactions

  /** s is what the queue sees of db. */
  ghost predicate Shadows(db: Archive.Database, s: Store) {
    && s.jobs.Keys == db.rows.Keys && s.claims.Keys == db.locks
    && (forall j :: j in s.jobs ==>
          s.jobs[j].status == db.rows[j].status && s.jobs[j].afterOk == db.Kids(j).deps &&
            s.jobs[j].details == db.Kids(j).details)
    && (forall j :: j in s.running ==> s.running[j] == db.Kids(j).running)
    && (forall j :: j !in s.running ==> db.Kids(j).running == map[])
  }

  /** Stripping is the same transaction at both levels. */
  lemma StripShadows(db: Archive.Database, s: Store, ids: set<Id>)
    requires Shadows(db, s)
    ensures Shadows(Archive.Strip(db, ids), Transactions.Strip(s, ids))
  {
    var n := Archive.Strip(db, ids);
    assert forall j :: n.Kids(j) == if j in ids then Archive.NONE else db.Kids(j);
  }

  /** Rows without children may go at one level exactly if they may at the other. */
  lemma SameDeletable(n: Archive.Database, t: Store, ids: set<Id>)
    requires Shadows(n, t) && forall j :: j !in n.rows ==> n.Kids(j) == Archive.NONE
    requires forall j :: j in ids ==> n.Kids(j) == Archive.NONE && j !in n.locks && j !in t.running
    ensures Archive.Deletable(n, ids) <==> Transactions.Deletable(t, ids)
  {
    if Transactions.Deletable(t, ids) {
      forall j, p | j !in ids && p in n.Kids(j).deps ensures p !in ids { assert j in t.jobs && p in t.jobs[j].afterOk; }
    }
    if Archive.Deletable(n, ids) {
      forall j, p | j in t.jobs && j !in ids && p in t.jobs[j].afterOk ensures p !in ids { assert p in n.Kids(j).deps; }
    }
  }

  lemma DeletedShadows(n: Archive.Database, t: Store, ids: set<Id>)
    requires Shadows(n, t) && Transactions.Deletable(t, ids)
    requires forall j :: j in ids ==> n.Kids(j) == Archive.NONE
    ensures Shadows(Archive.Delete(n, ids), Transactions.Delete(t, ids))
  {
    var gone := Archive.Delete(n, ids);
    assert forall j :: gone.Kids(j) == n.Kids(j);
  }

  /** Once stripped, rows may go at one level exactly if they may at the other, and the deletes agree. */
  lemma DeleteShadows(db: Archive.Database, s: Store, stripped: set<Id>, ids: set<Id>)
    requires Shadows(db, s) && Archive.Sound(db) && ids <= stripped
    ensures var n, t := Archive.Strip(db, stripped), Transactions.Strip(s, stripped);
      && (Archive.Deletable(n, ids) <==> Transactions.Deletable(t, ids))
      && (Archive.Deletable(n, ids) ==> Shadows(Archive.Delete(n, ids), Transactions.Delete(t, ids)))
  {
    var n, t := Archive.Strip(db, stripped), Transactions.Strip(s, stripped);
    StripShadows(db, s, stripped);
    assert forall j :: n.Kids(j) == if j in stripped then Archive.NONE else db.Kids(j);
    SameDeletable(n, t, ids);
    if Transactions.Deletable(t, ids) { DeletedShadows(n, t, ids); }
  }
}
