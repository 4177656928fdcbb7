/** Where the rows of a reachable queue come from. */
module Origins {
  import opened Collections
  import opened Jobs
  import opened Transactions
  import opened Lifecycle
  import Selection

  /** Request i of the run validated the batch, and each parent it named was then a row that was neither CANCELED nor
      FAILED. */
  ghost predicate ValidatedAt(ops: seq<Op>, i: nat, batch: seq<Submit>) {
    && i < |ops| && ops[i] == Validate(batch)
    && var m := Run(ops[..i]).db.jobs;
       forall k, p :: 0 <= k < |batch| && p in batch[k].afterOk ==>
         p in m && m[p].status != Canceled && m[p].status != Failed
  }

  ghost predicate WasValidated(ops: seq<Op>, batch: seq<Submit>) { exists i: nat :: ValidatedAt(ops, i, batch) }

  lemma StillValidated(ops: seq<Op>, op: Op, batch: seq<Submit>)
    requires WasValidated(ops, batch)
    ensures WasValidated(ops + [op], batch)
  {
    var i: nat :| ValidatedAt(ops, i, batch);
    assert (ops + [op])[..i] == ops[..i];
    assert ValidatedAt(ops + [op], i, batch);
  }

  lemma NowValidated(ops: seq<Op>, batch: seq<Submit>)
    requires forall i :: 0 <= i < |batch| ==> DepsValid(Run(ops).db.jobs, batch[i].afterOk)
    ensures WasValidated(ops + [Validate(batch)], batch)
  {
    var m, more := Run(ops).db.jobs, ops + [Validate(batch)];
    forall k, p | 0 <= k < |batch| && p in batch[k].afterOk
      ensures p in m && m[p].status != Canceled && m[p].status != Failed
    {
      assert DepsValid(m, batch[k].afterOk);
      var i :| 0 <= i < |batch[k].afterOk| && batch[k].afterOk[i] == p;
    }
    assert more[..|ops|] == ops;
    assert ValidatedAt(more, |ops|, batch);
  }

  /** What is waiting to be inserted has been validated. */
  lemma {:induction false} PendingWereValidated(ops: seq<Op>, batch: seq<Submit>)
    requires batch in Run(ops).validated
    ensures WasValidated(ops, batch)
  {
    var init, op := ops[..|ops| - 1], ops[|ops| - 1];
    assert ops == init + [op];
    if batch in Run(init).validated {
      PendingWereValidated(init, batch);
      StillValidated(init, op, batch);
    } else {
      assert op == Validate(batch);
      NowValidated(init, batch);
    }
  }

  /** The row belongs to a batch that was validated. */
  ghost predicate HasOrigin(ops: seq<Op>, j: Id) {
    exists batch: seq<Submit>, k :: WasValidated(ops, batch) && 0 <= k < |batch| && batch[k].id == j
  }

  /** Every row that is ever stored was submitted in a batch that had passed validation before. */
  lemma {:induction false} EveryRowWasValidated(ops: seq<Op>, j: Id)
    requires j in Run(ops).db.jobs
    ensures HasOrigin(ops, j)
  {
    var init, op := ops[..|ops| - 1], ops[|ops| - 1];
    assert ops == init + [op];
    if j in Run(init).db.jobs {
      EveryRowWasValidated(init, j);
      var batch: seq<Submit>, k :| WasValidated(init, batch) && 0 <= k < |batch| && batch[k].id == j;
      StillValidated(init, op, batch);
    } else {
      Selection.NewRowsComeFromInserts(Run(init).db, op, j);
      var k :| 0 <= k < |op.batch| && op.batch[k].id == j;
      assert op.batch in Run(init).validated;
      PendingWereValidated(init, op.batch);
      StillValidated(init, op, op.batch);
    }
  }
}
