/** The SQLite prune between the inserts of other clients, against the one statement of Postgres. */
module ConcurrentPrune {
  import opened Calendar
  import opened Backup
  import opened Table
  import opened Codec
  import opened PostgresStore

  /** After the SELECT, the DELETEs of the loop run in order with inserts anywhere between them. */
  datatype Step = Delete | Insert(e: BackupEntry)

  /** The table after `steps`, `k` of the selected rows having been deleted before. */
  function Interleave(rows: Rows, doomed: seq<BackupEntry>, k: nat, steps: seq<Step>): Rows
    decreases steps
  {
    if steps == [] then rows
    else match steps[0]
      case Delete =>
        if k < |doomed| then Interleave(rows - {doomed[k].id}, doomed, k + 1, steps[1..])
        else Interleave(rows, doomed, k, steps[1..])
      case Insert(e) => Interleave(rows[e.id := e], doomed, k, steps[1..])
  }

  function Deletes(steps: seq<Step>): nat {
    if steps == [] then 0 else (if steps[0].Delete? then 1 else 0) + Deletes(steps[1..])
  }

  /** The table after the inserts alone. */
  function InsertAll(rows: Rows, steps: seq<Step>): Rows
    decreases steps
  {
    if steps == [] then rows
    else InsertAll(if steps[0].Insert? then rows[steps[0].e.id := steps[0].e] else rows, steps[1..])
  }

  /** Each inserted id is a new one. */
  ghost predicate InsertsNew(rows: Rows, steps: seq<Step>) {
    forall i :: 0 <= i < |steps| && steps[i].Insert? ==> steps[i].e.id !in rows
  }

  ghost function Remaining(doomed: seq<BackupEntry>, k: nat): set<Uuid>
    requires k <= |doomed|
  {
    Ids(doomed[k..])
  }

  /** Deleting the rest of the selection first and inserting afterwards gives the same table. */
  lemma {:induction false} InterleaveIsDeleteThenInsert(rows: Rows, doomed: seq<BackupEntry>, k: nat, steps: seq<Step>)
    requires k <= |doomed| && Deletes(steps) == |doomed| - k
    requires forall i :: 0 <= i < |steps| && steps[i].Insert? ==> steps[i].e.id !in Remaining(doomed, k)
    ensures Interleave(rows, doomed, k, steps) == InsertAll(rows - Remaining(doomed, k), steps)
    decreases steps
  {
    if steps == [] {
      assert Remaining(doomed, k) == {};
    } else if steps[0].Delete? {
      assert doomed[k..] == [doomed[k]] + doomed[k + 1..];
      assert rows - Remaining(doomed, k) == rows - {doomed[k].id} - Remaining(doomed, k + 1);
      InterleaveIsDeleteThenInsert(rows - {doomed[k].id}, doomed, k + 1, steps[1..]);
    } else {
      var e := steps[0].e;
      InterleaveIsDeleteThenInsert(rows[e.id := e], doomed, k, steps[1..]);
      assert rows[e.id := e] - Remaining(doomed, k) == (rows - Remaining(doomed, k))[e.id := e];
    }
  }

  /** However the inserts of new ids fall between its DELETEs, the SQLite loop leaves the table of an
      atomic prune executed at its SELECT and followed by the inserts. */
  lemma {:induction false} LoopIsAtomicAtSelect(rows: Rows, cutoff: int, doomed: seq<BackupEntry>, steps: seq<Step>)
    requires Keyed(rows) && Listing(rows, cutoff, doomed) && Deletes(steps) == |doomed|
    requires InsertsNew(rows, steps)
    ensures Interleave(rows, doomed, 0, steps) == InsertAll(Pruned(rows, cutoff), steps)
  {
    assert doomed[0..] == doomed;
    InterleaveIsDeleteThenInsert(rows, doomed, 0, steps);
    assert rows - Remaining(doomed, 0) == Pruned(rows, cutoff);
  }

  predicate InsertsDoomed(steps: seq<Step>, cutoff: int) {
    exists i :: 0 <= i < |steps| && steps[i].Insert? && Doomed(steps[i].e, cutoff)
  }

  /** Each inserted id occurs once. */
  ghost predicate InsertsOnce(steps: seq<Step>) {
    forall i, j :: 0 <= i < j < |steps| && steps[i].Insert? && steps[j].Insert? ==> steps[i].e.id != steps[j].e.id
  }

  lemma {:induction false} PrunedInsertAll(rows: Rows, cutoff: int, steps: seq<Step>)
    requires !InsertsDoomed(steps, cutoff)
    requires InsertsOnce(steps) && InsertsNew(rows, steps)
    ensures Pruned(InsertAll(rows, steps), cutoff) == InsertAll(Pruned(rows, cutoff), steps)
    decreases steps
  {
    if steps != [] {
      assert forall i :: 0 <= i < |steps| - 1 ==> steps[1..][i] == steps[i + 1];
      if steps[0].Insert? {
        var e := steps[0].e;
        assert Pruned(rows[e.id := e], cutoff) == Pruned(rows, cutoff)[e.id := e];
        PrunedInsertAll(rows[e.id := e], cutoff, steps[1..]);
      } else {
        PrunedInsertAll(rows, cutoff, steps[1..]);
      }
    }
  }

  lemma {:induction false} InsertAllHas(rows: Rows, steps: seq<Step>, i: nat)
    requires i < |steps| && steps[i].Insert? && InsertsOnce(steps)
    ensures var e := steps[i].e; e.id in InsertAll(rows, steps) && InsertAll(rows, steps)[e.id] == e
    decreases steps
  {
    if i > 0 {
      var first := if steps[0].Insert? then rows[steps[0].e.id := steps[0].e] else rows;
      InsertAllHas(first, steps[1..], i - 1);
    } else {
      InsertAllKeeps(rows[steps[0].e.id := steps[0].e], steps[1..], steps[0].e.id);
    }
  }

  lemma {:induction false} InsertAllKeeps(rows: Rows, steps: seq<Step>, id: Uuid)
    requires id in rows && forall i :: 0 <= i < |steps| && steps[i].Insert? ==> steps[i].e.id != id
    ensures id in InsertAll(rows, steps) && InsertAll(rows, steps)[id] == rows[id]
    decreases steps
  {
    if steps != [] {
      InsertAllKeeps(if steps[0].Insert? then rows[steps[0].e.id := steps[0].e] else rows, steps[1..], id);
    }
  }

  /** The loop also equals an atomic prune executed after all the inserts exactly when none of the
      inserted rows is itself beyond the cutoff. */
  lemma {:induction false} LoopIsAtomicAtEndExactlyWhen(rows: Rows, cutoff: int, doomed: seq<BackupEntry>,
                                                        steps: seq<Step>)
    requires Keyed(rows) && Listing(rows, cutoff, doomed) && Deletes(steps) == |doomed| && InsertsOnce(steps)
    requires InsertsNew(rows, steps)
    ensures Interleave(rows, doomed, 0, steps) == Pruned(InsertAll(rows, steps), cutoff) <==>
            !InsertsDoomed(steps, cutoff)
  {
    LoopIsAtomicAtSelect(rows, cutoff, doomed, steps);
    if InsertsDoomed(steps, cutoff) {
      var i :| 0 <= i < |steps| && steps[i].Insert? && Doomed(steps[i].e, cutoff);
      InsertAllHas(rows, steps, i);
      InsertAllHas(Pruned(rows, cutoff), steps, i);
    } else {
      PrunedInsertAll(rows, cutoff, steps);
    }
  }

  predicate IsInserted(steps: seq<Step>, id: Uuid) {
    exists i :: 0 <= i < |steps| && steps[i].Insert? && steps[i].e.id == id
  }

  lemma {:induction false} InsertAllFrom(rows: Rows, steps: seq<Step>, id: Uuid)
    requires id in InsertAll(rows, steps)
    ensures id in rows || IsInserted(steps, id)
    decreases steps
  {
    if steps != [] {
      InsertAllFrom(if steps[0].Insert? then rows[steps[0].e.id := steps[0].e] else rows, steps[1..], id);
      if IsInserted(steps[1..], id) {
        var i :| 0 <= i < |steps[1..]| && steps[1..][i].Insert? && steps[1..][i].e.id == id;
        assert steps[i + 1].Insert? && steps[i + 1].e.id == id;
      }
    }
  }

  /** The table after the inserts: the old rows, and the inserted ones. */
  lemma InsertAllIs(rows: Rows, steps: seq<Step>)
    requires InsertsOnce(steps) && InsertsNew(rows, steps)
    ensures forall id :: id in rows ==> id in InsertAll(rows, steps) && InsertAll(rows, steps)[id] == rows[id]
    ensures forall i :: 0 <= i < |steps| && steps[i].Insert? ==>
              steps[i].e.id in InsertAll(rows, steps) && InsertAll(rows, steps)[steps[i].e.id] == steps[i].e
    ensures forall id :: id in InsertAll(rows, steps) ==> id in rows || IsInserted(steps, id)
  {
    forall id | id in rows ensures id in InsertAll(rows, steps) && InsertAll(rows, steps)[id] == rows[id] {
      InsertAllKeeps(rows, steps, id);
    }
    forall i | 0 <= i < |steps| && steps[i].Insert?
      ensures steps[i].e.id in InsertAll(rows, steps) && InsertAll(rows, steps)[steps[i].e.id] == steps[i].e
    {
      InsertAllHas(rows, steps, i);
    }
    forall id | id in InsertAll(rows, steps) ensures id in rows || IsInserted(steps, id) {
      InsertAllFrom(rows, steps, id);
    }
  }

  /** The loop reports the rows an atomic prune after all the inserts would report under the same condition. */
  lemma LoopReportsAsAtEndExactlyWhen(rows: Rows, cutoff: int, doomed: seq<BackupEntry>, steps: seq<Step>,
                                      gone: seq<BackupEntry>)
    requires Keyed(rows) && Listing(rows, cutoff, doomed) && InsertsOnce(steps) && InsertsNew(rows, steps)
    requires Listing(InsertAll(rows, steps), cutoff, gone)
    ensures Ids(gone) == Ids(doomed) <==> !InsertsDoomed(steps, cutoff)
  {
    var after := InsertAll(rows, steps);
    InsertAllIs(rows, steps);
    if InsertsDoomed(steps, cutoff) {
      var i :| 0 <= i < |steps| && steps[i].Insert? && Doomed(steps[i].e, cutoff);
      assert steps[i].e in gone && steps[i].e.id in Ids(gone);
      assert steps[i].e.id !in Ids(doomed);
    } else {
      forall id ensures id in Ids(gone) <==> id in Ids(doomed) {
        if id in Ids(gone) { assert id in rows && Doomed(rows[id], cutoff) && rows[id] in doomed; }
        if id in Ids(doomed) { assert after[id] in gone && after[id].id == id; }
      }
    }
  }

  // ----- against Postgres

  /** The ids `DELETE ... RETURNING` gives. */
  function PgGone(rows: Rows, cutoff: Time): set<Uuid> { set id | id in rows && PgDoomed(rows[id], cutoff) }

  /** Nothing in the table shares the microsecond of the cutoff before it, and no insert is beyond the cutoff. */
  ghost predicate StoresAlike(rows: Rows, cutoff: Time, steps: seq<Step>) {
    && (forall id :: id in rows ==> !SameMicrosecond(rows[id], cutoff))
    && (forall i :: 0 <= i < |steps| && steps[i].Insert? ==> !PgDoomed(steps[i].e, cutoff))
  }

  /** The SQLite loop with inserts between its DELETEs leaves the rows, and reports the ids, of the one
      Postgres statement executed after those inserts exactly when `StoresAlike`; for a cutoff that is a
      whole microsecond that is when none of the inserted rows is beyond it. */
  lemma LoopIsPostgresExactlyWhen(rows: Rows, cutoff: Time, doomed: seq<BackupEntry>, steps: seq<Step>)
    requires Keyed(rows) && Listing(rows, cutoff, doomed) && Deletes(steps) == |doomed|
    requires InsertsOnce(steps) && InsertsNew(rows, steps)
    ensures Interleave(rows, doomed, 0, steps) == PgPruned(InsertAll(rows, steps), cutoff) <==>
            StoresAlike(rows, cutoff, steps)
    ensures Ids(doomed) == PgGone(InsertAll(rows, steps), cutoff) <==> StoresAlike(rows, cutoff, steps)
    ensures cutoff % 1_000 == 0 ==> (StoresAlike(rows, cutoff, steps) <==> !InsertsDoomed(steps, cutoff))
  {
    LoopIsAtomicAtSelect(rows, cutoff, doomed, steps);
    RowsAsPostgres(rows, cutoff, steps);
    IdsAsPostgres(rows, cutoff, doomed, steps);
    if cutoff % 1_000 == 0 { WholeMicrosAlike(rows, cutoff, steps); }
  }

  lemma RowsAsPostgres(rows: Rows, cutoff: Time, steps: seq<Step>)
    requires InsertsOnce(steps) && InsertsNew(rows, steps)
    ensures InsertAll(Pruned(rows, cutoff), steps) == PgPruned(InsertAll(rows, steps), cutoff) <==>
            StoresAlike(rows, cutoff, steps)
  {
    var loop, pg := InsertAll(Pruned(rows, cutoff), steps), PgPruned(InsertAll(rows, steps), cutoff);
    InsertAllIs(rows, steps);
    InsertAllIs(Pruned(rows, cutoff), steps);
    forall id | id in rows ensures (id in loop <==> id in pg) <==> !SameMicrosecond(rows[id], cutoff) {
      MicrosOrder(rows[id].createdAt, cutoff);
    }
    forall i | 0 <= i < |steps| && steps[i].Insert?
      ensures steps[i].e.id in loop && (steps[i].e.id in pg <==> !PgDoomed(steps[i].e, cutoff))
    {
    }
    if StoresAlike(rows, cutoff, steps) {
      forall id ensures id in loop <==> id in pg {
        if IsInserted(steps, id) { var i :| 0 <= i < |steps| && steps[i].Insert? && steps[i].e.id == id; }
      }
      assert loop == pg;
    }
  }

  lemma IdsAsPostgres(rows: Rows, cutoff: Time, doomed: seq<BackupEntry>, steps: seq<Step>)
    requires Keyed(rows) && Listing(rows, cutoff, doomed) && InsertsOnce(steps) && InsertsNew(rows, steps)
    ensures Ids(doomed) == PgGone(InsertAll(rows, steps), cutoff) <==> StoresAlike(rows, cutoff, steps)
  {
    var loop, pg := Ids(doomed), PgGone(InsertAll(rows, steps), cutoff);
    InsertAllIs(rows, steps);
    forall id | id in rows
      ensures id in loop <==> Doomed(rows[id], cutoff)
      ensures (id in loop <==> id in pg) <==> !SameMicrosecond(rows[id], cutoff)
    {
      MicrosOrder(rows[id].createdAt, cutoff);
      if Doomed(rows[id], cutoff) { assert rows[id] in doomed && rows[id].id == id; }
    }
    assert forall id :: id in loop ==> id in rows;
    if StoresAlike(rows, cutoff, steps) {
      forall id ensures id in loop <==> id in pg {
        if id !in rows && IsInserted(steps, id) {
          var i :| 0 <= i < |steps| && steps[i].Insert? && steps[i].e.id == id;
        }
      }
    } else if i :| 0 <= i < |steps| && steps[i].Insert? && PgDoomed(steps[i].e, cutoff) {
      assert steps[i].e.id in pg;
    }
  }

  lemma WholeMicrosAlike(rows: Rows, cutoff: Time, steps: seq<Step>)
    requires cutoff % 1_000 == 0
    ensures StoresAlike(rows, cutoff, steps) <==> !InsertsDoomed(steps, cutoff)
  {
    forall t: Time ensures ToMicros(t) < ToMicros(cutoff) <==> t < cutoff { MicrosOrder(t, cutoff); }
  }
}
