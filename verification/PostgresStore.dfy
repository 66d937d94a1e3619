/** The Postgres store, and the two stores side by side. */
module PostgresStore {
  import opened ByteText
  import opened Calendar
  import opened Backup
  import opened Table
  import opened Codec

  ghost predicate Represents(json: Json, table: map<Uuid, PostgresRow>, contents: Rows) {
    && table.Keys == contents.Keys
    && forall id :: id in contents ==> contents[id].id == id && table[id] == ToPostgres(json, contents[id])
  }

  class PostgresStore {
    const json: Json
    var table: map<Uuid, PostgresRow>
    ghost var contents: Rows

    ghost predicate Valid()
      reads this
    {
      Faithful(json) && Represents(json, table, contents)
    }

    constructor (json: Json)
      requires Faithful(json)
      ensures Valid() && contents == map[]
    {
      this.json := json;
      table, contents := map[], map[];
    }

    method InsertEntry(e: BackupEntry) returns (ok: bool)
      requires Valid()
      modifies this
      ensures Valid() && ok == (e.id !in old(contents))
      ensures contents == if ok then old(contents)[e.id := e] else old(contents)
    {
      ok := e.id !in table;
      if ok {
        table := table[e.id := ToPostgres(json, e)];
        contents := contents[e.id := e];
      }
    }

    method GetBackup(id: Uuid) returns (e: Option<BackupEntry>)
      requires Valid()
      ensures e == if id in contents then Some(CutToMicros(contents[id])) else None
    {
      if id !in table { return None; }
      PostgresRoundTrip(json, contents[id]);
      e := FromPostgres(json, table[id]);
    }

    /** `DELETE ... RETURNING`, one statement on the microsecond column. */
    method PruneCreatedBefore(cutoff: Time) returns (gone: map<Uuid, string>)
      requires Valid()
      modifies this
      ensures Valid()
      ensures contents == PgPruned(old(contents), cutoff)
      ensures gone == map id | id in old(contents) && PgDoomed(old(contents)[id], cutoff)
                        :: old(contents)[id].timestampDir
    {
      gone := map id | id in table && table[id].status == "created" && table[id].createdAtMicros < ToMicros(cutoff)
                :: table[id].timestampDir;
      table := map id | id in table && !(table[id].status == "created" && table[id].createdAtMicros < ToMicros(cutoff))
                 :: table[id];
      contents := PgPruned(contents, cutoff);
    }
  }

  predicate PgDoomed(e: BackupEntry, cutoff: Time) { e.status.Created? && ToMicros(e.createdAt) < ToMicros(cutoff) }

  function PgPruned(rows: Rows, cutoff: Time): Rows {
    map id | id in rows && !PgDoomed(rows[id], cutoff) :: rows[id]
  }

  predicate SameMicrosecond(e: BackupEntry, cutoff: Time) {
    e.status.Created? && e.createdAt < cutoff && ToMicros(e.createdAt) == ToMicros(cutoff)
  }

  /** Both stores leave the same rows exactly when no created row falls into the microsecond of the
      cutoff before it; in particular whenever the cutoff is a whole microsecond. */
  lemma StoresPruneAlikeExactlyWhen(rows: Rows, cutoff: Time)
    ensures PgPruned(rows, cutoff) == Pruned(rows, cutoff) <==>
            forall id :: id in rows ==> !SameMicrosecond(rows[id], cutoff)
    ensures cutoff % 1_000 == 0 ==> PgPruned(rows, cutoff) == Pruned(rows, cutoff)
  {
    var pg, sqlite := PgPruned(rows, cutoff), Pruned(rows, cutoff);
    forall id | id in rows ensures (id in pg <==> id in sqlite) <==> !SameMicrosecond(rows[id], cutoff) {
      MicrosOrder(rows[id].createdAt, cutoff);
    }
    if id :| id in rows && SameMicrosecond(rows[id], cutoff) {
      assert id in pg && id !in sqlite;
    }
  }

  lemma MicrosOrder(t: Time, u: Time)
    ensures ToMicros(t) < ToMicros(u) ==> t < u
    ensures t < u ==> ToMicros(t) <= ToMicros(u)
    ensures u % 1_000 == 0 && t < u ==> ToMicros(t) < ToMicros(u)
  {
  }

  /** Comparing microseconds is comparing with the start of the cutoff's microsecond, which is how the
      state machine of the daemon has it. */
  lemma PostgresPruneIsAtWholeMicros(rows: Rows, cutoff: Time)
    ensures PgPruned(rows, cutoff) == Pruned(rows, WholeMicros(cutoff))
  {
    forall id | id in rows ensures PgDoomed(rows[id], cutoff) <==> Doomed(rows[id], WholeMicros(cutoff)) {
      MicrosBefore(rows[id].createdAt, cutoff);
    }
  }

  lemma MicrosBefore(t: Time, cutoff: Time)
    ensures ToMicros(t) < ToMicros(cutoff) <==> t < WholeMicros(cutoff)
  {
  }
}
