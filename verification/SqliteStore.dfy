/** The SQLite store: text rows by text id, compared as bytes. */
module SqliteStore {
  import opened ByteText
  import opened Calendar
  import opened Rfc3339
  import opened Backup
  import opened Table
  import opened Codec

  predicate RowCreated(row: SqliteRow) { row.status == "created" }

  /** `WHERE status = 'created' AND created_at < ?1`. */
  predicate RowDoomed(x: Texts, row: SqliteRow, cutoff: string) { RowCreated(row) && x.less(row.createdAt, cutoff) }

  /** The SQL conditions on text say of a written row what is meant of its entry. */
  lemma TextMeansTime(x: Texts, e: BackupEntry, cutoff: Time)
    requires Sound(x) && Storable(e) && cutoff < END
    ensures RowDoomed(x, x.encode(e), x.stamp(cutoff)) <==> Doomed(e, cutoff)
  {
    assert Columns(x, e, x.encode(e));
  }

  lemma TextOrderOfRows(x: Texts, e: BackupEntry, f: BackupEntry)
    requires Sound(x) && Storable(e) && Storable(f)
    ensures x.less(x.encode(e).createdAt, x.encode(f).createdAt) <==> e.createdAt < f.createdAt
    ensures RowCreated(x.encode(e)) <==> e.status.Created?
  {
    assert Columns(x, e, x.encode(e)) && Columns(x, f, x.encode(f));
  }

  /** The text table holds exactly the entries of `contents`. */
  ghost predicate Represents(x: Texts, table: map<string, SqliteRow>, contents: Rows) {
    && (forall id :: id in contents ==> contents[id].id == id && Storable(contents[id]))
    && (forall id :: id in contents ==> x.key(id) in table && table[x.key(id)] == x.encode(contents[id]))
    && (forall k :: k in table ==> x.uuid(k) in contents && x.key(x.uuid(k)) == k)
  }

  lemma InsertRepresents(x: Texts, table: map<string, SqliteRow>, contents: Rows, e: BackupEntry)
    requires Sound(x) && Represents(x, table, contents) && Storable(e)
    ensures x.key(e.id) in table <==> e.id in contents
    ensures e.id !in contents ==> Represents(x, table[x.key(e.id) := x.encode(e)], contents[e.id := e])
  {
    assert x.uuid(x.key(e.id)) == e.id;
    assert forall id :: id in contents ==> x.uuid(x.key(id)) == id;
  }

  lemma DeleteRepresents(x: Texts, table: map<string, SqliteRow>, contents: Rows, id: Uuid)
    requires Sound(x) && Represents(x, table, contents) && id in contents
    ensures Represents(x, table - {x.key(id)}, contents - {id})
  {
    assert forall i :: i in contents ==> x.uuid(x.key(i)) == i;
  }

  lemma RowOf(x: Texts, table: map<string, SqliteRow>, contents: Rows, k: string)
    requires Represents(x, table, contents) && k in table
    ensures x.uuid(k) in contents && Storable(contents[x.uuid(k)]) && contents[x.uuid(k)].id == x.uuid(k)
    ensures table[k] == x.encode(contents[x.uuid(k)]) && x.key(x.uuid(k)) == k
  {
  }

  class SqliteStore {
    const texts: Texts
    var table: map<string, SqliteRow>
    ghost var contents: Rows

    ghost predicate Valid()
      reads this
    {
      Sound(texts) && Represents(texts, table, contents)
    }

    constructor (texts: Texts)
      requires Sound(texts)
      ensures Valid() && contents == map[]
    {
      this.texts := texts;
      table, contents := map[], map[];
    }

    /** `insert_entry`: fails on a duplicate primary key. */
    method InsertEntry(e: BackupEntry) returns (ok: bool)
      requires Valid() && Storable(e)
      modifies this
      ensures Valid() && ok == (e.id !in old(contents))
      ensures contents == if ok then old(contents)[e.id := e] else old(contents)
    {
      InsertRepresents(texts, table, contents, e);
      ok := texts.key(e.id) !in table;
      if ok {
        table := table[texts.key(e.id) := texts.encode(e)];
        contents := contents[e.id := e];
      }
    }

    /** `get_backup`. */
    method GetBackup(id: Uuid) returns (e: Option<BackupEntry>)
      requires Valid() && ValidUuid(id)
      ensures e == if id in contents then Some(contents[id]) else None
    {
      var k := texts.key(id);
      assert texts.uuid(k) == id;
      if k !in table { return None; }
      RowOf(texts, table, contents, k);
      e := texts.decode(table[k]);
    }

    /** `last_created_hash`: the hash of a created row with the greatest text. */
    method LastHash() returns (hash: Option<string>)
      requires Valid()
      ensures hash.None? <==> NoCreated(contents)
      ensures hash.Some? ==> exists id :: Latest(contents, id) && contents[id].contentHash == hash.value
    {
      var todo := table.Keys;
      ghost var seen: Rows := map[];
      var best: Option<SqliteRow> := None;
      ghost var latest := Uuid([]);
      while todo != {}
        invariant todo <= table.Keys && Seen(texts, contents, seen, todo)
        invariant if best.None? then NoCreated(seen)
                  else Latest(seen, latest) && best.value == texts.encode(seen[latest])
        decreases |todo|
      {
        var k :| k in todo;
        SeenStep(texts, table, contents, seen, todo, k);
        ghost var e := contents[texts.uuid(k)];
        TextOrderOfRows(texts, e, e);
        if best.Some? { TextOrderOfRows(texts, contents[latest], e); }
        LatestStep(seen, latest, e);
        todo, seen := todo - {k}, seen[e.id := e];
        if RowCreated(table[k]) && (best.None? || texts.less(best.value.createdAt, table[k].createdAt)) {
          best, latest := Some(table[k]), e.id;
        }
      }
      AllSeen(texts, contents, seen);
      if best.None? { return None; }
      assert Columns(texts, contents[latest], best.value);
      hash := Some(best.value.contentHash);
    }

    method AllEntries() returns (es: seq<BackupEntry>)
      requires Valid()
      ensures Lists(contents, es)
    {
      var todo := table.Keys;
      ghost var seen: Rows := map[];
      es := [];
      while todo != {}
        invariant todo <= table.Keys && Seen(texts, contents, seen, todo) && Lists(seen, es)
        decreases |todo|
      {
        var k :| k in todo;
        var e := EntryAt(k, todo, seen);
        ListsStep(seen, es, e);
        es := es + [e];
        todo, seen := todo - {k}, seen[e.id := e];
      }
      AllSeen(texts, contents, seen);
    }

    method EntryAt(k: string, ghost todo: set<string>, ghost seen: Rows) returns (e: BackupEntry)
      requires Valid() && Seen(texts, contents, seen, todo) && k in todo && k in table
      ensures e.id in contents && contents[e.id] == e && e.id !in seen
      ensures Seen(texts, contents, seen[e.id := e], todo - {k})
    {
      SeenStep(texts, table, contents, seen, todo, k);
      e := texts.decode(table[k]).value;
    }

    /** `list_backups`: all entries, newest first. */
    method ListBackups() returns (es: seq<BackupEntry>)
      requires Valid()
      ensures Lists(contents, es) && NewestFirst(es)
    {
      es := AllEntries();
      OrderByCorrect(texts, contents, es);
      es := OrderByText(texts, es);
    }

    /** The SELECT of `prune_created_before`. */
    method SelectDoomed(cutoff: Time) returns (pairs: seq<(string, string)>, ghost doomed: seq<BackupEntry>)
      requires Valid() && cutoff < END
      ensures Listing(contents, cutoff, doomed) && Reports(texts, pairs, doomed)
    {
      var limit := texts.stamp(cutoff);
      var todo := table.Keys;
      ghost var seen: Rows := map[];
      pairs, doomed := [], [];
      while todo != {}
        invariant todo <= table.Keys && Seen(texts, contents, seen, todo)
        invariant Listing(seen, cutoff, doomed) && Reports(texts, pairs, doomed)
        decreases |todo|
      {
        var k :| k in todo;
        SeenStep(texts, table, contents, seen, todo, k);
        ghost var e := contents[texts.uuid(k)];
        TextMeansTime(texts, e, cutoff);
        ListingStep(seen, cutoff, doomed, e);
        todo, seen := todo - {k}, seen[e.id := e];
        if RowDoomed(texts, table[k], limit) {
          ReportsStep(texts, pairs, doomed, e);
          pairs := pairs + [(table[k].id, table[k].timestampDir)];
          doomed := doomed + [e];
        }
      }
      AllSeen(texts, contents, seen);
    }

    /** `DELETE FROM backups WHERE id = ?1`. */
    method DeleteRow(key: string, ghost id: Uuid)
      requires Valid() && id in contents && key == texts.key(id)
      modifies this
      ensures Valid() && contents == old(contents) - {id}
    {
      DeleteRepresents(texts, table, contents, id);
      table := table - {key};
      contents := contents - {id};
    }

    /** `prune_created_before`: select, then delete one by one. */
    method PruneCreatedBefore(cutoff: Time) returns (pairs: seq<(string, string)>, ghost doomed: seq<BackupEntry>)
      requires Valid() && cutoff < END
      modifies this
      ensures Valid() && contents == Pruned(old(contents), cutoff)
      ensures Listing(old(contents), cutoff, doomed) && Reports(texts, pairs, doomed)
    {
      pairs, doomed := SelectDoomed(cutoff);
      var i := 0;
      while i < |pairs|
        invariant 0 <= i <= |pairs| && Valid()
        invariant contents == old(contents) - Ids(doomed[..i])
      {
        IdsStep(old(contents), cutoff, doomed, i);
        DeleteRow(pairs[i].0, doomed[i].id);
        i := i + 1;
      }
      assert doomed[..i] == doomed;
      ListedAreDeleted(old(contents), cutoff, doomed);
    }
  }

  // ----- steps of the loops

  /** The part of the table whose keys have been visited. */
  ghost predicate Seen(x: Texts, contents: Rows, seen: Rows, todo: set<string>) {
    && (forall id :: id in contents ==> (id in seen <==> x.key(id) !in todo))
    && (forall id :: id in seen ==> id in contents && seen[id] == contents[id])
  }

  lemma SeenStep(x: Texts, table: map<string, SqliteRow>, contents: Rows, seen: Rows, todo: set<string>, k: string)
    requires Sound(x) && Represents(x, table, contents) && Seen(x, contents, seen, todo) && k in todo && k in table
    ensures
      var id := x.uuid(k);
      && id in contents && id !in seen && contents[id].id == id && Storable(contents[id])
      && table[k] == x.encode(contents[id]) && Columns(x, contents[id], table[k])
      && x.decode(table[k]) == Some(contents[id])
      && Seen(x, contents, seen[id := contents[id]], todo - {k})
  {
    RowOf(x, table, contents, k);
    forall id | id in contents && x.key(id) == k ensures id == x.uuid(k) { assert x.uuid(x.key(id)) == id; }
  }

  lemma AllSeen(x: Texts, contents: Rows, seen: Rows)
    requires Seen(x, contents, seen, {})
    ensures seen == contents
  {
  }

  /** `es` is the rows, each once. */
  ghost predicate Lists(rows: Rows, es: seq<BackupEntry>) {
    && Distinct(es)
    && (forall e :: e in es ==> e.id in rows && rows[e.id] == e)
    && (forall id :: id in rows ==> rows[id] in es)
  }

  lemma ListsStep(rows: Rows, es: seq<BackupEntry>, e: BackupEntry)
    requires Lists(rows, es) && e.id !in rows
    ensures Lists(rows[e.id := e], es + [e])
  {
  }

  lemma ListingStep(rows: Rows, cutoff: int, doomed: seq<BackupEntry>, e: BackupEntry)
    requires Listing(rows, cutoff, doomed) && e.id !in rows
    ensures Listing(rows[e.id := e], cutoff, if Doomed(e, cutoff) then doomed + [e] else doomed)
  {
  }

  /** The latest of one row more. */
  lemma LatestStep(rows: Rows, latest: Uuid, e: BackupEntry)
    requires e.id !in rows
    ensures
      var rows' := rows[e.id := e];
      && (NoCreated(rows) && e.status.Skipped? ==> NoCreated(rows'))
      && (NoCreated(rows) && e.status.Created? ==> Latest(rows', e.id))
      && (Latest(rows, latest) && (e.status.Skipped? || e.createdAt <= rows[latest].createdAt) ==>
            Latest(rows', latest))
      && (Latest(rows, latest) && e.status.Created? && rows[latest].createdAt < e.createdAt ==> Latest(rows', e.id))
  {
    var rows' := rows[e.id := e];
    assert rows'[e.id] == e;
    forall id ensures IsCreated(rows', id) <==> IsCreated(rows, id) || (id == e.id && e.status.Created?) {
      if id != e.id { assert id in rows' <==> id in rows; }
    }
  }

  lemma IdsStep(rows: Rows, cutoff: int, doomed: seq<BackupEntry>, i: nat)
    requires Listing(rows, cutoff, doomed) && i < |doomed|
    ensures doomed[i].id in rows - Ids(doomed[..i])
    ensures rows - Ids(doomed[..i + 1]) == rows - Ids(doomed[..i]) - {doomed[i].id}
  {
    IdsNext(doomed, i);
  }

  /** The (id, directory) pairs returned for the deleted rows. */
  ghost predicate Reports(x: Texts, pairs: seq<(string, string)>, doomed: seq<BackupEntry>) {
    && |pairs| == |doomed|
    && forall i :: 0 <= i < |doomed| ==>
         pairs[i] == (x.key(doomed[i].id), doomed[i].timestampDir)
  }

  lemma ReportsStep(x: Texts, pairs: seq<(string, string)>, doomed: seq<BackupEntry>, e: BackupEntry)
    requires Reports(x, pairs, doomed)
    ensures Reports(x, pairs + [(x.key(e.id), e.timestampDir)], doomed + [e])
  {
  }

  // ----- ORDER BY created_at DESC

  ghost predicate Distinct(es: seq<BackupEntry>) { forall i, j :: 0 <= i < j < |es| ==> es[i].id != es[j].id }

  ghost predicate NewestFirst(es: seq<BackupEntry>) {
    |es| <= 1 || (es[1].createdAt <= es[0].createdAt && NewestFirst(es[1..]))
  }

  function InsertByText(x: Texts, e: BackupEntry, es: seq<BackupEntry>): seq<BackupEntry> {
    if es == [] || x.less(x.stamp(es[0].createdAt), x.stamp(e.createdAt)) then [e] + es
    else [es[0]] + InsertByText(x, e, es[1..])
  }

  function OrderByText(x: Texts, es: seq<BackupEntry>): seq<BackupEntry> {
    if es == [] then [] else InsertByText(x, es[0], OrderByText(x, es[1..]))
  }

  lemma {:induction false} InsertByTextSorts(x: Texts, e: BackupEntry, es: seq<BackupEntry>)
    requires Sound(x) && e.createdAt < END && NewestFirst(es) && forall f :: f in es ==> f.createdAt < END
    ensures NewestFirst(InsertByText(x, e, es))
    ensures InsertByText(x, e, es)[0] == (if es == [] || es[0].createdAt < e.createdAt then e else es[0])
  {
    if es != [] {
      assert x.less(x.stamp(es[0].createdAt), x.stamp(e.createdAt)) <==> es[0].createdAt < e.createdAt;
      var r := InsertByText(x, e, es);
      if es[0].createdAt < e.createdAt {
        assert r == [e] + es && r[1..] == es;
      } else {
        InsertByTextSorts(x, e, es[1..]);
        assert r[1..] == InsertByText(x, e, es[1..]);
      }
    }
  }

  lemma {:induction false} InsertByTextKeeps(x: Texts, e: BackupEntry, es: seq<BackupEntry>)
    ensures multiset(InsertByText(x, e, es)) == multiset([e] + es)
  {
    if es != [] {
      assert es == [es[0]] + es[1..];
      InsertByTextKeeps(x, e, es[1..]);
    }
  }

  lemma {:induction false} OrderByTextKeeps(x: Texts, es: seq<BackupEntry>)
    ensures multiset(OrderByText(x, es)) == multiset(es)
  {
    if es != [] {
      OrderByTextKeeps(x, es[1..]);
      InsertByTextKeeps(x, es[0], OrderByText(x, es[1..]));
      assert es == [es[0]] + es[1..];
    }
  }

  lemma {:induction false} OrderByTextSorts(x: Texts, es: seq<BackupEntry>)
    requires Sound(x) && forall f :: f in es ==> f.createdAt < END
    ensures NewestFirst(OrderByText(x, es))
  {
    if es != [] {
      OrderByTextSorts(x, es[1..]);
      SameElements(x, es[1..]);
      InsertByTextSorts(x, es[0], OrderByText(x, es[1..]));
    }
  }

  lemma SameElements(x: Texts, es: seq<BackupEntry>)
    ensures forall e :: e in OrderByText(x, es) <==> e in es
  {
    OrderByTextKeeps(x, es);
    forall e ensures e in OrderByText(x, es) <==> e in es {
      assert e in multiset(OrderByText(x, es)) <==> e in multiset(es);
    }
  }

  lemma {:induction false} DistinctByMultiset(es: seq<BackupEntry>, fs: seq<BackupEntry>)
    requires Distinct(es) && multiset(es) == multiset(fs)
    ensures Distinct(fs)
  {
    forall i, j | 0 <= i < j < |fs| ensures fs[i].id != fs[j].id {
      assert fs[i] in multiset(es) && fs[j] in multiset(es);
      var a :| 0 <= a < |es| && es[a] == fs[i];
      OnceOnly(es, a);
      TwiceAtLeast(fs, i, j);
    }
  }

  lemma TwiceAtLeast(fs: seq<BackupEntry>, i: nat, j: nat)
    requires i < j < |fs|
    ensures fs[i] == fs[j] ==> multiset(fs)[fs[i]] >= 2
  {
    assert fs == fs[..i] + [fs[i]] + fs[i + 1..j] + [fs[j]] + fs[j + 1..];
  }

  lemma OnceOnly(es: seq<BackupEntry>, a: nat)
    requires Distinct(es) && a < |es|
    ensures multiset(es)[es[a]] == 1
  {
    assert es == es[..a] + [es[a]] + es[a + 1..];
    assert es[a] !in es[..a] && es[a] !in es[a + 1..];
  }

  /** ORDER BY on the text gives every row once, newest first. */
  lemma OrderByCorrect(x: Texts, rows: Rows, es: seq<BackupEntry>)
    requires Sound(x) && Lists(rows, es) && forall id :: id in rows ==> rows[id].createdAt < END
    ensures Lists(rows, OrderByText(x, es)) && NewestFirst(OrderByText(x, es))
  {
    OrderByTextKeeps(x, es);
    OrderByTextSorts(x, es);
    DistinctByMultiset(es, OrderByText(x, es));
    SameElements(x, es);
  }
}
