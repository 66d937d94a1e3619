/** The `backups` table as both stores promise it to the repository: rows by
    primary key, the query for the last created hash, and retention pruning. */
module Table {
  import opened ByteText
  import opened Backup

  type Rows = map<Uuid, BackupEntry>

  predicate Keyed(rows: Rows) { forall id :: id in rows ==> rows[id].id == id }

  predicate IsCreated(rows: Rows, id: Uuid) { id in rows && rows[id].status.Created? }

  ghost predicate Latest(rows: Rows, id: Uuid) {
    IsCreated(rows, id) && forall other :: IsCreated(rows, other) ==> rows[other].createdAt <= rows[id].createdAt
  }

  ghost predicate NoCreated(rows: Rows) { forall id :: !IsCreated(rows, id) }

  function CreatedRows(rows: Rows): Rows { map id | id in rows && rows[id].status.Created? :: rows[id] }

  /** `SELECT content_hash ... WHERE status = 'created' ORDER BY created_at DESC LIMIT 1`. */
  ghost function LastCreatedHash(rows: Rows): Option<string> { LatestHash(CreatedRows(rows)) }

  ghost function LatestHash(created: Rows): Option<string> {
    if exists id :: Latest(created, id) then
      var id :| Latest(created, id);
      Some(created[id].contentHash)
    else None
  }

  predicate Doomed(e: BackupEntry, cutoff: int) { e.status.Created? && e.createdAt < cutoff }

  /** `DELETE ... WHERE status = 'created' AND created_at < cutoff`. */
  function Pruned(rows: Rows, cutoff: int): Rows {
    map id | id in rows && !Doomed(rows[id], cutoff) :: rows[id]
  }

  /** The rows a prune selects, each once, in whatever order the query returns them. */
  ghost predicate Listing(rows: Rows, cutoff: int, doomed: seq<BackupEntry>) {
    && (forall i :: 0 <= i < |doomed| ==>
          doomed[i].id in rows && rows[doomed[i].id] == doomed[i] && Doomed(doomed[i], cutoff))
    && (forall i, j :: 0 <= i < j < |doomed| ==> doomed[i].id != doomed[j].id)
    && (forall id :: id in rows && Doomed(rows[id], cutoff) ==> rows[id] in doomed)
  }

  function CreatedIds(rows: Rows): set<Uuid> { set id | id in rows && rows[id].status.Created? }

  /** A table with a created row has a latest one. */
  lemma {:induction false} LatestExists(rows: Rows)
    requires !NoCreated(rows)
    ensures exists id :: Latest(rows, id)
    decreases |rows|
  {
    var x :| IsCreated(rows, x);
    var rest := rows - {x};
    assert |rest| < |rows| by { assert rest.Keys == rows.Keys - {x}; }
    assert forall id :: IsCreated(rows, id) <==> id == x || IsCreated(rest, id);
    if NoCreated(rest) {
      assert Latest(rows, x);
    } else {
      LatestExists(rest);
      var y :| Latest(rest, y);
      if rows[y].createdAt <= rows[x].createdAt {
        assert Latest(rows, x);
      } else {
        assert Latest(rows, y);
      }
    }
  }

  lemma LatestAmongCreated(rows: Rows)
    ensures forall id :: Latest(CreatedRows(rows), id) <==> Latest(rows, id)
  {
    assert forall id :: IsCreated(CreatedRows(rows), id) <==> IsCreated(rows, id);
  }

  /** The query answers nothing exactly on a table without created rows. */
  lemma NoHashMeansNoCreated(rows: Rows)
    ensures LastCreatedHash(rows).None? <==> NoCreated(rows)
  {
    LatestAmongCreated(rows);
    if !NoCreated(rows) { LatestExists(rows); }
  }

  lemma LatestIsLast(rows: Rows, id: Uuid)
    requires Latest(rows, id)
    requires forall other :: IsCreated(rows, other) && other != id ==> rows[other].createdAt < rows[id].createdAt
    ensures LastCreatedHash(rows) == Some(rows[id].contentHash)
  {
    LatestAmongCreated(rows);
  }

  lemma HashHasRow(rows: Rows, hash: string) returns (id: Uuid)
    requires LastCreatedHash(rows) == Some(hash)
    ensures Latest(rows, id) && rows[id].contentHash == hash
  {
    LatestAmongCreated(rows);
    var created := CreatedRows(rows);
    id :| Latest(created, id) && created[id].contentHash == hash;
  }

  /** Pruning twice is pruning once at the later cutoff, in either order. */
  lemma PruneTwice(rows: Rows, c: int, d: int)
    ensures Pruned(Pruned(rows, c), d) == Pruned(rows, if c < d then d else c)
    ensures Pruned(Pruned(rows, c), d) == Pruned(Pruned(rows, d), c)
  {
  }

  ghost function Ids(es: seq<BackupEntry>): set<Uuid> { set e | e in es :: e.id }

  lemma {:induction false} DistinctIds(es: seq<BackupEntry>)
    requires forall i, j :: 0 <= i < j < |es| ==> es[i].id != es[j].id
    ensures |Ids(es)| == |es|
  {
    if es != [] {
      var last := es[|es| - 1];
      var front := es[..|es| - 1];
      DistinctIds(front);
      var ids := Ids(front);
      assert Ids(es) == ids + {last.id} by { assert es == front + [last]; }
      assert last.id !in ids;
    } else {
      assert Ids(es) == {};
    }
  }

  lemma {:induction false} ListEach(rows: Rows, ids: set<Uuid>) returns (es: seq<BackupEntry>)
    requires Keyed(rows) && ids <= rows.Keys
    ensures forall i :: 0 <= i < |es| ==> es[i].id in ids && rows[es[i].id] == es[i]
    ensures forall i, j :: 0 <= i < j < |es| ==> es[i].id != es[j].id
    ensures forall id :: id in ids ==> rows[id] in es
    decreases |ids|
  {
    es := [];
    if ids != {} {
      var id :| id in ids;
      var rest := ListEach(rows, ids - {id});
      es := rest + [rows[id]];
    }
  }

  /** Whatever is in the table, the query of a prune has an answer. */
  lemma ListingExists(rows: Rows, cutoff: int) returns (doomed: seq<BackupEntry>)
    requires Keyed(rows)
    ensures Listing(rows, cutoff, doomed)
  {
    doomed := ListEach(rows, set id | id in rows && Doomed(rows[id], cutoff));
  }

  lemma IdsNext(es: seq<BackupEntry>, i: nat)
    requires i < |es|
    ensures Ids(es[..i + 1]) == Ids(es[..i]) + {es[i].id}
  {
    assert es[..i + 1] == es[..i] + [es[i]];
  }

  ghost function Names(es: seq<BackupEntry>): set<string> { set e | e in es :: e.timestampDir }

  lemma NamesNext(es: seq<BackupEntry>, i: nat)
    requires i < |es|
    ensures Names(es[..i + 1]) == Names(es[..i]) + {es[i].timestampDir}
    ensures Names(es[i..]) == {es[i].timestampDir} + Names(es[i + 1..])
  {
    assert es[..i + 1] == es[..i] + [es[i]];
    assert es[i..] == [es[i]] + es[i + 1..];
  }

  lemma ListedAreDeleted(rows: Rows, cutoff: int, doomed: seq<BackupEntry>)
    requires Keyed(rows) && Listing(rows, cutoff, doomed)
    ensures rows - Ids(doomed) == Pruned(rows, cutoff)
  {
  }

  /** What a prune deletes plus what it leaves is what there was. */
  lemma PruneConserves(rows: Rows, cutoff: int, doomed: seq<BackupEntry>)
    requires Keyed(rows) && Listing(rows, cutoff, doomed)
    ensures |CreatedIds(Pruned(rows, cutoff))| + |doomed| == |CreatedIds(rows)|
  {
    var ids := Ids(doomed);
    DistinctIds(doomed);
    assert CreatedIds(Pruned(rows, cutoff)) == CreatedIds(rows) - ids;
    assert ids <= CreatedIds(rows);
  }

  /** Pruning leaves no backup at all exactly when the latest one is beyond retention. */
  lemma PruneEmptiesExactlyWhen(rows: Rows, cutoff: int, latest: Uuid)
    requires Latest(rows, latest)
    ensures NoCreated(Pruned(rows, cutoff)) <==> rows[latest].createdAt < cutoff
  {
    var rest := Pruned(rows, cutoff);
    assert forall id :: IsCreated(rest, id) <==> IsCreated(rows, id) && cutoff <= rows[id].createdAt;
  }
}
