/** The repository and the daemon around it as the object the source runs, one I/O
    call after the other.

    The fields are the disk, the table, the rollback gate and the collection on
    AnkiWeb.  A ghost copy of the daemon's state machine follows every call, so each
    method is proved to be a stretch of a run of that machine, and the theorems
    about all runs apply to the object.  Faults are chosen arbitrarily at every
    call; times and UUIDs come from outside. */
module Repository {
  import opened ByteText
  import opened Calendar
  import opened Rfc3339
  import opened Backup
  import opened Table
  import opened PointerFile
  import opened Scheduler
  import opened Daemon
  import opened DaemonInvariant
  import opened DaemonTheorems

  datatype BackupPayload = BackupPayload(bytes: Bytes, sourceRevision: Option<string>, syncDurationMs: Option<int>)

  datatype Outcome = NewBackup(entry: BackupEntry) | NoChange(entry: BackupEntry) | Error

  datatype Result<+T> = Success(value: T) | Failure

  function RanOf(r: Outcome): Ran {
    match r
    case NewBackup(e) => Ok(e.contentHash, e.createdAt)
    case NoChange(e) => Ok(e.contentHash, e.createdAt)
    case Error => Daemon.Failed
  }

  const NO_RESIDUE := Residue(Uuid([]), [], false, BackupDir(None, None), 0)
  const NO_PICK := Pick(Uuid([]), [], None, None)

  class BackupDaemon {
    const env: Env
    var rows: Rows
    var dirs: map<string, BackupDir>
    var files: Files
    var events: seq<Uuid>
    var clock: Time
    var gate: Option<Time>
    var remote: Option<Bytes>

    ghost const start: Time
    ghost var trace: seq<Label>
    ghost var machine: State

    ghost predicate Tied()
      reads this
    {
      && machine.rows == rows && machine.dirs == dirs && machine.files == files && machine.events == events
      && machine.clock == clock && machine.gate == gate && machine.remote == remote
    }

    ghost predicate IsRun()
      reads this
    {
      NamesSeconds(env.dirName) && start < END && Run(env, Init(start), trace) == Some(machine)
    }

    ghost predicate Valid()
      reads this
    {
      IsRun() && Tied() && clock < END
    }

    constructor (env: Env, now: Time)
      requires NamesSeconds(env.dirName) && now < END
      ensures Valid() && machine == Init(now) && this.env == env
    {
      this.env := env;
      rows, dirs, files, events, clock, gate, remote := map[], map[], NO_FILES, [], now, None, None;
      start, trace, machine := now, [], Init(now);
    }

    lemma IsReachable()
      requires IsRun()
      ensures Reachable(env, machine)
    {
    }

    /** Where the rollback handler was when its last step failed, if that was the last step of all. */
    ghost function FaultAt(): Option<Roll>
      reads this
    {
      if trace == [] || !trace[|trace| - 1].RollFault? then None
      else
        var before := Run(env, Init(start), trace[..|trace| - 1]);
        if before.Some? then Some(before.value.roll) else None
    }

    ghost predicate FailedWhilePointing()
      reads this
    {
      FaultAt().Some? && FaultAt().value.Pointing?
    }

    /** The machine takes step `l`. */
    ghost method Take(l: Label)
      requires IsRun() && Next(env, machine, l).Some?
      modifies this`trace, this`machine
      ensures IsRun() && machine == Next(env, old(machine), l).value && trace == old(trace) + [l]
      ensures l.RollFault? ==> FaultAt() == Some(old(machine.roll))
    {
      RunAppend(env, Init(start), trace, [l]);
      RunCons(env, machine, l, []);
      assert [l] + [] == [l];
      trace := trace + [l];
      assert trace[..|trace| - 1] == old(trace);
      machine := Next(env, machine, l).value;
    }

    /** `Utc::now()`. */
    method Now() returns (now: Time)
      requires Valid()
      modifies this`clock, this`trace, this`machine
      ensures Valid() && now == clock && old(clock) <= clock && old(trace) <= trace
      ensures machine == old(machine).(clock := now)
    {
      var t: nat := *;
      if clock <= t < END {
        Take(Tick(t));
        clock := t;
      }
      now := clock;
    }

    // ----- queries

    /** `last_created_hash`. */
    method QueryLastHash() returns (hash: Option<string>)
      requires Valid()
      ensures hash == LastCreatedHash(rows)
    {
      var todo := rows.Keys;
      var best: Option<BackupEntry> := None;
      while todo != {}
        invariant todo <= rows.Keys
        invariant best.None? ==> forall id :: id in rows && id !in todo ==> !IsCreated(rows, id)
        invariant best.Some? ==> IsCreated(rows, best.value.id) && rows[best.value.id] == best.value
        invariant best.Some? ==> forall id :: IsCreated(rows, id) && id !in todo ==>
                                   rows[id].createdAt <= best.value.createdAt
        decreases |todo|
      {
        var id :| id in todo;
        todo := todo - {id};
        if rows[id].status.Created? && (best.None? || best.value.createdAt < rows[id].createdAt) {
          RowsKeyed();
          best := Some(rows[id]);
        }
      }
      if best.None? {
        NoHashMeansNoCreated(rows);
        hash := None;
      } else {
        UniqueLatest(best.value.id);
        hash := Some(best.value.contentHash);
      }
    }

    lemma RowsKeyed()
      requires Valid()
      ensures Keyed(rows)
    {
      IsReachable();
      ReachableInv(env, machine);
    }

    lemma UniqueLatest(id: Uuid)
      requires Valid() && Latest(rows, id)
      ensures LastCreatedHash(rows) == Some(rows[id].contentHash)
    {
      IsReachable();
      ReachableInv(env, machine);
      forall other | IsCreated(rows, other) && other != id ensures rows[other].createdAt < rows[id].createdAt {
        DifferentHours(env, machine, id, other);
      }
      LatestIsLast(rows, id);
    }

    /** The rows a prune at `cutoff` selects. */
    method SelectDoomed(cutoff: int) returns (doomed: seq<BackupEntry>)
      requires Valid()
      ensures Listing(rows, cutoff, doomed)
    {
      RowsKeyed();
      var todo := rows.Keys;
      doomed := [];
      while todo != {}
        invariant todo <= rows.Keys
        invariant forall i :: 0 <= i < |doomed| ==> doomed[i].id in rows && doomed[i].id !in todo
        invariant forall i :: 0 <= i < |doomed| ==> rows[doomed[i].id] == doomed[i] && Doomed(doomed[i], cutoff)
        invariant forall i, j :: 0 <= i < j < |doomed| ==> doomed[i].id != doomed[j].id
        invariant forall id :: id in rows && id !in todo && Doomed(rows[id], cutoff) ==> rows[id] in doomed
        decreases |todo|
      {
        var id :| id in todo;
        todo := todo - {id};
        if Doomed(rows[id], cutoff) { doomed := doomed + [rows[id]]; }
      }
    }

    /** `download_backup` up to the archive: the bytes stored for a created backup.  On a daemon whose
        disk is only touched by its own calls the file is always there and is the recorded one. */
    method ReadBackup(id: Uuid) returns (r: Result<Bytes>)
      requires Valid()
      ensures r.Success? <==> IsCreated(rows, id)
      ensures r.Success? ==> env.hash(r.value) == rows[id].contentHash && |r.value| == rows[id].sizeBytes
    {
      if id !in rows || !rows[id].status.Created? {
        return Failure;
      }
      IsReachable();
      BackupsAreAlwaysRestorable(env, machine, id);
      r := Success(dirs[rows[id].timestampDir].payload.value);
    }

    // ----- write_current_pointer

    /** The thread that writes the pointer, a rollback or the scheduler, is at `stage` for `e`. */
    ghost predicate Writes(rollback: bool, e: BackupEntry, stage: Stage)
      reads this
    {
      if rollback then machine.roll == Pointing(e, stage) else machine.sched == Publishing(e, stage)
    }

    ghost predicate Wrote(rollback: bool, e: BackupEntry, ok: bool)
      reads this
    {
      if rollback then machine.roll == (if ok then Recording(e) else Idle)
      else machine.sched == AfterRun(if ok then Ok(e.contentHash, e.createdAt) else Daemon.Failed)
    }

    twostate predicate OtherThreadWaits(rollback: bool)
      reads this
    {
      if rollback then machine.sched == old(machine.sched) else machine.roll == old(machine.roll)
    }

    method StampPointer(rollback: bool, e: BackupEntry) returns (p: Pointer)
      requires Valid() && Writes(rollback, e, Stamp)
      modifies this`clock, this`trace, this`machine
      ensures Valid() && old(trace) <= trace && old(clock) <= clock && OtherThreadWaits(rollback)
      ensures p == PointerTo(e, clock) && Writes(rollback, e, Open(p))
    {
      var at := Now();
      Take(if rollback then RollOk else SchedOk(NO_PICK));
      p := PointerTo(e, at);
    }

    method OpenPointer(rollback: bool, e: BackupEntry, p: Pointer) returns (ok: bool, fd: nat)
      requires Valid() && Writes(rollback, e, Open(p))
      modifies this`files, this`trace, this`machine
      ensures Valid() && old(trace) <= trace && OtherThreadWaits(rollback)
      ensures if ok then Writes(rollback, e, Fill(p, fd)) else Wrote(rollback, e, false)
      ensures rollback && !ok ==> FailedWhilePointing()
      ensures ok ==> fd == Descriptor(old(files)) && files == OpenTmp(old(files))
      ensures !ok ==> files == old(files)
    {
      fd := Descriptor(files);
      var fault: bool := *;
      ok := !fault;
      if fault {
        Take(if rollback then RollFault(false, 0) else SchedFault(NO_RESIDUE));
      } else {
        Take(if rollback then RollOk else SchedOk(NO_PICK));
        files := OpenTmp(files);
      }
    }

    method FillPointer(rollback: bool, e: BackupEntry, p: Pointer, fd: nat) returns (ok: bool, ghost left: nat)
      requires Valid() && Writes(rollback, e, Fill(p, fd))
      modifies this`files, this`trace, this`machine
      ensures Valid() && old(trace) <= trace && OtherThreadWaits(rollback)
      ensures if ok then Writes(rollback, e, Rename(p)) else Wrote(rollback, e, false)
      ensures rollback && !ok ==> FailedWhilePointing()
      ensures files == if ok then WriteTo(old(files), fd, p) else CutOff(old(files), fd, p, left)
    {
      var fault: bool, length: nat := *, *;
      ok, left := !fault, length;
      if fault {
        Take(if rollback then RollFault(true, length) else SchedFault(NO_RESIDUE.(applied := true, length := length)));
        files := CutOff(files, fd, p, length);
      } else {
        Take(if rollback then RollOk else SchedOk(NO_PICK));
        files := WriteTo(files, fd, p);
      }
    }

    method RenamePointer(rollback: bool, e: BackupEntry, p: Pointer) returns (ok: bool)
      requires Valid() && Writes(rollback, e, Rename(p))
      modifies this`files, this`trace, this`machine
      ensures Valid() && old(trace) <= trace && OtherThreadWaits(rollback) && Wrote(rollback, e, ok)
      ensures files == if ok then old(files).(tmp := None, published := old(files).tmp) else old(files)
      ensures rollback && !ok ==> FailedWhilePointing()
    {
      var fault: bool := *;
      ok := !fault && files.tmp.Some?;
      if ok {
        Take(if rollback then RollOk else SchedOk(NO_PICK));
        files := files.(tmp := None, published := files.tmp);
      } else {
        Take(if rollback then RollFault(false, 0) else SchedFault(NO_RESIDUE));
      }
    }

    /** `fs::write` of the temporary file. */
    method WriteTmp(rollback: bool, e: BackupEntry, p: Pointer) returns (ok: bool)
      requires Valid() && Writes(rollback, e, Open(p))
      modifies this`files, this`trace, this`machine
      ensures Valid() && old(trace) <= trace && OtherThreadWaits(rollback)
      ensures if ok then Writes(rollback, e, Rename(p)) else Wrote(rollback, e, false)
      ensures rollback && !ok ==> FailedWhilePointing()
      ensures Published(files) == Published(old(files))
      ensures ok ==> Published(files.(tmp := None, published := files.tmp)) == Some(Written(p, TextLength(p)))
    {
      FilesAreValid();
      var filling, fd := OpenPointer(rollback, e, p);
      if !filling { return false; }
      ghost var left;
      ok, left := FillPointer(rollback, e, p, fd);
      LoneWrite(old(files), p, left);
    }

    /** The temporary file, then the rename. */
    method WriteStamped(rollback: bool, e: BackupEntry, p: Pointer) returns (ok: bool)
      requires Valid() && Writes(rollback, e, Open(p))
      modifies this`files, this`trace, this`machine
      ensures Valid() && old(trace) <= trace && OtherThreadWaits(rollback) && Wrote(rollback, e, ok)
      ensures ok ==> files.tmp == None
      ensures Published(files) == if ok then Some(Written(p, TextLength(p))) else Published(old(files))
      ensures rollback && !ok ==> FailedWhilePointing()
    {
      ok := WriteTmp(rollback, e, p);
      if ok { ok := RenamePointer(rollback, e, p); }
    }

    /** `write_current_pointer`.  While only one thread writes, readers see the old pointer until the write
        succeeds and the new one from then on. */
    method WritePointer(rollback: bool, e: BackupEntry) returns (ok: bool)
      requires Valid() && Writes(rollback, e, Stamp)
      modifies this`files, this`clock, this`trace, this`machine
      ensures Valid() && old(trace) <= trace && old(clock) <= clock && OtherThreadWaits(rollback)
      ensures Wrote(rollback, e, ok)
      ensures ok ==> files.tmp == None && PublishedIs(files, e) && Published(files).value.p.updatedAt == clock
      ensures rollback && !ok ==> FailedWhilePointing()
      ensures !ok ==> Published(files) == Published(old(files))
    {
      var p := StampPointer(rollback, e);
      ok := WriteStamped(rollback, e, p);
    }

    lemma FilesAreValid()
      requires Valid()
      ensures ValidFiles(files)
    {
      IsReachable();
      ReachableInv(env, machine);
    }

    // ----- run_once

    /** `insert_entry`; the row of a failed insert may be there. */
    method InsertRow(entry: NewBackupEntry, id: Uuid) returns (ok: bool)
      requires Valid() && machine.sched == Inserting(entry) && Fresh(machine, id)
      modifies this`rows, this`trace, this`machine
      ensures Valid() && old(trace) <= trace
      ensures rows == old(rows)[id := entry.WithId(id)] || (!ok && rows == old(rows))
      ensures machine.sched == if !ok then AfterRun(Daemon.Failed)
                               else if entry.status.Created? then WritingMetadata(entry.WithId(id))
                               else AfterRun(Ok(entry.contentHash, entry.createdAt))
    {
      var fault: bool, applied: bool := *, *;
      ok := !fault;
      if fault {
        Take(SchedFault(Residue(id, [], applied, BackupDir(None, None), 0)));
      } else {
        Take(SchedOk(Pick(id, [], None, None)));
      }
      if ok || applied { rows := rows[id := entry.WithId(id)]; }
    }

    /** `fs::write` of `metadata.json`. */
    method WriteMetadata(e: BackupEntry) returns (ok: bool)
      requires Valid() && machine.sched == WritingMetadata(e)
      modifies this`dirs, this`trace, this`machine
      ensures Valid() && old(trace) <= trace
      ensures machine.sched == if ok then Publishing(e, Stamp) else AfterRun(Daemon.Failed)
      ensures e.timestampDir in dirs && SameElsewhere(old(dirs), dirs, e.timestampDir)
      ensures dirs[e.timestampDir] == BackupDir(DirAt(old(machine), e.timestampDir).payload,
                                                Some(if ok then Whole(e) else Torn))
    {
      var d := e.timestampDir;
      var dir := if d in dirs then dirs[d] else BackupDir(None, None);
      var fault: bool := *;
      ok := !fault;
      var written := dir.(metadata := Some(if ok then Whole(e) else Torn));
      UpdatedElsewhere(dirs, d, written);
      if fault {
        Take(SchedFault(NO_RESIDUE.(applied := true)));
      } else {
        Take(SchedOk(NO_PICK));
      }
      dirs := dirs[d := written];
    }

    /** `create_and_insert_entry` for a created entry: the row, then its `metadata.json`. */
    method CreateAndInsertEntry(entry: NewBackupEntry, id: Uuid) returns (r: Result<BackupEntry>)
      requires Valid() && machine.sched == Inserting(entry) && Fresh(machine, id) && entry.status.Created?
      modifies this`rows, this`dirs, this`trace, this`machine
      ensures Valid() && old(trace) <= trace
      ensures r.Failure? ==> machine.sched == AfterRun(Daemon.Failed)
      ensures r.Success? ==> r.value == entry.WithId(id) && rows == old(rows)[id := r.value]
      ensures r.Success? ==> machine.sched == Publishing(r.value, Stamp)
      ensures r.Success? ==> entry.timestampDir in dirs && SameElsewhere(old(dirs), dirs, entry.timestampDir)
      ensures r.Success? ==> dirs[entry.timestampDir] == BackupDir(DirAt(old(machine), entry.timestampDir).payload,
                                                                   Some(Whole(r.value)))
      ensures rows == old(rows) || rows == old(rows)[id := entry.WithId(id)]
    {
      var e := entry.WithId(id);
      var ok := InsertRow(entry, id);
      if ok { ok := WriteMetadata(e); }
      r := if ok then Success(e) else Failure;
    }

    /** `create_dir_all`. */
    method MakeDir(now: Time, bytes: Bytes) returns (ok: bool)
      requires Valid() && machine.sched == MakingDir(now, bytes)
      modifies this`dirs, this`trace, this`machine
      ensures Valid() && old(trace) <= trace && machine.hist.known == old(machine.hist.known)
      ensures machine.sched == if ok then WritingPayload(now, bytes) else AfterRun(Daemon.Failed)
      ensures ok ==> env.dirName(now) in dirs && SameElsewhere(old(dirs), dirs, env.dirName(now))
    {
      var d := env.dirName(now);
      var fault: bool := *;
      if fault {
        Take(SchedFault(NO_RESIDUE));
        return false;
      }
      Take(SchedOk(NO_PICK));
      dirs := dirs[d := if d in dirs then dirs[d] else BackupDir(None, None)];
      ok := true;
    }

    /** `fs::write` of the payload; a failed write leaves any bytes. */
    method WritePayload(now: Time, bytes: Bytes) returns (ok: bool)
      requires Valid() && machine.sched == WritingPayload(now, bytes) && env.dirName(now) in dirs
      modifies this`dirs, this`trace, this`machine
      ensures Valid() && old(trace) <= trace && machine.hist.known == old(machine.hist.known)
      ensures machine.sched == if ok then ReadingStats(now, bytes) else AfterRun(Daemon.Failed)
      ensures env.dirName(now) in dirs && SameElsewhere(old(dirs), dirs, env.dirName(now))
      ensures ok ==> dirs[env.dirName(now)].payload == Some(bytes)
    {
      var d := env.dirName(now);
      var fault: bool := *;
      if fault {
        var torn: Bytes := *;
        var left := dirs[d].(payload := Some(torn));
        Take(SchedFault(NO_RESIDUE.(applied := true, dir := left)));
        dirs := dirs[d := left];
        return false;
      }
      Take(SchedOk(NO_PICK));
      dirs := dirs[d := dirs[d].(payload := Some(bytes))];
      ok := true;
    }

    /** `extract_stats` and the file size. */
    method ReadStats(now: Time, p: BackupPayload, contentHash: string) returns (r: Result<NewBackupEntry>)
      requires Valid() && machine.sched == ReadingStats(now, p.bytes) && contentHash == env.hash(p.bytes)
      requires env.dirName(now) in dirs && dirs[env.dirName(now)].payload == Some(p.bytes)
      modifies this`trace, this`machine
      ensures Valid() && old(trace) <= trace && machine.hist.known == old(machine.hist.known)
      ensures r.Failure? ==> machine.sched == AfterRun(Daemon.Failed)
      ensures r.Success? ==> machine.sched == Inserting(r.value) && PreparedFrom(env, r.value, now, p)
    {
      var stats := env.stats(p.bytes);
      var fault: bool := *;
      if fault || stats.None? {
        Take(SchedFault(NO_RESIDUE));
        return Failure;
      }
      Take(SchedOk(Pick(Uuid([]), [], p.sourceRevision, p.syncDurationMs)));
      r := Success(NewCreated(now, env.dirName(now), contentHash, p.sourceRevision, p.syncDurationMs, |p.bytes|,
                              stats.value));
    }

    /** Directory, payload file and stats of a new backup. */
    method PrepareEntry(now: Time, p: BackupPayload, contentHash: string) returns (r: Result<NewBackupEntry>)
      requires Valid() && machine.sched == MakingDir(now, p.bytes) && contentHash == env.hash(p.bytes)
      modifies this`dirs, this`trace, this`machine
      ensures Valid() && old(trace) <= trace && machine.hist.known == old(machine.hist.known)
      ensures r.Failure? ==> machine.sched == AfterRun(Daemon.Failed)
      ensures r.Success? ==> machine.sched == Inserting(r.value) && PreparedFrom(env, r.value, now, p)
      ensures r.Success? ==> env.dirName(now) in dirs && dirs[env.dirName(now)].payload == Some(p.bytes)
      ensures r.Success? ==> SameElsewhere(old(dirs), dirs, env.dirName(now))
    {
      var made := MakeDir(now, p.bytes);
      if !made { return Failure; }
      var written := WritePayload(now, p.bytes);
      if !written { return Failure; }
      r := ReadStats(now, p, contentHash);
    }

    /** Directory, payload, row and `metadata.json` of a new backup. */
    method CreateEntry(now: Time, p: BackupPayload, contentHash: string, id: Uuid) returns (r: Result<BackupEntry>)
      requires Valid() && machine.sched == MakingDir(now, p.bytes) && contentHash == env.hash(p.bytes)
      requires Fresh(machine, id)
      modifies this`rows, this`dirs, this`trace, this`machine
      ensures Valid() && old(trace) <= trace
      ensures machine.sched == if r.Success? then Publishing(r.value, Stamp) else AfterRun(Daemon.Failed)
      ensures r.Success? ==> rows == old(rows)[id := r.value] && MadeFrom(env, r.value, id, now, p)
      ensures rows - {id} == old(rows) - {id}
      ensures r.Success? ==> dirs == old(dirs)[r.value.timestampDir := BackupDir(Some(p.bytes), Some(Whole(r.value)))]
    {
      var entry := PrepareEntry(now, p, contentHash);
      if entry.Failure? { return Failure; }
      r := CreateAndInsertEntry(entry.value, id);
      if r.Success? { OneDirChanged(old(dirs), dirs, r.value.timestampDir); }
    }

    /** The part of `run_once` that makes a new backup. */
    method CreateBackup(now: Time, p: BackupPayload, contentHash: string, id: Uuid) returns (r: Outcome)
      requires Valid() && machine.sched == MakingDir(now, p.bytes) && contentHash == env.hash(p.bytes)
      requires Fresh(machine, id)
      modifies this`rows, this`dirs, this`files, this`clock, this`trace, this`machine
      ensures Valid() && old(trace) <= trace && old(clock) <= clock
      ensures machine.sched == AfterRun(RanOf(r)) && !r.NoChange?
      ensures r.NewBackup? ==> rows == old(rows)[id := r.entry] && MadeFrom(env, r.entry, id, now, p)
      ensures rows - {id} == old(rows) - {id} && (r.Error? ==> Published(files) == Published(old(files)))
      ensures r.NewBackup? ==> dirs == old(dirs)[r.entry.timestampDir := BackupDir(Some(p.bytes), Some(Whole(r.entry)))]
      ensures r.NewBackup? ==> files.tmp == None && PublishedIs(files, r.entry)
    {
      var created := CreateEntry(now, p, contentHash, id);
      if created.Failure? { return Error; }
      var ok := WritePointer(false, created.value);
      r := if ok then NewBackup(created.value) else Error;
    }

    /** The beginning of `run_once`: the time, and whether the last created hash is the one given. */
    method CompareWithLast(bytes: Bytes, contentHash: string) returns (r: Result<bool>, now: Time)
      requires Valid() && machine.sched == Synced(bytes) && contentHash == env.hash(bytes)
      modifies this`clock, this`trace, this`machine
      ensures Valid() && old(trace) <= trace && old(clock) <= clock && machine.hist.known == old(machine.hist.known)
      ensures r.Failure? ==> machine.sched == AfterRun(Daemon.Failed)
      ensures r.Success? ==> r.value == (LastCreatedHash(rows) == Some(contentHash))
      ensures r.Success? ==> machine.sched == if r.value then Inserting(NewSkippedUnchanged(now, contentHash))
                                              else MakingDir(now, bytes)
      ensures now == clock
    {
      now := Now();
      Take(SchedOk(NO_PICK));
      var fault: bool := *;
      if fault {
        Take(SchedFault(NO_RESIDUE));
        return Failure, now;
      }
      var last := QueryLastHash();
      Take(SchedOk(NO_PICK));
      r := Success(last == Some(contentHash));
    }

    /** The part of `run_once` for an unchanged collection. */
    method RecordSkip(now: Time, contentHash: string, id: Uuid) returns (r: Outcome)
      requires Valid() && machine.sched == Inserting(NewSkippedUnchanged(now, contentHash)) && Fresh(machine, id)
      modifies this`rows, this`trace, this`machine
      ensures Valid() && old(trace) <= trace && machine.sched == AfterRun(RanOf(r)) && !r.NewBackup?
      ensures r.NoChange? ==> r.entry == NewSkippedUnchanged(now, contentHash).WithId(id)
      ensures r.NoChange? ==> rows == old(rows)[id := r.entry]
      ensures rows - {id} == old(rows) - {id}
    {
      var ok := InsertRow(NewSkippedUnchanged(now, contentHash), id);
      r := if ok then NoChange(NewSkippedUnchanged(now, contentHash).WithId(id)) else Error;
    }

    /** `run_once`.  Success leaves exactly one new row: of a skipped entry and nothing else if the last
        created hash is the one given, else of a created entry with its directory and the pointer. */
    method RunOnce(p: BackupPayload, contentHash: string, id: Uuid) returns (r: Outcome)
      requires Valid() && machine.sched == Synced(p.bytes) && contentHash == env.hash(p.bytes) && Fresh(machine, id)
      modifies this`rows, this`dirs, this`files, this`clock, this`trace, this`machine
      ensures Valid() && old(trace) <= trace && old(clock) <= clock && machine.sched == AfterRun(RanOf(r))
      ensures !r.Error? ==> rows == old(rows)[id := r.entry]
      ensures !r.Error? ==> (r.NoChange? <==> LastCreatedHash(old(rows)) == Some(contentHash))
      ensures !r.Error? ==> old(clock) <= r.entry.createdAt <= clock && r.entry.id == id
      ensures !r.Error? ==> r.entry.contentHash == contentHash
      ensures r.NoChange? ==> IsSkip(r.entry)
      ensures r.NoChange? ==> dirs == old(dirs) && files == old(files)
      ensures r.NewBackup? ==> IsBackupOf(env, r.entry, p)
      ensures rows - {id} == old(rows) - {id} && (r.Error? ==> Published(files) == Published(old(files)))
      ensures r.NewBackup? ==> dirs == old(dirs)[r.entry.timestampDir := BackupDir(Some(p.bytes), Some(Whole(r.entry)))]
      ensures r.NewBackup? ==> files.tmp == None && PublishedIs(files, r.entry)
    {
      var same, now := CompareWithLast(p.bytes, contentHash);
      if same.Failure? { return Error; }
      if same.value {
        r := RecordSkip(now, contentHash, id);
      } else {
        r := CreateBackup(now, p, contentHash, id);
      }
    }

    // ----- prune_created_older_than_days

    method DeleteRow(ran: Ran, doomed: seq<BackupEntry>, k: nat) returns (ok: bool)
      requires Valid() && machine.sched == Deleting(ran, doomed, k) && k < |doomed|
      modifies this`rows, this`trace, this`machine
      ensures Valid() && old(trace) <= trace
      ensures machine.hist.returned == old(machine.hist.returned)
      ensures machine.sched == if ok then Deleting(ran, doomed, k + 1) else Top
      ensures ok ==> rows == old(rows) - {doomed[k].id}
      ensures rows == old(rows) || rows == old(rows) - {doomed[k].id}
    {
      var fault: bool, applied: bool := *, *;
      ok := !fault;
      if fault {
        Take(SchedFault(NO_RESIDUE.(applied := applied)));
      } else {
        Take(SchedOk(NO_PICK));
      }
      if ok || applied { rows := rows - {doomed[k].id}; }
    }

    /** The DELETE loop of the SQLite store. */
    method DeleteEach(ran: Ran, doomed: seq<BackupEntry>) returns (ok: bool)
      requires Valid() && machine.sched == Deleting(ran, doomed, 0)
      modifies this`rows, this`trace, this`machine
      ensures Valid() && old(trace) <= trace
      ensures machine.hist.returned == old(machine.hist.returned)
      ensures machine.sched == if ok then Removing(ran, doomed, 0) else Top
      ensures ok ==> rows == old(rows) - Ids(doomed)
      ensures OnlyLoses(old(rows), rows, Ids(doomed))
    {
      var k := 0;
      while k < |doomed|
        invariant 0 <= k <= |doomed| && Valid() && old(trace) <= trace
        invariant machine.sched == Deleting(ran, doomed, k) && machine.hist.returned == old(machine.hist.returned)
        invariant rows == old(rows) - Ids(doomed[..k])
      {
        ok := DeleteRow(ran, doomed, k);
        DeletedNext(old(rows), doomed, k);
        if !ok { return; }
        k := k + 1;
      }
      assert doomed[..k] == doomed;
      EndDeletes(ran, doomed);
      ok := true;
    }

    ghost method EndDeletes(ran: Ran, doomed: seq<BackupEntry>)
      requires Valid() && machine.sched == Deleting(ran, doomed, |doomed|)
      modifies this`trace, this`machine
      ensures Valid() && old(trace) <= trace && machine.sched == Removing(ran, doomed, 0)
      ensures machine.hist.returned == old(machine.hist.returned)
    {
      Take(SchedOk(NO_PICK));
    }

    /** A `remove_dir_all` that fails leaves some of the files. */
    method DamageDir(ran: Ran, doomed: seq<BackupEntry>, k: nat)
      requires Valid() && machine.sched == Removing(ran, doomed, k) && k < |doomed| && doomed[k].timestampDir != ""
      modifies this`dirs, this`trace, this`machine
      ensures Valid() && old(trace) <= trace && machine.sched == Top
      ensures machine.hist.returned == old(machine.hist.returned)
      ensures SameElsewhere(old(dirs), dirs, doomed[k].timestampDir)
    {
      var payloadGone: bool, metadataGone: bool := *, *;
      var left := NO_RESIDUE.(dir := BackupDir(if payloadGone then None else Some([]),
                                               if metadataGone then None else Some(Torn)));
      DamagedElsewhere(dirs, doomed[k].timestampDir, left);
      Take(SchedFault(left));
      dirs := Damaged(dirs, doomed[k].timestampDir, left);
    }

    /** `remove_dir_all`. */
    method RemoveDir(ran: Ran, doomed: seq<BackupEntry>, k: nat) returns (ok: bool)
      requires Valid() && machine.sched == Removing(ran, doomed, k) && k < |doomed|
      modifies this`dirs, this`trace, this`machine
      ensures Valid() && old(trace) <= trace
      ensures machine.hist.returned == old(machine.hist.returned)
      ensures machine.sched == if ok then Removing(ran, doomed, k + 1) else Top
      ensures if ok then dirs == old(dirs) - {doomed[k].timestampDir}
              else SameElsewhere(old(dirs), dirs, doomed[k].timestampDir)
    {
      DirIsProper(doomed[k]);
      var fault: bool := *;
      ok := !fault;
      if fault {
        DamageDir(ran, doomed, k);
      } else {
        Take(SchedOk(NO_PICK));
        dirs := dirs - {doomed[k].timestampDir};
      }
    }

    /** The directory loop of the prune. */
    method RemoveEach(ran: Ran, doomed: seq<BackupEntry>) returns (ok: bool)
      requires Valid() && machine.sched == Removing(ran, doomed, 0)
      modifies this`dirs, this`trace, this`machine
      ensures Valid() && old(trace) <= trace && machine.sched.Top?
      ensures ok ==> machine.hist.returned == old(machine.hist.returned) + |doomed|
      ensures ok ==> dirs == old(dirs) - Names(doomed)
      ensures forall d :: d in old(dirs) && d !in Names(doomed) ==> d in dirs && dirs[d] == old(dirs)[d]
    {
      var k := 0;
      while k < |doomed|
        invariant 0 <= k <= |doomed| && Valid() && old(trace) <= trace
        invariant machine.sched == Removing(ran, doomed, k) && machine.hist.returned == old(machine.hist.returned)
        invariant dirs == old(dirs) - Names(doomed[..k])
      {
        ghost var before := dirs;
        ok := RemoveDir(ran, doomed, k);
        RemovedNext(old(dirs), doomed, k);
        if !ok {
          ElsewhereKept(old(dirs), before, dirs, doomed, k);
          return;
        }
        k := k + 1;
      }
      assert doomed[..k] == doomed;
      EndRemovals(ran, doomed);
      ok := true;
    }

    ghost method EndRemovals(ran: Ran, doomed: seq<BackupEntry>)
      requires Valid() && machine.sched == Removing(ran, doomed, |doomed|)
      modifies this`trace, this`machine
      ensures Valid() && old(trace) <= trace && machine.sched.Top?
      ensures machine.hist.returned == old(machine.hist.returned) + |doomed|
    {
      Take(SchedOk(NO_PICK));
    }

    /** `prune_created_before`: select and delete each on SQLite, one statement on Postgres. */
    method PruneCreatedBefore(ran: Ran, cutoff: int) returns (r: Result<seq<BackupEntry>>)
      requires Valid() && machine.sched == Selecting(ran, cutoff)
      modifies this`rows, this`trace, this`machine
      ensures Valid() && old(trace) <= trace
      ensures machine.hist.returned == old(machine.hist.returned)
      ensures r.Failure? ==> machine.sched == Top
      ensures r.Success? ==> machine.sched == Removing(ran, r.value, 0) && Listing(old(rows), cutoff, r.value)
      ensures r.Success? ==> rows == Pruned(old(rows), cutoff)
      ensures r.Success? ==> |CreatedIds(rows)| + |r.value| == |CreatedIds(old(rows))|
      ensures OnlyOldGo(old(rows), rows, cutoff)
    {
      var fault: bool := *;
      if fault {
        Take(SchedFault(NO_RESIDUE));
        return Failure;
      }
      var doomed := SelectDoomed(cutoff);
      RowsKeyed();
      ListedAreDeleted(rows, cutoff, doomed);
      PruneConserves(rows, cutoff, doomed);
      LosingListed(rows, cutoff, doomed);
      Take(SchedOk(Pick(Uuid([]), doomed, None, None)));
      if env.postgres {
        rows := Pruned(rows, cutoff);
      } else {
        var ok := DeleteEach(ran, doomed);
        if !ok { return Failure; }
      }
      r := Success(doomed);
    }

    /** `prune_created_older_than_days`.  A returned count is the number of created rows that went, and
        the directories that went are theirs. */
    method PruneOld(ran: Ran) returns (r: Result<nat>, ghost cutoff: int)
      requires Valid() && machine.sched == AfterRun(ran)
      modifies this`rows, this`dirs, this`clock, this`trace, this`machine
      ensures Valid() && old(trace) <= trace && old(clock) <= clock && machine.sched.Top?
      ensures r.Success? ==> machine.hist.returned == old(machine.hist.returned) + r.value
      ensures env.retentionDays <= 0 ==> r == Success(0) && rows == old(rows) && dirs == old(dirs)
      ensures r.Success? && env.retentionDays > 0 ==>
        && cutoff == CutoffAt(env, clock) && rows == Pruned(old(rows), cutoff)
        && |CreatedIds(rows)| + r.value == |CreatedIds(old(rows))|
        && exists doomed :: Listing(old(rows), cutoff, doomed) && dirs == old(dirs) - Names(doomed)
      ensures forall id :: id in rows ==> id in old(rows) && rows[id] == old(rows)[id]
      ensures RecentStay(env, clock, old(rows), rows)
      ensures r.Success? ==> OnlyRecentLeft(env, clock, rows)
      ensures env.retentionDays > 0 ==>
        forall d :: d in old(dirs) && (d !in dirs || dirs[d] != old(dirs)[d]) ==> OldOwns(env, old(rows), clock, d)
    {
      if env.retentionDays <= 0 {
        Take(SchedOk(NO_PICK));
        return Success(0), 0;
      }
      var c := BeginPrune(ran);
      cutoff := c;
      var doomed := PruneCreatedBefore(ran, c);
      OldGoRecentStay(env, clock, old(rows), rows);
      if doomed.Failure? { return Failure, c; }
      ListedOwn(env, old(rows), clock, c, doomed.value);
      var ok := RemoveEach(ran, doomed.value);
      r := if ok then Success(|doomed.value|) else Failure;
    }

    method BeginPrune(ran: Ran) returns (cutoff: int)
      requires Valid() && machine.sched == AfterRun(ran) && env.retentionDays > 0
      modifies this`clock, this`trace, this`machine
      ensures Valid() && old(trace) <= trace && old(clock) <= clock
      ensures machine.hist.returned == old(machine.hist.returned)
      ensures machine.sched == Selecting(ran, cutoff) && cutoff == CutoffAt(env, clock)
    {
      var now := Now();
      Take(SchedOk(NO_PICK));
      cutoff := CutoffAt(env, now);
    }

    lemma DirIsProper(e: BackupEntry)
      requires Valid() && machine.sched.Removing? && machine.sched.k < |machine.sched.doomed|
      requires e == machine.sched.doomed[machine.sched.k]
      ensures e.timestampDir != ""
    {
      IsReachable();
      PruneRemovesOnlyDeadDirectories(env, machine, e.id);
    }

    // ----- rollback

    /** `get_backup` and the check that it is a created one. */
    method FetchCreated(id: Uuid) returns (r: Result<BackupEntry>)
      requires Valid() && machine.roll == Fetching(id)
      modifies this`trace, this`machine
      ensures Valid() && old(trace) <= trace && machine.sched == old(machine.sched)
      ensures r.Success? ==> IsCreated(rows, id) && r.value == rows[id] && machine.roll == Pointing(r.value, Stamp)
      ensures r.Failure? ==> machine.roll == Idle && FaultAt() == Some(Fetching(id))
    {
      var fault: bool := *;
      if fault || id !in rows || !rows[id].status.Created? {
        Take(RollFault(false, 0));
        return Failure;
      }
      Take(RollOk);
      r := Success(rows[id]);
    }

    /** `insert_rollback_event`; a failed one may be recorded. */
    method RecordEvent(e: BackupEntry) returns (ok: bool)
      requires Valid() && machine.roll == Recording(e)
      modifies this`events, this`trace, this`machine
      ensures Valid() && old(trace) <= trace && machine.sched == old(machine.sched)
      ensures machine.roll == if !ok then Idle else if env.uploads then ReadingPayload(e) else Finishing(e)
      ensures events == old(events) + [e.id] || (!ok && events == old(events))
      ensures !ok ==> FaultAt() == Some(Recording(e))
    {
      var fault: bool, applied: bool := *, *;
      ok := !fault;
      if fault {
        Take(RollFault(applied, 0));
      } else {
        Take(RollOk);
      }
      if ok || applied { events := events + [e.id]; }
    }

    /** `rollback_to`: only a created backup is accepted; the pointer is published before the event is recorded. */
    method RollbackTo(id: Uuid) returns (r: Result<BackupEntry>)
      requires Valid() && machine.roll == Fetching(id)
      modifies this`files, this`events, this`clock, this`trace, this`machine
      ensures Valid() && old(trace) <= trace && old(clock) <= clock && machine.sched == old(machine.sched)
      ensures r.Failure? ==> machine.roll == Idle && FaultAt().Some?
      ensures r.Failure? ==> FaultAt().value.Fetching? || FaultAt().value.Pointing? || FaultAt().value.Recording?
      ensures r.Failure? && events != old(events) ==> IsCreated(rows, id) && PublishedIs(files, rows[id])
      ensures !IsCreated(rows, id) ==> r.Failure? && files == old(files) && events == old(events)
      ensures r.Success? ==> IsCreated(rows, id) && r.value == rows[id] && PublishedIs(files, r.value)
      ensures r.Success? ==> events == old(events) + [r.value.id]
      ensures r.Failure? ==> events == old(events) || (IsCreated(rows, id) && events == old(events) + [rows[id].id])
      ensures r.Success? ==> machine.roll == if env.uploads then ReadingPayload(r.value) else Finishing(r.value)
    {
      r := FetchCreated(id);
      if r.Failure? { return; }
      var ok := WritePointer(true, r.value);
      if ok { ok := RecordEvent(r.value); }
      if !ok { r := Failure; }
    }

    /** Reads the backup just rolled back to and uploads it; the HTTP status of a failure, 200 otherwise. */
    method UploadBackup(e: BackupEntry) returns (status: nat)
      requires Valid() && machine.roll == ReadingPayload(e)
      modifies this`remote, this`trace, this`machine
      ensures Valid() && old(trace) <= trace && machine.sched == old(machine.sched)
      ensures machine.roll == if status == 200 then Finishing(e) else Idle
      ensures status == 200 || status == 500 || status == 502
      ensures status == 200 ==> remote.Some? && env.hash(remote.value) == e.contentHash
      ensures status == 500 ==> remote == old(remote) && FaultAt() == Some(ReadingPayload(e))
      ensures status == 502 ==> FaultAt().Some? && FaultAt().value.Uploading?
    {
      var f1: bool, f2: bool, applied: bool := *, *, *;
      var dir := if e.timestampDir in dirs then dirs[e.timestampDir] else BackupDir(None, None);
      if f1 || dir.payload.None? {
        Take(RollFault(false, 0));
        return 500;
      }
      Take(RollOk);
      var bytes := dir.payload.value;
      IsReachable();
      UploadIsTheBackup(env, machine);
      if f2 {
        Take(RollFault(applied, 0));
        if applied { remote := Some(bytes); }
        return 502;
      }
      Take(RollOk);
      remote := Some(bytes);
      status := 200;
    }

    /** Lets a request through unless a rollback completed less than ten seconds ago. */
    method EnterGate(id: Uuid) returns (open: bool)
      requires Valid() && machine.roll.Idle?
      modifies this`clock, this`trace, this`machine
      ensures Valid() && old(trace) <= trace && old(clock) <= clock && machine.sched == old(machine.sched)
      ensures machine.roll == if open then Fetching(id) else Idle
      ensures open <==> gate.None? || gate.value + 10 * SECOND <= clock
    {
      var now := Now();
      open := gate.None? || (now - gate.value) / SECOND >= 10;
      if open { Take(Request(id)); }
    }

    method CloseGate(e: BackupEntry)
      requires Valid() && machine.roll == Finishing(e)
      modifies this`clock, this`gate, this`trace, this`machine
      ensures Valid() && old(trace) <= trace && old(clock) <= clock && machine.sched == old(machine.sched)
      ensures machine.roll == Idle && gate == Some(clock)
    {
      var now := Now();
      Take(RollOk);
      gate := Some(now);
    }

    /** `rollback_backup` behind the gate. */
    method RollbackBackup(id: Uuid) returns (status: nat)
      requires Valid() && machine.roll.Idle?
      modifies this`files, this`events, this`clock, this`gate, this`remote, this`trace, this`machine
      ensures Valid() && old(trace) <= trace && machine.roll.Idle? && machine.sched == old(machine.sched)
      ensures status != 200 ==> gate == old(gate)
      ensures status == 429 ==> files == old(files) && events == old(events) && remote == old(remote)
      ensures status == 429 <==> old(gate).Some? && clock < old(gate).value + 10_000_000_000
      ensures status == 200 || status == 429 ||
              (FaultAt().Some? && status == (match FaultAt().value
                                             case ReadingPayload(_) => 500
                                             case Uploading(_, _) => 502
                                             case _ => 400))
      ensures !IsCreated(rows, id) && status != 429 ==> status == 400
      ensures status == 400 || status == 500 ==> remote == old(remote)
      ensures status == 500 || status == 502 ==>
        IsCreated(rows, id) && PublishedIs(files, rows[id]) && events == old(events) + [rows[id].id]
      ensures status == 200 ==> gate == Some(clock) && (old(gate).Some? ==> old(gate).value + 10 * SECOND <= clock)
      ensures status == 200 ==>
        IsCreated(rows, id) && PublishedIs(files, rows[id]) && events == old(events) + [rows[id].id]
      ensures status == 200 ==>
        if env.uploads then remote.Some? && env.hash(remote.value) == rows[id].contentHash else remote == old(remote)
    {
      var open := EnterGate(id);
      if !open { return 429; }
      var rolled := RollbackTo(id);
      if rolled.Failure? { return 400; }
      if env.uploads {
        status := UploadBackup(rolled.value);
        if status != 200 { return; }
      }
      CloseGate(rolled.value);
      status := 200;
    }

    // ----- the scheduler loop

    /** The sleep lasts at least until `until`. */
    method Sleep(until: int)
      requires Valid() && machine.sched == Sleeping(until) && until < END
      modifies this`clock, this`trace, this`machine
      ensures Valid() && old(trace) <= trace && old(clock) <= clock && until <= clock
      ensures machine == old(machine).(clock := clock)
    {
      var t: nat := *;
      var wake := if t < until then until else t;
      if clock <= wake < END {
        Take(Tick(wake));
        clock := wake;
      } else if clock < until {
        Take(Tick(until));
        clock := until;
      }
    }

    /** Sleeps into the next hour and syncs. */
    method AwaitSync() returns (bytes: Option<Bytes>)
      requires Valid() && machine.sched.Top? && WakeAt(clock) < END
      modifies this`clock, this`trace, this`machine
      ensures Valid() && old(trace) <= trace && machine.hist.known == old(machine.hist.known)
      ensures HourOf(old(clock)) < HourOf(clock)
      ensures machine.sched == if bytes.Some? then Synced(bytes.value) else Top
      ensures bytes.Some? ==> bytes == remote
    {
      SleepReachesNextHour(clock);
      var until := WakeAt(clock);
      Take(SchedOk(NO_PICK));
      Sleep(until);
      HoursGrow(until, clock);
      var fault: bool := *;
      bytes := if fault then None else remote;
      if bytes.None? {
        Take(SchedFault(NO_RESIDUE));
      } else {
        Take(SchedOk(NO_PICK));
      }
    }

    /** What the loop does with a synced collection; a failed run_once does not keep it from pruning. */
    method RunAndPrune(bytes: Bytes, id: Uuid, syncMs: int)
      returns (outcome: Outcome, pruned: Result<nat>, ghost cutoff: int)
      requires Valid() && machine.sched == Synced(bytes) && Fresh(machine, id)
      modifies this`rows, this`dirs, this`files, this`clock, this`trace, this`machine
      ensures Valid() && old(trace) <= trace && machine.sched.Top? && old(clock) <= clock
      ensures !outcome.Error? ==> IsRowFor(env, outcome, LastCreatedHash(old(rows)), bytes, id, syncMs)
      ensures outcome.NewBackup? ==> PublishedIs(files, outcome.entry)
      ensures !outcome.Error? && pruned.Success? ==>
                && cutoff == (if env.retentionDays > 0 then CutoffAt(env, clock) else 0)
                && rows == Pruned(old(rows)[id := outcome.entry], cutoff)
      ensures pruned.Success? ==> OnlyRecentLeft(env, clock, rows)
      ensures RecentStay(env, clock, old(rows) - {id}, rows)
    {
      outcome := RunOnce(BackupPayload(bytes, None, Some(syncMs)), env.hash(bytes), id);
      ghost var between := rows;
      pruned, cutoff := PruneOld(RanOf(outcome));
      RecentStayBut(env, clock, old(rows), between, rows, id);
      if env.retentionDays <= 0 {
        cutoff := 0;
        assert Pruned(between, 0) == between;
      }
    }

    /** One iteration of `scheduler_loop`: whatever fails, it ends where it began, in a later hour.  If the
        sync, run_once and the prune succeed, the table is the old one with the row for AnkiWeb's content
        added and everything created before the cutoff taken away, and a skip means that content was
        the latest backup. */
    method SchedulerCycle(id: Uuid, syncMs: int)
      returns (backup: Option<Outcome>, pruned: Option<Result<nat>>, ghost cutoff: int)
      requires Valid() && machine.sched.Top? && WakeAt(clock) < END && Fresh(machine, id)
      modifies this
      ensures Valid() && old(trace) <= trace && machine.sched.Top? && remote == old(remote)
      ensures HourOf(old(clock)) < HourOf(clock)
      ensures backup.None? ==> pruned.None? && rows == old(rows) && dirs == old(dirs) && files == old(files)
      ensures backup.Some? ==> remote.Some? && pruned.Some?
      ensures backup.Some? && !backup.value.Error? ==>
                IsRowFor(env, backup.value, LastCreatedHash(old(rows)), remote.value, id, syncMs)
      ensures backup.Some? && backup.value.NewBackup? ==> PublishedIs(files, backup.value.entry)
      ensures backup.Some? && !backup.value.Error? && pruned.value.Success? ==>
                && cutoff == (if env.retentionDays > 0 then CutoffAt(env, clock) else 0)
                && rows == Pruned(old(rows)[id := backup.value.entry], cutoff)
      ensures backup.Some? && pruned.value.Success? ==> OnlyRecentLeft(env, clock, rows)
      ensures RecentStay(env, clock, old(rows) - {id}, rows)
    {
      var bytes := AwaitSync();
      if bytes.None? { return None, None, 0; }
      var woke := clock;
      var outcome, count;
      outcome, count, cutoff := RunAndPrune(bytes.value, id, syncMs);
      HoursGrow(woke, clock);
      backup, pruned := Some(outcome), Some(count);
    }
  }

  /** What run_once answers for `bytes`: a skip exactly when `last` is its hash. */
  ghost predicate IsRowFor(env: Env, r: Outcome, last: Option<string>, bytes: Bytes, id: Uuid, syncMs: int) {
    && !r.Error?
    && (r.NoChange? <==> last == Some(env.hash(bytes)))
    && r.entry.id == id && r.entry.contentHash == env.hash(bytes)
    && (r.NoChange? ==> IsSkip(r.entry))
    && (r.NewBackup? ==> IsBackupOf(env, r.entry, BackupPayload(bytes, None, Some(syncMs))))
  }

  ghost predicate SameElsewhere(before: map<string, BackupDir>, after: map<string, BackupDir>, d: string) {
    before - {d} == after - {d}
  }

  lemma UpdatedElsewhere(dirs: map<string, BackupDir>, d: string, dir: BackupDir)
    ensures SameElsewhere(dirs, dirs[d := dir], d)
  {
  }

  lemma DamagedElsewhere(dirs: map<string, BackupDir>, d: string, r: Residue)
    requires d != ""
    ensures SameElsewhere(dirs, Damaged(dirs, d, r), d)
  {
  }

  lemma OneDirChanged(before: map<string, BackupDir>, after: map<string, BackupDir>, d: string)
    requires SameElsewhere(before, after, d) && d in after
    ensures after == before[d := after[d]]
  {
    assert forall x :: x in after <==> x == d || x in after - {d};
    assert forall x :: x in before[d := after[d]] <==> x == d || x in before - {d};
    forall x | x in after && x != d ensures x in before && after[x] == before[x] {
      assert (after - {d})[x] == after[x] && (before - {d})[x] == before[x];
    }
  }

  /** The entry of a new backup of `p` made at `now`. */
  ghost predicate PreparedFrom(env: Env, entry: NewBackupEntry, now: Time, p: BackupPayload) {
    && env.stats(p.bytes).Some?
    && entry == NewCreated(now, env.dirName(now), env.hash(p.bytes), p.sourceRevision, p.syncDurationMs, |p.bytes|,
                           env.stats(p.bytes).value)
  }

  ghost predicate MadeFrom(env: Env, e: BackupEntry, id: Uuid, now: Time, p: BackupPayload) {
    e.id == id && e.createdAt == now && e.contentHash == env.hash(p.bytes) && IsBackupOf(env, e, p)
  }

  /** Every field of a created row that comes from the payload or is fixed. */
  ghost predicate IsBackupOf(env: Env, e: BackupEntry, p: BackupPayload) {
    && e.status == Created && e.skipReason == None
    && e.timestampDir == env.dirName(e.createdAt)
    && e.sourceRevision == p.sourceRevision && e.syncDurationMs == p.syncDurationMs
    && e.sizeBytes == |p.bytes| && e.stats.Some? && e.stats == env.stats(p.bytes)
  }

  /** A skipped row carries nothing but its time, its hash and the reason. */
  ghost predicate IsSkip(e: BackupEntry) {
    && e.status == Skipped && e.skipReason == Some(Unchanged) && e.timestampDir == ""
    && e.sourceRevision == None && e.syncDurationMs == None && e.sizeBytes == 0 && e.stats == None
  }

  lemma DeletedNext(rows: Rows, doomed: seq<BackupEntry>, k: nat)
    requires k < |doomed|
    ensures rows - Ids(doomed[..k]) - {doomed[k].id} == rows - Ids(doomed[..k + 1])
    ensures OnlyLoses(rows, rows - Ids(doomed[..k]), Ids(doomed))
    ensures OnlyLoses(rows, rows - Ids(doomed[..k + 1]), Ids(doomed))
  {
    IdsNext(doomed, k);
  }

  /** Nothing changes but that rows with these ids may be gone. */
  ghost predicate OnlyLoses(before: Rows, after: Rows, ids: set<Uuid>) {
    && (forall id :: id in after ==> id in before && after[id] == before[id])
    && (forall id :: id in before && id !in ids ==> id in after)
  }

  lemma ElsewhereKept(start: map<string, BackupDir>, before: map<string, BackupDir>, after: map<string, BackupDir>,
                      doomed: seq<BackupEntry>, k: nat)
    requires k < |doomed| && before == start - Names(doomed[..k])
    requires SameElsewhere(before, after, doomed[k].timestampDir)
    ensures forall d :: d in start && d !in Names(doomed) ==> d in after && after[d] == start[d]
  {
    forall d | d in start && d !in Names(doomed) ensures d in after && after[d] == start[d] {
      assert doomed[k] in doomed && d != doomed[k].timestampDir;
      assert d in before - {doomed[k].timestampDir};
      assert (after - {doomed[k].timestampDir})[d] == (before - {doomed[k].timestampDir})[d];
    }
  }

  lemma RemovedNext(dirs: map<string, BackupDir>, doomed: seq<BackupEntry>, k: nat)
    requires k < |doomed|
    ensures dirs - Names(doomed[..k]) - {doomed[k].timestampDir} == dirs - Names(doomed[..k + 1])
  {
    NamesNext(doomed, k);
  }

  /** Nothing changes but that created rows from before the cutoff may be gone. */
  ghost predicate OnlyOldGo(before: Rows, after: Rows, cutoff: int) {
    && (forall id :: id in after ==> id in before && after[id] == before[id])
    && (forall id :: id in before && (before[id].status.Skipped? || cutoff <= before[id].createdAt) ==> id in after)
  }

  lemma LosingListed(rows: Rows, cutoff: int, doomed: seq<BackupEntry>)
    requires Listing(rows, cutoff, doomed)
    ensures forall after :: OnlyLoses(rows, after, Ids(doomed)) ==> OnlyOldGo(rows, after, cutoff)
  {
  }

  /** Skipped rows, recent backups, and with retention off all of them, are still there. */
  ghost predicate RecentStay(env: Env, now: Time, before: Rows, after: Rows) {
    forall id :: id in before && MustStay(env, now, before[id]) ==> id in after && after[id] == before[id]
  }

  ghost predicate MustStay(env: Env, now: Time, e: BackupEntry) {
    e.status.Skipped? || env.retentionDays <= 0 || Recent(env, now, e.createdAt)
  }

  ghost predicate OnlyRecentLeft(env: Env, now: Time, rows: Rows) {
    env.retentionDays > 0 ==> forall id :: IsCreated(rows, id) ==> Recent(env, now, rows[id].createdAt)
  }

  lemma RecentStayBut(env: Env, now: Time, before: Rows, between: Rows, after: Rows, id: Uuid)
    requires before - {id} == between - {id} && RecentStay(env, now, between, after)
    ensures RecentStay(env, now, before - {id}, after)
  {
    assert forall x :: x in before - {id} ==> x in between - {id} && (before - {id})[x] == (between - {id})[x];
  }

  /** The directory belongs to a created row that is no longer recent. */
  ghost predicate OldOwns(env: Env, rows: Rows, now: Time, d: string) {
    exists id :: IsCreated(rows, id) && !Recent(env, now, rows[id].createdAt) && rows[id].timestampDir == d
  }

  lemma OldGoRecentStay(env: Env, now: Time, before: Rows, after: Rows)
    requires OnlyOldGo(before, after, CutoffAt(env, now)) && env.retentionDays > 0
    ensures RecentStay(env, now, before, after)
    ensures after == Pruned(before, CutoffAt(env, now)) ==> OnlyRecentLeft(env, now, after)
  {
    forall id | id in before && MustStay(env, now, before[id]) ensures id in after && after[id] == before[id] {
      CutoffMeans(env, now, before[id].createdAt);
    }
    forall id | IsCreated(after, id) && after == Pruned(before, CutoffAt(env, now))
      ensures Recent(env, now, after[id].createdAt)
    {
      CutoffMeans(env, now, before[id].createdAt);
    }
  }

  lemma ListedOwn(env: Env, rows: Rows, now: Time, cutoff: int, doomed: seq<BackupEntry>)
    requires Listing(rows, cutoff, doomed) && cutoff == CutoffAt(env, now)
    ensures forall d :: d in Names(doomed) ==> OldOwns(env, rows, now, d)
  {
    forall d | d in Names(doomed) ensures OldOwns(env, rows, now, d) {
      var e :| e in doomed && e.timestampDir == d;
      CutoffMeans(env, now, e.createdAt);
      assert IsCreated(rows, e.id) && rows[e.id] == e;
    }
  }

  ghost predicate PublishedIs(f: Files, e: BackupEntry) {
    && Published(f).Some? && Intact(Published(f).value)
    && Published(f).value.p.backupId == e.id && Published(f).value.p.timestampDir == e.timestampDir
  }

  lemma DifferentHours(env: Env, s: State, a: Uuid, b: Uuid)
    requires Inv(env, s) && IsCreated(s.rows, a) && IsCreated(s.rows, b) && a != b
    ensures s.rows[a].createdAt != s.rows[b].createdAt
  {
    var i :| 0 <= i < |s.hist.ever| && s.hist.ever[i] == s.rows[a];
    var j :| 0 <= j < |s.hist.ever| && s.hist.ever[j] == s.rows[b];
    if i < j { HourlyAt(s.hist.ever, i, j); } else { HourlyAt(s.hist.ever, j, i); }
  }
}
