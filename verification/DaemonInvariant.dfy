/** What every step of the daemon keeps, whatever fails and whenever it dies. */
module DaemonInvariant {
  import opened ByteText
  import opened Calendar
  import opened Rfc3339
  import opened Backup
  import opened Table
  import opened PointerFile
  import opened Scheduler
  import opened Daemon

  /** Directory names tell seconds apart and stay below the backups directory. */
  ghost predicate NamesSeconds(dirName: Time -> string) {
    && (forall t: Time, u: Time :: t < END && u < END && dirName(t) == dirName(u) ==> Seconds(t) == Seconds(u))
    && (forall t: Time :: t < END ==> ProperChild(dirName(t)))
  }

  /** Stored bytes are those the entry was made from. */
  ghost predicate Matches(env: Env, e: BackupEntry, bytes: Bytes) {
    && |bytes| == e.sizeBytes
    && env.hash(bytes) == e.contentHash
    && env.stats(bytes) == e.stats
  }

  // ----- the table against its history

  ghost predicate TableInv(rows: Rows, known: Rows, ever: seq<BackupEntry>, cutoff: int) {
    && (forall id :: id in rows ==> id in known && rows[id] == known[id])
    && (forall id :: id in known ==> known[id].id == id)
    && (forall id :: IsCreated(rows, id) ==> rows[id] in ever)
    && (forall id :: id in known && known[id].status.Skipped? ==> id in rows)
    && (forall e :: e in ever ==> e.id in known && known[e.id] == e && e.status.Created?)
    && (forall e :: e in ever && cutoff <= e.createdAt ==> e.id in rows)
  }

  ghost predicate TimeInv(env: Env, clock: Time, ever: seq<BackupEntry>, cutoff: int, runHour: int) {
    && clock < END
    && cutoff <= clock
    && runHour <= HourOf(clock)
    && (forall e :: e in ever ==>
          && e.createdAt <= clock
          && e.timestampDir == env.dirName(e.createdAt)
          && HourOf(e.createdAt) <= runHour)
    && Hourly(ever)
  }

  /** Each entry was created in a later hour than the one before. */
  ghost predicate Hourly(es: seq<BackupEntry>) {
    |es| <= 1 || (HourOf(es[|es| - 2].createdAt) < HourOf(es[|es| - 1].createdAt) && Hourly(es[..|es| - 1]))
  }

  lemma {:induction false} HourlyAt(es: seq<BackupEntry>, i: nat, j: nat)
    requires Hourly(es) && i < j < |es|
    ensures HourOf(es[i].createdAt) < HourOf(es[j].createdAt)
  {
    var front := es[..|es| - 1];
    if j < |es| - 1 {
      HourlyAt(front, i, j);
    } else if i < j - 1 {
      HourlyAt(front, i, j - 1);
    }
  }

  // ----- the directories against the table

  ghost predicate HasPayload(env: Env, dirs: map<string, BackupDir>, e: BackupEntry) {
    && e.timestampDir in dirs
    && dirs[e.timestampDir].payload.Some?
    && Matches(env, e, dirs[e.timestampDir].payload.value)
  }

  ghost predicate FilesInv(env: Env, rows: Rows, dirs: map<string, BackupDir>, ever: seq<BackupEntry>) {
    && (forall id :: IsCreated(rows, id) ==> HasPayload(env, dirs, rows[id]))
    && (forall e :: e in ever && e.timestampDir in dirs && dirs[e.timestampDir].payload.Some? ==>
          HasPayload(env, dirs, e))
  }

  // ----- the pointer

  ghost predicate NamesEver(p: Pointer, ever: seq<BackupEntry>) {
    exists e :: e in ever && p.backupId == e.id && p.timestampDir == e.timestampDir
  }

  ghost predicate PointerInv(f: Files, events: seq<Uuid>, ever: seq<BackupEntry>) {
    && ValidFiles(f)
    && (forall i :: 0 <= i < |f.contents| && f.contents[i].Written? ==> NamesEver(f.contents[i].p, ever))
    && (forall id :: id in events ==> exists e :: e in ever && e.id == id)
  }

  /** A pointer write in progress is for `e`. */
  predicate StageNames(stage: Stage, e: BackupEntry) {
    stage.Stamp? || (stage.p.backupId == e.id && stage.p.timestampDir == e.timestampDir)
  }

  // ----- the threads

  /** A run_once that has not inserted its row: its hour is new, nothing is named after its second. */
  ghost predicate RunInv(now: Time, clock: Time, h: History) {
    && now <= clock && HourOf(now) == h.runHour && h.cutoff <= now
    && (forall e :: e in h.ever ==> HourOf(e.createdAt) < HourOf(now))
  }

  ghost predicate RanInv(ran: Ran, rows: Rows, clock: Time) {
    ran.Ok? ==> LastCreatedHash(rows) == Some(ran.hash) && ran.now <= clock
  }

  /** The rows of a prune: created, beyond retention, and already deleted or still there. */
  ghost predicate DoomedInv(rows: Rows, ever: seq<BackupEntry>, cutoff: int, doomed: seq<BackupEntry>, k: nat) {
    && k <= |doomed|
    && (forall i :: 0 <= i < |doomed| ==> doomed[i] in ever && doomed[i].createdAt < cutoff)
    && (forall i :: 0 <= i < k ==> doomed[i].id !in rows)
    && (forall i :: k <= i < |doomed| ==> IsCreated(rows, doomed[i].id) && rows[doomed[i].id] == doomed[i])
    && (forall i, j :: 0 <= i < j < |doomed| ==> doomed[i].id != doomed[j].id)
  }

  ghost predicate SchedInv(env: Env, sched: Sched, rows: Rows, dirs: map<string, BackupDir>, clock: Time, h: History)
  {
    match sched
    case Top => true
    case Sleeping(until) => until >= 0 && h.runHour < HourOf(until)
    case Synced(_) => h.runHour < HourOf(clock)
    case Checking(now, _) => RunInv(now, clock, h)
    case MakingDir(now, bytes) => RunInv(now, clock, h) && LastCreatedHash(rows) != Some(env.hash(bytes))
    case WritingPayload(now, bytes) => RunInv(now, clock, h) && LastCreatedHash(rows) != Some(env.hash(bytes))
    case ReadingStats(now, bytes) =>
      && RunInv(now, clock, h) && LastCreatedHash(rows) != Some(env.hash(bytes))
      && env.dirName(now) in dirs && dirs[env.dirName(now)].payload == Some(bytes)
    case Inserting(entry) =>
      && RunInv(entry.createdAt, clock, h)
      && (entry.status.Skipped? ==> LastCreatedHash(rows) == Some(entry.contentHash))
      && (entry.status.Created? ==>
            && LastCreatedHash(rows) != Some(entry.contentHash)
            && entry.timestampDir == env.dirName(entry.createdAt)
            && entry.timestampDir in dirs && dirs[entry.timestampDir].payload.Some?
            && forall id :: Matches(env, entry.WithId(id), dirs[entry.timestampDir].payload.value))
    case WritingMetadata(e) => NewestInv(h, e)
    case Publishing(e, stage) => NewestInv(h, e) && StageNames(stage, e)
    case AfterRun(ran) => RanInv(ran, rows, clock)
    case Selecting(ran, cutoff) => RanInv(ran, rows, clock) && cutoff <= clock
    case Deleting(ran, doomed, k) => DoomedInv(rows, h.ever, h.cutoff, doomed, k)
    case Removing(ran, doomed, k) => k <= |doomed| && DoomedInv(rows, h.ever, h.cutoff, doomed, |doomed|)
  }

  /** The row just inserted is the newest created one and within retention. */
  ghost predicate NewestInv(h: History, e: BackupEntry) {
    && h.ever != [] && e == h.ever[|h.ever| - 1]
    && h.cutoff <= e.createdAt
  }

  ghost predicate RollInv(env: Env, roll: Roll, ever: seq<BackupEntry>) {
    match roll
    case Idle => true
    case Fetching(_) => true
    case Pointing(e, stage) => e in ever && StageNames(stage, e)
    case Recording(e) => e in ever
    case ReadingPayload(e) => e in ever
    case Uploading(e, bytes) => e in ever && Matches(env, e, bytes)
    case Finishing(e) => e in ever
  }

  /** Every created row is live, returned by a prune, in a prune's hands, or lost to a failed prune. */
  ghost predicate CountInv(s: State) {
    |CreatedIds(s.rows)| + s.hist.returned + s.hist.lost + InFlight(s.sched) == |s.hist.ever|
  }

  ghost predicate Inv(env: Env, s: State) {
    && TableInv(s.rows, s.hist.known, s.hist.ever, s.hist.cutoff)
    && TimeInv(env, s.clock, s.hist.ever, s.hist.cutoff, s.hist.runHour)
    && FilesInv(env, s.rows, s.dirs, s.hist.ever)
    && PointerInv(s.files, s.events, s.hist.ever)
    && SchedInv(env, s.sched, s.rows, s.dirs, s.clock, s.hist)
    && RollInv(env, s.roll, s.hist.ever)
    && CountInv(s)
  }

  lemma InitInv(env: Env, clock: Time)
    requires clock < END
    ensures Inv(env, Init(clock))
  {
    assert CreatedIds(map[]) == {};
  }

  // ----- facts about the invariant

  /** Different created entries never share a directory. */
  lemma DirsDiffer(env: Env, s: State, e: BackupEntry, f: BackupEntry)
    requires NamesSeconds(env.dirName) && TimeInv(env, s.clock, s.hist.ever, s.hist.cutoff, s.hist.runHour)
    requires e in s.hist.ever && f in s.hist.ever && e.timestampDir == f.timestampDir
    ensures e == f
  {
    var i :| 0 <= i < |s.hist.ever| && s.hist.ever[i] == e;
    var j :| 0 <= j < |s.hist.ever| && s.hist.ever[j] == f;
    if i < j { HourlyAt(s.hist.ever, i, j); HourBeforeSecond(e.createdAt, f.createdAt); }
    if j < i { HourlyAt(s.hist.ever, j, i); HourBeforeSecond(f.createdAt, e.createdAt); }
  }

  /** No created entry is named after the second of a run that has not inserted its row. */
  lemma NewDir(env: Env, s: State, now: Time, e: BackupEntry)
    requires NamesSeconds(env.dirName) && TimeInv(env, s.clock, s.hist.ever, s.hist.cutoff, s.hist.runHour)
    requires RunInv(now, s.clock, s.hist) && e in s.hist.ever
    ensures e.timestampDir != env.dirName(now)
  {
    HourBeforeSecond(e.createdAt, now);
  }

  /** While retention has not reached the newest created entry, it is what the query answers. */
  lemma NewestIsLast(env: Env, s: State)
    requires TableInv(s.rows, s.hist.known, s.hist.ever, s.hist.cutoff)
    requires TimeInv(env, s.clock, s.hist.ever, s.hist.cutoff, s.hist.runHour)
    requires s.hist.ever != [] && s.hist.cutoff <= s.hist.ever[|s.hist.ever| - 1].createdAt
    ensures LastCreatedHash(s.rows) == Some(s.hist.ever[|s.hist.ever| - 1].contentHash)
  {
    var e := s.hist.ever[|s.hist.ever| - 1];
    forall id | IsCreated(s.rows, id) && id != e.id ensures s.rows[id].createdAt < e.createdAt {
      var i :| 0 <= i < |s.hist.ever| && s.hist.ever[i] == s.rows[id];
      HourlyAt(s.hist.ever, i, |s.hist.ever| - 1);
      HourBeforeSecond(s.hist.ever[i].createdAt, e.createdAt);
    }
    assert Latest(s.rows, e.id);
    LatestIsLast(s.rows, e.id);
  }

  // ----- steps that change one thing

  lemma TickKeepsInv(env: Env, s: State, to: Time)
    requires Inv(env, s) && s.clock <= to < END
    ensures Inv(env, s.(clock := to))
  {
    HoursGrow(s.clock, to);
  }

  /** Writing into the directory of the run in progress touches no created entry. */
  lemma OwnDirKeepsFiles(env: Env, s: State, now: Time, dir: BackupDir)
    requires NamesSeconds(env.dirName) && Inv(env, s) && RunInv(now, s.clock, s.hist)
    ensures FilesInv(env, s.rows, s.dirs[env.dirName(now) := dir], s.hist.ever)
  {
    forall e | e in s.hist.ever ensures e.timestampDir != env.dirName(now) { NewDir(env, s, now, e); }
    OtherDirKeepsFiles(env, s.rows, s.dirs, s.hist.known, s.hist.ever, s.hist.cutoff, env.dirName(now), dir);
  }

  lemma OtherDirKeepsFiles(env: Env, rows: Rows, dirs: map<string, BackupDir>, known: Rows, ever: seq<BackupEntry>,
                           cutoff: int, d: string, dir: BackupDir)
    requires TableInv(rows, known, ever, cutoff) && FilesInv(env, rows, dirs, ever)
    requires forall e :: e in ever ==> e.timestampDir != d
    ensures FilesInv(env, rows, dirs[d := dir], ever)
  {
  }

  lemma SkippedRowIsIgnored(rows: Rows, e: BackupEntry)
    requires e.status.Skipped? && e.id !in rows
    ensures CreatedIds(rows[e.id := e]) == CreatedIds(rows)
    ensures LastCreatedHash(rows[e.id := e]) == LastCreatedHash(rows)
  {
    assert CreatedRows(rows[e.id := e]) == CreatedRows(rows);
  }

  lemma InsertKeepsTable(rows: Rows, known: Rows, ever: seq<BackupEntry>, cutoff: int, e: BackupEntry)
    requires TableInv(rows, known, ever, cutoff) && e.id !in known
    ensures e.id !in rows
    ensures TableInv(rows[e.id := e], known[e.id := e], if e.status.Created? then ever + [e] else ever, cutoff)
  {
  }

  lemma InsertKeepsTime(env: Env, clock: Time, ever: seq<BackupEntry>, cutoff: int, runHour: int, e: BackupEntry)
    requires TimeInv(env, clock, ever, cutoff, runHour)
    requires e.createdAt <= clock && e.timestampDir == env.dirName(e.createdAt) && HourOf(e.createdAt) == runHour
    requires forall f :: f in ever ==> HourOf(f.createdAt) < runHour
    ensures TimeInv(env, clock, ever + [e], cutoff, runHour)
  {
    assert (ever + [e])[..|ever|] == ever;
  }

  lemma InsertKeepsFiles(env: Env, rows: Rows, dirs: map<string, BackupDir>, ever: seq<BackupEntry>, e: BackupEntry)
    requires FilesInv(env, rows, dirs, ever)
    ensures e.status.Created? && HasPayload(env, dirs, e) ==> FilesInv(env, rows[e.id := e], dirs, ever + [e])
    ensures e.status.Skipped? ==> FilesInv(env, rows[e.id := e], dirs, ever)
  {
    var rows' := rows[e.id := e];
    assert forall id :: IsCreated(rows', id) ==> (id == e.id && e.status.Created?) || IsCreated(rows, id);
  }

  lemma InsertKeepsNames(env: Env, s: State, ever: seq<BackupEntry>, e: BackupEntry)
    requires PointerInv(s.files, s.events, ever) && RollInv(env, s.roll, ever)
    ensures PointerInv(s.files, s.events, ever + [e]) && RollInv(env, s.roll, ever + [e])
  {
    assert forall p :: NamesEver(p, ever) ==> NamesEver(p, ever + [e]);
  }

  lemma InsertKeepsCount(rows: Rows, e: BackupEntry)
    requires e.id !in rows && e.status.Created?
    ensures |CreatedIds(rows[e.id := e])| == |CreatedIds(rows)| + 1
  {
    assert CreatedIds(rows[e.id := e]) == CreatedIds(rows) + {e.id};
  }

  lemma InsertCreatedKeepsInv(env: Env, s: State, e: BackupEntry, next: Sched)
    requires NamesSeconds(env.dirName) && Inv(env, s) && s.sched.Inserting? && Fresh(s, e.id)
    requires e == s.sched.entry.WithId(e.id) && e.status.Created?
    requires next == AfterRun(Failed) || next == WritingMetadata(e)
    ensures Inv(env, Insert(s, e).(sched := next))
  {
    var h := s.hist;
    assert HasPayload(env, s.dirs, e);
    InsertKeepsTable(s.rows, h.known, h.ever, h.cutoff, e);
    InsertKeepsTime(env, s.clock, h.ever, h.cutoff, h.runHour, e);
    InsertKeepsFiles(env, s.rows, s.dirs, h.ever, e);
    InsertKeepsNames(env, s, h.ever, e);
    InsertKeepsCount(s.rows, e);
  }

  lemma InsertSkippedKeepsInv(env: Env, s: State, e: BackupEntry, next: Sched)
    requires Inv(env, s) && s.sched.Inserting? && Fresh(s, e.id)
    requires e == s.sched.entry.WithId(e.id) && e.status.Skipped?
    requires next == AfterRun(Failed) || next == AfterRun(Ok(e.contentHash, e.createdAt))
    ensures Inv(env, Insert(s, e).(sched := next))
  {
    var h := s.hist;
    InsertKeepsTable(s.rows, h.known, h.ever, h.cutoff, e);
    InsertKeepsFiles(env, s.rows, s.dirs, h.ever, e);
    SkippedRan(s.rows, e, s.clock);
    SkipKeepsInv(env, s, s.rows[e.id := e], h.log + [e], h.known[e.id := e], next.ran);
  }

  lemma SkipKeepsInv(env: Env, s: State, rows: Rows, log: seq<BackupEntry>, known: Rows, ran: Ran)
    requires Inv(env, s) && s.sched.Inserting? && RanInv(ran, rows, s.clock) && CreatedIds(rows) == CreatedIds(s.rows)
    requires TableInv(rows, known, s.hist.ever, s.hist.cutoff) && FilesInv(env, rows, s.dirs, s.hist.ever)
    ensures Inv(env, s.(rows := rows, sched := AfterRun(ran), hist := s.hist.(log := log, known := known)))
  {
  }

  lemma SkippedRan(rows: Rows, e: BackupEntry, clock: Time)
    requires e.status.Skipped? && e.id !in rows
    requires LastCreatedHash(rows) == Some(e.contentHash) && e.createdAt <= clock
    ensures CreatedIds(rows[e.id := e]) == CreatedIds(rows)
    ensures RanInv(Ok(e.contentHash, e.createdAt), rows[e.id := e], clock) && RanInv(Failed, rows[e.id := e], clock)
  {
    SkippedRowIsIgnored(rows, e);
  }

  // ----- deleting rows

  lemma DeleteKeepsTable(rows: Rows, rows': Rows, known: Rows, ever: seq<BackupEntry>, cutoff: int, cutoff': int)
    requires TableInv(rows, known, ever, cutoff) && cutoff <= cutoff'
    requires forall id :: id in rows' ==> id in rows && rows'[id] == rows[id]
    requires forall id :: id in rows && !Doomed(rows[id], cutoff') ==> id in rows'
    ensures TableInv(rows', known, ever, cutoff')
  {
  }

  lemma DeleteKeepsFiles(env: Env, rows: Rows, rows': Rows, dirs: map<string, BackupDir>, ever: seq<BackupEntry>)
    requires FilesInv(env, rows, dirs, ever)
    requires forall id :: id in rows' ==> id in rows && rows'[id] == rows[id]
    ensures FilesInv(env, rows', dirs, ever)
  {
    assert forall id :: IsCreated(rows', id) ==> IsCreated(rows, id);
  }

  lemma SelectKeepsInv(env: Env, s: State, doomed: seq<BackupEntry>)
    requires Inv(env, s) && s.sched.Selecting? && Listing(s.rows, s.sched.cutoff, doomed)
    ensures Inv(env, Select(env, s, doomed))
  {
    var s' := Select(env, s, doomed);
    var h := s.hist;
    DeleteKeepsTable(s.rows, s'.rows, h.known, h.ever, h.cutoff, s'.hist.cutoff);
    DeleteKeepsFiles(env, s.rows, s'.rows, s.dirs, h.ever);
    SelectedAreDoomed(s.rows, h.known, h.ever, h.cutoff, s.sched.cutoff, doomed);
    if env.postgres { PruneConserves(s.rows, s.sched.cutoff, doomed); }
  }

  lemma SelectedAreDoomed(rows: Rows, known: Rows, ever: seq<BackupEntry>, before: int, cutoff: int,
                          doomed: seq<BackupEntry>)
    requires TableInv(rows, known, ever, before) && Listing(rows, cutoff, doomed)
    ensures DoomedInv(rows, ever, Max(before, cutoff), doomed, 0)
    ensures DoomedInv(Pruned(rows, cutoff), ever, Max(before, cutoff), doomed, |doomed|)
  {
  }

  lemma DeleteOneKeepsInv(env: Env, s: State)
    requires Inv(env, s) && s.sched.Deleting? && s.sched.k < |s.sched.doomed|
    ensures Inv(env, DeleteOne(s))
  {
    var e := s.sched.doomed[s.sched.k];
    var h := s.hist;
    assert Doomed(e, h.cutoff) && s.rows[e.id] == e;
    DeleteKeepsTable(s.rows, s.rows - {e.id}, h.known, h.ever, h.cutoff, h.cutoff);
    DeleteKeepsFiles(env, s.rows, s.rows - {e.id}, s.dirs, h.ever);
    DeleteOneCounts(s.rows, e.id);
    DeleteKeepsDoomed(s.rows, h.ever, h.cutoff, s.sched.doomed, s.sched.k);
  }

  lemma DeleteKeepsDoomed(rows: Rows, ever: seq<BackupEntry>, cutoff: int, doomed: seq<BackupEntry>, k: nat)
    requires DoomedInv(rows, ever, cutoff, doomed, k) && k < |doomed|
    ensures DoomedInv(rows - {doomed[k].id}, ever, cutoff, doomed, k + 1)
  {
  }

  lemma DeleteOneCounts(rows: Rows, id: Uuid)
    requires IsCreated(rows, id)
    ensures |CreatedIds(rows - {id})| + 1 == |CreatedIds(rows)|
  {
    assert CreatedIds(rows - {id}) == CreatedIds(rows) - {id};
  }

  // ----- removing directories

  /** Whatever happens to the directory of a deleted row, the live rows keep theirs. */
  lemma RemoveKeepsFiles(env: Env, s: State, e: BackupEntry, dirs: map<string, BackupDir>)
    requires NamesSeconds(env.dirName) && Inv(env, s) && e in s.hist.ever && e.id !in s.rows
    requires forall d :: d in s.dirs && d != e.timestampDir ==> d in dirs && dirs[d] == s.dirs[d]
    requires forall d :: d in dirs ==> d in s.dirs && (dirs[d].payload.Some? ==> dirs[d].payload == s.dirs[d].payload)
    ensures FilesInv(env, s.rows, dirs, s.hist.ever)
  {
    forall id | IsCreated(s.rows, id) ensures HasPayload(env, dirs, s.rows[id]) {
      if s.rows[id].timestampDir == e.timestampDir { DirsDiffer(env, s, e, s.rows[id]); }
    }
  }

  /** The directories prune works on are proper children of the backups directory. */
  lemma DoomedDirIsProper(env: Env, s: State, e: BackupEntry)
    requires NamesSeconds(env.dirName) && Inv(env, s) && e in s.hist.ever
    ensures ProperChild(e.timestampDir)
  {
  }

  lemma RemoveKeepsInv(env: Env, s: State, r: Residue)
    requires NamesSeconds(env.dirName) && Inv(env, s) && s.sched.Removing? && s.sched.k < |s.sched.doomed|
    ensures var e := s.sched.doomed[s.sched.k];
            && FilesInv(env, s.rows, WithoutDir(s.dirs, e.timestampDir), s.hist.ever)
            && FilesInv(env, s.rows, Damaged(s.dirs, e.timestampDir, r), s.hist.ever)
  {
    var e := s.sched.doomed[s.sched.k];
    DoomedDirIsProper(env, s, e);
    RemoveKeepsFiles(env, s, e, WithoutDir(s.dirs, e.timestampDir));
    RemoveKeepsFiles(env, s, e, Damaged(s.dirs, e.timestampDir, r));
  }

  // ----- the pointer

  lemma PointerStepKeepsNames(f: Files, stage: Stage, e: BackupEntry, at: Time, events: seq<Uuid>,
                              ever: seq<BackupEntry>)
    requires PointerInv(f, events, ever) && e in ever && StageNames(stage, e)
    requires Step(f, stage, PointerTo(e, at)).Some?
    ensures var step := Step(f, stage, PointerTo(e, at)).value;
            PointerInv(step.files, events, ever) && (step.next.Some? ==> StageNames(step.next.value, e))
  {
    if stage.Fill? { assert NamesEver(stage.p, ever); }
  }

  lemma CutOffKeepsNames(f: Files, fd: nat, p: Pointer, length: nat, events: seq<Uuid>, ever: seq<BackupEntry>)
    requires PointerInv(f, events, ever)
    ensures PointerInv(CutOff(f, fd, p, length), events, ever)
  {
  }

  // ----- every step

  lemma SchedChangeKeepsInv(env: Env, s: State, next: Sched)
    requires Inv(env, s) && InFlight(next) == InFlight(s.sched)
    requires SchedInv(env, next, s.rows, s.dirs, s.clock, s.hist)
    ensures Inv(env, s.(sched := next))
  {
  }

  lemma BeginRunKeepsInv(env: Env, s: State, pick: Pick)
    requires Inv(env, s) && s.sched.Synced?
    ensures Inv(env, SchedNext(env, s, pick).value)
  {
  }

  lemma BeforeInsertKeepsInv(env: Env, s: State, pick: Pick)
    requires Inv(env, s) && SchedNext(env, s, pick).Some?
    requires s.sched.Top? || s.sched.Sleeping? || s.sched.Checking? || s.sched.ReadingStats?
    ensures Inv(env, SchedNext(env, s, pick).value)
  {
    BeforeInsertSched(env, s, pick);
    SchedChangeKeepsInv(env, s, SchedNext(env, s, pick).value.sched);
  }

  lemma BeforeInsertSched(env: Env, s: State, pick: Pick)
    requires SchedInv(env, s.sched, s.rows, s.dirs, s.clock, s.hist) && s.hist.runHour <= HourOf(s.clock)
    requires SchedNext(env, s, pick).Some?
    requires s.sched.Top? || s.sched.Sleeping? || s.sched.Checking? || s.sched.ReadingStats?
    ensures var s' := SchedNext(env, s, pick).value;
            && s' == s.(sched := s'.sched) && InFlight(s'.sched) == InFlight(s.sched)
            && SchedInv(env, s'.sched, s.rows, s.dirs, s.clock, s.hist)
  {
    if s.sched.Top? { SleepReachesNextHour(s.clock); }
    if s.sched.Sleeping? { HoursGrow(s.sched.until, s.clock); }
  }

  lemma WritingKeepsInv(env: Env, s: State, pick: Pick)
    requires NamesSeconds(env.dirName) && Inv(env, s) && SchedNext(env, s, pick).Some?
    requires s.sched.MakingDir? || s.sched.WritingPayload?
    ensures Inv(env, SchedNext(env, s, pick).value)
  {
    var d := env.dirName(s.sched.now);
    OwnDirKeepsFiles(env, s, s.sched.now, SchedNext(env, s, pick).value.dirs[d]);
  }

  lemma MetadataKeepsInv(env: Env, s: State, file: File<BackupEntry>, next: Sched)
    requires Inv(env, s) && s.sched.WritingMetadata?
    requires next == AfterRun(Failed) || next == Publishing(s.sched.e, Stamp)
    ensures var d := s.sched.e.timestampDir;
            Inv(env, WithDir(s, d, DirAt(s, d).(metadata := Some(file))).(sched := next))
  {
    var d := s.sched.e.timestampDir;
    MetadataKeepsFiles(env, s.rows, s.dirs, s.hist.ever, d, DirAt(s, d).(metadata := Some(file)));
  }

  lemma MetadataKeepsFiles(env: Env, rows: Rows, dirs: map<string, BackupDir>, ever: seq<BackupEntry>, d: string,
                           dir: BackupDir)
    requires FilesInv(env, rows, dirs, ever)
    requires dir.payload == if d in dirs then dirs[d].payload else None
    ensures FilesInv(env, rows, dirs[d := dir], ever)
  {
  }

  lemma NewestHasRun(env: Env, s: State, e: BackupEntry)
    requires TableInv(s.rows, s.hist.known, s.hist.ever, s.hist.cutoff)
    requires TimeInv(env, s.clock, s.hist.ever, s.hist.cutoff, s.hist.runHour)
    requires NewestInv(s.hist, e)
    ensures RanInv(Ok(e.contentHash, e.createdAt), s.rows, s.clock)
  {
    NewestIsLast(env, s);
  }

  lemma FilesChangeKeepsInv(env: Env, s: State, files: Files, next: Sched)
    requires Inv(env, s) && PointerInv(files, s.events, s.hist.ever) && InFlight(next) == InFlight(s.sched)
    requires SchedInv(env, next, s.rows, s.dirs, s.clock, s.hist)
    ensures Inv(env, s.(files := files, sched := next))
  {
  }

  lemma PublishKeepsInv(env: Env, s: State, files: Files, next: Sched)
    requires Inv(env, s) && s.sched.Publishing?
    requires PointerInv(files, s.events, s.hist.ever)
    requires next == AfterRun(Ok(s.sched.e.contentHash, s.sched.e.createdAt))
             || (next.Publishing? && next.e == s.sched.e && StageNames(next.stage, s.sched.e))
    ensures Inv(env, s.(files := files, sched := next))
  {
    if next.AfterRun? { NewestHasRun(env, s, s.sched.e); }
    FilesChangeKeepsInv(env, s, files, next);
  }

  lemma PublishingKeepsInv(env: Env, s: State, pick: Pick)
    requires Inv(env, s) && SchedNext(env, s, pick).Some? && s.sched.Publishing?
    ensures Inv(env, SchedNext(env, s, pick).value)
  {
    var s' := SchedNext(env, s, pick).value;
    PointerStepKeepsNames(s.files, s.sched.stage, s.sched.e, s.clock, s.events, s.hist.ever);
    PublishKeepsInv(env, s, s'.files, s'.sched);
  }

  lemma EndCycleKeepsInv(env: Env, s: State)
    requires Inv(env, s) && (s.sched.AfterRun? || s.sched.Removing?)
    ensures Inv(env, EndCycle(s))
  {
  }

  lemma BeginPruneKeepsInv(env: Env, s: State, pick: Pick)
    requires Inv(env, s) && s.sched.AfterRun? && SchedNext(env, s, pick).Some?
    ensures Inv(env, SchedNext(env, s, pick).value)
  {
    if env.retentionDays <= 0 { EndCycleKeepsInv(env, s); }
  }

  lemma RemovingKeepsInv(env: Env, s: State, pick: Pick)
    requires NamesSeconds(env.dirName) && Inv(env, s) && s.sched.Removing? && SchedNext(env, s, pick).Some?
    ensures Inv(env, SchedNext(env, s, pick).value)
  {
    if s.sched.k < |s.sched.doomed| {
      RemoveKeepsInv(env, s, Residue(pick.id, [], false, BackupDir(None, None), 0));
    } else {
      EndCycleKeepsInv(env, s);
    }
  }

  lemma InsertingKeepsInv(env: Env, s: State, pick: Pick)
    requires NamesSeconds(env.dirName) && Inv(env, s) && SchedNext(env, s, pick).Some? && s.sched.Inserting?
    ensures Inv(env, SchedNext(env, s, pick).value)
  {
    var e, next := s.sched.entry.WithId(pick.id), SchedNext(env, s, pick).value.sched;
    if e.status.Created? { InsertCreatedKeepsInv(env, s, e, next); } else { InsertSkippedKeepsInv(env, s, e, next); }
  }

  lemma DeletingKeepsInv(env: Env, s: State, pick: Pick)
    requires Inv(env, s) && SchedNext(env, s, pick).Some? && s.sched.Deleting?
    ensures Inv(env, SchedNext(env, s, pick).value)
  {
    if s.sched.k < |s.sched.doomed| { DeleteOneKeepsInv(env, s); } else { LoopEndKeepsInv(env, s); }
  }

  lemma LoopEndKeepsInv(env: Env, s: State)
    requires Inv(env, s) && s.sched.Deleting? && s.sched.k == |s.sched.doomed|
    ensures Inv(env, s.(sched := Removing(s.sched.ran, s.sched.doomed, 0), hist := s.hist.(partial := false)))
  {
  }

  lemma SelectingKeepsInv(env: Env, s: State, pick: Pick)
    requires Inv(env, s) && SchedNext(env, s, pick).Some? && s.sched.Selecting?
    ensures Inv(env, SchedNext(env, s, pick).value)
  {
    SelectKeepsInv(env, s, pick.doomed);
  }

  lemma RunStepKeepsInv(env: Env, s: State, pick: Pick)
    requires NamesSeconds(env.dirName) && Inv(env, s) && SchedNext(env, s, pick).Some?
    requires !s.sched.AfterRun? && !s.sched.Selecting? && !s.sched.Deleting? && !s.sched.Removing?
    ensures Inv(env, SchedNext(env, s, pick).value)
  {
    match s.sched
    case MakingDir(_, _) => WritingKeepsInv(env, s, pick);
    case WritingPayload(_, _) => WritingKeepsInv(env, s, pick);
    case Inserting(_) => InsertingKeepsInv(env, s, pick);
    case WritingMetadata(e) => MetadataKeepsInv(env, s, Whole(e), Publishing(e, Stamp));
    case Publishing(_, _) => PublishingKeepsInv(env, s, pick);
    case Synced(_) => BeginRunKeepsInv(env, s, pick);
    case _ => BeforeInsertKeepsInv(env, s, pick);
  }

  lemma SchedNextKeepsInv(env: Env, s: State, pick: Pick)
    requires NamesSeconds(env.dirName) && Inv(env, s) && SchedNext(env, s, pick).Some?
    ensures Inv(env, SchedNext(env, s, pick).value)
  {
    match s.sched
    case AfterRun(_) => BeginPruneKeepsInv(env, s, pick);
    case Selecting(_, _) => SelectingKeepsInv(env, s, pick);
    case Deleting(_, _, _) => DeletingKeepsInv(env, s, pick);
    case Removing(_, _, _) => RemovingKeepsInv(env, s, pick);
    case _ => RunStepKeepsInv(env, s, pick);
  }

  lemma FailKeepsInv(env: Env, s: State)
    requires Inv(env, s)
    ensures Inv(env, FailPrune(s))
    ensures InFlight(s.sched) == 0 ==> Inv(env, FailRun(s))
    ensures Inv(env, Restart(s))
  {
  }

  lemma DirChangeKeepsInv(env: Env, s: State, dirs: map<string, BackupDir>)
    requires Inv(env, s) && FilesInv(env, s.rows, dirs, s.hist.ever) && InFlight(s.sched) == 0
    ensures Inv(env, FailRun(s.(dirs := dirs)))
  {
  }

  lemma FailedInsertKeepsInv(env: Env, s: State, id: Uuid)
    requires NamesSeconds(env.dirName) && Inv(env, s) && s.sched.Inserting? && Fresh(s, id)
    ensures Inv(env, FailRun(Insert(s, s.sched.entry.WithId(id))))
  {
    var e := s.sched.entry.WithId(id);
    if e.status.Created? {
      InsertCreatedKeepsInv(env, s, e, AfterRun(Failed));
    } else {
      InsertSkippedKeepsInv(env, s, e, AfterRun(Failed));
    }
    FailKeepsInv(env, Insert(s, e).(sched := AfterRun(Failed)));
  }

  lemma FailedRunKeepsInv(env: Env, s: State, r: Residue)
    requires NamesSeconds(env.dirName) && Inv(env, s) && SchedFails(env, s, r).Some?
    requires s.sched.MakingDir? || s.sched.WritingPayload? || s.sched.Inserting? || s.sched.WritingMetadata?
             || s.sched.Publishing?
    requires r.applied
    ensures Inv(env, SchedFails(env, s, r).value)
  {
    if s.sched.Inserting? {
      FailedInsertKeepsInv(env, s, r.id);
    } else if s.sched.Publishing? {
      FailedPublishKeepsInv(env, s, r);
    } else {
      FailedWriteKeepsInv(env, s, r);
    }
  }

  lemma FailedPublishKeepsInv(env: Env, s: State, r: Residue)
    requires Inv(env, s) && SchedFails(env, s, r).Some? && s.sched.Publishing? && r.applied
    ensures Inv(env, SchedFails(env, s, r).value)
  {
    if s.sched.stage.Fill? {
      CutOffKeepsNames(s.files, s.sched.stage.fd, s.sched.stage.p, r.length, s.events, s.hist.ever);
      FilesChangeKeepsInv(env, s, CutOff(s.files, s.sched.stage.fd, s.sched.stage.p, r.length), AfterRun(Failed));
    } else {
      FailKeepsInv(env, s);
    }
  }

  lemma FailedWriteKeepsInv(env: Env, s: State, r: Residue)
    requires NamesSeconds(env.dirName) && Inv(env, s) && SchedFails(env, s, r).Some?
    requires s.sched.MakingDir? || s.sched.WritingPayload? || s.sched.WritingMetadata?
    requires r.applied
    ensures Inv(env, SchedFails(env, s, r).value)
  {
    match s.sched
    case MakingDir(now, _) =>
      var d := env.dirName(now);
      OwnDirKeepsFiles(env, s, now, DirAt(s, d));
      DirChangeKeepsInv(env, s, s.dirs[d := DirAt(s, d)]);
    case WritingPayload(now, _) =>
      OwnDirKeepsFiles(env, s, now, r.dir);
      DirChangeKeepsInv(env, s, s.dirs[env.dirName(now) := r.dir]);
    case WritingMetadata(e) =>
      var d := e.timestampDir;
      var dir := DirAt(s, d).(metadata := Some(Torn));
      MetadataKeepsFiles(env, s.rows, s.dirs, s.hist.ever, d, dir);
      DirChangeKeepsInv(env, s, s.dirs[d := dir]);
  }

  lemma FailedSelectKeepsInv(env: Env, s: State, r: Residue)
    requires Inv(env, s) && s.sched.Selecting? && SchedFails(env, s, r).Some?
    ensures Inv(env, SchedFails(env, s, r).value)
  {
    if r.applied && env.postgres {
      SelectKeepsInv(env, s, r.doomed);
      FailKeepsInv(env, Select(env, s, r.doomed));
    } else {
      FailKeepsInv(env, s);
    }
  }

  lemma FailedDeleteKeepsInv(env: Env, s: State, r: Residue)
    requires Inv(env, s) && s.sched.Deleting? && SchedFails(env, s, r).Some?
    ensures Inv(env, SchedFails(env, s, r).value)
  {
    if r.applied {
      DeleteOneKeepsInv(env, s);
      FailKeepsInv(env, DeleteOne(s));
    } else {
      FailKeepsInv(env, s);
    }
  }

  lemma FailedRemoveKeepsInv(env: Env, s: State, r: Residue)
    requires NamesSeconds(env.dirName) && Inv(env, s) && s.sched.Removing? && SchedFails(env, s, r).Some?
    ensures Inv(env, SchedFails(env, s, r).value)
  {
    RemoveKeepsInv(env, s, r);
    DirsKeepInv(env, s, Damaged(s.dirs, s.sched.doomed[s.sched.k].timestampDir, r));
  }

  lemma DirsKeepInv(env: Env, s: State, dirs: map<string, BackupDir>)
    requires Inv(env, s) && FilesInv(env, s.rows, dirs, s.hist.ever) && s.sched.Removing?
    ensures Inv(env, FailPrune(s.(dirs := dirs)))
  {
  }

  lemma SchedFailsKeepsInv(env: Env, s: State, r: Residue)
    requires NamesSeconds(env.dirName) && Inv(env, s) && SchedFails(env, s, r).Some?
    ensures Inv(env, SchedFails(env, s, r).value)
  {
    if s.sched.Selecting? {
      FailedSelectKeepsInv(env, s, r);
    } else if s.sched.Deleting? {
      FailedDeleteKeepsInv(env, s, r);
    } else if s.sched.Removing? {
      FailedRemoveKeepsInv(env, s, r);
    } else if r.applied && !s.sched.Sleeping? && !s.sched.Checking? && !s.sched.ReadingStats? {
      FailedRunKeepsInv(env, s, r);
    } else {
      FailKeepsInv(env, s);
    }
  }

  /** What the rollback handler does to the state, and that it keeps its own part of the invariant. */
  lemma RollNextParts(env: Env, s: State)
    requires TableInv(s.rows, s.hist.known, s.hist.ever, s.hist.cutoff) && FilesInv(env, s.rows, s.dirs, s.hist.ever)
    requires PointerInv(s.files, s.events, s.hist.ever) && RollInv(env, s.roll, s.hist.ever) && RollNext(env, s).Some?
    ensures var s' := RollNext(env, s).value;
            && s' == s.(files := s'.files, events := s'.events, remote := s'.remote, gate := s'.gate,
                        stamps := s'.stamps, roll := s'.roll)
            && PointerInv(s'.files, s'.events, s.hist.ever) && RollInv(env, s'.roll, s.hist.ever)
  {
    if s.roll.Pointing? {
      PointerStepKeepsNames(s.files, s.roll.stage, s.roll.e, s.clock, s.events, s.hist.ever);
    } else if s.roll.Recording? {
      EventKeepsNames(s.files, s.events, s.hist.ever, s.roll.e);
    }
  }

  lemma EventKeepsNames(files: Files, events: seq<Uuid>, ever: seq<BackupEntry>, e: BackupEntry)
    requires PointerInv(files, events, ever) && e in ever
    ensures PointerInv(files, events + [e.id], ever)
  {
  }

  lemma RollFailsParts(env: Env, s: State, applied: bool, length: nat)
    requires PointerInv(s.files, s.events, s.hist.ever) && RollInv(env, s.roll, s.hist.ever)
    requires RollFails(s, applied, length).Some?
    ensures var s' := RollFails(s, applied, length).value;
            && s' == s.(files := s'.files, events := s'.events, remote := s'.remote, gate := s'.gate,
                        stamps := s'.stamps, roll := s'.roll)
            && PointerInv(s'.files, s'.events, s.hist.ever) && RollInv(env, s'.roll, s.hist.ever)
  {
    if s.roll.Pointing? && s.roll.stage.Fill? {
      CutOffKeepsNames(s.files, s.roll.stage.fd, s.roll.stage.p, length, s.events, s.hist.ever);
    } else if s.roll.Recording? {
      EventKeepsNames(s.files, s.events, s.hist.ever, s.roll.e);
    }
  }

  lemma RollChangeKeepsInv(env: Env, s: State, files: Files, events: seq<Uuid>, remote: Option<Bytes>,
                           gate: Option<Time>, stamps: seq<Time>, roll: Roll)
    requires Inv(env, s) && PointerInv(files, events, s.hist.ever) && RollInv(env, roll, s.hist.ever)
    ensures Inv(env, s.(files := files, events := events, remote := remote, gate := gate, stamps := stamps,
                        roll := roll))
  {
  }

  lemma RollNextKeepsInv(env: Env, s: State)
    requires Inv(env, s) && RollNext(env, s).Some?
    ensures Inv(env, RollNext(env, s).value)
  {
    RollNextParts(env, s);
    var s' := RollNext(env, s).value;
    RollChangeKeepsInv(env, s, s'.files, s'.events, s'.remote, s'.gate, s'.stamps, s'.roll);
  }

  lemma RollFailsKeepsInv(env: Env, s: State, applied: bool, length: nat)
    requires Inv(env, s) && RollFails(s, applied, length).Some?
    ensures Inv(env, RollFails(s, applied, length).value)
  {
    RollFailsParts(env, s, applied, length);
    var s' := RollFails(s, applied, length).value;
    RollChangeKeepsInv(env, s, s'.files, s'.events, s'.remote, s'.gate, s'.stamps, s'.roll);
  }

  /** One step of anything keeps the invariant. */
  lemma NextKeepsInv(env: Env, s: State, l: Label)
    requires NamesSeconds(env.dirName) && Inv(env, s) && Next(env, s, l).Some?
    ensures Inv(env, Next(env, s, l).value)
  {
    match l
    case Tick(to) => TickKeepsInv(env, s, to);
    case Elsewhere(_) =>
    case Crash => FailKeepsInv(env, s);
    case SchedOk(pick) => SchedNextKeepsInv(env, s, pick);
    case SchedFault(r) => SchedFailsKeepsInv(env, s, r);
    case Request(_) =>
    case RollOk => RollNextKeepsInv(env, s);
    case RollFault(applied, length) => RollFailsKeepsInv(env, s, applied, length);
  }
}
