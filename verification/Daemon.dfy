/** The daemon as a state machine over its single I/O steps.

    Two threads run: the scheduler loop (sleep, sync, `run_once`, prune) and one
    rollback handler (requests queue on the gate).  Each program counter below
    names the next I/O call; a label lets that call succeed or fail.  A failing
    call may leave a residue (a cut-off file, a half-removed directory, a row
    written or a collection uploaded although the reply was lost).  The process
    may die and restart between any two steps, which together with a residue also
    covers dying in the middle of a call.

    The history component is not read by any step; it records what has happened
    for the statements of the theorems. */
module Daemon {
  import opened ByteText
  import opened Calendar
  import opened Rfc3339
  import opened Backup
  import opened Table
  import opened PointerFile
  import opened Scheduler

  /** What the daemon is configured with and the library functions it calls. */
  datatype Env = Env(
    hash: Bytes -> string,                  // content_hash
    stats: Bytes -> Option<BackupStats>,    // extract_stats, None for an error
    dirName: Time -> string,                // format_timestamp_dir
    retentionDays: int,
    postgres: bool,                         // else SQLite
    uploads: bool)                          // AnkiWeb credentials are configured

  datatype BackupDir = BackupDir(payload: Option<Bytes>, metadata: Option<File<BackupEntry>>)

  /** The result of the `run_once` call of a cycle. */
  datatype Ran = Failed | Ok(hash: string, now: Time)

  datatype Sched =
    | Top
    | Sleeping(until: int)
    | Synced(bytes: Bytes)
    | Checking(now: Time, bytes: Bytes)
    | MakingDir(now: Time, bytes: Bytes)
    | WritingPayload(now: Time, bytes: Bytes)
    | ReadingStats(now: Time, bytes: Bytes)
    | Inserting(entry: NewBackupEntry)
    | WritingMetadata(e: BackupEntry)
    | Publishing(e: BackupEntry, stage: Stage)
    | AfterRun(ran: Ran)
    | Selecting(ran: Ran, cutoff: int)
    | Deleting(ran: Ran, doomed: seq<BackupEntry>, k: nat)
    | Removing(ran: Ran, doomed: seq<BackupEntry>, k: nat)

  datatype Roll =
    | Idle
    | Fetching(id: Uuid)
    | Pointing(e: BackupEntry, stage: Stage)
    | Recording(e: BackupEntry)
    | ReadingPayload(e: BackupEntry)
    | Uploading(e: BackupEntry, bytes: Bytes)
    | Finishing(e: BackupEntry)

  datatype History = History(
    log: seq<BackupEntry>,      // every row ever inserted, in order
    known: Rows,                // the same by id
    ever: seq<BackupEntry>,     // the created ones among them
    cutoff: int,                // the largest cutoff a prune has applied
    runHour: int,               // the hour in which the latest run_once began
    returned: nat,              // the sum of the counts completed prunes returned
    lost: nat,                  // rows deleted by prunes that never returned a count
    partial: bool,              // a SQLite prune is in its delete loop or died there
    inputs: seq<Bytes>,         // the collections run_once was given, in order
    began: seq<Time>)           // when those calls of run_once began

  datatype State = State(
    rows: Rows,
    dirs: map<string, BackupDir>,
    files: Files,
    events: seq<Uuid>,
    clock: Time,
    remote: Option<Bytes>,      // the collection on AnkiWeb, None when empty
    sched: Sched,
    roll: Roll,
    gate: Option<Time>,
    stamps: seq<Time>,          // completion times of this process's successful rollbacks
    hist: History)

  /** The choices the outside makes for a successful step. */
  datatype Pick = Pick(
    id: Uuid, doomed: seq<BackupEntry>, sourceRevision: Option<string>, syncMs: Option<int>)

  /** What a failing call leaves behind. */
  datatype Residue = Residue(
    id: Uuid, doomed: seq<BackupEntry>, applied: bool, dir: BackupDir, length: nat)

  datatype Label =
    | Tick(to: Time)
    | Elsewhere(content: Option<Bytes>)     // another AnkiWeb client syncs
    | Crash
    | SchedOk(pick: Pick)
    | SchedFault(residue: Residue)
    | Request(id: Uuid)
    | RollOk
    | RollFault(applied: bool, length: nat)

  function Init(clock: Time): State {
    State(map[], map[], NO_FILES, [], clock, None, Top, Idle, None, [],
          History([], map[], [], 0, -1, 0, 0, false, [], []))
  }

  // ----- pieces of the steps

  function WithDir(s: State, d: string, dir: BackupDir): State { s.(dirs := s.dirs[d := dir]) }

  function DirAt(s: State, d: string): BackupDir {
    if d in s.dirs then s.dirs[d] else BackupDir(None, None)
  }

  /** Removing the path `backups/` joined with `d`; the empty name is the root of all backups. */
  function WithoutDir(dirs: map<string, BackupDir>, d: string): map<string, BackupDir> {
    if d == "" then map[] else dirs - {d}
  }

  function Max(a: int, b: int): int { if a < b then b else a }

  /** A version 4 UUID that has not been drawn before. */
  predicate Fresh(s: State, id: Uuid) { id !in s.hist.known }

  /** `INSERT INTO backups`. */
  function Insert(s: State, e: BackupEntry): State {
    s.(rows := s.rows[e.id := e],
       hist := s.hist.(log := s.hist.log + [e], known := s.hist.known[e.id := e],
                       ever := if e.status.Created? then s.hist.ever + [e] else s.hist.ever))
  }

  /** `run_once` reports an error; the loop logs it and goes on to prune. */
  function FailRun(s: State): State {
    s.(sched := AfterRun(Failed))
  }

  /** The prune reports an error, its count is lost. */
  function FailPrune(s: State): State {
    s.(sched := Top, hist := s.hist.(lost := s.hist.lost + InFlight(s.sched)))
  }

  /** Rows the prune in progress has deleted so far. */
  function InFlight(p: Sched): nat {
    match p
    case Deleting(_, doomed, k) => k
    case Removing(_, doomed, _) => |doomed|
    case _ => 0
  }

  /** The cycle is over; a prune that ran returns its count. */
  function EndCycle(s: State): State {
    s.(sched := Top, hist := s.hist.(returned := s.hist.returned + InFlight(s.sched)))
  }

  /** The time before which created rows are deleted.  Postgres compares whole microseconds. */
  function CutoffAt(env: Env, now: Time): int {
    var c := now - env.retentionDays * DAY;
    if env.postgres then WholeMicros(c) else c
  }

  function Cutoff(env: Env, s: State): int { CutoffAt(env, s.clock) }

  lemma CutoffsGrow(env: Env, t: Time, u: Time)
    requires t <= u
    ensures CutoffAt(env, t) <= CutoffAt(env, u)
  {
    MicrosGrow(t - env.retentionDays * DAY, u - env.retentionDays * DAY);
  }

  /** A backup made at `t` is at most as many days old at `now` as it is kept; on Postgres by the microsecond. */
  ghost predicate Recent(env: Env, now: Time, t: Time) {
    if env.postgres then (now - env.retentionDays * 86_400_000_000_000) / 1_000 <= t / 1_000
    else now <= t + env.retentionDays * 86_400_000_000_000
  }

  /** The cutoff divides the recent from the old. */
  lemma CutoffMeans(env: Env, now: Time, t: Time)
    ensures CutoffAt(env, now) <= t <==> Recent(env, now, t)
  {
    if env.postgres { FloorCompares(now - env.retentionDays * DAY, t); }
  }

  lemma FloorCompares(c: int, t: int)
    ensures WholeMicros(c) <= t <==> c / 1_000 <= t / 1_000
  {
  }

  ghost function Select(env: Env, s: State, doomed: seq<BackupEntry>): State
    requires s.sched.Selecting?
  {
    var s1 := s.(hist := s.hist.(cutoff := Max(s.hist.cutoff, s.sched.cutoff)));
    if env.postgres then s1.(rows := Pruned(s.rows, s.sched.cutoff), sched := Removing(s.sched.ran, doomed, 0))
    else s1.(sched := Deleting(s.sched.ran, doomed, 0), hist := s1.hist.(partial := true))
  }

  function DeleteOne(s: State): State
    requires s.sched.Deleting? && s.sched.k < |s.sched.doomed|
  {
    s.(rows := s.rows - {s.sched.doomed[s.sched.k].id},
       sched := Deleting(s.sched.ran, s.sched.doomed, s.sched.k + 1))
  }

  // ----- the scheduler thread

  /** The next call of the scheduler succeeds. */
  ghost function SchedNext(env: Env, s: State, pick: Pick): Option<State> {
    match s.sched
    case Top => Some(s.(sched := Sleeping(WakeAt(s.clock))))
    case Sleeping(until) =>
      if s.clock < until || s.remote.None? then None else Some(s.(sched := Synced(s.remote.value)))
    case Synced(bytes) =>
      Some(s.(sched := Checking(s.clock, bytes),
              hist := s.hist.(runHour := HourOf(s.clock), inputs := s.hist.inputs + [bytes],
                              began := s.hist.began + [s.clock])))
    case Checking(now, bytes) =>
      if LastCreatedHash(s.rows) == Some(env.hash(bytes))
      then Some(s.(sched := Inserting(NewSkippedUnchanged(now, env.hash(bytes)))))
      else Some(s.(sched := MakingDir(now, bytes)))
    case MakingDir(now, bytes) =>
      var d := env.dirName(now);
      Some(WithDir(s, d, DirAt(s, d)).(sched := WritingPayload(now, bytes)))
    case WritingPayload(now, bytes) =>
      var d := env.dirName(now);
      Some(WithDir(s, d, DirAt(s, d).(payload := Some(bytes))).(sched := ReadingStats(now, bytes)))
    case ReadingStats(now, bytes) =>
      var d := env.dirName(now);
      var file := DirAt(s, d).payload;
      if file.None? || env.stats(file.value).None? then None
      else
        var entry := NewCreated(now, d, env.hash(bytes), pick.sourceRevision, pick.syncMs, |file.value|,
                                env.stats(file.value).value);
        Some(s.(sched := Inserting(entry)))
    case Inserting(entry) =>
      if !Fresh(s, pick.id) then None
      else
        var e := entry.WithId(pick.id);
        var next := if e.status.Created? then WritingMetadata(e) else AfterRun(Ok(e.contentHash, e.createdAt));
        Some(Insert(s, e).(sched := next))
    case WritingMetadata(e) =>
      var d := e.timestampDir;
      Some(WithDir(s, d, DirAt(s, d).(metadata := Some(Whole(e)))).(sched := Publishing(e, Stamp)))
    case Publishing(e, stage) =>
      var step := Step(s.files, stage, PointerTo(e, s.clock));
      if step.None? then None
      else
        var next := if step.value.next.Some? then Publishing(e, step.value.next.value)
                    else AfterRun(Ok(e.contentHash, e.createdAt));
        Some(s.(files := step.value.files, sched := next))
    case AfterRun(ran) =>
      if env.retentionDays <= 0 then Some(EndCycle(s))
      else Some(s.(sched := Selecting(ran, Cutoff(env, s))))
    case Selecting(_, cutoff) =>
      if Listing(s.rows, cutoff, pick.doomed) then Some(Select(env, s, pick.doomed)) else None
    case Deleting(ran, doomed, k) =>
      if k < |doomed| then Some(DeleteOne(s))
      else Some(s.(sched := Removing(ran, doomed, 0), hist := s.hist.(partial := false)))
    case Removing(ran, doomed, k) =>
      if k < |doomed|
      then Some(s.(dirs := WithoutDir(s.dirs, doomed[k].timestampDir), sched := Removing(ran, doomed, k + 1)))
      else Some(EndCycle(s))
  }

  /** The next call of the scheduler fails and leaves `r` behind. */
  ghost function SchedFails(env: Env, s: State, r: Residue): Option<State> {
    match s.sched
    case Sleeping(until) =>
      if s.clock < until then None else Some(s.(sched := Top))
    case Checking(_, _) => Some(FailRun(s))
    case MakingDir(now, _) =>
      var d := env.dirName(now);
      Some(FailRun(if r.applied then WithDir(s, d, DirAt(s, d)) else s))
    case WritingPayload(now, _) =>
      var d := env.dirName(now);
      Some(FailRun(if r.applied then WithDir(s, d, r.dir) else s))
    case ReadingStats(_, _) => Some(FailRun(s))
    case Inserting(entry) =>
      if r.applied && !Fresh(s, r.id) then None
      else Some(FailRun(if r.applied then Insert(s, entry.WithId(r.id)) else s))
    case WritingMetadata(e) =>
      var d := e.timestampDir;
      Some(FailRun(if r.applied then WithDir(s, d, DirAt(s, d).(metadata := Some(Torn))) else s))
    case Publishing(e, stage) =>
      Some(FailRun(if r.applied && stage.Fill? then s.(files := CutOff(s.files, stage.fd, stage.p, r.length)) else s))
    case Selecting(_, cutoff) =>
      if r.applied && env.postgres then
        if Listing(s.rows, cutoff, r.doomed) then Some(FailPrune(Select(env, s, r.doomed))) else None
      else Some(FailPrune(s))
    case Deleting(_, doomed, k) =>
      if k < |doomed| then Some(FailPrune(if r.applied then DeleteOne(s) else s)) else None
    case Removing(_, doomed, k) =>
      if k < |doomed| then Some(FailPrune(s.(dirs := Damaged(s.dirs, doomed[k].timestampDir, r)))) else None
    case _ => None
  }

  /** A removal that failed half way: each file of the directory is gone or untouched. */
  function Damaged(dirs: map<string, BackupDir>, d: string, r: Residue): map<string, BackupDir> {
    if d == "" then (if r.applied then map[] else dirs)
    else if d in dirs then
      dirs[d := BackupDir(if r.dir.payload.None? then None else dirs[d].payload,
                          if r.dir.metadata.None? then None else dirs[d].metadata)]
    else dirs
  }

  // ----- the rollback handler

  /** A request that finds the gate closed is turned away; the others hold the gate until they end. */
  predicate GateOpen(s: State) { s.gate.None? || (s.clock - s.gate.value) / SECOND >= 10 }

  ghost function RollNext(env: Env, s: State): Option<State> {
    match s.roll
    case Idle => None
    case Fetching(id) =>
      if IsCreated(s.rows, id) then Some(s.(roll := Pointing(s.rows[id], Stamp))) else None
    case Pointing(e, stage) =>
      var step := Step(s.files, stage, PointerTo(e, s.clock));
      if step.None? then None
      else
        var next := if step.value.next.Some? then Pointing(e, step.value.next.value) else Recording(e);
        Some(s.(files := step.value.files, roll := next))
    case Recording(e) =>
      Some(s.(events := s.events + [e.id], roll := if env.uploads then ReadingPayload(e) else Finishing(e)))
    case ReadingPayload(e) =>
      var file := DirAt(s, e.timestampDir).payload;
      if file.None? then None else Some(s.(roll := Uploading(e, file.value)))
    case Uploading(e, bytes) => Some(s.(remote := Some(bytes), roll := Finishing(e)))
    case Finishing(e) => Some(s.(gate := Some(s.clock), stamps := s.stamps + [s.clock], roll := Idle))
  }

  ghost function RollFails(s: State, applied: bool, length: nat): Option<State> {
    match s.roll
    case Idle => None
    case Finishing(_) => None
    case Pointing(_, Fill(p, fd)) =>
      Some(s.(files := if applied then CutOff(s.files, fd, p, length) else s.files, roll := Idle))
    case Recording(e) => Some(s.(events := if applied then s.events + [e.id] else s.events, roll := Idle))
    case Uploading(e, bytes) => Some(s.(remote := if applied then Some(bytes) else s.remote, roll := Idle))
    case _ => Some(s.(roll := Idle))
  }

  // ----- runs

  /** The process dies and is started again: memory is lost, disk and database stay. */
  function Restart(s: State): State {
    s.(sched := Top, roll := Idle, gate := None, stamps := [],
       hist := s.hist.(lost := s.hist.lost + InFlight(s.sched)))
  }

  ghost function Next(env: Env, s: State, l: Label): Option<State> {
    match l
    case Tick(to) => if s.clock <= to < END then Some(s.(clock := to)) else None
    case Elsewhere(content) => Some(s.(remote := content))
    case Crash => Some(Restart(s))
    case SchedOk(pick) => SchedNext(env, s, pick)
    case SchedFault(r) => SchedFails(env, s, r)
    case Request(id) => if s.roll.Idle? && GateOpen(s) then Some(s.(roll := Fetching(id))) else None
    case RollOk => RollNext(env, s)
    case RollFault(applied, length) => RollFails(s, applied, length)
  }

  /** The state after the labels in order; `None` when one of them is impossible. */
  ghost function Run(env: Env, s: State, ls: seq<Label>): Option<State>
    decreases ls
  {
    if ls == [] then Some(s)
    else
      var s1 := Next(env, s, ls[0]);
      if s1.None? then None else Run(env, s1.value, ls[1..])
  }
}
