/** What is on disk besides the payloads of live backups: nothing after undisturbed cycles, and what a
    disturbed one leaves stays for good. */
module DaemonDisk {
  import opened ByteText
  import opened Calendar
  import opened Rfc3339
  import opened Backup
  import opened Table
  import opened Scheduler
  import opened Daemon
  import opened DaemonInvariant
  import opened DaemonHistory
  import opened DaemonTheorems

  function LiveDirs(rows: Rows): set<string> {
    set id | id in rows && rows[id].status.Created? :: rows[id].timestampDir
  }

  /** Directories without a row: of a backup being made, or of rows a prune has deleted. */
  ghost function Pending(env: Env, sched: Sched): set<string> {
    match sched
    case WritingPayload(now, _) => {env.dirName(now)}
    case ReadingStats(now, _) => {env.dirName(now)}
    case Inserting(entry) => if entry.status.Created? then {entry.timestampDir} else {}
    case Deleting(_, doomed, k) => if k <= |doomed| then Names(doomed[..k]) else {}
    case Removing(_, doomed, k) => if k <= |doomed| then Names(doomed[k..]) else {}
    case _ => {}
  }

  ghost predicate DirsInv(env: Env, s: State) { s.dirs.Keys == LiveDirs(s.rows) + Pending(env, s.sched) }

  /** A backup is being made, or a prune is under way. */
  predicate Delicate(p: Sched) {
    p.MakingDir? || p.WritingPayload? || p.ReadingStats? || p.Inserting? || InPrune(p)
  }

  /** No fault and no restart while a backup is being made or a prune is under way. */
  predicate Tidy(s: State, l: Label) { Delicate(s.sched) ==> Faultless(l) }

  // ----- facts from the invariant

  lemma MetadataIsLive(env: Env, s: State)
    requires NamesSeconds(env.dirName) && Reachable(env, s) && s.sched.WritingMetadata?
    ensures s.sched.e.timestampDir in LiveDirs(s.rows)
  {
    ReachableInv(env, s);
    var e := s.sched.e;
    assert e in s.hist.ever && e.id in s.rows && s.rows[e.id] == e;
  }

  lemma DoomedFacts(env: Env, s: State)
    requires NamesSeconds(env.dirName) && Reachable(env, s) && (s.sched.Deleting? || s.sched.Removing?)
    ensures s.sched.k <= |s.sched.doomed|
    ensures s.sched.Deleting? && s.sched.k < |s.sched.doomed| ==>
              var e := s.sched.doomed[s.sched.k]; IsCreated(s.rows, e.id) && s.rows[e.id] == e
  {
    ReachableInv(env, s);
  }

  /** The directory of a deleted row belongs to no live row and to no other selected one. */
  lemma DeletedDirIsDead(env: Env, s: State, i: nat)
    requires NamesSeconds(env.dirName) && Reachable(env, s)
    requires (s.sched.Deleting? && i < s.sched.k <= |s.sched.doomed|) || (s.sched.Removing? && i < |s.sched.doomed|)
    ensures var e := s.sched.doomed[i];
            && ProperChild(e.timestampDir) && e.timestampDir !in LiveDirs(s.rows)
            && e.createdAt < END && e.timestampDir == env.dirName(e.createdAt) && HourOf(e.createdAt) <= s.hist.runHour
            && forall j :: 0 <= j < |s.sched.doomed| && j != i ==> s.sched.doomed[j].timestampDir != e.timestampDir
  {
    ReachableInv(env, s);
    var e := s.sched.doomed[i];
    DoomedDirIsProper(env, s, e);
    forall id | IsCreated(s.rows, id) ensures s.rows[id].timestampDir != e.timestampDir {
      if s.rows[id].timestampDir == e.timestampDir { DirsDiffer(env, s, e, s.rows[id]); }
    }
    forall j | 0 <= j < |s.sched.doomed| && j != i ensures s.sched.doomed[j].timestampDir != e.timestampDir {
      if s.sched.doomed[j].timestampDir == e.timestampDir { DirsDiffer(env, s, e, s.sched.doomed[j]); }
    }
  }

  lemma FreshIsNew(env: Env, s: State, id: Uuid)
    requires NamesSeconds(env.dirName) && Reachable(env, s) && Fresh(s, id)
    ensures id !in s.rows
  {
    ReachableInv(env, s);
  }

  // ----- nothing is left over

  lemma LiveAfterInsert(rows: Rows, e: BackupEntry)
    requires e.id !in rows
    ensures LiveDirs(rows[e.id := e]) == LiveDirs(rows) + (if e.status.Created? then {e.timestampDir} else {})
  {
    var rows' := rows[e.id := e];
    assert forall id :: id in rows ==> id in rows' && rows'[id] == rows[id];
    assert e.id in rows' && rows'[e.id] == e;
  }

  lemma LiveAfterDelete(rows: Rows, e: BackupEntry)
    requires IsCreated(rows, e.id) && rows[e.id] == e
    ensures LiveDirs(rows) == LiveDirs(rows - {e.id}) + {e.timestampDir}
  {
    var rows' := rows - {e.id};
    assert forall id :: id in rows && id != e.id ==> id in rows' && rows'[id] == rows[id];
  }

  lemma LiveAfterPrune(rows: Rows, cutoff: int, doomed: seq<BackupEntry>)
    requires Listing(rows, cutoff, doomed)
    ensures LiveDirs(rows) == LiveDirs(Pruned(rows, cutoff)) + Names(doomed)
  {
    var rest := Pruned(rows, cutoff);
    forall d | d in LiveDirs(rows) ensures d in LiveDirs(rest) + Names(doomed) {
      var id :| id in rows && rows[id].status.Created? && rows[id].timestampDir == d;
      if Doomed(rows[id], cutoff) { assert rows[id] in doomed; } else { assert id in rest && rest[id] == rows[id]; }
    }
    forall d | d in Names(doomed) ensures d in LiveDirs(rows) {
      var e :| e in doomed && e.timestampDir == d;
      assert rows[e.id] == e;
    }
  }

  lemma DirsInMaking(env: Env, s: State, pick: Pick)
    requires DirsInv(env, s) && SchedNext(env, s, pick).Some?
    requires s.sched.Checking? || s.sched.MakingDir? || s.sched.WritingPayload? || s.sched.ReadingStats?
    ensures DirsInv(env, SchedNext(env, s, pick).value)
  {
  }

  lemma DirsAtInsert(env: Env, s: State, pick: Pick)
    requires DirsInv(env, s) && SchedNext(env, s, pick).Some? && s.sched.Inserting? && pick.id !in s.rows
    ensures DirsInv(env, SchedNext(env, s, pick).value)
  {
    LiveAfterInsert(s.rows, s.sched.entry.WithId(pick.id));
  }

  lemma DirsInPrune(env: Env, s: State, pick: Pick)
    requires NamesSeconds(env.dirName) && Reachable(env, s)
    requires DirsInv(env, s) && SchedNext(env, s, pick).Some? && InPrune(s.sched)
    ensures DirsInv(env, SchedNext(env, s, pick).value)
  {
    if s.sched.Selecting? {
      DirsAtSelect(env, s, pick);
    } else if s.sched.Deleting? {
      DoomedFacts(env, s);
      DirsInDelete(env, s, pick);
    } else {
      DoomedFacts(env, s);
      if s.sched.k < |s.sched.doomed| { DeletedDirIsDead(env, s, s.sched.k); }
      DirsInRemove(env, s, pick);
    }
  }

  lemma DirsAtSelect(env: Env, s: State, pick: Pick)
    requires DirsInv(env, s) && s.sched.Selecting? && SchedNext(env, s, pick).Some?
    ensures DirsInv(env, SchedNext(env, s, pick).value)
  {
    LiveAfterPrune(s.rows, s.sched.cutoff, pick.doomed);
    assert pick.doomed[0..] == pick.doomed && Names(pick.doomed[..0]) == {};
  }

  lemma DirsInDelete(env: Env, s: State, pick: Pick)
    requires DirsInv(env, s) && s.sched.Deleting? && SchedNext(env, s, pick).Some? && s.sched.k <= |s.sched.doomed|
    requires s.sched.k < |s.sched.doomed| ==>
               var e := s.sched.doomed[s.sched.k]; IsCreated(s.rows, e.id) && s.rows[e.id] == e
    ensures DirsInv(env, SchedNext(env, s, pick).value)
  {
    var d, k := s.sched.doomed, s.sched.k;
    if k < |d| { DirsAtDelete(env, s); } else { assert d[..k] == d[0..] == d; }
  }

  lemma DirsAtDelete(env: Env, s: State)
    requires DirsInv(env, s) && s.sched.Deleting? && s.sched.k < |s.sched.doomed|
    requires var e := s.sched.doomed[s.sched.k]; IsCreated(s.rows, e.id) && s.rows[e.id] == e
    ensures DirsInv(env, DeleteOne(s))
  {
    var e, s' := s.sched.doomed[s.sched.k], DeleteOne(s);
    LiveAfterDelete(s.rows, e);
    PendingNext(env, s.sched.ran, s.sched.doomed, s.sched.k);
    Handed(s.dirs.Keys, LiveDirs(s.rows), LiveDirs(s'.rows), Pending(env, s.sched), Pending(env, s'.sched),
           e.timestampDir);
  }

  lemma PendingNext(env: Env, ran: Ran, doomed: seq<BackupEntry>, k: nat)
    requires k < |doomed|
    ensures Pending(env, Deleting(ran, doomed, k + 1)) ==
            Pending(env, Deleting(ran, doomed, k)) + {doomed[k].timestampDir}
  {
    NamesNext(doomed, k);
  }

  lemma Handed(all: set<string>, live: set<string>, live': set<string>, pending: set<string>, pending': set<string>,
               d: string)
    requires all == live + pending && live == live' + {d} && pending' == pending + {d}
    ensures all == live' + pending'
  {
  }

  lemma DirsInRemove(env: Env, s: State, pick: Pick)
    requires DirsInv(env, s) && s.sched.Removing? && SchedNext(env, s, pick).Some? && s.sched.k <= |s.sched.doomed|
    requires s.sched.k < |s.sched.doomed| ==>
               var e := s.sched.doomed[s.sched.k];
               && e.timestampDir != "" && e.timestampDir !in LiveDirs(s.rows)
               && forall j :: s.sched.k < j < |s.sched.doomed| ==> s.sched.doomed[j].timestampDir != e.timestampDir
    ensures DirsInv(env, SchedNext(env, s, pick).value)
  {
    var d, k := s.sched.doomed, s.sched.k;
    if k < |d| {
      NamesNext(d, k);
      assert d[k].timestampDir !in Names(d[k + 1..]);
    } else {
      assert d[k..] == [];
    }
  }

  lemma DirsElsewhere(env: Env, s: State, pick: Pick)
    requires DirsInv(env, s) && SchedNext(env, s, pick).Some? && !Delicate(s.sched) && !s.sched.Checking?
    requires s.sched.WritingMetadata? ==> s.sched.e.timestampDir in LiveDirs(s.rows)
    ensures DirsInv(env, SchedNext(env, s, pick).value)
  {
  }

  lemma DirsAtFault(env: Env, s: State, r: Residue)
    requires DirsInv(env, s) && SchedFails(env, s, r).Some? && !Delicate(s.sched)
    requires s.sched.WritingMetadata? ==> s.sched.e.timestampDir in LiveDirs(s.rows)
    ensures DirsInv(env, SchedFails(env, s, r).value)
  {
  }

  lemma DirsSchedNext(env: Env, s: State, pick: Pick)
    requires NamesSeconds(env.dirName) && Reachable(env, s) && DirsInv(env, s) && SchedNext(env, s, pick).Some?
    ensures DirsInv(env, SchedNext(env, s, pick).value)
  {
    if s.sched.Inserting? {
      FreshIsNew(env, s, pick.id);
      DirsAtInsert(env, s, pick);
    } else if InPrune(s.sched) {
      DirsInPrune(env, s, pick);
    } else if Delicate(s.sched) || s.sched.Checking? {
      DirsInMaking(env, s, pick);
    } else {
      if s.sched.WritingMetadata? { MetadataIsLive(env, s); }
      DirsElsewhere(env, s, pick);
    }
  }

  lemma DirsNext(env: Env, s: State, l: Label)
    requires NamesSeconds(env.dirName) && Reachable(env, s) && DirsInv(env, s) && Next(env, s, l).Some? && Tidy(s, l)
    ensures DirsInv(env, Next(env, s, l).value)
  {
    match l
    case SchedOk(pick) => DirsSchedNext(env, s, pick);
    case SchedFault(r) =>
      if s.sched.WritingMetadata? { MetadataIsLive(env, s); }
      DirsAtFault(env, s, r);
    case RollOk => RollFrame(env, s);
    case RollFault(applied, length) => RollFailFrame(s, applied, length);
    case _ =>
  }

  lemma {:induction false} DirsRun(env: Env, s: State, ls: seq<Label>)
    requires NamesSeconds(env.dirName) && Reachable(env, s) && DirsInv(env, s) && Throughout(env, s, ls, Tidy)
    ensures Run(env, s, ls).Some? && DirsInv(env, Run(env, s, ls).value)
    decreases ls
  {
    if ls != [] {
      DirsNext(env, s, ls[0]);
      NextReachable(env, s, ls[0]);
      DirsRun(env, Next(env, s, ls[0]).value, ls[1..]);
    }
  }

  /** In a run in which nothing fails or restarts while a backup is being made or a prune is under way, the
      directories are those of the live backups and of the backup or prune in hand; so between cycles
      exactly those of the live backups. */
  lemma DirectoriesAreTheLiveBackups(env: Env, clock: Time, ls: seq<Label>)
    requires NamesSeconds(env.dirName) && clock < END && Throughout(env, Init(clock), ls, Tidy)
    ensures Run(env, Init(clock), ls).Some?
    ensures var s := Run(env, Init(clock), ls).value;
            && s.dirs.Keys == LiveDirs(s.rows) + Pending(env, s.sched)
            && (s.sched.Top? ==> s.dirs.Keys == LiveDirs(s.rows))
  {
    assert Run(env, Init(clock), []) == Some(Init(clock));
    DirsRun(env, Init(clock), ls);
  }

  // ----- what is left over stays

  /** The scheduler has this directory in hand. */
  ghost predicate InHand(env: Env, sched: Sched, d: string) {
    match sched
    case Checking(now, _) => d == env.dirName(now)
    case MakingDir(now, _) => d == env.dirName(now)
    case WritingPayload(now, _) => d == env.dirName(now)
    case ReadingStats(now, _) => d == env.dirName(now)
    case Inserting(entry) => d == env.dirName(entry.createdAt)
    case Deleting(_, doomed, _) => d in Names(doomed)
    case Removing(_, doomed, k) => k > |doomed| || d in Names(doomed[k..])
    case _ => false
  }

  /** The name of a second in an hour that run_once has been in. */
  ghost predicate PastName(env: Env, runHour: int, d: string) {
    exists t: Time :: t < END && d == env.dirName(t) && HourOf(t) <= runHour
  }

  /** A directory that belongs to no live backup and that nobody has in hand. */
  ghost predicate LeftOver(env: Env, s: State, d: string) {
    && d in s.dirs && d !in LiveDirs(s.rows) && PastName(env, s.hist.runHour, d) && !InHand(env, s.sched, d)
  }

  ghost predicate SameDir(s: State, s': State, d: string) {
    d in s.dirs && d in s'.dirs && s'.dirs[d] == s.dirs[d]
  }

  lemma NowIsNoPastName(env: Env, runHour: int, now: Time, d: string)
    requires NamesSeconds(env.dirName) && PastName(env, runHour, d) && runHour < HourOf(now) && now < END
    ensures d != env.dirName(now)
  {
    var t: Time :| t < END && d == env.dirName(t) && HourOf(t) <= runHour;
    HourBeforeSecond(t, now);
  }

  lemma LeftOverAtStart(env: Env, s: State, pick: Pick, d: string)
    requires NamesSeconds(env.dirName) && LeftOver(env, s, d) && s.sched.Synced?
    requires s.hist.runHour < HourOf(s.clock) && s.clock < END
    ensures var s' := SchedNext(env, s, pick).value; SameDir(s, s', d) && LeftOver(env, s', d)
  {
    NowIsNoPastName(env, s.hist.runHour, s.clock, d);
  }

  lemma LeftOverInRun(env: Env, s: State, pick: Pick, d: string)
    requires LeftOver(env, s, d) && SchedNext(env, s, pick).Some? && !s.sched.Synced? && !s.sched.Inserting?
    requires !InPrune(s.sched) && (s.sched.WritingMetadata? ==> s.sched.e.timestampDir in LiveDirs(s.rows))
    ensures var s' := SchedNext(env, s, pick).value; SameDir(s, s', d) && LeftOver(env, s', d)
  {
  }

  lemma LeftOverAtInsert(env: Env, s: State, e: BackupEntry, next: Sched, d: string)
    requires LeftOver(env, s, d) && s.sched.Inserting? && e == s.sched.entry.WithId(e.id) && e.id !in s.rows
    requires e.status.Created? ==> e.timestampDir == env.dirName(e.createdAt)
    requires next.WritingMetadata? || next.AfterRun?
    ensures var s' := Insert(s, e).(sched := next); SameDir(s, s', d) && LeftOver(env, s', d)
  {
    LiveAfterInsert(s.rows, e);
  }

  lemma LeftOverInPrune(env: Env, s: State, pick: Pick, d: string)
    requires LeftOver(env, s, d) && SchedNext(env, s, pick).Some? && InPrune(s.sched)
    requires s.sched.Removing? && s.sched.k < |s.sched.doomed| ==> s.sched.doomed[s.sched.k].timestampDir != ""
    ensures var s' := SchedNext(env, s, pick).value; SameDir(s, s', d) && LeftOver(env, s', d)
  {
    if s.sched.Selecting? {
      LiveAfterPrune(s.rows, s.sched.cutoff, pick.doomed);
      assert pick.doomed[0..] == pick.doomed;
    } else if s.sched.Deleting? {
      assert s.sched.doomed[0..] == s.sched.doomed;
    } else if s.sched.k < |s.sched.doomed| {
      NamesNext(s.sched.doomed, s.sched.k);
    }
  }

  lemma LeftOverAtFault(env: Env, s: State, r: Residue, d: string)
    requires LeftOver(env, s, d) && SchedFails(env, s, r).Some? && !(s.sched.Inserting? && r.applied)
    requires s.sched.WritingMetadata? ==> s.sched.e.timestampDir in LiveDirs(s.rows)
    requires s.sched.Removing? && s.sched.k < |s.sched.doomed| ==> s.sched.doomed[s.sched.k].timestampDir != ""
    ensures var s' := SchedFails(env, s, r).value; SameDir(s, s', d) && LeftOver(env, s', d)
  {
    if s.sched.Selecting? && r.applied && env.postgres { LiveAfterPrune(s.rows, s.sched.cutoff, r.doomed); }
    if s.sched.Removing? && s.sched.k < |s.sched.doomed| { NamesNext(s.sched.doomed, s.sched.k); }
  }

  lemma RemovedIsProper(env: Env, s: State)
    requires NamesSeconds(env.dirName) && Reachable(env, s) && s.sched.Removing? && s.sched.k < |s.sched.doomed|
    ensures s.sched.doomed[s.sched.k].timestampDir != ""
  {
    DeletedDirIsDead(env, s, s.sched.k);
  }

  lemma SyncedFacts(env: Env, s: State)
    requires NamesSeconds(env.dirName) && Reachable(env, s)
    ensures s.clock < END && (s.sched.Synced? ==> s.hist.runHour < HourOf(s.clock))
    ensures s.sched.Inserting? && s.sched.entry.status.Created? ==>
              s.sched.entry.timestampDir == env.dirName(s.sched.entry.createdAt)
  {
    ReachableInv(env, s);
  }

  lemma LeftOverSchedNext(env: Env, s: State, pick: Pick, d: string)
    requires NamesSeconds(env.dirName) && Reachable(env, s) && LeftOver(env, s, d) && SchedNext(env, s, pick).Some?
    ensures var s' := SchedNext(env, s, pick).value; SameDir(s, s', d) && LeftOver(env, s', d)
  {
    SyncedFacts(env, s);
    if s.sched.Synced? {
      LeftOverAtStart(env, s, pick, d);
    } else if s.sched.Inserting? {
      FreshIsNew(env, s, pick.id);
      LeftOverAtInsert(env, s, s.sched.entry.WithId(pick.id), SchedNext(env, s, pick).value.sched, d);
    } else if InPrune(s.sched) {
      if s.sched.Removing? && s.sched.k < |s.sched.doomed| { RemovedIsProper(env, s); }
      LeftOverInPrune(env, s, pick, d);
    } else {
      if s.sched.WritingMetadata? { MetadataIsLive(env, s); }
      LeftOverInRun(env, s, pick, d);
    }
  }

  lemma LeftOverSchedFails(env: Env, s: State, r: Residue, d: string)
    requires NamesSeconds(env.dirName) && Reachable(env, s) && LeftOver(env, s, d) && SchedFails(env, s, r).Some?
    ensures var s' := SchedFails(env, s, r).value; SameDir(s, s', d) && LeftOver(env, s', d)
  {
    if s.sched.Inserting? && r.applied {
      SyncedFacts(env, s);
      FreshIsNew(env, s, r.id);
      LeftOverAtInsert(env, s, s.sched.entry.WithId(r.id), AfterRun(Failed), d);
    } else {
      if s.sched.WritingMetadata? { MetadataIsLive(env, s); }
      if s.sched.Removing? && s.sched.k < |s.sched.doomed| { RemovedIsProper(env, s); }
      LeftOverAtFault(env, s, r, d);
    }
  }

  lemma LeftOverNext(env: Env, s: State, l: Label, d: string)
    requires NamesSeconds(env.dirName) && Reachable(env, s) && LeftOver(env, s, d) && Next(env, s, l).Some?
    ensures var s' := Next(env, s, l).value; SameDir(s, s', d) && LeftOver(env, s', d)
  {
    match l
    case SchedOk(pick) => LeftOverSchedNext(env, s, pick, d);
    case SchedFault(r) => LeftOverSchedFails(env, s, r, d);
    case RollOk => RollFrame(env, s);
    case RollFault(applied, length) => RollFailFrame(s, applied, length);
    case _ =>
  }

  /** A directory left over is never touched again: no run overwrites it, no prune lists it. */
  lemma {:induction false} LeftOversStay(env: Env, s: State, ls: seq<Label>, d: string)
    requires NamesSeconds(env.dirName) && Reachable(env, s) && LeftOver(env, s, d) && Run(env, s, ls).Some?
    ensures var s' := Run(env, s, ls).value; SameDir(s, s', d) && LeftOver(env, s', d)
    decreases ls
  {
    if ls != [] {
      LeftOverNext(env, s, ls[0], d);
      NextReachable(env, s, ls[0]);
      LeftOversStay(env, Next(env, s, ls[0]).value, ls[1..], d);
    }
  }

  /** The directory of the backup being made. */
  function Making(env: Env, sched: Sched): Option<string> {
    match sched
    case MakingDir(now, _) => Some(env.dirName(now))
    case WritingPayload(now, _) => Some(env.dirName(now))
    case ReadingStats(now, _) => Some(env.dirName(now))
    case Inserting(entry) => if entry.status.Created? then Some(env.dirName(entry.createdAt)) else None
    case _ => None
  }

  /** A backup given up before its row is in leaves its directory over, if that was made. */
  lemma FailedRunLeavesItsDirectory(env: Env, s: State, l: Label)
    requires NamesSeconds(env.dirName) && Reachable(env, s) && (l.SchedFault? || l.Crash?) && Next(env, s, l).Some?
    requires Making(env, s.sched).Some? && Next(env, s, l).value.rows == s.rows
    requires Making(env, s.sched).value in Next(env, s, l).value.dirs
    ensures LeftOver(env, Next(env, s, l).value, Making(env, s.sched).value)
  {
    MakingIsNew(env, s);
    GivenUp(env, s, l);
  }

  lemma MakingIsNew(env: Env, s: State)
    requires NamesSeconds(env.dirName) && Reachable(env, s) && Making(env, s.sched).Some?
    ensures Making(env, s.sched).value !in LiveDirs(s.rows)
    ensures PastName(env, s.hist.runHour, Making(env, s.sched).value)
  {
    ReachableInv(env, s);
    var now := if s.sched.Inserting? then s.sched.entry.createdAt else s.sched.now;
    forall id | IsCreated(s.rows, id) ensures s.rows[id].timestampDir != env.dirName(now) {
      NewDir(env, s, now, s.rows[id]);
    }
  }

  lemma GivenUp(env: Env, s: State, l: Label)
    requires (l.SchedFault? || l.Crash?) && Next(env, s, l).Some?
    ensures var s' := Next(env, s, l).value;
            s'.hist.runHour == s.hist.runHour && (s'.sched.Top? || s'.sched.AfterRun?)
  {
    if l.SchedFault? { GivenUpByFault(env, s, l.residue); }
  }

  lemma GivenUpByFault(env: Env, s: State, r: Residue)
    requires SchedFails(env, s, r).Some?
    ensures var s' := SchedFails(env, s, r).value;
            s'.hist.runHour == s.hist.runHour && (s'.sched.Top? || s'.sched.AfterRun?)
  {
  }

  /** A prune that dies between deleting a row and removing its directory leaves the directory over. */
  lemma DeadPruneLeavesDirectories(env: Env, s: State, l: Label, i: nat)
    requires NamesSeconds(env.dirName) && Reachable(env, s) && (l.SchedFault? || l.Crash?) && Next(env, s, l).Some?
    requires (s.sched.Deleting? && i < s.sched.k) || (s.sched.Removing? && s.sched.k <= i < |s.sched.doomed|)
    requires i < |s.sched.doomed| && s.sched.doomed[i].timestampDir in Next(env, s, l).value.dirs
    ensures LeftOver(env, Next(env, s, l).value, s.sched.doomed[i].timestampDir)
  {
    DoomedFacts(env, s);
    DeletedDirIsDead(env, s, i);
    GivenUp(env, s, l);
    if l.SchedFault? { PruneFaultDeletes(env, s, l.residue); }
  }

  lemma PruneFaultDeletes(env: Env, s: State, r: Residue)
    requires SchedFails(env, s, r).Some? && (s.sched.Deleting? || s.sched.Removing?)
    ensures LiveDirs(SchedFails(env, s, r).value.rows) <= LiveDirs(s.rows)
  {
    var rows' := SchedFails(env, s, r).value.rows;
    assert forall id :: id in rows' ==> id in s.rows && rows'[id] == s.rows[id];
  }
}
