/** What holds of every run of the daemon. */
module DaemonTheorems {
  import opened ByteText
  import opened Calendar
  import opened Rfc3339
  import opened Backup
  import opened Table
  import opened PointerFile
  import opened Scheduler
  import opened Daemon
  import opened DaemonInvariant
  import opened DaemonHistory

  /** `format_timestamp_dir` gives the names all results below ask for, over the years 0000 to 9999;
      hash, stats and settings are arbitrary. */
  lemma TimestampDirsNameSeconds()
    ensures NamesSeconds(FormatTimestampDir)
  {
    forall t: Time, u: Time | t < END && u < END && FormatTimestampDir(t) == FormatTimestampDir(u)
      ensures Seconds(t) == Seconds(u)
    {
      FourDigitYears(t);
      FourDigitYears(u);
      DirOrder(t, u);
    }
    forall t: Time | t < END ensures ProperChild(FormatTimestampDir(t)) {
      FourDigitYears(t);
      DirIsProperChild(t);
    }
  }

  ghost predicate All(env: Env, s: State) {
    && Inv(env, s)
    && NeighboursDiffer(s.hist.ever, s.hist.cutoff)
    && DedupInv(s.hist.log, s.hist.ever, s.hist.cutoff)
    && RetentionInv(env, s)
    && InputInv(env, s.sched, LastInput(s.hist.inputs))
    && FollowsInv(env, s.sched, s.hist)
    && s.hist.ever == CreatedOf(s.hist.log)
    && BeganInv(s.hist)
    && GateInv(s.gate, s.stamps, s.clock, s.roll)
  }

  /** The states of some run from an empty installation.  A prefix of a run is a run,
      so these are also all the states in the middle of an operation. */
  ghost predicate Reachable(env: Env, s: State) {
    exists clock: Time, ls :: clock < END && Run(env, Init(clock), ls) == Some(s)
  }

  lemma InitAll(env: Env, clock: Time)
    requires clock < END
    ensures All(env, Init(clock))
  {
    InitInv(env, clock);
  }

  lemma NextAll(env: Env, s: State, l: Label)
    requires NamesSeconds(env.dirName) && All(env, s) && Next(env, s, l).Some?
    ensures All(env, Next(env, s, l).value)
  {
    NextKeepsInv(env, s, l);
    NeighboursNext(env, s, l);
    DedupNext(env, s, l);
    RetentionNext(env, s, l);
    InputNext(env, s, l);
    FollowsNext(env, s, l);
    LogNext(env, s, l);
    BeganNext(env, s, l);
    GateNext(env, s, l);
  }

  lemma {:induction false} RunAll(env: Env, s: State, ls: seq<Label>)
    requires NamesSeconds(env.dirName) && All(env, s) && Run(env, s, ls).Some?
    ensures All(env, Run(env, s, ls).value)
    decreases ls
  {
    if ls != [] {
      NextAll(env, s, ls[0]);
      RunAll(env, Next(env, s, ls[0]).value, ls[1..]);
    }
  }

  lemma ReachableAll(env: Env, s: State)
    requires NamesSeconds(env.dirName) && Reachable(env, s)
    ensures All(env, s)
  {
    var clock: Time, ls :| clock < END && Run(env, Init(clock), ls) == Some(s);
    InitAll(env, clock);
    RunAll(env, Init(clock), ls);
  }

  lemma ReachableInv(env: Env, s: State)
    requires NamesSeconds(env.dirName) && Reachable(env, s)
    ensures Inv(env, s)
  {
    ReachableAll(env, s);
  }

  lemma RunCons(env: Env, s: State, l: Label, ls: seq<Label>)
    requires Next(env, s, l).Some?
    ensures Run(env, s, [l] + ls) == Run(env, Next(env, s, l).value, ls)
  {
    assert ([l] + ls)[1..] == ls;
  }

  lemma {:induction false} RunAppend(env: Env, s: State, ls: seq<Label>, more: seq<Label>)
    requires Run(env, s, ls).Some?
    ensures Run(env, s, ls + more) == Run(env, Run(env, s, ls).value, more)
    decreases ls
  {
    if ls == [] {
      assert ls + more == more;
    } else {
      assert (ls + more)[1..] == ls[1..] + more;
      RunAppend(env, Next(env, s, ls[0]).value, ls[1..], more);
    }
  }

  lemma StillReachable(env: Env, s: State, ls: seq<Label>)
    requires Reachable(env, s) && Run(env, s, ls).Some?
    ensures Reachable(env, Run(env, s, ls).value)
  {
    var clock: Time, before :| clock < END && Run(env, Init(clock), before) == Some(s);
    RunAppend(env, Init(clock), before, ls);
  }

  lemma NextReachable(env: Env, s: State, l: Label)
    requires Reachable(env, s) && Next(env, s, l).Some?
    ensures Reachable(env, Next(env, s, l).value)
  {
    var s' := Next(env, s, l).value;
    assert Run(env, s', []) == Some(s');
    RunCons(env, s, l, []);
    StillReachable(env, s, [l] + []);
  }

  // ----- backups

  /** At every moment, every created row has its payload on disk, with the recorded size, hash and stats. */
  lemma BackupsAreAlwaysRestorable(env: Env, s: State, id: Uuid)
    requires NamesSeconds(env.dirName) && Reachable(env, s) && IsCreated(s.rows, id)
    ensures var e := s.rows[id];
            && e.id == id
            && e.timestampDir in s.dirs
            && s.dirs[e.timestampDir].payload.Some?
            && var bytes := s.dirs[e.timestampDir].payload.value;
               |bytes| == e.sizeBytes && env.hash(bytes) == e.contentHash && env.stats(bytes) == e.stats
  {
    ReachableInv(env, s);
  }

  /** A run_once that reported success left the collection it was given backed up, new or not. */
  lemma SuccessMeansBackedUp(env: Env, s: State) returns (id: Uuid)
    requires NamesSeconds(env.dirName) && Reachable(env, s) && s.sched.AfterRun? && s.sched.ran.Ok?
    ensures Latest(s.rows, id) && s.rows[id].contentHash == env.hash(LastInput(s.hist.inputs))
    ensures HasPayload(env, s.dirs, s.rows[id])
  {
    RunHash(env, s);
    id := HashHasRow(s.rows, env.hash(LastInput(s.hist.inputs)));
    BackupsAreAlwaysRestorable(env, s, id);
  }

  lemma RunHash(env: Env, s: State)
    requires NamesSeconds(env.dirName) && Reachable(env, s) && s.sched.AfterRun? && s.sched.ran.Ok?
    ensures LastCreatedHash(s.rows) == Some(env.hash(LastInput(s.hist.inputs)))
  {
    assert s.sched.ran.hash == env.hash(LastInput(s.hist.inputs)) by { RanInput(env, s); }
    ReachableInv(env, s);
  }

  lemma RanInput(env: Env, s: State)
    requires NamesSeconds(env.dirName) && Reachable(env, s) && s.sched.AfterRun? && s.sched.ran.Ok?
    ensures s.sched.ran.hash == env.hash(LastInput(s.hist.inputs))
  {
    ReachableAll(env, s);
  }

  /** Successive calls of run_once, created, skipped and failed ones, before and after restarts, begin in
      strictly later hours. */
  lemma RunsBeginInLaterHours(env: Env, s: State, i: nat, j: nat)
    requires NamesSeconds(env.dirName) && Reachable(env, s) && i < j < |s.hist.inputs|
    ensures |s.hist.began| == |s.hist.inputs| && HourOf(s.hist.began[i]) < HourOf(s.hist.began[j])
  {
    ReachableBegan(env, s);
    HourlyTimesAt(s.hist.began, i, j);
  }

  lemma ReachableBegan(env: Env, s: State)
    requires NamesSeconds(env.dirName) && Reachable(env, s)
    ensures BeganInv(s.hist)
  {
    ReachableAll(env, s);
  }

  /** Backups are made in strictly later hours, so no two of them share a directory. */
  lemma BackupsNeverShareADirectory(env: Env, s: State, i: nat, j: nat)
    requires NamesSeconds(env.dirName) && Reachable(env, s) && i < j < |s.hist.ever|
    ensures HourOf(s.hist.ever[i].createdAt) < HourOf(s.hist.ever[j].createdAt)
    ensures s.hist.ever[i].timestampDir != s.hist.ever[j].timestampDir
  {
    ReachableInv(env, s);
    var a, b := s.hist.ever[i], s.hist.ever[j];
    HourlyAt(s.hist.ever, i, j);
    if a.timestampDir == b.timestampDir { DirsDiffer(env, s, a, b); }
  }

  /** The scheduler is needed for that: a run_once that writes its payload, whenever it began and whatever
      ran before, leaves an earlier backup intact exactly when it began in another second, or the
      content is such that nobody could tell. */
  lemma PayloadSurvivesExactlyWhen(env: Env, s: State, e: BackupEntry, pick: Pick)
    requires env.dirName == FormatTimestampDir && e.createdAt < END
    requires s.sched.WritingPayload? && s.sched.now < END
    requires e.timestampDir == FormatTimestampDir(e.createdAt) && HasPayload(env, s.dirs, e)
    ensures SchedNext(env, s, pick).Some?
    ensures HasPayload(env, SchedNext(env, s, pick).value.dirs, e) <==>
            Seconds(s.sched.now) != Seconds(e.createdAt) || Matches(env, e, s.sched.bytes)
  {
    FourDigitYears(e.createdAt);
    FourDigitYears(s.sched.now);
    DirOrder(e.createdAt, s.sched.now);
    PayloadWritten(env, s, pick);
  }

  lemma PayloadWritten(env: Env, s: State, pick: Pick)
    requires s.sched.WritingPayload?
    ensures var d := env.dirName(s.sched.now);
            && SchedNext(env, s, pick).Some?
            && SchedNext(env, s, pick).value.dirs == s.dirs[d := DirAt(s, d).(payload := Some(s.sched.bytes))]
  {
  }

  /** Whatever failed or crashed, the rows are the inputs of run_once in order with some left out, and,
      until retention reaches the first backup, the backups are the rows without consecutive repetitions. */
  lemma RowsFollowInputs(env: Env, s: State)
    requires NamesSeconds(env.dirName) && Reachable(env, s)
    ensures Subsequence(Hashes(s.hist.log), InputHashes(env, Answered(s.sched, s.hist.inputs)))
    ensures (s.hist.ever != [] ==> s.hist.cutoff <= s.hist.ever[0].createdAt) ==>
              Hashes(s.hist.ever) == Dedup(Hashes(s.hist.log))
  {
    ReachableAll(env, s);
  }

  /** In a run in which no run_once fails before its row is in, the backups are the inputs of run_once in
      order with consecutive repetitions removed, until retention reaches the first backup.  The input of
      a run_once that is still going on is not counted. */
  lemma BackupsAreInputsWithoutRepetition(env: Env, clock: Time, ls: seq<Label>)
    requires NamesSeconds(env.dirName) && clock < END && Throughout(env, Init(clock), ls, Undisturbed)
    ensures Run(env, Init(clock), ls).Some?
    ensures var s := Run(env, Init(clock), ls).value;
            && Hashes(s.hist.log) == InputHashes(env, Answered(s.sched, s.hist.inputs))
            && ((s.hist.ever != [] ==> s.hist.cutoff <= s.hist.ever[0].createdAt) ==>
                  Hashes(s.hist.ever) == Dedup(InputHashes(env, Answered(s.sched, s.hist.inputs))))
  {
    InitAll(env, clock);
    ExactRun(env, Init(clock), ls);
    RowsFollowInputs(env, Run(env, Init(clock), ls).value);
  }

  lemma {:induction false} ExactRun(env: Env, s: State, ls: seq<Label>)
    requires Throughout(env, s, ls, Undisturbed)
    requires InputInv(env, s.sched, LastInput(s.hist.inputs)) && ExactInv(env, s.sched, s.hist)
    ensures Run(env, s, ls).Some? && ExactInv(env, Run(env, s, ls).value.sched, Run(env, s, ls).value.hist)
    decreases ls
  {
    if ls != [] {
      InputNext(env, s, ls[0]);
      ExactNext(env, s, ls[0]);
      ExactRun(env, Next(env, s, ls[0]).value, ls[1..]);
    }
  }

  // ----- retention

  /** Unless a SQLite prune is in its delete loop or died there, the created rows are exactly
      the backups ever made at or after the largest cutoff applied; skipped rows are never lost. */
  lemma RetentionIsExact(env: Env, s: State, id: Uuid)
    requires NamesSeconds(env.dirName) && Reachable(env, s) && !s.hist.partial
    ensures IsCreated(s.rows, id) <==> exists e :: e in s.hist.ever && e.id == id && s.hist.cutoff <= e.createdAt
    ensures id in s.hist.known && s.hist.known[id].status.Skipped? ==> id in s.rows && s.rows[id] == s.hist.known[id]
  {
    ReachableAll(env, s);
    if IsCreated(s.rows, id) { assert s.rows[id] in s.hist.ever; }
  }

  /** At every moment each backup that is not older than the retention, and with retention off every backup,
      is live with its payload. */
  lemma RecentBackupsAreLive(env: Env, s: State, e: BackupEntry)
    requires NamesSeconds(env.dirName) && Reachable(env, s) && e in s.hist.ever
    requires env.retentionDays <= 0 || s.clock <= e.createdAt + env.retentionDays * 86_400_000_000_000
    ensures e.id in s.rows && s.rows[e.id] == e && HasPayload(env, s.dirs, e)
  {
    ReachableAll(env, s);
    if env.retentionDays > 0 { CutoffIsBefore(env, s.clock, e.createdAt); }
    assert IsCreated(s.rows, e.id);
  }

  lemma CutoffIsBefore(env: Env, now: Time, t: Time)
    requires now <= t + env.retentionDays * 86_400_000_000_000
    ensures CutoffAt(env, now) <= t
  {
  }

  /** On Postgres that holds at every moment, also in the middle of a prune or after one that failed, and
      the cutoff is a whole microsecond, as the column is. */
  lemma PostgresPrunesAtOnce(env: Env, s: State, id: Uuid)
    requires NamesSeconds(env.dirName) && Reachable(env, s) && env.postgres
    ensures s.hist.cutoff % 1_000 == 0
    ensures IsCreated(s.rows, id) <==> exists e :: e in s.hist.ever && e.id == id && s.hist.cutoff <= e.createdAt
  {
    PostgresRetention(env, s);
    RetentionIsExact(env, s, id);
  }

  lemma PostgresRetention(env: Env, s: State)
    requires NamesSeconds(env.dirName) && Reachable(env, s) && env.postgres
    ensures !s.hist.partial && s.hist.cutoff % 1_000 == 0
  {
    ReachableAll(env, s);
  }

  /** Between cycles, live backups, the counts prunes returned and the rows lost with failed prunes
      add up to the backups ever made. */
  lemma PruneCountsAddUp(env: Env, s: State)
    requires NamesSeconds(env.dirName) && Reachable(env, s) && s.sched.Top?
    ensures |CreatedIds(s.rows)| + s.hist.returned + s.hist.lost == |s.hist.ever|
  {
    ReachableInv(env, s);
  }

  /** In a run in which no prune fails or is cut short, the counts the prunes returned are all that is
      missing, between cycles and in every state outside a prune. */
  lemma PruneCountsAddUpWithoutFaults(env: Env, clock: Time, ls: seq<Label>)
    requires NamesSeconds(env.dirName) && clock < END && Throughout(env, Init(clock), ls, PruneUndisturbed)
    ensures Run(env, Init(clock), ls).Some?
    ensures var s := Run(env, Init(clock), ls).value;
            |CreatedIds(s.rows)| + s.hist.returned + InFlight(s.sched) == |s.hist.ever|
  {
    LostRun(env, Init(clock), ls);
    ReachableInv(env, Run(env, Init(clock), ls).value);
  }

  lemma {:induction false} LostRun(env: Env, s: State, ls: seq<Label>)
    requires Throughout(env, s, ls, PruneUndisturbed)
    ensures Run(env, s, ls).Some? && Run(env, s, ls).value.hist.lost == s.hist.lost
    decreases ls
  {
    if ls != [] {
      LostNext(env, s, ls[0]);
      LostRun(env, Next(env, s, ls[0]).value, ls[1..]);
    }
  }

  /** Two live backups with none between them in time have different contents. */
  lemma LiveNeighboursDiffer(env: Env, s: State, a: Uuid, b: Uuid)
    requires NamesSeconds(env.dirName) && Reachable(env, s) && !s.hist.partial
    requires IsCreated(s.rows, a) && IsCreated(s.rows, b) && s.rows[a].createdAt < s.rows[b].createdAt
    requires forall c :: IsCreated(s.rows, c) ==>
               s.rows[c].createdAt <= s.rows[a].createdAt || s.rows[b].createdAt <= s.rows[c].createdAt
    ensures s.rows[a].contentHash != s.rows[b].contentHash
  {
    LiveFacts(env, s, a, b);
    var ever := s.hist.ever;
    var i :| 0 <= i < |ever| && ever[i] == s.rows[a];
    var j :| 0 <= j < |ever| && ever[j] == s.rows[b];
    if j < i { HourlyAt(ever, j, i); HourBeforeSecond(ever[j].createdAt, ever[i].createdAt); }
    var next := ever[i + 1];
    HourlyAt(ever, i, i + 1);
    HourBeforeSecond(ever[i].createdAt, next.createdAt);
    assert next in ever && IsCreated(s.rows, next.id);
    if i + 1 < j { HourlyAt(ever, i + 1, j); HourBeforeSecond(next.createdAt, ever[j].createdAt); }
  }

  lemma LiveFacts(env: Env, s: State, a: Uuid, b: Uuid)
    requires NamesSeconds(env.dirName) && Reachable(env, s) && !s.hist.partial
    requires IsCreated(s.rows, a) && IsCreated(s.rows, b)
    ensures Hourly(s.hist.ever) && NeighboursDiffer(s.hist.ever, s.hist.cutoff)
    ensures s.rows[a] in s.hist.ever && s.rows[b] in s.hist.ever && s.hist.cutoff <= s.rows[a].createdAt
    ensures forall e :: e in s.hist.ever && s.hist.cutoff <= e.createdAt ==>
              IsCreated(s.rows, e.id) && s.rows[e.id] == e
  {
    ReachableAll(env, s);
  }

  /** Every directory a prune is about to remove is a proper child of the backups directory
      and belongs to no live backup. */
  lemma PruneRemovesOnlyDeadDirectories(env: Env, s: State, id: Uuid)
    requires NamesSeconds(env.dirName) && Reachable(env, s) && s.sched.Removing? && s.sched.k < |s.sched.doomed|
    ensures ProperChild(s.sched.doomed[s.sched.k].timestampDir)
    ensures IsCreated(s.rows, id) ==> s.rows[id].timestampDir != s.sched.doomed[s.sched.k].timestampDir
  {
    ReachableInv(env, s);
    var e := s.sched.doomed[s.sched.k];
    if IsCreated(s.rows, id) && s.rows[id].timestampDir == e.timestampDir { DirsDiffer(env, s, e, s.rows[id]); }
  }

  // ----- rollback

  /** The published pointer, when it is intact, names a backup that was made, and that backup is
      live unless retention has passed it. */
  lemma PointerNamesABackup(env: Env, s: State) returns (e: BackupEntry)
    requires NamesSeconds(env.dirName) && Reachable(env, s)
    requires Published(s.files).Some? && Intact(Published(s.files).value)
    ensures var p := Published(s.files).value.p;
            e in s.hist.ever && p.backupId == e.id && p.timestampDir == e.timestampDir
    ensures s.hist.cutoff <= e.createdAt ==> e.id in s.rows && s.rows[e.id] == e && HasPayload(env, s.dirs, e)
  {
    ReachableInv(env, s);
    var p := Published(s.files).value.p;
    e :| e in s.hist.ever && p.backupId == e.id && p.timestampDir == e.timestampDir;
    assert s.hist.cutoff <= e.createdAt ==> IsCreated(s.rows, e.id);
  }

  /** What a rollback uploads hashes to what the chosen backup recorded, even if a prune runs meanwhile. */
  lemma UploadIsTheBackup(env: Env, s: State)
    requires NamesSeconds(env.dirName) && Reachable(env, s) && s.roll.Uploading?
    ensures s.roll.e in s.hist.ever && env.hash(s.roll.bytes) == s.roll.e.contentHash
    ensures |s.roll.bytes| == s.roll.e.sizeBytes
  {
    ReachableInv(env, s);
  }

  lemma {:induction false} StampsApart(stamps: seq<Time>, i: nat, j: nat)
    requires forall k :: 0 <= k < |stamps| - 1 ==> stamps[k] + 10 * SECOND <= stamps[k + 1]
    requires i <= j < |stamps|
    ensures stamps[i] + (j - i) * (10 * SECOND) <= stamps[j]
    decreases j
  {
    if i < j { StampsApart(stamps, i, j - 1); }
  }

  /** Within any window of `w` seconds at most `w / 10 + 1` rollbacks of one process complete. */
  lemma RollbacksAreRateLimited(env: Env, s: State, i: nat, j: nat, w: nat)
    requires NamesSeconds(env.dirName) && Reachable(env, s)
    requires i <= j < |s.stamps| && s.stamps[j] - s.stamps[i] <= w * SECOND
    ensures j - i + 1 <= w / 10 + 1
  {
    GateHolds(env, s);
    StampsApart(s.stamps, i, j);
    TenSecondsEach(j - i, w);
  }

  lemma GateHolds(env: Env, s: State)
    requires NamesSeconds(env.dirName) && Reachable(env, s)
    ensures GateInv(s.gate, s.stamps, s.clock, s.roll)
  {
    ReachableAll(env, s);
  }

  lemma TenSecondsEach(n: nat, w: nat)
    requires n * (10 * SECOND) <= w * SECOND
    ensures n <= w / 10
  {
  }
}
