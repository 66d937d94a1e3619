/** Invariants that relate the state to the whole history of the daemon: what
    retention has removed, which contents were backed up again, how often a cycle
    ended without a backup, and how often a rollback went through. */
module DaemonHistory {
  import opened ByteText
  import opened Calendar
  import opened Backup
  import opened Table
  import opened Scheduler
  import opened Daemon
  import opened DaemonInvariant

  // ----- what a step can do to the table

  /** Every step leaves table and history alone, inserts one row, or works for a prune. */
  ghost predicate Quiet(s: State, s': State) {
    && s'.rows == s.rows && s'.hist.log == s.hist.log && s'.hist.ever == s.hist.ever
    && s'.hist.cutoff == s.hist.cutoff
  }

  ghost predicate Inserted(s: State, s': State, e: BackupEntry) {
    && s.sched.Inserting? && e == s.sched.entry.WithId(e.id)
    && s'.rows == s.rows[e.id := e] && s'.hist.log == s.hist.log + [e]
    && s'.hist.ever == (if e.status.Created? then s.hist.ever + [e] else s.hist.ever)
    && s'.hist.cutoff == s.hist.cutoff
  }

  ghost predicate Pruning(s: State, s': State) {
    && s'.hist.log == s.hist.log && s'.hist.ever == s.hist.ever && s.hist.cutoff <= s'.hist.cutoff
  }

  lemma StepSummary(env: Env, s: State, l: Label)
    requires Next(env, s, l).Some?
    ensures var s' := Next(env, s, l).value;
            Quiet(s, s') || (exists e :: Inserted(s, s', e)) || Pruning(s, s')
  {
    var s' := Next(env, s, l).value;
    match l
    case SchedOk(pick) =>
      if s.sched.Inserting? {
        assert Inserted(s, s', s.sched.entry.WithId(pick.id));
      } else {
        SchedSummary(env, s, pick);
      }
    case SchedFault(r) =>
      if s.sched.Inserting? && r.applied {
        assert Inserted(s, s', s.sched.entry.WithId(r.id));
      } else {
        FaultSummary(env, s, r);
      }
    case RollOk => assert Quiet(s, s');
    case RollFault(_, _) => assert Quiet(s, s');
    case _ => assert Quiet(s, s');
  }

  lemma SchedSummary(env: Env, s: State, pick: Pick)
    requires SchedNext(env, s, pick).Some? && !s.sched.Inserting?
    ensures Pruning(s, SchedNext(env, s, pick).value)
  {
    if s.sched.AfterRun? || s.sched.Selecting? || s.sched.Deleting? || s.sched.Removing? {
      PruneSummary(env, s, pick);
    } else {
      RunSummary(env, s, pick);
    }
  }

  lemma RunSummary(env: Env, s: State, pick: Pick)
    requires SchedNext(env, s, pick).Some? && !s.sched.Inserting?
    requires !s.sched.AfterRun? && !s.sched.Selecting? && !s.sched.Deleting? && !s.sched.Removing?
    ensures Pruning(s, SchedNext(env, s, pick).value)
  {
  }

  lemma PruneSummary(env: Env, s: State, pick: Pick)
    requires SchedNext(env, s, pick).Some?
    requires s.sched.AfterRun? || s.sched.Selecting? || s.sched.Deleting? || s.sched.Removing?
    ensures Pruning(s, SchedNext(env, s, pick).value)
  {
  }

  lemma FaultSummary(env: Env, s: State, r: Residue)
    requires SchedFails(env, s, r).Some? && !(s.sched.Inserting? && r.applied)
    ensures Pruning(s, SchedFails(env, s, r).value)
  {
    if s.sched.Selecting? { assert Pruning(s, Select(env, s, r.doomed)); }
  }

  /** The scheduler does not touch the rollback handler. */
  lemma SchedFrame(env: Env, s: State, pick: Pick)
    requires SchedNext(env, s, pick).Some?
    ensures var s' := SchedNext(env, s, pick).value;
            && s'.clock == s.clock && s'.roll == s.roll && s'.gate == s.gate && s'.stamps == s.stamps
            && s'.remote == s.remote
  {
  }

  lemma FaultFrame(env: Env, s: State, r: Residue)
    requires SchedFails(env, s, r).Some?
    ensures var s' := SchedFails(env, s, r).value;
            && s'.clock == s.clock && s'.roll == s.roll && s'.gate == s.gate && s'.stamps == s.stamps
            && s'.remote == s.remote
  {
  }

  /** The rollback handler does not touch table, directories and scheduler. */
  lemma RollFrame(env: Env, s: State)
    requires RollNext(env, s).Some?
    ensures var s' := RollNext(env, s).value;
            s'.clock == s.clock && s'.sched == s.sched && s'.rows == s.rows && s'.dirs == s.dirs && s'.hist == s.hist
  {
  }

  lemma RollFailFrame(s: State, applied: bool, length: nat)
    requires RollFails(s, applied, length).Some?
    ensures var s' := RollFails(s, applied, length).value;
            && s'.clock == s.clock && s'.sched == s.sched && s'.rows == s.rows && s'.dirs == s.dirs && s'.hist == s.hist
            && s'.gate == s.gate && s'.stamps == s.stamps && s'.roll.Idle?
  {
  }

  // ----- neighbouring backups differ

  /** A backup repeats the content of the one before it only once retention has passed the earlier one. */
  ghost predicate NeighboursDiffer(ever: seq<BackupEntry>, cutoff: int) {
    forall i :: 0 <= i < |ever| - 1 && cutoff <= ever[i].createdAt ==> ever[i].contentHash != ever[i + 1].contentHash
  }

  /** A run that found another hash than its own differs from the newest backup within retention. */
  lemma UnequalToNewest(env: Env, s: State, hash: string)
    requires TableInv(s.rows, s.hist.known, s.hist.ever, s.hist.cutoff)
    requires TimeInv(env, s.clock, s.hist.ever, s.hist.cutoff, s.hist.runHour)
    requires s.hist.ever != [] && s.hist.cutoff <= s.hist.ever[|s.hist.ever| - 1].createdAt
    ensures LastCreatedHash(s.rows) == Some(hash) <==> hash == s.hist.ever[|s.hist.ever| - 1].contentHash
  {
    NewestIsLast(env, s);
  }

  /** While retention has not reached the newest backup, a run is skipped exactly when it repeats its content. */
  lemma SkippedExactlyWhenEqual(env: Env, s: State)
    requires Inv(env, s) && s.sched.Inserting?
    requires s.hist.ever != [] && s.hist.cutoff <= s.hist.ever[|s.hist.ever| - 1].createdAt
    ensures s.sched.entry.status.Skipped? <==>
            s.sched.entry.contentHash == s.hist.ever[|s.hist.ever| - 1].contentHash
  {
    UnequalToNewest(env, s, s.sched.entry.contentHash);
  }

  lemma AppendDiffers(ever: seq<BackupEntry>, cutoff: int, e: BackupEntry)
    requires NeighboursDiffer(ever, cutoff)
    requires ever != [] && cutoff <= ever[|ever| - 1].createdAt ==> ever[|ever| - 1].contentHash != e.contentHash
    ensures NeighboursDiffer(ever + [e], cutoff)
  {
  }

  /** What the row being inserted has to do with the newest backup. */
  ghost predicate Judged(h: History, entry: NewBackupEntry) {
    && (h.ever == [] ==> entry.status.Created?)
    && (h.ever != [] && h.cutoff <= h.ever[|h.ever| - 1].createdAt ==>
          (entry.status.Skipped? <==> entry.contentHash == h.ever[|h.ever| - 1].contentHash))
    && (h.ever != [] ==> h.ever[0].createdAt <= h.ever[|h.ever| - 1].createdAt)
  }

  lemma InsertIsJudged(env: Env, s: State)
    requires Inv(env, s) && s.sched.Inserting?
    ensures Judged(s.hist, s.sched.entry)
  {
    if s.hist.ever == [] {
      NothingToSkip(env, s);
    } else {
      OldestBeforeNewest(env, s);
      if s.hist.cutoff <= s.hist.ever[|s.hist.ever| - 1].createdAt { SkippedExactlyWhenEqual(env, s); }
    }
  }

  lemma InsertedDiffers(s: State, s': State, e: BackupEntry)
    requires Inserted(s, s', e) && Judged(s.hist, s.sched.entry) && NeighboursDiffer(s.hist.ever, s.hist.cutoff)
    ensures NeighboursDiffer(s'.hist.ever, s'.hist.cutoff)
  {
    if e.status.Created? { AppendDiffers(s.hist.ever, s.hist.cutoff, e); }
  }

  lemma NeighboursNext(env: Env, s: State, l: Label)
    requires Inv(env, s) && Next(env, s, l).Some? && NeighboursDiffer(s.hist.ever, s.hist.cutoff)
    ensures var s' := Next(env, s, l).value; NeighboursDiffer(s'.hist.ever, s'.hist.cutoff)
  {
    var s' := Next(env, s, l).value;
    StepSummary(env, s, l);
    if e :| Inserted(s, s', e) { InsertIsJudged(env, s); InsertedDiffers(s, s', e); }
  }

  // ----- the backups are the inputs without consecutive repetitions

  function Hashes(es: seq<BackupEntry>): (hs: seq<string>)
    ensures |hs| == |es|
  {
    seq(|es|, i requires 0 <= i < |es| => es[i].contentHash)
  }

  /** Consecutive repetitions removed. */
  function Dedup(hs: seq<string>): seq<string> {
    if |hs| <= 1 then hs
    else if hs[|hs| - 1] == hs[|hs| - 2] then Dedup(hs[..|hs| - 1])
    else Dedup(hs[..|hs| - 1]) + [hs[|hs| - 1]]
  }

  lemma {:induction false} DedupKeepsLast(hs: seq<string>)
    requires hs != []
    ensures Dedup(hs) != [] && Dedup(hs)[|Dedup(hs)| - 1] == hs[|hs| - 1]
  {
    if |hs| > 1 { DedupKeepsLast(hs[..|hs| - 1]); }
  }

  ghost predicate DedupInv(log: seq<BackupEntry>, ever: seq<BackupEntry>, cutoff: int) {
    && (ever == [] ==> log == [])
    && (ever != [] && cutoff <= ever[0].createdAt ==> Dedup(Hashes(log)) == Hashes(ever))
  }

  lemma DedupAppend(log: seq<BackupEntry>, ever: seq<BackupEntry>, e: BackupEntry)
    requires Dedup(Hashes(log)) == Hashes(ever) && (ever == [] ==> log == [])
    ensures ever == [] || e.contentHash != ever[|ever| - 1].contentHash ==>
              Dedup(Hashes(log + [e])) == Hashes(ever + [e])
    ensures ever != [] && e.contentHash == ever[|ever| - 1].contentHash ==> Dedup(Hashes(log + [e])) == Hashes(ever)
  {
    var hs := Hashes(log);
    assert Hashes(log + [e]) == hs + [e.contentHash] && Hashes(ever + [e]) == Hashes(ever) + [e.contentHash];
    assert (hs + [e.contentHash])[..|hs|] == hs;
    if log != [] { DedupKeepsLast(hs); }
  }

  lemma InsertedDedups(s: State, s': State, e: BackupEntry)
    requires Inserted(s, s', e) && Judged(s.hist, s.sched.entry) && DedupInv(s.hist.log, s.hist.ever, s.hist.cutoff)
    ensures DedupInv(s'.hist.log, s'.hist.ever, s'.hist.cutoff)
  {
    var h := s.hist;
    if h.ever == [] {
      DedupAppend([], [], e);
      assert h.log + [e] == [] + [e] && h.ever + [e] == [] + [e];
    } else if h.cutoff <= h.ever[0].createdAt {
      DedupAppend(h.log, h.ever, e);
      assert s'.hist.ever[0] == h.ever[0];
    }
  }

  lemma NothingToSkip(env: Env, s: State)
    requires Inv(env, s) && s.sched.Inserting? && s.hist.ever == []
    ensures s.sched.entry.status.Created?
  {
    NoHashMeansNoCreated(s.rows);
    assert NoCreated(s.rows);
  }

  lemma OldestBeforeNewest(env: Env, s: State)
    requires TimeInv(env, s.clock, s.hist.ever, s.hist.cutoff, s.hist.runHour) && s.hist.ever != []
    ensures s.hist.ever[0].createdAt <= s.hist.ever[|s.hist.ever| - 1].createdAt
  {
    var n := |s.hist.ever|;
    if n > 1 {
      HourlyAt(s.hist.ever, 0, n - 1);
      HourBeforeSecond(s.hist.ever[0].createdAt, s.hist.ever[n - 1].createdAt);
    }
  }

  lemma DedupNext(env: Env, s: State, l: Label)
    requires Inv(env, s) && Next(env, s, l).Some? && DedupInv(s.hist.log, s.hist.ever, s.hist.cutoff)
    ensures var s' := Next(env, s, l).value; DedupInv(s'.hist.log, s'.hist.ever, s'.hist.cutoff)
  {
    var s' := Next(env, s, l).value;
    StepSummary(env, s, l);
    if e :| Inserted(s, s', e) { InsertIsJudged(env, s); InsertedDedups(s, s', e); }
  }

  // ----- what retention leaves

  ghost predicate WithinRetention(rows: Rows, cutoff: int) {
    forall id :: IsCreated(rows, id) ==> cutoff <= rows[id].createdAt
  }

  /** The created rows beyond retention are the ones the delete loop has still to reach. */
  ghost predicate StillDoomed(rows: Rows, cutoff: int, doomed: seq<BackupEntry>, k: nat) {
    k <= |doomed| && forall id :: IsCreated(rows, id) && rows[id].createdAt < cutoff ==> rows[id] in doomed[k..]
  }

  ghost predicate RetentionOf(env: Env, now: int, sched: Sched, rows: Rows, cutoff: int, partial: bool) {
    && cutoff <= Max(0, now)
    && (sched.Selecting? ==> cutoff <= Max(0, sched.cutoff) && sched.cutoff <= now)
    && (sched.Deleting? ==> StillDoomed(rows, cutoff, sched.doomed, sched.k))
    && (!partial ==> WithinRetention(rows, cutoff))
    && (sched.Removing? ==> !partial)
    && (env.retentionDays <= 0 ==> cutoff <= 0 && !partial && !sched.Selecting? && !sched.Deleting?)
    && (env.postgres ==> !partial && !sched.Deleting?)
    && (env.postgres ==> cutoff % 1_000 == 0 && (sched.Selecting? ==> sched.cutoff % 1_000 == 0))
  }

  ghost predicate RetentionInv(env: Env, s: State) {
    RetentionOf(env, Cutoff(env, s), s.sched, s.rows, s.hist.cutoff, s.hist.partial)
  }

  lemma SelectKeepsRetention(env: Env, s: State, doomed: seq<BackupEntry>)
    requires RetentionInv(env, s) && s.sched.Selecting? && Listing(s.rows, s.sched.cutoff, doomed)
    ensures RetentionInv(env, Select(env, s, doomed))
  {
    var s' := Select(env, s, doomed);
    assert doomed[0..] == doomed;
    forall id | IsCreated(s.rows, id) && s.rows[id].createdAt < s'.hist.cutoff ensures s.rows[id] in doomed {
      assert Doomed(s.rows[id], s.sched.cutoff);
    }
  }

  lemma DeleteKeepsRetention(env: Env, s: State)
    requires Keyed(s.rows) && RetentionInv(env, s) && s.sched.Deleting? && s.sched.k < |s.sched.doomed|
    ensures RetentionInv(env, DeleteOne(s))
  {
    var s' := DeleteOne(s);
    var d, k := s.sched.doomed, s.sched.k;
    forall id | IsCreated(s'.rows, id) && s'.rows[id].createdAt < s.hist.cutoff ensures s'.rows[id] in d[k + 1..] {
      assert IsCreated(s.rows, id);
      assert d[k..] == [d[k]] + d[k + 1..];
    }
  }

  lemma InsertKeepsRetention(env: Env, s: State, e: BackupEntry, next: Sched)
    requires RetentionInv(env, s) && s.sched.Inserting? && e == s.sched.entry.WithId(e.id)
    requires RunInv(e.createdAt, s.clock, s.hist) && (next.WritingMetadata? || next.AfterRun?)
    ensures RetentionInv(env, Insert(s, e).(sched := next))
  {
    WithinAfterInsert(s.rows, s.hist.cutoff, e);
  }

  lemma WithinAfterInsert(rows: Rows, cutoff: int, e: BackupEntry)
    requires cutoff <= e.createdAt
    ensures WithinRetention(rows, cutoff) ==> WithinRetention(rows[e.id := e], cutoff)
  {
    assert forall id :: IsCreated(rows[e.id := e], id) ==> id == e.id || IsCreated(rows, id);
  }

  lemma RowsAreKeyed(env: Env, s: State)
    requires Inv(env, s)
    ensures Keyed(s.rows)
  {
  }

  lemma LoopEndKeepsRetention(env: Env, s: State)
    requires RetentionInv(env, s) && s.sched.Deleting? && s.sched.k == |s.sched.doomed|
    ensures WithinRetention(s.rows, s.hist.cutoff)
  {
    assert s.sched.doomed[s.sched.k..] == [];
  }

  lemma RetentionQuiet(env: Env, s: State, pick: Pick)
    requires RetentionInv(env, s) && SchedNext(env, s, pick).Some?
    requires !s.sched.Inserting? && !s.sched.Selecting? && !s.sched.Deleting?
    ensures RetentionInv(env, SchedNext(env, s, pick).value)
  {
    var s' := SchedNext(env, s, pick).value;
    RetentionFrame(env, s, pick);
    assert s'.sched.Selecting? ==> s'.sched.cutoff == Cutoff(env, s) && env.retentionDays > 0;
  }

  lemma RetentionFrame(env: Env, s: State, pick: Pick)
    requires SchedNext(env, s, pick).Some? && !s.sched.Inserting? && !s.sched.Selecting? && !s.sched.Deleting?
    ensures var s' := SchedNext(env, s, pick).value;
            s'.rows == s.rows && s'.hist.cutoff == s.hist.cutoff && s'.hist.partial == s.hist.partial
            && s'.clock == s.clock && !s'.sched.Deleting?
  {
    if s.sched.AfterRun? || s.sched.Removing? { RetentionFrameInPrune(env, s, pick); }
  }

  lemma RetentionFrameInPrune(env: Env, s: State, pick: Pick)
    requires SchedNext(env, s, pick).Some? && (s.sched.AfterRun? || s.sched.Removing?)
    ensures var s' := SchedNext(env, s, pick).value;
            s'.rows == s.rows && s'.hist.cutoff == s.hist.cutoff && s'.hist.partial == s.hist.partial
            && s'.clock == s.clock && !s'.sched.Deleting?
  {
  }

  lemma RetentionSchedNext(env: Env, s: State, pick: Pick)
    requires Inv(env, s) && RetentionInv(env, s) && SchedNext(env, s, pick).Some?
    ensures RetentionInv(env, SchedNext(env, s, pick).value)
  {
    match s.sched
    case Inserting(entry) => RetentionInsert(env, s, pick);
    case Selecting(_, _) => SelectKeepsRetention(env, s, pick.doomed);
    case Deleting(_, doomed, k) =>
      RowsAreKeyed(env, s);
      RetentionDelete(env, s, pick);
    case _ => RetentionQuiet(env, s, pick);
  }

  lemma RetentionInsert(env: Env, s: State, pick: Pick)
    requires SchedInv(env, s.sched, s.rows, s.dirs, s.clock, s.hist) && RetentionInv(env, s)
    requires s.sched.Inserting? && SchedNext(env, s, pick).Some?
    ensures RetentionInv(env, SchedNext(env, s, pick).value)
  {
    InsertKeepsRetention(env, s, s.sched.entry.WithId(pick.id), SchedNext(env, s, pick).value.sched);
  }

  lemma RetentionDelete(env: Env, s: State, pick: Pick)
    requires Keyed(s.rows) && RetentionInv(env, s) && s.sched.Deleting? && SchedNext(env, s, pick).Some?
    ensures RetentionInv(env, SchedNext(env, s, pick).value)
  {
    if s.sched.k < |s.sched.doomed| { DeleteKeepsRetention(env, s); } else { LoopEndKeepsRetention(env, s); }
  }

  lemma RetentionFail(env: Env, s: State)
    requires RetentionInv(env, s)
    ensures RetentionInv(env, FailRun(s)) && RetentionInv(env, FailPrune(s)) && RetentionInv(env, Restart(s))
  {
  }

  lemma RetentionQuietFail(env: Env, s: State, r: Residue)
    requires RetentionInv(env, s) && SchedFails(env, s, r).Some?
    requires !s.sched.Inserting? && !s.sched.Selecting? && !s.sched.Deleting?
    ensures RetentionInv(env, SchedFails(env, s, r).value)
  {
  }

  lemma RetentionSchedFails(env: Env, s: State, r: Residue)
    requires Inv(env, s) && RetentionInv(env, s) && SchedFails(env, s, r).Some?
    ensures RetentionInv(env, SchedFails(env, s, r).value)
  {
    if s.sched.Inserting? {
      RetentionFail(env, s);
      if r.applied { InsertKeepsRetention(env, s, s.sched.entry.WithId(r.id), AfterRun(Failed)); }
    } else if s.sched.Selecting? || s.sched.Deleting? {
      RowsAreKeyed(env, s);
      RetentionPruneFails(env, s, r);
    } else {
      RetentionQuietFail(env, s, r);
    }
  }

  lemma RetentionPruneFails(env: Env, s: State, r: Residue)
    requires Keyed(s.rows) && RetentionInv(env, s) && SchedFails(env, s, r).Some?
    requires s.sched.Selecting? || s.sched.Deleting?
    ensures RetentionInv(env, SchedFails(env, s, r).value)
  {
    match s.sched
    case Selecting(_, _) =>
      if r.applied && env.postgres {
        SelectKeepsRetention(env, s, r.doomed);
        RetentionFail(env, Select(env, s, r.doomed));
      } else {
        RetentionFail(env, s);
      }
    case Deleting(_, _, _) =>
      DeleteKeepsRetention(env, s);
      RetentionFail(env, if r.applied then DeleteOne(s) else s);
  }

  lemma TickKeepsRetention(env: Env, s: State, to: Time)
    requires RetentionInv(env, s) && s.clock <= to
    ensures RetentionInv(env, s.(clock := to))
  {
    CutoffsGrow(env, s.clock, to);
  }

  lemma RetentionNext(env: Env, s: State, l: Label)
    requires Inv(env, s) && RetentionInv(env, s) && Next(env, s, l).Some?
    ensures RetentionInv(env, Next(env, s, l).value)
  {
    match l
    case Tick(to) => TickKeepsRetention(env, s, to);
    case SchedOk(pick) => RetentionSchedNext(env, s, pick);
    case SchedFault(r) => RetentionSchedFails(env, s, r);
    case Crash => RetentionFail(env, s);
    case RollOk => RollFrame(env, s);
    case RollFault(applied, length) => RollFailFrame(s, applied, length);
    case _ =>
  }

  // ----- what run_once was given

  function LastInput(inputs: seq<Bytes>): Bytes { if inputs == [] then [] else inputs[|inputs| - 1] }

  /** The hash that a run carries is that of its input. */
  ghost predicate InputInv(env: Env, sched: Sched, input: Bytes) {
    match sched
    case Checking(_, bytes) => bytes == input
    case MakingDir(_, bytes) => bytes == input
    case WritingPayload(_, bytes) => bytes == input
    case ReadingStats(_, bytes) => bytes == input
    case Inserting(entry) => entry.contentHash == env.hash(input)
    case WritingMetadata(e) => e.contentHash == env.hash(input)
    case Publishing(e, _) => e.contentHash == env.hash(input)
    case AfterRun(ran) => ran.Ok? ==> ran.hash == env.hash(input)
    case Selecting(ran, _) => ran.Ok? ==> ran.hash == env.hash(input)
    case _ => true
  }

  lemma InputNext(env: Env, s: State, l: Label)
    requires Next(env, s, l).Some? && InputInv(env, s.sched, LastInput(s.hist.inputs))
    ensures var s' := Next(env, s, l).value; InputInv(env, s'.sched, LastInput(s'.hist.inputs))
  {
    match l
    case SchedOk(pick) => InputSchedNext(env, s, pick);
    case SchedFault(r) => InputSchedFails(env, s, r);
    case RollOk => RollFrame(env, s);
    case RollFault(applied, length) => RollFailFrame(s, applied, length);
    case _ =>
  }

  lemma InputSchedNext(env: Env, s: State, pick: Pick)
    requires SchedNext(env, s, pick).Some? && InputInv(env, s.sched, LastInput(s.hist.inputs))
    ensures var s' := SchedNext(env, s, pick).value; InputInv(env, s'.sched, LastInput(s'.hist.inputs))
  {
    if s.sched.Top? || s.sched.Sleeping? || s.sched.Synced? || s.sched.Checking? || s.sched.MakingDir? {
      InputBefore(env, s, pick);
    } else {
      InputAfter(env, s, pick);
    }
  }

  lemma InputBefore(env: Env, s: State, pick: Pick)
    requires SchedNext(env, s, pick).Some? && InputInv(env, s.sched, LastInput(s.hist.inputs))
    requires s.sched.Top? || s.sched.Sleeping? || s.sched.Synced? || s.sched.Checking? || s.sched.MakingDir?
    ensures var s' := SchedNext(env, s, pick).value; InputInv(env, s'.sched, LastInput(s'.hist.inputs))
  {
  }

  lemma InputAfter(env: Env, s: State, pick: Pick)
    requires SchedNext(env, s, pick).Some? && InputInv(env, s.sched, LastInput(s.hist.inputs))
    requires !s.sched.Top? && !s.sched.Sleeping? && !s.sched.Synced? && !s.sched.Checking? && !s.sched.MakingDir?
    ensures var s' := SchedNext(env, s, pick).value; InputInv(env, s'.sched, LastInput(s'.hist.inputs))
  {
  }

  lemma InputSchedFails(env: Env, s: State, r: Residue)
    requires SchedFails(env, s, r).Some? && InputInv(env, s.sched, LastInput(s.hist.inputs))
    ensures var s' := SchedFails(env, s, r).value; InputInv(env, s'.sched, LastInput(s'.hist.inputs))
  {
  }

  /** Every step of the run is possible and `ok`. */
  ghost predicate Throughout(env: Env, s: State, ls: seq<Label>, ok: (State, Label) -> bool)
    decreases ls
  {
    ls == [] || (ok(s, ls[0]) && Next(env, s, ls[0]).Some? && Throughout(env, Next(env, s, ls[0]).value, ls[1..], ok))
  }

  predicate InPrune(p: Sched) { p.Selecting? || p.Deleting? || p.Removing? }

  /** A run_once that has yet to insert its row. */
  predicate BeforeInsert(p: Sched) {
    p.Checking? || p.MakingDir? || p.WritingPayload? || p.ReadingStats? || p.Inserting?
  }

  function InputHashes(env: Env, inputs: seq<Bytes>): (hs: seq<string>)
    ensures |hs| == |inputs|
  {
    seq(|inputs|, i requires 0 <= i < |inputs| => env.hash(inputs[i]))
  }

  /** The inputs whose run_once is past its insert or over. */
  function Answered(p: Sched, inputs: seq<Bytes>): seq<Bytes> {
    if BeforeInsert(p) && inputs != [] then inputs[..|inputs| - 1] else inputs
  }

  /** `a` is `b` with some elements left out. */
  predicate Subsequence(a: seq<string>, b: seq<string>) {
    a == []
    || (b != [] && a[|a| - 1] == b[|b| - 1] && Subsequence(a[..|a| - 1], b[..|b| - 1]))
    || (b != [] && Subsequence(a, b[..|b| - 1]))
  }

  lemma SubsequenceAppend(a: seq<string>, b: seq<string>, x: string)
    requires Subsequence(a, b)
    ensures Subsequence(a, b + [x]) && Subsequence(a + [x], b + [x])
  {
    assert (b + [x])[..|b|] == b && (a + [x])[..|a|] == a;
  }

  lemma HashesSplit(env: Env, inputs: seq<Bytes>)
    requires inputs != []
    ensures InputHashes(env, inputs) ==
            InputHashes(env, inputs[..|inputs| - 1]) + [env.hash(LastInput(inputs))]
  {
  }

  /** The rows follow the inputs: in all runs as a subsequence, in undisturbed ones exactly. */
  ghost predicate FollowsInv(env: Env, sched: Sched, h: History) {
    && (BeforeInsert(sched) ==> h.inputs != [])
    && Subsequence(Hashes(h.log), InputHashes(env, Answered(sched, h.inputs)))
  }

  ghost predicate ExactInv(env: Env, sched: Sched, h: History) {
    && (BeforeInsert(sched) ==> h.inputs != [])
    && Hashes(h.log) == InputHashes(env, Answered(sched, h.inputs))
  }

  /** No fault and no restart between the start of a run_once and the insertion of its row. */
  predicate Undisturbed(s: State, l: Label) { BeforeInsert(s.sched) ==> !l.SchedFault? && !l.Crash? }

  ghost predicate SameInputs(s: State, s': State) {
    s'.hist.log == s.hist.log && s'.hist.inputs == s.hist.inputs && (BeforeInsert(s'.sched) ==> BeforeInsert(s.sched))
  }

  ghost predicate Began(s: State, s': State) {
    && s.sched.Synced? && BeforeInsert(s'.sched)
    && s'.hist.log == s.hist.log && s'.hist.inputs == s.hist.inputs + [s.sched.bytes]
  }

  ghost predicate InsertedInput(env: Env, s: State, s': State) {
    && s.sched.Inserting? && !BeforeInsert(s'.sched) && s'.hist.inputs == s.hist.inputs
    && |s'.hist.log| == |s.hist.log| + 1 && s'.hist.log[..|s.hist.log|] == s.hist.log
    && s'.hist.log[|s.hist.log|].contentHash == s.sched.entry.contentHash
  }

  lemma InputsSchedNext(env: Env, s: State, pick: Pick)
    requires SchedNext(env, s, pick).Some?
    ensures var s' := SchedNext(env, s, pick).value;
            if s.sched.Synced? then Began(s, s')
            else if s.sched.Inserting? then InsertedInput(env, s, s')
            else SameInputs(s, s') && (BeforeInsert(s.sched) ==> BeforeInsert(s'.sched))
  {
    if InPrune(s.sched) || s.sched.AfterRun? { InputsInPrune(env, s, pick); } else { InputsInRun(env, s, pick); }
  }

  lemma InputsInPrune(env: Env, s: State, pick: Pick)
    requires SchedNext(env, s, pick).Some? && (InPrune(s.sched) || s.sched.AfterRun?)
    ensures SameInputs(s, SchedNext(env, s, pick).value)
  {
  }

  lemma InputsInRun(env: Env, s: State, pick: Pick)
    requires SchedNext(env, s, pick).Some? && !InPrune(s.sched) && !s.sched.AfterRun?
    ensures var s' := SchedNext(env, s, pick).value;
            if s.sched.Synced? then Began(s, s')
            else if s.sched.Inserting? then InsertedInput(env, s, s')
            else SameInputs(s, s') && (BeforeInsert(s.sched) ==> BeforeInsert(s'.sched))
  {
  }

  lemma InputsSchedFails(env: Env, s: State, r: Residue)
    requires SchedFails(env, s, r).Some?
    ensures var s' := SchedFails(env, s, r).value;
            (s.sched.Inserting? && InsertedInput(env, s, s')) || SameInputs(s, s')
  {
  }

  lemma InputsSummary(env: Env, s: State, l: Label)
    requires Next(env, s, l).Some?
    ensures var s' := Next(env, s, l).value;
            || Began(s, s')
            || (s.sched.Inserting? && InsertedInput(env, s, s'))
            || (SameInputs(s, s') && (Undisturbed(s, l) && BeforeInsert(s.sched) ==> BeforeInsert(s'.sched)))
  {
    match l
    case SchedOk(pick) => InputsSchedNext(env, s, pick);
    case SchedFault(r) => InputsSchedFails(env, s, r);
    case RollOk => RollFrame(env, s);
    case RollFault(applied, length) => RollFailFrame(s, applied, length);
    case _ =>
  }

  lemma FollowsAnswered(env: Env, log: seq<BackupEntry>, inputs: seq<Bytes>)
    requires inputs != [] && Subsequence(Hashes(log), InputHashes(env, inputs[..|inputs| - 1]))
    ensures Subsequence(Hashes(log), InputHashes(env, inputs))
  {
    HashesSplit(env, inputs);
    SubsequenceAppend(Hashes(log), InputHashes(env, inputs[..|inputs| - 1]), env.hash(LastInput(inputs)));
  }

  lemma FollowsInserted(env: Env, log: seq<BackupEntry>, log': seq<BackupEntry>, inputs: seq<Bytes>)
    requires inputs != [] && Subsequence(Hashes(log), InputHashes(env, inputs[..|inputs| - 1]))
    requires |log'| == |log| + 1 && log'[..|log|] == log && log'[|log|].contentHash == env.hash(LastInput(inputs))
    ensures Subsequence(Hashes(log'), InputHashes(env, inputs))
  {
    HashesSplit(env, inputs);
    SubsequenceAppend(Hashes(log), InputHashes(env, inputs[..|inputs| - 1]), env.hash(LastInput(inputs)));
    assert Hashes(log') == Hashes(log) + [log'[|log|].contentHash];
  }

  lemma FollowsNext(env: Env, s: State, l: Label)
    requires Next(env, s, l).Some? && FollowsInv(env, s.sched, s.hist)
    requires InputInv(env, s.sched, LastInput(s.hist.inputs))
    ensures var s' := Next(env, s, l).value; FollowsInv(env, s'.sched, s'.hist)
  {
    var s' := Next(env, s, l).value;
    InputsSummary(env, s, l);
    if s.sched.Inserting? && InsertedInput(env, s, s') {
      FollowsInserted(env, s.hist.log, s'.hist.log, s.hist.inputs);
    } else if BeforeInsert(s.sched) {
      FollowsAnswered(env, s.hist.log, s.hist.inputs);
    } else if s.sched.Synced? && Began(s, s') {
      assert Answered(s'.sched, s'.hist.inputs) == s.hist.inputs;
    }
  }

  lemma ExactNext(env: Env, s: State, l: Label)
    requires Next(env, s, l).Some? && ExactInv(env, s.sched, s.hist) && Undisturbed(s, l)
    requires InputInv(env, s.sched, LastInput(s.hist.inputs))
    ensures var s' := Next(env, s, l).value; ExactInv(env, s'.sched, s'.hist)
  {
    var s' := Next(env, s, l).value;
    InputsSummary(env, s, l);
    if BeforeInsert(s.sched) {
      HashesSplit(env, s.hist.inputs);
      if s.sched.Inserting? && InsertedInput(env, s, s') {
        assert Hashes(s'.hist.log) == Hashes(s.hist.log) + [s.sched.entry.contentHash];
      }
    } else if s.sched.Synced? && Began(s, s') {
      assert Answered(s'.sched, s'.hist.inputs) == s.hist.inputs;
    }
  }

  // ----- the hours of run_once

  /** Each time lies in a later hour than the one before. */
  ghost predicate HourlyTimes(ts: seq<Time>) {
    |ts| <= 1 || (HourOf(ts[|ts| - 2]) < HourOf(ts[|ts| - 1]) && HourlyTimes(ts[..|ts| - 1]))
  }

  lemma {:induction false} HourlyTimesAt(ts: seq<Time>, i: nat, j: nat)
    requires HourlyTimes(ts) && i < j < |ts|
    ensures HourOf(ts[i]) < HourOf(ts[j])
  {
    var front := ts[..|ts| - 1];
    if j < |ts| - 1 {
      HourlyTimesAt(front, i, j);
    } else if i < j - 1 {
      HourlyTimesAt(front, i, j - 1);
    }
  }

  ghost predicate BeganInv(h: History) {
    && |h.began| == |h.inputs| && HourlyTimes(h.began)
    && h.runHour == if h.began == [] then -1 else HourOf(h.began[|h.began| - 1])
  }

  ghost predicate SameRuns(h: History, h': History) {
    h'.began == h.began && h'.inputs == h.inputs && h'.runHour == h.runHour
  }

  lemma RunsSchedNext(env: Env, s: State, pick: Pick)
    requires SchedNext(env, s, pick).Some? && !s.sched.Synced?
    ensures SameRuns(s.hist, SchedNext(env, s, pick).value.hist)
  {
    if InPrune(s.sched) || s.sched.AfterRun? { RunsInPrune(env, s, pick); }
  }

  lemma RunsInPrune(env: Env, s: State, pick: Pick)
    requires SchedNext(env, s, pick).Some? && (InPrune(s.sched) || s.sched.AfterRun?)
    ensures SameRuns(s.hist, SchedNext(env, s, pick).value.hist)
  {
  }

  lemma RunsSchedFails(env: Env, s: State, r: Residue)
    requires SchedFails(env, s, r).Some?
    ensures SameRuns(s.hist, SchedFails(env, s, r).value.hist)
  {
  }

  lemma BeganNext(env: Env, s: State, l: Label)
    requires SchedInv(env, s.sched, s.rows, s.dirs, s.clock, s.hist) && BeganInv(s.hist) && Next(env, s, l).Some?
    ensures BeganInv(Next(env, s, l).value.hist)
  {
    match l
    case SchedOk(pick) => if s.sched.Synced? { RunBegins(env, s, pick); } else { RunsSchedNext(env, s, pick); }
    case SchedFault(r) => RunsSchedFails(env, s, r);
    case RollOk => RollFrame(env, s);
    case RollFault(applied, length) => RollFailFrame(s, applied, length);
    case _ =>
  }

  lemma RunBegins(env: Env, s: State, pick: Pick)
    requires s.sched.Synced? && s.hist.runHour < HourOf(s.clock) && BeganInv(s.hist)
    ensures SchedNext(env, s, pick).Some? && BeganInv(SchedNext(env, s, pick).value.hist)
  {
    assert (s.hist.began + [s.clock])[..|s.hist.began|] == s.hist.began;
  }

  // ----- the backups are the created rows

  function CreatedOf(log: seq<BackupEntry>): seq<BackupEntry> {
    if log == [] then []
    else
      var e := log[|log| - 1];
      CreatedOf(log[..|log| - 1]) + (if e.status.Created? then [e] else [])
  }

  lemma LogNext(env: Env, s: State, l: Label)
    requires Next(env, s, l).Some? && s.hist.ever == CreatedOf(s.hist.log)
    ensures var s' := Next(env, s, l).value; s'.hist.ever == CreatedOf(s'.hist.log)
  {
    var s' := Next(env, s, l).value;
    StepSummary(env, s, l);
    if e :| Inserted(s, s', e) { assert s'.hist.log[..|s.hist.log|] == s.hist.log; }
  }

  lemma {:induction false} CreatedAt(log: seq<BackupEntry>, k: nat)
    requires k < |log| && log[k].status.Created?
    ensures |CreatedOf(log[..k])| < |CreatedOf(log)| && CreatedOf(log)[|CreatedOf(log[..k])|] == log[k]
  {
    var front := log[..|log| - 1];
    if k < |front| {
      CreatedAt(front, k);
      assert front[..k] == log[..k];
    }
  }

  lemma {:induction false} CreatedOfPrefix(log: seq<BackupEntry>, k: nat)
    requires k <= |log|
    ensures |CreatedOf(log[..k])| <= |CreatedOf(log)|
  {
    if k == |log| {
      assert log[..k] == log;
    } else {
      var front := log[..|log| - 1];
      CreatedOfPrefix(front, k);
      assert front[..k] == log[..k];
    }
  }

  // ----- rows lost to a failed prune

  /** No fault and no restart in the middle of a prune. */
  predicate PruneUndisturbed(s: State, l: Label) { InPrune(s.sched) ==> !l.SchedFault? && !l.Crash? }

  lemma LostNext(env: Env, s: State, l: Label)
    requires Next(env, s, l).Some? && PruneUndisturbed(s, l)
    ensures Next(env, s, l).value.hist.lost == s.hist.lost
  {
    match l
    case SchedOk(pick) => LostSchedNext(env, s, pick);
    case RollOk => RollFrame(env, s);
    case RollFault(applied, length) => RollFailFrame(s, applied, length);
    case _ =>
  }

  lemma LostSchedNext(env: Env, s: State, pick: Pick)
    requires SchedNext(env, s, pick).Some?
    ensures SchedNext(env, s, pick).value.hist.lost == s.hist.lost
  {
  }

  // ----- a cycle that begins without a backup

  /** The cycle in progress will leave a backup: no row is there to skip for, or the run has just made one. */
  ghost predicate AboutToBackUp(s: State) {
    match s.sched
    case Inserting(entry) => entry.status.Created? && NoCreated(s.rows)
    case WritingMetadata(_) => true
    case Publishing(_, _) => true
    case AfterRun(ran) => ran.Ok? && MadeAt(s.hist, ran.now) && s.hist.cutoff <= ran.now
    case Selecting(ran, cutoff) => ran.Ok? && MadeAt(s.hist, ran.now) && s.hist.cutoff <= ran.now && cutoff <= ran.now
    case Deleting(ran, _, _) => ran.Ok? && MadeAt(s.hist, ran.now) && s.hist.cutoff <= ran.now
    case Removing(ran, _, _) => ran.Ok? && MadeAt(s.hist, ran.now) && s.hist.cutoff <= ran.now
    case _ => NoCreated(s.rows)
  }

  ghost predicate MadeAt(h: History, now: Time) {
    h.ever != [] && h.ever[|h.ever| - 1].createdAt == now
  }

  predicate Faultless(l: Label) { !l.SchedFault? && !l.Crash? }

  /** No fault, no restart, and a prune that begins within the retention of its run_once. */
  ghost predicate Smooth(env: Env, s: State, l: Label) {
    && Faultless(l)
    && (l.SchedOk? && s.sched.AfterRun? && s.sched.ran.Ok? && env.retentionDays > 0 ==>
          Cutoff(env, s) <= s.sched.ran.now)
  }

  lemma MadeAtIsLive(s: State, now: Time)
    requires TableInv(s.rows, s.hist.known, s.hist.ever, s.hist.cutoff) && MadeAt(s.hist, now) && s.hist.cutoff <= now
    ensures !NoCreated(s.rows)
  {
    var e := s.hist.ever[|s.hist.ever| - 1];
    assert e in s.hist.ever;
    assert IsCreated(s.rows, e.id);
  }

  lemma BackUpBeforePrune(env: Env, s: State, pick: Pick)
    requires AboutToBackUp(s) && SchedNext(env, s, pick).Some?
    requires !s.sched.AfterRun? && !s.sched.Selecting? && !s.sched.Deleting? && !s.sched.Removing?
    requires s.sched.Inserting? ==> RunInv(s.sched.entry.createdAt, s.clock, s.hist)
    requires s.sched.Publishing? ==> NewestInv(s.hist, s.sched.e)
    ensures AboutToBackUp(SchedNext(env, s, pick).value)
  {
    if s.sched.Checking? { NoHashMeansNoCreated(s.rows); }
  }

  /** A backup just made outlives the prune of its cycle. */
  lemma BackUpOutlivesPrune(env: Env, s: State, pick: Pick)
    requires AboutToBackUp(s) && SchedNext(env, s, pick).Some? && Smooth(env, s, SchedOk(pick))
    requires s.sched.AfterRun? || InPrune(s.sched)
    requires TableInv(s.rows, s.hist.known, s.hist.ever, s.hist.cutoff)
    ensures var s' := SchedNext(env, s, pick).value; if s'.sched.Top? then !NoCreated(s'.rows) else AboutToBackUp(s')
  {
    MadeAtIsLive(s, s.sched.ran.now);
    if s.sched.AfterRun? || s.sched.Selecting? { BackUpIsKept(env, s, pick); } else { BackUpStays(env, s, pick); }
  }

  lemma BackUpIsKept(env: Env, s: State, pick: Pick)
    requires AboutToBackUp(s) && SchedNext(env, s, pick).Some? && Smooth(env, s, SchedOk(pick))
    requires (s.sched.AfterRun? || s.sched.Selecting?) && !NoCreated(s.rows)
    ensures var s' := SchedNext(env, s, pick).value; if s'.sched.Top? then !NoCreated(s'.rows) else AboutToBackUp(s')
  {
  }

  lemma BackUpStays(env: Env, s: State, pick: Pick)
    requires AboutToBackUp(s) && SchedNext(env, s, pick).Some?
    requires (s.sched.Deleting? || s.sched.Removing?) && !NoCreated(s.rows)
    ensures var s' := SchedNext(env, s, pick).value; if s'.sched.Top? then !NoCreated(s'.rows) else AboutToBackUp(s')
  {
  }

  /** A smooth step on the way to a backup stays on the way, or ends the cycle with one. */
  lemma BackUpNext(env: Env, s: State, l: Label)
    requires Inv(env, s) && AboutToBackUp(s) && Next(env, s, l).Some? && Smooth(env, s, l) && !s.sched.Top?
    ensures var s' := Next(env, s, l).value; if s'.sched.Top? then !NoCreated(s'.rows) else AboutToBackUp(s')
  {
    match l
    case SchedOk(pick) =>
      if s.sched.AfterRun? || s.sched.Selecting? || s.sched.Deleting? || s.sched.Removing? {
        BackUpOutlivesPrune(env, s, pick);
      } else {
        BackUpBeforePrune(env, s, pick);
        NotYetTop(env, s, pick);
      }
    case RollOk => RollFrame(env, s);
    case RollFault(applied, length) => RollFailFrame(s, applied, length);
    case _ =>
  }

  lemma NotYetTop(env: Env, s: State, pick: Pick)
    requires SchedNext(env, s, pick).Some?
    requires !s.sched.AfterRun? && !s.sched.Selecting? && !s.sched.Deleting? && !s.sched.Removing?
    ensures !SchedNext(env, s, pick).value.sched.Top?
  {
  }

  // ----- the rollback gate

  /** Completed rollbacks are ten seconds apart, and a request in progress started ten seconds after the last. */
  ghost predicate GateInv(gate: Option<Time>, stamps: seq<Time>, clock: Time, roll: Roll) {
    && (gate.None? <==> stamps == [])
    && (gate.Some? ==> gate.value == stamps[|stamps| - 1] <= clock)
    && (gate.Some? && !roll.Idle? ==> stamps[|stamps| - 1] + 10 * SECOND <= clock)
    && (forall i :: 0 <= i < |stamps| - 1 ==> stamps[i] + 10 * SECOND <= stamps[i + 1])
  }

  lemma GateNext(env: Env, s: State, l: Label)
    requires Next(env, s, l).Some? && GateInv(s.gate, s.stamps, s.clock, s.roll)
    ensures var s' := Next(env, s, l).value; GateInv(s'.gate, s'.stamps, s'.clock, s'.roll)
  {
    match l
    case SchedOk(pick) => SchedFrame(env, s, pick);
    case SchedFault(r) => FaultFrame(env, s, r);
    case RollOk => GateRoll(env, s);
    case RollFault(applied, length) => RollFailFrame(s, applied, length);
    case _ =>
  }

  lemma GateRoll(env: Env, s: State)
    requires RollNext(env, s).Some? && GateInv(s.gate, s.stamps, s.clock, s.roll)
    ensures var s' := RollNext(env, s).value; GateInv(s'.gate, s'.stamps, s'.clock, s'.roll)
  {
  }
}
