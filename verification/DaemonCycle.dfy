/** One cycle of the scheduler loop: that it gets through, and whether it leaves a backup. */
module DaemonCycle {
  import opened ByteText
  import opened Calendar
  import opened Rfc3339
  import opened Backup
  import opened Table
  import opened Scheduler
  import opened Daemon
  import opened DaemonInvariant
  import opened DaemonHistory
  import opened DaemonTheorems

  // ----- progress

  /** A cycle from the end of its sleep to the end of run_once, with a readable collection to store. */
  ghost predicate CanProceed(env: Env, s: State, id: Uuid) {
    match s.sched
    case Sleeping(until) =>
      until <= s.clock && s.remote.Some? && env.stats(s.remote.value).Some? && Fresh(s, id)
    case Synced(bytes) => env.stats(bytes).Some? && Fresh(s, id)
    case Checking(_, bytes) => env.stats(bytes).Some? && Fresh(s, id)
    case MakingDir(_, bytes) => env.stats(bytes).Some? && Fresh(s, id)
    case WritingPayload(_, bytes) => env.stats(bytes).Some? && Fresh(s, id)
    case ReadingStats(now, bytes) =>
      env.stats(bytes).Some? && Fresh(s, id) && DirAt(s, env.dirName(now)).payload == Some(bytes)
    case Inserting(_) => Fresh(s, id)
    case WritingMetadata(_) => true
    case Publishing(_, stage) => stage.Fill? || stage.Rename? ==> s.files.tmp.Some?
    case AfterRun(ran) => ran.Ok?
    case _ => false
  }

  /** How many steps are left at most. */
  function StepsLeft(p: Sched): nat {
    match p
    case Sleeping(_) => 12
    case Synced(_) => 11
    case Checking(_, _) => 10
    case MakingDir(_, _) => 9
    case WritingPayload(_, _) => 8
    case ReadingStats(_, _) => 7
    case Inserting(_) => 6
    case WritingMetadata(_) => 5
    case Publishing(_, stage) => if stage.Stamp? then 4 else if stage.Open? then 3 else if stage.Fill? then 2 else 1
    case _ => 0
  }

  lemma ProceedStep(env: Env, s: State, id: Uuid)
    requires CanProceed(env, s, id) && !s.sched.AfterRun?
    ensures
      var next := SchedNext(env, s, Pick(id, [], None, None));
      next.Some? && CanProceed(env, next.value, id) && StepsLeft(next.value.sched) < StepsLeft(s.sched)
  {
  }

  /** Nothing in the code itself stops a backup: once the sync has something readable, successful calls
      alone take run_once to success, in at most twelve of them. */
  lemma {:induction false} RunOnceSucceedsWithoutFaults(env: Env, s: State, id: Uuid) returns (ls: seq<Label>)
    requires CanProceed(env, s, id)
    ensures |ls| <= StepsLeft(s.sched) && forall l :: l in ls ==> l.SchedOk?
    ensures Run(env, s, ls).Some? && Run(env, s, ls).value.sched.AfterRun? && Run(env, s, ls).value.sched.ran.Ok?
    decreases StepsLeft(s.sched)
  {
    ls := [];
    if !s.sched.AfterRun? {
      var l := SchedOk(Pick(id, [], None, None));
      ProceedStep(env, s, id);
      var rest := RunOnceSucceedsWithoutFaults(env, Next(env, s, l).value, id);
      ls := [l] + rest;
      assert ls[1..] == rest;
    }
  }

  // ----- the rest of a cycle

  /** Steps without a fault or a restart up to the return to the top of the loop. */
  ghost predicate RestOfCycle(env: Env, s: State, ls: seq<Label>)
    decreases ls
  {
    && ls != [] && !s.sched.Top? && Next(env, s, ls[0]).Some? && Faultless(ls[0])
    && var s' := Next(env, s, ls[0]).value;
       if |ls| == 1 then s'.sched.Top? else RestOfCycle(env, s', ls[1..])
  }

  /** The prune begins within the retention of the run_once before it. */
  ghost predicate PrunesOnTime(env: Env, s: State, ls: seq<Label>)
    decreases ls
  {
    ls == [] ||
    (Smooth(env, s, ls[0]) && (Next(env, s, ls[0]).Some? ==> PrunesOnTime(env, Next(env, s, ls[0]).value, ls[1..])))
  }

  lemma {:induction false} CycleBacksUp(env: Env, s: State, ls: seq<Label>)
    requires NamesSeconds(env.dirName) && Inv(env, s) && AboutToBackUp(s)
    requires RestOfCycle(env, s, ls) && PrunesOnTime(env, s, ls)
    ensures Run(env, s, ls).Some? && Run(env, s, ls).value.sched.Top? && !NoCreated(Run(env, s, ls).value.rows)
    decreases ls
  {
    var s' := Next(env, s, ls[0]).value;
    BackUpNext(env, s, ls[0]);
    NextKeepsInv(env, s, ls[0]);
    if |ls| == 1 {
      assert ls[1..] == [];
    } else {
      NotAtTop(env, s', ls[1..]);
      CycleBacksUp(env, s', ls[1..]);
    }
  }

  lemma NotAtTop(env: Env, s: State, ls: seq<Label>)
    requires RestOfCycle(env, s, ls)
    ensures !s.sched.Top?
  {
  }

  /** A successful cycle that begins without any backup ends with one, if its prune begins within the
      retention of its run_once.  So two successive successful cycles never both end without a backup. */
  lemma EmptyStoreIsRefilled(env: Env, s: State, ls: seq<Label>)
    requires NamesSeconds(env.dirName) && Reachable(env, s) && s.sched.Sleeping? && NoCreated(s.rows)
    requires RestOfCycle(env, s, ls) && PrunesOnTime(env, s, ls)
    ensures Run(env, s, ls).Some? && Run(env, s, ls).value.sched.Top? && !NoCreated(Run(env, s, ls).value.rows)
  {
    ReachableInv(env, s);
    CycleBacksUp(env, s, ls);
  }

  // ----- when a cycle leaves no backup

  /** What a successful scheduler step does to the cutoff. */
  ghost predicate CutoffStep(env: Env, s: State, s': State) {
    match s.sched
    case AfterRun(_) =>
      && s'.hist.cutoff == s.hist.cutoff
      && if env.retentionDays <= 0 then s'.sched.Top? else s'.sched.Selecting? && s'.sched.cutoff == Cutoff(env, s)
    case Selecting(_, cutoff) =>
      (s'.sched.Deleting? || s'.sched.Removing?) && s'.hist.cutoff == Max(s.hist.cutoff, cutoff)
    case Deleting(_, _, _) => (s'.sched.Deleting? || s'.sched.Removing?) && s'.hist.cutoff == s.hist.cutoff
    case Removing(_, _, _) =>
      && (s'.sched.Removing? || s'.sched.Top?)
      && s'.hist.cutoff == s.hist.cutoff && s'.hist.partial == s.hist.partial
    case _ => s'.hist.cutoff == s.hist.cutoff
  }

  lemma PruneCutoffStep(env: Env, s: State, pick: Pick)
    requires SchedNext(env, s, pick).Some? && (InPrune(s.sched) || s.sched.AfterRun?)
    ensures CutoffStep(env, s, SchedNext(env, s, pick).value)
    ensures SchedNext(env, s, pick).value.hist.ever == s.hist.ever
  {
  }

  /** Up to the end of run_once. */
  predicate InRun(p: Sched) { !p.Top? && !InPrune(p) && (p.AfterRun? ==> p.ran.Ok?) }

  lemma RunCutoffStep(env: Env, s: State, pick: Pick)
    requires SchedNext(env, s, pick).Some? && InRun(s.sched) && !s.sched.AfterRun?
    ensures InRun(SchedNext(env, s, pick).value.sched)
    ensures SchedNext(env, s, pick).value.hist.cutoff == s.hist.cutoff
  {
  }

  lemma OtherStep(env: Env, s: State, l: Label)
    requires Next(env, s, l).Some? && Faultless(l) && !l.SchedOk?
    ensures var s' := Next(env, s, l).value; s.clock <= s'.clock && s'.sched == s.sched && s'.hist == s.hist
  {
    if l.RollOk? { RollFrame(env, s); }
    if l.RollFault? { RollFailFrame(s, l.applied, l.length); }
  }

  /** The prune of the cycle has been told to apply the cutoff of time `t`. */
  ghost predicate Decided(env: Env, s: State, cutoff: int, t: Time) {
    && env.retentionDays > 0 && InPrune(s.sched)
    && (if s.sched.Selecting? then s.sched.cutoff == CutoffAt(env, t) && s.hist.cutoff == cutoff
        else s.hist.cutoff == Max(cutoff, CutoffAt(env, t)))
  }

  lemma WholeAtRemoving(env: Env, s: State)
    requires NamesSeconds(env.dirName) && Reachable(env, s)
    ensures s.sched.Removing? || env.retentionDays <= 0 ==> !s.hist.partial
  {
    ReachableAll(env, s);
  }

  lemma {:induction false} PruneEnds(env: Env, s: State, ls: seq<Label>, cutoff: int, t: Time)
    requires NamesSeconds(env.dirName) && Reachable(env, s) && RestOfCycle(env, s, ls)
    requires Decided(env, s, cutoff, t)
    ensures Run(env, s, ls).Some?
    ensures var s' := Run(env, s, ls).value;
            && s'.sched.Top? && !s'.hist.partial && s.clock <= s'.clock
            && s'.hist.ever == s.hist.ever && s'.hist.cutoff == Max(cutoff, CutoffAt(env, t))
    decreases ls
  {
    var l := ls[0];
    var s' := Next(env, s, l).value;
    NextReachable(env, s, l);
    if l.SchedOk? { PruneCutoffStep(env, s, l.pick); SchedFrame(env, s, l.pick); } else { OtherStep(env, s, l); }
    if |ls| == 1 {
      WholeAtRemoving(env, s);
      assert ls[1..] == [];
    } else {
      NotAtTop(env, s', ls[1..]);
      PruneEnds(env, s', ls[1..], cutoff, t);
    }
  }

  /** The run `ls` of a cycle, cut at the step with which its prune begins. */
  datatype PruneStart = PruneStart(before: seq<Label>, pick: Pick, rest: seq<Label>)

  /** The prune of the cycle `ls` begins at the cut, at time `t`. */
  ghost predicate BeginsPrune(env: Env, s: State, ls: seq<Label>, cut: PruneStart, t: Time) {
    && ls == cut.before + [SchedOk(cut.pick)] + cut.rest
    && Run(env, s, cut.before).Some?
    && Run(env, s, cut.before).value.sched.AfterRun? && Run(env, s, cut.before).value.clock == t
  }

  lemma BeginsPruneLater(env: Env, s: State, ls: seq<Label>, cut: PruneStart, t: Time)
    requires ls != [] && Next(env, s, ls[0]).Some? && BeginsPrune(env, Next(env, s, ls[0]).value, ls[1..], cut, t)
    ensures BeginsPrune(env, s, ls, cut.(before := [ls[0]] + cut.before), t)
  {
    RunCons(env, s, ls[0], cut.before);
    assert ls == [ls[0]] + ls[1..];
  }

  /** What the prune of a cycle that began with `before` leaves of the history, having begun at time `t`. */
  ghost predicate PrunedAt(env: Env, before: int, h: History, t: Time) {
    && !h.partial && h.ever != []
    && h.cutoff == if env.retentionDays > 0 then Max(before, CutoffAt(env, t)) else before
  }

  lemma {:induction false} CycleEnds(env: Env, s: State, ls: seq<Label>) returns (t: Time, cut: PruneStart)
    requires NamesSeconds(env.dirName) && Reachable(env, s) && RestOfCycle(env, s, ls)
    requires InRun(s.sched)
    ensures Run(env, s, ls).Some? && BeginsPrune(env, s, ls, cut, t)
    ensures var s' := Run(env, s, ls).value;
            s'.sched.Top? && s.clock <= t <= s'.clock && PrunedAt(env, s.hist.cutoff, s'.hist, t)
    decreases ls
  {
    var l := ls[0];
    var s' := Next(env, s, l).value;
    NextReachable(env, s, l);
    if l.SchedOk? && s.sched.AfterRun? {
      t, cut := s.clock, PruneStart([], l.pick, ls[1..]);
      assert ls == [] + [l] + ls[1..] && Run(env, s, []) == Some(s);
      RanMeansEver(env, s);
      PruneFromStart(env, s, ls);
    } else {
      if l.SchedOk? { RunCutoffStep(env, s, l.pick); SchedFrame(env, s, l.pick); } else { OtherStep(env, s, l); }
      t, cut := CycleEnds(env, s', ls[1..]);
      BeginsPruneLater(env, s, ls, cut, t);
      cut := cut.(before := [l] + cut.before);
    }
  }

  lemma PruneFromStart(env: Env, s: State, ls: seq<Label>)
    requires NamesSeconds(env.dirName) && Reachable(env, s) && RestOfCycle(env, s, ls)
    requires s.sched.AfterRun? && s.hist.ever != [] && ls[0].SchedOk?
    ensures Run(env, s, ls).Some?
    ensures var s' := Run(env, s, ls).value;
            s'.sched.Top? && s.clock <= s'.clock && PrunedAt(env, s.hist.cutoff, s'.hist, s.clock)
  {
    var l := ls[0];
    var s' := Next(env, s, l).value;
    NextReachable(env, s, l);
    PruneCutoffStep(env, s, l.pick);
    SchedFrame(env, s, l.pick);
    if env.retentionDays <= 0 {
      WholeAtRemoving(env, s');
      EndedAtTop(env, s', ls);
    } else {
      PruneEnds(env, s', ls[1..], s.hist.cutoff, s.clock);
    }
  }

  lemma EndedAtTop(env: Env, s': State, ls: seq<Label>)
    requires s'.sched.Top? && ls != [] && (|ls| > 1 ==> RestOfCycle(env, s', ls[1..]))
    ensures ls[1..] == []
  {
    assert !RestOfCycle(env, s', ls[1..]);
  }

  lemma RanMeansEver(env: Env, s: State)
    requires NamesSeconds(env.dirName) && Reachable(env, s) && s.sched.AfterRun? && s.sched.ran.Ok?
    ensures s.hist.ever != []
  {
    ReachableInv(env, s);
    NoHashMeansNoCreated(s.rows);
    assert s.hist.ever == [] ==> NoCreated(s.rows);
  }

  lemma NoCreatedExactlyWhen(env: Env, s: State)
    requires NamesSeconds(env.dirName) && Reachable(env, s) && !s.hist.partial && s.hist.ever != []
    ensures NoCreated(s.rows) <==> s.hist.ever[|s.hist.ever| - 1].createdAt < s.hist.cutoff
  {
    ReachableAll(env, s);
    var newest := s.hist.ever[|s.hist.ever| - 1];
    assert newest in s.hist.ever;
    if newest.createdAt < s.hist.cutoff {
      forall id | IsCreated(s.rows, id) ensures false {
        assert s.rows[id] in s.hist.ever;
        var i :| 0 <= i < |s.hist.ever| && s.hist.ever[i] == s.rows[id];
        NewestLast(s.hist.ever, i);
      }
    } else {
      assert IsCreated(s.rows, newest.id);
    }
  }

  lemma NewestLast(ever: seq<BackupEntry>, i: nat)
    requires Hourly(ever) && i < |ever|
    ensures ever[i].createdAt <= ever[|ever| - 1].createdAt
  {
    if i < |ever| - 1 {
      HourlyAt(ever, i, |ever| - 1);
      HourBeforeSecond(ever[i].createdAt, ever[|ever| - 1].createdAt);
    }
  }

  /** A successful cycle, however long it takes, leaves no backup at all exactly when retention is on and
      the newest backup ever made lies before the cutoff of the time `t` at which its prune began: the
      clock of the state after `cut.before`, from which `cut.pick` starts the prune. */
  lemma CycleLeavesNothingExactlyWhen(env: Env, s: State, ls: seq<Label>) returns (t: Time, cut: PruneStart)
    requires NamesSeconds(env.dirName) && Reachable(env, s) && s.sched.Sleeping? && RestOfCycle(env, s, ls)
    ensures Run(env, s, ls).Some? && BeginsPrune(env, s, ls, cut, t)
    ensures var s' := Run(env, s, ls).value;
            && s'.sched.Top? && s.clock <= t <= s'.clock && PrunedAt(env, s.hist.cutoff, s'.hist, t)
            && (NoCreated(s'.rows) <==>
                  env.retentionDays > 0 && s'.hist.ever[|s'.hist.ever| - 1].createdAt < CutoffAt(env, t))
  {
    t, cut := CycleCutoff(env, s, ls);
    StillReachable(env, s, ls);
    EmptyAtEnd(env, Run(env, s, ls).value, s.hist.cutoff, t);
  }

  lemma CycleCutoff(env: Env, s: State, ls: seq<Label>) returns (t: Time, cut: PruneStart)
    requires NamesSeconds(env.dirName) && Reachable(env, s) && s.sched.Sleeping? && RestOfCycle(env, s, ls)
    ensures Run(env, s, ls).Some? && BeginsPrune(env, s, ls, cut, t) && s.hist.cutoff <= Max(0, CutoffAt(env, t))
    ensures var s' := Run(env, s, ls).value;
            s'.sched.Top? && s.clock <= t <= s'.clock && PrunedAt(env, s.hist.cutoff, s'.hist, t)
  {
    CutoffIsPast(env, s);
    t, cut := CycleEnds(env, s, ls);
    CutoffsGrow(env, s.clock, t);
  }

  /** A successful cycle with retention on keeps exactly the backups that were recent when its prune began. */
  lemma CycleKeepsExactlyTheRecent(env: Env, s: State, ls: seq<Label>, e: BackupEntry)
    returns (t: Time, cut: PruneStart)
    requires NamesSeconds(env.dirName) && Reachable(env, s) && s.sched.Sleeping? && RestOfCycle(env, s, ls)
    requires env.retentionDays > 0
    ensures Run(env, s, ls).Some? && BeginsPrune(env, s, ls, cut, t)
    ensures var s' := Run(env, s, ls).value;
            e in s'.hist.ever ==> (IsCreated(s'.rows, e.id) <==> Recent(env, t, e.createdAt))
  {
    t, cut := CycleCutoff(env, s, ls);
    StillReachable(env, s, ls);
    KeptAtEnd(env, Run(env, s, ls).value, s.hist.cutoff, t, e);
  }

  lemma KeptAtEnd(env: Env, s: State, before: int, t: Time, e: BackupEntry)
    requires NamesSeconds(env.dirName) && Reachable(env, s) && PrunedAt(env, before, s.hist, t)
    requires before <= Max(0, CutoffAt(env, t)) && env.retentionDays > 0
    ensures e in s.hist.ever ==> (IsCreated(s.rows, e.id) <==> Recent(env, t, e.createdAt))
  {
    CutoffMeans(env, t, e.createdAt);
    if e in s.hist.ever {
      EverIsKnown(env, s, e);
      RetentionIsExact(env, s, e.id);
    }
  }

  lemma EverIsKnown(env: Env, s: State, e: BackupEntry)
    requires NamesSeconds(env.dirName) && Reachable(env, s) && e in s.hist.ever
    ensures forall f :: f in s.hist.ever && f.id == e.id ==> f == e
  {
    ReachableInv(env, s);
  }

  lemma CutoffIsPast(env: Env, s: State)
    requires NamesSeconds(env.dirName) && Reachable(env, s)
    ensures s.hist.cutoff <= Max(0, CutoffAt(env, s.clock)) && (env.retentionDays <= 0 ==> s.hist.cutoff <= 0)
  {
    ReachableAll(env, s);
  }

  lemma EmptyAtEnd(env: Env, s: State, before: int, t: Time)
    requires NamesSeconds(env.dirName) && Reachable(env, s) && PrunedAt(env, before, s.hist, t)
    requires before <= Max(0, CutoffAt(env, t))
    ensures NoCreated(s.rows) <==>
            env.retentionDays > 0 && s.hist.ever[|s.hist.ever| - 1].createdAt < CutoffAt(env, t)
  {
    CutoffIsPast(env, s);
    NoCreatedExactlyWhen(env, s);
  }

  // ----- such a cycle can happen

  lemma RestCons(env: Env, s: State, l: Label, rest: seq<Label>)
    requires !s.sched.Top? && Next(env, s, l).Some? && Faultless(l)
    requires var s' := Next(env, s, l).value; if rest == [] then s'.sched.Top? else RestOfCycle(env, s', rest)
    ensures RestOfCycle(env, s, [l] + rest)
    ensures Run(env, s, [l] + rest) == Run(env, Next(env, s, l).value, rest)
  {
    assert ([l] + rest)[1..] == rest;
  }

  function PrunePhase(p: Sched): nat {
    if p.AfterRun? then 3 else if p.Selecting? then 2 else if p.Deleting? then 1 else 0
  }

  function PruneLeft(p: Sched): int {
    if (p.Deleting? || p.Removing?) && p.k < |p.doomed| then |p.doomed| - p.k else 0
  }

  lemma PruneStep(env: Env, s: State, pick: Pick)
    requires s.sched.AfterRun? || InPrune(s.sched)
    requires s.sched.Selecting? ==> Listing(s.rows, s.sched.cutoff, pick.doomed)
    ensures SchedNext(env, s, pick).Some?
    ensures var s' := SchedNext(env, s, pick).value;
            && s'.hist.known == s.hist.known
            && (s'.sched.Top? ||
                (InPrune(s'.sched)
                 && (PrunePhase(s'.sched) < PrunePhase(s.sched)
                     || (PrunePhase(s'.sched) == PrunePhase(s.sched) && PruneLeft(s'.sched) < PruneLeft(s.sched)))))
  {
  }

  lemma ReachableKeyed(env: Env, s: State)
    requires NamesSeconds(env.dirName) && Reachable(env, s)
    ensures Keyed(s.rows)
  {
    ReachableInv(env, s);
  }

  /** A prune without faults comes to its end. */
  lemma {:induction false} PruneSucceedsWithoutFaults(env: Env, s: State) returns (ls: seq<Label>)
    requires NamesSeconds(env.dirName) && Reachable(env, s) && (s.sched.AfterRun? || InPrune(s.sched))
    ensures RestOfCycle(env, s, ls) && forall l :: l in ls ==> l.SchedOk?
    ensures Run(env, s, ls).Some?
    ensures var s' := Run(env, s, ls).value;
            && s'.clock == s.clock && s'.remote == s.remote
            && s'.hist.known == s.hist.known && s'.hist.ever == s.hist.ever
    decreases PrunePhase(s.sched), PruneLeft(s.sched)
  {
    var doomed := [];
    if s.sched.Selecting? { ReachableKeyed(env, s); doomed := ListingExists(s.rows, s.sched.cutoff); }
    var pick := Pick(Uuid([]), doomed, None, None);
    PruneStep(env, s, pick);
    PruneCutoffStep(env, s, pick);
    SchedFrame(env, s, pick);
    var s1 := SchedNext(env, s, pick).value;
    var rest := [];
    if !s1.sched.Top? {
      NextReachable(env, s, SchedOk(pick));
      rest := PruneSucceedsWithoutFaults(env, s1);
    }
    RestCons(env, s, SchedOk(pick), rest);
    ls := [SchedOk(pick)] + rest;
  }

  ghost predicate Untouched(s0: State, s: State) {
    s.rows == s0.rows && s.hist.ever == s0.hist.ever && s.hist.known == s0.hist.known
  }

  /** The run has put in its row, and a backup exactly when its content differs from the latest one. */
  ghost predicate Stored(env: Env, s0: State, s: State, b: Bytes, id: Uuid) {
    && s.hist.known.Keys == s0.hist.known.Keys + {id}
    && if LastCreatedHash(s0.rows) == Some(env.hash(b)) then s.hist.ever == s0.hist.ever
       else
         var n := |s0.hist.ever|;
         && |s.hist.ever| == n + 1 && s.hist.ever[..n] == s0.hist.ever
         && s.hist.ever[n].createdAt == s0.clock && s.hist.ever[n].contentHash == env.hash(b)
  }

  /** `s` is on the way of a cycle that began in `s0` with the collection `b`, no time having passed. */
  ghost predicate Tracks(env: Env, s0: State, s: State, b: Bytes, id: Uuid) {
    && s.clock == s0.clock && s.remote == s0.remote == Some(b)
    && match s.sched
       case Sleeping(_) => Untouched(s0, s)
       case Synced(bytes) => bytes == b && Untouched(s0, s)
       case Checking(now, bytes) => now == s0.clock && bytes == b && Untouched(s0, s)
       case MakingDir(now, bytes) => TracksNew(env, s0, s, b, now, bytes)
       case WritingPayload(now, bytes) => TracksNew(env, s0, s, b, now, bytes)
       case ReadingStats(now, bytes) => TracksNew(env, s0, s, b, now, bytes)
       case Inserting(entry) =>
         && Untouched(s0, s) && entry.createdAt == s0.clock && entry.contentHash == env.hash(b)
         && (entry.status.Skipped? <==> LastCreatedHash(s0.rows) == Some(env.hash(b)))
       case _ => Stored(env, s0, s, b, id)
  }

  ghost predicate TracksNew(env: Env, s0: State, s: State, b: Bytes, now: Time, bytes: Bytes) {
    now == s0.clock && bytes == b && Untouched(s0, s) && LastCreatedHash(s0.rows) != Some(env.hash(b))
  }

  lemma TrackStep(env: Env, s0: State, s: State, b: Bytes, id: Uuid)
    requires Tracks(env, s0, s, b, id) && CanProceed(env, s, id) && !s.sched.AfterRun?
    ensures var next := SchedNext(env, s, Pick(id, [], None, None));
            next.Some? && Tracks(env, s0, next.value, b, id)
  {
    if BeforeInsert(s.sched) || s.sched.Sleeping? || s.sched.Synced? {
      TrackToInsert(env, s0, s, b, id);
    } else {
      TrackAfterInsert(env, s0, s, b, id);
    }
  }

  lemma TrackToInsert(env: Env, s0: State, s: State, b: Bytes, id: Uuid)
    requires Tracks(env, s0, s, b, id) && CanProceed(env, s, id)
    requires BeforeInsert(s.sched) || s.sched.Sleeping? || s.sched.Synced?
    ensures var next := SchedNext(env, s, Pick(id, [], None, None));
            next.Some? && Tracks(env, s0, next.value, b, id)
  {
  }

  lemma TrackAfterInsert(env: Env, s0: State, s: State, b: Bytes, id: Uuid)
    requires Tracks(env, s0, s, b, id) && CanProceed(env, s, id)
    requires s.sched.WritingMetadata? || s.sched.Publishing?
    ensures var next := SchedNext(env, s, Pick(id, [], None, None));
            next.Some? && Tracks(env, s0, next.value, b, id)
  {
  }

  /** Successful calls alone take a whole cycle to its end, and it stores what it should. */
  lemma {:induction false} CycleSucceedsWithoutFaults(env: Env, s0: State, s: State, b: Bytes, id: Uuid)
    returns (ls: seq<Label>)
    requires NamesSeconds(env.dirName) && Reachable(env, s) && Tracks(env, s0, s, b, id) && CanProceed(env, s, id)
    ensures RestOfCycle(env, s, ls) && forall l :: l in ls ==> l.SchedOk?
    ensures Run(env, s, ls).Some?
    ensures var s' := Run(env, s, ls).value;
            s'.clock == s0.clock && s'.remote == Some(b) && Stored(env, s0, s', b, id)
    decreases StepsLeft(s.sched)
  {
    if s.sched.AfterRun? {
      ls := PruneSucceedsWithoutFaults(env, s);
    } else {
      var l := SchedOk(Pick(id, [], None, None));
      ProceedStep(env, s, id);
      TrackStep(env, s0, s, b, id);
      NextReachable(env, s, l);
      var rest := CycleSucceedsWithoutFaults(env, s0, Next(env, s, l).value, b, id);
      RestCons(env, s, l, rest);
      ls := [l] + rest;
    }
  }

  /** From the top of the loop: sleep until `at`, then a cycle without faults. */
  lemma CycleFromTop(env: Env, s: State, b: Bytes, id: Uuid, at: Time) returns (s1: State, ls: seq<Label>)
    requires NamesSeconds(env.dirName) && Reachable(env, s) && s.sched.Top? && WakeAt(s.clock) <= at < END
    requires s.remote == Some(b) && env.stats(b).Some? && Fresh(s, id)
    ensures Reachable(env, s1) && s1.sched.Sleeping? && s1.clock == at && s1.remote == Some(b) && Untouched(s, s1)
    ensures RestOfCycle(env, s1, ls) && Run(env, s1, ls).Some?
    ensures var s' := Run(env, s1, ls).value;
            s'.clock == at && s'.remote == Some(b) && Stored(env, s1, s', b, id)
  {
    SleepReachesNextHour(s.clock);
    var asleep := s.(sched := Sleeping(WakeAt(s.clock)));
    s1 := asleep.(clock := at);
    NextReachable(env, s, SchedOk(Pick(id, [], None, None)));
    NextReachable(env, asleep, Tick(at));
    ls := CycleSucceedsWithoutFaults(env, s1, s1, b, id);
  }

  /** From the top of the loop with the collection already backed up, a cycle that is late by more than
      retention succeeds and leaves nothing. */
  lemma LateCycleLeavesNothing(env: Env, s: State, b: Bytes, id: Uuid) returns (s1: State, ls: seq<Label>, end: State)
    requires NamesSeconds(env.dirName) && Reachable(env, s) && s.sched.Top? && s.remote == Some(b)
    requires env.stats(b).Some? && Fresh(s, id) && LastCreatedHash(s.rows) == Some(env.hash(b))
    requires 0 < env.retentionDays && s.clock + env.retentionDays * DAY + HOUR < END
    ensures Reachable(env, s1) && s1.sched.Sleeping? && s1.rows == s.rows && s1.remote == Some(b)
    ensures RestOfCycle(env, s1, ls) && Run(env, s1, ls) == Some(end) && NoCreated(end.rows)
  {
    WakesWithinTheHour(s.clock);
    var late := s.clock + env.retentionDays * DAY + HOUR;
    s1, ls := CycleFromTop(env, s, b, id, late);
    var t, cut := CycleLeavesNothingExactlyWhen(env, s1, ls);
    end := Run(env, s1, ls).value;
    EverIsPast(env, s, end.hist.ever);
    assert s.clock < CutoffAt(env, t);
  }

  lemma EverIsPast(env: Env, s: State, ever: seq<BackupEntry>)
    requires NamesSeconds(env.dirName) && Reachable(env, s) && ever == s.hist.ever
    ensures forall i :: 0 <= i < |ever| ==> ever[i].createdAt <= s.clock
  {
    ReachableInv(env, s);
  }

  /** An unchanged collection is enough: from an empty installation, two successful cycles that find the
      same content, further apart than retention, leave nothing, although the second began with a backup
      of exactly that content. */
  lemma UnchangedCollectionCanVanish(env: Env, b: Bytes, id1: Uuid, id2: Uuid)
    returns (s: State, ls: seq<Label>, end: State)
    requires NamesSeconds(env.dirName) && env.stats(b).Some? && id1 != id2
    requires 0 < env.retentionDays && env.retentionDays * DAY < END - DAY
    ensures Reachable(env, s) && s.sched.Sleeping? && s.remote == Some(b)
    ensures LastCreatedHash(s.rows) == Some(env.hash(b))
    ensures RestOfCycle(env, s, ls) && Run(env, s, ls) == Some(end) && NoCreated(end.rows)
  {
    var s1 := FirstBackup(env, b, id1);
    s, ls, end := LateCycleLeavesNothing(env, s1, b, id2);
  }

  /** The first cycle of an installation. */
  lemma FirstBackup(env: Env, b: Bytes, id: Uuid) returns (s: State)
    requires NamesSeconds(env.dirName) && env.stats(b).Some?
    ensures Reachable(env, s) && s.sched.Top? && s.remote == Some(b) && s.clock <= HOUR
    ensures s.hist.known.Keys == {id} && LastCreatedHash(s.rows) == Some(env.hash(b))
  {
    var s0 := Init(0).(remote := Some(b));
    assert Run(env, Init(0), []) == Some(Init(0));
    NextReachable(env, Init(0), Elsewhere(Some(b)));
    WakesWithinTheHour(0);
    var s1, ls := CycleFromTop(env, s0, b, id, WakeAt(0));
    s := AfterFirst(env, s1, ls, b, id);
  }

  lemma WakesWithinTheHour(now: Time)
    ensures now < WakeAt(now) <= now + HOUR
  {
    SleepReachesNextHour(now);
  }

  lemma AfterFirst(env: Env, s: State, ls: seq<Label>, b: Bytes, id: Uuid) returns (s': State)
    requires NamesSeconds(env.dirName) && Reachable(env, s) && s.sched.Sleeping? && s.hist.ever == []
    requires RestOfCycle(env, s, ls) && Run(env, s, ls).Some? && Stored(env, s, Run(env, s, ls).value, b, id)
    requires Run(env, s, ls).value.clock == s.clock
    ensures s' == Run(env, s, ls).value && Reachable(env, s') && s'.sched.Top?
    ensures |s'.hist.ever| == 1 && s'.hist.ever[0].createdAt == s.clock
    ensures LastCreatedHash(s'.rows) == Some(env.hash(b))
  {
    s' := Run(env, s, ls).value;
    var t, cut := CycleLeavesNothingExactlyWhen(env, s, ls);
    StillReachable(env, s, ls);
    ReachableInv(env, s);
    NoHashMeansNoCreated(s.rows);
    assert NoCreated(s.rows);
    ReachableInv(env, s');
    NewestIsLast(env, s');
  }
}
