/** Two consequences over stretches of a run: what a rollback that uploads leads to,
    and when the two pointer writers can spoil the published pointer. */
module DaemonRollback {
  import opened ByteText
  import opened Calendar
  import opened Backup
  import opened Table
  import opened PointerFile
  import opened Daemon
  import opened DaemonInvariant
  import opened DaemonHistory
  import opened DaemonTheorems
  import opened DaemonCycle

  // ----- a collection that nobody changes

  /** The run keeps AnkiWeb at `b` throughout. */
  ghost predicate RemoteStays(env: Env, s: State, ls: seq<Label>, b: Bytes)
    decreases ls
  {
    && s.remote == Some(b)
    && (ls == [] || (Next(env, s, ls[0]).Some? && RemoteStays(env, Next(env, s, ls[0]).value, ls[1..], b)))
  }

  /** What the scheduler holds and would store if it could. */
  function Carried(env: Env, sched: Sched): Option<string> {
    match sched
    case Synced(bytes) => Some(env.hash(bytes))
    case Checking(_, bytes) => Some(env.hash(bytes))
    case MakingDir(_, bytes) => Some(env.hash(bytes))
    case WritingPayload(_, bytes) => Some(env.hash(bytes))
    case ReadingStats(_, bytes) => Some(env.hash(bytes))
    case Inserting(entry) => if entry.status.Created? then Some(entry.contentHash) else None
    case _ => None
  }

  /** Nothing of another hash than `h` is on its way into the table: what the scheduler holds has that
      hash, or repeats the latest backup, or cannot be read. */
  ghost predicate Settled(env: Env, sched: Sched, rows: Rows, h: string) {
    Carried(env, sched).Some? && Carried(env, sched) != Some(h) ==>
      match sched
      case Synced(bytes) => LastCreatedHash(rows) == Some(env.hash(bytes)) || env.stats(bytes).None?
      case Checking(_, bytes) => LastCreatedHash(rows) == Some(env.hash(bytes)) || env.stats(bytes).None?
      case MakingDir(_, bytes) => env.stats(bytes).None?
      case WritingPayload(_, bytes) => env.stats(bytes).None?
      case ReadingStats(_, bytes) => env.stats(bytes).None?
      case _ => false
  }

  /** No backup, or one with hash `h`, is added. */
  ghost predicate AddsOnly(ever: seq<BackupEntry>, ever': seq<BackupEntry>, h: string) {
    ever' == ever || (|ever'| == |ever| + 1 && ever'[..|ever|] == ever && ever'[|ever|].contentHash == h)
  }

  lemma SettledSchedNext(env: Env, s: State, pick: Pick, b: Bytes)
    requires Inv(env, s) && SchedNext(env, s, pick).Some? && s.remote == Some(b)
    requires Settled(env, s.sched, s.rows, env.hash(b))
    ensures var s' := SchedNext(env, s, pick).value;
            Settled(env, s'.sched, s'.rows, env.hash(b)) && AddsOnly(s.hist.ever, s'.hist.ever, env.hash(b))
  {
    if BeforeInsert(s.sched) || s.sched.Synced? || s.sched.Sleeping? {
      SettledInRun(env, s, pick, b);
    } else {
      CarriesNothing(env, s, pick);
    }
  }

  lemma SettledInRun(env: Env, s: State, pick: Pick, b: Bytes)
    requires SchedInv(env, s.sched, s.rows, s.dirs, s.clock, s.hist)
    requires SchedNext(env, s, pick).Some? && s.remote == Some(b)
    requires Settled(env, s.sched, s.rows, env.hash(b))
    requires BeforeInsert(s.sched) || s.sched.Synced? || s.sched.Sleeping?
    ensures var s' := SchedNext(env, s, pick).value;
            Settled(env, s'.sched, s'.rows, env.hash(b)) && AddsOnly(s.hist.ever, s'.hist.ever, env.hash(b))
  {
  }

  lemma CarriesNothing(env: Env, s: State, pick: Pick)
    requires SchedNext(env, s, pick).Some? && !BeforeInsert(s.sched) && !s.sched.Synced? && !s.sched.Sleeping?
    ensures var s' := SchedNext(env, s, pick).value; Carried(env, s'.sched).None? && s'.hist.ever == s.hist.ever
  {
    if InPrune(s.sched) { PruneCarriesNothing(env, s, pick); }
  }

  lemma PruneCarriesNothing(env: Env, s: State, pick: Pick)
    requires SchedNext(env, s, pick).Some? && InPrune(s.sched)
    ensures var s' := SchedNext(env, s, pick).value; Carried(env, s'.sched).None? && s'.hist.ever == s.hist.ever
  {
  }

  lemma SettledSchedFails(env: Env, s: State, r: Residue)
    requires SchedFails(env, s, r).Some?
    ensures var s' := SchedFails(env, s, r).value;
            && Carried(env, s'.sched).None?
            && (s'.hist.ever == s.hist.ever ||
                (Carried(env, s.sched).Some? && s.sched.Inserting?
                 && AddsOnly(s.hist.ever, s'.hist.ever, Carried(env, s.sched).value)))
  {
  }

  lemma SettledNext(env: Env, s: State, l: Label, b: Bytes)
    requires Inv(env, s) && Next(env, s, l).Some? && s.remote == Some(b)
    requires Settled(env, s.sched, s.rows, env.hash(b))
    ensures var s' := Next(env, s, l).value;
            Settled(env, s'.sched, s'.rows, env.hash(b)) && AddsOnly(s.hist.ever, s'.hist.ever, env.hash(b))
  {
    match l
    case SchedOk(pick) => SettledSchedNext(env, s, pick, b);
    case SchedFault(r) => SettledSchedFails(env, s, r);
    case RollOk => RollFrame(env, s);
    case RollFault(applied, length) => RollFailFrame(s, applied, length);
    case _ =>
  }

  /** Content in flight is stored once, or dropped. */
  lemma CarriedSchedNext(env: Env, s: State, pick: Pick, h: string)
    requires SchedNext(env, s, pick).Some? && Carried(env, s.sched).Some?
    ensures var s', g := SchedNext(env, s, pick).value, Carried(env, s.sched).value;
            if s'.hist.ever == s.hist.ever then Carried(env, s'.sched) == Some(g) || Settled(env, s'.sched, s'.rows, h)
            else AddsOnly(s.hist.ever, s'.hist.ever, g) && Settled(env, s'.sched, s'.rows, h)
  {
  }

  lemma CarriedNext(env: Env, s: State, l: Label, h: string)
    requires Next(env, s, l).Some? && Carried(env, s.sched).Some?
    ensures var s', g := Next(env, s, l).value, Carried(env, s.sched).value;
            if s'.hist.ever == s.hist.ever then Carried(env, s'.sched) == Some(g) || Settled(env, s'.sched, s'.rows, h)
            else AddsOnly(s.hist.ever, s'.hist.ever, g) && Settled(env, s'.sched, s'.rows, h)
  {
    match l
    case SchedOk(pick) => CarriedSchedNext(env, s, pick, h);
    case SchedFault(r) => SettledSchedFails(env, s, r);
    case RollOk => RollFrame(env, s);
    case RollFault(applied, length) => RollFailFrame(s, applied, length);
    case _ =>
  }

  /** From backup number `n` on everything is of hash `h`, save number `n` itself, which may be what was
      in flight, of hash `g`. */
  ghost predicate Converging(env: Env, s: State, h: string, n: nat, g: Option<string>) {
    ConvergingOf(s.hist.ever, Settled(env, s.sched, s.rows, h), Carried(env, s.sched), h, n, g)
  }

  ghost predicate ConvergingOf(ever: seq<BackupEntry>, settled: bool, carried: Option<string>, h: string, n: nat,
                               g: Option<string>)
  {
    && n <= |ever|
    && (forall i :: n < i < |ever| ==> ever[i].contentHash == h)
    && if |ever| == n then settled || (g.Some? && carried == g)
       else settled && (ever[n].contentHash == h || Some(ever[n].contentHash) == g)
  }

  lemma SettledConverges(ever: seq<BackupEntry>, ever': seq<BackupEntry>, carried: Option<string>,
                         carried': Option<string>, h: string, n: nat, g: Option<string>)
    requires ConvergingOf(ever, true, carried, h, n, g) && AddsOnly(ever, ever', h)
    ensures ConvergingOf(ever', true, carried', h, n, g)
  {
  }

  lemma CarriedConverges(ever: seq<BackupEntry>, ever': seq<BackupEntry>, settled: bool, carried: Option<string>,
                         carried': Option<string>, h: string, n: nat, g: Option<string>)
    requires ConvergingOf(ever, false, carried, h, n, g)
    requires if ever' == ever then settled || carried' == carried
             else settled && carried.Some? && AddsOnly(ever, ever', carried.value)
    ensures ConvergingOf(ever', settled, carried', h, n, g)
  {
  }

  lemma ConvergingNext(env: Env, s: State, l: Label, b: Bytes, n: nat, g: Option<string>)
    requires Inv(env, s) && Next(env, s, l).Some? && s.remote == Some(b)
    requires Converging(env, s, env.hash(b), n, g)
    ensures Converging(env, Next(env, s, l).value, env.hash(b), n, g)
  {
    var s', h := Next(env, s, l).value, env.hash(b);
    var carried, carried' := Carried(env, s.sched), Carried(env, s'.sched);
    if Settled(env, s.sched, s.rows, h) {
      SettledNext(env, s, l, b);
      SettledConverges(s.hist.ever, s'.hist.ever, carried, carried', h, n, g);
    } else {
      CarriedNext(env, s, l, h);
      CarriedConverges(s.hist.ever, s'.hist.ever, Settled(env, s'.sched, s'.rows, h), carried, carried', h, n, g);
    }
  }

  lemma {:induction false} ConvergingRun(env: Env, s: State, ls: seq<Label>, b: Bytes, n: nat, g: Option<string>)
    requires NamesSeconds(env.dirName) && Inv(env, s) && RemoteStays(env, s, ls, b)
    requires Converging(env, s, env.hash(b), n, g)
    ensures Run(env, s, ls).Some? && Converging(env, Run(env, s, ls).value, env.hash(b), n, g)
    decreases ls
  {
    if ls != [] {
      ConvergingNext(env, s, ls[0], b, n, g);
      NextKeepsInv(env, s, ls[0]);
      ConvergingRun(env, Next(env, s, ls[0]).value, ls[1..], b, n, g);
    }
  }

  lemma {:induction false} LogGrows(env: Env, s: State, ls: seq<Label>)
    requires Run(env, s, ls).Some?
    ensures s.hist.log <= Run(env, s, ls).value.hist.log
    decreases ls
  {
    if ls != [] {
      StepSummary(env, s, ls[0]);
      LogGrows(env, Next(env, s, ls[0]).value, ls[1..]);
    }
  }

  /** All backups from number `n` on have hash `h`. */
  ghost predicate AllFrom(ever: seq<BackupEntry>, n: nat, h: string) {
    n <= |ever| && forall i :: n <= i < |ever| ==> ever[i].contentHash == h
  }

  /** The backup at number `n` may be of other content, the later ones are of hash `h`. */
  ghost predicate AllAfter(ever: seq<BackupEntry>, n: nat, h: string, inFlight: Option<string>) {
    && n <= |ever| && (forall i :: n < i < |ever| ==> ever[i].contentHash == h)
    && (n < |ever| ==> ever[n].contentHash == h || Some(ever[n].contentHash) == inFlight)
  }

  /** After a backup of hash `h` within retention no further one is made: every later row is a skip. */
  ghost predicate ThenSkips(log: seq<BackupEntry>, m: nat, cutoff: int, h: string) {
    forall k, l :: m <= k < l < |log| && log[k].status.Created? && log[k].contentHash == h && cutoff <= log[k].createdAt
                   ==> log[l].status.Skipped?
  }

  lemma SkipsFollow(log: seq<BackupEntry>, ever: seq<BackupEntry>, m: nat, cutoff: int, h: string)
    requires m <= |log| && ever == CreatedOf(log) && NeighboursDiffer(ever, cutoff)
    requires forall i :: |CreatedOf(log[..m])| < i < |ever| ==> ever[i].contentHash == h
    ensures ThenSkips(log, m, cutoff, h)
  {
    forall k, l | m <= k < l < |log| && log[k].status.Created? && log[k].contentHash == h && cutoff <= log[k].createdAt
      ensures log[l].status.Skipped?
    {
      CreatedAt(log, k);
      CreatedOfPrefix(log[..k], m);
      assert log[..k][..m] == log[..m];
      CreatedAt(log[..l], k);
      assert log[..l][..k] == log[..k];
      if log[l].status.Created? { CreatedAt(log, l); }
      var p := |CreatedOf(log[..k])|;
      assert p + 1 < |ever| ==> ever[p + 1].contentHash == h;
    }
  }

  /** For as long as AnkiWeb holds `b`, through any faults and restarts, and whatever the scheduler was doing
      at the start: every new backup is of `b`, except that the first may be the content then in flight;
      without such content none is.  After a backup of `b` every row is a skip until retention passes it. */
  lemma UnchangedCollectionIsBackedUpOnce(env: Env, s: State, ls: seq<Label>, b: Bytes)
    requires NamesSeconds(env.dirName) && All(env, s) && RemoteStays(env, s, ls, b)
    ensures Run(env, s, ls).Some?
    ensures
      var n, s' := |s.hist.ever|, Run(env, s, ls).value;
      && AllAfter(s'.hist.ever, n, env.hash(b), Carried(env, s.sched))
      && (Settled(env, s.sched, s.rows, env.hash(b)) ==> AllFrom(s'.hist.ever, n, env.hash(b)))
      && s.hist.log <= s'.hist.log && ThenSkips(s'.hist.log, |s.hist.log|, s'.hist.cutoff, env.hash(b))
  {
    BackupsConverge(env, s, ls, b);
    RowsConverge(env, s, ls, env.hash(b));
  }

  lemma BackupsConverge(env: Env, s: State, ls: seq<Label>, b: Bytes)
    requires NamesSeconds(env.dirName) && Inv(env, s) && RemoteStays(env, s, ls, b)
    ensures Run(env, s, ls).Some?
    ensures
      var n, s' := |s.hist.ever|, Run(env, s, ls).value;
      && AllAfter(s'.hist.ever, n, env.hash(b), Carried(env, s.sched))
      && (Settled(env, s.sched, s.rows, env.hash(b)) ==> AllFrom(s'.hist.ever, n, env.hash(b)))
  {
    var n := |s.hist.ever|;
    ConvergingRun(env, s, ls, b, n, Carried(env, s.sched));
    if Settled(env, s.sched, s.rows, env.hash(b)) { ConvergingRun(env, s, ls, b, n, None); }
  }

  lemma LogAtEnd(env: Env, s: State, ls: seq<Label>)
    requires NamesSeconds(env.dirName) && All(env, s) && Run(env, s, ls).Some?
    ensures var h := Run(env, s, ls).value.hist; h.ever == CreatedOf(h.log) && NeighboursDiffer(h.ever, h.cutoff)
    ensures s.hist.ever == CreatedOf(s.hist.log)
  {
    RunAll(env, s, ls);
  }

  lemma RowsConverge(env: Env, s: State, ls: seq<Label>, h: string)
    requires NamesSeconds(env.dirName) && All(env, s) && Run(env, s, ls).Some?
    requires AllAfter(Run(env, s, ls).value.hist.ever, |s.hist.ever|, h, Carried(env, s.sched))
    ensures var s' := Run(env, s, ls).value;
            s.hist.log <= s'.hist.log && ThenSkips(s'.hist.log, |s.hist.log|, s'.hist.cutoff, h)
  {
    var s' := Run(env, s, ls).value;
    LogGrows(env, s, ls);
    LogAtEnd(env, s, ls);
    assert s'.hist.log[..|s.hist.log|] == s.hist.log;
    SkipsFollow(s'.hist.log, s'.hist.ever, |s.hist.log|, s'.hist.cutoff, h);
  }

  /** After an uploading rollback to `e`, with nobody else writing to AnkiWeb: every later backup has the
      content of `e`, except that the next one may be what a cycle had in hand during the upload; and
      after a backup of that content every row is a skip until retention passes it. */
  lemma RollbackConverges(env: Env, s: State, ls: seq<Label>)
    requires NamesSeconds(env.dirName) && Reachable(env, s) && s.roll.Uploading?
    requires RemoteStays(env, Next(env, s, RollOk).value, ls, s.roll.bytes)
    ensures Run(env, Next(env, s, RollOk).value, ls).Some?
    ensures
      var n, h, s' := |s.hist.ever|, s.roll.e.contentHash, Run(env, Next(env, s, RollOk).value, ls).value;
      && AllAfter(s'.hist.ever, n, h, Carried(env, s.sched))
      && (Settled(env, s.sched, s.rows, h) ==> AllFrom(s'.hist.ever, n, h))
      && s.hist.log <= s'.hist.log && ThenSkips(s'.hist.log, |s.hist.log|, s'.hist.cutoff, h)
  {
    UploadIsTheBackup(env, s);
    AfterUpload(env, s);
    ReachableAll(env, Next(env, s, RollOk).value);
    UnchangedCollectionIsBackedUpOnce(env, Next(env, s, RollOk).value, ls, s.roll.bytes);
  }

  lemma AfterUpload(env: Env, s: State)
    requires Reachable(env, s) && s.roll.Uploading?
    ensures Next(env, s, RollOk).Some?
    ensures var s1 := Next(env, s, RollOk).value;
            && Reachable(env, s1) && s1.remote == Some(s.roll.bytes)
            && s1.sched == s.sched && s1.rows == s.rows && s1.hist == s.hist && s1.dirs == s.dirs
  {
    NextReachable(env, s, RollOk);
    RollFrame(env, s);
  }

  /** Content of another hash that is in flight and readable does get stored, without any fault. */
  lemma {:induction false} InFlightIsStored(env: Env, s: State, b: Bytes, h: string, id: Uuid) returns (ls: seq<Label>)
    requires NamesSeconds(env.dirName) && Reachable(env, s) && s.remote == Some(b) && Fresh(s, id)
    requires !Settled(env, s.sched, s.rows, h)
    ensures RemoteStays(env, s, ls, b) && Run(env, s, ls).Some?
    ensures !AllFrom(Run(env, s, ls).value.hist.ever, |s.hist.ever|, h)
    decreases StepsLeft(s.sched)
  {
    var pick := Pick(id, [], None, None);
    ReachableSched(env, s);
    StoringStep(env, s, h, pick);
    SchedFrame(env, s, pick);
    var s1 := SchedNext(env, s, pick).value;
    var rest := [];
    if s1.hist.ever == s.hist.ever {
      NextReachable(env, s, SchedOk(pick));
      rest := InFlightIsStored(env, s1, b, h, id);
    }
    ls := [SchedOk(pick)] + rest;
    assert ls[1..] == rest;
  }

  lemma ReachableSched(env: Env, s: State)
    requires NamesSeconds(env.dirName) && Reachable(env, s)
    ensures SchedInv(env, s.sched, s.rows, s.dirs, s.clock, s.hist)
  {
    ReachableInv(env, s);
  }

  lemma StoringStep(env: Env, s: State, h: string, pick: Pick)
    requires SchedInv(env, s.sched, s.rows, s.dirs, s.clock, s.hist) && Fresh(s, pick.id)
    requires !Settled(env, s.sched, s.rows, h)
    ensures SchedNext(env, s, pick).Some?
    ensures var s' := SchedNext(env, s, pick).value;
            if s'.hist.ever == s.hist.ever
            then !Settled(env, s'.sched, s'.rows, h) && Fresh(s', pick.id) && StepsLeft(s'.sched) < StepsLeft(s.sched)
            else !AllFrom(s'.hist.ever, |s.hist.ever|, h)
  {
    if s.sched.Inserting? { assert SchedNext(env, s, pick).value.hist.ever[|s.hist.ever|].contentHash != h; }
  }

  /** Exactly when every later backup is sure to have the content of `e`: at the end of the upload no
      readable content of another hash, new against the latest backup, is on its way into the table. */
  lemma RollbackConvergesExactlyWhen(env: Env, s: State, id: Uuid)
    requires NamesSeconds(env.dirName) && Reachable(env, s) && s.roll.Uploading? && Fresh(s, id)
    ensures Next(env, s, RollOk).Some?
    ensures Settled(env, s.sched, s.rows, s.roll.e.contentHash) <==>
            forall ls :: RemoteStays(env, Next(env, s, RollOk).value, ls, s.roll.bytes) ==>
              BackedUpOnly(env, Next(env, s, RollOk).value, ls, s.roll.e.contentHash)
  {
    var h, b := s.roll.e.contentHash, s.roll.bytes;
    AfterUpload(env, s);
    var s1 := Next(env, s, RollOk).value;
    if Settled(env, s.sched, s.rows, h) {
      forall ls | RemoteStays(env, s1, ls, b) ensures BackedUpOnly(env, s1, ls, h) { RollbackConverges(env, s, ls); }
    } else {
      var ls := InFlightIsStored(env, s1, b, h, id);
      assert !BackedUpOnly(env, s1, ls, h);
    }
  }

  /** The run is possible and every backup it makes has hash `h`. */
  ghost predicate BackedUpOnly(env: Env, s: State, ls: seq<Label>, h: string) {
    Run(env, s, ls).Some? && AllFrom(Run(env, s, ls).value.hist.ever, |s.hist.ever|, h)
  }

  // ----- the two pointer writers

  /** Both threads are between stamping their pointer and renaming it. */
  predicate Overlap(s: State) {
    s.sched.Publishing? && !s.sched.stage.Stamp? && s.roll.Pointing? && !s.roll.stage.Stamp?
  }

  /** The two pointer writes in flight in a state, as the contest of two writers. */
  function RaceOf(s: State): Race {
    Race(s.files,
         if s.sched.Publishing? && !s.sched.stage.Stamp? then Writing(s.sched.stage) else Done,
         if s.roll.Pointing? && !s.roll.stage.Stamp? then Writing(s.roll.stage) else Done)
  }

  predicate Apart(s: State, l: Label) { !Overlap(s) }

  /** A lone writer has the temporary file to itself: empty before its write, its pointer after. */
  ghost predicate OwnsTmp(f: Files, w: Writer) {
    && (Filling(w) ==> f.tmp == Some(w.stage.fd) && TmpContent(f) == Cut(0))
    && (Renaming(w) ==> f.tmp.Some? && TmpContent(f) == Written(w.stage.p, TextLength(w.stage.p)))
  }

  ghost predicate WriterInv(s: State) {
    && ValidFiles(s.files) && !Spoiled(s.files)
    && OwnsTmp(s.files, RaceOf(s).a) && OwnsTmp(s.files, RaceOf(s).b)
    && (Overlap(s) ==> Opening(RaceOf(s).a) || Opening(RaceOf(s).b))
  }

  /** A step of one thread, not in an overlap, as seen by the writers. */
  lemma WriterStep(f: Files, stage: Stage, stamped: Pointer)
    requires ValidFiles(f) && !Spoiled(f) && !stage.Stamp? && OwnsTmp(f, Writing(stage))
    requires Step(f, stage, stamped).Some?
    ensures var step := Step(f, stage, stamped).value;
            && ValidFiles(step.files) && !Spoiled(step.files)
            && (step.next.Some? ==> !step.next.value.Stamp? && OwnsTmp(step.files, Writing(step.next.value)))
  {
  }

  lemma CutOffStep(f: Files, stage: Stage, length: nat)
    requires ValidFiles(f) && !Spoiled(f) && stage.Fill? && OwnsTmp(f, Writing(stage))
    ensures var f' := CutOff(f, stage.fd, stage.p, length); ValidFiles(f') && !Spoiled(f')
  {
  }

  lemma WriterSchedNext(env: Env, s: State, pick: Pick)
    requires WriterInv(s) && !Overlap(s) && SchedNext(env, s, pick).Some?
    ensures WriterInv(SchedNext(env, s, pick).value)
  {
    if s.sched.Publishing? {
      if !s.sched.stage.Stamp? { WriterStep(s.files, s.sched.stage, PointerTo(s.sched.e, s.clock)); }
    } else {
      FilesFrame(env, s, pick);
    }
  }

  lemma FilesFrame(env: Env, s: State, pick: Pick)
    requires SchedNext(env, s, pick).Some? && !s.sched.Publishing?
    ensures var s' := SchedNext(env, s, pick).value;
            s'.files == s.files && s'.roll == s.roll && (s'.sched.Publishing? ==> s'.sched.stage.Stamp?)
  {
  }

  lemma WriterSchedFails(env: Env, s: State, r: Residue)
    requires WriterInv(s) && !Overlap(s) && SchedFails(env, s, r).Some?
    ensures WriterInv(SchedFails(env, s, r).value)
  {
    if s.sched.Publishing? && s.sched.stage.Fill? { CutOffStep(s.files, s.sched.stage, r.length); }
    FilesFailFrame(env, s, r);
  }

  lemma FilesFailFrame(env: Env, s: State, r: Residue)
    requires SchedFails(env, s, r).Some?
    ensures var s' := SchedFails(env, s, r).value;
            && s'.roll == s.roll && !s'.sched.Publishing?
            && (s'.files == s.files ||
                (s.sched.Publishing? && s.sched.stage.Fill?
                 && s'.files == CutOff(s.files, s.sched.stage.fd, s.sched.stage.p, r.length)))
  {
  }

  lemma WriterRollNext(env: Env, s: State)
    requires WriterInv(s) && !Overlap(s) && RollNext(env, s).Some?
    ensures WriterInv(RollNext(env, s).value)
  {
    if s.roll.Pointing? && !s.roll.stage.Stamp? {
      WriterStep(s.files, s.roll.stage, PointerTo(s.roll.e, s.clock));
    }
  }

  lemma WriterNext(env: Env, s: State, l: Label)
    requires WriterInv(s) && !Overlap(s) && Next(env, s, l).Some?
    ensures WriterInv(Next(env, s, l).value)
  {
    match l
    case SchedOk(pick) => WriterSchedNext(env, s, pick);
    case SchedFault(r) => WriterSchedFails(env, s, r);
    case RollOk => WriterRollNext(env, s);
    case RollFault(_, length) =>
      if s.roll.Pointing? && s.roll.stage.Fill? { CutOffStep(s.files, s.roll.stage, length); }
    case _ =>
  }

  lemma {:induction false} WriterRun(env: Env, s: State, ls: seq<Label>)
    requires WriterInv(s) && Throughout(env, s, ls, Apart)
    ensures Run(env, s, ls).Some? && WriterInv(Run(env, s, ls).value)
    decreases ls
  {
    if ls != [] {
      WriterNext(env, s, ls[0]);
      WriterRun(env, Next(env, s, ls[0]).value, ls[1..]);
    }
  }

  /** Until two pointer writes overlap, through all faults and restarts, the published pointer is intact;
      and at the moment they do, and only then, the two writes in flight can spoil it. */
  lemma PointerIsIntactWithoutOverlap(env: Env, clock: Time, ls: seq<Label>)
    requires Throughout(env, Init(clock), ls, Apart)
    ensures Run(env, Init(clock), ls).Some?
    ensures var s := Run(env, Init(clock), ls).value;
            !Spoiled(s.files) && ((exists turns :: Spoils(turns, RaceOf(s))) <==> Overlap(s))
  {
    WriterRun(env, Init(clock), ls);
    var s := Run(env, Init(clock), ls).value;
    OverlapCanSpoil(s);
    SpoiledExactlyWhen(RaceOf(s));
  }

  lemma OverlapCanSpoil(s: State)
    requires WriterInv(s)
    ensures Consistent(RaceOf(s)) && (CanSpoil(RaceOf(s)) <==> Overlap(s))
  {
  }

  /** The pointer that step `l` renames into place, if it is such a step. */
  function Renamed(s: State, l: Label): Option<Pointer> {
    if l.SchedOk? && s.sched.Publishing? && s.sched.stage.Rename? then Some(s.sched.stage.p)
    else if l.RollOk? && s.roll.Pointing? && s.roll.stage.Rename? then Some(s.roll.stage.p)
    else None
  }

  /** As long as pointer writes do not overlap, a rename publishes exactly the pointer of the thread that
      renames, and no other step, failure or restart changes what readers see. */
  lemma OnlyOwnPointersArePublished(env: Env, clock: Time, ls: seq<Label>, l: Label)
    requires Throughout(env, Init(clock), ls, Apart)
    ensures Run(env, Init(clock), ls).Some?
    ensures var s := Run(env, Init(clock), ls).value;
            !Overlap(s) && Next(env, s, l).Some? ==>
              Published(Next(env, s, l).value.files) ==
              if Renamed(s, l).Some? then Some(Written(Renamed(s, l).value, TextLength(Renamed(s, l).value)))
              else Published(s.files)
  {
    WriterRun(env, Init(clock), ls);
    var s := Run(env, Init(clock), ls).value;
    if !Overlap(s) && Next(env, s, l).Some? { PublishedNext(env, s, l); }
  }

  lemma PublishedNext(env: Env, s: State, l: Label)
    requires WriterInv(s) && !Overlap(s) && Next(env, s, l).Some?
    ensures Published(Next(env, s, l).value.files) ==
            if Renamed(s, l).Some? then Some(Written(Renamed(s, l).value, TextLength(Renamed(s, l).value)))
            else Published(s.files)
  {
    match l
    case SchedOk(pick) => if !s.sched.Publishing? { FilesFrame(env, s, pick); }
    case SchedFault(r) => FilesFailFrame(env, s, r);
    case _ =>
  }

  /** In every reachable state with an intact pointer, whatever overlaps and faults came before, the
      remaining calls of the writes in flight, if they succeed, can spoil it exactly when `CanSpoil`. */
  lemma PointerSpoiledExactlyWhen(env: Env, s: State)
    requires NamesSeconds(env.dirName) && Reachable(env, s) && !Spoiled(s.files)
    ensures (exists turns :: Spoils(turns, RaceOf(s))) <==> CanSpoil(RaceOf(s))
  {
    FilesAreValid(env, s);
    SpoiledExactlyWhen(RaceOf(s));
  }

  /** Neither thread begins another pointer write. */
  predicate NoNewWrite(s: State, l: Label) {
    && !(l.SchedOk? && s.sched.Publishing? && s.sched.stage.Stamp?)
    && !(l.RollOk? && s.roll.Pointing? && s.roll.stage.Stamp?)
  }

  /** A run spoils the pointer without another pointer write having begun. */
  ghost predicate RunSpoils(env: Env, s: State, ls: seq<Label>) {
    Throughout(env, s, ls, NoNewWrite) && Run(env, s, ls).Some? && Spoiled(Run(env, s, ls).value.files)
  }

  /** In every reachable state with an intact pointer: some continuation, with any faults, restarts and
      steps of anybody, in which no further pointer write begins, spoils it exactly when `CanSpoilAmidFaults`. */
  lemma PointerSpoiledAmidFaultsExactlyWhen(env: Env, s: State)
    requires NamesSeconds(env.dirName) && Reachable(env, s) && !Spoiled(s.files)
    ensures (exists ls :: RunSpoils(env, s, ls)) <==> CanSpoilAmidFaults(RaceOf(s))
  {
    FilesAreValid(env, s);
    if CanSpoilAmidFaults(RaceOf(s)) {
      var ls := SpoilingRunAmidFaults(env, s);
      assert RunSpoils(env, s, ls);
    } else {
      forall ls ensures !RunSpoils(env, s, ls) {
        if Throughout(env, s, ls, NoNewWrite) { RunIsSafe(env, s, ls); }
      }
    }
  }

  ghost predicate Safe(s: State) { Consistent(RaceOf(s)) && !CanSpoilAmidFaults(RaceOf(s)) }

  /** What a label asks of the writers. */
  function LabelMove(l: Label): Option<Move> {
    match l
    case SchedOk(_) => Some(Go(true))
    case SchedFault(r) => Some(Fail(true, r.applied, r.length))
    case RollOk => Some(Go(false))
    case RollFault(applied, length) => Some(Fail(false, applied, length))
    case _ => None
  }

  /** Every step of the daemon is a move of the contest, leaves it alone, or ends both writes. */
  lemma RaceNext(env: Env, s: State, l: Label)
    requires Next(env, s, l).Some? && NoNewWrite(s, l)
    ensures var r, r' := RaceOf(s), RaceOf(Next(env, s, l).value);
            r' == r || r' == Race(r.files, Done, Done) || (LabelMove(l).Some? && r' == MoveTo(r, LabelMove(l).value))
  {
    match l
    case SchedOk(pick) => if s.sched.Publishing? { RaceSched(env, s, pick); } else { FilesFrame(env, s, pick); }
    case SchedFault(r) => FailIsMove(env, s, r);
    case RollOk => RaceRoll(env, s);
    case RollFault(applied, length) => RaceRollFails(s, applied, length);
    case _ =>
  }

  lemma RaceSched(env: Env, s: State, pick: Pick)
    requires SchedNext(env, s, pick).Some? && s.sched.Publishing? && !s.sched.stage.Stamp?
    ensures RaceOf(SchedNext(env, s, pick).value) == Turn(RaceOf(s), true)
  {
  }

  lemma FailIsMove(env: Env, s: State, r: Residue)
    requires SchedFails(env, s, r).Some?
    ensures RaceOf(SchedFails(env, s, r).value) == FailTurn(RaceOf(s), true, r.applied, r.length)
  {
  }

  lemma RaceRoll(env: Env, s: State)
    requires RollNext(env, s).Some? && !(s.roll.Pointing? && s.roll.stage.Stamp?)
    ensures RaceOf(RollNext(env, s).value) == if s.roll.Pointing? then Turn(RaceOf(s), false) else RaceOf(s)
  {
  }

  lemma RaceRollFails(s: State, applied: bool, length: nat)
    requires RollFails(s, applied, length).Some?
    ensures RaceOf(RollFails(s, applied, length).value) == FailTurn(RaceOf(s), false, applied, length)
  {
  }

  lemma NextIsSafe(env: Env, s: State, l: Label)
    requires Safe(s) && Next(env, s, l).Some? && NoNewWrite(s, l)
    ensures Safe(Next(env, s, l).value)
  {
    RaceNext(env, s, l);
    if LabelMove(l).Some? { MoveIsSafe(RaceOf(s), LabelMove(l).value); }
  }

  lemma {:induction false} RunIsSafe(env: Env, s: State, ls: seq<Label>)
    requires Safe(s) && Throughout(env, s, ls, NoNewWrite)
    ensures Run(env, s, ls).Some? && Safe(Run(env, s, ls).value)
    decreases ls
  {
    if ls != [] {
      NextIsSafe(env, s, ls[0]);
      RunIsSafe(env, Next(env, s, ls[0]).value, ls[1..]);
    }
  }

  /** A move of the contest as a step of the daemon. */
  function MoveLabel(m: Move): Label {
    if m.Go? then TurnLabel(m.first)
    else if m.first then SchedFault(Residue(Uuid([]), [], m.applied, BackupDir(None, None), m.length))
    else RollFault(m.applied, m.length)
  }

  lemma {:induction false} SpoilingRunAmidFaults(env: Env, s: State) returns (ls: seq<Label>)
    requires Consistent(RaceOf(s)) && CanSpoilAmidFaults(RaceOf(s))
    ensures RunSpoils(env, s, ls)
    decreases CallsLeft(RaceOf(s).a) + CallsLeft(RaceOf(s).b)
  {
    if CanSpoil(RaceOf(s)) {
      ls := SpoilingRun(env, s);
    } else {
      var m := WorstMove(RaceOf(s));
      WorstMoveIsNearer(RaceOf(s));
      WorstMoveIsStep(env, s, m);
      var s1 := Next(env, s, MoveLabel(m)).value;
      var rest := [];
      if !Spoiled(s1.files) { rest := SpoilingRunAmidFaults(env, s1); }
      RunCons(env, s, MoveLabel(m), rest);
      ls := [MoveLabel(m)] + rest;
      assert ls[1..] == rest;
    }
  }

  lemma WorstMoveIsStep(env: Env, s: State, m: Move)
    requires (m.Fail? ==> m.applied) && Filling(if m.first then RaceOf(s).a else RaceOf(s).b)
    ensures Next(env, s, MoveLabel(m)).Some? && NoNewWrite(s, MoveLabel(m))
    ensures RaceOf(Next(env, s, MoveLabel(m)).value) == MoveTo(RaceOf(s), m)
  {
    if m.Go? { TurnIsStep(env, s, m.first); } else { FailIsStep(env, s, m); }
  }

  lemma FailIsStep(env: Env, s: State, m: Move)
    requires m.Fail? && m.applied && Filling(if m.first then RaceOf(s).a else RaceOf(s).b)
    ensures Next(env, s, MoveLabel(m)).Some? && RaceOf(Next(env, s, MoveLabel(m)).value) == MoveTo(RaceOf(s), m)
  {
  }

  lemma FilesAreValid(env: Env, s: State)
    requires NamesSeconds(env.dirName) && Reachable(env, s)
    ensures ValidFiles(s.files)
  {
    ReachableInv(env, s);
  }

  /** A turn of the contest is a step of the daemon. */
  function TurnLabel(first: bool): Label { if first then SchedOk(Pick(Uuid([]), [], None, None)) else RollOk }

  lemma TurnIsStep(env: Env, s: State, first: bool)
    requires Moves(RaceOf(s), first)
    ensures Next(env, s, TurnLabel(first)).Some?
    ensures RaceOf(Next(env, s, TurnLabel(first)).value) == Turn(RaceOf(s), first)
  {
  }

  /** Whenever the contest can be lost, the daemon can lose it by successful calls alone. */
  lemma {:induction false} SpoilingRun(env: Env, s: State) returns (ls: seq<Label>)
    requires Consistent(RaceOf(s)) && CanSpoil(RaceOf(s))
    ensures RunSpoils(env, s, ls) && forall l :: l in ls ==> l.RollOk? || l.SchedOk?
    decreases CallsLeft(RaceOf(s).a) + CallsLeft(RaceOf(s).b)
  {
    var t := SpoilingTurn(RaceOf(s));
    SpoilingTurnIsNearer(RaceOf(s));
    TurnIsStep(env, s, t);
    var s1 := Next(env, s, TurnLabel(t)).value;
    var rest := [];
    if !Spoiled(s1.files) { rest := SpoilingRun(env, s1); }
    RunCons(env, s, TurnLabel(t), rest);
    ls := [TurnLabel(t)] + rest;
    assert ls[1..] == rest;
  }

  /** Overlap is within reach of every new backup: when the scheduler is about to publish one, a rollback
      request for it arriving now can end in a spoiled published pointer, without any fault. */
  lemma RequestCanSpoilPointer(env: Env, s: State) returns (ls: seq<Label>)
    requires NamesSeconds(env.dirName) && Reachable(env, s) && s.sched.Publishing? && s.sched.stage.Stamp?
    requires s.roll.Idle? && GateOpen(s)
    ensures Run(env, s, ls).Some? && Spoiled(Run(env, s, ls).value.files)
    ensures forall l :: l in ls ==> l.Request? || l.RollOk? || l.SchedOk?
  {
    ls := [];
    if !Spoiled(s.files) {
      var before, s1 := RequestLeadsToOverlap(env, s);
      var rest := SpoilingRun(env, s1);
      RunAppend(env, s, before, rest);
      ls := before + rest;
    }
  }

  lemma RequestLeadsToOverlap(env: Env, s: State) returns (ls: seq<Label>, s': State)
    requires NamesSeconds(env.dirName) && Reachable(env, s) && s.sched.Publishing? && s.sched.stage.Stamp?
    requires s.roll.Idle? && GateOpen(s) && !Spoiled(s.files)
    ensures Run(env, s, ls) == Some(s') && Consistent(RaceOf(s')) && CanSpoil(RaceOf(s'))
    ensures forall l :: l in ls ==> l.Request? || l.RollOk? || l.SchedOk?
  {
    NewestIsCreated(env, s);
    var s1 := s.(sched := Publishing(s.sched.e, Open(PointerTo(s.sched.e, s.clock))));
    var rest;
    rest, s' := RequestIsStamped(env, s1, s.sched.e.id);
    RunCons(env, s, TurnLabel(true), rest);
    ls := [TurnLabel(true)] + rest;
  }

  lemma RequestIsStamped(env: Env, s: State, id: Uuid) returns (ls: seq<Label>, s': State)
    requires s.roll.Idle? && GateOpen(s) && IsCreated(s.rows, id)
    ensures Run(env, s, ls) == Some(s')
    ensures s' == s.(roll := Pointing(s.rows[id], Open(PointerTo(s.rows[id], s.clock))))
    ensures forall l :: l in ls ==> l.Request? || l.RollOk?
  {
    var s1 := s.(roll := Fetching(id));
    var s2 := s.(roll := Pointing(s.rows[id], Stamp));
    s' := s.(roll := Pointing(s.rows[id], Open(PointerTo(s.rows[id], s.clock))));
    assert Run(env, s', []) == Some(s');
    RunCons(env, s2, RollOk, []);
    RunCons(env, s1, RollOk, [RollOk] + []);
    RunCons(env, s, Request(id), [RollOk] + ([RollOk] + []));
    ls := [Request(id)] + ([RollOk] + ([RollOk] + []));
  }

  lemma NewestIsCreated(env: Env, s: State)
    requires NamesSeconds(env.dirName) && Reachable(env, s) && s.sched.Publishing?
    ensures IsCreated(s.rows, s.sched.e.id) && ValidFiles(s.files)
  {
    ReachableInv(env, s);
    assert s.sched.e in s.hist.ever;
  }
}
