/** `state/current-pointer.json` and the temporary file it is renamed from.

    `write_current_pointer` stamps the pointer, opens and truncates the temporary
    file, writes through the descriptor it got, and renames the temporary name onto
    the published one.  The scheduler and the rollback handler both do this, on one
    temporary name, and nothing keeps them apart.  Names and files are therefore kept
    apart: a name refers to a file, a descriptor keeps its file across a rename. */
module PointerFile {
  import opened ByteText
  import opened Calendar
  import opened Rfc3339
  import opened Backup

  /** The content of `metadata.json`: cut off, or complete. */
  datatype File<+T> = Torn | Whole(content: T)

  datatype Pointer = Pointer(backupId: Uuid, timestampDir: string, updatedAt: Time)

  function PointerTo(e: BackupEntry, at: Time): Pointer { Pointer(e.id, e.timestampDir, at) }

  /** The bytes of the pretty-printed JSON: 120 without the directory name and the fraction of the stamp
      (`PointerText.LengthIsTextLength`). */
  function TextLength(p: Pointer): nat { 120 + |p.timestampDir| + FractionLength(Nanos(p.updatedAt)) }

  /** Bytes of which nothing is promised, or bytes that begin with the text of `p`.  With more bytes behind
      it, that is the text of no pointer (`PointerText.LeftoverIsNoPointer`). */
  datatype Content = Cut(length: nat) | Written(p: Pointer, length: nat)

  /** The text of one pointer and nothing behind it. */
  predicate Intact(c: Content) { c.Written? && c.length == TextLength(c.p) }

  /** Writing the text of `p` from the start of a file leaves the bytes behind it. */
  function Over(c: Content, p: Pointer): Content {
    Written(p, if c.length < TextLength(p) then TextLength(p) else c.length)
  }

  /** The two names, and the files by number. */
  datatype Files = Files(tmp: Option<nat>, published: Option<nat>, contents: seq<Content>)

  const NO_FILES := Files(None, None, [])

  predicate ValidFiles(f: Files) {
    && (f.tmp.Some? ==> f.tmp.value < |f.contents|)
    && (f.published.Some? ==> f.published.value < |f.contents|)
    && (f.tmp.Some? ==> f.tmp != f.published)
  }

  /** What a reader of the published name gets. */
  function Published(f: Files): Option<Content> {
    if f.published.Some? && f.published.value < |f.contents| then Some(f.contents[f.published.value]) else None
  }

  predicate Spoiled(f: Files) { Published(f).Some? && !Intact(Published(f).value) }

  function Put(contents: seq<Content>, fd: nat, c: Content): (r: seq<Content>)
    ensures |r| == |contents|
  {
    if fd < |contents| then contents[fd := c] else contents
  }

  /** The file that opening the temporary name gives: the one it refers to, else a new one. */
  function Descriptor(f: Files): nat { if f.tmp.Some? then f.tmp.value else |f.contents| }

  function OpenTmp(f: Files): Files {
    if f.tmp.Some? then f.(contents := Put(f.contents, f.tmp.value, Cut(0)))
    else f.(tmp := Some(|f.contents|), contents := f.contents + [Cut(0)])
  }

  function WriteTo(f: Files, fd: nat, p: Pointer): Files {
    if fd < |f.contents| then f.(contents := Put(f.contents, fd, Over(f.contents[fd], p))) else f
  }

  /** A write of `p` that fails after at most `length` bytes: no byte that was there is gone, and none is
      behind both the old content and the text. */
  function CutOff(f: Files, fd: nat, p: Pointer, length: nat): Files {
    if fd < |f.contents| then
      var written := if length < TextLength(p) then length else TextLength(p);
      var before := f.contents[fd].length;
      f.(contents := Put(f.contents, fd, Cut(if before < written then written else before)))
    else f
  }

  /** The next step of a pointer write. */
  datatype Stage = Stamp | Open(p: Pointer) | Fill(p: Pointer, fd: nat) | Rename(p: Pointer)

  datatype Stepped = Stepped(files: Files, next: Option<Stage>)

  /** One step, `stamped` being the pointer as of now; `None` when the file system refuses it. */
  function Step(f: Files, stage: Stage, stamped: Pointer): Option<Stepped> {
    match stage
    case Stamp => Some(Stepped(f, Some(Open(stamped))))
    case Open(p) => Some(Stepped(OpenTmp(f), Some(Fill(p, Descriptor(f)))))
    case Fill(p, fd) => Some(Stepped(WriteTo(f, fd, p), Some(Rename(p))))
    case Rename(_) => if f.tmp.None? then None else Some(Stepped(f.(tmp := None, published := f.tmp), None))
  }

  /** A write that nobody interferes with: until the rename readers see what they saw, then the new pointer. */
  lemma LoneWrite(f: Files, p: Pointer, length: nat)
    requires ValidFiles(f)
    ensures var fd, empty := Descriptor(f), OpenTmp(f);
            var filled := WriteTo(empty, fd, p);
            && Published(empty) == Published(CutOff(empty, fd, p, length)) == Published(filled) == Published(f)
            && filled.tmp == Some(fd)
            && Published(filled.(tmp := None, published := filled.tmp)) == Some(Written(p, TextLength(p)))
  {
  }

  // ----- two writers

  /** A writer with nothing in flight, or with a stamped pointer and a stage to come. */
  datatype Writer = Done | Writing(stage: Stage)

  datatype Race = Race(files: Files, a: Writer, b: Writer)

  predicate Opening(w: Writer) { w.Writing? && w.stage.Open? }
  predicate Filling(w: Writer) { w.Writing? && w.stage.Fill? }
  predicate Renaming(w: Writer) { w.Writing? && w.stage.Rename? }

  /** Lets one writer take its next step; a refused step ends that write. */
  function Turn(r: Race, first: bool): Race {
    var w := if first then r.a else r.b;
    if w.Done? || w.stage.Stamp? then r
    else
      var step := Step(r.files, w.stage, w.stage.p);
      var w' := if step.None? || step.value.next.None? then Done else Writing(step.value.next.value);
      var files := if step.None? then r.files else step.value.files;
      if first then Race(files, w', r.b) else Race(files, r.a, w')
  }

  /** The writer has a step to take and the file system allows it. */
  predicate Moves(r: Race, first: bool) {
    var w := if first then r.a else r.b;
    w.Writing? && !w.stage.Stamp? && Step(r.files, w.stage, w.stage.p).Some?
  }

  function Play(r: Race, turns: seq<bool>): Race
    decreases turns
  {
    if turns == [] then r else Play(Turn(r, turns[0]), turns[1..])
  }

  predicate Spoils(turns: seq<bool>, r: Race) { Spoiled(Play(r, turns).files) }

  /** Any two writes, whatever files they have open, while the published pointer is intact or absent. */
  predicate Consistent(r: Race) {
    && ValidFiles(r.files) && !Spoiled(r.files)
    && (r.a.Writing? ==> !r.a.stage.Stamp?) && (r.b.Writing? ==> !r.b.stage.Stamp?)
  }

  function TmpContent(f: Files): Content {
    if f.tmp.Some? && f.tmp.value < |f.contents| then f.contents[f.tmp.value] else Cut(0)
  }

  predicate BadTmp(f: Files) { f.tmp.Some? && !Intact(TmpContent(f)) }

  /** The file still has a name; others are gone for readers. */
  predicate Named(f: Files, fd: nat) { fd < |f.contents| && (f.tmp == Some(fd) || f.published == Some(fd)) }

  /** The writer can rename the temporary file as it is: it has written, or will write to another file. */
  predicate CanRename(f: Files, w: Writer) { Renaming(w) || (Filling(w) && f.tmp != Some(w.stage.fd)) }

  /** The named file `w` writes to is longer than what it will write. */
  predicate TooLong(f: Files, w: Writer) {
    Filling(w) && Named(f, w.stage.fd) && TextLength(w.stage.p) < f.contents[w.stage.fd].length
  }

  /** From here some schedule spoils the published pointer:
      both writes are in flight and one has yet to open the file;
      or the temporary file is not intact and one of them can rename it as it is;
      or one will write to a file that is longer than its text;
      or both will write to one file, texts of different lengths. */
  predicate CanSpoil(r: Race) {
    || (r.a.Writing? && r.b.Writing? && (Opening(r.a) || Opening(r.b)))
    || (BadTmp(r.files) && (CanRename(r.files, r.a) || CanRename(r.files, r.b)))
    || TooLong(r.files, r.a) || TooLong(r.files, r.b)
    || (Filling(r.a) && Filling(r.b) && r.a.stage.fd == r.b.stage.fd && Named(r.files, r.a.stage.fd)
        && TextLength(r.a.stage.p) != TextLength(r.b.stage.p))
  }

  function Mirror(r: Race): Race { Race(r.files, r.b, r.a) }

  lemma FirstTurnIsSafe(r: Race)
    requires Consistent(r) && !CanSpoil(r)
    ensures Consistent(Turn(r, true)) && !CanSpoil(Turn(r, true))
  {
  }

  lemma TurnIsSafe(r: Race, first: bool)
    requires Consistent(r) && !CanSpoil(r)
    ensures Consistent(Turn(r, first)) && !CanSpoil(Turn(r, first))
  {
    FirstTurnIsSafe(if first then r else Mirror(r));
    assert !first ==> Turn(r, false) == Mirror(Turn(Mirror(r), true));
  }

  lemma {:induction false} PlayIsSafe(r: Race, turns: seq<bool>)
    requires Consistent(r) && !CanSpoil(r)
    ensures !Spoils(turns, r)
    decreases turns
  {
    if turns != [] {
      TurnIsSafe(r, turns[0]);
      PlayIsSafe(Turn(r, turns[0]), turns[1..]);
    }
  }

  /** Whose turn brings a spoiled pointer nearer. */
  function SpoilingTurn(r: Race): bool {
    if Opening(r.a) && Opening(r.b) then true
    else if Opening(r.a) && r.b.Writing? then Renaming(r.b)
    else if Opening(r.b) && r.a.Writing? then !Renaming(r.a)
    else if BadTmp(r.files) && (CanRename(r.files, r.a) || CanRename(r.files, r.b)) then CanRename(r.files, r.a)
    else if TooLong(r.files, r.a) || TooLong(r.files, r.b) then TooLong(r.files, r.a)
    else Filling(r.a) && Filling(r.b) && TextLength(r.b.stage.p) < TextLength(r.a.stage.p)
  }

  function CallsLeft(w: Writer): nat {
    if Opening(w) then 3 else if Filling(w) then 2 else if Renaming(w) then 1 else 0
  }

  lemma SpoilingTurnIsNearer(r: Race)
    requires Consistent(r) && CanSpoil(r)
    ensures var r' := Turn(r, SpoilingTurn(r));
            && CallsLeft(r'.a) + CallsLeft(r'.b) < CallsLeft(r.a) + CallsLeft(r.b)
            && Moves(r, SpoilingTurn(r))
            && (Spoiled(r'.files) || (Consistent(r') && CanSpoil(r')))
  {
  }

  lemma {:induction false} Spoil(r: Race) returns (turns: seq<bool>)
    requires Consistent(r) && CanSpoil(r)
    ensures Spoils(turns, r)
    decreases CallsLeft(r.a) + CallsLeft(r.b)
  {
    var t := SpoilingTurn(r);
    SpoilingTurnIsNearer(r);
    var rest := [];
    if !Spoiled(Turn(r, t).files) { rest := Spoil(Turn(r, t)); }
    turns := [t] + rest;
    assert turns[1..] == rest;
  }

  /** Exactly when two pointer writes in flight can publish a file that is not one pointer. */
  lemma SpoiledExactlyWhen(r: Race)
    requires Consistent(r)
    ensures (exists turns :: Spoils(turns, r)) <==> CanSpoil(r)
  {
    if CanSpoil(r) {
      var turns := Spoil(r);
    } else {
      forall turns ensures !Spoils(turns, r) { PlayIsSafe(r, turns); }
    }
  }

  // ----- two writers whose calls may fail

  /** A step of one writer, or its failure; a write that fails may have left `length` bytes. */
  datatype Move = Go(first: bool) | Fail(first: bool, applied: bool, length: nat)

  function FailTurn(r: Race, first: bool, applied: bool, length: nat): Race {
    var w := if first then r.a else r.b;
    if w.Done? || w.stage.Stamp? then r
    else
      var files := if w.stage.Fill? && applied then CutOff(r.files, w.stage.fd, w.stage.p, length) else r.files;
      if first then Race(files, Done, r.b) else Race(files, r.a, Done)
  }

  function MoveTo(r: Race, m: Move): Race {
    match m
    case Go(first) => Turn(r, first)
    case Fail(first, applied, length) => FailTurn(r, first, applied, length)
  }

  function PlayMoves(r: Race, ms: seq<Move>): Race
    decreases ms
  {
    if ms == [] then r else PlayMoves(MoveTo(r, ms[0]), ms[1..])
  }

  predicate SpoilsAmidFaults(ms: seq<Move>, r: Race) { Spoiled(PlayMoves(r, ms).files) }

  /** A failing write of `w` hurts: it goes to the published file, or to the temporary one while the other
      writer is in flight. */
  predicate Exposed(f: Files, w: Writer, other: Writer) {
    && Filling(w) && w.stage.fd < |f.contents|
    && (f.published == Some(w.stage.fd) || (f.tmp == Some(w.stage.fd) && other.Writing?))
  }

  predicate CanSpoilAmidFaults(r: Race) {
    CanSpoil(r) || Exposed(r.files, r.a, r.b) || Exposed(r.files, r.b, r.a)
  }

  lemma FirstMoveIsSafe(r: Race, applied: bool, length: nat)
    requires Consistent(r) && !CanSpoilAmidFaults(r)
    ensures var r' := Turn(r, true); Consistent(r') && !CanSpoilAmidFaults(r')
    ensures var r' := FailTurn(r, true, applied, length); Consistent(r') && !CanSpoilAmidFaults(r')
  {
    FirstTurnIsSafe(r);
  }

  lemma MoveIsSafe(r: Race, m: Move)
    requires Consistent(r) && !CanSpoilAmidFaults(r)
    ensures Consistent(MoveTo(r, m)) && !CanSpoilAmidFaults(MoveTo(r, m))
  {
    var applied, length := m.Fail? && m.applied, if m.Fail? then m.length else 0;
    FirstMoveIsSafe(if m.first then r else Mirror(r), applied, length);
    assert !m.first ==> Turn(r, false) == Mirror(Turn(Mirror(r), true));
    assert !m.first ==> FailTurn(r, false, applied, length) == Mirror(FailTurn(Mirror(r), true, applied, length));
  }

  lemma {:induction false} MovesAreSafe(r: Race, ms: seq<Move>)
    requires Consistent(r) && !CanSpoilAmidFaults(r)
    ensures !SpoilsAmidFaults(ms, r)
    decreases ms
  {
    if ms != [] {
      MoveIsSafe(r, ms[0]);
      MovesAreSafe(MoveTo(r, ms[0]), ms[1..]);
    }
  }

  function Successes(turns: seq<bool>): seq<Move> { if turns == [] then [] else [Go(turns[0])] + Successes(turns[1..]) }

  lemma {:induction false} PlaySuccesses(r: Race, turns: seq<bool>)
    ensures PlayMoves(r, Successes(turns)) == Play(r, turns)
    decreases turns
  {
    if turns != [] {
      assert Successes(turns)[1..] == Successes(turns[1..]);
      PlaySuccesses(Turn(r, turns[0]), turns[1..]);
    }
  }

  /** The move that brings a spoiled pointer nearer: the exposed write fails, after the other writer has
      filled the file if both are to write it. */
  function WorstMove(r: Race): Move {
    var first := Exposed(r.files, r.a, r.b);
    var w, other := if first then r.a else r.b, if first then r.b else r.a;
    if Filling(w) && Filling(other) && other.stage.fd == w.stage.fd && r.files.tmp == Some(w.stage.fd)
    then Go(!first) else Fail(first, true, 0)
  }

  lemma WorstMoveIsNearer(r: Race)
    requires Consistent(r) && CanSpoilAmidFaults(r) && !CanSpoil(r)
    ensures var r' := MoveTo(r, WorstMove(r));
            && CallsLeft(r'.a) + CallsLeft(r'.b) < CallsLeft(r.a) + CallsLeft(r.b)
            && (Spoiled(r'.files) || (Consistent(r') && CanSpoilAmidFaults(r')))
            && Filling(if WorstMove(r).first then r.a else r.b)
  {
  }

  /** Exactly when two pointer writes, any of whose calls may fail, can publish a file that is not one
      pointer; `SpoiledExactlyWhen` is the case without failures. */
  lemma SpoiledAmidFaultsExactlyWhen(r: Race)
    requires Consistent(r)
    ensures (exists ms :: SpoilsAmidFaults(ms, r)) <==> CanSpoilAmidFaults(r)
  {
    if CanSpoilAmidFaults(r) {
      var ms := SpoilAmidFaults(r);
    } else {
      forall ms ensures !SpoilsAmidFaults(ms, r) { MovesAreSafe(r, ms); }
    }
  }

  lemma {:induction false} SpoilAmidFaults(r: Race) returns (ms: seq<Move>)
    requires Consistent(r) && CanSpoilAmidFaults(r)
    ensures SpoilsAmidFaults(ms, r)
    decreases CallsLeft(r.a) + CallsLeft(r.b)
  {
    if CanSpoil(r) {
      var turns := Spoil(r);
      PlaySuccesses(r, turns);
      ms := Successes(turns);
    } else {
      var m := WorstMove(r);
      WorstMoveIsNearer(r);
      var rest := [];
      if !Spoiled(MoveTo(r, m).files) { rest := SpoilAmidFaults(MoveTo(r, m)); }
      ms := [m] + rest;
      assert ms[1..] == rest;
    }
  }
}
