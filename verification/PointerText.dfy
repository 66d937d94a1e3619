/** The bytes of `current-pointer.json`, to justify what `PointerFile` keeps of them. */
module PointerText {
  import opened ByteText
  import opened Calendar
  import opened Rfc3339
  import opened Backup
  import opened Codec
  import opened PointerFile

  /** Pointers of backups, whose directory names hold no brace, while years have four digits. */
  predicate Printable(p: Pointer) { ValidUuid(p.backupId) && '}' !in p.timestampDir && FourDigitYear(p.updatedAt) }

  /** `updated_at` as serde writes it: the RFC 3339 form with `Z`. */
  function Stamp(t: Time): string { DateTimeText(t) + FractionText(Nanos(t)) + "Z" }

  const BEFORE_ID := "{\n  \"backup_id\": \""
  const BEFORE_DIR := "\",\n  \"timestamp_dir\": \""
  const BEFORE_STAMP := "\",\n  \"updated_at\": \""
  const AFTER_STAMP := "\"\n"

  function Assemble(id: string, dir: string, stamp: string): string {
    BEFORE_ID + id + BEFORE_DIR + dir + BEFORE_STAMP + stamp + AFTER_STAMP
  }

  /** Everything before the closing brace. */
  function Body(p: Pointer): string
    requires Printable(p)
  {
    Assemble(UuidText(p.backupId), p.timestampDir, Stamp(p.updatedAt))
  }

  /** `to_vec_pretty` of the pointer. */
  function Text(p: Pointer): string
    requires Printable(p)
  {
    Body(p) + "}"
  }

  lemma DateTimeLength(t: Time)
    requires FourDigitYear(t)
    ensures |DateTimeText(t)| == 19
  {
    var f := DateTimeFields(t, ":");
    assert |FieldsText(f[5..])| == 2 by { assert f[5..][1..] == []; }
    assert f[4..][1..] == f[5..] && f[3..][1..] == f[4..] && f[2..][1..] == f[3..] && f[1..][1..] == f[2..];
    assert |FieldsText(f[4..])| == 5;
    assert |FieldsText(f[3..])| == 8;
    assert |FieldsText(f[2..])| == 11;
    assert |FieldsText(f[1..])| == 14;
  }

  lemma LengthIsTextLength(p: Pointer)
    requires Printable(p)
    ensures |Text(p)| == TextLength(p)
  {
    DateTimeLength(p.updatedAt);
    FractionLengthCorrect(Nanos(p.updatedAt));
  }

  lemma StampHasNoBrace(t: Time)
    requires FourDigitYear(t)
    ensures '}' !in Stamp(t)
  {
    NotInFields(DateTimeFields(t, ":"), '}');
    var n := Nanos(t);
    NotInFixed(3, n / 1_000_000, '}');
    NotInFixed(6, n / 1_000, '}');
    NotInFixed(9, n, '}');
  }

  lemma UuidHasNoBrace(u: Uuid)
    requires ValidUuid(u)
    ensures '}' !in UuidText(u)
  {
    forall i | 0 <= i < 36 ensures UuidText(u)[i] != '}' {
      if !HyphenAt(i) { assert u.nibbles[DigitsBefore(i)] < 16; }
    }
  }

  lemma AssembleHasNoBrace(id: string, dir: string, stamp: string)
    requires '}' !in id && '}' !in dir && '}' !in stamp
    ensures '}' !in Assemble(id, dir, stamp)
  {
    assert '}' !in BEFORE_ID && '}' !in BEFORE_DIR && '}' !in BEFORE_STAMP && '}' !in AFTER_STAMP;
  }

  lemma BodyHasNoBrace(p: Pointer)
    requires Printable(p)
    ensures '}' !in Body(p)
  {
    StampHasNoBrace(p.updatedAt);
    UuidHasNoBrace(p.backupId);
    AssembleHasNoBrace(UuidText(p.backupId), p.timestampDir, Stamp(p.updatedAt));
  }

  /** The text of one pointer with anything behind it is not the text of any pointer. */
  lemma LeftoverIsNoPointer(p: Pointer, q: Pointer, leftover: string)
    requires Printable(p) && Printable(q) && leftover != ""
    ensures Text(p) + leftover != Text(q)
  {
    BodyHasNoBrace(q);
    BraceEnds(Body(p), Body(q), leftover);
  }

  lemma BraceEnds(a: string, b: string, leftover: string)
    requires '}' !in b && leftover != ""
    ensures a + "}" + leftover != b + "}"
  {
    assert (a + "}" + leftover)[|a|] == '}';
    assert |a| < |b| ==> (b + "}")[|a|] == b[|a|];
  }

  // ----- reading it back

  /** The text up to the first `c`, and what is behind that. */
  function Before(s: string, c: char): string {
    if s == "" || s[0] == c then "" else [s[0]] + Before(s[1..], c)
  }

  function After(s: string, c: char): (r: string)
    ensures s != "" ==> |r| < |s|
  {
    if s == "" then "" else if s[0] == c then s[1..] else After(s[1..], c)
  }

  lemma {:induction false} CutAt(a: string, c: char, b: string)
    requires c !in a
    ensures Before(a + [c] + b, c) == a && After(a + [c] + b, c) == b
  {
    if a == "" {
      assert a + [c] + b == [c] + b;
    } else {
      assert (a + [c] + b)[1..] == a[1..] + [c] + b;
      CutAt(a[1..], c, b);
    }
  }

  /** The string value of a key that stands at the beginning of a line. */
  function Value(text: string, key: string): Option<string>
    decreases |text|
  {
    if text == "" then None
    else
      var line, start := Before(text, '\n'), "  \"" + key + "\": \"";
      if start <= line then Some(Before(line[|start|..], '\"')) else Value(After(text, '\n'), key)
  }

  lemma ValueHere(key: string, value: string, comma: string, rest: string)
    requires '\n' !in key && '\n' !in value && '\"' !in value && '\n' !in comma
    ensures Value("  \"" + key + "\": \"" + value + "\"" + comma + "\n" + rest, key) == Some(value)
  {
    var start := "  \"" + key + "\": \"";
    var line := start + value + "\"" + comma;
    assert start + value + "\"" + comma + "\n" + rest == line + ['\n'] + rest;
    CutAt(line, '\n', rest);
    assert line[|start|..] == value + ['\"'] + comma;
    CutAt(value, '\"', comma);
  }

  lemma ValueLater(line: string, rest: string, key: string)
    requires '\n' !in line && !("  \"" + key + "\": \"" <= line)
    ensures Value(line + "\n" + rest, key) == Value(rest, key)
  {
    assert line + "\n" + rest == line + ['\n'] + rest;
    CutAt(line, '\n', rest);
  }

  const ID := "backup_id"
  const DIR := "timestamp_dir"
  const AT := "updated_at"

  ghost function Line(key: string, value: string, comma: string): string {
    "  \"" + key + "\": \"" + value + "\"" + comma
  }

  lemma Spelled(id: string, dir: string, stamp: string)
    ensures Assemble(id, dir, stamp) + "}" ==
            "{" + "\n" + (Line(ID, id, ",") + "\n" + (Line(DIR, dir, ",") + "\n" + (Line(AT, stamp, "") + "\n" + "}")))
  {
    Keys();
    var k1, k2, k3 := "  \"" + ID + "\": \"", "  \"" + DIR + "\": \"", "  \"" + AT + "\": \"";
    var sep, end := "\"" + "," + "\n", "\"" + "\n";
    Regroup("{" + "\n", k1, id, sep, k2, dir, k3, stamp, end + "}");
    LastLine(k3, stamp);
    MiddleLine(k2, dir, k3 + stamp + (end + "}"));
    MiddleLine(k1, id, k2 + dir + (sep + (k3 + stamp + (end + "}"))));
    assert Assemble(id, dir, stamp) + "}" ==
           ("{" + "\n" + k1) + id + (sep + k2) + dir + (sep + k3) + stamp + (end + "}");
  }

  lemma Regroup(o: string, k1: string, a: string, sep: string, k2: string, b: string, k3: string, c: string,
                end: string)
    ensures (o + k1) + a + (sep + k2) + b + (sep + k3) + c + end ==
            o + (k1 + a + (sep + (k2 + b + (sep + (k3 + c + end)))))
  {
  }

  lemma Keys()
    ensures BEFORE_ID == "{" + "\n" + ("  \"" + ID + "\": \"")
    ensures BEFORE_DIR == "\"" + "," + "\n" + ("  \"" + DIR + "\": \"")
    ensures BEFORE_STAMP == "\"" + "," + "\n" + ("  \"" + AT + "\": \"")
    ensures AFTER_STAMP == "\"" + "\n"
  {
  }

  lemma MiddleLine(start: string, value: string, rest: string)
    ensures start + value + (("\"" + "," + "\n") + rest) == (start + value + "\"" + ",") + "\n" + rest
  {
  }

  lemma LastLine(start: string, value: string)
    ensures start + value + ("\"" + "\n" + "}") == (start + value + "\"" + "") + "\n" + "}"
  {
  }

  lemma FieldsRead(id: string, dir: string, stamp: string)
    requires '\n' !in id && '\"' !in id && '\n' !in dir && '\"' !in dir && '\n' !in stamp && '\"' !in stamp
    ensures var text := Assemble(id, dir, stamp) + "}";
            Value(text, ID) == Some(id) && Value(text, DIR) == Some(dir) && Value(text, AT) == Some(stamp)
  {
    var l3 := Line(AT, stamp, "") + "\n" + "}";
    var l2 := Line(DIR, dir, ",") + "\n" + l3;
    var l1 := Line(ID, id, ",") + "\n" + l2;
    Spelled(id, dir, stamp);
    ValueLater("{", l1, ID);
    ValueLater("{", l1, DIR);
    ValueLater("{", l1, AT);
    OtherKey(ID, id, ",", DIR, 3);
    OtherKey(ID, id, ",", AT, 3);
    OtherKey(DIR, dir, ",", AT, 3);
    ValueHere(ID, id, ",", l2);
    ValueLater(Line(ID, id, ","), l2, DIR);
    ValueLater(Line(ID, id, ","), l2, AT);
    ValueHere(DIR, dir, ",", l3);
    ValueLater(Line(DIR, dir, ","), l3, AT);
    ValueHere(AT, stamp, "", "}");
  }

  lemma OtherKey(key: string, value: string, comma: string, other: string, i: nat)
    requires i == 3 && key != "" && other != "" && key[0] != other[0]
    ensures !("  \"" + other + "\": \"" <= Line(key, value, comma))
  {
    assert Line(key, value, comma)[3] == key[0] && ("  \"" + other + "\": \"")[3] == other[0];
  }

  function ReadStamp(s: string): Option<Time> {
    if s != "" && s[|s| - 1] == 'Z' then ParseRfc3339(s[..|s| - 1] + "+00:00") else None
  }

  function ReadPointer(text: string): Option<Pointer> {
    var id, dir, stamp := Value(text, ID), Value(text, DIR), Value(text, AT);
    if id.None? || dir.None? || stamp.None? || ReadStamp(stamp.value).None? then None
    else Some(Pointer(ParseUuid(id.value), dir.value, ReadStamp(stamp.value).value))
  }

  lemma StampReads(t: Time)
    requires FourDigitYear(t)
    ensures ReadStamp(Stamp(t)) == Some(t)
  {
    var s := Stamp(t);
    assert s[..|s| - 1] + "+00:00" == ToRfc3339(t);
    Rfc3339RoundTrip(t);
  }

  lemma PlainStamp(t: Time, c: char)
    requires FourDigitYear(t) && (c == '\n' || c == '\"')
    ensures c !in Stamp(t)
  {
    NotInFields(DateTimeFields(t, ":"), c);
    var n := Nanos(t);
    NotInFixed(3, n / 1_000_000, c);
    NotInFixed(6, n / 1_000, c);
    NotInFixed(9, n, c);
  }

  lemma PlainUuid(u: Uuid, c: char)
    requires ValidUuid(u) && (c == '\n' || c == '\"')
    ensures c !in UuidText(u)
  {
    forall i | 0 <= i < 36 ensures UuidText(u)[i] != c {
      if !HyphenAt(i) { assert u.nibbles[DigitsBefore(i)] < 16; }
    }
  }

  /** Reading the three values of the JSON by their keys gives the pointer back. */
  lemma ReadsBack(p: Pointer)
    requires Printable(p) && '\n' !in p.timestampDir && '\"' !in p.timestampDir
    ensures ReadPointer(Text(p)) == Some(p)
  {
    PlainUuid(p.backupId, '\n');
    PlainUuid(p.backupId, '\"');
    PlainStamp(p.updatedAt, '\n');
    PlainStamp(p.updatedAt, '\"');
    FieldsRead(UuidText(p.backupId), p.timestampDir, Stamp(p.updatedAt));
    UuidRoundTrip(p.backupId);
    StampReads(p.updatedAt);
  }
}
