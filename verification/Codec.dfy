/** How both stores write an entry into a row and read it back. */
module Codec {
  import opened ByteText
  import opened Calendar
  import opened Rfc3339
  import opened Backup

  /** `serde_json` on `BackupStats`: printing, and parsing with `None` for an error. */
  datatype Json = Json(encode: BackupStats -> string, decode: string -> Option<BackupStats>)

  ghost predicate Faithful(json: Json) { forall s :: json.decode(json.encode(s)) == Some(s) }

  // ----- UUIDs

  /** 128 bits as 32 hexadecimal digits. */
  predicate ValidUuid(u: Uuid) { |u.nibbles| == 32 && forall i :: 0 <= i < 32 ==> u.nibbles[i] < 16 }

  const NIL := Uuid(seq(32, i => 0))

  predicate HyphenAt(i: nat) { i == 8 || i == 13 || i == 18 || i == 23 }

  /** The number of digits printed before position `i` of the hyphenated form. */
  function DigitsBefore(i: nat): nat {
    if i <= 8 then i else if i <= 13 then i - 1 else if i <= 18 then i - 2 else if i <= 23 then i - 3 else i - 4
  }

  /** The position of digit `k` in the hyphenated form. */
  function DigitPosition(k: nat): nat {
    if k < 8 then k else if k < 12 then k + 1 else if k < 16 then k + 2 else if k < 20 then k + 3 else k + 4
  }

  /** `Uuid::to_string`: lower-case digits in groups of 8, 4, 4, 4 and 12. */
  function UuidText(u: Uuid): (s: string)
    requires ValidUuid(u)
    ensures |s| == 36
  {
    seq(36, i requires 0 <= i < 36 => if HyphenAt(i) then '-' else DigitChar(u.nibbles[DigitsBefore(i)]))
  }

  function HexValue(c: char): Option<nat> {
    if '0' <= c <= '9' then Some((c - '0') as nat)
    else if 'a' <= c <= 'f' then Some((c - 'a') as nat + 10)
    else if 'A' <= c <= 'F' then Some((c - 'A') as nat + 10)
    else None
  }

  predicate Hyphenated(s: string) {
    |s| == 36 && forall i :: 0 <= i < 36 ==> if HyphenAt(i) then s[i] == '-' else HexValue(s[i]).Some?
  }

  /** `Uuid::parse_str` on the hyphenated form, with the nil UUID for anything else. */
  function ParseUuid(s: string): Uuid {
    if Hyphenated(s) then Uuid(seq(32, k requires 0 <= k < 32 => HexValue(s[DigitPosition(k)]).value)) else NIL
  }

  lemma UuidRoundTrip(u: Uuid)
    requires ValidUuid(u)
    ensures ParseUuid(UuidText(u)) == u
  {
    var s := UuidText(u);
    assert forall k :: 0 <= k < 32 ==> s[DigitPosition(k)] == DigitChar(u.nibbles[k]);
    assert ParseUuid(s).nibbles == u.nibbles;
  }

  /** Hyphens behind 8, 12, 16 and 20 digits, and lower-case hexadecimal digits everywhere else. */
  lemma UuidLayout(u: Uuid, i: nat)
    requires ValidUuid(u) && i < 36
    ensures UuidText(u)[i] == '-' <==> i == 8 || i == 13 || i == 18 || i == 23
    ensures UuidText(u)[i] == '-' || '0' <= UuidText(u)[i] <= '9' || 'a' <= UuidText(u)[i] <= 'f'
  {
    if !HyphenAt(i) { assert u.nibbles[DigitsBefore(i)] < 16; }
  }

  // ----- status and skip reason

  function StatusText(s: BackupStatus): string {
    match s
    case Created => "created"
    case Skipped => "skipped"
  }

  function Lower(s: string): string {
    seq(|s|, i requires 0 <= i < |s| => if 'A' <= s[i] <= 'Z' then 'a' + (s[i] - 'A') else s[i])
  }

  /** Anything but a case variant of `skipped` reads as created. */
  function ParseStatus(raw: string): BackupStatus { if Lower(raw) == "skipped" then Skipped else Created }

  function SkipReasonText(r: BackupSkipReason): string { "unchanged" }

  function ParseSkipReason(raw: string): BackupSkipReason { Unchanged }

  lemma StatusRoundTrip(s: BackupStatus)
    ensures ParseStatus(StatusText(s)) == s && StatusText(s) == if s.Created? then "created" else "skipped"
  {
    assert Lower("skipped") == "skipped";
    assert Lower("created")[0] == 'c';
  }

  lemma SkipReasonRoundTrip(r: BackupSkipReason)
    ensures ParseSkipReason(SkipReasonText(r)) == r && SkipReasonText(Unchanged) == "unchanged"
  {
    match r
    case Unchanged =>
  }

  /** Reading a status and filtering `status = 'created'` in SQL agree on exactly these texts:
      every text the stores write, and the case variants of `skipped`. */
  lemma StatusFilterAgreesExactlyWhen(raw: string)
    ensures (ParseStatus(raw).Created? <==> raw == "created") <==> raw == "created" || Lower(raw) == "skipped"
  {
    assert Lower("created")[0] == 'c';
  }

  // ----- SQLite rows

  datatype SqliteRow = SqliteRow(
    id: string, createdAt: string, timestampDir: string, contentHash: string, status: string,
    skipReason: Option<string>, sourceRevision: Option<string>, syncDurationMs: Option<int>, sizeBytes: int,
    statsJson: Option<string>)

  /** A version 4 UUID and a year of four digits. */
  predicate Storable(e: BackupEntry) { ValidUuid(e.id) && e.createdAt < END }

  function ToSqlite(json: Json, e: BackupEntry): SqliteRow
    requires Storable(e)
  {
    SqliteRow(UuidText(e.id), ToRfc3339(e.createdAt), e.timestampDir, e.contentHash, StatusText(e.status),
              if e.skipReason.Some? then Some(SkipReasonText(e.skipReason.value)) else None,
              e.sourceRevision, e.syncDurationMs, e.sizeBytes,
              if e.stats.Some? then Some(json.encode(e.stats.value)) else None)
  }

  /** `row_to_entry`, with `now` for the fallback of `parse_ts`; `None` when the stats do not parse. */
  function FromSqlite(json: Json, row: SqliteRow, now: Time): Option<BackupEntry> {
    var stats := if row.statsJson.Some? then json.decode(row.statsJson.value) else None;
    if row.statsJson.Some? && stats.None? then None
    else
      var at := ParseRfc3339(row.createdAt);
      Some(BackupEntry(ParseUuid(row.id), if at.Some? then at.value else now, row.timestampDir, row.contentHash,
                       ParseStatus(row.status),
                       if row.skipReason.Some? then Some(ParseSkipReason(row.skipReason.value)) else None,
                       row.sourceRevision, row.syncDurationMs, row.sizeBytes, stats))
  }

  /** A row the store wrote reads back as the entry, whatever the clock says: no fallback is taken. */
  lemma SqliteRoundTrip(json: Json, e: BackupEntry, now: Time)
    requires Faithful(json) && Storable(e)
    ensures FromSqlite(json, ToSqlite(json, e), now) == Some(e)
  {
    var row := ToSqlite(json, e);
    assert ParseUuid(row.id) == e.id by { UuidRoundTrip(e.id); }
    assert ParseRfc3339(row.createdAt) == Some(e.createdAt) by {
      FourDigitYears(e.createdAt);
      Rfc3339RoundTrip(e.createdAt);
    }
    assert ParseStatus(row.status) == e.status by { StatusRoundTrip(e.status); }
    if e.skipReason.Some? { SkipReasonRoundTrip(e.skipReason.value); }
    SqliteFields(json, row, e, now);
  }

  lemma SqliteFields(json: Json, row: SqliteRow, e: BackupEntry, now: Time)
    requires ParseUuid(row.id) == e.id && ParseRfc3339(row.createdAt) == Some(e.createdAt)
    requires ParseStatus(row.status) == e.status
    requires e.skipReason == if row.skipReason.Some? then Some(ParseSkipReason(row.skipReason.value)) else None
    requires row.timestampDir == e.timestampDir && row.contentHash == e.contentHash && row.sizeBytes == e.sizeBytes
    requires row.sourceRevision == e.sourceRevision && row.syncDurationMs == e.syncDurationMs
    requires if row.statsJson.Some? then e.stats.Some? && json.decode(row.statsJson.value) == e.stats else e.stats.None?
    ensures FromSqlite(json, row, now) == Some(e)
  {
  }

  /** A row is refused exactly when its stats do not parse.  Otherwise it reads differently at two times
      exactly when its time stamp is unreadable, and its id is nil exactly when the text is no UUID or says so. */
  lemma FallbacksExactlyWhen(json: Json, row: SqliteRow, now: Time, later: Time)
    requires now < later
    ensures var a, b := FromSqlite(json, row, now), FromSqlite(json, row, later);
            && (a.None? <==> row.statsJson.Some? && json.decode(row.statsJson.value).None?) && (b.None? <==> a.None?)
            && (a.Some? ==> (a != b <==> ParseRfc3339(row.createdAt).None?))
            && (a.Some? && a != b ==> a.value.createdAt == now && b.value.createdAt == later)
            && (a.Some? ==> (a.value.id == NIL <==> !Hyphenated(row.id) || ParseUuid(row.id) == NIL))
  {
  }

  // ----- what the SQLite store needs of its texts

  datatype Texts = Texts(
    key: Uuid -> string, uuid: string -> Uuid, stamp: Time -> string, less: (string, string) -> bool,
    encode: BackupEntry -> SqliteRow, decode: SqliteRow -> Option<BackupEntry>)

  /** Keys are unique, stamps sort by time as bytes, rows carry the columns that queries look at and read back. */
  ghost predicate Sound(x: Texts) {
    && (forall u :: ValidUuid(u) ==> x.uuid(x.key(u)) == u)
    && (forall t: Time, u: Time {:trigger x.less(x.stamp(t), x.stamp(u))} :: t < END && u < END ==>
          (x.less(x.stamp(t), x.stamp(u)) <==> t < u))
    && (forall e :: Storable(e) ==> Columns(x, e, x.encode(e)) && x.decode(x.encode(e)) == Some(e))
  }

  ghost predicate Columns(x: Texts, e: BackupEntry, row: SqliteRow) {
    && row.id == x.key(e.id) && row.createdAt == x.stamp(e.createdAt)
    && row.timestampDir == e.timestampDir && row.contentHash == e.contentHash
    && (row.status == "created" <==> e.status.Created?)
  }

  /** The texts the store really uses. */
  function SqliteTexts(json: Json, now: Time): Texts {
    Texts(u => if ValidUuid(u) then UuidText(u) else "", ParseUuid, ToRfc3339, Less,
          e => if Storable(e) then ToSqlite(json, e) else SqliteRow("", "", "", "", "", None, None, None, 0, None),
          row => FromSqlite(json, row, now))
  }

  lemma SqliteTextsSound(json: Json, now: Time)
    requires Faithful(json)
    ensures Sound(SqliteTexts(json, now))
  {
    var x := SqliteTexts(json, now);
    forall u | ValidUuid(u) ensures x.uuid(x.key(u)) == u { UuidRoundTrip(u); }
    forall t: Time, u: Time | t < END && u < END ensures x.less(x.stamp(t), x.stamp(u)) <==> t < u {
      FourDigitYears(t);
      FourDigitYears(u);
      TextOrderIsTimeOrder(t, u);
    }
    forall e | Storable(e) ensures Columns(x, e, x.encode(e)) && x.decode(x.encode(e)) == Some(e) {
      SqliteRoundTrip(json, e, now);
    }
  }

  // ----- Postgres rows

  /** TIMESTAMPTZ keeps microseconds; the instant is cut, not rounded. */
  function ToMicros(t: Time): nat { t / 1_000 }

  datatype PostgresRow = PostgresRow(
    id: Uuid, createdAtMicros: nat, timestampDir: string, contentHash: string, status: string,
    skipReason: Option<string>, sourceRevision: Option<string>, syncDurationMs: Option<int>, sizeBytes: int,
    statsJson: Option<string>)

  function ToPostgres(json: Json, e: BackupEntry): PostgresRow {
    PostgresRow(e.id, ToMicros(e.createdAt), e.timestampDir, e.contentHash, StatusText(e.status),
                if e.skipReason.Some? then Some(SkipReasonText(e.skipReason.value)) else None,
                e.sourceRevision, e.syncDurationMs, e.sizeBytes,
                if e.stats.Some? then Some(json.encode(e.stats.value)) else None)
  }

  /** `pg_row_to_entry`. */
  function FromPostgres(json: Json, row: PostgresRow): Option<BackupEntry> {
    var stats := if row.statsJson.Some? then json.decode(row.statsJson.value) else None;
    if row.statsJson.Some? && stats.None? then None
    else
      Some(BackupEntry(row.id, row.createdAtMicros * 1_000, row.timestampDir, row.contentHash,
                       ParseStatus(row.status),
                       if row.skipReason.Some? then Some(ParseSkipReason(row.skipReason.value)) else None,
                       row.sourceRevision, row.syncDurationMs, row.sizeBytes, stats))
  }

  function CutToMicros(e: BackupEntry): BackupEntry { e.(createdAt := e.createdAt / 1_000 * 1_000) }

  lemma PostgresRoundTrip(json: Json, e: BackupEntry)
    requires Faithful(json)
    ensures FromPostgres(json, ToPostgres(json, e)) == Some(CutToMicros(e))
  {
    StatusRoundTrip(e.status);
    if e.skipReason.Some? { SkipReasonRoundTrip(e.skipReason.value); }
  }

  /** The two stores decide alike whether a row is older than a cutoff except, exactly, when the row is
      older by less than its microsecond can tell. */
  lemma StoresAgreeOnCutoffExactlyWhen(createdAt: Time, cutoff: Time)
    requires createdAt < END && cutoff < END
    ensures (Less(ToRfc3339(createdAt), ToRfc3339(cutoff)) <==> ToMicros(createdAt) < ToMicros(cutoff)) <==>
            !(createdAt < cutoff && ToMicros(createdAt) == ToMicros(cutoff))
  {
    FourDigitYears(createdAt);
    FourDigitYears(cutoff);
    TextOrderIsTimeOrder(createdAt, cutoff);
  }
}
