/** The records of the backup domain. */
module Backup {
  import opened ByteText
  import opened Calendar

  type Bytes = seq<bv8>

  datatype Uuid = Uuid(nibbles: seq<nat>)

  datatype BackupStatus = Created | Skipped

  datatype BackupSkipReason = Unchanged

  datatype DeckStats = DeckStats(deckId: int, deckName: string, cardCount: nat)

  datatype BackupStats = BackupStats(
    totalCards: nat, totalDecks: nat, totalNotes: nat, totalRevlog: nat, deckStats: seq<DeckStats>)

  datatype BackupEntry = BackupEntry(
    id: Uuid,
    createdAt: Time,
    timestampDir: string,
    contentHash: string,
    status: BackupStatus,
    skipReason: Option<BackupSkipReason>,
    sourceRevision: Option<string>,
    syncDurationMs: Option<int>,
    sizeBytes: int,
    stats: Option<BackupStats>)

  /** An entry before it gets its id. */
  datatype NewBackupEntry = NewBackupEntry(
    createdAt: Time,
    timestampDir: string,
    contentHash: string,
    status: BackupStatus,
    skipReason: Option<BackupSkipReason>,
    sourceRevision: Option<string>,
    syncDurationMs: Option<int>,
    sizeBytes: int,
    stats: Option<BackupStats>)
  {
    function WithId(id: Uuid): BackupEntry {
      BackupEntry(id, createdAt, timestampDir, contentHash, status, skipReason, sourceRevision, syncDurationMs,
                  sizeBytes, stats)
    }
  }

  function NewCreated(createdAt: Time, timestampDir: string, contentHash: string, sourceRevision: Option<string>,
                      syncDurationMs: Option<int>, sizeBytes: int, stats: BackupStats): NewBackupEntry
  {
    NewBackupEntry(createdAt, timestampDir, contentHash, Created, None, sourceRevision, syncDurationMs, sizeBytes,
                   Some(stats))
  }

  function NewSkippedUnchanged(createdAt: Time, contentHash: string): NewBackupEntry {
    NewBackupEntry(createdAt, "", contentHash, Skipped, Some(Unchanged), None, None, 0, None)
  }
}
