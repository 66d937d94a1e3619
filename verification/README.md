# anki-backup-tool: a verified model of the backup daemon

The daemon downloads an Anki collection every hour, stores it when it has changed,
prunes old backups, and rolls back to a chosen one. This project models its storage,
scheduling, rollback and sync logic in Dafny and proves what holds of every run,
including runs in which any single I/O call fails or the process dies between two calls.

## How it is built

| file | content |
|---|---|
| `Daemon.dfy` | the daemon as a state machine over single I/O steps: scheduler thread, rollback handler, faults with residue, restarts, other AnkiWeb clients, the clock |
| `DaemonInvariant.dfy`, `DaemonHistory.dfy` | what every step keeps |
| `DaemonTheorems.dfy`, `DaemonCycle.dfy`, `DaemonDisk.dfy`, `DaemonRollback.dfy` | the results over all runs: of backups, retention and rollback; of one scheduler cycle; of what is left on disk; of what a rollback leads to and of the two pointer writers |
| `Repository.dfy` | the same operations as an object with fields, one call after the other; a ghost copy of the state machine follows each call, so each method is a stretch of a run |
| `PointerFile.dfy`, `PointerText.dfy` | the pointer file, its names and descriptors, and its two writers; its bytes |
| `Table.dfy`, `SqliteStore.dfy`, `PostgresStore.dfy`, `ConcurrentPrune.dfy` | what both stores promise, the two stores, and the SQLite prune among concurrent inserts |
| `ByteText.dfy`, `Calendar.dfy`, `Rfc3339.dfy`, `Codec.dfy` | byte order, the calendar, the stored text of instants, directory names, row encodings |
| `Scheduler.dfy`, `DeckStatistics.dfy`, `SessionId.dfy`, `SyncProtocol.dfy` | wake-up arithmetic, collection statistics, session ids, the request sequence of a sync |
| `Backup.dfy` | the records |

`dafny verify dfyconfig.toml` checks everything.

## What the results rest on

- The wall clock never goes back and stays within the years 0000 to 9999. For a year
  beyond, byte order of the stored text is time order only as
  `TextOrderIsTimeOrderExactlyWhen` says.
- UUIDs are not drawn twice. SHA-256, `serde_json`, zstd and `extract_stats` are
  arbitrary functions (parameters of the model); where a parser must invert a printer
  that is a stated precondition.
- `run_once` is given the hash of its bytes, as the daemon does, and is called from the
  scheduler loop. What function of the bytes the hash is does not matter. That creating runs fall into distinct seconds is not assumed: it
  follows from the wake-up arithmetic, also across restarts.
- Each file call is one step, except that a pointer write is four: the time stamp, the
  open that truncates, the write through the descriptor that open returned, the rename.
  A failed payload write may leave any bytes, a failed removal any part of the directory, a
  failed database statement or upload may have taken effect. A failed pointer write leaves at
  least the bytes that were there and at most those of its text; the file then counts as no
  pointer, although a write that broke off within a common beginning leaves the old one.
- The retention is the same after a restart. With a longer one, rows that an interrupted
  SQLite prune had still to delete would be kept.
- Postgres compares whole microseconds, so on Postgres the cutoff of a prune is cut to one
  (`PostgresPruneIsAtWholeMicros`).
- Rollback requests queue on the gate, so one handler runs at a time; it interleaves
  freely with the scheduler.
- `docs/ROLLBACK.md` says that a rollback does not push to AnkiWeb; the code uploads
  whenever credentials are configured, and the model follows the code.

## What turned out not to hold

- The pointer is not always replaced atomically. The scheduler and a rollback use one
  temporary file name. One may truncate the file that the other is about to rename; or
  both have opened it, one renames it, and the other's write lands in the published file,
  where it leaves the end of a longer text behind its own (the stamp has 0, 3, 6 or 9
  fraction digits), or fails half way. `SpoiledExactlyWhen` says from which situations
  successful calls can make a reader find something that is not one pointer,
  `SpoiledAmidFaultsExactlyWhen` from which calls that may fail can,
  `PointerIsIntactWithoutOverlap` that this takes an overlap, and `RequestCanSpoilPointer`
  that a rollback request arriving while a new backup is being published is enough.
- A successful cycle may leave no backup at all, exactly when the newest backup lies
  before the cutoff (`CycleLeavesNothingExactlyWhen`): a collection unchanged for longer
  than the retention loses its only backup, in a run that `UnchangedCollectionCanVanish`
  gives. The next successful cycle makes one again (`EmptyStoreIsRefilled`).
- After an uploading rollback the next backup need not have the content rolled back to:
  a cycle that had synced before the upload still stores what it holds
  (`RollbackConvergesExactlyWhen`, `InFlightIsStored`). From then on it has.
- Directories are not always cleaned up. What a failed `run_once` or an interrupted prune
  leaves behind is never removed (`LeftOversStay`).
- Two creating runs within one second share a directory and the first payload is
  overwritten (`PayloadSurvivesExactlyWhen`); the scheduler keeps them apart, two
  `run-once` commands would not.
- The two stores prune differently on a row created in the microsecond of the cutoff
  (`StoresPruneAlikeExactlyWhen`), and reading a status and filtering by it in SQL agree
  only on the texts the stores write and on case variants of `skipped`
  (`StatusFilterAgreesExactlyWhen`).
- The draws 0 and 52 give one session id (`IdsCollideExactlyWhen`).

## Model

| member | source | states |
|---|---|---|
| DaemonTheorems.BackupsAreAlwaysRestorable | crates/storage/src/repository.rs:88-132 | in every state of every run, mid-operation, after faults and restarts, each created row has its payload on disk with the recorded size, hash and stats |
| DaemonTheorems.SuccessMeansBackedUp | crates/storage/src/repository.rs:93-131 | whenever `run_once` reported success, created or skipped, the latest created row carries the hash of the bytes it was given and its payload is on disk |
| DaemonTheorems.RunsBeginInLaterHours | crates/daemon/src/main.rs:152-165 | successive calls of `run_once`, created, skipped and failed ones alike, begin in strictly increasing UTC hours, across restarts |
| DaemonTheorems.BackupsNeverShareADirectory | crates/storage/src/repository.rs:104-110 | backups are made in strictly increasing UTC hours and in pairwise different directories, across restarts |
| DaemonTheorems.PayloadSurvivesExactlyWhen | crates/storage/src/repository.rs:107-110 | the payload step of a `run_once`, from any state, leaves an earlier backup intact if and only if the run began in another second or the bytes match that backup's record |
| DaemonTheorems.TimestampDirsNameSeconds | crates/storage/src/repository.rs:301-304 | `format_timestamp_dir` is injective on seconds and yields names that stay below `backups/`, for all years of four digits |
| DaemonTheorems.BackupsAreInputsWithoutRepetition | crates/storage/src/repository.rs:95-102 | in every run in which no `run_once` fails or dies before its row is in, the rows are the hashes of its inputs in order, and until retention reaches the first backup the created hashes are those with consecutive repetitions removed |
| DaemonTheorems.RowsFollowInputs | crates/storage/src/repository.rs:95-131 | in all runs, whatever fails, the hashes of the rows are a subsequence of those of the inputs, and until retention reaches the first backup the created hashes are the rows' with consecutive repetitions removed |
| DaemonCycle.RunOnceSucceedsWithoutFaults | crates/storage/src/repository.rs:88-132 | from the end of a sleep with a readable collection, successful calls alone take the daemon to a successful `run_once` in at most twelve steps |
| DaemonTheorems.RetentionIsExact | crates/storage/src/repository.rs:162-179 | outside a SQLite delete loop, the created rows are exactly the backups ever made at or after the largest cutoff applied, on Postgres cut to its microsecond; skipped rows are never lost |
| DaemonTheorems.RecentBackupsAreLive | crates/storage/src/repository.rs:162-168 | at every moment each backup made within the last `retention_days` days of 86400 seconds, and with retention off every backup, is a live row with its payload |
| DaemonTheorems.PostgresPrunesAtOnce | crates/storage/src/postgres_store.rs:138-156 | on Postgres the created rows are exactly the backups at or after the cutoff, a whole microsecond, in every state, also inside and after a failed prune |
| DaemonTheorems.PruneCountsAddUp | crates/storage/src/repository.rs:168-178 | between cycles, live created rows, the returned prune counts and the rows lost with failed prunes sum to the backups ever made |
| DaemonTheorems.PruneCountsAddUpWithoutFaults | crates/storage/src/repository.rs:168-178 | in every run in which no prune fails or is cut short, live created rows and the returned counts alone sum to the backups ever made, those a prune has in hand included |
| DaemonTheorems.LiveNeighboursDiffer | crates/storage/src/repository.rs:95-102 | outside a SQLite delete loop, two live backups with none between them in time have different hashes |
| DaemonCycle.CycleSucceedsWithoutFaults | crates/daemon/src/main.rs:157-184 | successful calls alone take a cycle from the end of its sleep through the prune to the top of the loop, and it has added a backup exactly when the content differs from the latest one |
| DaemonCycle.CycleKeepsExactlyTheRecent | crates/storage/src/repository.rs:162-168 | a cycle without faults and with retention on keeps a backup if and only if it was at most `retention_days` days old when the prune began, on Postgres counted in microseconds |
| DaemonCycle.CycleLeavesNothingExactlyWhen | crates/daemon/src/main.rs:157-184 | a cycle without faults, however long it takes, ends without any backup if and only if retention is on and the newest backup ever made lies before the cutoff of the time its prune began; the step that begins the prune is returned, its clock is that time, and the cutoff recorded is the one of that time |
| DaemonCycle.LateCycleLeavesNothing | crates/daemon/src/main.rs:175-182 | from every state at the top of the loop whose latest backup is the content on AnkiWeb, a cycle later than retention can succeed and leave nothing |
| DaemonCycle.UnchangedCollectionCanVanish | crates/daemon/src/main.rs:157-184 | a run from an empty installation in which a successful cycle that began with a backup of the current content leaves none |
| DaemonCycle.EmptyStoreIsRefilled | crates/daemon/src/main.rs:157-184 | a successful cycle that begins without any backup ends with one if its prune begins within the retention of its run, so two consecutive successful cycles never both end without a backup |
| DaemonTheorems.PruneRemovesOnlyDeadDirectories | crates/storage/src/repository.rs:170-176 | each directory a prune is about to remove is a proper child of `backups/` and belongs to no live backup, although skipped rows have an empty directory name |
| DaemonDisk.DirectoriesAreTheLiveBackups | crates/storage/src/repository.rs:104-122 | in every run in which nothing fails or restarts while a backup is being made or a prune is under way, the directories are those of the live backups and of the backup or prune in hand, between cycles exactly those of the live backups |
| DaemonDisk.LeftOversStay | crates/storage/src/repository.rs:168-176 | a directory that belongs to no live backup and that nobody has in hand is never touched again, in any run: rows go first, so no later prune lists it, and no later run has its name |
| DaemonDisk.FailedRunLeavesItsDirectory | crates/storage/src/repository.rs:104-122 | a `run_once` given up or killed before its row is in leaves its directory, if made, as such a left-over |
| DaemonDisk.DeadPruneLeavesDirectories | crates/storage/src/repository.rs:168-176 | a prune that fails or dies after deleting a row and before removing its directory leaves that directory as such a left-over |
| DaemonTheorems.PointerNamesABackup | crates/storage/src/repository.rs:181-192 | an intact published pointer names id and directory of a backup that was made, live with its payload unless retention has passed it |
| DaemonTheorems.UploadIsTheBackup | crates/daemon/src/server.rs:182-194 | what a rollback uploads has the hash and size recorded for the chosen backup, whatever the scheduler prunes meanwhile |
| DaemonTheorems.RollbacksAreRateLimited | crates/daemon/src/server.rs:167-199 | in any window of w seconds at most w/10 + 1 rollbacks of one process complete |
| DaemonInvariant.NextKeepsInv | crates/storage/src/repository.rs:88-192 | every step of either thread, every fault with its residue, every restart and tick keeps the invariant relating table, directories, pointer, threads and history |
| DaemonHistory.SkippedExactlyWhenEqual | crates/storage/src/repository.rs:95-102 | while the newest backup is within retention, a run is skipped if and only if its hash equals that backup's |
| DaemonHistory.NeighboursNext | crates/storage/src/repository.rs:95-132 | every step keeps that a backup repeats the content before it only after retention has passed the earlier one |
| DaemonHistory.RetentionNext | crates/storage/src/sqlite_store.rs:141-160 | every step keeps that rows beyond the cutoff are only those an unfinished delete loop has not reached |
| DaemonHistory.BackUpNext | crates/daemon/src/main.rs:157-184 | every smooth step of a cycle that began without a backup keeps it on the way to one, or ends it with one live |
| DaemonHistory.GateNext | crates/daemon/src/server.rs:167-199 | every step keeps that completion stamps are ten seconds apart and that a request in progress began ten seconds after the last |
| DaemonRollback.UnchangedCollectionIsBackedUpOnce | crates/daemon/src/main.rs:157-173 | while nobody changes the collection on AnkiWeb, from any state, through faults and restarts: every new backup has its hash except that the first may be content then in flight, none if nothing else was on its way into the table; after a backup of that hash every row is a skip until retention passes it |
| DaemonRollback.RollbackConverges | crates/daemon/src/server.rs:175-199 | after an uploading rollback with no other writer, whatever the scheduler was doing: every later backup has the hash of the chosen one except that the next may be content a cycle had in hand; after a backup of that hash every row is a skip until retention passes it |
| DaemonRollback.RollbackConvergesExactlyWhen | crates/daemon/src/server.rs:175-199 | every later backup is sure to have the hash of the chosen one if and only if, when the upload ends, no readable content of another hash, new against the latest backup, is on its way into the table |
| DaemonRollback.InFlightIsStored | crates/storage/src/repository.rs:95-122 | otherwise successful calls alone store that other content, with AnkiWeb unchanged |
| DaemonRollback.PointerIsIntactWithoutOverlap | crates/storage/src/repository.rs:181-191 | until two pointer writes overlap the published pointer is intact, in any run with any faults; and the writes in flight can spoil it if and only if they overlap |
| DaemonRollback.OnlyOwnPointersArePublished | crates/storage/src/repository.rs:181-191 | until two pointer writes overlap, a rename publishes exactly the pointer of the thread that renames, and no other step, fault or restart changes what readers see |
| DaemonRollback.RequestCanSpoilPointer | crates/storage/src/repository.rs:181-191 | from every reachable state in which a new backup is about to be published, a rollback request and successful calls alone can publish something that is not one pointer |
| DaemonRollback.PointerSpoiledExactlyWhen | crates/storage/src/repository.rs:187-190 | in every reachable state with an intact pointer, after any overlaps and faults, the remaining calls of the writes in flight, if they all succeed, can spoil it if and only if `CanSpoil` holds |
| DaemonRollback.PointerSpoiledAmidFaultsExactlyWhen | crates/storage/src/repository.rs:187-190 | in every reachable state with an intact pointer, some continuation with any faults, restarts and other steps, in which no further pointer write begins, spoils it if and only if `CanSpoilAmidFaults` holds |
| DaemonRollback.SpoilingRun | crates/storage/src/repository.rs:187-190 | whenever two writes in flight can spoil the pointer, the daemon can do so by successful calls alone |
| PointerFile.SpoiledExactlyWhen | crates/storage/src/repository.rs:187-190 | some schedule of the successful calls of two pointer writes in flight, whatever files they have open, publishes a file that is not one pointer if and only if one has yet to open the file, or the temporary file is not intact and one can rename it as it is, or one will write to a named file longer than its text, or both will write texts of different lengths to one named file |
| PointerFile.SpoiledAmidFaultsExactlyWhen | crates/storage/src/repository.rs:187-190 | with calls that may also fail half way, this is possible if and only if it is without failures, or one will write to the published file, or to the temporary file while the other is in flight |
| PointerFile.LoneWrite | crates/storage/src/repository.rs:187-190 | a write nobody interferes with: readers see the old pointer until the rename and exactly the new one after it, also when the write fails half way |
| PointerText.LeftoverIsNoPointer | crates/storage/src/repository.rs:182-189 | the JSON of a pointer with any bytes behind it is not the JSON of any pointer |
| PointerText.LengthIsTextLength | crates/storage/src/repository.rs:182-189 | the length of the JSON depends only on the directory name and the 0, 3, 6 or 9 fraction digits of the stamp |
| PointerText.ReadsBack | crates/storage/src/repository.rs:182-189 | reading the three values of the pointer's JSON by their keys gives the pointer back |
| Scheduler.SleepReachesNextHour | crates/daemon/src/main.rs:153-155 | the sleep is 1 to 3600 seconds, the least number that reaches the following UTC hour, and ends in its first second, at the sub-second part of the clock |
| Repository.BackupDaemon.RunOnce | crates/storage/src/repository.rs:88-132 | a stretch of a run of the machine; success adds exactly one row, of a skipped entry and nothing else if and only if the last created hash equals the given one, else of a created entry with payload, `metadata.json` and published pointer, every field as the payload or the clock gives it; an error touches no other row and not what readers of the pointer see |
| Repository.BackupDaemon.CreateAndInsertEntry | crates/storage/src/repository.rs:194-224 | for a created entry, the row and then its `metadata.json`, the payload beside it untouched |
| Repository.BackupDaemon.RecordSkip | crates/storage/src/repository.rs:97-100 | for an unchanged collection, one skipped row and nothing on disk |
| Repository.BackupDaemon.WritePointer | crates/storage/src/repository.rs:181-192 | success publishes the entry's pointer with the time of the write, intact, and leaves no temporary name; failure leaves what readers see as it was |
| Repository.BackupDaemon.RollbackTo | crates/storage/src/repository.rs:142-153 | only a created row is accepted, else nothing changes; success publishes its pointer and records one event; a failure records at most that event, and only behind the published pointer |
| Repository.BackupDaemon.PruneOld | crates/storage/src/repository.rs:162-179 | nothing for a retention of zero or less; success leaves, of the created rows, exactly those at most `retention_days` days old, returns how many went, and removes exactly their directories; a failure touches no other row and no other directory |
| Repository.BackupDaemon.PruneCreatedBefore | crates/storage/src/store.rs:24-25 | select and delete one by one, or one statement: on success the same table and the same rows returned |
| Repository.BackupDaemon.QueryLastHash | crates/storage/src/store.rs:21-22 | the hash of the most recent created row, none without created rows |
| Repository.BackupDaemon.ReadBackup | crates/daemon/src/server.rs:208-221 | barring a read error, the bytes of a backup are found exactly for created rows and have the recorded hash and size |
| Repository.BackupDaemon.RollbackBackup | crates/daemon/src/server.rs:167-200 | 429 if and only if less than ten seconds have passed since the last success, and without effect; 400 if the fetch, the pointer or the event failed, in particular for an id that is no created backup; 500 if the payload could not be read and 502 if the upload failed, pointer and event standing; 200 means pointer, event, gate stamp and, with credentials, AnkiWeb holding bytes of the chosen hash; any other status leaves the gate |
| Repository.BackupDaemon.UploadBackup | crates/daemon/src/server.rs:182-194 | success leaves AnkiWeb with bytes of the entry's hash; a read failure changes nothing |
| Repository.BackupDaemon.SchedulerCycle | crates/daemon/src/main.rs:152-187 | one iteration, whatever fails, returns to the top of the loop in a later hour; a failed sync changes nothing; a successful run answers a skip exactly when the content on AnkiWeb is the latest backup, else a backup of it with the published pointer; a successful prune, also after a failed run, leaves only recent backups; with both the table is the old one with that row, pruned |
| Table.NoHashMeansNoCreated | crates/storage/src/sqlite_store.rs:128-139 | the query for the last hash answers nothing if and only if there is no created row |
| Table.PruneTwice | crates/storage/src/sqlite_store.rs:141-160 | pruning at two cutoffs, in either order, is pruning at the later |
| Table.PruneConserves | crates/storage/src/repository.rs:168-178 | rows deleted plus created rows left are the created rows there were |
| Table.PruneEmptiesExactlyWhen | crates/storage/src/repository.rs:167-168 | a prune leaves no backup if and only if the latest one is beyond the cutoff |
| Rfc3339.TextOrderIsTimeOrder | crates/storage/src/sqlite_store.rs:146-149 | for years of four digits and any nanoseconds, byte order of the stored text (0, 3, 6 or 9 fraction digits before the offset) is time order |
| Rfc3339.TextOrderIsTimeOrderExactlyWhen | crates/storage/src/sqlite_store.rs:146-149 | over all times: text order is time order if and only if both years have four digits, or both have more and the earlier does not exceed the leading digits of the later |
| Rfc3339.FiveDigitYearSortsFirst | crates/storage/src/sqlite_store.rs:88 | every instant with a longer year sorts before every one with four digits, so the order is then wrong |
| Rfc3339.FractionOrder | crates/storage/src/sqlite_store.rs:65 | the variable-length fraction closed by the offset sorts by its value |
| Rfc3339.Rfc3339RoundTrip | crates/storage/src/sqlite_store.rs:188-192 | reading stored text gives the instant back to the nanosecond, so the fallback to the current time is not taken |
| Rfc3339.DirOrder | crates/storage/src/repository.rs:301-304 | directory names are equal exactly for equal seconds and sort in time order |
| Rfc3339.TextLayout | crates/storage/src/sqlite_store.rs:65 | the stored text is 19 characters of date and time, a point and 3, 6 or 9 digits if needed, and `+00:00` |
| Rfc3339.DateTimeLayout | crates/storage/src/sqlite_store.rs:65 | those 19 characters show year, month, day, hour, minute and second of the instant between their separators |
| Rfc3339.DirLayout | crates/storage/src/repository.rs:301-304 | a directory name is those 19 characters with dashes for colons, and `Z` |
| Rfc3339.DirIsProperChild | crates/storage/src/repository.rs:170-171 | a directory name is not empty, not a dot name, and has no slash |
| Rfc3339.FourDigitYears | crates/storage/src/sqlite_store.rs:65 | the years of four digits are exactly the instants before a fixed bound |
| Calendar.CivilRoundTrip | crates/daemon/src/main.rs:153-154 | breaking an instant into calendar fields and putting it together is the identity |
| Calendar.TimeRoundTrip | crates/daemon/src/main.rs:153-154 | putting calendar fields together and breaking the instant down is the identity |
| Calendar.NextDay | crates/storage/src/repository.rs:301-304 | the days run from 1 January of the year 0 through the months of the Gregorian calendar |
| Calendar.MonthLengths | crates/storage/src/repository.rs:301-304 | the twelve months have their lengths, February by the Gregorian leap rule |
| Calendar.CivilOrder | crates/storage/src/repository.rs:301-304 | comparing calendar fields one after the other is comparing instants |
| Codec.SqliteRoundTrip | crates/storage/src/sqlite_store.rs:163-182 | a row the store wrote reads back as the entry for every current time: neither fallback is taken |
| Codec.PostgresRoundTrip | crates/storage/src/postgres_store.rs:159-179 | a row the store wrote reads back as the entry cut to microseconds |
| Codec.UuidRoundTrip | crates/storage/src/sqlite_store.rs:184-186 | a printed UUID parses to itself, so the nil fallback is not taken |
| Codec.UuidLayout | crates/storage/src/sqlite_store.rs:64 | a printed UUID has its hyphens in four places and lower-case hexadecimal digits elsewhere |
| Codec.FallbacksExactlyWhen | crates/storage/src/sqlite_store.rs:163-192 | a row is refused if and only if its stats do not parse, reads as of the current time if and only if its stamp is unreadable, and has the nil id if and only if its id is no UUID or nil |
| Codec.StatusFilterAgreesExactlyWhen | crates/storage/src/sqlite_store.rs:194-207 | reading a status and the SQL filter agree if and only if the text is `created` or a case variant of `skipped` |
| Codec.StoresAgreeOnCutoffExactlyWhen | crates/storage/src/postgres_store.rs:140-143 | text comparison and microsecond comparison decide alike unless the row precedes the cutoff within one microsecond |
| Codec.SqliteTextsSound | crates/storage/src/sqlite_store.rs:54-79 | the texts the store writes are unique keys, sort by time as bytes, carry the queried columns and read back |
| SqliteStore.SqliteStore.InsertEntry | crates/storage/src/sqlite_store.rs:54-79 | adds exactly the entry, or fails on a duplicate id without effect |
| SqliteStore.SqliteStore.GetBackup | crates/storage/src/sqlite_store.rs:96-109 | the entry inserted under the id, if any |
| SqliteStore.SqliteStore.ListBackups | crates/storage/src/sqlite_store.rs:81-94 | every entry once, newest first |
| SqliteStore.SqliteStore.LastHash | crates/storage/src/sqlite_store.rs:128-139 | the greatest text among created rows belongs to a latest created entry |
| SqliteStore.SqliteStore.PruneCreatedBefore | crates/storage/src/sqlite_store.rs:141-160 | the text SELECT and the DELETE loop leave the abstractly pruned table and return id and directory of exactly the rows deleted |
| SqliteStore.OrderByCorrect | crates/storage/src/sqlite_store.rs:88 | ordering by the text column keeps every row once and puts the newest first |
| PostgresStore.PostgresStore.InsertEntry | crates/storage/src/postgres_store.rs:63-88 | adds exactly the entry, or fails on a duplicate id without effect |
| PostgresStore.PostgresStore.GetBackup | crates/storage/src/postgres_store.rs:102-116 | the entry under the id, cut to microseconds |
| PostgresStore.PostgresStore.PruneCreatedBefore | crates/storage/src/postgres_store.rs:138-156 | deletes exactly the created rows whose microsecond is before the cutoff's and returns them |
| PostgresStore.StoresPruneAlikeExactlyWhen | crates/storage/src/postgres_store.rs:138-156 | both stores leave the same rows if and only if no created row precedes the cutoff within its microsecond |
| PostgresStore.PostgresPruneIsAtWholeMicros | crates/storage/src/postgres_store.rs:138-156 | the Postgres prune is the exact prune at the start of the cutoff's microsecond |
| ConcurrentPrune.LoopIsAtomicAtSelect | crates/storage/src/sqlite_store.rs:145-156 | however inserts of new ids fall between its DELETEs, the loop leaves what one atomic prune at the SELECT followed by the inserts leaves |
| ConcurrentPrune.LoopIsAtomicAtEndExactlyWhen | crates/storage/src/sqlite_store.rs:145-156 | it leaves the table of an atomic prune after the inserts if and only if no inserted row is beyond the cutoff |
| ConcurrentPrune.LoopReportsAsAtEndExactlyWhen | crates/storage/src/sqlite_store.rs:151-159 | it returns the ids that such a prune returns under the same condition |
| ConcurrentPrune.LoopIsPostgresExactlyWhen | crates/storage/src/postgres_store.rs:139-155 | it leaves the rows, and returns the ids, of the one Postgres statement after the inserts if and only if no row precedes the cutoff within its microsecond and no insert is beyond it; for a cutoff of whole microseconds, if and only if no insert is beyond it |
| DeckStatistics.ExtractStats | crates/storage/src/repository.rs:227-269 | success exactly when the tables can be counted and all rows of `decks` convert or the legacy value is an object; as many decks as ids are named, each deck with cards under the name given last for its id or else under its id, the table before the JSON; decks in name order, one for each deck id among the cards, counts adding up to the number of cards |
| DeckStatistics.ParseDeckNamesNew | crates/storage/src/repository.rs:272-281 | the names of all rows, later ones winning; an error if any row does not convert |
| DeckStatistics.ParseDeckNamesLegacy | crates/storage/src/repository.rs:284-299 | the names of the members with a numeric key and a string name; an error only if the value is no object |
| DeckStatistics.SameStatsInEitherSchema | crates/storage/src/repository.rs:234-268 | the same decks and cards give the same statistics, in the same order, from the `decks` table and from the legacy JSON, whatever the order of rows and members and with members that are no decks passed over |
| DeckStatistics.SameStatsFromReorderedJson | crates/storage/src/repository.rs:284-299 | in particular from JSON printed from the same rows and visited in the order of its keys |
| DeckStatistics.SortIsStable | crates/storage/src/repository.rs:260 | decks of equal names keep the order of the query |
| DeckStatistics.GroupsAddUp | crates/storage/src/repository.rs:245-246 | the counts of a grouping by deck add up to the number of cards |
| DeckStatistics.I64RoundTrip | crates/storage/src/repository.rs:291-293 | a printed 64-bit deck id parses to itself |
| DeckStatistics.I64Accepts | crates/storage/src/repository.rs:291-293 | any sign and any leading zeros are read, exactly if the value fits 64 bits |
| DeckStatistics.I64Rejects | crates/storage/src/repository.rs:291-293 | nothing is read without a digit or with anything but digits behind the sign |
| SessionId.SimpleSessionId | crates/sync/src/lib.rs:82-98 | 1 to 6 alphanumeric characters for every 32-bit draw, which for n > 0 read back as n in little-endian base 62 |
| SessionId.IdsCollideExactlyWhen | crates/sync/src/lib.rs:86-97 | two draws have one id if and only if they are equal or are 0 and 52 |
| SessionId.DigitTable | crates/sync/src/lib.rs:84 | the digits are a to z, A to Z and 0 to 9, in this order |
| SyncProtocol.SyncRequest | crates/sync/src/lib.rs:123-202 | one POST, and a second one to the trimmed location exactly after a 3xx reply with a readable location; the answer is the body of the last reply exactly if that is a 2xx, decompressed exactly if it begins with the zstd magic number, with the new base exactly after a second POST |
| SyncProtocol.Transfer | crates/sync/src/lib.rs:265-385 | nothing is sent without credentials; otherwise requests and result follow from the replies alone: the first method without a payload, an unreadable key, or for a download an unreadable or empty meta decides, else the payload of the transfer is the result; it starts at the endpoint configured or the default one |
| SyncProtocol.EverySession | crates/sync/src/lib.rs:265-385 | against any server: at most six POSTs, two a method, in the order hostKey, meta and the transfer asked for, each with its own body; one session id; the login's key after login; a transfer only after a successful and for downloads non-empty meta, starting at meta's redirect base |

## Left out

- HTTP routing, templates, JSON views, bearer and CSRF checks, size formatting: presentation and single-branch guards.
- Tar, zstd, SHA-256, `serde_json`, TOML and SQL text: libraries; they are parameters or tables here.
- Durability after power loss (no fsync in the source) and leap seconds.
- Retention values so large that chrono's duration overflows.
- Configuration, argument parsing, packaging.
- Two daemon processes or `run-once` commands on one root: the model has one process; `PayloadSurvivesExactlyWhen` says what a second creating run in the same second does.
- Repository.BackupDaemon.RunOnce: called as the scheduler calls it, with the hash of its bytes. The hash may be any function of the bytes, but a caller that passes different hashes for the same bytes is not modelled: no recorded hash would then describe its payload.
- Rfc3339.Rfc3339RoundTrip: the parser is modelled on text with the UTC offset, which is all the stores write; other offsets are not read.
- Codec.PostgresRoundTrip: instants are cut downwards, as the driver does from the year 2000 on.
- PostgresStore: listing and the last-hash query are not repeated for Postgres; they are the SQLite ones on another column type.
- SyncProtocol.Transfer: request bodies are parameters; the JSON of login and meta and the compression of bodies are not spelled out.
