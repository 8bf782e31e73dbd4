# A verified model of medb's storage engine

medb keeps collections of JSON documents in memory. Every change is applied to memory,
queued as a line of a write-ahead log, and written by one background worker that appends a
whole queue at a time and syncs once (group commit). From time to time the worker writes a
snapshot: it rewrites the files of the collections that changed, removes the files of dropped
ones, and empties the log. Opening a database loads the files, replays the log, repairs a torn
last line and writes a snapshot before anything else runs. The first storage error stops all
further writing.

This project models that engine, the file-system operations under it, the server's credential
bootstrap and its JSON escape scanner, and proves what they promise.

`dafny verify dfyconfig.toml` checks everything.

## How the model is built

| file | contents |
|---|---|
| `Basics.dfy` | bytes, options, error values |
| `Records.dfy` | log records, `apply`, replay, and the algebra of last-writer-wins |
| `Codec.dfy` | the record encoding: UTF-8, JSON string escaping, round trip |
| `Names.dfy` | the grammar of collection names and the paths they map to |
| `Grammar.dfy` | what that encoding is, said without the functions that read it: UTF-8, string bodies, record lines |
| `Wal.dfy` | the log as bytes: encoding, parsing, torn tails |
| `Machine.dfy` | the engine as a state machine over all interleavings, failures and crashes |
| `Invariants.dfy`, `Preservation.dfy` | its invariant, and that every step keeps it |
| `Durability.dfy` | crash durability, recovery, fail-stop, clean close, log size |
| `Liveness.dfy` | group commit: one outcome each, no lost wakeup, no stuck worker |
| `Witness.dfy` | runs that show what is *not* promised |
| `Blocked.dfy` | a collection that cannot be saved, and what that does to its database |
| `Runs.dfy` | runs of one process, and what writers may do between two steps of the worker |
| `LineQueue.dfy`, `Storage.dfy` | the double buffer, commits, the log file, the snapshot files |
| `Engine.dfy` | the database object, method by method |
| `Directories.dfy`, `AtomicFiles.dfy`, `SnapFiles.dfy` | `mkdirAll` and `WriteFileAtomic` as file-system steps, and the two composed |
| `Auth.dfy` | `initializeAuth`, `authenticate`, `hasActiveAdmin`, `recoverAuth` |
| `JsonUnicode.dfy` | `validJSONUnicode` and `parseHex4` |

The engine is described twice. `Machine` is a relation between whole states: the program's
variables, a disk with a visible and a durable layer, and a ghost history of every applied
record. Writers, the worker, `Close`, storage failures, crashes and reopenings are separate
steps, so a theorem about reachable states covers every interleaving and every crash point.
`Engine.DB` is an object whose methods update real fields, arrays and files in the order the
program does. Its ghost field `sys` takes the matching machine steps, and `Valid()` says that
the fields are the variables of a reachable machine state; every theorem about reachable
states is thereby a theorem about the object. Between two of its own actions the worker lets
others run (`Engine.DB.Interfere`, of which callers see only the contract), because writers
keep queuing while the worker writes.

Fault model. A crash keeps all synced log bytes and any byte prefix of the unsynced ones, and
settles each unsynced rename, removal or truncation one way or the other; what recovery then
sees is durable. Any storage call may fail, a failing write may leave a prefix, a failing
truncation may or may not have cut. Only one process has the directory open. Every object that
stands for storage carries a ghost list, `errors`, of the errors its failed calls have returned.
An operation's error is tied to that list: it reports nothing while no call has failed, and when
one has, it reports that call's error and no other.

Directory syncs carry a flag, `syncs`, in the machine, in `Storage.SnapDir` and in the
file-system models: on a file system that cannot sync directories `SyncDir` returns nil without
effect, and so does the model. What the engine promises about crashes is stated under
`Machine.KeepsFiles`: directories can be synced, or the crash stopped only the process, so the
files are as they were seen. That condition is needed (`Witness.CrashProofIffSynced`). Everything
that is not about crashes holds with and without it.

## What is proved

- **Crash durability** (`Durability.CrashDurability`, `Durability.SurvivesCrashes`,
  `Engine.DB.AcknowledgedSurvives`). At every moment of every run, whatever a crash leaves under
  the fault model, opening reports no corruption, and every document and every collection's
  existence has the value it had at some moment not before the last acknowledged write; through
  any number of crashes an acknowledged write is lost only to a later write of the same document
  or collection.
- **The central invariant** (`Durability.CentralInvariant`). While no error has occurred, also in
  the middle of an append or a snapshot, the files replayed with the log and everything still on
  its way to the log give exactly the collections in memory.
- **Recovery** gives exactly the history up to the end of the surviving log if and only if the
  files agree with that point in every cell the log does not rewrite, in particular when no file
  is ahead of the log (`Durability.ExactRecovery`). It is restartable (`Durability.RecoveryRestarts`,
  `Durability.QuietRunsKeepCollections`) and exact after a clean close (`Durability.CleanClose`).
- **Fail-stop** (`Durability.FailStop`), **acknowledged prefix** (`Durability.AcknowledgedPrefix`),
  a **bounded log** (`Durability.LogBound`) and **group commit** that releases everyone once, within
  four steps of the woken worker (`Liveness.ReleasedInFourSteps`).
- **Torn tails** (`Wal.TornTail`, `Wal.NoGluing`) down to bytes, over a concrete record codec
  whose round trip is proved, and the reading of **any** file at all (`Wal.ParseMeans`): which files
  are read whole, as what, and which line of the others is reported for which fault.
- **Progress of the worker** (`Engine.DB.RunWorker`). A case of `select` that is ready is taken: a
  signalled drain gives every queued write its outcome, a stop ends the worker. Success is reported
  exactly when no storage call has failed.
- **Atomic files and durable directories** (`AtomicFiles.WriteFileAtomic`, `Directories.MkdirAll`,
  and the two together in `SnapFiles.Save`).
- **A resumable bootstrap** (`Auth.BootstrapResumes`) and a **scanner** that accepts exactly
  well-formed UTF-16 (`JsonUnicode.ValidJsonUnicode`).

## What is not true of the code, and when it is

- Document IDs are documented as "any string". An ID comes back from the log unchanged exactly
  when it is valid UTF-8 (`Codec.RecordRoundTrip`); otherwise the JSON encoder replaces the bad
  bytes and the document returns under another ID (`Codec.InvalidIdIsRenamed`). The engine's
  methods take valid UTF-8 IDs.
- A crash can recover a state the database as a whole never had, once a snapshot has captured
  records that are not acknowledged: in the middle of the snapshot (`Witness.NotAWholePrefix`), and
  also after it, until those records are acknowledged (`Witness.NotAWholePrefixLater`, in the middle
  of an append, with every file synced and no error). `Durability.PrefixRecovery` gives the exact
  condition for recovering any state of the history: there is a position at which every cell the
  surviving log writes has its last logged value and every other cell is as in the files. Two guards
  that suffice: every record is acknowledged (`Durability.QuiescentRecovery`), or every record the
  files hold is (`Durability.AcknowledgedFilesAreExact`).
- `mkdirAll` does not always leave a durable path: if an earlier call created a directory and its
  sync failed, a later call finds the directory and syncs nothing (`Directories.VisibleIsNotDurable`
  gives the failed call and what the next one finds).
  After success the path survives a crash exactly when the part that already existed did.
- A name such as `lock/x` passes the name check, but its directory is where the lock file is
  (`Names.LockClash`: the valid names that clash with one of the database's own files are exactly
  those that start with `lock/`). Its file can never be saved (`SnapFiles.SaveBelowLock`). A write to
  it is nevertheless accepted. From then on the log is not emptied past that write
  (`Blocked.WriteStaysInLog`); once it is acknowledged, whatever ends the process, the next `Open`
  cannot return (`Blocked.AcknowledgedLocksOut`), and neither can any later one
  (`Blocked.NeverOpens`).
- A write that was reported as failed may still be recovered (`Witness.FailedWriteReturns`: one
  crash of the same state brings it back and another does not). A write that nobody overwrites is
  part of the recovered history of its document if and only if the surviving log ends after it, or
  the surviving file is from after it and no older line of the log is replayed over it
  (`Durability.WriteComesBack`).
- Where directories cannot be synced, `SyncDir` reports success and the log is emptied although
  the rename of a snapshot file may still be undone: a power loss can lose an acknowledged write
  (`Witness.UnsyncedRenameLoses`). Power losses are survived in every reachable state if and only
  if directories can be synced (`Witness.CrashProofIffSynced`).
- `recoverAuth` draws a user ID unused by any user, but not unused by any token. An old token starts
  to work if and only if it is valid, unexpired and names the drawn ID, and then as an
  administrator's (`Auth.RecoverAuth`; `Auth.OldTokenRevives` gives a store for every such token).

## Model

| member | source | states |
|---|---|---|
| Records.ReplayCell | wal.go:138-162 | replay is last-writer-wins on every document and on every collection's existence, for any starting state and any records, unknown operations included |
| Records.CellsDetermine | wal.go:138-162 | collections that agree on every document and on which collections exist, empty ones included, are equal |
| Records.Absorption | wal.go:138-162 | replaying P, Q, P equals replaying Q, P, for all P, Q and states: re-logging captured records is harmless |
| Records.SuffixReplay | wal.go:138-162 | replaying the end of a log a second time changes nothing |
| Records.LastWriteIs | wal.go:138-162 | a write that no later record touches is the value replay gives |
| Records.MarksExactly | wal.go:148-161 | a delete or drop marks its collection dirty if and only if it changes anything |
| Records.UnmarkedSlot | wal.go:138-162 | a collection that a record does not mark dirty is exactly as before |
| Records.DirtiedSound | wal.go:138-162 | a collection that a whole replay does not mark dirty is exactly as its file |
| Records.ReplayOverFile | snapshot.go:44-65 | a log replayed over a file taken at any later or earlier history position gives each cell its value at the end of the log, or at the file's position when the file is ahead |
| Codec.StringRoundTrip | wal.go:131-136 | an escaped string reads back as its UTF-8 sanitized self, whatever follows it |
| Codec.RecordDecodes | wal.go:131-136 | what any encoded record decodes to: the same operation and document, strings with invalid UTF-8 replaced |
| Codec.RecordRoundTrip | wal.go:131-136 | a record comes back unchanged if and only if its strings are valid UTF-8 |
| Codec.InvalidIdIsRenamed | collection.go:22-24 | a concrete ID, documented as allowed, that comes back as another ID |
| Codec.RecordHasNoNewline | wal.go:70-72 | an encoded record never holds a raw newline, so a newline ends a record |
| Codec.EscapeIsSafe | wal.go:131-136 | whatever the string, what is written for it holds no control byte and none of `<`, `>` and `&` |
| Grammar.Utf8Means | cmd/medb/auth.go:95-98 | a byte string is valid UTF-8 if and only if it is a concatenation of encoded scalar values |
| Grammar.HexValueMeans | cmd/medb/protocol.go:206-215 | the value of a byte is n if and only if it is the n-th hexadecimal digit in lower or upper case |
| Grammar.Hex4Means | cmd/medb/protocol.go:203-217 | four digits give a number if and only if they are its base-16 digits, most significant first |
| Grammar.StringMeans | wal.go:100-103 | a string body is read, and as which value, if and only if it is a sequence of plain bytes, two-byte escapes and escaped scalar values up to the first bare quote |
| Grammar.LineMeans | wal.go:100-103 | a line decodes to a record if and only if it is the object of its operation, collection, optional ID and optional document |
| Grammar.EncodedLayout | wal.go:131-136 | the exact line of a record whose strings need no escapes; empty IDs and documents are left out |
| Names.CheckName | medb.go:306-325 | accepts exactly the names of at most 240 bytes that are nonempty segments of `a-z0-9_-` between single slashes |
| Names.CheckCollectionName | cmd/medb/protocol.go:267-286 | the server's copy accepts exactly the same names |
| Names.PathsDisjoint | medb.go:297-304 | all valid names map injectively to snapshot paths, which no temporary file, log or lock file shares, nor any directory a snapshot lies in |
| Names.LockClash | medb.go:148-151 | a valid name needs a directory where the lock file or the log is if and only if it starts with `lock/`; `lock/x` is such a name |
| Wal.OperationsLoggable | collection.go:54-70 | the records of set, delete and drop on valid names and IDs survive the log |
| Wal.ParseShape | wal.go:94-112 | a file that is an encoded log and a newline-free tail parses as exactly those records and their length |
| Wal.PrefixShape | wal.go:92-98 | every byte prefix of a log, torn or not, is the records whose newline survived and a newline-free tail |
| Wal.TornTail | wal.go:92-121 | replay of a log cut at any byte reads exactly the records whose newline survived, and their exact length |
| Wal.NoGluing | wal.go:113-121 | after the tail is cut, later appends parse as the surviving records followed by the new ones |
| Wal.ParseSize | wal.go:94-113 | for arbitrary file contents, a successful parse stops just after the last newline, with one record a line |
| Wal.ParseTurn | wal.go:95-112 | one turn of the replay loop, with the 1-based number of a corrupt record |
| Wal.SplitLog | wal.go:94-99 | every file is complete lines and a tail without a newline |
| Wal.ParseMeans | wal.go:92-112 | for arbitrary bytes: the file is read whole if and only if every complete line decodes to a record with a valid name and, for a set, a document, and then as exactly these records in order; otherwise the first bad line and the test it fails are reported |
| LineQueues.LineQueue.Add | wal.go:50 | appending a line, in place or into a grown array, extends the pending lines and leaves the in-flight batch alone |
| LineQueues.LineQueue.Swap | wal.go:61-62 | a drain takes every pending line atomically, and new lines go to the other array |
| LineQueues.LineQueue.ClearBatch | wal.go:83 | clearing the finished batch does not touch the pending lines |
| LineQueues.LineQueue.Join | wal.go:69-73 | the buffer written is the batch's lines in order, each with its newline |
| Engine.DB.CloseCommit | wal.go:81-82 | closing the commit of the batch, which is not closed yet, leaves exactly one more commit closed, with that result |
| Preservation.InvIssue | medb.go:244-249 | applying a record before it is logged keeps the invariant at every moment of a snapshot or an append |
| Preservation.InvEnqueue | wal.go:44-57 | joining or opening a commit and queuing the line keeps the invariant |
| Preservation.InvDetach | wal.go:59-67 | taking the queue keeps the invariant, also with no commit open and after an error |
| Preservation.InvAppend | wal.go:74 | a complete or partial append keeps the invariant |
| Preservation.InvSync | wal.go:74-79 | a successful or failed sync keeps the invariant |
| Preservation.InvRelease | wal.go:81-84 | closing a commit keeps the invariant |
| Preservation.InvSnap | snapshot.go:16-42 | skipping, capturing, or failing to marshal keeps the invariant |
| Preservation.InvFile | snapshot.go:44-57 | replacing or removing one file, in any order, keeps the invariant |
| Preservation.InvTruncate | snapshot.go:58-60 | emptying the log once the captured files are written keeps the invariant, although the capture may hold records that are not logged yet |
| Preservation.InvTruncSync | snapshot.go:61-65 | so does syncing the empty log, or failing to |
| Preservation.InvCut | wal.go:113-119 | so does cutting off a torn tail, or failing to |
| Preservation.InvReopen | medb.go:175-180 | loading and replaying whatever a crash left re-establishes the invariant |
| Preservation.ReachableInv | medb.go:129-288 | the invariant holds in every reachable state |
| Preservation.CrashLog | fault_test.go:193-204 | whatever a crash leaves of the log is the records from its start to some position not before the last acknowledged one |
| Preservation.CrashCell | snapshot.go:44-66 | after a crash and replay each cell has its value at one history position not before the last acknowledged one |
| Durability.CrashDurability | snapshot.go:15-66 | at every moment of every run, whatever a crash leaves, with effective directory syncs or of the process only: no corruption is reported, and every cell has the value of some moment not before the last acknowledged write |
| Durability.AcknowledgedWriteSurvives | wal.go:59-85 | an acknowledged write that no later record touches is there after any crash |
| Durability.SurvivesCrashes | medb.go:175-183 | through any number of such crashes and reopenings an acknowledged write is lost only to a later write of the same cell |
| Durability.AcknowledgedPrefix | wal.go:81-84 | acknowledged records are exactly a prefix of the issued ones in apply order, and all others already resolved got the storage error |
| Durability.QuiescentRecovery | medb.go:175-180 | with every record acknowledged, any crash recovers exactly the collections in memory |
| Durability.RecoveryRestarts | medb.go:175-183 | a crash anywhere inside `Open` does not change what the next `Open` rebuilds |
| Durability.QuietRunsKeepCollections | medb.go:175-183 | any number of interrupted and complete opens and snapshots keeps the collections of one uninterrupted open |
| Durability.CentralInvariant | wal.go:44-85 | with no error so far, files plus log plus in-flight batch plus pending lines replay to the collections in memory, in every reachable state |
| Durability.DirtySetSound | snapshot.go:20-41 | outside a snapshot, a collection not marked dirty has a file equal to it, absent if and only if it is absent; synced where directories can be |
| Durability.SkippedSnapshotLosesNothing | snapshot.go:20-23 | when the snapshot is skipped the files already are the collections, synced where directories can be, and the log is empty |
| Durability.ExactRecovery | wal.go:87-123 | recovery is exactly the history up to the end of the surviving log if and only if every cell that log does not write has its value at that point in the files; in particular when no file is ahead of it |
| Durability.PrefixRecovery | wal.go:87-123 | for every position, recovery is exactly the history up to it if and only if log and files agree at it; so recovery is a state of the history if and only if there is such a position; the range of the surviving log is pinned down |
| Durability.AcknowledgedFilesAreExact | snapshot.go:44-65 | when every record the files hold is acknowledged, any crash recovers a state of the history, not before the last acknowledged record |
| Durability.FailStop | medb.go:272-287 | after the first storage error, for the rest of the process, no byte of log or files changes, and every later commit gets that same error |
| Durability.CloseWritesEverything | medb.go:282-285 | a worker that stops without error leaves an empty synced log and files equal to the collections, synced where directories can be |
| Durability.CleanClose | medb.go:193-216 | after a clean close every record is acknowledged and the next open yields exactly the final collections |
| Durability.LogSize | medb.go:274-279 | with no error `size` is the log's length outside an append or truncation and is below `flushBytes` at every loop head |
| Durability.LogBound | medb.go:274-279 | at every moment of a process the log file is within `flushBytes` plus one batch the worker has taken, or no longer than at the start; from the worker's start on always the former, also during a snapshot and after a failed append |
| Durability.RecoveredCell | wal.go:87-123 | a recovered cell is what the surviving log last wrote, or else what its file holds |
| Durability.WriteComesBack | wal.go:74-82 | for a write, acknowledged or not, that nobody overwrites: by the end of the surviving log and the position of the surviving file, exactly when it is part of what its document recovers to |
| Liveness.NoLostWakeup | wal.go:52-56 | a record whose waiter is not released is in the worker's hands, or a token is set, or its writer is about to signal |
| Liveness.DrainThenRelease | wal.go:59-84 | a drain takes every queued record, and closing the commit resolves every drained one |
| Liveness.TicketsInOrder | wal.go:44-51 | records are grouped into commits in apply order |
| Liveness.OneOutcome | wal.go:81-82 | a waiter that was told an outcome is never told another |
| Liveness.CloseReleasesEveryone | medb.go:282-285 | when the stopping worker exits, also after an error, every record has an outcome, and success if there was no error |
| Liveness.WorkerAdvances | medb.go:273-287 | every step of a busy worker, failing or not, brings it closer to `select`, and nobody else moves it |
| Liveness.WorkerCanMove | medb.go:273-287 | a busy worker always has a step to take once the lock is free |
| Liveness.SelectCanDrain | medb.go:274-276 | at `select` with a waiter outstanding the notify case is ready |
| Liveness.TripReleasesWaiters | medb.go:275-279 | one trip from a drain back to `select` releases everyone who was waiting, whatever fails on the way |
| Liveness.ReleasedInFourSteps | wal.go:59-85 | from any reachable state in which the worker has taken `notify` or `stop`, every waiter of that moment has its outcome within four of the worker's own steps, whatever fails and whatever writers do |
| Witness.NotAWholePrefix | snapshot.go:44-60 | a reachable state and a crash of it after which no history position gives the recovered collections |
| Witness.NotAWholePrefixLater | snapshot.go:58-65 | the same with no snapshot under way, all files synced and no error: the snapshot captured records whose lines are only now being appended |
| Witness.FailedWriteReturns | wal.go:74-82 | for any sync error, a reachable state whose write was reported as failed, a crash that recovers it and one that does not |
| Witness.UnsyncedRenameLoses | internal/fsutil/fsutil.go:80-95 | a reachable state, on a file system that cannot sync directories, in which a crash loses an acknowledged write |
| Witness.CrashProofIffSynced | internal/fsutil/fsutil.go:80-95 | no crash of any reachable state goes back before the last acknowledged write, if and only if directories can be synced |
| Runs.NobodyDuringOpen | medb.go:175-188 | nobody else can change anything before `Open` returns |
| Runs.OthersKeepWorker | wal.go:44-57 | writers and `Close` change nothing of the worker's own variables or the disk, and only extend history and queue |
| Runs.ProcessRunGrows | medb.go:268-288 | over any run of a process resolved records stay resolved, queued ones stay queued, and a stop is not taken back |
| Runs.NobodyWaits | wal.go:53-56 | at `select` without a wakeup token every queued record has its outcome |
| Engine.DB.Apply | wal.go:138-162 | the in-place update of collections and dirty set is the record's effect |
| Engine.DB.CurrentCommit | wal.go:46-49 | the open commit is joined, or a new one becomes the newest |
| Engine.DB.Enqueue | wal.go:44-57 | the line is queued last, waits on the newest open commit, and a token is left |
| Engine.DB.Write | medb.go:239-253 | a write on a closed database is refused and changes nothing; any other is applied, entered in the history, queued, and waits on an open commit |
| Engine.DB.Get | medb.go:255-266 | a read returns the last write to the document in apply order, or what was loaded, or not found |
| Engine.DB.Acknowledged | wal.go:18-21 | a waiter's commit is closed with success if and only if its record is among the acknowledged ones |
| Engine.DB.AcknowledgedSurvives | wal.go:18-21 | a caller told success finds its write after any crash of the fault model, unless a later record overwrote it |
| Engine.DB.Set | collection.go:54-63 | error order: too large, closed; otherwise the document is written |
| Engine.DB.Delete | collection.go:68-70 | error or delete, with the whole effect |
| Engine.DB.Drop | medb.go:234-237 | error or drop, with the whole effect |
| Engine.DB.Update | collection.go:89-123 | read-modify-write in one critical section: the callback's result replaces the document it was given; closed, missing, the callback's error and too large are each reported in their own case, and change nothing |
| Engine.DB.DetachBatch | wal.go:59-67 | the critical section takes queue and commit together and records them as the batch |
| Engine.DB.AppendBatch | wal.go:68-74 | one write of the whole batch, while writers may queue more; it fails if and only if the write does |
| Engine.DB.SyncBatch | wal.go:74-79 | the sync, and `size` grown by the buffer only after it; it fails if and only if the sync does |
| Engine.DB.ReleaseNow | wal.go:81-83 | the batch's commit, and no other, is closed with the batch's error |
| Engine.DB.LogBatch | wal.go:68-84 | write, sync and close: the batch's commit gets the error of the call that failed, or nil if none did, which is also returned |
| Engine.DB.WriteLog | wal.go:59-85 | everything queued before the call has an outcome after it; with no earlier error and no failing call it returns nil and all of it is durable, else the failing call's error; an earlier error is kept |
| Engine.SplitDirty | snapshot.go:24-41 | the dirty names are split exactly into captured contents and dropped collections, or a marshalling has failed and its error is returned |
| Engine.DB.CaptureDirty | snapshot.go:19-42 | the capture matches the collections of that moment and the dirty set starts empty |
| Engine.DB.SaveColl | snapshot.go:45-51 | one captured file is replaced and its directory synced, or the snapshot fails |
| Engine.DB.RemoveColl | snapshot.go:68-79 | one dropped file is removed and its directory synced; a missing file is success |
| Engine.DB.SaveAll | snapshot.go:44-52 | afterwards only the dropped names are left to do |
| Engine.DB.RemoveAll | snapshot.go:53-57 | afterwards nothing is left to do |
| Engine.DB.EmptyLog | snapshot.go:58-60 | the log is truncated only once all files are done |
| Engine.DB.SyncEmptyLog | snapshot.go:61-65 | the truncation is synced before `size` becomes 0 |
| Engine.DB.WriteSnapshot | snapshot.go:15-66 | a run of machine steps from the start of a snapshot to its return; an earlier error touches nothing; otherwise it returns nil, with `size` 0, if and only if no call failed, and else that call's error |
| Engine.DB.RunWorker | medb.go:268-288 | for every sequence of choices the loop is a run of the machine in which a ready case is taken: after a signal everything queued has its outcome, after a stop the worker has drained, snapshotted, recorded the error and exited; the loop-carried error is nil if and only if no storage call failed |
| Engine.DB.DrainTurn | medb.go:275-279 | a drain resolves everything queued and is followed by a snapshot when `size` has reached the threshold, so that without error `size` ends below it; the error is carried through |
| Engine.DB.LastTurn | medb.go:282-285 | the last drain and snapshot, whose error `Close` will report |
| Engine.DB.RequestClose | medb.go:193-202 | the first close stops new writes and signals the worker; a second returns ErrClosed and changes nothing |
| Engine.DB.FinishClose | medb.go:203-216 | reports the storage error, else that of the file that could not be closed, else nil; nil only if the log is empty and the files are the final collections, synced where directories can be |
| Engine.DB.Load | snapshot.go:81-105 | the collections become exactly the snapshot files |
| Engine.DB.ReplayRecords | wal.go:94-112 | the replay loop computes exactly the parse of the file: collections, dirty set and size, or the first corrupt line |
| Engine.DB.CutTail | wal.go:113-122 | the file is cut to exactly the parsed size and synced, and `size` is that length |
| Engine.Open | medb.go:129-188 | bad options and corrupt logs touch nothing on disk; otherwise it fails if and only if a storage call does, with that error, leaving a disk that recovers to the same collections; a returned database has the given options, is running, open and idle, and holds exactly what the disk recovers to |
| Directories.FirstExisting | internal/fsutil/fsutil.go:20-33 | the longest existing part of the path: everything below it is missing |
| Directories.SurvivesMeans | internal/fsutil/fsutil.go:38-44 | a path survives every crash if and only if each step of it is a directory both as synced and as seen |
| Directories.MissingParents | internal/fsutil/fsutil.go:17-33 | the upward scan stops at the first existing ancestor with the parents of all missing entries; it ends at the root |
| Directories.SyncParents | internal/fsutil/fsutil.go:38-44 | every created entry becomes durable, parents synced from the top down, or the error of the call that failed is returned |
| Directories.MkdirAll | internal/fsutil/fsutil.go:17-46 | it fails if and only if a call does, with that error; on success the path exists, exactly the parents of created entries were synced in order, and it survives a crash if and only if the first existing ancestor did; a file on the way is an error; nothing that survived before stops surviving, even on failure |
| Directories.VisibleIsNotDurable | internal/fsutil/fsutil.go:20-43 | for every path: from a fully synced tree, a call that creates the path and fails to sync leaves a state in which the next call finds the path, would create and sync nothing, and a crash loses it |
| Directories.FileSystem.SyncDir | internal/fsutil/fsutil.go:75-95 | it fails if and only if a call does for another reason than that directories cannot be synced; success makes the directory's entries durable, or the file system cannot sync directories and nothing changed |
| AtomicFiles.MayLeaveMeans | internal/fsutil/fsutil.go:48-69 | what a crash may leave of the target is what it holds in some directory version since the last sync |
| AtomicFiles.CrashKeepsGood | internal/fsutil/fsutil.go:48-53 | after any crash, a leftover temporary file included, the next replacement may start |
| AtomicFiles.WriteTmp | internal/fsutil/fsutil.go:48-64 | creating, writing, syncing and closing the temporary file never changes what a crash leaves of the target |
| AtomicFiles.WriteFileAtomic | internal/fsutil/fsutil.go:48-69 | a crash after any system call leaves old contents or the complete new ones; it fails if and only if a call does; after success only the new contents are left, and no temporary file |
| SnapFiles.Save | snapshot.go:44-52 | directories and file together: a crash leaves what it could have left before or exactly the new data, whatever fails; it fails if and only if a call does; after success with effective syncs and durable existing directories exactly the new data |
| SnapFiles.RenameAndSync | snapshot.go:49-51 | the ways in which the engine's view of a file may change when it is saved: not at all, seen but not synced, or both |
| SnapFiles.SaveRefines | snapshot.go:44-52 | the real system calls change what a reader sees and what a crash may leave in one of those same ways |
| SnapFiles.SaveBelowLock | medb.go:148-151 | with the lock file in place, saving a collection below `lock/` fails, leaves the file as it was and the lock file in place |
| Blocked.AcknowledgedBlocks | wal.go:59-85 | an acknowledged write to a collection that is still in the log is in what any crash leaves of the log |
| Blocked.IssuedIsInLog | medb.go:244-249 | a write to a collection marks it for saving before the log can be emptied past the write, also when a snapshot is under way |
| Blocked.WriteStaysInLog | snapshot.go:44-65 | for the rest of the process, while that file is not saved, the log is not emptied past the write |
| Blocked.AcknowledgedLocksOut | medb.go:175-183 | once such a write is acknowledged, whatever ends the process and whatever a crash leaves, the next open is stuck on that file |
| Blocked.OpenIsStuck | medb.go:175-183 | an open that reads such a log has the collection still to save |
| Blocked.NeverOpens | medb.go:175-183 | through any number of attempts and crashes, as long as that file is not saved, `Open` does not return |
| Auth.Least | collection.go:155 | the next ID in ascending order |
| Auth.AuthStore.Authenticate | cmd/medb/auth.go:205-226 | grants r if and only if the token is well formed, its record decodes and is valid, it has no expiry or the time is before it, and the user it names decodes, is valid, is not disabled and has role r |
| Auth.AuthStore.HasActiveAdmin | cmd/medb/auth.go:228-254 | true if and only if some record with all those properties, for role admin, sorts before every undecodable record; error only if there is such a record |
| Auth.AuthStore.IsAdminToken | cmd/medb/auth.go:235-251 | one turn of the scan: the record is valid and unexpired, and its user is valid, enabled and an administrator |
| Auth.LessMeans | collection.go:155 | the order of the scan: a proper prefix comes first, else the first difference decides |
| Auth.EnsureToken | cmd/medb/auth.go:296-317 | writes exactly the initial token into a blank store, or accepts only the one an earlier run wrote; refusals change nothing |
| Auth.EnsureAdmin | cmd/medb/auth.go:319-336 | the same for the administrator |
| Auth.CheckInitialized | cmd/medb/auth.go:257-276 | with a marker the server starts exactly if the marker is valid and the scan finds an administrator |
| Auth.InitializeAuth | cmd/medb/auth.go:256-345 | for every store and input: rejections change nothing; a run without marker is rejected exactly if the inputs are inadmissible or the store is not a stage of this bootstrap, and interrupted exactly if a write failed; written records are never changed; success is the complete state, with exactly the stated records |
| Auth.BootstrapResumes | cmd/medb/auth.go:256-345 | from a blank store, any number of runs cut off at any write with the same token and name is never rejected, and the next run that returns nil ends in the complete state |
| Auth.CompleteGrants | cmd/medb/auth.go:206-226 | after the bootstrap the initial token, and no other, is an administrator's at every time |
| Auth.PartialGrants | cmd/medb/auth.go:256-345 | before completion nothing but the initial token is granted anything, and that only once its administrator is written |
| Auth.CompleteIsRunning | cmd/medb/auth.go:228-254 | after the bootstrap the start-up check succeeds at every time |
| Auth.ChecksAgree | cmd/medb/auth.go:205-254 | the start-up scan succeeds if and only if some token, presented to `authenticate`, is an administrator's with no undecodable record before its ID; where all records decode, any administrator's token |
| Auth.RecoverAuth | cmd/medb/auth.go:415-453 | exactly three records are written, in order, and it fails exactly if a write does; after success the new token is an administrator's at every time, and another credential newly works if and only if it was stored, valid and unexpired, naming the drawn ID; however far it comes, no working credential changes |
| Auth.OldTokenRevives | cmd/medb/auth.go:393-400 | for every two IDs a store whose token grants nothing, names an ID unused by users, and so starts to work |
| JsonUnicode.ParseHex4 | cmd/medb/protocol.go:199-218 | succeeds exactly on four hexadecimal digits in bounds; the shifts compute their base-16 value |
| JsonUnicode.ScanLoop | cmd/medb/protocol.go:150-197 | the loop stays in bounds, ends, and decides the scan of the whole input |
| JsonUnicode.TextItems | cmd/medb/protocol.go:150-197 | accepted input splits into bytes outside strings and closed strings of well-formed UTF-16 |
| JsonUnicode.TextScans | cmd/medb/protocol.go:150-197 | every such text is accepted |
| JsonUnicode.ValidJsonUnicode | cmd/medb/protocol.go:150-197 | accepts exactly the texts that split that way |

## Left out

- The HTTP server, handlers, flags, environment parsing and logging: input and output with one-branch properties.
- The lock package: one process per directory is an assumption of the fault model.
- Goroutine scheduling and the ticker: interleavings are nondeterministic steps, and each critical section is one step; `Engine.DB.RunWorker` takes the choices of `select` as a parameter.
- `Close` waiting for the worker: modelled as `Engine.DB.RequestClose`, the worker's stop branch and `Engine.DB.FinishClose`; closing the log and the lock file has no effect but the error it may return.
- Engine.Open: creating the directory, opening the log and taking the lock come before the modelled part, and a snapshot file that cannot be read or decoded is not modelled.
- Engine.DB.Write: requires a record that survives the log, so valid UTF-8 IDs (see above).
- Engine.DB.Set: requires valid UTF-8 IDs, because other IDs do not survive the log (see above).
- Engine.DB.Delete: requires valid UTF-8 IDs, for the same reason.
- Engine.DB.Update: requires valid UTF-8 IDs, for the same reason; decoding and encoding the document are part of the callback, and a callback's panic is not modelled.
- The bytes of a snapshot file: a file is an optional collection; `SnapFiles.SaveRefines` proves of the composed file-system calls what `Storage.SnapDir` takes for granted of one file, and the engine's object calls `Storage.SnapDir`.
- Engine.DB.Load: unreadable snapshot files, and files whose names are not valid collection names, are not modelled.
- Engine.DB.ReplayRecords: reads lines with the decoder of `Codec`, so lines in another JSON layout count as corrupt here.
- Wal.ParseSize: the same restriction of the decoder.
- Wal.ParseTurn: the same restriction of the decoder.
- Wal.ParseMeans: the same restriction of the decoder.
- Grammar.LineMeans: the same restriction, and bytes of a hand-edited log that are not valid UTF-8 are kept as they are.
- Grammar.StringMeans: an escape of a surrogate is refused here, because the encoder writes none.
- The decoder of `Codec` reads the layout that the encoder writes, with all JSON string escapes, and takes documents as opaque bytes; other JSON layouts of a hand-edited log are not modelled.
- A killed process followed by a later power loss that undoes a rename which recovery already saw.
- Token and ID generation, SHA-256, base64 and time parsing: token IDs come from a function that yields 64 hexadecimal digits, generated IDs are parameters, timestamps are integers or unparsable.
- Reading the initial token from the environment or a file: a parameter of `Auth.InitializeAuth`.
- Auth.CompleteGrants: speaks of token IDs; that different tokens have different IDs is a property of SHA-256.
- Directories.MkdirAll: takes a cleaned path as the list of its components; permissions are not modelled.
- `roleAllows`, the other record readers of `cmd/medb/protocol.go`, `Has`, `Count`, `Collections`: one-line properties. `All` appears only as the ordered scan of `Auth.AuthStore.HasActiveAdmin`.
- `bench/`: measurement only.
