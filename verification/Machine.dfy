/**
 The storage engine as a state machine: every interleaving of writers, the background
 worker, `Close`, storage failures, crashes and reopenings.

 A state holds the program's variables, the two layers of the disk (what the running
 system sees, and what a power loss is sure to keep), and a ghost history: `hist` is
 every record applied since the last open, the replayed ones first.
 */
module Machine {
  import opened Basics
  import opened Records
  import opened Wal

  /** How far the writer holding `db.mu` has come. */
  datatype Writer = Free | Applied(rec: Record) | Queued

  datatype Mode = Opening | Running | Stopping

  /** Where the worker (or `Open`, before it starts the worker) is. */
  datatype Pc =
    | Repair
    | RepairSync
    | Select
    | Drain
    | Append
    | SyncLog
    | Complete
    | Snap
    | Files(cap: Colls, at: nat, todo: set<bytes>)
    | DirSync(cap: Colls, at: nat, todo: set<bytes>, name: bytes)
    | TruncSync(cap: Colls, at: nat)
    | Exited

  datatype Log = Log(durable: bytes, visible: bytes)

  /** `syncs` says whether the file system can sync directories; if not, a sync succeeds without effect. */
  datatype Dir = Dir(durable: Colls, visible: Colls, syncs: bool)

  datatype State = State(
    flush: nat,                 // snapshot threshold in log bytes
    // guarded by db.mu
    colls: Colls,
    dirty: set<bytes>,
    closed: bool,
    writer: Writer,
    // guarded by db.logMu; commits are numbered in creation order
    pending: seq<bytes>,
    commit: Option<nat>,
    created: nat,
    results: seq<Status>,       // results[c] is what the waiters of commit c get
    notify: bool,
    stop: bool,
    // the worker
    mode: Mode,
    pc: Pc,
    batch: seq<bytes>,
    err: Status,
    size: nat,
    // the disk
    log: Log,
    dir: Dir,
    // history since the last open
    base: Colls,                // the snapshot files that were loaded
    hist: seq<Record>,
    start: nat,                 // how many records of `hist` were replayed
    tickets: seq<nat>,          // the commit each record issued since waits on
    lo: nat,                    // position of the first record of the visible log
    loD: nat,                   // ... and of the durable log
    logged: nat,                // end of the visible log
    done: nat,                  // records whose commit is closed
    drained: nat,               // records handed to the worker
    safe: nat,                  // records replayed or acknowledged without error
    // history of earlier incarnations
    init: Colls,
    past: seq<Record>,
    pastAcked: seq<bool>,
    kept: bool                  // every crash so far kept the files, in the sense of KeepsFiles
  )

  // ----- Steps -----

  datatype Action =
    | Issue(rec: Record)
    | Enqueue
    | Signal
    | CloseCall
    | CloseStop
    | TakeNotify
    | Tick
    | TakeStop
    | Detach
    | AppendOk
    | AppendFail(kept: nat, e: Error)
    | SyncOk
    | SyncFail(e: Error)
    | Release
    | SnapSkip
    | Capture
    | MarshalFail(e: Error)
    | Replace(name: bytes)
    | FileFail(e: Error)
    | DirSyncOk
    | DirSyncFail(e: Error)
    | Truncate
    | TruncateFail(cut: bool, e: Error)
    | TruncSyncOk
    | TruncSyncFail(e: Error)
    | Cut
    | CutFail(cut: bool, e: Error)
    | CutSyncOk
    | CutSyncFail(e: Error)
    | Reopen(bytesLeft: bytes, filesLeft: Colls, threshold: nat)

  /** Where control goes after `writeLog`. */
  function AfterLog(s: State): Pc {
    if s.mode == Stopping || s.size >= s.flush then Snap else Select
  }

  /** Where control goes after `writeSnapshot` has returned `err`. */
  function PcAfterSnap(mode: Mode, err: Status): Pc {
    if mode == Stopping || (mode == Opening && err.Some?) then Exited else Select
  }

  /** `Open` starts the worker once its snapshot has succeeded. */
  function ModeAfterSnap(mode: Mode, err: Status): Mode {
    if mode == Opening && err == None then Running else mode
  }

  function AfterSnap(s: State, err: Status): State {
    s.(err := err, pc := PcAfterSnap(s.mode, err), mode := ModeAfterSnap(s.mode, err))
  }

  /** `write` or `update` under db.mu: the record is applied before it is logged. */
  ghost predicate IssueStep(s: State, s': State, r: Record) {
    && s.mode != Opening && !s.closed && s.writer == Free && Loggable(r)
    && s' == s.(colls := Apply(s.colls, r),
                dirty := s.dirty + (if Marks(s.colls, r) then {r.coll} else {}),
                hist := s.hist + [r],
                writer := Applied(r))
  }

  ghost predicate EnqueueStep(s: State, s': State) {
    && s.writer.Applied?
    && var c := if s.commit == None then s.created else s.commit.value;
       s' == s.(commit := Some(c),
                created := if s.commit == None then s.created + 1 else s.created,
                pending := s.pending + Lines([s.writer.rec]),
                tickets := s.tickets + [c],
                writer := Queued)
  }

  ghost predicate SignalStep(s: State, s': State) {
    s.writer == Queued && s' == s.(notify := true, writer := Free)
  }

  ghost predicate CloseStep(s: State, s': State) {
    s.mode != Opening && !s.closed && s.writer == Free && s' == s.(closed := true)
  }

  ghost predicate StopStep(s: State, s': State) {
    s.closed && !s.stop && s' == s.(stop := true)
  }

  ghost predicate SelectStep(s: State, s': State, a: Action) {
    && s.pc == Select
    && (match a
        case TakeNotify => s.notify && s' == s.(notify := false, pc := Drain)
        case Tick => s' == s.(pc := Snap)
        case TakeStop => s.stop && s' == s.(mode := Stopping, pc := Drain)
        case _ => false)
  }

  /** The critical section at the top of `writeLog`. */
  ghost predicate DetachStep(s: State, s': State) {
    && s.pc == Drain
    && if s.commit == None then
         s' == s.(pending := [], pc := AfterLog(s))
       else
         s' == s.(pending := [], commit := None, batch := s.pending,
                  drained := s.drained + |s.pending|,
                  pc := if s.err == None && |s.pending| > 0 then Append else Complete)
  }

  ghost predicate AppendStep(s: State, s': State, a: Action) {
    && s.pc == Append
    && var buf := JoinLines(s.batch);
       (match a
        case AppendOk =>
          s' == s.(log := s.log.(visible := s.log.visible + buf), logged := s.drained, pc := SyncLog)
        case AppendFail(kept, e) =>
          && kept <= |buf|
          && s' == s.(log := s.log.(visible := s.log.visible + buf[..kept]), err := Some(e), pc := Complete)
        case _ => false)
  }

  ghost predicate SyncStep(s: State, s': State, a: Action) {
    && s.pc == SyncLog
    && (match a
        case SyncOk =>
          s' == s.(log := s.log.(durable := s.log.visible), size := s.size + |JoinLines(s.batch)|, pc := Complete)
        case SyncFail(e) => s' == s.(err := Some(e), pc := Complete)
        case _ => false)
  }

  /** `commit.err = err; close(commit.done)`. */
  ghost predicate ReleaseStep(s: State, s': State) {
    && s.pc == Complete
    && s' == s.(results := s.results + [s.err],
                done := s.drained,
                safe := if s.err == None then s.drained else s.safe,
                batch := [],
                pc := AfterLog(s))
  }

  ghost predicate NothingToDo(s: State) { s.dirty == {} && s.size == 0 }

  ghost predicate SnapStep(s: State, s': State, a: Action) {
    && s.pc == Snap
    && (match a
        case SnapSkip =>
          && (s.err.Some? || (s.writer == Free && NothingToDo(s)))
          && s' == AfterSnap(s, s.err)
        case Capture =>
          && s.err == None && s.writer == Free && !NothingToDo(s)
          && s' == s.(dirty := {}, pc := Files(s.colls, |s.hist|, s.dirty))
        case MarshalFail(e) =>
          && s.err == None && s.writer == Free && !NothingToDo(s)
          && s' == AfterSnap(s.(dirty := {}), Some(e))
        case _ => false)
  }

  /** One snapshot file is replaced, or removed if its collection was dropped. */
  ghost predicate FileStep(s: State, s': State, a: Action) {
    && s.pc.Files?
    && s.pc.todo != {}
    && (match a
        case Replace(n) =>
          && n in s.pc.todo
          && var present := n in s.pc.cap || n in s.dir.visible;
             s' == s.(dir := if present then s.dir.(visible := PutSlot(s.dir.visible, n, Slot(s.pc.cap, n))) else s.dir,
                      pc := if present then DirSync(s.pc.cap, s.pc.at, s.pc.todo, n)
                            else Files(s.pc.cap, s.pc.at, s.pc.todo - {n}))
        case FileFail(e) => s' == AfterSnap(s, Some(e))
        case _ => false)
  }

  ghost predicate DirSyncStep(s: State, s': State, a: Action) {
    && s.pc.DirSync?
    && (match a
        case DirSyncOk =>
          s' == s.(dir := s.dir.(durable := if s.dir.syncs then s.dir.visible else s.dir.durable),
                   pc := Files(s.pc.cap, s.pc.at, s.pc.todo - {s.pc.name}))
        case DirSyncFail(e) => s' == AfterSnap(s, Some(e))
        case _ => false)
  }

  ghost predicate TruncateStep(s: State, s': State, a: Action) {
    && s.pc.Files?
    && s.pc.todo == {}
    && (match a
        case Truncate =>
          s' == s.(log := s.log.(visible := []), lo := s.logged, pc := TruncSync(s.pc.cap, s.pc.at))
        case TruncateFail(cut, e) =>
          s' == AfterSnap(s.(log := if cut then s.log.(visible := []) else s.log,
                             lo := if cut then s.logged else s.lo),
                          Some(e))
        case _ => false)
  }

  ghost predicate TruncSyncStep(s: State, s': State, a: Action) {
    && s.pc.TruncSync?
    && (match a
        case TruncSyncOk =>
          s' == AfterSnap(s.(log := s.log.(durable := s.log.visible), loD := s.lo, size := 0), None)
        case TruncSyncFail(e) => s' == AfterSnap(s, Some(e))
        case _ => false)
  }

  /** The end of `replayLog`: the torn tail is cut off before anything is appended. */
  ghost predicate CutStep(s: State, s': State, a: Action) {
    && s.pc == Repair
    && var p := ParseLog(s.log.visible);
       && p.Parsed? && p.size <= |s.log.visible|
       && var short := s.log.(visible := s.log.visible[..p.size]);
          (match a
           case Cut =>
             if p.size < |s.log.visible| then s' == s.(log := short, pc := RepairSync)
             else s' == s.(size := p.size, pc := Snap)
           case CutFail(cut, e) =>
             && p.size < |s.log.visible|
             && s' == s.(log := if cut then short else s.log, err := Some(e), pc := Exited)
           case _ => false)
  }

  ghost predicate CutSyncStep(s: State, s': State, a: Action) {
    && s.pc == RepairSync
    && (match a
        case CutSyncOk =>
          s' == s.(log := s.log.(durable := s.log.visible), size := |s.log.visible|, pc := Snap)
        case CutSyncFail(e) => s' == s.(err := Some(e), pc := Exited)
        case _ => false)
  }

  /** What a crash may leave of the log: all synced bytes and any prefix of the unsynced ones. */
  ghost predicate CanLeaveLog(log: Log, d: bytes) {
    d == log.durable || d == log.visible || (log.durable <= d <= log.visible)
  }

  /** What a crash may leave of the files: each name as it was synced, or as it was last seen. */
  ghost predicate CanLeaveDir(dir: Dir, fs: Colls) {
    forall n :: Slot(fs, n) == Slot(dir.durable, n) || Slot(fs, n) == Slot(dir.visible, n)
  }

  /**
   Directory syncs are effective, or the crash stopped only the process, which leaves the
   files as they were seen.
   */
  ghost predicate KeepsFiles(dir: Dir, fs: Colls) {
    dir.syncs || fs == dir.visible
  }

  /** The collections `Open` rebuilds from a log with parsable lines. */
  function Recover(d: bytes, fs: Colls): Colls
    requires ParseLog(d).Parsed?
  {
    Replay(fs, ParseLog(d).recs)
  }

  /** The state in which `Open` has loaded the files and replayed the log. */
  function Opened(flush: nat, d: bytes, fs: Colls, syncs: bool, init: Colls, past: seq<Record>, pastAcked: seq<bool>,
                  kept: bool): State
    requires ParseLog(d).Parsed?
  {
    var recs := ParseLog(d).recs;
    var n := |recs|;
    State(flush, Recover(d, fs), Dirtied(fs, recs), false, Free, [], None, 0, [], false, false,
          Opening, Repair, [], None, 0, Log(d, d), Dir(fs, fs, syncs),
          fs, recs, n, [], 0, 0, n, n, n, n, init, past, pastAcked, kept)
  }

  /** Which of the records issued since the last open were acknowledged. */
  function AckedNow(s: State): seq<bool>
    requires s.start <= |s.hist|
  {
    seq(|s.hist| - s.start, i => s.start + i < s.safe)
  }

  /** A crash at any moment, or a close, followed by the next `Open`, with its own options, up to the end of replay. */
  ghost predicate ReopenStep(s: State, s': State, d: bytes, fs: Colls, flush: nat) {
    && flush > 0
    && CanLeaveLog(s.log, d) && CanLeaveDir(s.dir, fs)
    && ParseLog(d).Parsed?
    && s.start <= |s.hist|
    && s' == Opened(flush, d, fs, s.dir.syncs, s.init, s.past + s.hist[s.start..], s.pastAcked + AckedNow(s),
                    s.kept && KeepsFiles(s.dir, fs))
  }

  ghost predicate Step(s: State, s': State, a: Action) {
    match a
    case Issue(r) => IssueStep(s, s', r)
    case Enqueue => EnqueueStep(s, s')
    case Signal => SignalStep(s, s')
    case CloseCall => CloseStep(s, s')
    case CloseStop => StopStep(s, s')
    case TakeNotify => SelectStep(s, s', a)
    case Tick => SelectStep(s, s', a)
    case TakeStop => SelectStep(s, s', a)
    case Detach => DetachStep(s, s')
    case AppendOk => AppendStep(s, s', a)
    case AppendFail(_, _) => AppendStep(s, s', a)
    case SyncOk => SyncStep(s, s', a)
    case SyncFail(_) => SyncStep(s, s', a)
    case Release => ReleaseStep(s, s')
    case SnapSkip => SnapStep(s, s', a)
    case Capture => SnapStep(s, s', a)
    case MarshalFail(_) => SnapStep(s, s', a)
    case Replace(_) => FileStep(s, s', a)
    case FileFail(_) => FileStep(s, s', a)
    case DirSyncOk => DirSyncStep(s, s', a)
    case DirSyncFail(_) => DirSyncStep(s, s', a)
    case Truncate => TruncateStep(s, s', a)
    case TruncateFail(_, _) => TruncateStep(s, s', a)
    case TruncSyncOk => TruncSyncStep(s, s', a)
    case TruncSyncFail(_) => TruncSyncStep(s, s', a)
    case Cut => CutStep(s, s', a)
    case CutFail(_, _) => CutStep(s, s', a)
    case CutSyncOk => CutSyncStep(s, s', a)
    case CutSyncFail(_) => CutSyncStep(s, s', a)
    case Reopen(d, fs, flush) => ReopenStep(s, s', d, fs, flush)
  }

  ghost predicate Next(s: State, s': State) {
    exists a :: Step(s, s', a)
  }

  /** The first open of a directory that holds snapshot files and an empty log. */
  ghost predicate Init(s: State) {
    && s.flush > 0
    && ParseLog([]).Parsed?
    && s == Opened(s.flush, [], s.init, s.dir.syncs, s.init, [], [], true)
  }

  ghost predicate Run(tr: seq<State>) {
    && tr != []
    && Init(tr[0])
    && forall i :: 0 < i < |tr| ==> Next(tr[i - 1], tr[i])
  }

  ghost predicate Reachable(s: State) {
    exists tr :: Run(tr) && tr[|tr| - 1] == s
  }

  lemma ReachableNext(s: State, s': State, a: Action)
    requires Reachable(s) && Step(s, s', a)
    ensures Reachable(s')
  {
    hide Step;
    var tr :| Run(tr) && tr[|tr| - 1] == s;
    var more := tr + [s'];
    forall i | 0 < i < |more| ensures Next(more[i - 1], more[i]) {
      if i < |tr| {
        assert Next(tr[i - 1], tr[i]);
      }
    }
    assert Run(more) && more[|more| - 1] == s';
  }
}
