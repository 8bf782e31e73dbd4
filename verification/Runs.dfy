/** Runs of one process between two states, and the part of them that is not the worker's. */
module Runs {
  import opened Basics
  import opened Records
  import opened Wal
  import opened Machine
  import opened Invariants
  import opened Preservation
  import opened Durability
  import opened Liveness

  /** `t` is reached from `s` without a crash. */
  ghost predicate ProcessRun(s: State, t: State) {
    exists tr :: IsProcessRun(tr, s, t)
  }

  ghost predicate IsProcessRun(tr: seq<State>, s: State, t: State) {
    && tr != [] && tr[0] == s && tr[|tr| - 1] == t
    && forall i :: 0 < i < |tr| ==> ProcessStep(tr[i - 1], tr[i])
  }

  lemma RunRefl(s: State)
    ensures ProcessRun(s, s)
  {
    assert IsProcessRun([s], s, s);
  }

  lemma RunTrans(s: State, t: State, u: State)
    requires ProcessRun(s, t) && ProcessRun(t, u)
    ensures ProcessRun(s, u)
  {
    hide ProcessStep;
    var a :| IsProcessRun(a, s, t);
    var b :| IsProcessRun(b, t, u);
    var tr := a + b[1..];
    forall i | 0 < i < |tr| ensures ProcessStep(tr[i - 1], tr[i]) {
      if i >= |a| {
        assert tr[i] == b[i - |a| + 1];
        assert tr[i - 1] == b[i - |a|];
      }
    }
    assert IsProcessRun(tr, s, u);
  }

  /** One more step of the process. */
  lemma Advance(s: State, t: State, u: State, a: Action)
    requires ProcessRun(s, t) && Reachable(t) && Step(t, u, a) && !a.Reopen?
    ensures ProcessRun(s, u) && Reachable(u)
  {
    hide Step, Reachable, ProcessRun;
    ReachableNext(t, u, a);
    assert ProcessStep(t, u);
    OneStepRun(t, u);
    RunTrans(s, t, u);
  }

  lemma OneStepRun(t: State, u: State)
    requires ProcessStep(t, u)
    ensures ProcessRun(t, u)
  {
    hide ProcessStep;
    assert IsProcessRun([t, u], t, u);
  }

  // ----- What writers and `Close` may do while the worker is between two of its own steps -----

  ghost predicate OthersStep(s: State, s': State) {
    exists a: Action :: ByOthers(a) && Step(s, s', a)
  }

  ghost predicate IsOthersRun(tr: seq<State>, s: State, t: State) {
    && tr != [] && tr[0] == s && tr[|tr| - 1] == t
    && forall i :: 0 < i < |tr| ==> OthersStep(tr[i - 1], tr[i])
  }

  ghost predicate OthersRun(s: State, t: State) {
    exists tr :: IsOthersRun(tr, s, t)
  }

  /** The worker's own variables and the disk are out of the others' reach. */
  ghost predicate WorkerKept(s: State, t: State) {
    && t.flush == s.flush && t.pc == s.pc && t.mode == s.mode && t.batch == s.batch && t.err == s.err
      && t.size == s.size
    && t.log == s.log && t.dir == s.dir && t.results == s.results
    && t.base == s.base && t.start == s.start && t.lo == s.lo && t.loD == s.loD
    && t.logged == s.logged && t.done == s.done && t.drained == s.drained && t.safe == s.safe
    && s.hist <= t.hist && s.pending <= t.pending
  }

  lemma OthersKeepWorker(s: State, t: State)
    requires OthersRun(s, t)
    ensures WorkerKept(s, t)
  {
    hide OthersStep;
    var tr :| IsOthersRun(tr, s, t);
    for i := 1 to |tr|
      invariant WorkerKept(s, tr[i - 1])
    {
      assert OthersStep(tr[i - 1], tr[i]);
      OthersStepKeepsWorker(tr[i - 1], tr[i]);
    }
  }

  lemma OthersStepKeepsWorker(s: State, s': State)
    requires OthersStep(s, s')
    ensures WorkerKept(s, s')
  {
    hide WorkerKept, IssueStep, EnqueueStep, SignalStep, CloseStep, StopStep;
    var a: Action :| ByOthers(a) && Step(s, s', a);
    match a
    case Issue(r) => IssueKeepsWorker(s, s', r);
    case Enqueue => EnqueueKeepsWorker(s, s');
    case _ => ControlKeepsWorker(s, s');
  }

  lemma IssueKeepsWorker(s: State, s': State, r: Record)
    requires IssueStep(s, s', r)
    ensures WorkerKept(s, s')
  {
    hide Loggable, Apply, Marks;
  }

  lemma EnqueueKeepsWorker(s: State, s': State)
    requires EnqueueStep(s, s')
    ensures WorkerKept(s, s')
  {
    hide Lines;
  }

  lemma ControlKeepsWorker(s: State, s': State)
    requires SignalStep(s, s') || CloseStep(s, s') || StopStep(s, s')
    ensures WorkerKept(s, s')
  {}

  /** Nobody else has the database before `Open` returns. */
  lemma NobodyDuringOpen(s: State, t: State)
    requires Reachable(s) && s.mode == Opening && OthersRun(s, t)
    ensures t == s
  {
    hide OthersStep, Reachable;
    var tr :| IsOthersRun(tr, s, t);
    for i := 1 to |tr|
      invariant tr[i - 1] == s
    {
      assert OthersStep(tr[i - 1], tr[i]);
      NobodyStepsDuringOpen(tr[i - 1], tr[i]);
    }
  }

  lemma NobodyStepsDuringOpen(s: State, t: State)
    requires Reachable(s) && s.mode == Opening
    ensures !OthersStep(s, t)
  {
    assert !s.closed && s.writer == Free by {
      hide Reachable, LogSafe, FilesSafe, Survives, Exact, Replay, AllLoggable, At, Queue, Tickets, Bounds;
      ReachableInv(s);
    }
    hide Reachable, Loggable, Apply, Marks, Lines;
  }

  lemma OthersRefl(s: State)
    ensures OthersRun(s, s)
  {
    assert IsOthersRun([s], s, s);
  }

  lemma OthersAreProcess(s: State, t: State, u: State)
    requires ProcessRun(s, t) && Reachable(t) && OthersRun(t, u)
    ensures ProcessRun(s, u) && Reachable(u)
  {
    hide Step, Reachable, ProcessRun;
    var tr :| IsOthersRun(tr, t, u);
    for i := 1 to |tr|
      invariant ProcessRun(s, tr[i - 1]) && Reachable(tr[i - 1])
    {
      assert OthersStep(tr[i - 1], tr[i]);
      var a: Action :| ByOthers(a) && Step(tr[i - 1], tr[i], a);
      Advance(s, tr[i - 1], tr[i], a);
    }
  }

  lemma OthersAdvance(s: State, t: State, u: State, a: Action)
    requires OthersRun(s, t) && ByOthers(a) && Step(t, u, a)
    ensures OthersRun(s, u)
  {
    hide Step;
    var tr :| IsOthersRun(tr, s, t);
    var more := tr + [u];
    assert OthersStep(t, u);
    forall i | 0 < i < |more| ensures OthersStep(more[i - 1], more[i]) {
      if i < |tr| {
        assert OthersStep(tr[i - 1], tr[i]);
      }
    }
    assert IsOthersRun(more, s, u);
  }

  /** Numbering of commits: the closed ones, then the batch in flight, then the one still open for writers. */
  lemma CommitNumbers(s: State)
    requires Reachable(s)
    ensures s.created == |s.results| + (if HasBatch(s.pc) then 1 else 0) + (if s.commit.Some? then 1 else 0)
    ensures s.commit.Some? ==> s.commit.value == s.created - 1
    ensures s.commit.Some? <==> s.pending != []
    ensures HasBatch(s.pc) <==> s.batch != []
    ensures |s.pending| == Entered(s) - s.drained
  {
    hide Reachable, LogSafe, FilesSafe, Survives, Exact, Replay, AllLoggable, At, TicketOk;
    ReachableInv(s);
  }

  /** The state after `enqueue` has put the applied record's line in the queue and signalled. */
  ghost function Enqueued(s: State): State
    requires s.writer.Applied?
  {
    var c := if s.commit == None then s.created else s.commit.value;
    s.(commit := Some(c), created := if s.commit == None then s.created + 1 else s.created,
       pending := s.pending + Lines([s.writer.rec]), tickets := s.tickets + [c], notify := true, writer := Free)
  }

  lemma EnqueuedIs(s: State)
    requires s.writer.Applied?
    ensures
      var t := Enqueued(s);
      && t.flush == s.flush && t.colls == s.colls && t.dirty == s.dirty && t.closed == s.closed && t.size == s.size
      && t.stop == s.stop && t.batch == s.batch && t.log == s.log && t.dir == s.dir
      && t.notify && t.writer == Free && t.results == s.results && t.pc == s.pc
      && t.created == (if s.commit == None then s.created + 1 else s.created)
      && t.commit == Some(if s.commit == None then s.created else s.commit.value)
      && t.pending == s.pending + Lines([s.writer.rec]) && t.tickets == s.tickets + [t.commit.value]
  {
    hide Lines;
  }

  lemma EnqueueRun(s: State)
    requires Reachable(s) && s.writer.Applied?
    ensures OthersRun(s, Enqueued(s)) && Reachable(Enqueued(s))
  {
    hide Reachable, OthersRun, Lines;
    var c := if s.commit == None then s.created else s.commit.value;
    var s1 := s.(commit := Some(c), created := if s.commit == None then s.created + 1 else s.created,
                 pending := s.pending + Lines([s.writer.rec]), tickets := s.tickets + [c], writer := Queued);
    OthersRefl(s);
    OthersAdvance(s, s, s1, Action.Enqueue);
    ReachableNext(s, s1, Action.Enqueue);
    OthersAdvance(s, s1, Enqueued(s), Signal);
    ReachableNext(s1, Enqueued(s), Signal);
  }

  /** The state after a writer has applied `r` and before it enqueues its line. */
  ghost function Issued(s: State, r: Record): State {
    s.(colls := Apply(s.colls, r), dirty := s.dirty + (if Marks(s.colls, r) then {r.coll} else {}),
       hist := s.hist + [r], writer := Applied(r))
  }

  lemma IssueRun(s: State, r: Record)
    requires Reachable(s) && s.mode != Opening && !s.closed && s.writer == Free && Loggable(r)
    ensures Reachable(Issued(s, r)) && OthersRun(s, Issued(s, r))
  {
    hide Reachable, OthersRun, Loggable, Apply, Marks;
    ReachableNext(s, Issued(s, r), Issue(r));
    OthersRefl(s);
    OthersAdvance(s, s, Issued(s, r), Issue(r));
  }

  lemma OthersTrans(s: State, t: State, u: State)
    requires OthersRun(s, t) && OthersRun(t, u)
    ensures OthersRun(s, u)
  {
    hide OthersStep;
    var a :| IsOthersRun(a, s, t);
    var b :| IsOthersRun(b, t, u);
    var tr := a + b[1..];
    forall i | 0 < i < |tr| ensures OthersStep(tr[i - 1], tr[i]) {
      if i >= |a| {
        assert tr[i] == b[i - |a| + 1];
        assert tr[i - 1] == b[i - |a|];
      }
    }
    assert IsOthersRun(tr, s, u);
  }

  // ----- The worker's steps as state transformers -----

  /** Nothing that the database object holds in memory differs, except perhaps `size`. */
  ghost predicate SameMemory(s: State, t: State) {
    && t.flush == s.flush && t.colls == s.colls && t.dirty == s.dirty && t.closed == s.closed && t.writer == s.writer
    && t.pending == s.pending && t.batch == s.batch && t.notify == s.notify && t.stop == s.stop
    && t.commit == s.commit && t.created == s.created && t.results == s.results
  }

  ghost function Detached(s: State): State {
    s.(pending := [], commit := None, batch := if s.commit.Some? then s.pending else s.batch,
       drained := if s.commit.Some? then s.drained + |s.pending| else s.drained,
       pc := if s.commit == None then AfterLog(s) else if s.err == None && |s.pending| > 0 then Append else Complete)
  }

  lemma DetachRun(s: State)
    requires Reachable(s) && s.pc == Drain
    ensures ProcessRun(s, Detached(s)) && Reachable(Detached(s))
    ensures Detached(s).drained == Entered(s)
    ensures s.commit.Some? && s.err == None ==> Detached(s).pc == Append
  {
    hide Reachable, ProcessRun;
    CommitNumbers(s);
    RunRefl(s);
    Advance(s, s, Detached(s), Detach);
  }

  /** `kept` bytes of the batch reached the file; `err` is what Write returned. */
  ghost function Appended(s: State, kept: nat, err: Status): State
    requires kept <= |JoinLines(s.batch)|
  {
    s.(log := s.log.(visible := s.log.visible + JoinLines(s.batch)[..kept]), err := err,
       logged := if err == None then s.drained else s.logged, pc := if err == None then SyncLog else Complete)
  }

  lemma AppendRun(s0: State, s: State, kept: nat, err: Status)
    requires ProcessRun(s0, s) && Reachable(s) && s.pc == Append && s.err == None
    requires kept <= |JoinLines(s.batch)| && (err == None ==> kept == |JoinLines(s.batch)|)
    ensures ProcessRun(s0, Appended(s, kept, err)) && Reachable(Appended(s, kept, err))
    ensures
      var t := Appended(s, kept, err);
      && SameMemory(s, t) && t.size == s.size && t.dir == s.dir && t.drained == s.drained && t.mode == s.mode
      && t.log == Log(s.log.durable, s.log.visible + JoinLines(s.batch)[..kept])
      && t.err == err && t.pc == if err == None then SyncLog else Complete
  {
    hide Reachable, ProcessRun, JoinLines;
    var buf := JoinLines(s.batch);
    assert buf[..|buf|] == buf;
    match err
    case None => Advance(s0, s, Appended(s, kept, err), AppendOk);
    case Some(e) => Advance(s0, s, Appended(s, kept, err), AppendFail(kept, e));
  }

  ghost function Synced(s: State, err: Status): State {
    s.(log := s.log.(durable := if err == None then s.log.visible else s.log.durable), err := err,
       size := if err == None then s.size + |JoinLines(s.batch)| else s.size, pc := Complete)
  }

  lemma SyncRun(s0: State, s: State, err: Status)
    requires ProcessRun(s0, s) && Reachable(s) && s.pc == SyncLog && s.err == None
    ensures ProcessRun(s0, Synced(s, err)) && Reachable(Synced(s, err))
    ensures SameMemory(s, Synced(s, err)) && Synced(s, err).dir == s.dir && Synced(s, err).drained == s.drained
  {
    hide Reachable, ProcessRun, JoinLines;
    match err
    case None => Advance(s0, s, Synced(s, err), SyncOk);
    case Some(e) => Advance(s0, s, Synced(s, err), SyncFail(e));
  }

  ghost function Released(s: State): State {
    s.(results := s.results + [s.err], done := s.drained, safe := if s.err == None then s.drained else s.safe,
       batch := [], pc := AfterLog(s))
  }

  lemma ReleaseRun(s0: State, s: State)
    requires ProcessRun(s0, s) && Reachable(s) && s.pc == Complete
    ensures ProcessRun(s0, Released(s)) && Reachable(Released(s))
  {
    hide Reachable, ProcessRun;
    Advance(s0, s, Released(s), Release);
  }

  lemma NoErrorAllSafe(s: State)
    requires Reachable(s)
    ensures s.err == None ==> s.safe == s.done
    ensures !HasBatch(s.pc) ==> s.done == s.drained
    ensures s.pc.Append? || s.pc.SyncLog? || s.pc.Files? || s.pc.DirSync? || s.pc.TruncSync? ==> s.err == None
  {
    hide Reachable, LogSafe, FilesSafe, Survives, Exact, Replay, AllLoggable, At, Queue, Tickets;
    ReachableInv(s);
  }

  lemma SafeInHistory(s: State)
    requires Reachable(s)
    ensures s.safe <= |s.hist|
  {
    hide Reachable, LogSafe, FilesSafe, Survives, Exact, Replay, AllLoggable, At, Queue, Tickets, Control;
    ReachableInv(s);
  }

  lemma SkipRun(s0: State, s: State)
    requires ProcessRun(s0, s) && Reachable(s) && s.pc == Snap
    requires s.err.Some? || (s.writer == Free && NothingToDo(s))
    ensures ProcessRun(s0, AfterSnap(s, s.err)) && Reachable(AfterSnap(s, s.err))
  {
    hide Reachable, ProcessRun;
    Advance(s0, s, AfterSnap(s, s.err), SnapSkip);
  }

  /** The end of a snapshot changes control only. */
  lemma AfterSnapIs(s: State, err: Status)
    ensures
      var t := AfterSnap(s, err);
      && SameMemory(s, t) && t.size == s.size && t.log == s.log && t.dir == s.dir
      && t.err == err && t.pc == PcAfterSnap(s.mode, err) && t.mode == ModeAfterSnap(s.mode, err)
  {}

  ghost function Captured(s: State): State {
    s.(dirty := {}, pc := Files(s.colls, |s.hist|, s.dirty))
  }

  lemma CaptureRun(s0: State, s: State)
    requires ProcessRun(s0, s) && Reachable(s) && s.pc == Snap && s.err == None && s.writer == Free && !NothingToDo(s)
    ensures ProcessRun(s0, Captured(s)) && Reachable(Captured(s))
  {
    hide Reachable, ProcessRun;
    Advance(s0, s, Captured(s), Capture);
  }

  ghost function Uncaptured(s: State, e: Error): State {
    AfterSnap(s.(dirty := {}), Some(e))
  }

  lemma MarshalFailRun(s0: State, s: State, e: Error)
    requires ProcessRun(s0, s) && Reachable(s) && s.pc == Snap && s.err == None && s.writer == Free && !NothingToDo(s)
    ensures ProcessRun(s0, Uncaptured(s, e)) && Reachable(Uncaptured(s, e))
  {
    hide Reachable, ProcessRun;
    Advance(s0, s, Uncaptured(s, e), MarshalFail(e));
  }

  /** Whether it succeeds or not, the capture changes no variable that a field mirrors, except the dirty set. */
  lemma CapturedIs(s: State, err: Status)
    ensures
      var t := if err == None then Captured(s) else Uncaptured(s, err.value);
      && SameMemory(s.(dirty := {}), t) && t.dirty == {} && t.size == s.size && t.log == s.log && t.dir == s.dir
  {}

  ghost function Replaced(s: State, n: bytes): State
    requires s.pc.Files?
  {
    var present := n in s.pc.cap || n in s.dir.visible;
    s.(dir := if present then s.dir.(visible := PutSlot(s.dir.visible, n, Slot(s.pc.cap, n))) else s.dir,
       pc := if present then DirSync(s.pc.cap, s.pc.at, s.pc.todo, n) else Files(s.pc.cap, s.pc.at, s.pc.todo - {n}))
  }

  lemma ReplaceRun(s0: State, s: State, n: bytes)
    requires ProcessRun(s0, s) && Reachable(s) && s.pc.Files? && n in s.pc.todo
    ensures ProcessRun(s0, Replaced(s, n)) && Reachable(Replaced(s, n))
    ensures SameMemory(s, Replaced(s, n)) && Replaced(s, n).log == s.log && Replaced(s, n).size == s.size
    ensures Replaced(s, n).mode == s.mode && Replaced(s, n).dir.durable == s.dir.durable
    ensures Replaced(s, n).dir.syncs == s.dir.syncs
    ensures
      if n in s.pc.cap || n in s.dir.visible then
        && Replaced(s, n).pc == DirSync(s.pc.cap, s.pc.at, s.pc.todo, n)
        && Replaced(s, n).dir.visible ==
             (if n in s.pc.cap then s.dir.visible[n := s.pc.cap[n]] else s.dir.visible - {n})
      else
        && Replaced(s, n).pc == Files(s.pc.cap, s.pc.at, s.pc.todo - {n})
        && Replaced(s, n).dir == s.dir
  {
    hide Reachable, ProcessRun;
    Advance(s0, s, Replaced(s, n), Action.Replace(n));
  }

  /** A captured collection that still exists: its file is replaced by its new contents. */
  lemma SaveRun(s0: State, s: State, n: bytes)
    requires ProcessRun(s0, s) && Reachable(s) && s.pc.Files? && n in s.pc.todo && n in s.pc.cap
    ensures ProcessRun(s0, Replaced(s, n)) && Reachable(Replaced(s, n))
    ensures
      var t := Replaced(s, n);
      && SameMemory(s, t) && t.log == s.log && t.size == s.size && t.mode == s.mode
      && t.dir == s.dir.(visible := s.dir.visible[n := s.pc.cap[n]])
      && t.pc == DirSync(s.pc.cap, s.pc.at, s.pc.todo, n)
  {
    hide Reachable, ProcessRun, Replaced;
    ReplaceRun(s0, s, n);
  }

  lemma FileFailRun(s0: State, s: State, e: Error)
    requires ProcessRun(s0, s) && Reachable(s) && s.pc.Files? && s.pc.todo != {}
    ensures ProcessRun(s0, AfterSnap(s, Some(e))) && Reachable(AfterSnap(s, Some(e)))
  {
    hide Reachable, ProcessRun;
    Advance(s0, s, AfterSnap(s, Some(e)), FileFail(e));
  }

  ghost function DirSynced(s: State): State
    requires s.pc.DirSync?
  {
    s.(dir := s.dir.(durable := if s.dir.syncs then s.dir.visible else s.dir.durable),
       pc := Files(s.pc.cap, s.pc.at, s.pc.todo - {s.pc.name}))
  }

  lemma DirSyncedIs(s: State)
    requires s.pc.DirSync?
    ensures
      var t := DirSynced(s);
      && SameMemory(s, t) && t.size == s.size && t.log == s.log && t.mode == s.mode
      && t.dir == s.dir.(durable := if s.dir.syncs then s.dir.visible else s.dir.durable)
      && t.pc == Files(s.pc.cap, s.pc.at, s.pc.todo - {s.pc.name})
  {}

  lemma DirSyncRun(s0: State, s: State, err: Status)
    requires ProcessRun(s0, s) && Reachable(s) && s.pc.DirSync?
    ensures err == None ==> ProcessRun(s0, DirSynced(s)) && Reachable(DirSynced(s))
    ensures err.Some? ==> ProcessRun(s0, AfterSnap(s, err)) && Reachable(AfterSnap(s, err))
  {
    hide Reachable, ProcessRun;
    match err
    case None => Advance(s0, s, DirSynced(s), DirSyncOk);
    case Some(e) => Advance(s0, s, AfterSnap(s, err), DirSyncFail(e));
  }

  ghost function Emptied(s: State, cut: bool): State {
    s.(log := if cut then s.log.(visible := []) else s.log, lo := if cut then s.logged else s.lo)
  }

  lemma EmptiedIs(s: State, cut: bool)
    ensures
      var t := Emptied(s, cut);
      && SameMemory(s, t) && t.size == s.size && t.dir == s.dir && t.mode == s.mode && t.pc == s.pc && t.err == s.err
      && t.log == Log(s.log.durable, if cut then [] else s.log.visible)
  {}

  lemma TruncateRun(s0: State, s: State, cut: bool, err: Status)
    requires ProcessRun(s0, s) && Reachable(s) && s.pc.Files? && s.pc.todo == {} && (err == None ==> cut)
    ensures
      var t := Emptied(s, true).(pc := TruncSync(s.pc.cap, s.pc.at));
      err == None ==> ProcessRun(s0, t) && Reachable(t)
    ensures err.Some? ==> ProcessRun(s0, AfterSnap(Emptied(s, cut), err)) && Reachable(AfterSnap(Emptied(s, cut), err))
  {
    hide Reachable, ProcessRun;
    match err
    case None => Advance(s0, s, Emptied(s, true).(pc := TruncSync(s.pc.cap, s.pc.at)), Action.Truncate);
    case Some(e) => Advance(s0, s, AfterSnap(Emptied(s, cut), err), TruncateFail(cut, e));
  }

  ghost function Reset(s: State): State {
    s.(log := s.log.(durable := s.log.visible), loD := s.lo, size := 0)
  }

  lemma ResetIs(s: State)
    ensures
      var t := Reset(s);
      && SameMemory(s, t) && t.size == 0 && t.dir == s.dir && t.mode == s.mode
      && t.log == Log(s.log.visible, s.log.visible)
  {}

  lemma TruncSyncRun(s0: State, s: State, err: Status)
    requires ProcessRun(s0, s) && Reachable(s) && s.pc.TruncSync?
    ensures err == None ==> ProcessRun(s0, AfterSnap(Reset(s), None)) && Reachable(AfterSnap(Reset(s), None))
    ensures err.Some? ==> ProcessRun(s0, AfterSnap(s, err)) && Reachable(AfterSnap(s, err))
  {
    hide Reachable, ProcessRun;
    match err
    case None => Advance(s0, s, AfterSnap(Reset(s), None), TruncSyncOk);
    case Some(e) => Advance(s0, s, AfterSnap(s, err), TruncSyncFail(e));
  }

  // ----- Opening -----

  /** The disk `d`, `fs` is what the process in state `before` may have left. */
  ghost predicate LeftBy(before: State, d: bytes, fs: Colls) {
    Reachable(before) && CanLeaveLog(before.log, d) && CanLeaveDir(before.dir, fs)
  }

  ghost function Reopened(before: State, d: bytes, fs: Colls, flush: nat): State
    requires ParseLog(d).Parsed? && before.start <= |before.hist|
  {
    Opened(flush, d, fs, before.dir.syncs, before.init, before.past + before.hist[before.start..],
           before.pastAcked + AckedNow(before), before.kept && KeepsFiles(before.dir, fs))
  }

  lemma ReopenRun(before: State, d: bytes, fs: Colls, flush: nat)
    requires LeftBy(before, d, fs) && ParseLog(d).Parsed? && flush > 0
    ensures before.start <= |before.hist|
    ensures Reachable(Reopened(before, d, fs, flush))
  {
    hide Reachable, Inv, CanLeaveDir, CanLeaveLog, KeepsFiles, ParseLog, Opened;
    ReachableInv(before);
    MemoryIsHistory(before);
    ReachableNext(before, Reopened(before, d, fs, flush), Reopen(d, fs, flush));
  }

  /** The torn tail has been cut off, or the attempt failed. */
  ghost function Shortened(s: State, n: nat, cut: bool, err: Status): State
    requires n <= |s.log.visible|
  {
    s.(log := if cut then s.log.(visible := s.log.visible[..n]) else s.log, err := err,
       pc := if err == None then RepairSync else Exited)
  }

  lemma ShortenedIs(s: State, n: nat, cut: bool, err: Status)
    requires n <= |s.log.visible|
    ensures
      var t := Shortened(s, n, cut, err);
      && SameMemory(s, t) && t.size == s.size && t.dir == s.dir && t.mode == s.mode && t.err == err
      && t.log == Log(s.log.durable, if cut then s.log.visible[..n] else s.log.visible)
      && t.pc == (if err == None then RepairSync else Exited)
  {}

  lemma ShortenRun(s: State, n: nat, cut: bool, err: Status)
    requires Reachable(s) && s.pc == Repair && s.err == None
    requires ParseLog(s.log.visible).Parsed? && n == ParseLog(s.log.visible).size < |s.log.visible|
      && (err == None ==> cut)
    ensures ProcessRun(s, Shortened(s, n, cut, err)) && Reachable(Shortened(s, n, cut, err))
  {
    hide Reachable, ProcessRun, ParseLog;
    RunRefl(s);
    match err
    case None => Advance(s, s, Shortened(s, n, cut, err), Cut);
    case Some(e) => Advance(s, s, Shortened(s, n, cut, err), CutFail(cut, e));
  }

  ghost function ShortSynced(s: State, err: Status): State {
    s.(log := if err == None then s.log.(durable := s.log.visible) else s.log, err := err,
       size := if err == None then |s.log.visible| else s.size, pc := if err == None then Snap else Exited)
  }

  lemma ShortSyncedIs(s: State, err: Status)
    ensures
      var t := ShortSynced(s, err);
      && SameMemory(s, t) && t.dir == s.dir && t.mode == s.mode && t.err == err && t.log.visible == s.log.visible
      && t.log.durable == (if err == None then s.log.visible else s.log.durable)
      && t.size == (if err == None then |s.log.visible| else s.size) && t.pc == (if err == None then Snap else Exited)
  {}

  lemma ShortSyncRun(s0: State, s: State, err: Status)
    requires ProcessRun(s0, s) && Reachable(s) && s.pc == RepairSync && s.err == None
    ensures ProcessRun(s0, ShortSynced(s, err)) && Reachable(ShortSynced(s, err))
  {
    hide Reachable, ProcessRun;
    match err
    case None => Advance(s0, s, ShortSynced(s, err), CutSyncOk);
    case Some(e) => Advance(s0, s, ShortSynced(s, err), CutSyncFail(e));
  }

  lemma NoTailRun(s: State)
    requires Reachable(s) && s.pc == Repair
    requires ParseLog(s.log.visible).Parsed? && ParseLog(s.log.visible).size == |s.log.visible|
    ensures ProcessRun(s, s.(size := |s.log.visible|, pc := Snap)) && Reachable(s.(size := |s.log.visible|, pc := Snap))
  {
    hide Reachable, ProcessRun, ParseLog;
    RunRefl(s);
    Advance(s, s, s.(size := |s.log.visible|, pc := Snap), Cut);
  }

  // ----- The worker's select -----

  lemma SelectRun(s0: State, s: State, t: State, a: Action)
    requires ProcessRun(s0, s) && Reachable(s) && SelectStep(s, t, a)
    ensures ProcessRun(s0, t) && Reachable(t)
  {
    hide Reachable, ProcessRun;
    Advance(s0, s, t, a);
  }

  ghost function CloseRequested(s: State): State {
    s.(closed := true, stop := true)
  }

  lemma CloseRun(s: State)
    requires Reachable(s) && s.mode != Opening && !s.closed && s.writer == Free
    ensures OthersRun(s, CloseRequested(s)) && Reachable(CloseRequested(s))
  {
    hide Reachable, OthersRun;
    var s1 := s.(closed := true);
    NotStopped(s);
    OthersRefl(s);
    OthersAdvance(s, s, s1, CloseCall);
    ReachableNext(s, s1, CloseCall);
    OthersAdvance(s, s1, CloseRequested(s), CloseStop);
    ReachableNext(s1, CloseRequested(s), CloseStop);
  }

  lemma NotStopped(s: State)
    requires Reachable(s) && !s.closed
    ensures !s.stop
  {
    hide Reachable, LogSafe, FilesSafe, Survives, Exact, Replay, AllLoggable, At, Queue, Tickets, Bounds;
    ReachableInv(s);
  }

  // ----- What only grows in a process -----

  lemma StopStays(s: State, s': State)
    requires ProcessStep(s, s') && s.stop
    ensures s'.stop
  {
    hide Step;
    var a: Action :| !a.Reopen? && Step(s, s', a);
    if a.Issue? {
      IssueFrame(s, s', a);
    } else {
      FrameOfStep(s, s', a);
    }
  }

  /** Resolved records stay resolved, queued ones stay queued, and a stop is not taken back. */
  lemma ProcessRunGrows(s: State, t: State)
    requires Reachable(s) && ProcessRun(s, t)
    ensures Reachable(t) && s.done <= t.done && Entered(s) <= Entered(t) && (s.stop ==> t.stop)
  {
    hide Reachable, ProcessStep, Entered;
    var tr: seq<State> :| IsProcessRun(tr, s, t);
    for i := 1 to |tr|
      invariant Reachable(tr[i - 1]) && s.done <= tr[i - 1].done && Entered(s) <= Entered(tr[i - 1])
      invariant s.stop ==> tr[i - 1].stop
    {
      assert ProcessStep(tr[i - 1], tr[i]);
      DoneGrows(tr[i - 1], tr[i]);
      EnteredGrows(tr[i - 1], tr[i]);
      if tr[i - 1].stop {
        StopStays(tr[i - 1], tr[i]);
      }
    }
  }

  /** At `select` without a token every queued record has its outcome. */
  lemma NobodyWaits(s: State)
    requires Reachable(s) && s.pc == Select && s.writer == Free && !s.notify
    ensures Entered(s) <= s.done
  {
    hide Reachable, Entered;
    if s.done < Entered(s) {
      NoLostWakeup(s);
    }
  }
}
