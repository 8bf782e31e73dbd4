/**
 What a collection that cannot be saved does to its database: once a write to it is in the
 log, no `Open` ever returns.
 */
module Blocked {
  import opened Basics
  import opened Records
  import opened Wal
  import opened Machine
  import opened Invariants
  import opened Preservation
  import opened Durability
  import opened Liveness

  predicate Sets(r: Record, n: bytes) { r.op == OP_SET && r.coll == n }

  /** The log can be read and holds a write to the collection `n`. */
  ghost predicate LogSets(d: bytes, n: bytes) {
    ParseLog(d).Parsed? && exists i :: 0 <= i < |ParseLog(d).recs| && Sets(ParseLog(d).recs[i], n)
  }

  /** A step that does not save the file of `n`. */
  ghost predicate StepWithout(s: State, s': State, n: bytes) {
    exists a: Action :: a != Replace(n) && Step(s, s', a)
  }

  /** `n` still has to be saved before `Open` can return. */
  ghost predicate ToBeSaved(pc: Pc, dirty: set<bytes>, n: bytes) {
    match pc
    case Repair => n in dirty
    case RepairSync => n in dirty
    case Snap => n in dirty
    case Files(_, _, todo) => n in todo
    case DirSync(_, _, todo, name) => n in todo && name != n
    case Exited => true
    case _ => false
  }

  /** `Open` has read a write to `n` from the log and cannot return before the file of `n` is saved. */
  ghost predicate Stuck(s: State, n: bytes) {
    && s.mode == Opening && !s.closed && s.writer == Free && (s.err.Some? ==> s.pc == Exited)
    && LogSets(s.log.visible, n) && LogSets(s.log.durable, n) && s.log.visible <= s.log.durable
    && ToBeSaved(s.pc, s.dirty, n)
  }

  lemma {:induction false} SetIsDirty(fs: Colls, rs: seq<Record>, n: bytes, i: nat)
    requires i < |rs| && Sets(rs[i], n)
    ensures n in Dirtied(fs, rs)
    decreases |rs|
  {
    if i < |rs| - 1 {
      SetIsDirty(fs, rs[..|rs| - 1], n, i);
    }
  }

  /** Opening after any crash that leaves such a log gets stuck. */
  lemma OpenIsStuck(s: State, s': State, d: bytes, fs: Colls, flush: nat, n: bytes)
    requires ReopenStep(s, s', d, fs, flush) && LogSets(d, n)
    ensures Stuck(s', n)
  {
    hide ParseLog, Dirtied, Recover;
    var i :| 0 <= i < |ParseLog(d).recs| && Sets(ParseLog(d).recs[i], n);
    SetIsDirty(fs, ParseLog(d).recs, n, i);
  }

  lemma StuckOpens(s: State, s': State, d: bytes, fs: Colls, flush: nat, n: bytes)
    requires Stuck(s, n) && ReopenStep(s, s', d, fs, flush)
    ensures Stuck(s', n)
  {
    hide ReopenStep, LogSets, ToBeSaved;
    assert d == s.log.durable || d == s.log.visible by { LeftLog(s, s', d, fs, flush); }
    OpenIsStuck(s, s', d, fs, flush, n);
  }

  lemma LeftLog(s: State, s': State, d: bytes, fs: Colls, flush: nat)
    requires ReopenStep(s, s', d, fs, flush) && s.log.visible <= s.log.durable
    ensures d == s.log.durable || d == s.log.visible
  {
    hide Opened, ParseLog, CanLeaveDir;
  }

  lemma CutSets(d: bytes, n: bytes)
    requires LogSets(d, n) && ParseLog(d).size <= |d|
    ensures LogSets(d[..ParseLog(d).size], n)
  {
    CutParse(d);
    hide ParseLog;
  }

  lemma StuckCuts(s: State, s': State, a: Action, n: bytes)
    requires Stuck(s, n) && CutStep(s, s', a)
    ensures Stuck(s', n)
  {
    hide ParseLog, LogSets;
    CutSets(s.log.visible, n);
    var size := ParseLog(s.log.visible).size;
    assert s.log.visible[..size] <= s.log.visible;
    match a
    case Cut =>
      if size < |s.log.visible| {
        assert s'.log == Log(s.log.durable, s.log.visible[..size]) && s'.pc == RepairSync;
      } else {
        assert s'.log == s.log && s'.pc == Snap;
      }
    case CutFail(cut, e) => assert s'.log.visible == if cut then s.log.visible[..size] else s.log.visible;
    case _ =>
  }

  lemma StuckCutSyncs(s: State, s': State, a: Action, n: bytes)
    requires Stuck(s, n) && CutSyncStep(s, s', a)
    ensures Stuck(s', n)
  {
    hide LogSets;
  }

  lemma StuckSaves(s: State, s': State, a: Action, n: bytes)
    requires Stuck(s, n) && a != Replace(n)
    requires SnapStep(s, s', a) || FileStep(s, s', a) || DirSyncStep(s, s', a)
    ensures Stuck(s', n)
  {
    hide LogSets, PutSlot, Slot;
  }

  lemma StuckStays(s: State, s': State, n: bytes)
    requires Stuck(s, n) && StepWithout(s, s', n)
    ensures Stuck(s', n)
  {
    hide Stuck, IssueStep, EnqueueStep, SignalStep, CloseStep, StopStep, SelectStep, DetachStep, AppendStep, SyncStep,
      ReleaseStep, SnapStep, FileStep, DirSyncStep, TruncateStep, TruncSyncStep, CutStep, CutSyncStep, ReopenStep;
    var a: Action :| a != Replace(n) && Step(s, s', a);
    if a.Reopen? {
      StuckOpens(s, s', a.bytesLeft, a.filesLeft, a.threshold, n);
    } else if CutStep(s, s', a) {
      StuckCuts(s, s', a, n);
    } else if CutSyncStep(s, s', a) {
      StuckCutSyncs(s, s', a, n);
    } else if SnapStep(s, s', a) || FileStep(s, s', a) || DirSyncStep(s, s', a) {
      StuckSaves(s, s', a, n);
    } else {
      NothingElse(s, s', a, n);
    }
  }

  lemma NothingElse(s: State, s': State, a: Action, n: bytes)
    requires Stuck(s, n) && Step(s, s', a)
    ensures
      || a.Reopen? || CutStep(s, s', a) || CutSyncStep(s, s', a)
      || SnapStep(s, s', a) || FileStep(s, s', a) || DirSyncStep(s, s', a)
  {
    hide LogSets, CutStep, CutSyncStep, SnapStep, FileStep, DirSyncStep, ReopenStep, Loggable, Apply, Marks, Lines,
      JoinLines;
  }

  /**
   Through any number of crashes and attempts: while the file of `n` is not saved, `Open`
   does not return.
   */
  lemma {:induction false} NeverOpens(tr: seq<State>, n: bytes)
    requires tr != [] && Stuck(tr[0], n)
    requires forall i :: 0 < i < |tr| ==> StepWithout(tr[i - 1], tr[i], n)
    ensures forall i :: 0 <= i < |tr| ==> tr[i].mode == Opening
  {
    hide StepWithout;
    for i := 1 to |tr|
      invariant Stuck(tr[i - 1], n)
      invariant forall j :: 0 <= j < i ==> tr[j].mode == Opening
    {
      StuckStays(tr[i - 1], tr[i], n);
    }
  }

  /** An acknowledged write to `n` that is still in the log is in what any crash leaves of it. */
  lemma AcknowledgedBlocks(s: State, p: nat, n: bytes, d: bytes)
    requires Reachable(s) && CanLeaveLog(s.log, d)
    requires s.lo <= p < s.safe <= |s.hist| && Sets(s.hist[p], n)
    ensures LogSets(d, n)
  {
    hide Inv, Reachable, CanLeaveLog, ParseLog, LogRange, Shape;
    ReachableInv(s);
    var lo, j := CrashLog(s, d);
    assert s.hist[lo..j][p - lo] == s.hist[p];
  }

  // ----- Why the write stays in the log -----

  /** The write at position `p` is in the log, and the log is not emptied before `n` is saved. */
  ghost predicate InLog(s: State, p: nat, n: bytes) {
    && p < |s.hist| && Sets(s.hist[p], n) && s.lo <= p
    && (s.err == None ==> Unsaved(s.pc, s.dirty, p, n))
  }

  ghost predicate Unsaved(pc: Pc, dirty: set<bytes>, p: nat, n: bytes) {
    match pc
    case Files(_, at, todo) => n in todo || (at <= p && n in dirty)
    case DirSync(_, at, todo, name) => (n in todo && name != n) || (at <= p && n in dirty)
    case TruncSync(_, at) => at <= p && n in dirty
    case _ => n in dirty
  }

  /** Where a snapshot stands, and that it is error free. */
  lemma SnapshotPosition(s: State)
    requires Inv(s) && (s.pc.Files? || s.pc.DirSync? || s.pc.TruncSync?)
    ensures s.err == None && s.logged <= s.pc.at <= |s.hist|
  {
    hide Bounds, LogSafe, FilesSafe, Survives, Replay, AllLoggable, At, Queue, Tickets, ExactLog, SizeOk;
    ErrFree(s);
  }

  lemma IssuedIsInLog(s: State, s': State, r: Record)
    requires Reachable(s) && IssueStep(s, s', r) && r.op == OP_SET
    ensures InLog(s', |s.hist|, r.coll)
  {
    hide Reachable, Inv, Loggable, Apply;
    ReachableInv(s);
    MemoryIsHistory(s);
    if s.pc.Files? || s.pc.DirSync? || s.pc.TruncSync? {
      SnapshotPosition(s);
    }
  }

  lemma OthersKeepInLog(s: State, s': State, a: Action, p: nat, n: bytes)
    requires InLog(s, p, n) && Step(s, s', a)
    requires a.Issue? || a.Enqueue? || a.Signal? || a.CloseCall? || a.CloseStop?
    ensures InLog(s', p, n)
  {
    hide Loggable, Apply, Marks, Lines;
  }

  /** A step between two snapshots that leaves the dirty set and the start of the log alone. */
  ghost predicate Between(s: State, s': State) {
    && s'.hist == s.hist && s'.lo == s.lo && s'.dirty == s.dirty && (s'.err == None ==> s.err == None)
    && Idle(s.pc) && Idle(s'.pc)
  }

  lemma BetweenKeepsInLog(s: State, s': State, p: nat, n: bytes)
    requires InLog(s, p, n) && Between(s, s')
    ensures InLog(s', p, n)
  {
    hide Sets;
  }

  lemma SelectIsBetween(s: State, s': State, a: Action)
    requires SelectStep(s, s', a)
    ensures Between(s, s')
  {}

  lemma DetachIsBetween(s: State, s': State)
    requires DetachStep(s, s')
    ensures Between(s, s')
  {
    if s.commit == None {
      assert s'.pc == AfterLog(s);
    } else {
      assert s'.pc.Append? || s'.pc.Complete?;
    }
  }

  lemma LogIsBetween(s: State, s': State, a: Action)
    requires AppendStep(s, s', a) || SyncStep(s, s', a)
    ensures Between(s, s')
  {
    hide JoinLines;
  }

  lemma ReleaseIsBetween(s: State, s': State)
    requires ReleaseStep(s, s')
    ensures Between(s, s')
  {}

  lemma LoggingKeepsInLog(s: State, s': State, a: Action, p: nat, n: bytes)
    requires InLog(s, p, n)
    requires
      SelectStep(s, s', a) || DetachStep(s, s') || AppendStep(s, s', a) || SyncStep(s, s', a) || ReleaseStep(s, s')
    ensures InLog(s', p, n)
  {
    hide Between, InLog, SelectStep, DetachStep, AppendStep, SyncStep, ReleaseStep;
    if SelectStep(s, s', a) {
      SelectIsBetween(s, s', a);
    } else if DetachStep(s, s') {
      DetachIsBetween(s, s');
    } else if ReleaseStep(s, s') {
      ReleaseIsBetween(s, s');
    } else {
      LogIsBetween(s, s', a);
    }
    BetweenKeepsInLog(s, s', p, n);
  }

  lemma CutIsBetween(s: State, s': State, a: Action)
    requires CutStep(s, s', a)
    ensures Between(s, s')
  {
    hide CutStep;
    AfterCut(s, s', a);
    CutLeaves(s, s', a);
  }

  lemma CutLeaves(s: State, s': State, a: Action)
    requires CutStep(s, s', a)
    ensures s'.hist == s.hist && s'.lo == s.lo && s'.dirty == s.dirty && (s'.err == None ==> s.err == None)
  {
    hide ParseLog;
    match a
    case Cut =>
      if ParseLog(s.log.visible).size < |s.log.visible| {
        assert s'.err == s.err;
      } else {
        assert s'.err == s.err;
      }
    case CutFail(_, _) => assert s'.err.Some?;
    case _ =>
  }

  lemma CutSyncIsBetween(s: State, s': State, a: Action)
    requires CutSyncStep(s, s', a)
    ensures Between(s, s')
  {}

  lemma OpeningKeepsInLog(s: State, s': State, a: Action, p: nat, n: bytes)
    requires InLog(s, p, n) && (CutStep(s, s', a) || CutSyncStep(s, s', a))
    ensures InLog(s', p, n)
  {
    hide Between, InLog, CutStep, CutSyncStep;
    if CutStep(s, s', a) {
      CutIsBetween(s, s', a);
    } else {
      CutSyncIsBetween(s, s', a);
    }
    BetweenKeepsInLog(s, s', p, n);
  }

  lemma SavingKeepsInLog(s: State, s': State, a: Action, p: nat, n: bytes)
    requires InLog(s, p, n) && a != Replace(n) && (SnapStep(s, s', a) || FileStep(s, s', a) || DirSyncStep(s, s', a))
    requires s.pc.Files? || s.pc.DirSync? ==> s.err == None
    ensures InLog(s', p, n)
  {
    hide Sets, PutSlot, Slot;
  }

  lemma TruncatingKeepsInLog(s: State, s': State, a: Action, p: nat, n: bytes)
    requires InLog(s, p, n) && (TruncateStep(s, s', a) || TruncSyncStep(s, s', a))
    requires s.err == None && (s.pc.Files? || s.pc.TruncSync?) && s.logged <= s.pc.at
    ensures InLog(s', p, n)
  {
    hide Sets;
  }

  /** A step of a running process that does not save the file of `n`. */
  ghost predicate ProcessStepWithout(s: State, s': State, n: bytes) {
    exists a: Action :: a != Replace(n) && !a.Reopen? && Step(s, s', a)
  }

  lemma StepKeepsInLog(s: State, s': State, p: nat, n: bytes)
    requires Reachable(s) && InLog(s, p, n) && ProcessStepWithout(s, s', n)
    ensures Reachable(s') && InLog(s', p, n)
  {
    hide Reachable, Inv, InLog, IssueStep, EnqueueStep, SignalStep, CloseStep, StopStep, SelectStep, DetachStep,
      AppendStep, SyncStep, ReleaseStep, SnapStep, FileStep, DirSyncStep, TruncateStep, TruncSyncStep, CutStep,
      CutSyncStep;
    var a: Action :| a != Replace(n) && !a.Reopen? && Step(s, s', a);
    ReachableNext(s, s', a);
    ReachableInv(s);
    if s.pc.Files? || s.pc.DirSync? || s.pc.TruncSync? {
      SnapshotPosition(s);
    }
    if a.Issue? || a.Enqueue? || a.Signal? || a.CloseCall? || a.CloseStop? {
      OthersKeepInLog(s, s', a, p, n);
    } else if
      SelectStep(s, s', a) || DetachStep(s, s') || AppendStep(s, s', a) || SyncStep(s, s', a) || ReleaseStep(s, s')
    {
      LoggingKeepsInLog(s, s', a, p, n);
    } else if CutStep(s, s', a) || CutSyncStep(s, s', a) {
      OpeningKeepsInLog(s, s', a, p, n);
    } else if SnapStep(s, s', a) || FileStep(s, s', a) || DirSyncStep(s, s', a) {
      SavingKeepsInLog(s, s', a, p, n);
    } else {
      TruncationPc(s, s', a);
      TruncatingKeepsInLog(s, s', a, p, n);
    }
  }

  lemma TruncationPc(s: State, s': State, a: Action)
    requires TruncateStep(s, s', a) || TruncSyncStep(s, s', a)
    ensures s.pc.Files? || s.pc.TruncSync?
  {}

  /**
   From the moment a write to `n` is applied, for the rest of the process: while the file of
   `n` is not saved, the log is not emptied past the write.
   */
  lemma {:induction false} WriteStaysInLog(tr: seq<State>, p: nat, n: bytes)
    requires tr != [] && Reachable(tr[0]) && InLog(tr[0], p, n)
    requires forall i :: 0 < i < |tr| ==> ProcessStepWithout(tr[i - 1], tr[i], n)
    ensures Reachable(tr[|tr| - 1]) && InLog(tr[|tr| - 1], p, n)
  {
    hide Reachable, InLog, ProcessStepWithout;
    for i := 1 to |tr|
      invariant Reachable(tr[i - 1]) && InLog(tr[i - 1], p, n)
    {
      StepKeepsInLog(tr[i - 1], tr[i], p, n);
    }
  }

  /**
   The whole story: a write to `n` is applied and acknowledged, the file of `n` is never saved,
   and the process ends at any moment after that. The next `Open` gets stuck.
   */
  lemma AcknowledgedLocksOut(tr: seq<State>, p: nat, n: bytes, s': State, d: bytes, fs: Colls, flush: nat)
    requires tr != [] && Reachable(tr[0]) && InLog(tr[0], p, n)
    requires forall i :: 0 < i < |tr| ==> ProcessStepWithout(tr[i - 1], tr[i], n)
    requires p < tr[|tr| - 1].safe && ReopenStep(tr[|tr| - 1], s', d, fs, flush)
    ensures Stuck(s', n)
  {
    var s := tr[|tr| - 1];
    WriteStaysInLog(tr, p, n);
    assert s.safe <= |s.hist| by {
      hide Reachable, Inv;
      ReachableInv(s);
      MemoryIsHistory(s);
    }
    assert CanLeaveLog(s.log, d);
    hide Reachable, ReopenStep, ProcessStepWithout, Stuck, LogSets, CanLeaveLog;
    AcknowledgedBlocks(s, p, n, d);
    OpenIsStuck(s, s', d, fs, flush, n);
  }
}
