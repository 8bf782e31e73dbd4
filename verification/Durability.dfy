/**
 What the engine promises over every run: nothing acknowledged is lost, recovery is
 exact where it can be, failures stop all writing, and a clean close round-trips.
 */
module Durability {
  import opened Basics
  import opened Records
  import opened Wal
  import opened Machine
  import opened Invariants
  import opened Preservation

  // ----- Crashes -----

  /** Some position no earlier than the last acknowledged record at which `m` and the history agree on the cell. */
  ghost predicate CellAtOrAfterAcked(s: State, m: Colls, k: Cell) {
    exists i: nat :: s.safe <= i <= |s.hist| && Read(m, k) == Read(At(s.base, s.hist, i), k)
  }

  /**
   At every moment of every run, whatever a crash leaves of the disk: `Open` reports no
   corruption, and every document and every collection's existence is as it was at some
   moment not before the last acknowledged write.
   */
  lemma CrashDurability(s: State, d: bytes, fs: Colls)
    requires Reachable(s) && CanLeaveLog(s.log, d) && CanLeaveDir(s.dir, fs) && KeepsFiles(s.dir, fs)
    ensures ParseLog(d).Parsed?
    ensures forall k :: CellAtOrAfterAcked(s, Recover(d, fs), k)
  {
    hide Inv, Reachable, CanLeaveLog, CanLeaveDir, KeepsFiles, Recover, Read, At;
    ReachableInv(s);
    var lo, j := CrashLog(s, d);
    forall k ensures CellAtOrAfterAcked(s, Recover(d, fs), k) {
      var i := CrashCell(s, d, fs, k);
    }
  }

  /** An acknowledged write that nobody has overwritten is there after any crash. */
  lemma AcknowledgedWriteSurvives(s: State, p: nat, k: Cell, d: bytes, fs: Colls)
    requires Reachable(s) && CanLeaveLog(s.log, d) && CanLeaveDir(s.dir, fs) && KeepsFiles(s.dir, fs)
    requires p < s.safe <= |s.hist| && Wrote(s.hist[p], k).Some?
    requires forall j :: p < j < |s.hist| ==> Wrote(s.hist[j], k) == None
    ensures ParseLog(d).Parsed? && Read(Recover(d, fs), k) == Wrote(s.hist[p], k).value
  {
    hide Reachable, CanLeaveLog, CanLeaveDir, KeepsFiles, Recover, Wrote, Read, ParseLog, Replay;
    CrashDurability(s, d, fs);
    assert CellAtOrAfterAcked(s, Recover(d, fs), k);
    var i: nat :| s.safe <= i <= |s.hist| && Read(Recover(d, fs), k) == Read(At(s.base, s.hist, i), k);
    ReplayCell(s.base, s.hist[..i], k);
    LastWriteIs(s.hist[..i], p, k);
  }

  /** The outcome of the `i`th record issued since the last open: None while its commit is open. */
  function Outcome(s: State, i: nat): Option<Status> {
    if i < |s.tickets| && s.tickets[i] < |s.results| then Some(s.results[s.tickets[i]]) else None
  }

  /** Acknowledged records are exactly the issued ones before position `safe`: a prefix, in apply order. */
  lemma AcknowledgedPrefix(s: State, i: nat)
    requires Reachable(s) && s.start + i < |s.hist|
    ensures Outcome(s, i) == Some(None) <==> s.start + i < s.safe
    ensures Outcome(s, i).Some? <==> s.start + i < s.done
    ensures s.safe <= s.start + i < s.done ==> Outcome(s, i) == Some(s.err) && s.err.Some?
  {
    hide Reachable, LogSafe, FilesSafe, Survives, Exact, Replay, AllLoggable, At, Queue;
    ReachableInv(s);
    if i < |s.tickets| {
      assert TicketOk(s.start + i, s.tickets[i], s.results, s.created, s.err, s.safe, s.done, s.drained);
    }
  }

  /**
   Through any number of crashes and reopenings, an acknowledged write is lost only to a
   later write of the same cell.
   */
  lemma SurvivesCrashes(s: State)
    requires Reachable(s) && s.kept
    ensures s.start <= |s.hist|
    ensures Survives(s.colls, s.init, s.past + s.hist[s.start..], s.pastAcked + AckedNow(s))
  {
    hide Inv, Reachable, CellSurvives, Read;
    ReachableInv(s);
    MemoryIsHistory(s);
    forall k ensures CellSurvives(s.colls, k, s.init, s.past + s.hist[s.start..], s.pastAcked + AckedNow(s)) {
      SurvivesAt(s, s.colls, k, |s.hist|);
    }
  }

  lemma MemoryIsHistory(s: State)
    requires Inv(s)
    ensures s.colls == At(s.base, s.hist, |s.hist|)
    ensures s.start <= s.safe <= s.done <= s.drained <= |s.hist| && s.lo <= s.logged <= |s.hist|
  {
    hide LogSafe, FilesSafe, Survives, Exact, AllLoggable, Tickets, Queue, Control;
    assert s.hist[..|s.hist|] == s.hist;
  }

  /** When every issued record is acknowledged, any crash recovers exactly the collections in memory. */
  lemma QuiescentRecovery(s: State, d: bytes, fs: Colls)
    requires Reachable(s) && CanLeaveLog(s.log, d) && CanLeaveDir(s.dir, fs) && KeepsFiles(s.dir, fs)
    requires s.safe == |s.hist|
    ensures ParseLog(d).Parsed? && Recover(d, fs) == s.colls
  {
    hide Inv, Reachable, CanLeaveLog, CanLeaveDir, KeepsFiles, Recover, Read, At, ParseLog, Replay;
    ReachableInv(s);
    MemoryIsHistory(s);
    var lo, j := CrashLog(s, d);
    forall k ensures Read(Recover(d, fs), k) == Read(s.colls, k) {
      var i := CrashCell(s, d, fs, k);
      assert i == |s.hist|;
    }
    CellsDetermine(Recover(d, fs), s.colls);
  }

  /** No crash inside `Open`, wherever it falls, changes what the next `Open` rebuilds. */
  lemma RecoveryRestarts(s: State, d: bytes, fs: Colls)
    requires Reachable(s) && s.mode == Opening && CanLeaveLog(s.log, d) && CanLeaveDir(s.dir, fs)
      && KeepsFiles(s.dir, fs)
    ensures ParseLog(d).Parsed? && Recover(d, fs) == s.colls
  {
    assert s.safe == |s.hist| by {
      hide Reachable, LogSafe, FilesSafe, Survives, Exact, Replay, AllLoggable, At, Queue, Tickets;
      ReachableInv(s);
    }
    QuiescentRecovery(s, d, fs);
  }

  /** A run in which nobody writes: opening, snapshots, failures, crashes and reopenings, in any number. */
  ghost predicate QuietRun(tr: seq<State>) {
    && tr != []
    && forall i :: 0 < i < |tr| ==> QuietStep(tr[i - 1], tr[i])
  }

  ghost predicate QuietStep(s: State, s': State) {
    exists a: Action :: !a.Issue? && Step(s, s', a) && (a.Reopen? ==> KeepsFiles(s.dir, a.filesLeft))
  }

  /** However often opening is interrupted, it ends with the collections of one uninterrupted open. */
  lemma {:induction false} QuietRunsKeepCollections(tr: seq<State>)
    requires QuietRun(tr) && Reachable(tr[0]) && tr[0].safe == |tr[0].hist|
    ensures forall i :: 0 <= i < |tr| ==> tr[i].colls == tr[0].colls
  {
    hide Reachable, Step;
    for i := 1 to |tr|
      invariant Reachable(tr[i - 1]) && tr[i - 1].safe == |tr[i - 1].hist|
      invariant forall j :: 0 <= j < i ==> tr[j].colls == tr[0].colls
    {
      assert QuietStep(tr[i - 1], tr[i]);
      var a: Action :| !a.Issue? && Step(tr[i - 1], tr[i], a) && (a.Reopen? ==> KeepsFiles(tr[i - 1].dir, a.filesLeft));
      ReachableNext(tr[i - 1], tr[i], a);
      QuietStepKeeps(tr[i - 1], tr[i], a);
    }
  }

  // ----- What the steps leave alone -----

  /** One step of a running process: anything but a crash and reopen. */
  ghost predicate ProcessStep(s: State, s': State) {
    exists a: Action :: !a.Reopen? && Step(s, s', a)
  }

  /** After the first storage error no byte of the disk changes, and every commit closed later reports that error. */
  ghost predicate StoppedSince(s: State, t: State) {
    && t.log == s.log && t.dir == s.dir && t.err == s.err
    && |s.results| <= |t.results| && t.results[..|s.results|] == s.results
    && forall c :: |s.results| <= c < |t.results| ==> t.results[c] == s.err
  }

  predicate Halted(s: State) {
    s.err.Some? && (s.pc.Select? || s.pc.Drain? || s.pc.Complete? || s.pc.Snap? || s.pc.Exited?)
  }

  /** Only writers change the collections, only a reopening forgets history, and nothing writes after an error. */
  ghost predicate Frame(s: State, s': State) {
    && s'.colls == s.colls && s'.hist == s.hist
    && (s'.safe == s.safe || s'.safe == s.drained)
    && (s'.done == s.done || s'.done == s.drained)
    && LogGrowth(s, s')
    && OutcomesKept(s, s')
    && (Halted(s) ==> Unwritten(s, s'))
  }

  /** At most one ticket is handed out, and at most one commit is closed, with the error of the moment. */
  ghost predicate OutcomesKept(s: State, s': State) {
    && s'.start == s.start && s'.flush == s.flush && (s.stop ==> s'.stop)
    && s.tickets <= s'.tickets
    && s.drained <= s'.drained
    && (s'.results == s.results || s'.results == s.results + [s.err])
  }

  /** The log file grows only when the batch is appended. */
  ghost predicate LogGrowth(s: State, s': State) {
    || |s'.log.visible| <= |s.log.visible|
    || (s.pc == Append && |s'.log.visible| <= |s.log.visible| + |JoinLines(s.batch)|)
  }

  /** Nothing on the disk changes, and the error stays. */
  ghost predicate Unwritten(s: State, s': State) {
    s'.log == s.log && s'.dir == s.dir && s'.err == s.err
  }

  lemma FrameControl(s: State, s': State, a: Action)
    requires SignalStep(s, s') || CloseStep(s, s') || StopStep(s, s') || SelectStep(s, s', a)
    ensures Frame(s, s')
  {}

  lemma FrameEnqueue(s: State, s': State)
    requires EnqueueStep(s, s')
    ensures Frame(s, s')
  {
    hide Lines, JoinLines;
  }

  lemma FrameDetach(s: State, s': State)
    requires DetachStep(s, s')
    ensures Frame(s, s')
  {
    hide AfterLog, JoinLines;
  }

  lemma FrameLog(s: State, s': State, a: Action)
    requires AppendStep(s, s', a) || SyncStep(s, s', a) || ReleaseStep(s, s')
    ensures Frame(s, s')
  {
    hide AfterLog, JoinLines;
  }

  lemma FrameCut(s: State, s': State, a: Action)
    requires CutStep(s, s', a) || CutSyncStep(s, s', a)
    ensures Frame(s, s')
  {
    hide ParseLog;
  }

  lemma FrameSnap(s: State, s': State, a: Action)
    requires SnapStep(s, s', a) || DirSyncStep(s, s', a) || TruncSyncStep(s, s', a)
    ensures Frame(s, s')
  {
    hide NothingToDo;
  }

  lemma FrameFile(s: State, s': State, a: Action)
    requires FileStep(s, s', a)
    ensures Frame(s, s')
  {
    hide PutSlot, Slot;
  }

  lemma FrameTruncate(s: State, s': State, a: Action)
    requires TruncateStep(s, s', a)
    ensures Frame(s, s')
  {}

  lemma IssueFrame(s: State, s': State, a: Action)
    requires a.Issue? && Step(s, s', a)
    ensures Unwritten(s, s') && OutcomesKept(s, s') && s'.done == s.done
  {
    hide Apply, Marks, Loggable;
  }

  lemma FrameOfStep(s: State, s': State, a: Action)
    requires Step(s, s', a) && !a.Issue? && !a.Reopen?
    ensures Frame(s, s')
  {
    hide Frame, IssueStep, EnqueueStep, SignalStep, CloseStep, StopStep, SelectStep, DetachStep, AppendStep,
      SyncStep, ReleaseStep, SnapStep, FileStep, DirSyncStep, TruncateStep, TruncSyncStep, CutStep, CutSyncStep,
      ReopenStep;
    if SignalStep(s, s') || CloseStep(s, s') || StopStep(s, s') || SelectStep(s, s', a) {
      FrameControl(s, s', a);
    } else if EnqueueStep(s, s') {
      FrameEnqueue(s, s');
    } else if DetachStep(s, s') {
      FrameDetach(s, s');
    } else if AppendStep(s, s', a) || SyncStep(s, s', a) || ReleaseStep(s, s') {
      FrameLog(s, s', a);
    } else if CutStep(s, s', a) || CutSyncStep(s, s', a) {
      FrameCut(s, s', a);
    } else if FileStep(s, s', a) {
      FrameFile(s, s', a);
    } else if TruncateStep(s, s', a) {
      FrameTruncate(s, s', a);
    } else {
      FrameSnap(s, s', a);
    }
  }

  lemma QuietStepKeeps(s: State, s': State, a: Action)
    requires Reachable(s) && Step(s, s', a) && !a.Issue? && s.safe == |s.hist|
    requires a.Reopen? ==> KeepsFiles(s.dir, a.filesLeft)
    ensures s'.colls == s.colls && s'.safe == |s'.hist|
  {
    hide Reachable, Inv, ParseLog, CanLeaveDir, CanLeaveLog, Recover, IssueStep, EnqueueStep, SignalStep, CloseStep,
      StopStep, SelectStep, DetachStep, AppendStep, SyncStep, ReleaseStep, SnapStep, FileStep, DirSyncStep,
      TruncateStep, TruncSyncStep, CutStep, CutSyncStep;
    ReachableInv(s);
    if a.Reopen? {
      QuiescentRecovery(s, a.bytesLeft, a.filesLeft);
    } else {
      MemoryIsHistory(s);
      FrameOfStep(s, s', a);
    }
  }

  // ----- The central invariant -----

  /** Lines that are not in the log yet, oldest first: in-flight batch, pending, and the line about to be enqueued. */
  function Unlogged(s: State): seq<bytes> {
    (if s.pc.SyncLog? || s.pc.Complete? then [] else s.batch)
    + s.pending
    + (if s.writer.Applied? then Lines([s.writer.rec]) else [])
  }

  /**
   While no storage error has occurred - in the middle of an append or a snapshot, with
   writers at any point - the files, replayed with the log and then with everything on its
   way to the log, give exactly the collections in memory.
   */
  lemma CentralInvariant(s: State)
    requires Reachable(s) && s.err == None
    ensures ParseLog(s.log.visible).Parsed?
    ensures s.logged <= |s.hist| && Lines(s.hist[s.logged..]) == Unlogged(s)
    ensures Replay(s.dir.visible, ParseLog(s.log.visible).recs + s.hist[s.logged..]) == s.colls
  {
    hide Reachable, Inv, Replay, ParseLog, Lines, Unlogged;
    ReachableInv(s);
    MemoryIsHistory(s);
    LoggedRecords(s);
    UnloggedLines(s);
    assert s.hist[s.lo..s.logged] + s.hist[s.logged..] == s.hist[s.lo..];
    FilesPlusHistory(s);
  }

  lemma LoggedRecords(s: State)
    requires Inv(s) && s.err == None
    ensures s.lo <= s.logged <= |s.hist|
    ensures ParseLog(s.log.visible).Parsed? && ParseLog(s.log.visible).recs == s.hist[s.lo..s.logged]
  {
    hide FilesSafe, Survives, Replay, At, Queue, Tickets, Loggable, JoinLines, ParseLog, Holds, ExactDir, SizeOk;
    if s.pc == Repair {
      RepairParse(s);
    } else {
      assert s.hist[s.lo..s.logged] == [] ==> s.log.visible == EncodeLog(s.hist[s.lo..s.logged]) by { EncodeNothing(); }
      SliceLoggable(s.hist, s.lo, s.logged);
      ParseShape(s.log.visible, s.hist[s.lo..s.logged]);
    }
  }

  lemma UnresolvedLines(s: State)
    requires Inv(s)
    ensures s.done <= s.drained <= |s.hist|
    ensures Lines(s.hist[s.done..]) == s.batch + Lines(s.hist[s.drained..])
    ensures Lines(s.hist[s.drained..]) == s.pending + (if s.writer.Applied? then Lines([s.writer.rec]) else [])
  {
    hide FilesSafe, LogSafe, Survives, Replay, At, Tickets, AllLoggable, Exact, Control, Lines;
    UndrainedLines(s);
    var h := s.hist;
    assert h[s.done..] == h[s.done..s.drained] + h[s.drained..];
    LinesConcat(h[s.done..s.drained], h[s.drained..]);
  }

  lemma UndrainedLines(s: State)
    requires Inv(s)
    ensures s.drained <= |s.hist|
    ensures Lines(s.hist[s.drained..]) == s.pending + (if s.writer.Applied? then Lines([s.writer.rec]) else [])
  {
    hide FilesSafe, LogSafe, Survives, Replay, At, Tickets, AllLoggable, Exact, Control, Lines;
    var h, e := s.hist, Entered(s);
    if s.writer.Applied? {
      assert h[s.drained..] == h[s.drained..e] + [s.writer.rec];
      LinesConcat(h[s.drained..e], [s.writer.rec]);
    } else {
      assert h[s.drained..] == h[s.drained..e];
    }
  }

  /** Without an error the log holds every resolved record, and the batch once it is written. */
  lemma LoggedTo(s: State)
    requires Inv(s) && s.err == None
    ensures s.logged == if s.pc.SyncLog? || s.pc.Complete? then s.drained else s.done
  {
    hide FilesSafe, LogSafe, Survives, Replay, At, Tickets, Queue, AllLoggable, EncodeLog, JoinLines, ParseLog,
      ExactDir, SizeOk, Lines, Shape, Bounds, LastSnapshot;
  }

  lemma UnloggedLines(s: State)
    requires Inv(s) && s.err == None
    ensures s.logged <= |s.hist| && Lines(s.hist[s.logged..]) == Unlogged(s)
  {
    hide Core, Exact, Lines;
    LoggedTo(s);
    UnresolvedLines(s);
  }

  lemma FilesPlusHistory(s: State)
    requires Inv(s)
    ensures s.lo <= |s.hist| && Replay(s.dir.visible, s.hist[s.lo..]) == s.colls
  {
    hide LogSafe, Survives, Exact, AllLoggable, Tickets, Queue, Control, Replay, At, Read, Slot;
    MemoryIsHistory(s);
    var n := |s.hist|;
    assert s.hist[s.lo..n] == s.hist[s.lo..];
    forall k ensures Read(Replay(s.dir.visible, s.hist[s.lo..]), k) == Read(s.colls, k) {
      assert Reflects(s.dir.visible, k.name, s.base, s.hist, s.lo);
      var f: nat :| s.lo <= f <= n && Slot(s.dir.visible, k.name) == Slot(At(s.base, s.hist, f), k.name);
      var i := ReplayOverFile(s.base, s.hist, s.dir.visible, s.lo, f, n, k);
    }
    CellsDetermine(Replay(s.dir.visible, s.hist[s.lo..]), s.colls);
  }

  // ----- Snapshots -----

  /** Outside a snapshot and with no error, a collection that is not marked dirty has an up-to-date file. */
  lemma DirtySetSound(s: State)
    requires Reachable(s) && s.err == None && Idle(s.pc)
    ensures Settled(s.dir)
    ensures forall n :: n !in s.dirty ==> Slot(s.dir.visible, n) == Slot(s.colls, n)
  {
    hide Reachable, Core, ExactLog, SizeOk;
    ReachableInv(s);
  }

  /** The skip test is sound: with nothing dirty and an empty log, files and memory already agree. */
  lemma SkippedSnapshotLosesNothing(s: State)
    requires Reachable(s) && s.err == None && s.pc == Snap && NothingToDo(s)
    ensures s.dir.visible == s.colls && Settled(s.dir) && s.log.durable == [] && s.log.visible == []
  {
    DirtySetSound(s);
    SlotsDetermine(s.dir.visible, s.colls);
    hide Reachable, Core, ExactDir;
    ReachableInv(s);
  }

  // ----- Exact recovery -----

  /** Does recovery give exactly the state after the first `i` records of the history? */
  ghost predicate PrefixExact(s: State, d: bytes, fs: Colls, i: nat)
    requires ParseLog(d).Parsed? && i <= |s.hist|
  {
    Recover(d, fs) == At(s.base, s.hist, i)
  }

  /**
   At position `i` every cell that the records `lo..j` write has the value they leave in it,
   and every other cell is as in the files.
   */
  ghost predicate AgreesAt(s: State, fs: Colls, lo: nat, j: nat, i: nat)
    requires lo <= j <= |s.hist| && i <= |s.hist|
  {
    && (forall k :: LastWrite(s.hist[lo..j], k).Some? ==>
          Read(At(s.base, s.hist, i), k) == LastWrite(s.hist[lo..j], k).value)
    && (forall k :: LastWrite(s.hist[lo..j], k) == None ==> Read(At(s.base, s.hist, i), k) == Read(fs, k))
  }

  /**
   Recovery gives a state of the history, at whatever position, if and only if the surviving
   log and the files agree on such a position.
   */
  lemma PrefixRecovery(s: State, d: bytes, fs: Colls) returns (lo: nat, j: nat)
    requires Reachable(s) && CanLeaveLog(s.log, d)
    ensures ParseLog(d).Parsed? && LogRange(s, d, lo, j) && lo <= j <= |s.hist| && s.safe <= j
    ensures ParseLog(d).recs == s.hist[lo..j]
    ensures forall i: nat :: i <= |s.hist| ==> (PrefixExact(s, d, fs, i) <==> AgreesAt(s, fs, lo, j, i))
    ensures (exists i: nat :: i <= |s.hist| && PrefixExact(s, d, fs, i)) <==>
      exists i: nat :: i <= |s.hist| && AgreesAt(s, fs, lo, j, i)
  {
    hide Inv, Reachable, CanLeaveLog, Read, At, Replay, LastWrite, ParseLog, PrefixExact, AgreesAt, LogRange;
    ReachableInv(s);
    lo, j := CrashLog(s, d);
    forall i: nat | i <= |s.hist| ensures PrefixExact(s, d, fs, i) <==> AgreesAt(s, fs, lo, j, i) {
      ExactIsAgreement(s, d, fs, lo, j, i);
    }
  }

  lemma ExactIsAgreement(s: State, d: bytes, fs: Colls, lo: nat, j: nat, i: nat)
    requires lo <= j <= |s.hist| && i <= |s.hist|
    requires ParseLog(d).Parsed? && ParseLog(d).recs == s.hist[lo..j]
    ensures PrefixExact(s, d, fs, i) <==> AgreesAt(s, fs, lo, j, i)
  {
    hide Read, At, Replay, LastWrite, ParseLog;
    var recs := s.hist[lo..j];
    forall k ensures Read(Recover(d, fs), k) == Over(LastWrite(recs, k), Read(fs, k)) {
      ReplayCell(fs, recs, k);
    }
    if AgreesAt(s, fs, lo, j, i) {
      forall k ensures Read(Recover(d, fs), k) == Read(At(s.base, s.hist, i), k) {
        assert LastWrite(recs, k).Some? || LastWrite(recs, k) == None;
      }
      CellsDetermine(Recover(d, fs), At(s.base, s.hist, i));
    }
  }

  /**
   Recovery is the history up to the end of the surviving log if and only if no file carries,
   in a cell that log does not write, anything but the value at that end; in particular when
   no file is ahead of the log.
   */
  lemma ExactRecovery(s: State, d: bytes, fs: Colls) returns (lo: nat, j: nat)
    requires Reachable(s) && CanLeaveLog(s.log, d) && CanLeaveDir(s.dir, fs)
    ensures ParseLog(d).Parsed? && LogRange(s, d, lo, j) && lo <= j <= |s.hist| && s.safe <= j
    ensures ParseLog(d).recs == s.hist[lo..j]
    ensures PrefixExact(s, d, fs, j) <==>
      forall k :: LastWrite(s.hist[lo..j], k) == None ==> Read(fs, k) == Read(At(s.base, s.hist, j), k)
    ensures (forall n :: Reflects(fs, n, s.base, s.hist[..j], lo)) ==> PrefixExact(s, d, fs, j)
  {
    hide Inv, Reachable, CanLeaveLog, CanLeaveDir, Read, At, Replay, LastWrite, ParseLog, Slot, LogRange;
    lo, j := PrefixRecovery(s, d, fs);
    var here := At(s.base, s.hist, j);
    forall k ensures LastWrite(s.hist[lo..j], k).Some? ==> Read(here, k) == LastWrite(s.hist[lo..j], k).value {
      AtCell(s.base, s.hist, lo, j, k);
    }
    assert PrefixExact(s, d, fs, j) <==> AgreesAt(s, fs, lo, j, j);
    if forall n :: Reflects(fs, n, s.base, s.hist[..j], lo) {
      forall k ensures Read(Recover(d, fs), k) == Read(here, k) {
        assert Reflects(fs, k.name, s.base, s.hist[..j], lo);
        BehindTheLog(s, fs, lo, j, k);
      }
      CellsDetermine(Recover(d, fs), here);
    }
  }

  /** Once every record that the files hold is acknowledged, any crash recovers a state of the history. */
  lemma AcknowledgedFilesAreExact(s: State, d: bytes, fs: Colls) returns (j: nat)
    requires Reachable(s) && CanLeaveLog(s.log, d) && CanLeaveDir(s.dir, fs) && s.safe <= |s.hist|
    requires forall n :: Reflects(fs, n, s.base, s.hist[..s.safe], s.lo)
    ensures ParseLog(d).Parsed? && s.safe <= j <= |s.hist| && PrefixExact(s, d, fs, j)
  {
    hide Inv, Reachable, CanLeaveLog, CanLeaveDir, PrefixExact, At, ParseLog, Slot, LastWrite, Read;
    assert s.loD <= s.lo by {
      ReachableInv(s);
      LogPositions(s);
    }
    var lo;
    lo, j := ExactRecovery(s, d, fs);
    forall n ensures Reflects(fs, n, s.base, s.hist[..j], lo) {
      assert Reflects(fs, n, s.base, s.hist[..s.safe], s.lo);
      var f: nat :| s.lo <= f <= s.safe && Slot(fs, n) == Slot(At(s.base, s.hist[..s.safe], f), n);
      assert s.hist[..j] == s.hist[..s.safe] + s.hist[s.safe..j];
      AtExtends(s.base, s.hist[..s.safe], s.hist[s.safe..j], f);
      assert Slot(fs, n) == Slot(At(s.base, s.hist[..j], f), n);
    }
  }

  lemma LogPositions(s: State)
    requires Inv(s)
    ensures s.loD <= s.lo
  {
    hide LogSafe, FilesSafe, Survives, Exact, AllLoggable, Tickets, Queue, Control;
  }

  lemma BehindTheLog(s: State, fs: Colls, lo: nat, j: nat, k: Cell)
    requires lo <= j <= |s.hist| && Reflects(fs, k.name, s.base, s.hist[..j], lo)
    ensures Read(Replay(fs, s.hist[lo..j]), k) == Read(At(s.base, s.hist, j), k)
  {
    hide Read, Replay, Slot;
    var front := s.hist[..j];
    var f: nat :| lo <= f <= |front| && Slot(fs, k.name) == Slot(At(s.base, front, f), k.name);
    var i := ReplayOverFile(s.base, front, fs, lo, f, j, k);
    assert front[lo..j] == s.hist[lo..j] && front[..j] == s.hist[..j];
    assert i == j || i == f;
  }

  // ----- Fail-stop -----

  lemma StoppedPc(s: State)
    requires Inv(s) && s.err.Some?
    ensures s.pc.Select? || s.pc.Drain? || s.pc.Complete? || s.pc.Snap? || s.pc.Exited?
  {
    hide Bounds, LogSafe, FilesSafe, Survives, Tickets, Queue, Exact, Replay, AllLoggable;
  }

  lemma FailStopStep(s: State, s': State)
    requires Reachable(s) && s.err.Some? && ProcessStep(s, s')
    ensures StoppedSince(s, s') && Reachable(s')
  {
    hide Reachable, Inv, Step, StoppedSince;
    ReachableInv(s);
    StoppedPc(s);
    var a: Action :| !a.Reopen? && Step(s, s', a);
    if a.Issue? {
      IssueFrame(s, s', a);
    } else {
      FrameOfStep(s, s', a);
    }
    ReachableNext(s, s', a);
    UnwrittenStopped(s, s');
  }

  lemma UnwrittenStopped(s: State, s': State)
    requires Unwritten(s, s') && OutcomesKept(s, s')
    ensures StoppedSince(s, s')
  {}

  lemma {:induction false} FailStop(tr: seq<State>)
    requires tr != [] && Reachable(tr[0]) && tr[0].err.Some?
    requires forall i :: 0 < i < |tr| ==> ProcessStep(tr[i - 1], tr[i])
    ensures forall i :: 0 <= i < |tr| ==> StoppedSince(tr[0], tr[i])
  {
    hide Reachable, ProcessStep;
    for i := 1 to |tr|
      invariant Reachable(tr[i - 1])
      invariant forall j :: 0 <= j < i ==> StoppedSince(tr[0], tr[j])
    {
      assert StoppedSince(tr[0], tr[i - 1]);
      FailStopStep(tr[i - 1], tr[i]);
      var rs := tr[i].results;
      assert rs[..|tr[0].results|] == rs[..|tr[i - 1].results|][..|tr[0].results|];
      forall c | |tr[0].results| <= c < |rs| ensures rs[c] == tr[0].err {
        if c < |tr[i - 1].results| {
          assert rs[c] == rs[..|tr[i - 1].results|][c] == tr[i - 1].results[c];
        }
      }
    }
  }

  // ----- Clean close -----

  lemma CloseWritesEverything(s: State)
    requires Reachable(s) && s.mode == Stopping && s.pc == Exited && s.err == None
    ensures s.log.durable == [] && s.log.visible == []
    ensures s.dir.visible == s.colls && Settled(s.dir)
    ensures s.safe == |s.hist|
  {
    hide Reachable, LogSafe, FilesSafe, Survives, Replay, AllLoggable, At, Queue, JoinLines, EncodeLog;
    ReachableInv(s);
    SlotsDetermine(s.dir.visible, s.colls);
  }

  /**
   When the worker exits without an error, every record is acknowledged, the log is empty,
   the files are exactly the collections, and whatever happens next `Open` finds them again.
   */
  lemma CleanClose(s: State, d: bytes, fs: Colls)
    requires Reachable(s) && s.mode == Stopping && s.pc == Exited && s.err == None
    ensures s.log.durable == [] && s.log.visible == []
    ensures s.dir.visible == s.colls && Settled(s.dir)
    ensures s.safe == |s.hist|
    ensures CanLeaveLog(s.log, d) && CanLeaveDir(s.dir, fs) && KeepsFiles(s.dir, fs) ==>
      d == [] && fs == s.colls && Recover(d, fs) == s.colls
  {
    CloseWritesEverything(s);
    if CanLeaveLog(s.log, d) && CanLeaveDir(s.dir, fs) && KeepsFiles(s.dir, fs) {
      SlotsDetermine(fs, s.colls);
      EncodeNothing();
    }
  }

  // ----- Log size -----

  /** The size counter is the length of the log, and the log never exceeds the threshold plus one batch. */
  lemma LogSize(s: State)
    requires Reachable(s) && s.err == None && s.mode != Opening
    ensures Idle(s.pc) && !s.pc.SyncLog? ==> s.size == |s.log.visible|
    ensures s.pc == Select ==> s.size < s.flush
    ensures s.pc.SyncLog? || s.pc.Complete? ==> |s.log.visible| < s.flush + |JoinLines(s.batch)|
  {
    hide Reachable, LogSafe, FilesSafe, Survives, ExactDir, ExactLog, Replay, AllLoggable, At, Queue, Tickets,
      JoinLines;
    ReachableInv(s);
  }

  lemma AppendIsShort(s: State)
    requires Reachable(s) && s.pc == Append
    ensures |s.log.visible| < s.flush
  {
    hide Reachable, Core, ExactDir, ExactLog, JoinLines;
    ReachableInv(s);
    ErrFree(s);
  }

  /** A log of `n` bytes is no longer than the threshold and some batch of the run. */
  ghost predicate OneBatchOver(tr: seq<State>, n: nat)
    requires tr != []
  {
    exists k :: 0 <= k < |tr| && n <= tr[0].flush + |JoinLines(tr[k].batch)|
  }

  /**
   The log file never grows past `flushBytes` and one batch that the worker has taken: at
   every moment of a process - during `Open`, during a snapshot, after a failed append - it
   is within that bound, or no longer than it was at the start. From the moment `Open` has
   started the worker it is within the bound.
   */
  lemma {:induction false} LogBound(tr: seq<State>)
    requires tr != [] && Reachable(tr[0])
    requires forall i :: 0 < i < |tr| ==> ProcessStep(tr[i - 1], tr[i])
    ensures |tr[|tr| - 1].log.visible| <= |tr[0].log.visible| || OneBatchOver(tr, |tr[|tr| - 1].log.visible|)
    ensures tr[0].pc == Select && tr[0].err == None ==> OneBatchOver(tr, |tr[|tr| - 1].log.visible|)
  {
    hide Reachable, Step, JoinLines;
    for i := 1 to |tr|
      invariant Reachable(tr[i - 1]) && tr[i - 1].flush == tr[0].flush
      invariant |tr[i - 1].log.visible| <= |tr[0].log.visible| || OneBatchOver(tr, |tr[i - 1].log.visible|)
    {
      var s, s' := tr[i - 1], tr[i];
      assert ProcessStep(s, s');
      var a: Action :| !a.Reopen? && Step(s, s', a);
      ReachableNext(s, s', a);
      if a.Issue? {
        IssueFrame(s, s', a);
      } else {
        FrameOfStep(s, s', a);
      }
      if |s'.log.visible| > |s.log.visible| {
        AppendIsShort(s);
        assert |s'.log.visible| <= tr[0].flush + |JoinLines(tr[i - 1].batch)|;
      }
    }
    if tr[0].pc == Select && tr[0].err == None {
      SelectIsShort(tr[0]);
      assert |tr[0].log.visible| <= tr[0].flush + |JoinLines(tr[0].batch)|;
    }
  }

  lemma SelectIsShort(s: State)
    requires Reachable(s) && s.pc == Select && s.err == None
    ensures |s.log.visible| < s.flush
  {
    hide Reachable, LogSafe, FilesSafe, Survives, ExactDir, ExactLog, Replay, AllLoggable, At, Queue, Tickets,
      JoinLines;
    ReachableInv(s);
  }

  // ----- Writes that were not acknowledged -----

  /**
   What becomes of any write, acknowledged or not, that nobody overwrites. The surviving log
   ends at position `j`, the surviving file of its collection is as at position `f`. The cell
   is recovered as at some position `i`, and the write is part of the history up to `i`, and
   so recovered, if and only if the log reaches past it; or the file does, and no older
   line of the log is replayed over it.
   */
  lemma WriteComesBack(s: State, p: nat, k: Cell, d: bytes, fs: Colls) returns (lo: nat, j: nat, f: nat, i: nat)
    requires Reachable(s) && CanLeaveLog(s.log, d) && CanLeaveDir(s.dir, fs) && KeepsFiles(s.dir, fs)
    requires p < |s.hist| && Wrote(s.hist[p], k).Some?
    requires forall q :: p < q < |s.hist| ==> Wrote(s.hist[q], k) == None
    ensures ParseLog(d).Parsed? && LogRange(s, d, lo, j) && lo <= j <= |s.hist| && s.safe <= j
    ensures s.lo <= f <= |s.hist| && Slot(fs, k.name) == Slot(At(s.base, s.hist, f), k.name)
    ensures i <= |s.hist| && Read(Recover(d, fs), k) == Read(At(s.base, s.hist, i), k)
    ensures p < i <==> p < j || (p < f && LastWrite(s.hist[lo..j], k) == None)
    ensures p < i ==> Read(Recover(d, fs), k) == Wrote(s.hist[p], k).value
  {
    hide Inv, Reachable, CanLeaveLog, CanLeaveDir, KeepsFiles, Read, At, Replay, LastWrite, ParseLog, Wrote, Slot,
      LogRange;
    ReachableInv(s);
    lo, j := CrashLog(s, d);
    CrashDir(s, fs, k.name);
    f :| s.lo <= f <= |s.hist| && Slot(fs, k.name) == Slot(At(s.base, s.hist, f), k.name);
    i := ReplayOverFile(s.base, s.hist, fs, lo, f, j, k);
    if p < i {
      ValueAt(s, p, k, i);
    }
  }

  lemma ValueAt(s: State, p: nat, k: Cell, i: nat)
    requires p < i <= |s.hist| && Wrote(s.hist[p], k).Some?
    requires forall q :: p < q < |s.hist| ==> Wrote(s.hist[q], k) == None
    ensures Read(At(s.base, s.hist, i), k) == Wrote(s.hist[p], k).value
  {
    hide Read, Replay, LastWrite, Wrote;
    ReplayCell(s.base, s.hist[..i], k);
    LastWriteIs(s.hist[..i], p, k);
  }

  /** A recovered cell is what the surviving log last wrote, or else what the file holds. */
  lemma RecoveredCell(s: State, d: bytes, fs: Colls, k: Cell) returns (lo: nat, j: nat)
    requires Reachable(s) && CanLeaveLog(s.log, d)
    ensures ParseLog(d).Parsed? && LogRange(s, d, lo, j) && lo <= j <= |s.hist| && s.safe <= j
    ensures ParseLog(d).recs == s.hist[lo..j]
    ensures Read(Recover(d, fs), k) == Over(LastWrite(s.hist[lo..j], k), Read(fs, k))
  {
    hide Inv, Reachable, CanLeaveLog, Read, Replay, LastWrite, ParseLog, LogRange;
    ReachableInv(s);
    lo, j := CrashLog(s, d);
    ReplayCell(fs, s.hist[lo..j], k);
  }
}
