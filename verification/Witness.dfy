/**
 Runs that show what is not promised: a crash that recovers a state the database never
 had, a write that was reported as failed and comes back, and a write that is lost where
 directories cannot be synced.
 */
module Witness {
  import opened Basics
  import opened Records
  import opened Codec
  import opened Names
  import opened Wal
  import opened Machine
  import opened Durability

  const R1: Record := Record(OP_SET, "a", "x", "1")
  const R2: Record := Record(OP_SET, "a", "x", "2")
  const R3: Record := Record(OP_SET, "b", "y", "1")

  /** The collections after all three. */
  const BOTH: Colls := map["a" := map["x" := "2"], "b" := map["y" := "1"]]

  lemma RecordsLoggable()
    ensures Loggable(R1) && Loggable(R2) && Loggable(R3)
  {
    AsciiIsUtf8(OP_SET);
    AsciiIsUtf8("a");
    AsciiIsUtf8("b");
    AsciiIsUtf8("x");
    AsciiIsUtf8("y");
    assert ValidName("a") && ValidName("b");
  }

  lemma FirstOpen(syncs: bool) returns (s: State)
    ensures ParseLog([]) == Parsed([], 0) && s == Opened(1, [], map[], syncs, map[], [], [], true)
    ensures Reachable(s)
  {
    EncodeNothing();
    s := Opened(1, [], map[], syncs, map[], [], [], true);
    assert Run([s]) && [s][|[s]| - 1] == s;
  }

  /** A freshly opened empty database with a snapshot threshold of one byte. */
  lemma Fresh(syncs: bool) returns (s: State)
    ensures Reachable(s)
    ensures s.colls == map[] && s.dirty == {} && !s.closed && s.writer == Free && s.mode == Running && s.pc == Select
    ensures s.pending == [] && s.commit == None && s.created == 0 && s.results == [] && s.tickets == [] && s.batch == []
    ensures s.err == None && s.size == 0 && s.flush == 1 && s.log == Log([], []) && s.dir == Dir(map[], map[], syncs)
    ensures s.base == map[] && s.hist == []
      && s.start == s.lo == s.loD == s.logged == s.done == s.drained == s.safe == 0
  {
    hide Reachable;
    var s0 := FirstOpen(syncs);
    var s1 := s0.(size := 0, pc := Snap);
    ReachableNext(s0, s1, Cut);
    s := AfterSnap(s1, None);
    ReachableNext(s1, s, SnapSkip);
  }

  /** One complete call of `write` by one writer, up to waiting for its commit. */
  lemma WriteOne(s: State, r: Record) returns (t: State)
    requires Reachable(s) && s.mode == Running && !s.closed && s.writer == Free && Loggable(r)
    ensures Reachable(t)
    ensures
      var c := if s.commit == None then s.created else s.commit.value;
      t == s.(colls := Apply(s.colls, r),
              dirty := s.dirty + (if Marks(s.colls, r) then {r.coll} else {}),
              hist := s.hist + [r], commit := Some(c),
              created := if s.commit == None then s.created + 1 else s.created,
              pending := s.pending + Lines([r]), tickets := s.tickets + [c], notify := true)
  {
    hide Reachable, Loggable, Apply, Marks, Lines;
    var s1 := s.(colls := Apply(s.colls, r), dirty := s.dirty + (if Marks(s.colls, r) then {r.coll} else {}),
                 hist := s.hist + [r], writer := Applied(r));
    ReachableNext(s, s1, Issue(r));
    var c := if s.commit == None then s.created else s.commit.value;
    var s2 := s1.(commit := Some(c), created := if s.commit == None then s.created + 1 else s.created,
                  pending := s.pending + Lines([r]), tickets := s.tickets + [c], writer := Queued);
    ReachableNext(s1, s2, Enqueue);
    t := s2.(notify := true, writer := Free);
    ReachableNext(s2, t, Signal);
  }

  /** The worker takes everything pending and appends it. */
  lemma AppendAll(s: State) returns (t: State)
    requires Reachable(s) && s.pc == Select && s.notify && s.err == None
    requires s.commit.Some? && s.pending != []
    ensures Reachable(t)
    ensures
      t == s.(notify := false, pending := [], commit := None, batch := s.pending, drained := s.drained + |s.pending|,
              log := s.log.(visible := s.log.visible + JoinLines(s.pending)), logged := s.drained + |s.pending|,
              pc := SyncLog)
  {
    hide Reachable, JoinLines;
    var s1 := s.(notify := false, pc := Drain);
    ReachableNext(s, s1, TakeNotify);
    var s2 := s1.(pending := [], commit := None, batch := s.pending, drained := s.drained + |s.pending|, pc := Append);
    ReachableNext(s1, s2, Detach);
    t := s2.(log := s.log.(visible := s.log.visible + JoinLines(s.pending)), logged := s2.drained, pc := SyncLog);
    ReachableNext(s2, t, AppendOk);
  }

  /** The sync succeeds and the batch is acknowledged; it fills the log, so a snapshot follows. */
  lemma SyncAll(s: State) returns (t: State)
    requires Reachable(s) && s.pc == SyncLog && s.mode == Running && s.err == None && s.flush == 1 && s.batch != []
    ensures Reachable(t)
    ensures
      t == s.(log := Log(s.log.visible, s.log.visible), size := s.size + |JoinLines(s.batch)|,
              results := s.results + [None],
              done := s.drained, safe := s.drained, batch := [], pc := Snap)
  {
    hide Reachable, JoinLines;
    BatchNotEmpty(s.batch);
    var s1 := s.(log := Log(s.log.visible, s.log.visible), size := s.size + |JoinLines(s.batch)|, pc := Complete);
    ReachableNext(s, s1, SyncOk);
    t := s1.(results := s.results + [None], done := s.drained, safe := s.drained, batch := [], pc := Snap);
    ReachableNext(s1, t, Release);
  }

  /** The worker logs and acknowledges everything pending. */
  lemma LogAll(s: State) returns (t: State)
    requires Reachable(s) && s.pc == Select && s.notify && s.mode == Running && s.err == None && s.flush == 1
    requires s.commit.Some? && s.pending != [] && s.batch == []
    ensures Reachable(t)
    ensures
      var log := s.log.visible + JoinLines(s.pending);
      t == s.(notify := false, pending := [], commit := None, log := Log(log, log), logged := s.drained + |s.pending|,
              drained := s.drained + |s.pending|, size := s.size + |JoinLines(s.pending)|,
              results := s.results + [None],
              done := s.drained + |s.pending|, safe := s.drained + |s.pending|, pc := Snap)
  {
    hide Reachable, JoinLines;
    t := AppendAll(s);
    t := SyncAll(t);
  }

  lemma BatchNotEmpty(batch: seq<bytes>)
    requires batch != []
    ensures |JoinLines(batch)| > 0
  {}

  /** A snapshot starts and has replaced the file of `b` only. */
  lemma ReplaceB(s: State) returns (t: State)
    requires Reachable(s) && s.pc == Snap && s.err == None && s.writer == Free
    requires "b" in s.dirty && "b" in s.colls && s.dir == Dir(map[], map[], true)
    ensures Reachable(t)
    ensures t.log == s.log && t.hist == s.hist && t.base == s.base
    ensures t.dir == Dir(map["b" := s.colls["b"]], map["b" := s.colls["b"]], true)
  {
    hide Reachable;
    var s1 := s.(dirty := {}, pc := Files(s.colls, |s.hist|, s.dirty));
    ReachableNext(s, s1, Capture);
    var fs: Colls := map["b" := s.colls["b"]];
    assert PutSlot(map[], "b", Slot(s.colls, "b")) == fs;
    var s2 := s1.(dir := Dir(map[], fs, true), pc := DirSync(s.colls, |s.hist|, s.dirty, "b"));
    ReachableNext(s1, s2, Replace("b"));
    t := s2.(dir := Dir(fs, fs, true), pc := Files(s.colls, |s.hist|, s.dirty - {"b"}));
    ReachableNext(s2, t, DirSyncOk);
  }

  /** [set a 1] is logged, [set a 2, set b 1] are pending, and a snapshot is half done. */
  lemma HalfSnapshot() returns (s: State)
    ensures Reachable(s) && s.base == map[] && s.hist == [R1, R2, R3]
    ensures s.log.durable == EncodeLog([R1]) && s.dir.durable == map["b" := map["y" := "1"]]
  {
    hide Reachable, EncodeRecord, Loggable, JoinLines, Lines;
    RecordsLoggable();
    var s0 := Fresh(true);
    var s1 := WriteOne(s0, R1);
    assert Lines([R1]) != [] by { assert |Lines([R1])| == 1; }
    var s2 := LogAll(s1);
    var s3 := WriteOne(s2, R2);
    var s4 := WriteOne(s3, R3);
    s := ReplaceB(s4);
    assert [] + Lines([R1]) == Lines([R1]);
  }

  /** Whole-database prefix consistency fails: a crash of this run recovers no state the database ever had. */
  lemma NotAWholePrefix() returns (s: State, d: bytes, fs: Colls)
    ensures Reachable(s) && CanLeaveLog(s.log, d) && CanLeaveDir(s.dir, fs)
    ensures ParseLog(d).Parsed?
    ensures forall i: nat :: i <= |s.hist| ==> Recover(d, fs) != At(s.base, s.hist, i)
  {
    hide Reachable, EncodeRecord, Loggable, EncodeLog;
    s := HalfSnapshot();
    d, fs := s.log.durable, s.dir.durable;
    assert d[|d|..] == [];
    RecordsLoggable();
    ParseShape(d, [R1]);
    RecoveredMix(fs);
  }

  lemma RecoveredMix(fs: Colls)
    requires fs == map["b" := map["y" := "1"]] || fs == BOTH
    ensures forall i: nat :: i <= 3 ==> Records.Replay(fs, [R1]) != At(map[], [R1, R2, R3], i)
  {
    var h := [R1, R2, R3];
    var ax, b := DocOf("a", "x"), Exists("b");
    var got := Records.Replay(fs, [R1]);
    ReplayCell(fs, [R1], ax);
    ReplayCell(fs, [R1], b);
    assert Read(got, ax) == Some("1") && Read(got, b) == Some("");
    forall i: nat | i <= 3 ensures got != At(map[], h, i) {
      ReplayCell(map[], h[..i], ax);
      ReplayCell(map[], h[..i], b);
      assert h[..0] == [] && h[..1] == [R1] && h[..2] == [R1, R2] && h[..3] == [R1, R2, R3];
      assert [R1, R2, R3][..2] == [R1, R2] && [R1, R2][..1] == [R1] && [R1][..0] == [];
    }
  }

  // ----- The same after a complete snapshot -----

  /** One captured collection is saved where directories can be synced. */
  lemma SaveOne(s: State, n: bytes) returns (t: State)
    requires Reachable(s) && s.pc.Files? && n in s.pc.todo && n in s.pc.cap
      && s.dir == Dir(s.dir.visible, s.dir.visible, true)
    ensures Reachable(t)
    ensures
      var fs := s.dir.visible[n := s.pc.cap[n]];
      t == s.(dir := Dir(fs, fs, true), pc := Files(s.pc.cap, s.pc.at, s.pc.todo - {n}))
  {
    hide Reachable;
    var fs := s.dir.visible[n := s.pc.cap[n]];
    var s1 := s.(dir := Dir(s.dir.visible, fs, true), pc := DirSync(s.pc.cap, s.pc.at, s.pc.todo, n));
    ReachableNext(s, s1, Replace(n));
    t := s1.(dir := Dir(fs, fs, true), pc := Files(s.pc.cap, s.pc.at, s.pc.todo - {n}));
    ReachableNext(s1, t, DirSyncOk);
  }

  /** At a tick: a complete snapshot of two new collections. */
  lemma SaveBoth(s: State) returns (t: State)
    requires Reachable(s) && s.pc == Select && s.mode == Running && s.err == None && s.writer == Free
    requires s.dir == Dir(map[], map[], true) && s.dirty == {"a", "b"} && "a" in s.colls && "b" in s.colls
    ensures Reachable(t)
    ensures
      var fs: Colls := map["a" := s.colls["a"], "b" := s.colls["b"]];
      t == s.(dirty := {}, dir := Dir(fs, fs, true), log := Log([], []), lo := s.logged, loD := s.logged, size := 0)
  {
    hide Reachable;
    var s1 := s.(pc := Snap);
    ReachableNext(s, s1, Tick);
    var s2 := s1.(dirty := {}, pc := Files(s.colls, |s.hist|, {"a", "b"}));
    ReachableNext(s1, s2, Capture);
    var s3 := SaveOne(s2, "a");
    var s4 := SaveOne(s3, "b");
    assert {"a", "b"} - {"a"} - {"b"} == {};
    t := EmptyWhole(s4);
  }

  lemma ThreeApplied()
    ensures Apply(Apply(Apply(map[], R1), R2), R3) == BOTH
  {
    assert Apply(map[], R1) == map["a" := map["x" := "1"]];
    var one: Coll := map["x" := "1"];
    assert one["x" := "2"] == map["x" := "2"];
    assert Apply(map["a" := one], R2) == map["a" := map["x" := "2"]];
  }

  /** Three writes are pending, a whole snapshot has captured them, and the worker has appended their batch. */
  lemma CapturedAndAppended() returns (s: State)
    ensures Reachable(s) && s.pc == SyncLog && s.err == None && s.base == map[] && s.hist == [R1, R2, R3]
    ensures s.log == Log([], EncodeLog(s.hist))
    ensures s.dir == Dir(BOTH, BOTH, true)
  {
    hide Reachable, EncodeRecord, Loggable, JoinLines, Lines;
    RecordsLoggable();
    var s0 := Fresh(true);
    var s1 := WriteOne(s0, R1);
    var s2 := WriteOne(s1, R2);
    var s3 := WriteOne(s2, R3);
    OneLineEach(R1);
    OneLineEach(R2);
    OneLineEach(R3);
    LinesConcat([R1], [R2]);
    LinesConcat([R1, R2], [R3]);
    assert [R1] + [R2] == [R1, R2] && [R1, R2] + [R3] == [R1, R2, R3];
    assert s3.pending == Lines([R1, R2, R3]);
    ThreeApplied();
    assert s3.dirty == {"a", "b"};
    assert map["a" := BOTH["a"], "b" := BOTH["b"]] == BOTH;
    var s4 := SaveBoth(s3);
    s := AppendAll(s4);
    assert [] + JoinLines(Lines([R1, R2, R3])) == JoinLines(Lines([R1, R2, R3]));
  }

  /** No snapshot is under way, every file is settled and no error has occurred; a crash still mixes positions. */
  lemma NotAWholePrefixLater() returns (s: State, d: bytes, fs: Colls)
    ensures Reachable(s) && s.pc == SyncLog && s.err == None && s.dir == Dir(fs, fs, true)
    ensures CanLeaveLog(s.log, d) && CanLeaveDir(s.dir, fs) && ParseLog(d).Parsed?
    ensures forall i: nat :: i <= |s.hist| ==> Recover(d, fs) != At(s.base, s.hist, i)
  {
    hide Reachable, EncodeRecord, Loggable, EncodeLog;
    s := CapturedAndAppended();
    RecordsLoggable();
    d, fs := EncodeLog([R1]), s.dir.visible;
    assert [R1] + [R2, R3] == [R1, R2, R3];
    EncodeConcat([R1], [R2, R3]);
    assert d[|d|..] == [];
    ParseShape(d, [R1]);
    RecoveredMix(fs);
  }

  // ----- A failed write may come back -----

  /** The batch is appended, its sync fails, and its waiter is told so. */
  lemma FailSync(s: State, e: Error) returns (t: State)
    requires Reachable(s) && s.pc == SyncLog && s.mode == Running && s.size < s.flush
    ensures Reachable(t)
    ensures t == s.(err := Some(e), results := s.results + [Some(e)], done := s.drained, batch := [], pc := Select)
  {
    hide Reachable;
    var s1 := s.(err := Some(e), pc := Complete);
    ReachableNext(s, s1, SyncFail(e));
    t := s1.(results := s.results + [Some(e)], done := s.drained, batch := [], pc := Select);
    ReachableNext(s1, t, Release);
  }

  /**
   A write that was reported as failed: one crash brings it back, another does not. The
   condition is `Durability.WriteComesBack`.
   */
  lemma FailedWriteReturns(e: Error) returns (s: State, kept: bytes, lost: bytes)
    ensures Reachable(s) && s.hist == [R1] && Outcome(s, 0) == Some(Some(e))
    ensures CanLeaveLog(s.log, kept) && CanLeaveLog(s.log, lost) && CanLeaveDir(s.dir, s.dir.visible)
    ensures ParseLog(kept).Parsed? && Read(Recover(kept, s.dir.visible), DocOf("a", "x")) == Some("1")
    ensures ParseLog(lost).Parsed? && Read(Recover(lost, s.dir.visible), DocOf("a", "x")) == None
  {
    hide Reachable, EncodeRecord, Loggable, JoinLines, Lines, ParseLog, Recover;
    RecordsLoggable();
    s := FailedRun(e);
    kept, lost := s.log.visible, s.log.durable;
    LoggedAlone();
  }

  lemma FailedRun(e: Error) returns (s: State)
    requires Loggable(R1)
    ensures Reachable(s) && s.hist == [R1] && s.tickets == [0] && s.results == [Some(e)]
    ensures s.log == Log([], JoinLines(Lines([R1]))) && s.dir == Dir(map[], map[], true)
  {
    hide Reachable, EncodeRecord, Loggable, JoinLines, Lines, Apply, Marks;
    var s0 := Fresh(true);
    var s1 := WriteOne(s0, R1);
    OneLineEach(R1);
    assert [] + Lines([R1]) == Lines([R1]);
    assert s1.pending == Lines([R1]) && s1.commit == Some(0) && s1.created == 1;
    var s2 := AppendAll(s1);
    assert [] + JoinLines(Lines([R1])) == JoinLines(Lines([R1]));
    s := FailSync(s2, e);
  }

  lemma OneLineEach(r: Record)
    ensures |Lines([r])| == 1
  {
    hide EncodeRecord;
  }

  lemma LoggedAlone()
    requires Loggable(R1)
    ensures ParseLog(JoinLines(Lines([R1]))).Parsed?
      && Read(Recover(JoinLines(Lines([R1])), map[]), DocOf("a", "x")) == Some("1")
    ensures ParseLog([]).Parsed? && Read(Recover([], map[]), DocOf("a", "x")) == None
  {
    hide EncodeRecord, Loggable;
    EncodeNothing();
    var d := EncodeLog([R1]);
    assert d[|d|..] == [];
    ParseShape(d, [R1]);
    ReplayCell(map[], [R1], DocOf("a", "x"));
  }

  // ----- Without directory syncs -----

  /** No crash takes a cell back to before the last acknowledged write. */
  ghost predicate CrashProof(s: State) {
    forall d, fs, k :: CanLeaveLog(s.log, d) && CanLeaveDir(s.dir, fs) && ParseLog(d).Parsed? ==>
      CellAtOrAfterAcked(s, Recover(d, fs), k)
  }

  /** A whole snapshot of the collection `a` where directory syncs have no effect. */
  lemma SnapshotA(s: State) returns (t: State)
    requires Reachable(s) && s.pc == Snap && s.err == None && s.writer == Free && s.mode == Running
    requires s.dirty == {"a"} && "a" in s.colls && s.dir == Dir(map[], map[], false)
    ensures Reachable(t)
    ensures t.log == Log([], []) && t.hist == s.hist && t.base == s.base && t.safe == s.safe
    ensures t.dir == Dir(map[], map["a" := s.colls["a"]], false)
  {
    hide Reachable;
    var n := |s.hist|;
    var s1 := s.(dirty := {}, pc := Files(s.colls, n, {"a"}));
    ReachableNext(s, s1, Capture);
    var fs: Colls := map["a" := s.colls["a"]];
    assert PutSlot(map[], "a", Slot(s.colls, "a")) == fs;
    var s2 := s1.(dir := Dir(map[], fs, false), pc := DirSync(s.colls, n, {"a"}, "a"));
    ReachableNext(s1, s2, Replace("a"));
    assert {"a"} - {"a"} == {};
    var s3 := s2.(pc := Files(s.colls, n, {}));
    ReachableNext(s2, s3, DirSyncOk);
    t := EmptyWhole(s3);
  }

  lemma EmptyWhole(s: State) returns (t: State)
    requires Reachable(s) && s.pc.Files? && s.pc.todo == {} && s.mode == Running
    ensures Reachable(t)
    ensures
      t == s.(log := Log([], []), lo := s.logged, loD := s.logged, size := 0, err := None, pc := Select)
  {
    hide Reachable;
    var s1 := s.(log := s.log.(visible := []), lo := s.logged, pc := TruncSync(s.pc.cap, s.pc.at));
    ReachableNext(s, s1, Truncate);
    t := AfterSnap(s1.(log := Log([], []), loD := s1.lo, size := 0), None);
    ReachableNext(s1, t, TruncSyncOk);
  }

  /** An acknowledged write that a crash loses, because the rename of its file was never made durable. */
  lemma UnsyncedRenameLoses() returns (s: State)
    ensures Reachable(s) && !s.dir.syncs && !CrashProof(s)
  {
    hide Reachable, EncodeRecord, Loggable, JoinLines, Lines;
    RecordsLoggable();
    var s0 := Fresh(false);
    var s1 := WriteOne(s0, R1);
    OneLineEach(R1);
    var s2 := LogAll(s1);
    s := SnapshotA(s2);
    LostForGood(s);
  }

  lemma LostForGood(s: State)
    requires s.hist == [R1] && s.base == map[] && s.safe == 1 && s.log == Log([], []) && s.dir.durable == map[]
    ensures !CrashProof(s)
  {
    var k := DocOf("a", "x");
    EncodeNothing();
    assert s.hist[..1] == [R1];
    ReplayCell(map[], [R1], k);
    ReplayCell(map[], [], k);
    assert !CellAtOrAfterAcked(s, Recover([], map[]), k);
    assert CanLeaveLog(s.log, []) && CanLeaveDir(s.dir, map[]);
  }

  /** Power losses are survived if and only if directories can be synced. */
  lemma CrashProofIffSynced(syncs: bool)
    ensures (forall s :: Reachable(s) && s.dir.syncs == syncs ==> CrashProof(s)) <==> syncs
  {
    if syncs {
      forall s | Reachable(s) && s.dir.syncs ensures CrashProof(s) {
        forall d, fs, k | CanLeaveLog(s.log, d) && CanLeaveDir(s.dir, fs) && ParseLog(d).Parsed?
          ensures CellAtOrAfterAcked(s, Recover(d, fs), k)
        {
          hide Reachable, CanLeaveLog, CanLeaveDir, ParseLog;
          CrashDurability(s, d, fs);
        }
      }
    } else {
      var s := UnsyncedRenameLoses();
    }
  }
}
