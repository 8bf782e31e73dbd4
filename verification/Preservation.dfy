/** Every step of the machine keeps the invariant. */
module Preservation {
  import opened Basics
  import opened Records
  import opened Wal
  import opened Machine
  import opened Invariants

  // ----- The history grows by one record -----

  lemma HoldsGrows(d: bytes, hist: seq<Record>, r: Record, lo: nat, safe: nat)
    requires Holds(d, hist, lo, safe)
    ensures Holds(d, hist + [r], lo, safe)
  {
    hide Shape;
    var j := lo + Newlines(d);
    assert (hist + [r])[lo..j] == hist[lo..j];
  }

  lemma LogSafeGrows(log: Log, hist: seq<Record>, r: Record, lo: nat, loD: nat, safe: nat)
    requires LogSafe(log, hist, lo, loD, safe)
    ensures LogSafe(log, hist + [r], lo, loD, safe)
  {
    HoldsGrows(log.visible, hist, r, lo, safe);
    HoldsGrows(log.durable, hist, r, loD, safe);
  }

  lemma ReflectsGrows(fs: Colls, n: bytes, base: Colls, hist: seq<Record>, r: Record, lo: nat)
    requires Reflects(fs, n, base, hist, lo)
    ensures Reflects(fs, n, base, hist + [r], lo)
  {
    var f: nat :| lo <= f <= |hist| && Slot(fs, n) == Slot(At(base, hist, f), n);
    AtExtends(base, hist, [r], f);
    assert Slot(fs, n) == Slot(At(base, hist + [r], f), n);
  }

  lemma FilesSafeGrows(dir: Dir, base: Colls, hist: seq<Record>, r: Record, lo: nat)
    requires FilesSafe(dir, base, hist, lo)
    ensures FilesSafe(dir, base, hist + [r], lo)
  {
    hide Reflects;
    forall n
      ensures Reflects(dir.visible, n, base, hist + [r], lo)
      ensures dir.syncs ==> Reflects(dir.durable, n, base, hist + [r], lo)
    {
      ReflectsGrows(dir.visible, n, base, hist, r, lo);
      if dir.syncs {
        ReflectsGrows(dir.durable, n, base, hist, r, lo);
      }
    }
  }

  lemma ExactDirGrows(pc: Pc, dir: Dir, dirty: set<bytes>, colls: Colls, base: Colls, hist: seq<Record>, logged: nat,
                      r: Record)
    requires ExactDir(pc, dir, dirty, colls, base, hist, logged)
    ensures
      ExactDir(pc, dir, dirty + (if Marks(colls, r) then {r.coll} else {}), Apply(colls, r), base, hist + [r], logged)
  {
    var dirty' := dirty + (if Marks(colls, r) then {r.coll} else {});
    forall n | n !in dirty' ensures Slot(Apply(colls, r), n) == Slot(colls, n) {
      UnmarkedSlot(colls, r, n);
    }
    if pc.Files? || pc.DirSync? || pc.TruncSync? {
      AtExtends(base, hist, [r], pc.at);
    }
  }

  lemma QueueGrows(hist: seq<Record>, r: Record, batch: seq<bytes>, pending: seq<bytes>, done: nat, drained: nat,
                   entered: int)
    requires Queue(hist, batch, pending, done, drained, entered)
    ensures Queue(hist + [r], batch, pending, done, drained, entered)
  {
    assert (hist + [r])[done..drained] == hist[done..drained];
    assert (hist + [r])[drained..entered] == hist[drained..entered];
  }

  lemma ExactLogGrows(pc: Pc, log: Log, hist: seq<Record>, r: Record, lo: nat, loD: nat, logged: nat, done: nat,
                      drained: nat)
    requires ExactLog(pc, log, hist, lo, loD, logged, done, drained) && !pc.Repair? && !pc.RepairSync?
    ensures ExactLog(pc, log, hist + [r], lo, loD, logged, done, drained)
  {
    assert (hist + [r])[lo..logged] == hist[lo..logged];
    assert (hist + [r])[lo..done] == hist[lo..done];
  }

  lemma InvIssue(s: State, s': State, r: Record)
    requires Inv(s) && IssueStep(s, s', r)
    ensures Inv(s')
  {
    hide Loggable, LogSafe, FilesSafe, ExactDir, ExactLog, SizeOk, Survives, Queue, Tickets;
    assert s'.hist[..|s'.hist| - 1] == s.hist;
    QueueGrows(s.hist, r, s.batch, s.pending, s.done, s.drained, Entered(s));
    LogSafeGrows(s.log, s.hist, r, s.lo, s.loD, s.safe);
    FilesSafeGrows(s.dir, s.base, s.hist, r, s.lo);
    AtExtends(s.base, s.hist, [r], s.start);
    if s.err == None {
      ExactLogGrows(s.pc, s.log, s.hist, r, s.lo, s.loD, s.logged, s.done, s.drained);
      ExactDirGrows(s.pc, s.dir, s.dirty, s.colls, s.base, s.hist, s.logged, r);
    }
  }

  lemma QueueTakes(hist: seq<Record>, r: Record, batch: seq<bytes>, pending: seq<bytes>, done: nat, drained: nat,
                   entered: int)
    requires Queue(hist, batch, pending, done, drained, entered)
    requires entered == |hist| - 1 && r == hist[entered]
    ensures Queue(hist, batch, pending + Lines([r]), done, drained, |hist|)
  {
    assert hist[drained..|hist|] == hist[drained..entered] + [r];
    LinesConcat(hist[drained..entered], [r]);
  }

  lemma TicketsTake(s: State, c: nat, created': nat)
    requires Bounds(s) && s.start <= Entered(s)
    requires Tickets(s.tickets, s.results, s.created, s.commit, s.err, s.start, s.safe, s.done, s.drained, Entered(s))
    requires c == if s.commit == None then s.created else s.commit.value
    requires created' == if s.commit == None then s.created + 1 else s.created
    ensures Tickets(s.tickets + [c], s.results, created', Some(c), s.err, s.start, s.safe, s.done, s.drained,
                    Entered(s) + 1)
  {
    var ts := s.tickets + [c];
    forall i | 0 <= i < |ts|
      ensures TicketOk(s.start + i, ts[i], s.results, created', s.err, s.safe, s.done, s.drained)
    {
      if i < |s.tickets| {
        assert ts[i] == s.tickets[i];
        assert TicketOk(s.start + i, s.tickets[i], s.results, s.created, s.err, s.safe, s.done, s.drained);
      }
    }
  }

  lemma InvEnqueue(s: State, s': State)
    requires Inv(s) && EnqueueStep(s, s')
    ensures Inv(s')
  {
    hide Loggable, LogSafe, FilesSafe, ExactDir, ExactLog, SizeOk, Survives, Queue, Tickets;
    var c := if s.commit == None then s.created else s.commit.value;
    QueueTakes(s.hist, s.writer.rec, s.batch, s.pending, s.done, s.drained, Entered(s));
    TicketsTake(s, c, if s.commit == None then s.created + 1 else s.created);
  }

  lemma TicketsCommit(s: State)
    requires Inv(s)
    ensures s.commit.Some? <==> s.drained < Entered(s)
  {
    hide LogSafe, FilesSafe, Survives, Queue, Exact, Control, AllLoggable, Replay, At, TicketOk;
  }

  predicate Idle(pc: Pc) { !pc.Files? && !pc.DirSync? && !pc.TruncSync? }

  lemma InvSelect(s: State, s': State, a: Action)
    requires Inv(s) && SelectStep(s, s', a)
    ensures Inv(s')
  {
    hide Loggable, AllLoggable, LogSafe, FilesSafe, Survives, Queue, Tickets, ExactDir, Replay, At, JoinLines,
      EncodeLog;
    TicketsCommit(s);
    ExactDirIdle(s, s'.pc, s'.logged);
  }

  lemma ExactDirIdle(s: State, pc': Pc, logged': nat)
    requires Exact(s) && Idle(s.pc) && Idle(pc')
    ensures s.err == None ==> ExactDir(pc', s.dir, s.dirty, s.colls, s.base, s.hist, logged')
  {}

  lemma InvControl(s: State, s': State)
    requires Inv(s) && (SignalStep(s, s') || CloseStep(s, s') || StopStep(s, s'))
    ensures Inv(s')
  {
    hide Loggable, AllLoggable, LogSafe, FilesSafe, Survives, Queue, Tickets, ExactDir, ExactLog, SizeOk, Replay, At;
  }

  // ----- writeLog -----

  lemma TicketsDetach(s: State)
    requires Bounds(s) && s.done == s.drained && s.commit.Some?
    requires Tickets(s.tickets, s.results, s.created, s.commit, s.err, s.start, s.safe, s.done, s.drained, Entered(s))
    ensures s.drained < Entered(s)
    ensures Tickets(s.tickets, s.results, s.created, None, s.err, s.start, s.safe, s.done, Entered(s), Entered(s))
  {
    forall i | 0 <= i < |s.tickets|
      ensures TicketOk(s.start + i, s.tickets[i], s.results, s.created, s.err, s.safe, s.done, Entered(s))
    {
      assert TicketOk(s.start + i, s.tickets[i], s.results, s.created, s.err, s.safe, s.done, s.drained);
    }
  }

  lemma QueueDetach(hist: seq<Record>, batch: seq<bytes>, pending: seq<bytes>, done: nat, entered: int)
    requires Queue(hist, batch, pending, done, done, entered)
    ensures |pending| == entered - done
    ensures Queue(hist, pending, [], done, entered, entered)
  {}

  lemma InvDetach(s: State, s': State)
    requires Inv(s) && DetachStep(s, s')
    ensures Inv(s')
  {
    hide Core, Exact, DetachStep;
    if s.commit.Some? {
      CoreDetach(s, s');
    } else {
      CoreNothingToDrain(s, s');
    }
    ExactDetach(s, s');
  }

  lemma CoreDetach(s: State, s': State)
    requires Inv(s) && DetachStep(s, s') && s.commit.Some?
    ensures Core(s')
  {
    hide Loggable, AllLoggable, LogSafe, FilesSafe, Survives, Queue, Tickets, Exact, Replay, At, JoinLines,
      EncodeLog, TicketOk, AfterLog;
    TicketsDetach(s);
    QueueDetach(s.hist, s.batch, s.pending, s.done, Entered(s));
  }

  lemma CoreNothingToDrain(s: State, s': State)
    requires Inv(s) && DetachStep(s, s') && s.commit == None
    ensures Core(s')
  {
    hide Loggable, AllLoggable, LogSafe, FilesSafe, Survives, Queue, Tickets, Exact, Replay, At, JoinLines,
      EncodeLog, TicketOk;
    TicketsCommit(s);
    QueueDetach(s.hist, s.batch, s.pending, s.done, Entered(s));
    assert s.pending == [];
  }

  lemma ExactDetach(s: State, s': State)
    requires Inv(s) && DetachStep(s, s')
    ensures Exact(s')
  {
    hide Core, Exact, DetachStep;
    DrainHasNoBatch(s, s');
    if s.commit.Some? {
      ExactTaken(s, s');
    } else {
      ExactUntaken(s, s');
    }
  }

  lemma DrainHasNoBatch(s: State, s': State)
    requires Inv(s) && DetachStep(s, s')
    ensures s.done == s.drained && s.drained + |s.pending| <= |s.hist| && (s.commit.Some? ==> |s.pending| > 0)
  {
    hide Loggable, AllLoggable, LogSafe, FilesSafe, Survives, Exact, Replay, At, JoinLines, EncodeLog, TicketOk;
    assert s.pc == Drain;
    hide DetachStep;
    TicketsCommit(s);
    QueueDetach(s.hist, s.batch, s.pending, s.done, Entered(s));
  }

  lemma ExactTaken(s: State, s': State)
    requires Exact(s) && DetachStep(s, s') && s.commit.Some? && |s.pending| > 0
    requires s.done == s.drained && s.drained + |s.pending| <= |s.hist|
    ensures Exact(s')
  {
    hide ExactDir, JoinLines, EncodeLog;
    ExactDirIdle(s, s'.pc, s'.logged);
  }

  lemma ExactUntaken(s: State, s': State)
    requires Exact(s) && DetachStep(s, s') && s.commit == None && s.done == s.drained
    ensures Exact(s')
  {
    hide ExactDir, JoinLines, EncodeLog;
    ExactDirIdle(s, s'.pc, s'.logged);
  }

  lemma {:induction false} SliceLoggable(rs: seq<Record>, a: nat, b: nat)
    requires AllLoggable(rs) && a <= b <= |rs|
    ensures AllLoggable(rs[a..b])
  {
    hide Loggable;
  }

  /** A log that ends in the middle of an append still holds every acknowledged record. */
  lemma AppendHolds(hist: seq<Record>, lo: nat, a: nat, b: nat, safe: nat, kept: nat)
    requires AllLoggable(hist) && lo <= a <= b <= |hist| && safe <= a
    requires kept <= |EncodeLog(hist[a..b])|
    ensures Holds(EncodeLog(hist[lo..a]) + EncodeLog(hist[a..b])[..kept], hist, lo, safe)
  {
    hide Loggable, AllLoggable, EncodeLog, Shape;
    var head := EncodeLog(hist[lo..a]);
    var d := head + EncodeLog(hist[a..b])[..kept];
    assert hist[lo..b] == hist[lo..a] + hist[a..b];
    EncodeConcat(hist[lo..a], hist[a..b]);
    assert d <= EncodeLog(hist[lo..b]) + [];
    SliceLoggable(hist, lo, b);
    PrefixShape(d, hist[lo..b], []);
    SliceLoggable(hist, lo, a);
    EncodedNewlines(hist[lo..a]);
    NewlinesConcat(head, EncodeLog(hist[a..b])[..kept]);
    var j := lo + Newlines(d);
    assert hist[lo..b][..Newlines(d)] == hist[lo..j];
  }

  lemma AppendLog(s: State, s': State, a: Action)
    requires Inv(s) && AppendStep(s, s', a)
    ensures LogSafe(s'.log, s.hist, s.lo, s.loD, s.safe)
    ensures a == AppendOk ==> s'.log.visible == EncodeLog(s.hist[s.lo..s.drained])
  {
    hide Loggable, AllLoggable, FilesSafe, Survives, Tickets, ExactDir, Replay, At, Holds, Lines, JoinLines, SizeOk;
    var h := s.hist;
    var buf := JoinLines(s.batch);
    assert buf == EncodeLog(h[s.done..s.drained]);
    assert s.log.visible == EncodeLog(h[s.lo..s.done]);
    assert buf[..|buf|] == buf;
    AppendHolds(h, s.lo, s.done, s.drained, s.safe, if a.AppendFail? then a.kept else |buf|);
    assert h[s.lo..s.drained] == h[s.lo..s.done] + h[s.done..s.drained];
    EncodeConcat(h[s.lo..s.done], h[s.done..s.drained]);
  }

  lemma InvAppend(s: State, s': State, a: Action)
    requires Inv(s) && AppendStep(s, s', a)
    ensures Inv(s')
  {
    hide Loggable, AllLoggable, FilesSafe, LogSafe, Survives, Tickets, Queue, ExactDir, Replay, At, JoinLines,
      EncodeLog;
    AppendLog(s, s', a);
    ExactDirIdle(s, s'.pc, s'.logged);
    TicketsFail(s, s'.err);
  }

  /** While every closed commit has succeeded, failing now changes no earlier outcome. */
  lemma TicketsFail(s: State, err: Status)
    requires s.safe == s.done
    requires Tickets(s.tickets, s.results, s.created, s.commit, s.err, s.start, s.safe, s.done, s.drained, Entered(s))
    ensures Tickets(s.tickets, s.results, s.created, s.commit, err, s.start, s.safe, s.done, s.drained, Entered(s))
  {
    forall i | 0 <= i < |s.tickets|
      ensures TicketOk(s.start + i, s.tickets[i], s.results, s.created, err, s.safe, s.done, s.drained)
    {
      assert TicketOk(s.start + i, s.tickets[i], s.results, s.created, s.err, s.safe, s.done, s.drained);
    }
  }

  lemma InvSync(s: State, s': State, a: Action)
    requires Inv(s) && SyncStep(s, s', a)
    ensures Inv(s')
  {
    hide Loggable, AllLoggable, FilesSafe, Survives, Tickets, ExactDir, Replay, At, JoinLines, Holds, Queue, EncodeLog;
    ExactDirIdle(s, s'.pc, s'.logged);
    TicketsFail(s, s'.err);
  }

  lemma TicketsRelease(s: State)
    requires Bounds(s) && s.done < s.drained
    requires Tickets(s.tickets, s.results, s.created, s.commit, s.err, s.start, s.safe, s.done, s.drained, Entered(s))
    ensures
      var safe := if s.err == None then s.drained else s.safe;
      Tickets(s.tickets, s.results + [s.err], s.created, s.commit, s.err, s.start, safe, s.drained, s.drained,
              Entered(s))
  {
    var safe := if s.err == None then s.drained else s.safe;
    var results := s.results + [s.err];
    forall i | 0 <= i < |s.tickets|
      ensures TicketOk(s.start + i, s.tickets[i], results, s.created, s.err, safe, s.drained, s.drained)
    {
      assert TicketOk(s.start + i, s.tickets[i], s.results, s.created, s.err, s.safe, s.done, s.drained);
    }
  }

  lemma HoldsSafer(hist: seq<Record>, lo: nat, logged: nat)
    requires AllLoggable(hist) && lo <= logged <= |hist|
    ensures Holds(EncodeLog(hist[lo..logged]), hist, lo, logged)
  {
    AppendHolds(hist, lo, logged, logged, logged, 0);
    assert EncodeLog(hist[lo..logged]) + EncodeLog(hist[logged..logged])[..0] == EncodeLog(hist[lo..logged]);
  }

  lemma InvRelease(s: State, s': State)
    requires Inv(s) && ReleaseStep(s, s')
    ensures Inv(s')
  {
    hide Loggable, AllLoggable, FilesSafe, Survives, Tickets, Exact, Replay, At, JoinLines, Holds, EncodeLog, Lines;
    TicketsRelease(s);
    if s.err == None {
      LoggedIsSafe(s);
    }
    ExactRelease(s, s');
  }

  lemma LoggedIsSafe(s: State)
    requires Inv(s) && s.err == None && s.pc.Complete?
    ensures Holds(s.log.visible, s.hist, s.lo, s.drained) && s.log.durable == s.log.visible && s.loD == s.lo
  {
    hide Loggable, FilesSafe, Survives, Tickets, ExactDir, SizeOk, Replay, At, Queue, Control;
    HoldsSafer(s.hist, s.lo, s.logged);
  }

  lemma ExactRelease(s: State, s': State)
    requires Inv(s) && ReleaseStep(s, s')
    ensures Exact(s')
  {
    hide Loggable, AllLoggable, LogSafe, FilesSafe, Survives, Tickets, ExactDir, Replay, At, JoinLines, EncodeLog,
      Queue;
    ExactDirIdle(s, s'.pc, s'.logged);
    if s.mode == Stopping {
      TicketsCommit(s);
    }
  }

  // ----- writeSnapshot -----

  predicate InSnapshot(pc: Pc) { pc.Snap? || pc.Files? || pc.DirSync? || pc.TruncSync? }

  /** A failing snapshot leaves everything recoverable; nothing exact is promised any more. */
  lemma SnapshotFails(t: State, e: Error)
    requires Core(t) && t.err == None && InSnapshot(t.pc)
    ensures Inv(AfterSnap(t, Some(e)))
  {
    hide Loggable, AllLoggable, FilesSafe, LogSafe, Survives, Tickets, Replay, Queue, At;
    TicketsFail(t, Some(e));
  }

  lemma SnapshotEnds(t: State)
    requires Core(t) && t.err == None && InSnapshot(t.pc)
    requires ExactLog(Snap, t.log, t.hist, t.lo, t.loD, t.logged, t.done, t.drained)
    requires ExactDir(Snap, t.dir, t.dirty, t.colls, t.base, t.hist, t.logged)
    requires t.size == |t.log.visible| < t.flush
    requires t.mode == Stopping ==> t.dirty == {} && t.size == 0
    ensures Inv(AfterSnap(t, None))
  {
    hide Loggable, AllLoggable, FilesSafe, LogSafe, Survives, Tickets, Replay, Queue, At, JoinLines, EncodeLog;
  }

  lemma InvSnap(s: State, s': State, a: Action)
    requires Inv(s) && SnapStep(s, s', a)
    ensures Inv(s')
  {
    hide Loggable, AllLoggable, FilesSafe, LogSafe, Survives, Tickets, Replay, JoinLines, EncodeLog, Queue;
    match a
    case SnapSkip =>
      if s.err == None { SnapshotEnds(s); }
    case Capture =>
      assert s.hist[..|s.hist|] == s.hist;
    case MarshalFail(e) =>
      SnapshotFails(s.(dirty := {}), e);
    case _ =>
  }

  lemma ReplaceFile(s: State, n: bytes)
    requires Inv(s) && s.pc.Files? && s.err == None
    ensures FilesSafe(s.dir.(visible := PutSlot(s.dir.visible, n, Slot(s.pc.cap, n))), s.base, s.hist, s.lo)
  {
    hide Loggable, AllLoggable, LogSafe, Survives, Tickets, Replay, JoinLines, EncodeLog, Queue, At, PutSlot;
    var fs := PutSlot(s.dir.visible, n, Slot(s.pc.cap, n));
    forall m ensures Reflects(fs, m, s.base, s.hist, s.lo) {
      PutSlotReads(s.dir.visible, n, Slot(s.pc.cap, n), m);
      if m == n {
        assert Slot(fs, m) == Slot(At(s.base, s.hist, s.pc.at), m);
      } else {
        assert Reflects(s.dir.visible, m, s.base, s.hist, s.lo);
      }
    }
  }

  lemma InvReplace(s: State, s': State, n: bytes)
    requires Inv(s) && s.err == None && FileStep(s, s', Replace(n))
    ensures Inv(s')
  {
    hide Loggable, AllLoggable, LogSafe, Survives, Tickets, Replay, JoinLines, EncodeLog, Queue, At, FilesSafe, PutSlot;
    ReplaceFile(s, n);
    var v := Slot(s.pc.cap, n);
    forall m ensures Slot(PutSlot(s.dir.visible, n, v), m) == if m == n then v else Slot(s.dir.visible, m) {
      PutSlotReads(s.dir.visible, n, v, m);
    }
  }

  lemma ErrFree(s: State)
    requires Inv(s) && !s.pc.Select? && !s.pc.Drain? && !s.pc.Complete? && !s.pc.Snap? && !s.pc.Exited?
    ensures s.err == None
  {
    hide Bounds, LogSafe, FilesSafe, Survives, Tickets, Queue, Exact, Replay, AllLoggable;
  }

  lemma InvFile(s: State, s': State, a: Action)
    requires Inv(s) && FileStep(s, s', a)
    ensures Inv(s')
  {
    hide Bounds, Control, Queue, Tickets, AllLoggable, Replay, LogSafe, FilesSafe, Survives, Exact;
    ErrFree(s);
    match a
    case Replace(n) => InvReplace(s, s', n);
    case FileFail(e) => SnapshotFails(s, e);
    case _ =>
  }

  lemma InvDirSync(s: State, s': State, a: Action)
    requires Inv(s) && DirSyncStep(s, s', a)
    ensures Inv(s')
  {
    hide Loggable, AllLoggable, LogSafe, Survives, Tickets, Replay, JoinLines, EncodeLog, Queue, At, Reflects;
    ErrFree(s);
    if a.DirSyncFail? {
      SnapshotFails(s, a.e);
    }
  }

  /** All captured collections are on disk: emptying the log loses nothing. */
  lemma TruncateKeeps(s: State)
    requires Inv(s) && s.err == None && s.pc.Files? && s.pc.todo == {}
    ensures s.dir.visible == s.pc.cap && Settled(s.dir)
    ensures LogSafe(s.log.(visible := []), s.hist, s.logged, s.loD, s.safe)
    ensures FilesSafe(s.dir, s.base, s.hist, s.logged)
  {
    hide Loggable, AllLoggable, Survives, Tickets, Replay, JoinLines, Queue, At;
    SlotsDetermine(s.dir.visible, s.pc.cap);
    forall n ensures Reflects(s.dir.visible, n, s.base, s.hist, s.logged) {
      assert Slot(s.dir.visible, n) == Slot(At(s.base, s.hist, s.pc.at), n);
    }
    assert s.hist[s.logged..s.logged] == [];
    EncodeNothing();
  }

  lemma InvTruncate(s: State, s': State, a: Action)
    requires Inv(s) && TruncateStep(s, s', a)
    ensures Inv(s')
  {
    hide Loggable, AllLoggable, Survives, Tickets, Replay, JoinLines, EncodeLog, Queue, At, LogSafe, FilesSafe;
    ErrFree(s);
    TruncateKeeps(s);
    if a.TruncateFail? {
      var t := s.(log := if a.cut then s.log.(visible := []) else s.log, lo := if a.cut then s.logged else s.lo);
      assert Core(t);
      SnapshotFails(t, a.e);
    }
  }

  lemma InvTruncSync(s: State, s': State, a: Action)
    requires Inv(s) && TruncSyncStep(s, s', a)
    ensures Inv(s')
  {
    hide Loggable, AllLoggable, Survives, Tickets, Replay, JoinLines, Queue, At, FilesSafe, Holds;
    ErrFree(s);
    match a
    case TruncSyncOk =>
      assert s.hist[s.lo..s.logged] == [];
      EncodeNothing();
      SnapshotEnds(s.(log := s.log.(durable := s.log.visible), loD := s.lo, size := 0));
    case TruncSyncFail(e) =>
      SnapshotFails(s, e);
    case _ =>
  }

  // ----- The end of replayLog -----

  lemma RepairParse(s: State)
    requires Inv(s) && s.err == None && s.pc == Repair
    ensures ParseLog(s.log.visible) == Parsed(s.hist[s.lo..], |EncodeLog(s.hist[s.lo..])|)
    ensures EncodeLog(s.hist[s.lo..]) <= s.log.visible
    ensures Holds(EncodeLog(s.hist[s.lo..]), s.hist, s.lo, s.safe)
    ensures s.hist[s.lo..s.logged] == s.hist[s.lo..]
  {
    hide Loggable, Survives, Tickets, Replay, JoinLines, Queue, At, FilesSafe, Holds;
    SliceLoggable(s.hist, s.lo, |s.hist|);
    assert s.hist[s.lo..|s.hist|] == s.hist[s.lo..];
    ParseShape(s.log.visible, s.hist[s.lo..]);
    HoldsSafer(s.hist, s.lo, s.logged);
  }

  lemma InvCut(s: State, s': State, a: Action)
    requires Inv(s) && CutStep(s, s', a)
    ensures Inv(s')
  {
    hide Core, Exact, CutStep;
    CoreCut(s, s', a);
    ExactCut(s, s', a);
  }

  lemma CutLogSafe(s: State, s': State, a: Action)
    requires Inv(s) && CutStep(s, s', a)
    ensures LogSafe(s'.log, s.hist, s.lo, s.loD, s.safe)
  {
    hide Loggable, AllLoggable, Survives, Tickets, Replay, JoinLines, EncodeLog, ParseLog, Queue, At, FilesSafe,
      Holds, ExactDir, Shape, Bounds;
    ErrFree(s);
    RepairParse(s);
    assert s'.log.visible == EncodeLog(s.hist[s.lo..]) || s'.log.visible == s.log.visible;
  }

  lemma CutFrame(s: State, s': State, a: Action)
    requires CutStep(s, s', a)
    ensures s' == s.(log := s'.log, err := s'.err, pc := s'.pc, size := s'.size)
    ensures s.pc == Repair
    ensures if s'.pc == Exited then s'.err.Some? else s'.err == s.err && (s'.pc == RepairSync || s'.pc == Snap)
  {
    hide ParseLog;
  }

  lemma CoreCut(s: State, s': State, a: Action)
    requires Inv(s) && CutStep(s, s', a)
    ensures Core(s')
  {
    hide Loggable, AllLoggable, Survives, Tickets, Replay, JoinLines, EncodeLog, ParseLog, Queue, At, FilesSafe,
      Holds, ExactDir, Shape, LogSafe, CutStep;
    CutFrame(s, s', a);
    ErrFree(s);
    CutLogSafe(s, s', a);
    TicketsFail(s, s'.err);
  }

  lemma ExactCut(s: State, s': State, a: Action)
    requires Inv(s) && CutStep(s, s', a)
    ensures Exact(s')
  {
    hide Loggable, AllLoggable, Survives, Tickets, Replay, JoinLines, EncodeLog, ParseLog, Queue, At, FilesSafe,
      LogSafe, Holds, ExactDir, Shape, Bounds;
    ErrFree(s);
    RepairParse(s);
    ExactDirIdle(s, s'.pc, s'.logged);
    if a.CutFail? {
      assert s'.err.Some?;
    } else if ParseLog(s.log.visible).size < |s.log.visible| {
      assert s'.pc == RepairSync && s'.err == None && s'.log.visible == EncodeLog(s.hist[s.lo..]);
    } else {
      assert s'.pc == Snap && s'.log == s.log && s'.log.visible == EncodeLog(s.hist[s.lo..]);
    }
  }

  lemma InvCutSync(s: State, s': State, a: Action)
    requires Inv(s) && CutSyncStep(s, s', a)
    ensures Inv(s')
  {
    hide Loggable, AllLoggable, Survives, Tickets, Replay, JoinLines, EncodeLog, Queue, At, FilesSafe, Holds,
      ExactDir, Shape;
    ErrFree(s);
    ExactDirIdle(s, s'.pc, s'.logged);
    TicketsFail(s, s'.err);
  }

  // ----- Crash and reopen -----

  lemma {:induction false} NewlinesOfPrefix(a: bytes, b: bytes)
    requires a <= b
    ensures Newlines(a) <= Newlines(b)
  {
    assert b == a + b[|a|..];
    NewlinesConcat(a, b[|a|..]);
  }

  lemma HoldsBetween(durable: bytes, d: bytes, visible: bytes, hist: seq<Record>, lo: nat, safe: nat)
    requires AllLoggable(hist) && lo <= |hist|
    requires Holds(durable, hist, lo, safe) && Holds(visible, hist, lo, safe) && durable <= d <= visible
    ensures Holds(d, hist, lo, safe)
  {
    hide Loggable, AllLoggable, EncodeLog;
    var j := lo + Newlines(visible);
    var rs := hist[lo..j];
    SliceLoggable(hist, lo, j);
    var tail := visible[|EncodeLog(rs)|..];
    assert visible == EncodeLog(rs) + tail;
    PrefixShape(d, rs, tail);
    NewlinesOfPrefix(durable, d);
    assert rs[..Newlines(d)] == hist[lo..lo + Newlines(d)];
  }

  /** The records of the log `d` are the ones at positions `lo` up to `j`. */
  ghost predicate LogRange(s: State, d: bytes, lo: nat, j: nat) {
    lo == (if d == s.log.durable then s.loD else s.lo) && j == lo + Newlines(d)
  }

  /** What recovery reads after a crash: never corruption, and at least the safe records still in the log. */
  lemma CrashLog(s: State, d: bytes) returns (lo: nat, j: nat)
    requires Inv(s) && CanLeaveLog(s.log, d)
    ensures lo <= s.lo && LogRange(s, d, lo, j)
    ensures s.safe <= j <= |s.hist| && lo <= j
    ensures Shape(d, s.hist[lo..j])
    ensures ParseLog(d) == Parsed(s.hist[lo..j], |EncodeLog(s.hist[lo..j])|)
  {
    hide Loggable, AllLoggable, Survives, Tickets, Replay, JoinLines, Queue, At, FilesSafe, Exact, ParseLog,
      EncodeLog, Shape, Control;
    lo := if d == s.log.durable then s.loD else s.lo;
    j := lo + Newlines(d);
    if d != s.log.durable && d != s.log.visible {
      HoldsBetween(s.log.durable, d, s.log.visible, s.hist, s.lo, s.safe);
    }
    assert Holds(d, s.hist, lo, s.safe);
    SliceLoggable(s.hist, lo, j);
    ParseShape(d, s.hist[lo..j]);
  }

  lemma CrashDir(s: State, fs: Colls, n: bytes)
    requires Inv(s) && CanLeaveDir(s.dir, fs) && KeepsFiles(s.dir, fs)
    ensures Reflects(fs, n, s.base, s.hist, s.lo)
  {
    hide Bounds, LogSafe, Survives, Tickets, Queue, Exact, Control, Replay, AllLoggable, At;
    assert Reflects(s.dir.visible, n, s.base, s.hist, s.lo);
    if Slot(fs, n) == Slot(s.dir.visible, n) {
      var f: nat :| s.lo <= f <= |s.hist| && Slot(s.dir.visible, n) == Slot(At(s.base, s.hist, f), n);
      assert Slot(fs, n) == Slot(At(s.base, s.hist, f), n);
    } else {
      assert Slot(fs, n) == Slot(s.dir.durable, n) && Reflects(s.dir.durable, n, s.base, s.hist, s.lo);
      var f: nat :| s.lo <= f <= |s.hist| && Slot(s.dir.durable, n) == Slot(At(s.base, s.hist, f), n);
      assert Slot(fs, n) == Slot(At(s.base, s.hist, f), n);
    }
  }

  /** Every recovered cell has the value it had at some position no earlier than the last acknowledged record. */
  lemma CrashCell(s: State, d: bytes, fs: Colls, k: Cell) returns (i: nat)
    requires Inv(s) && CanLeaveLog(s.log, d) && CanLeaveDir(s.dir, fs) && KeepsFiles(s.dir, fs)
    ensures ParseLog(d).Parsed?
    ensures s.safe <= i <= |s.hist|
    ensures Read(Recover(d, fs), k) == Read(At(s.base, s.hist, i), k)
  {
    hide Bounds, LogSafe, FilesSafe, Survives, Tickets, Queue, Exact, Control, Replay, AllLoggable, At, ParseLog,
      EncodeLog, Shape, CanLeaveDir, CanLeaveLog, KeepsFiles, Read, Slot;
    var lo, j := CrashLog(s, d);
    CrashDir(s, fs, k.name);
    var f: nat :| s.lo <= f <= |s.hist| && Slot(fs, k.name) == Slot(At(s.base, s.hist, f), k.name);
    i := ReplayOverFile(s.base, s.hist, fs, lo, f, j, k);
  }

  /** A cell as it was at a position that no acknowledged record follows survives in the whole history. */
  lemma SurvivesAt(s: State, m: Colls, k: Cell, i: nat)
    requires Inv(s) && s.kept && s.safe <= i <= |s.hist|
    requires Read(m, k) == Read(At(s.base, s.hist, i), k)
    ensures CellSurvives(m, k, s.init, s.past + s.hist[s.start..], s.pastAcked + AckedNow(s))
  {
    hide LogSafe, FilesSafe, Tickets, Queue, Exact, Control, Replay, AllLoggable, At, Read, Slot, Wrote, LastWrite;
    var issued := s.hist[s.start..];
    var x := i - s.start;
    var past := s.past + issued;
    var acked := s.pastAcked + AckedNow(s);
    AtCell(s.base, s.hist, s.start, i, k);
    assert s.hist[s.start..i] == issued[..x];
    assert past[..|s.past| + x] == s.past + issued[..x];
    var m0 := At(s.base, s.hist, s.start);
    assert CellSurvives(m0, k, s.init, s.past, s.pastAcked);
    var i0: nat :| i0 <= |s.past| && Read(m0, k) == Read(At(s.init, s.past, i0), k)
      && NoAckAfter(s.past, s.pastAcked, i0, k);
    if LastWrite(issued[..x], k).Some? {
      LastWriteTwice(s.init, past, |s.past|, x, k);
      assert past[|s.past|..|s.past| + x] == issued[..x];
      assert Read(m, k) == Read(At(s.init, past, |s.past| + x), k);
      assert NoAckAfter(past, acked, |s.past| + x, k);
    } else {
      assert past[..i0] == s.past[..i0];
      AtExtends(s.init, s.past, issued, i0);
      NoWriteInside(issued, x, k);
      assert NoAckAfter(past, acked, i0, k) by {
        forall j: nat | i0 <= j < |past| && j < |acked| && acked[j] ensures Wrote(past[j], k) == None {
          if j < |s.past| {
            assert s.pastAcked[j];
            assert past[j] == s.past[j];
          } else {
            assert past[j] == issued[j - |s.past|] && j - |s.past| < x;
          }
        }
      }
    }
  }

  lemma LastWriteTwice(init: Colls, past: seq<Record>, a: nat, x: nat, k: Cell)
    requires a + x <= |past| && LastWrite(past[a..a + x], k).Some?
    ensures Read(At(init, past, a + x), k) == LastWrite(past[a..a + x], k).value
  {
    AtCell(init, past, a, a + x, k);
  }

  lemma {:induction false} NoWriteInside(rs: seq<Record>, x: nat, k: Cell)
    requires x <= |rs| && LastWrite(rs[..x], k) == None
    ensures forall i :: 0 <= i < x ==> Wrote(rs[i], k) == None
  {
    if x > 0 {
      assert rs[..x][..x - 1] == rs[..x - 1];
      NoWriteInside(rs, x - 1, k);
    }
  }

  lemma InvReopen(s: State, s': State, d: bytes, fs: Colls, flush: nat)
    requires Inv(s) && ReopenStep(s, s', d, fs, flush)
    ensures Inv(s')
  {
    hide Loggable, AllLoggable, Tickets, Queue, Control, LogSafe, FilesSafe, Exact, EncodeLog, ParseLog,
      CellSurvives, Replay, At;
    var lo, j := CrashLog(s, d);
    SliceLoggable(s.hist, lo, j);
    if s'.kept {
      forall k ensures CellSurvives(Recover(d, fs), k, s'.init, s'.past, s'.pastAcked) {
        var i := CrashCell(s, d, fs, k);
        SurvivesAt(s, Recover(d, fs), k, i);
      }
    }
    InvOpened(flush, d, fs, s.dir.syncs, s.init, s'.past, s'.pastAcked, s'.kept);
  }

  lemma InvOpened(flush: nat, d: bytes, fs: Colls, syncs: bool, init: Colls, past: seq<Record>, pastAcked: seq<bool>,
                  kept: bool)
    requires flush > 0 && ParseLog(d).Parsed? && |past| == |pastAcked|
    requires AllLoggable(ParseLog(d).recs) && Shape(d, ParseLog(d).recs)
    requires kept ==> Survives(Recover(d, fs), init, past, pastAcked)
    ensures Inv(Opened(flush, d, fs, syncs, init, past, pastAcked, kept))
  {
    hide Loggable, AllLoggable, Survives, EncodeLog, ParseLog, Shape, JoinLines;
    var s := Opened(flush, d, fs, syncs, init, past, pastAcked, kept);
    var recs := ParseLog(d).recs;
    ParseSize(d);
    assert recs[0..|recs|] == recs && recs[..|recs|] == recs && recs[|recs|..|recs|] == [] && recs[0..] == recs;
    assert Lines([]) == [];
    forall n ensures Reflects(fs, n, fs, recs, 0) {
      assert At(fs, recs, 0) == fs by { assert recs[..0] == []; }
    }
    forall n | n !in s.dirty ensures Slot(fs, n) == Slot(s.colls, n) {
      DirtiedSound(fs, recs, n);
    }
  }

  // ----- All steps, all runs -----

  lemma InvStep(s: State, s': State, a: Action)
    requires Inv(s) && Step(s, s', a)
    ensures Inv(s')
  {
    hide Inv, IssueStep, EnqueueStep, SignalStep, CloseStep, StopStep, SelectStep, DetachStep, AppendStep, SyncStep,
      ReleaseStep, SnapStep, FileStep, DirSyncStep, TruncateStep, TruncSyncStep, CutStep, CutSyncStep, ReopenStep;
    match a
    case Issue(r) => InvIssue(s, s', r);
    case Enqueue => InvEnqueue(s, s');
    case Signal => InvControl(s, s');
    case CloseCall => InvControl(s, s');
    case CloseStop => InvControl(s, s');
    case TakeNotify => InvSelect(s, s', a);
    case Tick => InvSelect(s, s', a);
    case TakeStop => InvSelect(s, s', a);
    case Detach => InvDetach(s, s');
    case AppendOk => InvAppend(s, s', a);
    case AppendFail(_, _) => InvAppend(s, s', a);
    case SyncOk => InvSync(s, s', a);
    case SyncFail(_) => InvSync(s, s', a);
    case Release => InvRelease(s, s');
    case SnapSkip => InvSnap(s, s', a);
    case Capture => InvSnap(s, s', a);
    case MarshalFail(_) => InvSnap(s, s', a);
    case Replace(_) => InvFile(s, s', a);
    case FileFail(_) => InvFile(s, s', a);
    case DirSyncOk => InvDirSync(s, s', a);
    case DirSyncFail(_) => InvDirSync(s, s', a);
    case Truncate => InvTruncate(s, s', a);
    case TruncateFail(_, _) => InvTruncate(s, s', a);
    case TruncSyncOk => InvTruncSync(s, s', a);
    case TruncSyncFail(_) => InvTruncSync(s, s', a);
    case Cut => InvCut(s, s', a);
    case CutFail(_, _) => InvCut(s, s', a);
    case CutSyncOk => InvCutSync(s, s', a);
    case CutSyncFail(_) => InvCutSync(s, s', a);
    case Reopen(d, fs, flush) => InvReopen(s, s', d, fs, flush);
  }

  lemma InvInit(s: State)
    requires Init(s)
    ensures Inv(s)
  {
    hide Inv;
    assert AllLoggable([]);
    EncodeNothing();
    assert ParseLog([]).recs == [];
    forall k ensures CellSurvives(s.init, k, s.init, [], []) {
      assert At(s.init, [], 0) == s.init;
      assert NoAckAfter([], [], 0, k);
    }
    InvOpened(s.flush, [], s.init, s.dir.syncs, s.init, [], [], true);
  }

  lemma {:induction false} InvRun(tr: seq<State>)
    requires Run(tr)
    ensures forall i :: 0 <= i < |tr| ==> Inv(tr[i])
  {
    hide Inv, Step, Init;
    InvInit(tr[0]);
    for i := 1 to |tr|
      invariant forall j :: 0 <= j < i ==> Inv(tr[j])
    {
      assert Next(tr[i - 1], tr[i]);
      var a :| Step(tr[i - 1], tr[i], a);
      InvStep(tr[i - 1], tr[i], a);
    }
  }

  lemma ReachableInv(s: State)
    requires Reachable(s)
    ensures Inv(s)
  {
    hide Inv;
    var tr :| Run(tr) && tr[|tr| - 1] == s;
    InvRun(tr);
  }
}
