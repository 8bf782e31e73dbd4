/**
 Group commit: every record gets exactly one outcome, no wakeup is lost, and the worker
 always comes back to its `select`, whatever it was doing and whatever fails.
 */
module Liveness {
  import opened Basics
  import opened Records
  import opened Wal
  import opened Machine
  import opened Invariants
  import opened Preservation
  import opened Durability

  /** A record whose waiter is not released is in the worker's hands, or the worker is about to be woken. */
  lemma NoLostWakeup(s: State)
    requires Reachable(s) && s.done < Entered(s)
    ensures HasBatch(s.pc) || s.pc == Drain || s.notify || s.writer == Queued
  {
    hide Reachable, LogSafe, FilesSafe, Survives, Exact, Replay, AllLoggable, At, Queue, TicketOk;
    ReachableInv(s);
  }

  /** Draining takes every record that waits; releasing resolves everything drained. */
  lemma DrainThenRelease(s: State, s': State)
    requires Reachable(s)
    ensures DetachStep(s, s') ==> s'.drained == Entered(s)
    ensures ReleaseStep(s, s') ==> s'.done == s.drained && s'.results == s.results + [s.err]
  {
    PendingCount(s);
    hide Reachable, Entered;
    if DetachStep(s, s') {
      DetachTakes(s, s');
    }
    if ReleaseStep(s, s') {
      hide DetachStep;
    }
  }

  lemma DetachTakes(s: State, s': State)
    requires DetachStep(s, s')
    ensures s'.drained == if s.commit == None then s.drained else s.drained + |s.pending|
  {
    hide AfterLog;
  }

  lemma PendingCount(s: State)
    requires Reachable(s)
    ensures s.drained + |s.pending| == Entered(s) && (s.commit == None ==> s.drained == Entered(s))
  {
    hide Reachable, LogSafe, FilesSafe, Survives, Exact, Replay, AllLoggable, At, TicketOk, Control;
    ReachableInv(s);
  }

  // ----- Exactly one outcome -----

  /** Records are grouped into commits in the order they were applied. */
  lemma TicketsInOrder(s: State, i: nat, j: nat)
    requires Reachable(s) && i <= j < |s.tickets|
    ensures s.tickets[i] <= s.tickets[j] < s.created
  {
    hide Reachable, LogSafe, FilesSafe, Survives, Exact, Replay, AllLoggable, At, Queue, Control;
    ReachableInv(s);
    assert TicketOk(s.start + i, s.tickets[i], s.results, s.created, s.err, s.safe, s.done, s.drained);
    assert TicketOk(s.start + j, s.tickets[j], s.results, s.created, s.err, s.safe, s.done, s.drained);
  }

  /** A waiter that was told an outcome is never told another. */
  lemma {:induction false} OneOutcome(tr: seq<State>, i: nat)
    requires tr != [] && Outcome(tr[0], i).Some?
    requires forall j :: 0 < j < |tr| ==> ProcessStep(tr[j - 1], tr[j])
    ensures forall j :: 0 <= j < |tr| ==> Outcome(tr[j], i) == Outcome(tr[0], i)
  {
    hide Step;
    for j := 1 to |tr|
      invariant forall l :: 0 <= l < j ==> Outcome(tr[l], i) == Outcome(tr[0], i)
    {
      var s, s' := tr[j - 1], tr[j];
      assert ProcessStep(s, s');
      var a: Action :| !a.Reopen? && Step(s, s', a);
      if a.Issue? {
        IssueFrame(s, s', a);
      } else {
        FrameOfStep(s, s', a);
      }
      assert Outcome(s, i) == Outcome(tr[0], i);
    }
  }

  /** When a stopping worker exits - also after an error - every waiter has been released. */
  lemma CloseReleasesEveryone(s: State, i: nat)
    requires Reachable(s) && s.mode == Stopping && s.pc == Exited && s.start + i < |s.hist|
    ensures Outcome(s, i).Some?
    ensures s.err == None ==> Outcome(s, i) == Some(None)
  {
    assert s.done == |s.hist| by {
      hide Reachable, LogSafe, FilesSafe, Survives, Exact, Replay, AllLoggable, At, Queue, TicketOk;
      ReachableInv(s);
    }
    assert s.err == None ==> s.safe == s.done by {
      hide Reachable, LogSafe, FilesSafe, Survives, Exact, Replay, AllLoggable, At, Queue, TicketOk;
      ReachableInv(s);
    }
    hide Reachable;
    AcknowledgedPrefix(s, i);
  }

  // ----- The worker never gets stuck -----

  /** How much is left until the worker is back at `select`: a phase, and work left in it. */
  function Phase(pc: Pc): nat {
    match pc
    case Select => 0
    case Exited => 0
    case TruncSync(_, _) => 1
    case Files(_, _, _) => 2
    case DirSync(_, _, _, _) => 2
    case Snap => 3
    case Complete => 4
    case SyncLog => 5
    case Append => 6
    case Drain => 7
    case RepairSync => 8
    case Repair => 9
  }

  function Left(pc: Pc): nat {
    match pc
    case Files(_, _, todo) => 2 * |todo| + 1
    case DirSync(_, _, todo, _) => 2 * |todo|
    case _ => 0
  }

  predicate Closer(p: Pc, q: Pc) {
    Phase(p) < Phase(q) || (Phase(p) == Phase(q) && Left(p) < Left(q))
  }

  predicate Busy(pc: Pc) { pc != Select && pc != Exited }

  predicate ByOthers(a: Action) {
    a.Issue? || a.Enqueue? || a.Signal? || a.CloseCall? || a.CloseStop?
  }

  /** Whatever the worker does while busy, including failing, brings it closer to `select`; others do not move it. */
  lemma WorkerAdvances(s: State, s': State, a: Action)
    requires Reachable(s) && Busy(s.pc) && Step(s, s', a) && !a.Reopen?
    ensures if ByOthers(a) then s'.pc == s.pc else Closer(s'.pc, s.pc)
  {
    hide Reachable, Inv, Closer, IssueStep, EnqueueStep, SignalStep, CloseStep, StopStep, DetachStep, AppendStep,
      SyncStep, ReleaseStep, SnapStep, FileStep, DirSyncStep, TruncateStep, TruncSyncStep, CutStep, CutSyncStep;
    if ByOthers(a) {
      OthersDoNotMove(s, s', a);
    } else if DetachStep(s, s') {
      DetachAdvances(s, s');
    } else if ReleaseStep(s, s') {
      ReleaseAdvances(s, s');
    } else if AppendStep(s, s', a) || SyncStep(s, s', a) {
      LogAdvances(s, s', a);
    } else if CutStep(s, s', a) {
      CutAdvances(s, s', a);
    } else if CutSyncStep(s, s', a) {
      CutSyncAdvances(s, s', a);
    } else {
      ReachableInv(s);
      SnapAdvances(s, s', a);
    }
  }

  lemma OthersDoNotMove(s: State, s': State, a: Action)
    requires ByOthers(a) && Step(s, s', a)
    ensures s'.pc == s.pc
  {
    hide Loggable, Apply, Marks, Lines;
  }

  lemma DetachAdvances(s: State, s': State)
    requires DetachStep(s, s')
    ensures Closer(s'.pc, s.pc)
  {
    if s.commit == None {
      assert s'.pc == AfterLog(s);
    } else {
      assert s'.pc.Append? || s'.pc.Complete?;
    }
  }

  lemma ReleaseAdvances(s: State, s': State)
    requires ReleaseStep(s, s')
    ensures Closer(s'.pc, s.pc)
  {}

  lemma LogAdvances(s: State, s': State, a: Action)
    requires AppendStep(s, s', a) || SyncStep(s, s', a)
    ensures Closer(s'.pc, s.pc)
  {
    hide JoinLines;
  }

  lemma CutAdvances(s: State, s': State, a: Action)
    requires CutStep(s, s', a)
    ensures Closer(s'.pc, s.pc)
  {
    hide Closer, Phase, Left;
    AfterCut(s, s', a);
    hide CutStep;
    RepairIsFirst(s'.pc);
  }

  lemma AfterCut(s: State, s': State, a: Action)
    requires CutStep(s, s', a)
    ensures s.pc == Repair && (s'.pc == RepairSync || s'.pc == Snap || s'.pc == Exited)
  {
    hide ParseLog;
    if a.Cut? {
      if ParseLog(s.log.visible).size < |s.log.visible| {
        assert s'.pc == RepairSync;
      }
    }
  }

  lemma RepairIsFirst(pc: Pc)
    requires pc == RepairSync || pc == Snap || pc == Exited
    ensures Closer(pc, Repair)
  {}

  lemma CutSyncAdvances(s: State, s': State, a: Action)
    requires CutSyncStep(s, s', a)
    ensures Closer(s'.pc, s.pc)
  {}

  lemma SnapAdvances(s: State, s': State, a: Action)
    requires Inv(s)
    requires SnapStep(s, s', a) || FileStep(s, s', a) || DirSyncStep(s, s', a) || TruncateStep(s, s', a)
      || TruncSyncStep(s, s', a)
    ensures Closer(s'.pc, s.pc)
  {
    hide Inv, SnapStep, FileStep, DirSyncStep, TruncateStep, TruncSyncStep, Closer;
    if DirSyncStep(s, s', a) {
      DirSyncAdvances(s, s', a);
    } else if SnapStep(s, s', a) {
      SnapStepAdvances(s, s', a);
    } else if FileStep(s, s', a) {
      FileAdvances(s, s', a);
    } else {
      TruncateAdvances(s, s', a);
    }
  }

  lemma DirSyncAdvances(s: State, s': State, a: Action)
    requires Inv(s) && DirSyncStep(s, s', a)
    ensures Closer(s'.pc, s.pc)
  {
    hide Inv;
    NameInTodo(s);
  }

  lemma NameInTodo(s: State)
    requires Inv(s) && s.pc.DirSync?
    ensures s.pc.name in s.pc.todo
  {
    hide Bounds, LogSafe, FilesSafe, Survives, Replay, AllLoggable, At, Queue, Tickets, ExactLog, SizeOk;
    ErrFree(s);
  }

  lemma SnapStepAdvances(s: State, s': State, a: Action)
    requires SnapStep(s, s', a)
    ensures Closer(s'.pc, s.pc)
  {
    hide NothingToDo;
  }

  lemma FileAdvances(s: State, s': State, a: Action)
    requires FileStep(s, s', a)
    ensures Closer(s'.pc, s.pc)
  {
    hide PutSlot, Slot;
  }

  lemma TruncateAdvances(s: State, s': State, a: Action)
    requires TruncateStep(s, s', a) || TruncSyncStep(s, s', a)
    ensures Closer(s'.pc, s.pc)
  {}

  /** A busy worker always has a step to take, once the writer holding the lock has finished. */
  lemma WorkerCanMove(s: State) returns (a: Action, s': State)
    requires Reachable(s) && Busy(s.pc) && s.writer == Free
    ensures !ByOthers(a) && !a.Reopen? && Step(s, s', a)
  {
    hide Reachable, Step;
    if s.pc.Repair? {
      a, s' := RepairCanMove(s);
    } else if s.pc.Drain? {
      a, s' := DrainCanMove(s);
    } else if s.pc.Append? || s.pc.SyncLog? || s.pc.Complete? || s.pc.RepairSync? {
      a, s' := LogCanMove(s);
    } else {
      a, s' := SnapCanMove(s);
    }
  }

  lemma DrainCanMove(s: State) returns (a: Action, s': State)
    requires s.pc.Drain?
    ensures !ByOthers(a) && !a.Reopen? && Step(s, s', a)
  {
    hide AfterLog, Step, DetachStep;
    a := Detach;
    if s.commit == None {
      s' := s.(pending := [], pc := AfterLog(s));
      NothingToDrain(s);
    } else {
      s' := s.(pending := [], commit := None, batch := s.pending, drained := s.drained + |s.pending|,
               pc := if s.err == None && |s.pending| > 0 then Append else Complete);
      SomethingToDrain(s);
    }
    DetachIsStep(s, s');
  }

  lemma NothingToDrain(s: State)
    requires s.pc.Drain? && s.commit == None
    ensures DetachStep(s, s.(pending := [], pc := AfterLog(s)))
  {
    hide AfterLog;
  }

  lemma SomethingToDrain(s: State)
    requires s.pc.Drain? && s.commit.Some?
    ensures DetachStep(s, s.(pending := [], commit := None, batch := s.pending, drained := s.drained + |s.pending|,
                             pc := if s.err == None && |s.pending| > 0 then Append else Complete))
  {
    hide AfterLog;
  }

  lemma DetachIsStep(s: State, s': State)
    requires DetachStep(s, s')
    ensures Step(s, s', Detach)
  {
    hide DetachStep;
  }

  lemma LogCanMove(s: State) returns (a: Action, s': State)
    requires s.pc.Append? || s.pc.SyncLog? || s.pc.Complete? || s.pc.RepairSync?
    ensures !ByOthers(a) && !a.Reopen? && Step(s, s', a)
  {
    hide JoinLines, AfterLog;
    match s.pc
    case Append =>
      a := AppendOk;
      s' := s.(log := s.log.(visible := s.log.visible + JoinLines(s.batch)), logged := s.drained, pc := SyncLog);
    case SyncLog =>
      a := SyncOk;
      s' := s.(log := s.log.(durable := s.log.visible), size := s.size + |JoinLines(s.batch)|, pc := Complete);
    case Complete =>
      a := Release;
      s' := s.(results := s.results + [s.err], done := s.drained, safe := if s.err == None then s.drained else s.safe,
               batch := [], pc := AfterLog(s));
    case RepairSync =>
      a := CutSyncOk;
      s' := s.(log := s.log.(durable := s.log.visible), size := |s.log.visible|, pc := Snap);
  }

  lemma SnapCanMove(s: State) returns (a: Action, s': State)
    requires s.pc.Snap? || s.pc.Files? || s.pc.DirSync? || s.pc.TruncSync?
    requires s.writer == Free
    ensures !ByOthers(a) && !a.Reopen? && Step(s, s', a)
  {
    hide PutSlot, Slot;
    match s.pc
    case Snap =>
      if s.err.Some? || NothingToDo(s) {
        a, s' := SnapSkip, AfterSnap(s, s.err);
      } else {
        a, s' := Capture, s.(dirty := {}, pc := Files(s.colls, |s.hist|, s.dirty));
      }
    case Files(cap, at, todo) =>
      if todo == {} {
        a, s' := Truncate, s.(log := s.log.(visible := []), lo := s.logged, pc := TruncSync(cap, at));
      } else {
        var n :| n in todo;
        var present := n in cap || n in s.dir.visible;
        a := Replace(n);
        s' := s.(dir := if present then s.dir.(visible := PutSlot(s.dir.visible, n, Slot(cap, n))) else s.dir,
                 pc := if present then DirSync(cap, at, todo, n) else Files(cap, at, todo - {n}));
      }
    case DirSync(cap, at, todo, name) =>
      a, s' := DirSyncOk, s.(dir := s.dir.(durable := if s.dir.syncs then s.dir.visible else s.dir.durable),
                             pc := Files(cap, at, todo - {name}));
    case TruncSync(_, _) =>
      a, s' := TruncSyncOk, AfterSnap(s.(log := s.log.(durable := s.log.visible), loD := s.lo, size := 0), None);
  }

  lemma RepairCanMove(s: State) returns (a: Action, s': State)
    requires Reachable(s) && s.pc == Repair
    ensures !ByOthers(a) && !a.Reopen? && Step(s, s', a)
  {
    hide Reachable, Inv, ParseLog;
    a := Cut;
    ReachableInv(s);
    assert s.err == None by { ErrFree(s); }
    RepairParse(s);
    var p := ParseLog(s.log.visible);
    if p.size < |s.log.visible| {
      s' := s.(log := s.log.(visible := s.log.visible[..p.size]), pc := RepairSync);
    } else {
      s' := s.(size := p.size, pc := Snap);
    }
  }

  /** At `select` with a waiter outstanding and no writer in the way, the notify case is enabled. */
  lemma SelectCanDrain(s: State)
    requires Reachable(s) && s.pc == Select && s.writer == Free && s.done < Entered(s)
    ensures Step(s, s.(notify := false, pc := Drain), TakeNotify)
  {
    NoLostWakeup(s);
  }

  /** In a running process `drained` only grows, and the worker leaves `Drain` only by taking everything enqueued. */
  lemma DrainedGrows(s: State, s': State)
    requires Reachable(s) && ProcessStep(s, s')
    ensures Reachable(s') && s.drained <= s'.drained
    ensures s.pc == Drain && s'.pc != Drain ==> Entered(s) <= s'.drained
  {
    hide Reachable, Frame, IssueStep, EnqueueStep, SignalStep, CloseStep, StopStep, DetachStep, AppendStep, SyncStep,
      ReleaseStep, SnapStep, FileStep, DirSyncStep, TruncateStep, TruncSyncStep, CutStep, CutSyncStep, SelectStep;
    var a: Action :| !a.Reopen? && Step(s, s', a);
    ReachableNext(s, s', a);
    DrainedStep(s, s', a);
    if s.pc == Drain && s'.pc != Drain {
      LeavesDrain(s, s', a);
      DrainThenRelease(s, s');
    }
  }

  lemma DrainedStep(s: State, s': State, a: Action)
    requires Step(s, s', a) && !a.Reopen?
    ensures s.drained <= s'.drained
  {
    hide Step;
    if a.Issue? {
      IssueFrame(s, s', a);
    } else {
      FrameOfStep(s, s', a);
    }
  }

  lemma LeavesDrain(s: State, s': State, a: Action)
    requires Step(s, s', a) && !a.Reopen? && s.pc == Drain && s'.pc != Drain
    ensures DetachStep(s, s')
  {
    hide DetachStep, EnqueueStep, ReleaseStep, AppendStep, SyncStep, SnapStep, FileStep, DirSyncStep, TruncateStep,
      TruncSyncStep, CutStep, CutSyncStep;
    if ByOthers(a) {
      hide Step;
      OthersDoNotMove(s, s', a);
    } else if !a.Detach? {
      NotDraining(s, s', a);
    }
  }

  lemma NotDraining(s: State, s': State, a: Action)
    requires Step(s, s', a) && !a.Reopen? && !a.Detach? && !ByOthers(a)
    ensures s.pc != Drain
  {
    hide Loggable, Apply, Marks, Lines, ParseLog, JoinLines, AfterSnap;
  }

  /**
   One trip of the worker from its drain to `select` or its exit releases everyone who was
   waiting, whatever fails on the way.
   */
  lemma {:induction false} TripReleasesWaiters(tr: seq<State>, p: nat)
    requires tr != [] && Reachable(tr[0]) && tr[0].pc == Drain
    requires forall i :: 0 < i < |tr| ==> ProcessStep(tr[i - 1], tr[i])
    requires tr[0].start <= p < Entered(tr[0])
    ensures !HasBatch(tr[|tr| - 1].pc) && tr[|tr| - 1].pc != Drain ==> p < tr[|tr| - 1].done
  {
    hide Reachable, ProcessStep;
    for i := 1 to |tr|
      invariant Reachable(tr[i - 1])
      invariant tr[i - 1].pc == Drain || p < tr[i - 1].drained
      invariant p < Entered(tr[i - 1])
    {
      DrainedGrows(tr[i - 1], tr[i]);
      EnteredGrows(tr[i - 1], tr[i]);
    }
    IdleMeansDone(tr[|tr| - 1]);
  }

  lemma IdleMeansDone(s: State)
    requires Reachable(s)
    ensures !HasBatch(s.pc) ==> s.done == s.drained
  {
    hide Reachable, LogSafe, FilesSafe, Survives, Exact, Replay, AllLoggable, At, Queue, Tickets;
    ReachableInv(s);
  }

  lemma EnteredGrows(s: State, s': State)
    requires Reachable(s) && ProcessStep(s, s')
    ensures Entered(s) <= Entered(s')
  {
    hide Reachable, Inv, Step;
    var a: Action :| !a.Reopen? && Step(s, s', a);
    ReachableNext(s, s', a);
    EnteredIs(s);
    EnteredIs(s');
    if a.Issue? {
      IssueFrame(s, s', a);
    } else {
      FrameOfStep(s, s', a);
    }
  }

  lemma EnteredIs(s: State)
    requires Reachable(s)
    ensures Entered(s) == s.start + |s.tickets|
  {
    hide Reachable, LogSafe, FilesSafe, Survives, Exact, Replay, AllLoggable, At, Queue, Control, TicketOk;
    ReachableInv(s);
  }

  // ----- How soon a waiter is released -----

  /** The worker's own steps in a run: the ones that move it. */
  function WorkerSteps(tr: seq<State>): nat {
    if |tr| < 2 then 0
    else WorkerSteps(tr[..|tr| - 1]) + (if tr[|tr| - 1].pc != tr[|tr| - 2].pc then 1 else 0)
  }

  lemma OneStepMore(tr: seq<State>, i: nat)
    requires 0 < i < |tr|
    ensures WorkerSteps(tr[..i + 1]) == WorkerSteps(tr[..i]) + (if tr[i].pc != tr[i - 1].pc then 1 else 0)
  {
    assert tr[..i + 1][..i] == tr[..i];
  }

  /** On its way from the drain to the closed commit the worker takes its steps in this order. */
  lemma TripStep(s: State, s': State)
    requires Reachable(s) && ProcessStep(s, s') && (s.pc == Drain || HasBatch(s.pc))
    ensures s'.pc == s.pc || Phase(s'.pc) < Phase(s.pc)
  {
    hide Reachable, Step, Closer;
    var a: Action :| !a.Reopen? && Step(s, s', a);
    WorkerAdvances(s, s', a);
    assert s'.pc == s.pc || Phase(s'.pc) < Phase(s.pc) by {
      if !ByOthers(a) {
        CloserInTrip(s'.pc, s.pc);
      }
    }
  }

  lemma CloserInTrip(p: Pc, q: Pc)
    requires Closer(p, q) && (q == Drain || HasBatch(q))
    ensures Phase(p) < Phase(q)
  {}

  lemma DoneGrows(s: State, s': State)
    requires Reachable(s) && ProcessStep(s, s')
    ensures Reachable(s') && s.done <= s'.done && s'.start == s.start
  {
    hide Reachable, Inv, Step;
    var a: Action :| !a.Reopen? && Step(s, s', a);
    ReachableNext(s, s', a);
    ReachableInv(s);
    MemoryIsHistory(s);
    if a.Issue? {
      IssueFrame(s, s', a);
    } else {
      FrameOfStep(s, s', a);
    }
  }

  /**
   From any reachable state in which the worker has just been woken, or told to stop:
   within four of the worker's own steps every waiter of that moment has its outcome,
   whatever fails, and however many steps writers take in between.
   */
  lemma {:induction false} ReleasedInFourSteps(tr: seq<State>, p: nat)
    requires tr != [] && Reachable(tr[0]) && tr[0].pc == Drain
    requires forall i :: 0 < i < |tr| ==> ProcessStep(tr[i - 1], tr[i])
    requires tr[0].start <= p < Entered(tr[0]) && WorkerSteps(tr) >= 4
    ensures Outcome(tr[|tr| - 1], p - tr[0].start).Some?
  {
    hide Reachable, ProcessStep, Entered, WorkerSteps, Phase, Outcome;
    FirstStep(tr);
    for i := 1 to |tr|
      invariant Reachable(tr[i - 1]) && p < Entered(tr[i - 1]) && tr[i - 1].start == tr[0].start
      invariant p < tr[i - 1].done || OnTheWay(tr[i - 1], p, WorkerSteps(tr[..i]))
    {
      OneStepMore(tr, i);
      DoneGrows(tr[i - 1], tr[i]);
      EnteredGrows(tr[i - 1], tr[i]);
      if p >= tr[i - 1].done {
        TripContinues(tr[i - 1], tr[i], p, WorkerSteps(tr[..i]));
      }
    }
    assert tr[..|tr|] == tr;
    if p >= tr[|tr| - 1].done {
      ThreeAtMost(tr[|tr| - 1], p, WorkerSteps(tr));
    }
    Resolved(tr[|tr| - 1], p);
  }

  lemma Resolved(s: State, p: nat)
    requires Reachable(s) && s.start <= p < s.done
    ensures Outcome(s, p - s.start).Some?
  {
    hide Reachable, Inv;
    ReachableInv(s);
    MemoryIsHistory(s);
    AcknowledgedPrefix(s, p - s.start);
  }

  lemma FirstStep(tr: seq<State>)
    requires tr != [] && tr[0].pc == Drain
    ensures WorkerSteps(tr[..1]) == 0 && Phase(tr[0].pc) == 7
  {}

  lemma ThreeAtMost(s: State, p: nat, n: nat)
    requires OnTheWay(s, p, n)
    ensures n < 4
  {}

  /** After `n` steps the worker still holds the record of `p`, or is about to take it. */
  ghost predicate OnTheWay(s: State, p: nat, n: nat) {
    (s.pc == Drain || (HasBatch(s.pc) && p < s.drained)) && n + Phase(s.pc) <= 7
  }

  lemma TripContinues(s: State, s': State, p: nat, n: nat)
    requires Reachable(s) && ProcessStep(s, s') && OnTheWay(s, p, n) && p < Entered(s)
    ensures
      var n' := n + (if s'.pc != s.pc then 1 else 0);
      p < s'.done || OnTheWay(s', p, n')
  {
    hide Reachable, ProcessStep, Entered, Phase;
    TripStep(s, s');
    DrainedGrows(s, s');
    if s'.pc != Drain && !HasBatch(s'.pc) {
      IdleMeansDone(s');
    }
  }
}
