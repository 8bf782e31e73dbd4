/** The invariant of the engine, and the lemma that every step keeps it. */
module Invariants {
  import opened Basics
  import opened Records
  import opened Wal
  import opened Machine

  // ----- The invariant, one concern at a time -----

  function Entered(s: State): int {
    |s.hist| - (if s.writer.Applied? then 1 else 0)
  }

  ghost predicate Bounds(s: State) {
    && s.flush > 0
    && s.start <= s.safe <= s.done <= s.drained <= Entered(s) <= |s.hist|
    && s.loD <= s.lo <= s.logged <= s.drained
    && s.lo <= s.done
    && (s.err == None ==> s.safe == s.done)
    && |s.pastAcked| == |s.past|
  }

  predicate HasBatch(pc: Pc) { pc.Append? || pc.SyncLog? || pc.Complete? }

  /** Pending and in-flight lines are the unresolved end of the history, in order, each in one batch. */
  ghost predicate Queue(hist: seq<Record>, batch: seq<bytes>, pending: seq<bytes>, done: nat, drained: nat,
                        entered: int) {
    && done <= drained <= entered <= |hist|
    && batch == Lines(hist[done..drained])
    && pending == Lines(hist[drained..entered])
  }

  /** Which commit every issued record waits on, and what the closed commits reported. */
  ghost predicate Tickets(tickets: seq<nat>, results: seq<Status>, created: nat, commit: Option<nat>, err: Status,
                          start: nat, safe: nat, done: nat, drained: nat, entered: int) {
    && |tickets| == entered - start
    && created == |results| + (if done < drained then 1 else 0) + (if commit.Some? then 1 else 0)
    && (commit.Some? ==> commit.value == created - 1)
    && (commit.Some? <==> drained < entered)
    && (safe < done ==> err.Some?)
    && (forall i, j :: 0 <= i <= j < |tickets| ==> tickets[i] <= tickets[j])
    && (forall i :: 0 <= i < |tickets| ==> TicketOk(start + i, tickets[i], results, created, err, safe, done, drained))
  }

  /** The record at position `p` waits on commit `t`. */
  ghost predicate TicketOk(p: nat, t: nat, results: seq<Status>, created: nat, err: Status, safe: nat, done: nat,
                           drained: nat) {
    if p < done then t < |results| && results[t] == if p < safe then None else err
    else if p < drained then t == |results|
    else t == created - 1
  }

  /** Modes, shutdown, and the absence of lost wakeups. */
  ghost predicate Control(s: State) {
    && (s.stop ==> s.closed)
    && (s.closed ==> s.writer == Free && s.mode != Opening)
    && (s.mode == Stopping ==> s.stop)
    && (HasBatch(s.pc) <==> s.done < s.drained)
    && (s.mode == Opening ==>
          && s.writer == Free
          && s.safe == s.start == |s.hist|
          && (s.pc.Repair? || s.pc.RepairSync? || s.pc.Snap? || s.pc.Files? || s.pc.DirSync? || s.pc.TruncSync?
            || s.pc.Exited?))
    && (s.mode == Running ==> !s.pc.Repair? && !s.pc.RepairSync? && !s.pc.Exited?)
    && (s.mode == Stopping ==>
      !s.pc.Repair? && !s.pc.RepairSync? && !s.pc.Select? && (s.pc.Drain? || s.drained == |s.hist|))
    && (s.err.Some? && s.mode == Opening ==> s.pc == Exited)
    && (s.err == None && s.mode == Opening ==> s.pc != Exited)
    && (s.err.Some? ==> s.pc.Select? || s.pc.Drain? || s.pc.Complete? || s.pc.Snap? || s.pc.Exited?)
    && (s.commit.Some? ==> s.notify || s.writer == Queued || s.pc == Drain)
  }

  /** A log file from which replay reads `hist[lo..j]` with `safe <= j`. */
  ghost predicate Holds(d: bytes, hist: seq<Record>, lo: nat, safe: nat) {
    var j := lo + Newlines(d);
    safe <= j <= |hist| && Shape(d, hist[lo..j])
  }

  /** Whatever a crash leaves of the log, no acknowledged record that is still in it is lost. */
  ghost predicate LogSafe(log: Log, hist: seq<Record>, lo: nat, loD: nat, safe: nat) {
    && Holds(log.visible, hist, lo, safe)
    && Holds(log.durable, hist, loD, safe)
    && (log.durable <= log.visible ==> loD == lo || log.durable == log.visible)
  }

  /** The file of `n` is as the collection was at some position from `lo` on. */
  ghost predicate Reflects(fs: Colls, n: bytes, base: Colls, hist: seq<Record>, lo: nat) {
    exists f: nat :: lo <= f <= |hist| && Slot(fs, n) == Slot(At(base, hist, f), n)
  }

  ghost predicate FilesSafe(dir: Dir, base: Colls, hist: seq<Record>, lo: nat) {
    forall n :: Reflects(dir.visible, n, base, hist, lo) && (dir.syncs ==> Reflects(dir.durable, n, base, hist, lo))
  }

  ghost predicate Settled(dir: Dir) {
    dir.syncs ==> dir.durable == dir.visible
  }

  ghost predicate SameExcept(a: Colls, b: Colls, names: set<bytes>) {
    forall n :: n !in names ==> Slot(a, n) == Slot(b, n)
  }

  /** The exact bytes of the log while no error has occurred. */
  ghost predicate ExactLog(pc: Pc, log: Log, hist: seq<Record>, lo: nat, loD: nat, logged: nat, done: nat, drained: nat)
  {
    && lo <= logged <= |hist| && lo <= done <= drained <= |hist|
    && (loD == lo || pc.TruncSync?)
    && (pc.Repair? ==>
      log.durable == log.visible && logged == done == drained == |hist| && Shape(log.visible, hist[lo..]))
    && (pc.RepairSync? ==>
      log.durable != log.visible && log.visible <= log.durable && logged == done == drained == |hist|)
    && (!pc.Repair? && !pc.TruncSync? ==> log.visible == EncodeLog(hist[lo..logged]))
    && (pc.TruncSync? ==> log.visible == [] && lo == logged)
    && (pc.SyncLog? ==> log.durable == EncodeLog(hist[lo..done]))
    && (pc.SyncLog? || pc.RepairSync? || pc.TruncSync? || log.durable == log.visible)
    && (if pc.SyncLog? || pc.Complete? then logged == drained else logged == done)
  }

  /** The snapshot files while no error has occurred: dirty-set soundness. */
  ghost predicate ExactDir(pc: Pc, dir: Dir, dirty: set<bytes>, colls: Colls, base: Colls, hist: seq<Record>,
                           logged: nat) {
    match pc
    case Files(cap, at, todo) =>
      && logged <= at <= |hist| && cap == At(base, hist, at)
      && Settled(dir)
      && SameExcept(dir.visible, cap, todo)
      && SameExcept(colls, cap, dirty)
    case DirSync(cap, at, todo, name) =>
      && logged <= at <= |hist| && cap == At(base, hist, at)
      && name in todo
      && (dir.syncs ==> SameExcept(dir.durable, dir.visible, {name}))
      && SameExcept(dir.visible, cap, todo - {name})
      && SameExcept(colls, cap, dirty)
    case TruncSync(cap, at) =>
      && logged <= at <= |hist| && cap == At(base, hist, at)
      && Settled(dir) && dir.visible == cap
      && SameExcept(colls, cap, dirty)
    case _ =>
      && Settled(dir)
      && SameExcept(dir.visible, colls, dirty)
  }

  /** Log-size accounting and the bound on the log's length. */
  ghost predicate SizeOk(pc: Pc, size: nat, log: Log, batch: seq<bytes>, flush: nat) {
    && (pc.SyncLog? ==> size + |JoinLines(batch)| == |log.visible|)
    && (!pc.SyncLog? && !pc.Repair? && !pc.RepairSync? && !pc.TruncSync? ==> size == |log.visible|)
    && (pc.Select? || pc.Drain? || pc.Append? || pc.SyncLog? ==> size < flush)
    && (pc.Complete? ==> size < flush + |JoinLines(batch)|)
  }

  ghost predicate Exact(s: State) {
    s.err == None ==>
      && ExactLog(s.pc, s.log, s.hist, s.lo, s.loD, s.logged, s.done, s.drained)
      && ExactDir(s.pc, s.dir, s.dirty, s.colls, s.base, s.hist, s.logged)
      && SizeOk(s.pc, s.size, s.log, s.batch, s.flush)
      && (s.mode == Stopping ==> LastSnapshot(s.pc, s.dirty, s.size))
  }

  /** Nothing is dirtied during the last snapshot, and the worker leaves an empty log. */
  ghost predicate LastSnapshot(pc: Pc, dirty: set<bytes>, size: nat) {
    && (pc.Files? || pc.DirSync? || pc.TruncSync? || pc.Exited? ==> dirty == {})
    && (pc.Exited? ==> size == 0)
  }

  /** No acknowledged record at position `i` or later writes the cell. */
  ghost predicate NoAckAfter(past: seq<Record>, acked: seq<bool>, i: nat, k: Cell) {
    forall j: nat :: i <= j < |past| && j < |acked| && acked[j] ==> Wrote(past[j], k) == None
  }

  /** A cell value that loses an acknowledged write only to a later write of the same cell. */
  ghost predicate CellSurvives(m: Colls, k: Cell, init: Colls, past: seq<Record>, acked: seq<bool>) {
    exists i: nat :: i <= |past| && Read(m, k) == Read(At(init, past, i), k) && NoAckAfter(past, acked, i, k)
  }

  ghost predicate Survives(m: Colls, init: Colls, past: seq<Record>, acked: seq<bool>) {
    forall k :: CellSurvives(m, k, init, past, acked)
  }

  /** The part of the invariant that storage errors do not touch. */
  ghost predicate Core(s: State) {
    && Bounds(s)
    && AllLoggable(s.hist)
    && (s.writer.Applied? ==> s.writer.rec == s.hist[|s.hist| - 1])
    && Queue(s.hist, s.batch, s.pending, s.done, s.drained, Entered(s))
    && Tickets(s.tickets, s.results, s.created, s.commit, s.err, s.start, s.safe, s.done, s.drained, Entered(s))
    && Control(s)
    && s.colls == Replay(s.base, s.hist)
    && LogSafe(s.log, s.hist, s.lo, s.loD, s.safe)
    && FilesSafe(s.dir, s.base, s.hist, s.lo)
    && (s.kept ==> Survives(At(s.base, s.hist, s.start), s.init, s.past, s.pastAcked))
  }

  ghost predicate Inv(s: State) {
    Core(s) && Exact(s)
  }
}
