/**
 The database object. Its methods change real fields the way the program does, and the
 ghost field `sys` takes the matching steps of the machine, so that every theorem about
 reachable machine states is about this object.
 */
module Engine {
  import opened Basics
  import opened Records
  import opened Codec
  import opened Names
  import opened Wal
  import opened Machine
  import opened Invariants
  import opened Preservation
  import opened Durability
  import opened Liveness
  import opened Runs
  import opened LineQueues
  import opened Storage

  datatype WriteError = NoError | ErrClosed | ErrNotFound | ErrTooLarge | Callback(e: Error)

  /** What the worker's `select` picks. */
  datatype Choice = Notified | Ticked | Stopped

  /** What an update callback returns: the new encoded document, or its error. */
  datatype Edit = Edited(raw: bytes) | Failed(e: Error)

  /** Encoded documents are compact JSON: never empty, no raw newline. */
  predicate CompactDoc(raw: bytes) { raw != [] && '\n' !in raw }

  /** What is still to be written and removed is exactly what the machine has left to do. */
  ghost predicate ToDo(pc: Pc, snaps: Colls, dropped: seq<bytes>) {
    && pc.Files?
    && (forall n :: n in pc.todo <==> n in snaps || n in dropped)
    && (forall n :: n in snaps ==> n in pc.cap && pc.cap[n] == snaps[n])
    && (forall n :: n in dropped ==> n !in pc.cap)
    && Distinct(dropped)
  }

  ghost predicate Distinct(s: seq<bytes>) {
    forall i, j :: 0 <= i < j < |s| ==> s[i] != s[j]
  }

  lemma SavedOne(pc: Pc, snaps: Colls, dropped: seq<bytes>, name: bytes)
    requires ToDo(pc, snaps, dropped) && name in snaps
    ensures pc.Files? && name in pc.todo && name in pc.cap && pc.cap[name] == snaps[name]
    ensures ToDo(Files(pc.cap, pc.at, pc.todo - {name}), snaps - {name}, dropped)
  {
    hide Distinct;
  }

  lemma RemovedOne(pc: Pc, dropped: seq<bytes>)
    requires ToDo(pc, map[], dropped) && dropped != []
    ensures pc.Files? && dropped[0] in pc.todo && dropped[0] !in pc.cap
    ensures ToDo(Files(pc.cap, pc.at, pc.todo - {dropped[0]}), map[], dropped[1..])
  {
    assert forall n :: n in dropped <==> n == dropped[0] || n in dropped[1..];
    assert dropped[0] !in dropped[1..];
  }

  lemma NothingLeft(pc: Pc)
    requires ToDo(pc, map[], [])
    ensures pc.Files? && pc.todo == {}
  {}

  /** Sorts the dirty names into collections to save, which are marshalled and may fail to be, and files to remove. */
  method SplitDirty(dirty: set<bytes>, colls: Colls, dir: SnapDir)
    returns (snaps: Colls, dropped: seq<bytes>, err: Status)
    modifies dir`errors
    ensures dir.errors == Noted(old(dir.errors), err)
    ensures err == None ==>
      && (forall n :: n in dirty <==> n in snaps || n in dropped)
      && (forall n :: n in snaps ==> n in colls && colls[n] == snaps[n])
      && (forall n :: n in dropped ==> n !in colls)
      && Distinct(dropped)
  {
    var names := dirty;
    snaps, dropped := map[], [];
    while names != {}
      invariant forall n :: n in dirty <==> n in names || n in snaps || n in dropped
      invariant forall n :: n in snaps ==> n !in names && n in colls && colls[n] == snaps[n]
      invariant forall n :: n in dropped ==> n !in names && n !in colls
      invariant Distinct(dropped) && dir.errors == old(dir.errors)
      decreases |names|
    {
      var name :| name in names;
      names := names - {name};
      if name !in colls {
        dropped := dropped + [name];
      } else {
        var data;
        data, err := dir.Marshal(colls[name]);
        if err.Some? {
          return;
        }
        snaps := snaps[name := data];
      }
    }
    err := None;
  }

  /** The errors that the log and the snapshot files have returned. */
  datatype Failures = Failures(log: seq<Error>, dir: seq<Error>)

  /** Either nothing failed and nothing is reported, or exactly one call did and its error is reported. */
  ghost predicate Reported(before: Failures, after: Failures, err: Status) {
    match err
    case None => after == before
    case Some(e) => after == before.(log := before.log + [e]) || after == before.(dir := before.dir + [e])
  }

  /** What writers and `Close` change is as it was, if the database was being opened. */
  ghost predicate Undisturbed(s: State, t: State) {
    s.mode == Opening ==>
      && t.colls == s.colls && t.closed == s.closed && t.pending == s.pending
      && t.notify == s.notify && t.stop == s.stop
  }

  lemma NobodyYet(s: State)
    ensures Undisturbed(s, s)
  {}

  lemma WorkersOwn(s: State, t: State)
    requires SameMemory(s, t)
    ensures Undisturbed(s, t)
  {}

  lemma UndisturbedTrans(s: State, t: State, u: State)
    requires t.mode == s.mode && Undisturbed(s, t) && Undisturbed(t, u)
    ensures Undisturbed(s, u)
  {}

  lemma NothingReported(e: Failures)
    ensures Reported(e, e, None)
    ensures forall e' :: Reported(e, e', None) ==> e' == e
  {}

  /** Reports of two calls in a row add up: once an error is known, no more are. */
  lemma ReportsAddUp(a: Failures, b: Failures, c: Failures, err: Status, err1: Status, err2: Status)
    requires Reported(a, b, if err == None then err1 else None) && (err.Some? ==> err1 == err)
    requires Reported(b, c, if err1 == None then err2 else None) && (err1.Some? ==> err2 == err1)
    ensures Reported(a, c, if err == None then err2 else None)
  {}

  /** `c` is one of the first `i` choices. */
  ghost predicate Among(choices: seq<Choice>, i: nat, c: Choice)
    requires i <= |choices|
  {
    exists k :: 0 <= k < i && choices[k] == c
  }

  lemma AmongMeans(choices: seq<Choice>, i: nat)
    requires i <= |choices|
    ensures forall c :: Among(choices, i, c) <==> i > 0 && (Among(choices, i - 1, c) || choices[i - 1] == c)
    ensures i == |choices| ==> forall c :: Among(choices, i, c) <==> c in choices
  {}

  class DB {
    const flushBytes: nat
    const maxDocSize: nat
    const log: LogFile
    const dir: SnapDir
    const flock: LockFile
    const queue: LineQueue
    var colls: Colls
    var dirty: set<bytes>
    var closed: bool
    var size: nat
    var commit: Commit?
    var notify: bool
    var stop: bool
    var failed: Status
    ghost var commits: seq<Commit>
    ghost var sys: State

    /** The object `Open` starts from: nothing loaded yet. `before` is the state the last process left. */
    constructor (log: LogFile, dir: SnapDir, flock: LockFile, flushBytes: nat, maxDocSize: nat, ghost before: State)
      ensures this.log == log && this.dir == dir && this.flock == flock
      ensures this.flushBytes == flushBytes && this.maxDocSize == maxDocSize
      ensures fresh(queue) && fresh(queue.pending) && fresh(queue.spare) && queue.Valid()
      ensures queue.Pending() == [] && queue.InFlight() == []
      ensures colls == map[] && dirty == {} && !closed && size == 0 && commit == null && !notify && !stop
      ensures commits == [] && sys == before
    {
      this.log, this.dir, this.flock, this.flushBytes, this.maxDocSize := log, dir, flock, flushBytes, maxDocSize;
      queue := new LineQueue();
      colls, dirty, closed, size, commit, notify, stop, failed := map[], {}, false, 0, null, false, false, None;
      commits, sys := [], before;
    }

    ghost function Repr(): set<object>
      reads this, queue
    {
      {this, log, dir, queue, queue.pending, queue.spare} + set c | c in commits
    }

    ghost function Errors(): Failures
      reads log, dir
    {
      Failures(log.errors, dir.errors)
    }

    /** While the database is being opened nobody else touches it. */
    ghost predicate NobodySince(s0: State)
      reads this`sys
    {
      Undisturbed(s0, sys)
    }

    /** Commits in creation order; the first `|results|` of them are closed, with those results. */
    ghost predicate CommitsFor(created: nat, current: Option<nat>, results: seq<Status>)
      reads this`commits, this`commit, commits
    {
      && |commits| == created && |results| <= |commits|
      && (forall c, d :: 0 <= c < d < |commits| ==> commits[c] != commits[d])
      && (forall c :: 0 <= c < |commits| ==> commits[c].done == (c < |results|))
      && (forall c :: 0 <= c < |results| ==> commits[c].err == results[c])
      && (commit != null <==> current.Some?)
      && (commit != null ==> current.value < |commits| && commit == commits[current.value])
    }

    ghost predicate CommitsOk()
      reads this, commits
    {
      CommitsFor(sys.created, sys.commit, sys.results)
    }

    /** The fields are the program variables of the state `s`. */
    ghost predicate MemoryMirrors(s: State)
      reads this`colls, this`dirty, this`closed, this`size, this`notify, this`stop, queue, queue.pending, queue.spare
    {
      && queue.Valid()
      && s.flush == flushBytes && s.colls == colls && s.dirty == dirty && s.closed == closed
      && s.size == size && s.notify == notify && s.stop == stop
      && s.pending == queue.Pending() && (s.batch != [] ==> s.batch == queue.InFlight())
    }

    lemma MemoryKept(s: State, t: State)
      requires MemoryMirrors(s) && SameMemory(s, t) && t.size == s.size
      ensures MemoryMirrors(t)
    {}

    lemma FieldsMirror()
      requires Valid()
      ensures closed == sys.closed && stop == sys.stop && notify == sys.notify && colls == sys.colls
      ensures queue.Valid() && queue.Pending() == sys.pending && Reachable(sys)
    {
      hide Reachable;
    }

    ghost predicate Mirrors()
      reads this, log, dir, queue, queue.pending, queue.spare
    {
      && MemoryMirrors(sys)
      && sys.log == Log(log.durable, log.visible) && sys.dir == Dir(dir.durable, dir.visible, dir.syncs)
    }

    /** Between critical sections: the fields are the variables of a reachable machine state. */
    ghost predicate Valid()
      reads this, Repr()
    {
      Mirrors() && CommitsOk() && Reachable(sys) && sys.writer == Free
    }

    // ----- Writers -----

    /** `apply`: the record's effect on the collections and on the dirty set. */
    method Apply(rec: Record)
      modifies this`colls, this`dirty
      ensures colls == Records.Apply(old(colls), rec)
      ensures dirty == old(dirty) + (if Marks(old(colls), rec) then {rec.coll} else {})
    {
      if rec.op == OP_SET {
        var c: Coll := map[];
        if rec.coll in colls {
          c := colls[rec.coll];
        }
        colls := colls[rec.coll := c[rec.id := rec.doc]];
        dirty := dirty + {rec.coll};
      } else if rec.op == OP_DEL {
        if rec.coll !in colls || rec.id !in colls[rec.coll] {
          return;
        }
        colls := colls[rec.coll := colls[rec.coll] - {rec.id}];
        dirty := dirty + {rec.coll};
      } else if rec.op == OP_DROP {
        if rec.coll !in colls {
          return;
        }
        colls := colls - {rec.coll};
        dirty := dirty + {rec.coll};
      }
    }

    /** The open commit, or a new one. */
    method CurrentCommit(ghost created: nat, ghost current: Option<nat>, ghost results: seq<Status>) returns (c: Commit)
      requires CommitsFor(created, current, results)
      requires current.Some? ==> current.value >= |results|
      modifies this`commit, this`commits
      ensures old(commits) <= commits && fresh((set o | o in commits) - old(set o | o in commits))
      ensures
        var id := if current == None then created else current.value;
        && CommitsFor(if current == None then created + 1 else created, Some(id), results)
        && c == commits[id] && !c.done
    {
      if commit == null {
        commit := new Commit();
        commits := commits + [commit];
      }
      c := commit;
    }

    /** `enqueue`: joins the open commit, or opens one, and leaves a wakeup token. */
    method Enqueue(line: bytes, ghost rec: Record) returns (c: Commit)
      requires Mirrors() && CommitsOk() && Reachable(sys)
      requires sys.writer == Applied(rec) && line == EncodeRecord(rec)
      modifies this`commit, this`notify, this`commits, this`sys, queue, queue.pending
      ensures Valid() && fresh(Repr() - old(Repr())) && old(commits) <= commits
      ensures sys == Enqueued(old(sys)) && OthersRun(old(sys), sys)
      ensures 0 < sys.created <= |commits| && c == commits[sys.created - 1] && !c.done
      ensures queue.Valid() && queue.Pending() == old(queue.Pending()) + [line]
      ensures sys.tickets == old(sys).tickets + [sys.created - 1] && notify
    {
      hide Reachable, EncodeRecord, Loggable, OthersRun, CommitsFor, Lines, Enqueued;
      hide LineQueue.Valid, LineQueue.Pending, LineQueue.InFlight;
      c := JoinCommit(rec);
      queue.Add(line);
      notify := true;
      sys := Enqueued(sys);
    }

    /** The critical section of `enqueue` up to the append: the line's commit is open. */
    method JoinCommit(ghost rec: Record) returns (c: Commit)
      requires Mirrors() && CommitsOk() && Reachable(sys) && sys.writer == Applied(rec)
      modifies this`commit, this`commits
      ensures old(commits) <= commits && fresh((set o | o in commits) - old(set o | o in commits))
      ensures var t := Enqueued(sys);
        && CommitsFor(t.created, t.commit, t.results) && OthersRun(sys, t) && Reachable(t)
        && 0 < t.created <= |commits| && c == commits[t.created - 1] && !c.done
        && SameButQueue(sys, t) && t.notify && t.writer == Free
        && t.pending == sys.pending + [EncodeRecord(rec)] && t.tickets == sys.tickets + [t.created - 1]
    {
      hide Reachable, EncodeRecord, Loggable, OthersRun, Lines, Mirrors, Enqueued;
      CommitNumbers(sys);
      c := CurrentCommit(sys.created, sys.commit, sys.results);
      EnqueueRun(sys);
      EnqueuedIs(sys);
      OneLine(rec);
      CommitNumbers(Enqueued(sys));
    }

    ghost predicate SameButQueue(s: State, t: State) {
      && t.flush == s.flush && t.colls == s.colls && t.dirty == s.dirty && t.closed == s.closed && t.size == s.size
      && t.stop == s.stop && t.batch == s.batch && t.log == s.log && t.dir == s.dir
    }

    lemma OneLine(rec: Record)
      ensures Lines([rec]) == [EncodeRecord(rec)]
    {
      hide EncodeRecord;
    }

    /** What one accepted write has done by the time its caller starts to wait on `c`. */
    ghost predicate Accepted(rec: Record, colls0: Colls, pending0: seq<bytes>, s0: State, c: Commit?)
      requires queue.Valid()
      reads this, queue, queue.pending, c
    {
      && colls == Records.Apply(colls0, rec)
      && sys.hist == s0.hist + [rec]
      && queue.Pending() == pending0 + [EncodeRecord(rec)]
      && sys.created > 0 && sys.tickets == s0.tickets + [sys.created - 1]
      && sys.created <= |commits| && c == commits[sys.created - 1] && !c.done
      && notify
    }

    /** The first half of a write under db.mu: the record takes effect in memory before it is logged. */
    method ApplyFirst(rec: Record)
      requires Valid() && sys.mode != Opening && !closed && Loggable(rec)
      modifies this`colls, this`dirty, this`sys
      ensures Mirrors() && CommitsOk() && Reachable(sys) && Repr() == old(Repr())
      ensures sys == Issued(old(sys), rec) && OthersRun(old(sys), sys)
      ensures old(queue.Valid()) && colls == Records.Apply(old(colls), rec)
    {
      hide Reachable, Loggable, OthersRun, Marks, Records.Apply, CommitsFor;
      Apply(rec);
      IssueRun(sys, rec);
      sys := Issued(sys, rec);
    }

    /** `write`: apply, enqueue and signal under db.mu. The caller then waits on the commit. */
    method Write(rec: Record) returns (c: Commit?, err: WriteError)
      requires Valid() && sys.mode != Opening && Loggable(rec)
      modifies Repr()
      ensures Valid() && fresh(Repr() - old(Repr())) && old(commits) <= commits
      ensures OthersRun(old(sys), sys)
      ensures old(closed) ==> err == ErrClosed && c == null && sys == old(sys)
      ensures !old(closed) ==> err == NoError && Accepted(rec, old(colls), old(queue.Pending()), old(sys), c)
    {
      hide Reachable, EncodeRecord, Loggable, OthersRun, Records.Apply, CommitsFor, Mirrors;
      hide LineQueue.Valid, LineQueue.Pending, LineQueue.InFlight;
      if closed {
        OthersRefl(sys);
        return null, ErrClosed;
      }
      ghost var s := sys;
      ApplyFirst(rec);
      c := Enqueue(EncodeRecord(rec), rec);
      OthersTrans(s, Issued(s, rec), sys);
      err := NoError;
    }

    /** `read`: the last write to the document in the order of the history, acknowledged or not. */
    method Get(coll: bytes, id: bytes) returns (raw: bytes, err: WriteError)
      requires Valid() && sys.mode != Opening
      ensures closed ==> err == ErrClosed
      ensures !closed ==>
        var doc := Over(LastWrite(sys.hist, DocOf(coll, id)), Read(sys.base, DocOf(coll, id)));
        if doc.Some? then err == NoError && raw == doc.value else err == ErrNotFound
    {
      hide Reachable, CommitsFor;
      if closed {
        return [], ErrClosed;
      }
      HistoryDecides(coll, id);
      if coll !in colls || id !in colls[coll] {
        return [], ErrNotFound;
      }
      return colls[coll][id], NoError;
    }

    lemma HistoryDecides(coll: bytes, id: bytes)
      requires Valid()
      ensures Read(colls, DocOf(coll, id)) ==
        Over(LastWrite(sys.hist, DocOf(coll, id)), Read(sys.base, DocOf(coll, id)))
    {
      assert colls == Records.Replay(sys.base, sys.hist) by {
        hide Reachable, CommitsFor, LogSafe, FilesSafe, Survives, Exact, AllLoggable, Tickets, Queue, Control, Bounds;
        ReachableInv(sys);
      }
      ReplayCell(sys.base, sys.hist, DocOf(coll, id));
    }

    /** What the waiter of the `i`th record issued since the last open is told. */
    lemma Acknowledged(i: nat)
      requires Valid() && i < |sys.tickets|
      ensures sys.tickets[i] < |commits| && sys.start + i < |sys.hist|
      ensures var c := commits[sys.tickets[i]];
        && (c.done && c.err == None <==> sys.start + i < sys.safe)
        && (c.done <==> sys.start + i < sys.done)
    {
      TicketsInOrder(sys, i, i);
      EnteredIs(sys);
      hide Reachable;
      AcknowledgedPrefix(sys, i);
    }

    /** A caller told success finds its write, or a later one of the same document, after any crash. */
    lemma AcknowledgedSurvives(i: nat, k: Cell, d: bytes, fs: Colls)
      requires Valid() && i < |sys.tickets| && CanLeaveLog(sys.log, d) && CanLeaveDir(sys.dir, fs)
        && KeepsFiles(sys.dir, fs)
      requires sys.tickets[i] < |commits| && commits[sys.tickets[i]].done && commits[sys.tickets[i]].err == None
      requires sys.start + i < |sys.hist| && Wrote(sys.hist[sys.start + i], k).Some?
      requires forall j :: sys.start + i < j < |sys.hist| ==> Wrote(sys.hist[j], k) == None
      ensures ParseLog(d).Parsed? && Read(Recover(d, fs), k) == Wrote(sys.hist[sys.start + i], k).value
    {
      hide Reachable, Wrote, Mirrors, CommitsFor, ParseLog, CanLeaveDir, CanLeaveLog, KeepsFiles;
      Acknowledged(i);
      SafeInHistory(sys);
      AcknowledgedWriteSurvives(sys, sys.start + i, k, d, fs);
    }

    // ----- Typed operations; `raw` is the encoded document -----

    method Set(coll: bytes, id: bytes, raw: bytes) returns (c: Commit?, err: WriteError)
      requires Valid() && sys.mode != Opening
      requires ValidName(coll) && ValidUtf8(id) && CompactDoc(raw)
      modifies Repr()
      ensures Valid() && fresh(Repr() - old(Repr())) && old(commits) <= commits && OthersRun(old(sys), sys)
      ensures err == (if |raw| > maxDocSize then ErrTooLarge else if old(closed) then ErrClosed else NoError)
      ensures err != NoError ==> c == null && sys == old(sys)
      ensures err == NoError ==> Accepted(Record(OP_SET, coll, id, raw), old(colls), old(queue.Pending()), old(sys), c)
    {
      hide Reachable, EncodeRecord, ValidName, ValidUtf8, OthersRun, Records.Apply, CommitsFor, Mirrors, Loggable,
        Accepted;
      if |raw| > maxDocSize {
        OthersRefl(sys);
        return null, ErrTooLarge;
      }
      OperationsLoggable(coll, id, raw);
      c, err := Write(Record(OP_SET, coll, id, raw));
    }

    method Delete(coll: bytes, id: bytes) returns (c: Commit?, err: WriteError)
      requires Valid() && sys.mode != Opening
      requires ValidName(coll) && ValidUtf8(id)
      modifies Repr()
      ensures Valid() && fresh(Repr() - old(Repr())) && old(commits) <= commits && OthersRun(old(sys), sys)
      ensures err == if old(closed) then ErrClosed else NoError
      ensures err != NoError ==> c == null && sys == old(sys)
      ensures err == NoError ==> Accepted(Record(OP_DEL, coll, id, []), old(colls), old(queue.Pending()), old(sys), c)
    {
      hide Reachable, EncodeRecord, ValidName, ValidUtf8, OthersRun, Records.Apply, CommitsFor, Mirrors, Loggable,
        Accepted;
      OperationsLoggable(coll, id, "0");
      c, err := Write(Record(OP_DEL, coll, id, []));
    }

    method Drop(coll: bytes) returns (c: Commit?, err: WriteError)
      requires Valid() && sys.mode != Opening && ValidName(coll)
      modifies Repr()
      ensures Valid() && fresh(Repr() - old(Repr())) && old(commits) <= commits && OthersRun(old(sys), sys)
      ensures err == if old(closed) then ErrClosed else NoError
      ensures err != NoError ==> c == null && sys == old(sys)
      ensures err == NoError ==> Accepted(Record(OP_DROP, coll, [], []), old(colls), old(queue.Pending()), old(sys), c)
    {
      hide Reachable, EncodeRecord, ValidName, OthersRun, Records.Apply, CommitsFor, Mirrors, Loggable, Accepted;
      OperationsLoggable(coll, [], "0");
      c, err := Write(Record(OP_DROP, coll, [], []));
    }

    /** Read-modify-write under db.mu: `fn` edits the document that is current when its result is applied. */
    method Update(coll: bytes, id: bytes, fn: bytes -> Edit) returns (c: Commit?, err: WriteError)
      requires Valid() && sys.mode != Opening
      requires ValidName(coll) && ValidUtf8(id)
      requires forall raw :: fn(raw).Edited? ==> CompactDoc(fn(raw).raw)
      modifies Repr()
      ensures Valid() && fresh(Repr() - old(Repr())) && old(commits) <= commits && OthersRun(old(sys), sys)
      ensures old(closed) ==> err == ErrClosed
      ensures !old(closed) && !(coll in old(colls) && id in old(colls)[coll]) ==> err == ErrNotFound
      ensures !old(closed) && coll in old(colls) && id in old(colls)[coll] ==>
        match fn(old(colls)[coll][id])
        case Failed(e) => err == Callback(e)
        case Edited(out) => err == if |out| > maxDocSize then ErrTooLarge else NoError
      ensures err != NoError ==> c == null && sys == old(sys)
      ensures err == NoError ==>
        Accepted(Record(OP_SET, coll, id, fn(old(colls)[coll][id]).raw), old(colls), old(queue.Pending()), old(sys), c)
    {
      hide Reachable, EncodeRecord, ValidName, ValidUtf8, OthersRun, Records.Apply, CommitsFor, Mirrors, Loggable,
        Accepted;
      OthersRefl(sys);
      if closed {
        return null, ErrClosed;
      }
      if coll !in colls || id !in colls[coll] {
        return null, ErrNotFound;
      }
      var edit := fn(colls[coll][id]);
      match edit
      case Failed(e) =>
        return null, Callback(e);
      case Edited(out) =>
        if |out| > maxDocSize {
          return null, ErrTooLarge;
        }
        OperationsLoggable(coll, id, out);
        c, err := Write(Record(OP_SET, coll, id, out));
    }

    // ----- The worker -----

    /**
     Anything writers and `Close` do between two of the worker's own steps. Callers see only
     this contract, every clause of which follows from `OthersRun` by `OthersKeepWorker` and
     `NobodyDuringOpen`; the body is one of the runs it allows.
     */
    method Interfere()
      requires Valid()
      modifies Repr()
      ensures Valid() && fresh(Repr() - old(Repr())) && old(commits) <= commits
      ensures OthersRun(old(sys), sys) && WorkerKept(old(sys), sys)
      ensures NobodySince(old(sys)) && Errors() == old(Errors())
    {
      OthersRefl(sys);
      OthersKeepWorker(sys, sys);
    }

    /** One write of the whole batch. */
    method AppendNow(buf: bytes) returns (err: Status)
      requires Valid() && sys.pc == Append && sys.err == None && buf == JoinLines(sys.batch)
      modifies log, this`sys
      ensures Valid() && Repr() == old(Repr()) && commits == old(commits) && ProcessRun(old(sys), sys)
      ensures sys.pc == (if err == None then SyncLog else Complete) && sys.err == err
      ensures sys.results == old(sys).results && sys.drained == old(sys).drained && sys.mode == old(sys).mode
      ensures sys.batch == old(sys).batch
      ensures Reported(old(Errors()), Errors(), err)
    {
      hide Reachable, ProcessRun, JoinLines, CommitsFor, Appended, MemoryMirrors;
      ghost var s := sys;
      RunRefl(s);
      ghost var kept;
      err, kept := log.Write(buf);
      AppendRun(s, s, kept, err);
      MemoryKept(s, Appended(s, kept, err));
      sys := Appended(s, kept, err);
    }

    /** The batch is joined and appended; writers may add to `pending` before that happens. */
    method AppendBatch() returns (err: Status, n: nat)
      requires Valid() && sys.pc == Append
      modifies Repr()
      ensures Valid() && fresh(Repr() - old(Repr())) && old(commits) <= commits && ProcessRun(old(sys), sys)
      ensures sys.pc == (if err == None then SyncLog else Complete) && sys.err == err
      ensures err == None ==> n == |JoinLines(sys.batch)|
      ensures sys.results == old(sys).results && sys.drained == old(sys).drained && sys.mode == old(sys).mode
      ensures Reported(old(Errors()), Errors(), err)
    {
      hide Reachable, OthersRun, ProcessRun, JoinLines, CommitsFor;
      ghost var s0 := sys;
      NoErrorAllSafe(s0);
      CommitNumbers(s0);
      RunRefl(s0);
      var buf := queue.Join();
      n := |buf|;
      Interfere();
      OthersAreProcess(s0, s0, sys);
      ghost var s1 := sys;
      hide Mirrors;
      err := AppendNow(buf);
      RunTrans(s0, s1, sys);
    }

    method SyncNow(n: nat) returns (err: Status)
      requires Valid() && sys.pc == SyncLog && sys.err == None && n == |JoinLines(sys.batch)|
      modifies log, this`size, this`sys
      ensures Valid() && Repr() == old(Repr()) && commits == old(commits) && ProcessRun(old(sys), sys)
      ensures sys.pc == Complete && sys.err == err
      ensures sys.results == old(sys).results && sys.drained == old(sys).drained && sys.mode == old(sys).mode
      ensures Reported(old(Errors()), Errors(), err)
    {
      hide Reachable, ProcessRun, JoinLines, CommitsFor;
      hide LineQueue.Valid, LineQueue.Pending, LineQueue.InFlight;
      ghost var s := sys;
      RunRefl(s);
      err := log.Sync();
      SyncRun(s, s, err);
      if err == None {
        size := size + n;
      }
      sys := Synced(s, err);
    }

    method SyncBatch(n: nat) returns (err: Status)
      requires Valid() && sys.pc == SyncLog && n == |JoinLines(sys.batch)|
      modifies Repr()
      ensures Valid() && fresh(Repr() - old(Repr())) && old(commits) <= commits && ProcessRun(old(sys), sys)
      ensures sys.pc == Complete && sys.err == err
      ensures sys.results == old(sys).results && sys.drained == old(sys).drained && sys.mode == old(sys).mode
      ensures Reported(old(Errors()), Errors(), err)
    {
      hide Reachable, OthersRun, ProcessRun, JoinLines, CommitsFor, Mirrors;
      ghost var s0 := sys;
      NoErrorAllSafe(s0);
      RunRefl(s0);
      Interfere();
      OthersAreProcess(s0, s0, sys);
      ghost var s1 := sys;
      err := SyncNow(n);
      RunTrans(s0, s1, sys);
    }

    /** The critical section of `writeLog`: the queue is taken as the batch. */
    method DetachBatch() returns (c: Commit?)
      requires Valid() && sys.pc == Drain
      modifies Repr()
      ensures Valid() && Repr() == old(Repr()) && commits == old(commits) && ProcessRun(old(sys), sys)
      ensures sys == Detached(old(sys)) && sys.drained == Entered(old(sys))
      ensures c == null ==> sys.pc == AfterLog(sys) && sys.done == sys.drained
      ensures c != null ==>
        && sys.pc == (if sys.err == None then Append else Complete)
        && |sys.results| < |commits| && c == commits[|sys.results|]
      ensures Errors() == old(Errors())
    {
      hide Reachable, OthersRun, ProcessRun, JoinLines;
      hide LineQueue.Valid, LineQueue.Pending, LineQueue.InFlight;
      CommitNumbers(sys);
      c := commit;
      queue.Swap();
      commit := null;
      DetachRun(sys);
      sys := Detached(sys);
      NoErrorAllSafe(sys);
      CommitNumbers(sys);
    }

    method CloseCommit(c: Commit, err: Status, ghost created: nat, ghost current: Option<nat>,
                       ghost results: seq<Status>)
      requires CommitsFor(created, current, results) && |results| < created
      requires c == commits[|results|]
      modifies c
      ensures CommitsFor(created, current, results + [err])
      ensures c.done && c.err == err
    {
      c.Close(err);
    }

    lemma CommitCount()
      requires CommitsOk()
      ensures |commits| == sys.created
    {}

    /** `commit.err = err; close(commit.done)`: the commit of the batch, and no other, is closed. */
    method ReleaseNow(c: Commit, err: Status)
      requires Valid() && sys.pc == Complete && sys.err == err && |sys.results| < |commits|
        && c == commits[|sys.results|]
      modifies c, queue.spare, this`sys
      ensures Valid() && Repr() == old(Repr()) && commits == old(commits) && ProcessRun(old(sys), sys)
      ensures sys == Released(old(sys)) && c.done && c.err == err
    {
      hide Reachable, ProcessRun, CommitsFor;
      ghost var s := sys;
      RunRefl(s);
      CommitNumbers(s);
      CommitCount();
      CloseCommit(c, err, s.created, s.commit, s.results);
      ReleaseRun(s, s);
      sys := Released(s);
      queue.ClearBatch();
    }

    method ReleaseBatch(c: Commit, err: Status)
      requires Valid() && sys.pc == Complete && sys.err == err && |sys.results| < |commits|
        && c == commits[|sys.results|]
      modifies Repr()
      ensures Valid() && fresh(Repr() - old(Repr())) && old(commits) <= commits && ProcessRun(old(sys), sys)
      ensures sys.pc == AfterLog(sys) && sys.mode == old(sys).mode && sys.err == old(sys).err
      ensures sys.results == old(sys).results + [sys.err] && c.done && c.err == sys.err
      ensures sys.done == old(sys).drained && (sys.err == None ==> sys.safe == sys.done)
      ensures Errors() == old(Errors())
    {
      hide Reachable, OthersRun, ProcessRun, CommitsFor, Mirrors;
      ghost var s0 := sys;
      RunRefl(s0);
      Interfere();
      OthersAreProcess(s0, s0, sys);
      ghost var s1 := sys;
      ReleaseNow(c, err);
      RunTrans(s0, s1, sys);
    }

    /** `writeLog`: drains the queue, logs the batch, and releases everyone who waits for it. */
    method WriteLog(err: Status) returns (err': Status)
      requires Valid() && sys.pc == Drain && sys.err == err
      modifies Repr()
      ensures Valid() && fresh(Repr() - old(Repr())) && old(commits) <= commits && ProcessRun(old(sys), sys)
      ensures sys.pc == AfterLog(sys) && sys.mode == old(sys).mode
      ensures sys.err == err' && (err.Some? ==> err' == err)
      ensures Entered(old(sys)) <= sys.done
      ensures err' == None ==> Entered(old(sys)) <= sys.safe
      ensures Reported(old(Errors()), Errors(), if err == None then err' else None)
    {
      hide Reachable, OthersRun, ProcessRun, JoinLines, Valid;
      ghost var s0 := sys;
      var c := DetachBatch();
      err' := err;
      if c == null {
        SafeWhenDone();
        return;
      }
      ghost var s1 := sys;
      hide Detached;
      err' := LogBatch(c, err);
      RunTrans(s0, s1, sys);
    }

    /**
     The rest of `writeLog`: the drained batch is written and synced, unless there was an
     error, and its commit closed.
     */
    method LogBatch(c: Commit, err: Status) returns (err': Status)
      requires Valid() && sys.pc == (if err == None then Append else Complete) && sys.err == err
      requires |sys.results| < |commits| && c == commits[|sys.results|]
      modifies Repr()
      ensures Valid() && fresh(Repr() - old(Repr())) && old(commits) <= commits && ProcessRun(old(sys), sys)
      ensures sys.pc == AfterLog(sys) && sys.mode == old(sys).mode
      ensures sys.err == err' && (err.Some? ==> err' == err)
      ensures c.done && c.err == err' && sys.results == old(sys).results + [err']
      ensures sys.done == old(sys).drained && (err' == None ==> sys.safe == sys.done)
      ensures Reported(old(Errors()), Errors(), if err == None then err' else None)
    {
      hide Reachable, OthersRun, ProcessRun, JoinLines, Valid, AfterLog, Reported, Errors;
      ghost var s0 := sys;
      RunRefl(s0);
      NothingReported(Errors());
      err' := err;
      if err == None {
        err' := StoreBatch();
      }
      ghost var s3 := sys;
      ReleaseBatch(c, err');
      RunTrans(s0, s3, sys);
    }

    /** Write, then sync. */
    method StoreBatch() returns (err: Status)
      requires Valid() && sys.pc == Append
      modifies Repr()
      ensures Valid() && fresh(Repr() - old(Repr())) && old(commits) <= commits && ProcessRun(old(sys), sys)
      ensures sys.pc == Complete && sys.err == err
      ensures sys.results == old(sys).results && sys.drained == old(sys).drained && sys.mode == old(sys).mode
      ensures Reported(old(Errors()), Errors(), err)
    {
      hide Reachable, OthersRun, ProcessRun, JoinLines, Valid;
      ghost var s0 := sys;
      var n: nat;
      err, n := AppendBatch();
      if err == None {
        ghost var s1 := sys;
        err := SyncBatch(n);
        RunTrans(s0, s1, sys);
      }
    }

    lemma SafeWhenDone()
      requires Valid()
      ensures sys.err == None ==> sys.safe == sys.done
    {
      NoErrorAllSafe(sys);
    }

    // ----- Snapshots -----

    /** `writeSnapshot` has returned `err`: control is back at `select`, or the process is done. */
    ghost predicate SnapshotReturned(mode: Mode, err: Status)
      reads this
    {
      sys.err == err && sys.pc == PcAfterSnap(mode, err) && sys.mode == ModeAfterSnap(mode, err)
    }

    /** One more captured file is on disk, or the snapshot has failed. */
    ghost predicate FileDone(s0: State, name: bytes, err: Status)
      requires s0.pc.Files?
      reads this
    {
      if err == None then
        sys.pc == Files(s0.pc.cap, s0.pc.at, s0.pc.todo - {name}) && sys.mode == s0.mode
      else
        SnapshotReturned(s0.mode, err)
    }

    method SyncParentNow() returns (err: Status)
      requires Valid() && sys.pc.DirSync?
      modifies dir, this`sys
      ensures Valid() && Repr() == old(Repr()) && ProcessRun(old(sys), sys)
      ensures
        var s0 := old(sys);
        if err == None then sys.pc == Files(s0.pc.cap, s0.pc.at, s0.pc.todo - {s0.pc.name}) && sys.mode == s0.mode
        else SnapshotReturned(s0.mode, err)
      ensures NobodySince(old(sys)) && Reported(old(Errors()), Errors(), err)
    {
      hide Reachable, ProcessRun, CommitsFor, DirSynced, AfterSnap, Undisturbed, MemoryMirrors;
      ghost var s := sys;
      RunRefl(s);
      err := dir.Sync();
      DirSyncRun(s, s, err);
      if err == None {
        DirSyncedIs(s);
        WorkersOwn(s, DirSynced(s));
        MemoryKept(s, DirSynced(s));
        sys := DirSynced(s);
      } else {
        AfterSnapIs(s, err);
        WorkersOwn(s, AfterSnap(s, err));
        MemoryKept(s, AfterSnap(s, err));
        sys := AfterSnap(s, err);
      }
    }

    /** The directory sync that ends a replacement or removal. */
    method SyncParent() returns (err: Status)
      requires Valid() && sys.pc.DirSync?
      modifies Repr()
      ensures Valid() && fresh(Repr() - old(Repr())) && old(commits) <= commits && ProcessRun(old(sys), sys)
      ensures
        var s0 := old(sys);
        if err == None then sys.pc == Files(s0.pc.cap, s0.pc.at, s0.pc.todo - {s0.pc.name}) && sys.mode == s0.mode
        else SnapshotReturned(s0.mode, err)
      ensures NobodySince(old(sys)) && Reported(old(Errors()), Errors(), err)
    {
      hide Reachable, OthersRun, ProcessRun, CommitsFor, Mirrors;
      ghost var s0 := sys;
      RunRefl(s0);
      Interfere();
      OthersAreProcess(s0, s0, sys);
      ghost var s1 := sys;
      err := SyncParentNow();
      RunTrans(s0, s1, sys);
    }

    /** A file operation has failed, and with it the snapshot. */
    ghost method FailFile(err: Status)
      requires Valid() && sys.pc.Files? && sys.pc.todo != {} && err.Some?
      modifies this`sys
      ensures Valid() && Repr() == old(Repr()) && ProcessRun(old(sys), sys) && SnapshotReturned(old(sys).mode, err)
      ensures NobodySince(old(sys))
    {
      hide Reachable, ProcessRun, CommitsFor, AfterSnap;
      RunRefl(sys);
      FileFailRun(sys, sys, err.value);
      AfterSnapIs(sys, err);
      sys := AfterSnap(sys, err);
    }

    /** The new contents are under the final name, or the snapshot has failed. */
    method RenameNow(name: bytes, data: Coll) returns (err: Status)
      requires Valid() && sys.pc.Files? && name in sys.pc.todo && name in sys.pc.cap && sys.pc.cap[name] == data
      modifies dir, this`sys
      ensures Valid() && Repr() == old(Repr()) && commits == old(commits) && ProcessRun(old(sys), sys)
      ensures
        var s0 := old(sys);
        if err == None then sys.pc == DirSync(s0.pc.cap, s0.pc.at, s0.pc.todo, name) && sys.mode == s0.mode
        else SnapshotReturned(s0.mode, err)
      ensures Reported(old(Errors()), Errors(), err)
      ensures NobodySince(old(sys))
    {
      hide Reachable, ProcessRun, CommitsFor, Replaced, SnapshotReturned, Undisturbed;
      hide MemoryMirrors;
      ghost var s := sys;
      RunRefl(s);
      err := dir.Rename(name, data);
      if err.Some? {
        FailFile(err);
      } else {
        SaveRun(s, s, name);
        assert Replaced(s, name).dir == Dir(dir.durable, dir.visible, dir.syncs);
        WorkersOwn(s, Replaced(s, name));
        MemoryKept(s, Replaced(s, name));
        sys := Replaced(s, name);
      }
    }

    method RenameFile(name: bytes, data: Coll) returns (err: Status)
      requires Valid() && sys.pc.Files? && name in sys.pc.todo && name in sys.pc.cap && sys.pc.cap[name] == data
      modifies Repr()
      ensures Valid() && fresh(Repr() - old(Repr())) && old(commits) <= commits && ProcessRun(old(sys), sys)
      ensures NobodySince(old(sys))
      ensures
        var s0 := old(sys);
        if err == None then sys.pc == DirSync(s0.pc.cap, s0.pc.at, s0.pc.todo, name) && sys.mode == s0.mode
        else SnapshotReturned(s0.mode, err)
      ensures Reported(old(Errors()), Errors(), err)
    {
      hide Reachable, OthersRun, ProcessRun, CommitsFor, Mirrors;
      ghost var s0 := sys;
      RunRefl(s0);
      Interfere();
      OthersAreProcess(s0, s0, sys);
      ghost var s1 := sys;
      err := RenameNow(name, data);
      RunTrans(s0, s1, sys);
    }

    /** Writing one snapshot file: parents, temporary file, rename, directory sync. */
    method SaveColl(name: bytes, data: Coll) returns (err: Status)
      requires Valid() && sys.pc.Files? && name in sys.pc.todo && name in sys.pc.cap && sys.pc.cap[name] == data
      modifies Repr()
      ensures Valid() && fresh(Repr() - old(Repr())) && old(commits) <= commits && ProcessRun(old(sys), sys)
      ensures NobodySince(old(sys))
      ensures FileDone(old(sys), name, err)
      ensures Reported(old(Errors()), Errors(), err)
    {
      hide Reachable, OthersRun, ProcessRun, Valid;
      ghost var s0 := sys;
      err := RenameFile(name, data);
      if err == None {
        ghost var s1 := sys;
        err := SyncParent();
        RunTrans(s0, s1, sys);
      }
    }

    method RemoveNow(name: bytes) returns (err: Status, missing: bool)
      requires Valid() && sys.pc.Files? && name in sys.pc.todo && name !in sys.pc.cap
      modifies dir, this`sys
      ensures Valid() && Repr() == old(Repr()) && commits == old(commits) && ProcessRun(old(sys), sys)
      ensures
        var s0 := old(sys);
        if missing then FileDone(s0, name, None)
        else if err == None then sys.pc == DirSync(s0.pc.cap, s0.pc.at, s0.pc.todo, name) && sys.mode == s0.mode
        else SnapshotReturned(s0.mode, err)
      ensures Reported(old(Errors()), Errors(), if missing then None else err)
      ensures NobodySince(old(sys))
    {
      hide Reachable, ProcessRun, CommitsFor, Replaced, SnapshotReturned, Undisturbed;
      hide MemoryMirrors;
      ghost var s := sys;
      RunRefl(s);
      err, missing := dir.Remove(name);
      if missing || err == None {
        ReplaceRun(s, s, name);
        WorkersOwn(s, Replaced(s, name));
        MemoryKept(s, Replaced(s, name));
        sys := Replaced(s, name);
      } else {
        FailFile(err);
      }
    }

    method RemoveFile(name: bytes) returns (err: Status, missing: bool)
      requires Valid() && sys.pc.Files? && name in sys.pc.todo && name !in sys.pc.cap
      modifies Repr()
      ensures Valid() && fresh(Repr() - old(Repr())) && old(commits) <= commits && ProcessRun(old(sys), sys)
      ensures NobodySince(old(sys))
      ensures
        var s0 := old(sys);
        if missing then FileDone(s0, name, None)
        else if err == None then sys.pc == DirSync(s0.pc.cap, s0.pc.at, s0.pc.todo, name) && sys.mode == s0.mode
        else SnapshotReturned(s0.mode, err)
      ensures Reported(old(Errors()), Errors(), if missing then None else err)
    {
      hide Reachable, OthersRun, ProcessRun, CommitsFor, Mirrors;
      ghost var s0 := sys;
      RunRefl(s0);
      Interfere();
      OthersAreProcess(s0, s0, sys);
      ghost var s1 := sys;
      err, missing := RemoveNow(name);
      RunTrans(s0, s1, sys);
    }

    /** `removeColl`: a missing file means the collection never reached the disk. */
    method RemoveColl(name: bytes) returns (err: Status)
      requires Valid() && sys.pc.Files? && name in sys.pc.todo && name !in sys.pc.cap
      modifies Repr()
      ensures Valid() && fresh(Repr() - old(Repr())) && old(commits) <= commits && ProcessRun(old(sys), sys)
      ensures NobodySince(old(sys))
      ensures FileDone(old(sys), name, err)
      ensures Reported(old(Errors()), Errors(), err)
    {
      hide Reachable, OthersRun, ProcessRun, Valid;
      ghost var s0 := sys;
      var missing;
      err, missing := RemoveFile(name);
      if missing {
        return None;
      }
      if err == None {
        ghost var s1 := sys;
        err := SyncParent();
        RunTrans(s0, s1, sys);
      }
    }

    /** The dirty collections of this moment, marshalled. */
    method SplitNow() returns (snaps: Colls, dropped: seq<bytes>, err: Status)
      requires Valid()
      modifies dir`errors
      ensures Valid() && Repr() == old(Repr()) && Reported(old(Errors()), Errors(), err)
      ensures err == None ==> forall at :: ToDo(Files(sys.colls, at, sys.dirty), snaps, dropped)
    {
      hide Reachable, CommitsFor;
      snaps, dropped, err := SplitDirty(dirty, colls, dir);
    }

    /** The dirty set starts afresh. */
    method CaptureNow(err: Status)
      requires Valid() && sys.pc == Snap && sys.err == None && !(dirty == {} && size == 0)
      modifies this`dirty, this`sys
      ensures Valid() && Repr() == old(Repr()) && ProcessRun(old(sys), sys)
      ensures if err == None then sys == Captured(old(sys)) else sys == Uncaptured(old(sys), err.value)
    {
      hide Reachable, ProcessRun, CommitsFor, Captured, Uncaptured;
      ghost var s := sys;
      RunRefl(s);
      CapturedIs(s, err);
      dirty := {};
      if err.Some? {
        MarshalFailRun(s, s, err.value);
        sys := Uncaptured(s, err.value);
      } else {
        CaptureRun(s, s);
        sys := Captured(s);
      }
    }

    /** Under db.mu: the dirty collections are captured and the dirty set starts afresh. */
    method CaptureDirty() returns (snaps: Colls, dropped: seq<bytes>, err: Status)
      requires Valid() && sys.pc == Snap && sys.err == None && !(dirty == {} && size == 0)
      modifies this`dirty, this`sys, dir`errors
      ensures Valid() && Repr() == old(Repr()) && commits == old(commits) && ProcessRun(old(sys), sys)
      ensures
        if err == None then ToDo(sys.pc, snaps, dropped) && sys.mode == old(sys).mode
        else SnapshotReturned(old(sys).mode, err)
      ensures NobodySince(old(sys)) && Reported(old(Errors()), Errors(), err)
    {
      hide Reachable, ProcessRun, Valid, ToDo;
      snaps, dropped, err := SplitNow();
      CaptureNow(err);
    }

    method EmptyNow() returns (err: Status)
      requires Valid() && sys.pc.Files? && sys.pc.todo == {}
      modifies log, this`sys
      ensures Valid() && Repr() == old(Repr()) && ProcessRun(old(sys), sys)
      ensures
        if err == None then sys.pc.TruncSync? && sys.mode == old(sys).mode
        else SnapshotReturned(old(sys).mode, err)
      ensures NobodySince(old(sys)) && Reported(old(Errors()), Errors(), err)
    {
      hide Reachable, ProcessRun, CommitsFor, Emptied, AfterSnap;
      ghost var s, cut := sys, false;
      RunRefl(s);
      err, cut := log.Truncate(0);
      TruncateRun(s, s, cut, err);
      EmptiedIs(s, cut);
      if err == None {
        sys := Emptied(s, true).(pc := TruncSync(s.pc.cap, s.pc.at));
      } else {
        AfterSnapIs(Emptied(s, cut), err);
        sys := AfterSnap(Emptied(s, cut), err);
      }
    }

    /** The end of `writeSnapshot`: the log is emptied and synced. */
    method EmptyLog() returns (err: Status)
      requires Valid() && sys.pc.Files? && sys.pc.todo == {}
      modifies Repr()
      ensures Valid() && fresh(Repr() - old(Repr())) && old(commits) <= commits && ProcessRun(old(sys), sys)
      ensures
        if err == None then sys.pc.TruncSync? && sys.mode == old(sys).mode
        else SnapshotReturned(old(sys).mode, err)
      ensures NobodySince(old(sys)) && Reported(old(Errors()), Errors(), err)
    {
      hide Reachable, OthersRun, ProcessRun, CommitsFor, Mirrors;
      ghost var s0 := sys;
      RunRefl(s0);
      Interfere();
      OthersAreProcess(s0, s0, sys);
      ghost var s1 := sys;
      err := EmptyNow();
      RunTrans(s0, s1, sys);
    }

    /** `db.size.Store` */
    method StoreSize(n: nat, ghost s: State)
      requires MemoryMirrors(s)
      modifies this`size
      ensures size == n && MemoryMirrors(s.(size := n))
    {
      size := n;
    }

    method SyncEmptyNow() returns (err: Status)
      requires Valid() && sys.pc.TruncSync? && sys.err == None
      modifies log, this`size, this`sys
      ensures Valid() && Repr() == old(Repr()) && commits == old(commits) && ProcessRun(old(sys), sys)
      ensures SnapshotReturned(old(sys).mode, err)
      ensures err == None ==> size == 0
      ensures Reported(old(Errors()), Errors(), err)
      ensures NobodySince(old(sys))
    {
      hide Reachable, ProcessRun, CommitsFor, AfterSnap, Reset, MemoryMirrors;
      ghost var s := sys;
      RunRefl(s);
      err := log.Sync();
      TruncSyncRun(s, s, err);
      if err == None {
        StoreSize(0, s);
        ResetIs(s);
        AfterSnapIs(Reset(s), None);
        MemoryKept(s.(size := 0), AfterSnap(Reset(s), None));
        sys := AfterSnap(Reset(s), None);
      } else {
        AfterSnapIs(s, err);
        MemoryKept(s, AfterSnap(s, err));
        sys := AfterSnap(s, err);
      }
    }

    method SyncEmptyLog() returns (err: Status)
      requires Valid() && sys.pc.TruncSync?
      modifies Repr()
      ensures Valid() && fresh(Repr() - old(Repr())) && old(commits) <= commits && ProcessRun(old(sys), sys)
      ensures NobodySince(old(sys))
      ensures SnapshotReturned(old(sys).mode, err)
      ensures err == None ==> size == 0
      ensures Reported(old(Errors()), Errors(), err)
    {
      hide Reachable, OthersRun, ProcessRun, CommitsFor, Mirrors;
      ghost var s0 := sys;
      RunRefl(s0);
      Interfere();
      OthersAreProcess(s0, s0, sys);
      NoErrorAllSafe(sys);
      ghost var s1 := sys;
      err := SyncEmptyNow();
      RunTrans(s0, s1, sys);
    }

    /** `writeSnapshot`. */
    method WriteSnapshot(err: Status) returns (err': Status)
      requires Valid() && sys.pc == Snap && sys.err == err
      modifies Repr()
      ensures Valid() && fresh(Repr() - old(Repr())) && old(commits) <= commits && ProcessRun(old(sys), sys)
      ensures NobodySince(old(sys))
      ensures SnapshotReturned(old(sys).mode, err')
      ensures err' == None ==> size == 0
      ensures err.Some? ==> err' == err && sys.log == old(sys).log && sys.dir == old(sys).dir
      ensures Reported(old(Errors()), Errors(), if err == None then err' else None)
    {
      hide Reachable, OthersRun, ProcessRun, CommitsFor;
      ghost var s0 := sys;
      RunRefl(s0);
      if err.Some? {
        SkipRun(s0, s0);
        sys := AfterSnap(s0, err);
        return err;
      }
      err' := SnapshotNow();
    }

    /** Takes db.mu; with nothing dirty and an empty log the snapshot is over. */
    method SkipIfClean() returns (clean: bool)
      requires Valid() && sys.pc == Snap && sys.err == None
      modifies Repr()
      ensures Valid() && fresh(Repr() - old(Repr())) && old(commits) <= commits && ProcessRun(old(sys), sys)
      ensures NobodySince(old(sys))
      ensures if clean then SnapshotReturned(old(sys).mode, None) && size == 0
              else sys.pc == Snap && sys.err == None && sys.mode == old(sys).mode && !(dirty == {} && size == 0)
      ensures Errors() == old(Errors())
    {
      hide Reachable, OthersRun, ProcessRun, CommitsFor;
      ghost var s0 := sys;
      RunRefl(s0);
      Interfere();
      OthersAreProcess(s0, s0, sys);
      clean := dirty == {} && size == 0;
      if clean {
        SkipRun(s0, sys);
        sys := AfterSnap(sys, None);
      }
    }

    method SnapshotNow() returns (err: Status)
      requires Valid() && sys.pc == Snap && sys.err == None
      modifies Repr()
      ensures Valid() && fresh(Repr() - old(Repr())) && old(commits) <= commits && ProcessRun(old(sys), sys)
      ensures NobodySince(old(sys))
      ensures SnapshotReturned(old(sys).mode, err)
      ensures err == None ==> size == 0
      ensures Reported(old(Errors()), Errors(), err)
    {
      hide Reachable, OthersRun, ProcessRun, Valid, ToDo, Reported, Errors;
      ghost var s0 := sys;
      NothingReported(Errors());
      var clean := SkipIfClean();
      if clean {
        return None;
      }
      ghost var s1 := sys;
      var snaps, dropped;
      snaps, dropped, err := CaptureDirty();
      RunTrans(s0, s1, sys);
      if err == None {
        ghost var s2 := sys;
        err := WriteCaptured(snaps, dropped);
        RunTrans(s0, s2, sys);
      }
    }

    /** The part of `writeSnapshot` that runs without db.mu: all files first, then the log. */
    method WriteCaptured(snaps: Colls, dropped: seq<bytes>) returns (err: Status)
      requires Valid() && ToDo(sys.pc, snaps, dropped)
      modifies Repr()
      ensures Valid() && fresh(Repr() - old(Repr())) && old(commits) <= commits && ProcessRun(old(sys), sys)
      ensures NobodySince(old(sys))
      ensures SnapshotReturned(old(sys).mode, err)
      ensures err == None ==> size == 0
      ensures Reported(old(Errors()), Errors(), err)
    {
      hide Reachable, OthersRun, ProcessRun, Valid, ToDo;
      ghost var s0 := sys;
      err := WriteFiles(snaps, dropped);
      if err == None {
        NothingLeft(sys.pc);
        ghost var s1 := sys;
        err := ResetLog();
        RunTrans(s0, s1, sys);
      }
    }

    /** The two file loops. */
    method WriteFiles(snaps: Colls, dropped: seq<bytes>) returns (err: Status)
      requires Valid() && ToDo(sys.pc, snaps, dropped)
      modifies Repr()
      ensures Valid() && fresh(Repr() - old(Repr())) && old(commits) <= commits && ProcessRun(old(sys), sys)
      ensures NobodySince(old(sys))
      ensures if err == None then ToDo(sys.pc, map[], []) && sys.mode == old(sys).mode
              else SnapshotReturned(old(sys).mode, err)
      ensures Reported(old(Errors()), Errors(), err)
    {
      hide Reachable, OthersRun, ProcessRun, Valid, ToDo;
      ghost var s0 := sys;
      err := SaveAll(snaps, dropped);
      if err == None {
        ghost var s1 := sys;
        err := RemoveAll(dropped);
        RunTrans(s0, s1, sys);
      }
    }

    /** The log is emptied, then synced. */
    method ResetLog() returns (err: Status)
      requires Valid() && sys.pc.Files? && sys.pc.todo == {}
      modifies Repr()
      ensures Valid() && fresh(Repr() - old(Repr())) && old(commits) <= commits && ProcessRun(old(sys), sys)
      ensures NobodySince(old(sys))
      ensures SnapshotReturned(old(sys).mode, err)
      ensures err == None ==> size == 0
      ensures Reported(old(Errors()), Errors(), err)
    {
      hide Reachable, OthersRun, ProcessRun, Valid;
      ghost var s0 := sys;
      err := EmptyLog();
      if err == None {
        ghost var s1 := sys;
        err := SyncEmptyLog();
        RunTrans(s0, s1, sys);
      }
    }

    /** The first file loop of `writeSnapshot`. */
    method SaveAll(snaps: Colls, ghost dropped: seq<bytes>) returns (err: Status)
      requires Valid() && ToDo(sys.pc, snaps, dropped)
      modifies Repr()
      ensures Valid() && fresh(Repr() - old(Repr())) && old(commits) <= commits && ProcessRun(old(sys), sys)
      ensures NobodySince(old(sys))
      ensures if err == None then ToDo(sys.pc, map[], dropped) && sys.mode == old(sys).mode
              else SnapshotReturned(old(sys).mode, err)
      ensures Reported(old(Errors()), Errors(), err)
    {
      hide Reachable, OthersRun, ProcessRun, Valid, ToDo, Reported, Errors, Undisturbed;
      ghost var s0 := sys;
      RunRefl(s0);
      assert NobodySince(s0) by { NobodyYet(s0); }
      NothingReported(Errors());
      var rest := snaps;
      err := None;
      while rest.Keys != {}
        invariant Valid() && fresh(Repr() - old(Repr())) && old(commits) <= commits && ProcessRun(s0, sys)
        invariant ToDo(sys.pc, rest, dropped) && sys.mode == s0.mode && err == None
        invariant NobodySince(s0) && Errors() == old(Errors())
        decreases |rest|
      {
        ghost var s1 := sys;
        err, rest := SaveNext(rest, dropped);
        RunTrans(s0, s1, sys);
        UndisturbedTrans(s0, s1, sys);
        if err.Some? {
          return;
        }
      }
      assert rest == map[];
    }

    /** One turn of that loop. */
    method SaveNext(snaps: Colls, ghost dropped: seq<bytes>) returns (err: Status, rest: Colls)
      requires Valid() && ToDo(sys.pc, snaps, dropped) && snaps.Keys != {}
      modifies Repr()
      ensures Valid() && fresh(Repr() - old(Repr())) && old(commits) <= commits && ProcessRun(old(sys), sys)
      ensures NobodySince(old(sys))
      ensures |rest| < |snaps|
      ensures if err == None then ToDo(sys.pc, rest, dropped) && sys.mode == old(sys).mode
              else SnapshotReturned(old(sys).mode, err)
      ensures Reported(old(Errors()), Errors(), err)
    {
      hide Reachable, OthersRun, ProcessRun, Valid, ToDo;
      var name :| name in snaps.Keys;
      rest := snaps - {name};
      assert rest.Keys == snaps.Keys - {name};
      SavedOne(sys.pc, snaps, dropped, name);
      err := SaveColl(name, snaps[name]);
    }

    /** The second file loop of `writeSnapshot`. */
    method RemoveAll(dropped: seq<bytes>) returns (err: Status)
      requires Valid() && ToDo(sys.pc, map[], dropped)
      modifies Repr()
      ensures Valid() && fresh(Repr() - old(Repr())) && old(commits) <= commits && ProcessRun(old(sys), sys)
      ensures NobodySince(old(sys))
      ensures if err == None then ToDo(sys.pc, map[], []) && sys.mode == old(sys).mode
              else SnapshotReturned(old(sys).mode, err)
      ensures Reported(old(Errors()), Errors(), err)
    {
      hide Reachable, OthersRun, ProcessRun, Valid, ToDo;
      ghost var s0 := sys;
      RunRefl(s0);
      err := None;
      var rest := dropped;
      while rest != []
        invariant Valid() && fresh(Repr() - old(Repr())) && old(commits) <= commits && ProcessRun(s0, sys)
        invariant ToDo(sys.pc, map[], rest) && sys.mode == s0.mode && err == None
        invariant NobodySince(s0) && Errors() == old(Errors())
        decreases |rest|
      {
        ghost var s1 := sys;
        RemovedOne(s1.pc, rest);
        err := RemoveColl(rest[0]);
        RunTrans(s0, s1, sys);
        if err.Some? {
          return;
        }
        rest := rest[1..];
      }
    }

    // ----- The worker's loop and Close -----

    /**
     `run`: `choices` is what `select` picks each time round; a choice that is not ready is
     not taken. The loop-carried error is the one the machine remembers.
     */
    method RunWorker(choices: seq<Choice>)
      requires Valid() && sys.pc == Select && sys.mode == Running && sys.err == None
      modifies Repr()
      ensures Valid() && fresh(Repr() - old(Repr())) && old(commits) <= commits && ProcessRun(old(sys), sys)
      ensures
        if sys.mode == Stopping then sys.pc == Exited && failed == sys.err
        else sys.mode == Running && sys.pc == Select
      ensures Notified in choices ==> Entered(old(sys)) <= sys.done
      ensures Stopped in choices && old(stop) ==> sys.pc == Exited
      ensures sys.mode == Running && choices != [] && choices[|choices| - 1] == Ticked && sys.err == None ==> size == 0
      ensures Reported(old(Errors()), Errors(), sys.err)
    {
      hide Reachable, OthersRun, ProcessRun, Valid, Entered, Among;
      ghost var s0 := sys;
      RunRefl(s0);
      SysReachable();
      Grown(s0);
      AmongMeans(choices, 0);
      var err: Status := None;
      for i := 0 to |choices|
        invariant Valid() && fresh(Repr() - old(Repr())) && old(commits) <= commits && ProcessRun(s0, sys)
        invariant sys.pc == Select && sys.mode == Running && sys.err == err
        invariant Among(choices, i, Notified) ==> Entered(s0) <= sys.done
        invariant s0.stop ==> !Among(choices, i, Stopped)
        invariant i > 0 && choices[i - 1] == Ticked && err == None ==> size == 0
        invariant Reported(old(Errors()), Errors(), err)
      {
        ghost var s1 := sys;
        SysReachable();
        Grown(s0);
        var stopped;
        err, stopped := Turn(choices[i], err);
        RunTrans(s0, s1, sys);
        Grown(s1);
        if stopped {
          return;
        }
        AmongMeans(choices, i + 1);
      }
      AmongMeans(choices, |choices|);
    }

    lemma SysReachable()
      requires Valid()
      ensures Reachable(sys)
    {}

    /** What the fields say about the state, and what a run so far has kept. */
    lemma Grown(s0: State)
      requires Valid() && Reachable(s0) && ProcessRun(s0, sys)
      ensures s0.done <= sys.done && Entered(s0) <= Entered(sys) && (s0.stop ==> sys.stop)
      ensures stop == sys.stop && notify == sys.notify
    {
      ProcessRunGrows(s0, sys);
    }

    /** One turn of the loop: the case is taken if it is ready. */
    method Turn(choice: Choice, err: Status) returns (err': Status, stopped: bool)
      requires Valid() && sys.pc == Select && sys.mode == Running && sys.err == err
      modifies Repr()
      ensures Valid() && fresh(Repr() - old(Repr())) && old(commits) <= commits && ProcessRun(old(sys), sys)
      ensures if stopped then sys.mode == Stopping && sys.pc == Exited && failed == sys.err
              else sys.pc == Select && sys.mode == Running && sys.err == err'
      ensures choice == Notified || stopped ==> Entered(old(sys)) <= sys.done
      ensures choice == Stopped ==> stopped || !stop
      ensures err.Some? ==> if stopped then failed == err else err' == err
      ensures choice == Ticked ==> !stopped && (err' == None ==> size == 0)
      ensures Reported(old(Errors()), Errors(), if err == None then if stopped then failed else err' else None)
    {
      hide Reachable, OthersRun, ProcessRun, Valid, Entered, Reported, Errors;
      ghost var s0 := sys;
      NothingReported(Errors());
      SysReachable();
      var ready := Take(choice);
      err', stopped := err, false;
      Grown(s0);
      if !ready {
        if choice == Notified {
          IdleNow();
        }
        return;
      }
      ghost var s1 := sys;
      match choice {
        case Notified => err' := DrainTurn(err);
        case Ticked => err' := WriteSnapshot(err);
        case Stopped =>
          LastTurn(err);
          stopped := true;
      }
      RunTrans(s0, s1, sys);
    }

    lemma IdleNow()
      requires Valid() && sys.pc == Select && !notify
      ensures Entered(sys) <= sys.done
    {
      hide Reachable;
      NobodyWaits(sys);
    }

    method DrainTurn(err: Status) returns (err': Status)
      requires Valid() && sys.pc == Drain && sys.mode == Running && sys.err == err
      modifies Repr()
      ensures Valid() && fresh(Repr() - old(Repr())) && old(commits) <= commits && ProcessRun(old(sys), sys)
      ensures sys.pc == Select && sys.mode == Running && sys.err == err'
      ensures Entered(old(sys)) <= sys.done && (err.Some? ==> err' == err)
      ensures err' == None ==> size < flushBytes
      ensures Reported(old(Errors()), Errors(), if err == None then err' else None)
    {
      hide Reachable, OthersRun, ProcessRun, CommitsFor, Entered;
      ghost var s0 := sys;
      FlushIsPositive();
      err' := WriteLog(err);
      if size >= flushBytes {
        ghost var s1 := sys;
        SysReachable();
        err' := WriteSnapshot(err');
        RunTrans(s0, s1, sys);
        Grown(s1);
      }
    }

    lemma FlushIsPositive()
      requires Valid()
      ensures flushBytes > 0
    {
      hide Reachable, LogSafe, FilesSafe, Survives, Exact, Records.Replay, AllLoggable, At, Queue, TicketOk;
      ReachableInv(sys);
    }

    method LastTurn(err: Status)
      requires Valid() && sys.pc == Drain && sys.mode == Stopping && sys.err == err
      modifies Repr()
      ensures Valid() && fresh(Repr() - old(Repr())) && old(commits) <= commits && ProcessRun(old(sys), sys)
      ensures sys.pc == Exited && sys.mode == Stopping && failed == sys.err
      ensures Entered(old(sys)) <= sys.done && (err.Some? ==> failed == err)
      ensures Reported(old(Errors()), Errors(), if err == None then failed else None)
    {
      hide Reachable, OthersRun, ProcessRun, Valid, Entered, Reported, Errors;
      ghost var s0, e0 := sys, Errors();
      var err' := WriteLog(err);
      ghost var s1, e1 := sys, Errors();
      SysReachable();
      LastSnapshot(err');
      ReportsAddUp(e0, e1, Errors(), err, err', failed);
      RunTrans(s0, s1, sys);
      Grown(s1);
    }

    /** `db.failed = db.writeSnapshot(err)` */
    method LastSnapshot(err: Status)
      requires Valid() && sys.pc == Snap && sys.mode == Stopping && sys.err == err
      modifies Repr()
      ensures Valid() && fresh(Repr() - old(Repr())) && old(commits) <= commits && ProcessRun(old(sys), sys)
      ensures sys.pc == Exited && sys.mode == Stopping && failed == sys.err && (err.Some? ==> failed == err)
      ensures Reported(old(Errors()), Errors(), if err == None then failed else None)
    {
      hide Reachable, OthersRun, ProcessRun, Valid, Reported, Errors;
      var err' := WriteSnapshot(err);
      Report(err');
    }

    method Report(err: Status)
      requires Valid()
      modifies this`failed
      ensures Valid() && Repr() == old(Repr()) && failed == err
    {
      hide Reachable, CommitsFor;
      failed := err;
    }

    /** One case of the worker's `select`, if it is ready. */
    method TakeNow(choice: Choice) returns (ready: bool)
      requires Valid() && sys.pc == Select && sys.mode == Running
      modifies this`notify, this`sys
      ensures Valid() && Repr() == old(Repr()) && commits == old(commits) && ProcessRun(old(sys), sys)
      ensures sys.err == old(sys).err
      ensures !ready ==> sys == old(sys) && notify == old(notify)
      ensures ready <==> match choice case Notified => old(notify) case Ticked => true case Stopped => old(stop)
      ensures ready ==> match choice
                        case Notified => !notify && sys.pc == Drain && sys.mode == Running
                        case Ticked => sys.pc == Snap && sys.mode == Running
                        case Stopped => sys.pc == Drain && sys.mode == Stopping
    {
      hide Reachable, ProcessRun, CommitsFor;
      RunRefl(sys);
      ready := true;
      match choice
      case Notified =>
        if !notify {
          return false;
        }
        notify := false;
        SelectRun(sys, sys, sys.(notify := false, pc := Drain), TakeNotify);
        sys := sys.(notify := false, pc := Drain);
      case Ticked =>
        SelectRun(sys, sys, sys.(pc := Snap), Tick);
        sys := sys.(pc := Snap);
      case Stopped =>
        if !stop {
          return false;
        }
        SelectRun(sys, sys, sys.(mode := Stopping, pc := Drain), TakeStop);
        sys := sys.(mode := Stopping, pc := Drain);
    }

    /** Others run until the worker looks at its channels. */
    method Take(choice: Choice) returns (ready: bool)
      requires Valid() && sys.pc == Select && sys.mode == Running
      modifies Repr()
      ensures Valid() && fresh(Repr() - old(Repr())) && old(commits) <= commits && ProcessRun(old(sys), sys)
      ensures sys.err == old(sys).err
      ensures !ready ==> match choice case Notified => !notify case Ticked => false case Stopped => !stop
      ensures if !ready then sys.pc == Select && sys.mode == Running
              else match choice
                   case Notified => sys.pc == Drain && sys.mode == Running
                   case Ticked => sys.pc == Snap && sys.mode == Running
                   case Stopped => sys.pc == Drain && sys.mode == Stopping
      ensures Errors() == old(Errors())
    {
      hide Reachable, OthersRun, ProcessRun, Mirrors, CommitsFor;
      ghost var s0 := sys;
      RunRefl(s0);
      Interfere();
      OthersAreProcess(s0, s0, sys);
      ghost var s1 := sys;
      ready := TakeNow(choice);
      RunTrans(s0, s1, sys);
    }

    /** The first half of `Close`: no more writes, and the worker is told to stop. */
    method RequestClose() returns (err: WriteError)
      requires Valid() && sys.mode != Opening
      modifies this`closed, this`stop, this`sys
      ensures Valid() && Repr() == old(Repr()) && commits == old(commits) && OthersRun(old(sys), sys)
      ensures closed && (if old(closed) then err == ErrClosed && sys == old(sys) else err == NoError && stop)
    {
      hide Reachable, OthersRun, CommitsFor;
      OthersRefl(sys);
      if closed {
        return ErrClosed;
      }
      CloseRun(sys);
      closed, stop := true, true;
      sys := CloseRequested(sys);
      err := NoError;
    }

    /**
     The second half, once the worker has exited: the two files are closed, the first error is
     reported, and the collections are forgotten.
     */
    method FinishClose() returns (err: Status)
      requires Valid() && sys.mode == Stopping && sys.pc == Exited && failed == sys.err
      modifies this`colls, this`dirty, log`errors, flock
      ensures colls == map[] && dirty == {}
      ensures failed.Some? ==> err == failed
      ensures failed == None ==>
        (err == None <==> log.errors == old(log.errors) && flock.errors == old(flock.errors))
      ensures failed == None && err.Some? ==>
        if log.errors != old(log.errors) then log.errors == old(log.errors) + [err.value]
        else flock.errors == old(flock.errors) + [err.value]
      ensures err == None ==>
        && log.durable == [] && log.visible == []
        && dir.visible == old(colls) && (dir.syncs ==> dir.durable == old(colls))
        && sys.safe == |sys.hist|
    {
      hide Reachable, CommitsFor;
      if failed == None {
        CloseWritesEverything(sys);
      }
      err := failed;
      var e := log.Close();
      assert e.Some? ==> |log.errors| > |old(log.errors)|;
      if err == None {
        err := e;
      }
      e := flock.Close();
      assert e.Some? ==> |flock.errors| > |old(flock.errors)|;
      if err == None {
        err := e;
      }
      colls, dirty := map[], {};
    }

    // ----- Open -----

    /** `load`: every snapshot file becomes a collection. */
    method Load()
      requires colls == map[]
      modifies this`colls
      ensures colls == dir.visible
    {
      var names := dir.visible.Keys;
      while names != {}
        invariant names <= dir.visible.Keys
        invariant colls.Keys == dir.visible.Keys - names
        invariant forall n :: n in colls ==> colls[n] == dir.visible[n]
        decreases |names|
      {
        var name :| name in names;
        colls := colls[name := dir.visible[name]];
        names := names - {name};
      }
    }

    /** The loop of `replayLog`: applies complete lines until the torn tail or the first corrupt line. */
    method ReplayRecords(data: bytes) returns (size: nat, corrupt: Option<(nat, Fault)>)
      modifies this`colls, this`dirty
      ensures match ParseLog(data)
              case Parsed(recs, n) =>
                && corrupt == None && size == n
                && colls == Records.Replay(old(colls), recs)
                && dirty == old(dirty) + Dirtied(old(colls), recs)
              case Corrupt(line, fault) => corrupt == Some((line, fault))
    {
      hide ReadLine, ParseLog, Prepend, Records.Apply, Records.Replay, Dirtied, Marks;
      ghost var c0, d0 := colls, dirty;
      size := 0;
      var n := 1;
      ghost var recs: seq<Record> := [];
      assert data[0..] == data;
      ParseStart(data);
      assert Records.Replay(c0, []) == c0 && Dirtied(c0, []) == {} by { ReplayNothing(c0); }
      while true
        invariant size <= |data| && n == |recs| + 1
        invariant ParseLog(data) == Prepend(recs, size, ParseLog(data[size..]))
        invariant colls == Records.Replay(c0, recs) && dirty == d0 + Dirtied(c0, recs)
        decreases |data| - size
      {
        var rest := data[size..];
        var i := LineEnd(rest);
        ParseTurn(recs, size, rest);
        if i == |rest| {
          break;
        }
        match ReadLine(rest[..i])
        case Bad(fault) =>
          return size, Some((n, fault));
        case Good(rec) =>
          Apply(rec);
          OneMore(c0, recs, rec);
          assert rest[i + 1..] == data[size + i + 1..];
          recs := recs + [rec];
          size := size + i + 1;
          n := n + 1;
      }
      ParseTurn(recs, size, data[size..]);
      corrupt := None;
    }

    method ShortenLog(n: nat) returns (err: Status)
      requires Valid() && sys.pc == Repair && sys.err == None && sys.mode == Opening
      requires ParseLog(log.visible).Parsed? && n == ParseLog(log.visible).size < |log.visible|
      modifies this`sys, log
      ensures Valid() && Repr() == old(Repr()) && commits == old(commits) && ProcessRun(old(sys), sys)
      ensures sys.err == err && sys.mode == Opening
      ensures err == None ==> sys.pc == RepairSync && log.visible == old(log.visible)[..n]
      ensures NobodySince(old(sys)) && Reported(old(Errors()), Errors(), err)
    {
      hide Reachable, ProcessRun, CommitsFor, ParseLog, Shortened;
      ghost var s0 := sys;
      ghost var cut;
      err, cut := log.Truncate(n);
      ShortenRun(s0, n, cut, err);
      ShortenedIs(s0, n, cut, err);
      sys := Shortened(s0, n, cut, err);
    }

    method SyncShortened(n: nat) returns (err: Status)
      requires Valid() && sys.pc == RepairSync && sys.err == None && sys.mode == Opening && n == |log.visible|
      modifies this`size, this`sys, log
      ensures Valid() && Repr() == old(Repr()) && commits == old(commits) && ProcessRun(old(sys), sys)
      ensures sys.err == err && sys.mode == Opening && log.visible == old(log.visible)
      ensures err == None ==> sys.pc == Snap
      ensures NobodySince(old(sys)) && Reported(old(Errors()), Errors(), err)
    {
      hide Reachable, ProcessRun, CommitsFor, ParseLog, ShortSynced, MemoryMirrors;
      ghost var s0 := sys;
      RunRefl(s0);
      err := log.Sync();
      ShortSyncRun(s0, s0, err);
      ShortSyncedIs(s0, err);
      if err == None {
        StoreSize(n, s0);
        MemoryKept(s0.(size := n), ShortSynced(s0, None));
        sys := ShortSynced(s0, None);
      } else {
        MemoryKept(s0, ShortSynced(s0, err));
        sys := ShortSynced(s0, err);
      }
    }

    method NothingToCut(n: nat)
      requires Valid() && sys.pc == Repair && sys.err == None && sys.mode == Opening
      requires ParseLog(log.visible).Parsed? && n == ParseLog(log.visible).size == |log.visible|
      modifies this`size, this`sys
      ensures Valid() && Repr() == old(Repr()) && commits == old(commits) && ProcessRun(old(sys), sys)
      ensures sys.err == None && sys.mode == Opening && sys.pc == Snap && NobodySince(old(sys))
    {
      hide Reachable, ProcessRun, CommitsFor, ParseLog;
      ghost var s0 := sys;
      NoTailRun(s0);
      size := n;
      sys := s0.(size := |s0.log.visible|, pc := Snap);
    }

    /** The end of `replayLog`: a torn tail is cut off and the cut is synced before anything is appended. */
    method CutTail(n: nat) returns (err: Status)
      requires Valid() && sys.pc == Repair && sys.err == None && sys.mode == Opening
      requires ParseLog(log.visible).Parsed? && n == ParseLog(log.visible).size <= |log.visible|
      modifies this`size, this`sys, log
      ensures Valid() && Repr() == old(Repr()) && commits == old(commits) && ProcessRun(old(sys), sys)
      ensures sys.err == err && sys.mode == Opening
      ensures err == None ==> sys.pc == Snap && log.visible == old(log.visible)[..n]
      ensures NobodySince(old(sys)) && Reported(old(Errors()), Errors(), err)
    {
      hide Reachable, ProcessRun, CommitsFor, ParseLog, MemoryMirrors;
      ghost var s0 := sys;
      if n == |log.visible| {
        NothingToCut(n);
        return None;
      }
      err := ShortenLog(n);
      if err == None {
        ghost var s1 := sys;
        err := SyncShortened(n);
        RunTrans(s0, s1, sys);
      }
    }

    /** After replay the object is the machine's freshly opened state. */
    lemma OpenedMirrors(s: State, d: bytes, fs: Colls)
      requires queue.Valid() && queue.Pending() == [] && ParseLog(d).Parsed?
      requires log.durable == d && log.visible == d && dir.durable == fs && dir.visible == fs
      requires colls == Recover(d, fs) && dirty == Dirtied(fs, ParseLog(d).recs)
      requires !closed && size == 0 && commit == null && !notify && !stop && commits == []
      requires s == Opened(flushBytes, d, fs, dir.syncs, s.init, s.past, s.pastAcked, s.kept) && Reachable(s)
        && sys == s
      ensures Valid() && sys.pc == Repair && sys.err == None && sys.mode == Opening
    {
      hide Reachable, ParseLog, Recover, Dirtied;
    }

    /** The rest of `Open` after a successful replay: repair the tail, then snapshot. */
    method StartUp(n: nat) returns (err: Status)
      requires Valid() && sys.pc == Repair && sys.err == None && sys.mode == Opening
      requires ParseLog(log.visible).Parsed? && n == ParseLog(log.visible).size <= |log.visible|
      modifies Repr()
      ensures Valid() && fresh(Repr() - old(Repr())) && NobodySince(old(sys))
      ensures err == None ==> sys.mode == Running && sys.pc == Select && sys.err == None
      ensures err.Some? ==> sys.mode == Opening
      ensures Reported(old(Errors()), Errors(), err)
    {
      hide Reachable, ProcessRun, CommitsFor, Mirrors, ParseLog;
      err := CutTail(n);
      if err == None {
        err := WriteSnapshot(err);
      }
    }
  }

  datatype OpenResult = Started | BadOptions | CorruptLog(line: nat, fault: Fault) | StorageError(e: Error)

  /**
   `Open`: loads the files, replays the log, repairs its tail, writes a snapshot and only then
   hands out the database. The disk is either what a previous process may have left, or its
   log is corrupt, in which case nothing on it is touched. With usable options and a readable
   log it succeeds unless a storage call fails, and then reports that failure.
   */
  method Open(log: LogFile, dir: SnapDir, flock: LockFile, flushBytes: nat, maxDocSize: nat, ghost before: State)
    returns (db: DB?, result: OpenResult)
    requires log.durable == log.visible && dir.durable == dir.visible
    requires ParseLog(log.visible).Parsed? ==> LeftBy(before, log.visible, dir.visible) && before.dir.syncs == dir.syncs
    modifies log, dir
    ensures db != null <==> result == Started
    ensures flushBytes == 0 || maxDocSize == 0 ==> result == BadOptions && unchanged(log) && unchanged(dir)
    ensures flushBytes > 0 && maxDocSize > 0 ==>
      match old(ParseLog(log.visible))
      case Corrupt(line, fault) => result == CorruptLog(line, fault) && unchanged(log) && unchanged(dir)
      case Parsed(_, _) =>
        && (result == Started || result.StorageError?)
        && Reported(old(Failures(log.errors, dir.errors)), Failures(log.errors, dir.errors),
                    if result.StorageError? then Some(result.e) else None)
    ensures db != null ==>
      && fresh(db) && db.log == log && db.dir == dir && db.flock == flock && db.Valid()
      && db.flushBytes == flushBytes && db.maxDocSize == maxDocSize
      && db.sys.mode == Running && db.sys.pc == Select && db.sys.err == None
      && !db.closed && !db.stop && !db.notify && db.queue.Pending() == []
      && old(ParseLog(log.visible)).Parsed?
      && db.colls == old(Recover(log.visible, dir.visible))
    ensures result.StorageError? ==>
      && ParseLog(log.visible).Parsed? && old(ParseLog(log.visible)).Parsed?
      && Recover(log.visible, dir.visible) == old(Recover(log.visible, dir.visible))
  {
    hide Reachable, LeftBy, ProcessRun, ParseLog, Recover, DB.MemoryMirrors;
    if flushBytes == 0 || maxDocSize == 0 {
      return null, BadOptions;
    }
    var handle, n, corrupt := Reread(log, dir, flock, flushBytes, maxDocSize, before);
    if corrupt.Some? {
      return null, CorruptLog(corrupt.value.0, corrupt.value.1);
    }
    ParseSize(log.visible);
    var err := handle.StartUp(n);
    handle.FieldsMirror();
    if err.Some? {
      RecoveryRestarts(handle.sys, log.visible, dir.visible);
      return null, StorageError(err.value);
    }
    return handle, Started;
  }

  /** The reading half of `Open`: the files, then the log over them. Nothing on disk changes. */
  method Reread(log: LogFile, dir: SnapDir, flock: LockFile, flushBytes: nat, maxDocSize: nat, ghost before: State)
    returns (handle: DB, n: nat, corrupt: Option<(nat, Fault)>)
    requires log.durable == log.visible && dir.durable == dir.visible && flushBytes > 0
    requires ParseLog(log.visible).Parsed? ==> LeftBy(before, log.visible, dir.visible) && before.dir.syncs == dir.syncs
    ensures fresh(handle) && fresh(handle.Repr() - {log, dir})
    ensures handle.log == log && handle.dir == dir && handle.flock == flock
    ensures handle.flushBytes == flushBytes && handle.maxDocSize == maxDocSize
    ensures
      match ParseLog(log.visible)
      case Corrupt(line, fault) => corrupt == Some((line, fault))
      case Parsed(_, size) =>
        && corrupt == None && n == size
        && handle.Valid() && handle.sys.pc == Repair && handle.sys.err == None && handle.sys.mode == Opening
        && !handle.sys.closed && !handle.sys.stop && !handle.sys.notify && handle.sys.pending == []
        && handle.sys.colls == Recover(log.visible, dir.visible)
  {
    hide Reachable, LeftBy, ParseLog, Dirtied, Opened, Records.Replay;
    ghost var d, fs := log.visible, dir.visible;
    handle := new DB(log, dir, flock, flushBytes, maxDocSize, before);
    handle.Load();
    n, corrupt := handle.ReplayRecords(log.visible);
    if corrupt == None {
      ReopenRun(before, d, fs, flushBytes);
      handle.sys := Reopened(before, d, fs, flushBytes);
      ReopenedIs(before, d, fs, flushBytes);
      handle.OpenedMirrors(handle.sys, d, fs);
    }
  }

  lemma ReopenedIs(before: State, d: bytes, fs: Colls, flush: nat)
    requires ParseLog(d).Parsed? && before.start <= |before.hist|
    ensures
      var s := Reopened(before, d, fs, flush);
      s == Opened(flush, d, fs, before.dir.syncs, s.init, s.past, s.pastAcked, s.kept)
  {
    hide ParseLog, Recover, Dirtied;
  }
}
