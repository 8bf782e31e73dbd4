/** Replacing a file: a temporary file is written and synced next to it, then renamed over it. */
module AtomicFiles {
  import opened Basics

  type Inode = nat

  /** What the directory holds under the target's name and under its `.tmp` name. */
  datatype Entries = Entries(target: Option<Inode>, tmp: Option<Inode>)

  /**
   The directory has passed through `versions` since it was last synced; the last one is
   what the system sees. `stable` files are on disk as they are seen; the contents that a
   crash leaves of any other file are arbitrary.
   */
  datatype Disk = Disk(versions: seq<Entries>, data: map<Inode, bytes>, stable: set<Inode>, next: Inode)

  ghost predicate Known(i: Option<Inode>, d: Disk) { i.Some? ==> i.value in d.data }

  /** Every target the directory may end up with is complete on disk, and is not the file `.tmp` names now. */
  ghost predicate Good(d: Disk) {
    && d.versions != []
    && (forall i :: i in d.data ==> i < d.next)
    && (forall k :: 0 <= k < |d.versions| ==>
          var v := d.versions[k];
          Known(v.target, d) && Known(v.tmp, d) && (v.target.Some? ==> v.target.value in d.stable && v.tmp != v.target))
    && (forall k :: 0 <= k < |d.versions| && d.versions[k].target.Some? ==> Visible(d).tmp != d.versions[k].target)
  }

  function Visible(d: Disk): Entries
    requires d.versions != []
  {
    d.versions[|d.versions| - 1]
  }

  function Contents(d: Disk, v: Entries): Option<bytes> {
    if v.target.Some? && v.target.value in d.data then Some(d.data[v.target.value]) else None
  }

  /** What a reader of the target sees. */
  function ReadTarget(d: Disk): Option<bytes>
    requires d.versions != []
  {
    Contents(d, Visible(d))
  }

  /** A crash settles on one version of the directory and on some contents of the unsynced files. */
  ghost predicate CrashLeaves(d: Disk, after: Disk) {
    && (exists k :: 0 <= k < |d.versions| && after.versions == [d.versions[k]])
    && after.data.Keys == d.data.Keys && after.next == d.next && after.stable == after.data.Keys
    && forall i :: i in d.stable && i in d.data ==> after.data[i] == d.data[i]
  }

  /** A crash at this moment may leave the target with contents `c`. */
  ghost predicate MayLeave(d: Disk, c: Option<bytes>) {
    exists after :: CrashLeaves(d, after) && ReadTarget(after) == c
  }

  ghost predicate InSomeVersion(d: Disk, c: Option<bytes>) {
    exists k :: 0 <= k < |d.versions| && Contents(d, d.versions[k]) == c
  }

  lemma CrashKeepsGood(d: Disk, after: Disk)
    requires Good(d) && CrashLeaves(d, after)
    ensures Good(after)
  {}

  lemma MayLeaveMeans(d: Disk, c: Option<bytes>)
    requires Good(d)
    ensures MayLeave(d, c) <==> InSomeVersion(d, c)
  {
    if MayLeave(d, c) {
      var after :| CrashLeaves(d, after) && ReadTarget(after) == c;
      var k :| 0 <= k < |d.versions| && after.versions == [d.versions[k]];
      assert Contents(d, d.versions[k]) == c;
    }
    if InSomeVersion(d, c) {
      var k :| 0 <= k < |d.versions| && Contents(d, d.versions[k]) == c;
      var after := Disk([d.versions[k]], d.data, d.data.Keys, d.next);
      assert CrashLeaves(d, after) && ReadTarget(after) == c;
    }
  }

  /** Old contents or complete new ones, whenever the crash comes. */
  ghost predicate OldOrNew(d0: Disk, d: Disk, data: bytes) {
    forall c :: MayLeave(d, c) ==> MayLeave(d0, c) || c == Some(data)
  }

  ghost predicate OnlyOld(d0: Disk, d: Disk) {
    forall c :: MayLeave(d, c) ==> MayLeave(d0, c)
  }

  lemma OnlyOldByVersion(d0: Disk, d: Disk)
    requires Good(d0) && Good(d)
    requires forall k :: 0 <= k < |d.versions| ==> InSomeVersion(d0, Contents(d, d.versions[k]))
    ensures OnlyOld(d0, d)
  {
    hide Good, MayLeave;
    forall c | MayLeave(d, c) ensures MayLeave(d0, c) {
      MayLeaveMeans(d, c);
      MayLeaveMeans(d0, c);
    }
  }

  lemma OldOrNewByVersion(d0: Disk, d: Disk, data: bytes)
    requires Good(d0) && Good(d)
    requires forall k :: 0 <= k < |d.versions| ==>
      Contents(d, d.versions[k]) == Some(data) || InSomeVersion(d0, Contents(d, d.versions[k]))
    ensures OldOrNew(d0, d, data)
  {
    hide Good, MayLeave;
    forall c | MayLeave(d, c) ensures MayLeave(d0, c) || c == Some(data) {
      MayLeaveMeans(d, c);
      MayLeaveMeans(d0, c);
    }
  }

  /** The disk while the temporary file `i` is open: nothing else has changed since `d0`. */
  ghost predicate Writing(d0: Disk, d: Disk, i: Inode) {
    && Good(d0) && Good(d)
    && Visible(d) == Visible(d0).(tmp := Some(i)) && i in d.data
    && (d.versions == d0.versions || d.versions == d0.versions + [Visible(d)])
    && (forall j :: j in d0.data && j != i ==> j in d.data && d.data[j] == d0.data[j])
    && (forall k :: 0 <= k < |d0.versions| ==> d0.versions[k].target != Some(i))
  }

  lemma WritingIsOld(d0: Disk, d: Disk, i: Inode, data: bytes)
    requires Writing(d0, d, i)
    ensures OnlyOld(d0, d) && OldOrNew(d0, d, data) && ReadTarget(d) == ReadTarget(d0)
  {
    var n := |d0.versions|;
    forall k | 0 <= k < |d.versions| ensures InSomeVersion(d0, Contents(d, d.versions[k])) {
      var l := if k < n then k else n - 1;
      assert d.versions[k].target == d0.versions[l].target;
      assert Contents(d0, d0.versions[l]) == Contents(d, d.versions[k]);
    }
    OnlyOldByVersion(d0, d);
  }

  /** The directory after the rename. */
  function Renamed(d: Disk): Disk
    requires d.versions != []
  {
    d.(versions := d.versions + [Entries(Visible(d).tmp, None)])
  }

  lemma RenamedIsOldOrNew(d0: Disk, d: Disk, i: Inode, data: bytes)
    requires Writing(d0, d, i) && i in d.stable && d.data[i] == data
    ensures Good(Renamed(d)) && OldOrNew(d0, Renamed(d), data) && ReadTarget(Renamed(d)) == Some(data)
  {
    var r, n := Renamed(d), |d0.versions|;
    forall k | 0 <= k < |r.versions|
      ensures Contents(r, r.versions[k]) == Some(data) || InSomeVersion(d0, Contents(r, r.versions[k]))
    {
      if k < |d.versions| {
        var l := if k < n then k else n - 1;
        assert d.versions[k].target == d0.versions[l].target;
        assert Contents(d0, d0.versions[l]) == Contents(r, r.versions[k]);
      }
    }
    OldOrNewByVersion(d0, r, data);
  }

  /** A directory sync settles on what is seen. */
  function Settled(d: Disk): Disk
    requires d.versions != []
  {
    d.(versions := [Visible(d)])
  }

  lemma SettledIsNew(d: Disk)
    requires Good(d)
    ensures Good(Settled(d)) && ReadTarget(Settled(d)) == ReadTarget(d)
    ensures forall c :: MayLeave(Settled(d), c) <==> c == ReadTarget(d)
  {
    var t := Settled(d);
    forall c ensures MayLeave(t, c) <==> c == ReadTarget(d) {
      MayLeaveMeans(t, c);
      assert Contents(t, t.versions[0]) == ReadTarget(d);
    }
  }

  /** The system calls; `trace` records the disk after each, and `errors` the errors of those that failed. */
  class Files {
    const syncsDirs: bool
    var disk: Disk
    ghost var trace: seq<Disk>
    ghost var errors: seq<Error>

    constructor (d: Disk, syncsDirs: bool)
      ensures disk == d && trace == [] && errors == [] && this.syncsDirs == syncsDirs
    {
      disk, trace, errors, this.syncsDirs := d, [], [], syncsDirs;
    }

    /** O_CREATE and O_TRUNC: a leftover temporary file is emptied and used again. */
    method OpenTmp() returns (err: Status, i: Inode)
      requires Good(disk)
      modifies this
      ensures trace == old(trace) + [disk] && errors == Noted(old(errors), err)
      ensures err.Some? ==> disk == old(disk)
      ensures err == None ==> Writing(old(disk), disk, i) && disk.data[i] == []
    {
      if * {
        var e: Error :| true;
        trace, errors := trace + [disk], errors + [e];
        return Some(e), 0;
      }
      var v := Visible(disk);
      match v.tmp {
        case Some(j) =>
          i := j;
          disk := disk.(data := disk.data[i := []], stable := disk.stable - {i});
        case None =>
          i := disk.next;
          disk := disk.(versions := disk.versions + [v.(tmp := Some(i))], data := disk.data[i := []], next := i + 1,
                        stable := disk.stable - {i});
      }
      assert Visible(disk) == v.(tmp := Some(i));
      err := None;
      trace, errors := trace + [disk], Noted(errors, err);
    }

    /** Appends to the open file, or fails after some prefix. */
    method Write(ghost d0: Disk, i: Inode, p: bytes) returns (err: Status)
      requires Writing(d0, disk, i)
      modifies this
      ensures trace == old(trace) + [disk] && errors == Noted(old(errors), err) && Writing(d0, disk, i)
      ensures err == None ==> disk.data[i] == old(disk).data[i] + p
    {
      var n: nat :| n <= |p|;
      var failed: bool :| failed || n == |p|;
      disk := disk.(data := disk.data[i := disk.data[i] + p[..n]], stable := disk.stable - {i});
      err := None;
      if failed {
        var e: Error :| true;
        err := Some(e);
      }
      trace, errors := trace + [disk], Noted(errors, err);
    }

    method Sync(ghost d0: Disk, i: Inode) returns (err: Status)
      requires Writing(d0, disk, i)
      modifies this
      ensures trace == old(trace) + [disk] && errors == Noted(old(errors), err) && Writing(d0, disk, i)
      ensures disk.data == old(disk).data
      ensures err == None ==> i in disk.stable
    {
      if * {
        var e: Error :| true;
        err := Some(e);
      } else {
        disk := disk.(stable := disk.stable + {i});
        err := None;
      }
      trace, errors := trace + [disk], Noted(errors, err);
    }

    method Close() returns (err: Status)
      modifies this`trace, this`errors
      ensures trace == old(trace) + [disk] && errors == Noted(old(errors), err)
    {
      err := None;
      if * {
        var e: Error :| true;
        err := Some(e);
      }
      trace, errors := trace + [disk], Noted(errors, err);
    }

    method Rename() returns (err: Status)
      requires Good(disk)
      modifies this
      ensures trace == old(trace) + [disk] && errors == Noted(old(errors), err)
      ensures disk == if err == None then Renamed(old(disk)) else old(disk)
    {
      if * {
        var e: Error :| true;
        err := Some(e);
      } else {
        disk := Renamed(disk);
        err := None;
      }
      trace, errors := trace + [disk], Noted(errors, err);
    }

    /** `SyncDir`: opening, syncing or closing the directory may fail, the last after the sync took effect. */
    method SyncDir() returns (err: Status)
      requires Good(disk)
      modifies this
      ensures trace == old(trace) + [disk] && errors == Noted(old(errors), err)
      ensures err == None && syncsDirs ==> disk == Settled(old(disk))
      ensures disk == old(disk) || (syncsDirs && disk == Settled(old(disk)))
    {
      err := None;
      if * {
        var e: Error :| true;
        err := Some(e);
      } else {
        if syncsDirs {
          disk := Settled(disk);
        }
        if * {
          var e: Error :| true;
          err := Some(e);
        }
      }
      trace, errors := trace + [disk], Noted(errors, err);
    }
  }

  /** What a reader sees is among the things a crash may leave. */
  lemma SeenMayBeLeft(d: Disk)
    requires Good(d)
    ensures MayLeave(d, ReadTarget(d))
  {
    MayLeaveMeans(d, ReadTarget(d));
  }

  /** From the `old` disk on, a crash after any system call leaves old contents or complete new ones. */
  ghost predicate AlwaysOldOrNew(d0: Disk, trace: seq<Disk>, from: nat, data: bytes) {
    forall k :: from <= k < |trace| ==> Good(trace[k]) && OldOrNew(d0, trace[k], data)
  }

  /** The part of `WriteFileAtomic` that does not touch the target. */
  method WriteTmp(fs: Files, data: bytes) returns (err: Status, ghost i: Inode)
    requires Good(fs.disk)
    modifies fs
    ensures Reports(old(fs.errors), fs.errors, err)
    ensures old(fs.trace) <= fs.trace && AlwaysOldOrNew(old(fs.disk), fs.trace, |old(fs.trace)|, data)
    ensures fs.disk == old(fs.disk) || Writing(old(fs.disk), fs.disk, i)
    ensures err == None ==> Writing(old(fs.disk), fs.disk, i) && i in fs.disk.stable && fs.disk.data[i] == data
  {
    hide Good, OldOrNew, Writing;
    ghost var d0 := fs.disk;
    var f;
    err, f := fs.OpenTmp();
    i := f;
    if err.Some? {
      Unchanged(d0, data);
      return;
    }
    WritingIsOld(d0, fs.disk, f, data);
    WritingHas(d0, fs.disk, f);
    err := fs.Write(d0, f, data);
    WritingIsOld(d0, fs.disk, f, data);
    WritingHas(d0, fs.disk, f);
    if err == None {
      err := fs.Sync(d0, f);
      WritingIsOld(d0, fs.disk, f, data);
      WritingHas(d0, fs.disk, f);
    }
    var closing := fs.Close();
    if err == None {
      err := closing;
    }
  }

  lemma Unchanged(d: Disk, data: bytes)
    ensures OnlyOld(d, d) && OldOrNew(d, d, data)
  {}

  lemma WritingHas(d0: Disk, d: Disk, i: Inode)
    requires Writing(d0, d, i)
    ensures Good(d) && i in d.data
  {}

  /**
   `WriteFileAtomic`. A crash after any of its system calls leaves the target with contents
   a crash could have left before, or with exactly `data`. After success only `data` is
   left, wherever directories can be synced at all. If it fails before the rename nothing
   has changed for a reader or for a crash.
   */
  method WriteFileAtomic(fs: Files, data: bytes) returns (err: Status, ghost renamed: bool)
    requires Good(fs.disk)
    modifies fs
    ensures Good(fs.disk) && Reports(old(fs.errors), fs.errors, err)
    ensures old(fs.trace) <= fs.trace && AlwaysOldOrNew(old(fs.disk), fs.trace, |old(fs.trace)|, data)
    ensures OldOrNew(old(fs.disk), fs.disk, data)
    ensures
      if renamed then ReadTarget(fs.disk) == Some(data)
      else err.Some? && ReadTarget(fs.disk) == ReadTarget(old(fs.disk)) && OnlyOld(old(fs.disk), fs.disk)
    ensures err == None ==> Visible(fs.disk).tmp == None
    ensures err == None && fs.syncsDirs ==> forall c :: MayLeave(fs.disk, c) <==> c == Some(data)
  {
    ghost var d0 := fs.disk;
    ghost var i;
    renamed := false;
    err, i := WriteTmp(fs, data);
    if err.Some? {
      if fs.disk == d0 {
        Unchanged(d0, data);
      } else {
        WritingIsOld(d0, fs.disk, i, data);
      }
      return;
    }
    ghost var d1 := fs.disk;
    WritingIsOld(d0, d1, i, data);
    RenamedIsOldOrNew(d0, d1, i, data);
    hide Good, OldOrNew, OnlyOld, Writing, MayLeave;
    err := fs.Rename();
    if err.Some? {
      return;
    }
    renamed := true;
    ghost var d2 := fs.disk;
    SettledIsNew(d2);
    err := fs.SyncDir();
    assert OldOrNew(d0, fs.disk, data) by { SettledIsOldOrNew(d0, d2, data); }
  }

  lemma SettledIsOldOrNew(d0: Disk, d: Disk, data: bytes)
    requires Good(d) && OldOrNew(d0, d, data) && ReadTarget(d) == Some(data)
    ensures OldOrNew(d0, Settled(d), data)
  {
    SettledIsNew(d);
  }
}
