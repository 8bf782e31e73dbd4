/** Saving one snapshot file: its directories first, then the file by atomic replacement. */
module SnapFiles {
  import opened Basics
  import Names
  import Records
  import Storage
  import D = Directories
  import A = AtomicFiles

  /** A crash may leave the file with contents `c`; None if it, or the way to it, is gone. */
  ghost predicate MayBe(durable: D.Tree, visible: D.Tree, parent: D.Path, disk: A.Disk, c: Option<bytes>) {
    exists image :: D.CrashImage(durable, visible, image) && IsLeft(image, parent, disk, c)
  }

  ghost predicate IsLeft(image: D.Tree, parent: D.Path, disk: A.Disk, c: Option<bytes>) {
    if D.Reaches(image, parent) then A.MayLeave(disk, c) else c == None
  }

  /** There is no file in a directory that does not exist. */
  ghost predicate Consistent(visible: D.Tree, parent: D.Path, disk: A.Disk) {
    && D.Closed(visible) && A.Good(disk)
    && (!D.Reaches(visible, parent) ==> forall c :: A.MayLeave(disk, c) ==> c == None)
  }

  /** Nil exactly when no call has failed, else the error of the first that did, if there is a root directory. */
  ghost predicate Faithful(dirs: D.FileSystem, files: A.Files, dirErrors: seq<Error>, fileErrors: seq<Error>,
                           err: Status)
    reads dirs, files
  {
    || (files.errors == fileErrors && D.FailedOr(dirs, dirErrors, err))
    || (dirs.errors == dirErrors && Reports(fileErrors, files.errors, err))
  }

  /**
   The first loop of `writeSnapshot` for one file. Whatever happens, a crash leaves what it
   could have left before or exactly the new data, and before the rename only the former;
   after success, if directories can be synced and the directories that existed were
   durable, it leaves exactly the new data.
   */
  method Save(dirs: D.FileSystem, files: A.Files, parent: D.Path, data: bytes)
    returns (err: Status, ghost renamed: bool)
    requires Consistent(dirs.visible, parent, files.disk)
    modifies dirs, files
    ensures Consistent(dirs.visible, parent, files.disk)
    ensures Faithful(dirs, files, old(dirs.errors), old(files.errors), err)
    ensures D.DirsMade(old(dirs.visible), dirs.visible, parent)
    ensures !renamed ==>
      && err.Some?
      && A.ReadTarget(files.disk) == A.ReadTarget(old(files.disk))
      && forall c :: MayBe(dirs.durable, dirs.visible, parent, files.disk, c) ==>
           MayBe(old(dirs.durable), old(dirs.visible), parent, old(files.disk), c)
    ensures renamed ==> D.Reaches(dirs.visible, parent) && A.ReadTarget(files.disk) == Some(data)
    ensures (exists k :: 0 <= k <= |parent| && D.Look(old(dirs.visible), parent[..k]) == Some(D.File)) ==>
      !renamed && files.errors == old(files.errors)
    ensures forall c :: MayBe(dirs.durable, dirs.visible, parent, files.disk, c) ==>
      c == Some(data) || MayBe(old(dirs.durable), old(dirs.visible), parent, old(files.disk), c)
    ensures err == None && dirs.syncsDirs && files.syncsDirs ==>
      var first := D.FirstExisting(old(dirs.visible), parent);
      D.SurvivesCrash(old(dirs.durable), old(dirs.visible), first) ==>
        forall c :: MayBe(dirs.durable, dirs.visible, parent, files.disk, c) <==> c == Some(data)
  {
    hide D.SurvivesCrash, D.FirstExisting, A.Good, A.MayLeave, A.OldOrNew, A.OnlyOld, D.Reaches, D.CrashImage;
    ghost var d0, v0, f0 := dirs.durable, dirs.visible, files.disk;
    renamed := false;
    err := D.MkdirAll(dirs, parent);
    A.Unchanged(f0, data);
    ReachesMore(v0, dirs.visible, parent);
    if err == None {
      err, renamed := A.WriteFileAtomic(files, data);
    }
    KeepsConsistent(v0, f0, dirs.visible, files.disk, parent, data, renamed);
    forall c | MayBe(dirs.durable, dirs.visible, parent, files.disk, c)
      ensures (renamed && c == Some(data)) || MayBe(d0, v0, parent, f0, c)
    {
      BeforeOrNew(d0, v0, f0, dirs.durable, dirs.visible, files.disk, parent, data, renamed, c);
    }
    if err == None && dirs.syncsDirs && files.syncsDirs && D.SurvivesCrash(d0, v0, D.FirstExisting(v0, parent)) {
      OnlyNew(dirs.durable, dirs.visible, files.disk, parent, data);
    }
  }

  lemma ReachesMore(v0: D.Tree, v: D.Tree, p: D.Path)
    requires forall q :: q in v0 ==> D.Look(v, q) == D.Look(v0, q)
    ensures D.Reaches(v0, p) ==> D.Reaches(v, p)
  {
    if D.Reaches(v0, p) {
      forall k | 0 <= k <= |p| ensures D.Look(v, p[..k]) == Some(D.Directory) {
        assert D.Look(v0, p[..k]) == Some(D.Directory);
      }
    }
  }

  lemma KeepsConsistent(v0: D.Tree, f0: A.Disk, v: D.Tree, f: A.Disk, parent: D.Path, data: bytes, renamed: bool)
    requires Consistent(v0, parent, f0) && D.Closed(v) && A.Good(f)
    requires D.Reaches(v0, parent) ==> D.Reaches(v, parent)
    requires if renamed then D.Reaches(v, parent) else A.OnlyOld(f0, f)
    ensures Consistent(v, parent, f)
  {
    hide A.Good, A.MayLeave, D.Reaches;
  }

  lemma BeforeOrNew(d0: D.Tree, v0: D.Tree, f0: A.Disk, d: D.Tree, v: D.Tree, f: A.Disk, parent: D.Path, data: bytes,
                    renamed: bool, c: Option<bytes>)
    requires Consistent(v0, parent, f0) && MayBe(d, v, parent, f, c)
    requires if renamed then A.OldOrNew(f0, f, data) else A.OnlyOld(f0, f)
    requires D.SurvivesCrash(d0, v0, parent) ==> D.SurvivesCrash(d, v, parent)
    ensures (renamed && c == Some(data)) || MayBe(d0, v0, parent, f0, c)
  {
    hide A.Good, A.MayLeave, D.Reaches, D.CrashImage;
    var image :| D.CrashImage(d, v, image) && IsLeft(image, parent, f, c);
    if D.Reaches(image, parent) {
      if !(renamed && c == Some(data)) {
        SeenIsPossible(d0, v0);
        assert IsLeft(v0, parent, f0, c);
      }
    } else {
      assert !D.SurvivesCrash(d0, v0, parent);
      var lost :| D.CrashImage(d0, v0, lost) && !D.Reaches(lost, parent);
      assert IsLeft(lost, parent, f0, c);
    }
  }

  lemma SeenIsPossible(d: D.Tree, v: D.Tree)
    ensures D.CrashImage(d, v, v)
  {}

  lemma OnlyNew(d: D.Tree, v: D.Tree, f: A.Disk, parent: D.Path, data: bytes)
    requires D.SurvivesCrash(d, v, parent) && forall c :: A.MayLeave(f, c) <==> c == Some(data)
    ensures forall c :: MayBe(d, v, parent, f, c) <==> c == Some(data)
  {
    hide A.MayLeave, D.Reaches, D.CrashImage;
    SeenIsPossible(d, v);
    assert IsLeft(v, parent, f, Some(data));
    forall c | MayBe(d, v, parent, f, c) ensures c == Some(data) {
      var image :| D.CrashImage(d, v, image) && IsLeft(image, parent, f, c);
    }
  }

  // ----- One file as the engine sees it -----

  /** The two copies of one snapshot file: as last synced, and as seen. */
  datatype Copies<T> = Copies(durable: Option<T>, visible: Option<T>)

  /** How saving a file may change its copies: not at all, renamed but not synced, or synced. */
  ghost predicate Saved<T>(before: Copies<T>, after: Copies<T>, new': T, err: Status, syncs: bool) {
    || (err.Some? && after == before)
    || (err.Some? && after == Copies(before.durable, Some(new')))
    || (err == None && after == Copies(if syncs then Some(new') else before.durable, Some(new')))
  }

  /** The engine's rename and sync. */
  function CopiesOf(durable: Records.Colls, visible: Records.Colls, name: bytes): Copies<Records.Coll> {
    Copies(Records.Slot(durable, name), Records.Slot(visible, name))
  }

  method RenameAndSync(dir: Storage.SnapDir, name: bytes, c: Records.Coll) returns (err: Status)
    modifies dir
    ensures dir.errors == Noted(old(dir.errors), err)
    ensures Saved(CopiesOf(old(dir.durable), old(dir.visible), name), CopiesOf(dir.durable, dir.visible, name), c, err,
                  dir.syncs)
  {
    err := dir.Rename(name, c);
    if err == None {
      err := dir.Sync();
    }
  }

  /** A reader of the real files sees the visible copy, and a crash leaves one of the two. */
  ghost predicate Stands(copies: Copies<bytes>, dirs: D.FileSystem, files: A.Files, parent: D.Path)
    reads dirs, files
  {
    && Consistent(dirs.visible, parent, files.disk)
    && copies.visible == (if D.Reaches(dirs.visible, parent) then A.ReadTarget(files.disk) else None)
    && forall c :: MayBe(dirs.durable, dirs.visible, parent, files.disk, c) ==>
      c == copies.durable || c == copies.visible
  }

  /**
   The real calls refine the engine's: from a file whose two copies agree, as they do while no
   error has occurred, `Save` changes them in one of the ways `RenameAndSync` does.
   */
  method SaveRefines(dirs: D.FileSystem, files: A.Files, parent: D.Path, data: bytes, ghost before: Copies<bytes>)
    returns (err: Status, ghost after: Copies<bytes>)
    requires Stands(before, dirs, files, parent) && before.durable == before.visible
    requires dirs.syncsDirs == files.syncsDirs
    requires dirs.syncsDirs ==> D.SurvivesCrash(dirs.durable, dirs.visible, D.FirstExisting(dirs.visible, parent))
    modifies dirs, files
    ensures Saved(before, after, data, err, dirs.syncsDirs) && Stands(after, dirs, files, parent)
    ensures Faithful(dirs, files, old(dirs.errors), old(files.errors), err)
  {
    hide D.SurvivesCrash, D.FirstExisting, A.Good, A.MayLeave, D.Reaches, D.CrashImage, MayBe;
    NothingSeen(dirs.visible, parent, files.disk);
    ghost var renamed;
    err, renamed := Save(dirs, files, parent, data);
    if !renamed {
      after := before;
      NothingSeen(dirs.visible, parent, files.disk);
    } else if err == None && dirs.syncsDirs {
      after := Copies(Some(data), Some(data));
    } else {
      after := Copies(before.durable, Some(data));
    }
  }

  lemma NothingSeen(v: D.Tree, parent: D.Path, disk: A.Disk)
    requires Consistent(v, parent, disk)
    ensures !D.Reaches(v, parent) ==> A.ReadTarget(disk) == None
  {
    A.SeenMayBeLeft(disk);
  }

  // ----- Names below the lock file -----

  /** The directory that the snapshot file of `name` lies in. */
  function DirOf(root: D.Path, name: bytes): D.Path {
    root + Names.Segments(name)[..|Names.Segments(name)| - 1]
  }

  /** With the lock file in place, a collection whose name starts with `lock/` can never be saved. */
  method SaveBelowLock(dirs: D.FileSystem, files: A.Files, root: D.Path, name: bytes, data: bytes) returns (err: Status)
    requires Names.LOCK_NAME + "/" <= name && D.Look(dirs.visible, root + [Names.LOCK_NAME]) == Some(D.File)
    requires Consistent(dirs.visible, DirOf(root, name), files.disk)
    modifies dirs, files
    ensures Consistent(dirs.visible, DirOf(root, name), files.disk)
    ensures err.Some? && Reports(old(dirs.errors), dirs.errors, err) && files.errors == old(files.errors)
    ensures A.ReadTarget(files.disk) == A.ReadTarget(old(files.disk))
    ensures D.Look(dirs.visible, root + [Names.LOCK_NAME]) == Some(D.File)
  {
    Names.BelowLock(name);
    var parent := DirOf(root, name);
    assert parent[..|root| + 1] == root + [Names.LOCK_NAME];
    assert [] in dirs.visible by { HasRoot(dirs.visible, root, Names.LOCK_NAME); }
    hide D.Closed, A.Good, D.Reaches, D.DirsMade, MayBe, D.FirstExisting;
    ghost var v0 := dirs.visible;
    ghost var renamed;
    err, renamed := Save(dirs, files, parent, data);
    StillThere(v0, dirs.visible, parent, []);
    StillThere(v0, dirs.visible, parent, root + [Names.LOCK_NAME]);
  }

  lemma HasRoot(v: D.Tree, root: D.Path, name: bytes)
    requires D.Closed(v) && root + [name] in v
    ensures [] in v
  {
    assert D.Parent(root + [name]) == root;
    D.ClosedReaches(v, root);
    assert root[..0] == [];
  }

  lemma StillThere(v0: D.Tree, v: D.Tree, p: D.Path, q: D.Path)
    requires D.DirsMade(v0, v, p) && q in v0
    ensures D.Look(v, q) == D.Look(v0, q) && q in v
  {}
}
