/** Creating a directory, with everything above it, so that a crash does not lose it. */
module Directories {
  import opened Basics

  /** The components of a cleaned path below the root. */
  type Path = seq<bytes>

  datatype Kind = Directory | File

  /** The entries of a file system; the entry of a path belongs to its parent directory. */
  type Tree = map<Path, Kind>

  function Look(t: Tree, p: Path): Option<Kind> {
    if p in t then Some(t[p]) else None
  }

  /** `filepath.Dir`: the root is its own parent. */
  function Parent(p: Path): Path {
    if p == [] then [] else p[..|p| - 1]
  }

  ghost predicate Closed(t: Tree) {
    forall p :: p in t && p != [] ==> Look(t, Parent(p)) == Some(Directory)
  }

  /** Every step of the way to `p` is a directory. */
  ghost predicate Reaches(t: Tree, p: Path) {
    forall k :: 0 <= k <= |p| ==> Look(t, p[..k]) == Some(Directory)
  }

  /** What a crash may leave: each entry as it was synced, or as it was last seen. */
  ghost predicate CrashImage(durable: Tree, visible: Tree, image: Tree) {
    forall p :: Look(image, p) == Look(durable, p) || Look(image, p) == Look(visible, p)
  }

  ghost predicate SurvivesCrash(durable: Tree, visible: Tree, p: Path) {
    forall image :: CrashImage(durable, visible, image) ==> Reaches(image, p)
  }

  /** The longest part of `p` that exists, or the root. */
  function FirstExisting(t: Tree, p: Path): (q: Path)
    ensures q <= p
    ensures q in t || q == []
    ensures forall k :: |q| < k <= |p| ==> p[..k] !in t
    decreases |p|
  {
    if p in t || p == [] then p
    else
      var q := FirstExisting(t, Parent(p));
      assert forall k :: |q| < k < |p| ==> Parent(p)[..k] == p[..k];
      assert p[..|p|] == p;
      q
  }

  lemma SurvivesMeans(durable: Tree, visible: Tree, p: Path)
    ensures SurvivesCrash(durable, visible, p) <==> Reaches(durable, p) && Reaches(visible, p)
  {
    assert CrashImage(durable, visible, durable) && CrashImage(durable, visible, visible);
    forall image | CrashImage(durable, visible, image) && Reaches(durable, p) && Reaches(visible, p)
      ensures Reaches(image, p)
    {
      forall k | 0 <= k <= |p| ensures Look(image, p[..k]) == Some(Directory) {
        assert Look(durable, p[..k]) == Look(visible, p[..k]) == Some(Directory);
      }
    }
  }

  lemma {:induction false} ClosedReaches(t: Tree, p: Path)
    requires Closed(t) && Look(t, p) == Some(Directory)
    ensures Reaches(t, p)
    decreases |p|
  {
    assert p[..|p|] == p;
    if p != [] {
      ClosedReaches(t, Parent(p));
      forall k | 0 <= k < |p| ensures Look(t, p[..k]) == Some(Directory) {
        assert Parent(p)[..k] == p[..k];
      }
    }
  }

  /** The tree that holds nothing but the way to `p`. */
  function Way(p: Path): (t: Tree)
    ensures Closed(t) && Look(t, p) == Some(Directory) && Look(t, []) == Some(Directory)
    ensures forall q :: q in t ==> q <= p
    decreases |p|
  {
    if p == [] then map[[] := Directory] else Way(Parent(p))[p := Directory]
  }

  /** What `os.MkdirAll` may do: entries are only added, and only directories on the way to `p`. */
  ghost predicate DirsMade(before: Tree, after: Tree, p: Path) {
    && Closed(after)
    && (forall q :: q in before ==> Look(after, q) == Look(before, q))
    && (forall q :: q in after && q !in before ==> q <= p && after[q] == Directory)
  }

  /**
   An existing directory need not survive a crash. From a file system with everything
   synced, a call for `p` may create it and fail to sync its parent, which leaves the durable
   entries alone. The next call finds `p`, so it creates and syncs nothing, and a crash loses it.
   */
  lemma VisibleIsNotDurable(p: Path) returns (synced: Tree, visible: Tree)
    requires p != []
    ensures Closed(synced) && FirstExisting(synced, p) == Parent(p)
    ensures DirsMade(synced, visible, p) && Reaches(visible, p)
    ensures FirstExisting(visible, p) == p && !SurvivesCrash(synced, visible, p)
  {
    synced, visible := Way(Parent(p)), Way(p);
    ClosedReaches(visible, p);
    SurvivesMeans(synced, visible, p);
    assert p[..|p|] == p && !(p <= Parent(p));
    assert Look(synced, p[..|p|]) == None;
  }

  lemma OneMoreDir(t: Tree, q: Path)
    requires Closed(t) && q !in t && (q != [] ==> Look(t, Parent(q)) == Some(Directory))
    ensures Closed(t[q := Directory])
  {
    var u := t[q := Directory];
    forall p | p in u && p != [] ensures Look(u, Parent(p)) == Some(Directory) {
      assert p != q ==> Look(t, Parent(p)) == Some(Directory);
    }
  }

  /** Syncing entries that are still as they were endangers nothing. */
  lemma StillSurvives(d0: Tree, v0: Tree, d: Tree, v: Tree, p: Path)
    requires SurvivesCrash(d0, v0, p)
    requires forall q :: q in v0 ==> Look(v, q) == Look(v0, q)
    requires forall q :: Look(d, q) == Look(d0, q) || Look(d, q) == Look(v, q)
    ensures SurvivesCrash(d, v, p)
  {
    SurvivesMeans(d0, v0, p);
    SurvivesMeans(d, v, p);
    forall k | 0 <= k <= |p| ensures Look(d, p[..k]) == Some(Directory) && Look(v, p[..k]) == Some(Directory) {
      assert Look(d0, p[..k]) == Some(Directory) && Look(v0, p[..k]) == Some(Directory);
    }
  }

  /** Syncing the directory `p` makes durable what its entries are now. */
  function Flushed(durable: Tree, visible: Tree, p: Path): (t: Tree)
    ensures forall q :: Look(t, q) == if q != [] && Parent(q) == p then Look(visible, q) else Look(durable, q)
  {
    map q | q in durable.Keys + visible.Keys && (if q != [] && Parent(q) == p then q in visible else q in durable)
      :: if q != [] && Parent(q) == p then visible[q] else durable[q]
  }

  datatype StatResult = Present | NotExist | Fault(e: Error)

  datatype Errno = EINVAL | ENOTSUP | EOPNOTSUPP | ENOSYS | Other(e: Error)

  predicate DirSyncUnsupported(e: Errno) {
    e == EINVAL || e == ENOTSUP || e == EOPNOTSUPP || e == ENOSYS
  }

  const ENOENT := Error(2)
  const ENOTDIR := Error(20)

  function Code(e: Errno): Error {
    match e
    case EINVAL => Error(22)
    case ENOTSUP => Error(95)
    case EOPNOTSUPP => Error(95)
    case ENOSYS => Error(38)
    case Other(e) => e
  }

  /**
   The system calls. Any of them may fail; `errors` lists the errors returned, of which "no
   such file" and "directory syncs are not supported" are none.
   */
  class FileSystem {
    const syncsDirs: bool // false: directory syncs are not supported
    var durable: Tree
    var visible: Tree
    ghost var synced: seq<Path> // directories synced, oldest first
    ghost var errors: seq<Error>

    constructor (t: Tree, syncsDirs: bool)
      requires Closed(t)
      ensures durable == t && visible == t && synced == [] && errors == [] && this.syncsDirs == syncsDirs
    {
      durable, visible, synced, errors, this.syncsDirs := t, t, [], [], syncsDirs;
    }

    /** A file on the way to `p` is a fault, not a missing entry. */
    method Stat(p: Path) returns (r: StatResult)
      modifies this`errors
      ensures r == Present ==> p in visible
      ensures r == NotExist ==> p !in visible && forall k :: 0 <= k < |p| ==> Look(visible, p[..k]) != Some(File)
      ensures errors == Noted(old(errors), if r.Fault? then Some(r.e) else None)
    {
      if exists k :: 0 <= k < |p| && Look(visible, p[..k]) == Some(File) {
        errors := errors + [ENOTDIR];
        return Fault(ENOTDIR);
      }
      if * {
        var e: Error :| true;
        errors := errors + [e];
        return Fault(e);
      }
      r := if p in visible then Present else NotExist;
    }

    /** `os.MkdirAll`: creates what is missing from the top down, possibly not all of it. */
    method MakeDirs(p: Path) returns (err: Status)
      requires Closed(visible)
      modifies this`visible, this`errors
      ensures DirsMade(old(visible), visible, p) && errors == Noted(old(errors), err)
      ensures err == None ==> Reaches(visible, p)
    {
      hide Closed;
      for k := 0 to |p| + 1
        invariant Closed(visible) && errors == old(errors)
        invariant forall q :: q in old(visible) ==> Look(visible, q) == Look(old(visible), q)
        invariant forall q :: q in visible && q !in old(visible) ==> q <= p && visible[q] == Directory
        invariant k > 0 ==> Look(visible, p[..k - 1]) == Some(Directory)
      {
        if p[..k] in visible {
          if visible[p[..k]] == File {
            errors := errors + [ENOTDIR];
            return Some(ENOTDIR);
          }
        } else {
          if * {
            var e: Error :| true;
            errors := errors + [e];
            return Some(e);
          }
          assert k > 0 ==> Parent(p[..k]) == p[..k - 1];
          OneMoreDir(visible, p[..k]);
          visible := visible[p[..k] := Directory];
        }
      }
      assert p[..|p|] == p;
      ClosedReaches(visible, p);
      err := None;
    }

    method OpenDir(p: Path) returns (err: Status)
      modifies this`errors
      ensures errors == Noted(old(errors), err)
    {
      if * {
        var e: Error :| true;
        errors := errors + [e];
        return Some(e);
      }
      err := None;
    }

    method Fsync(p: Path) returns (err: Option<Errno>)
      modifies this`durable, this`synced, this`errors
      ensures synced == old(synced) + [p]
      ensures err == None ==> syncsDirs
      ensures err in {None, Some(EINVAL), Some(ENOTSUP), Some(EOPNOTSUPP), Some(ENOSYS)} || err.value.Other?
      ensures err.Some? && !err.value.Other? ==> !syncsDirs
      ensures durable == if err == None then Flushed(old(durable), visible, p) else old(durable)
      ensures errors == Noted(old(errors), if err.Some? && err.value.Other? then Some(err.value.e) else None)
    {
      synced := synced + [p];
      if * {
        var e: Error :| true;
        errors := errors + [e];
        return Some(Other(e));
      }
      if !syncsDirs {
        var e :| e in {EINVAL, ENOTSUP, EOPNOTSUPP, ENOSYS};
        return Some(e);
      }
      durable := Flushed(durable, visible, p);
      err := None;
    }

    method CloseDir() returns (err: Status)
      modifies this`errors
      ensures errors == Noted(old(errors), err)
    {
      if * {
        var e: Error :| true;
        errors := errors + [e];
        return Some(e);
      }
      err := None;
    }

    /** `SyncDir`: a file system that cannot sync directories is not an error; any other fault is. */
    method SyncDir(p: Path) returns (err: Status)
      modifies this`durable, this`synced, this`errors
      ensures Reports(old(errors), errors, err)
      ensures err == None ==> synced == old(synced) + [p]
      ensures err == None ==> durable == if syncsDirs then Flushed(old(durable), visible, p) else old(durable)
      ensures durable == old(durable) || (syncsDirs && durable == Flushed(old(durable), visible, p))
    {
      err := OpenDir(p);
      if err.Some? {
        return;
      }
      var fault := Fsync(p);
      if fault.Some? && !DirSyncUnsupported(fault.value) {
        var _ := CloseDir();
        return Some(Code(fault.value));
      }
      err := CloseDir();
    }
  }

  /** `path[..lo], path[..lo + 1], ..., path[..hi - 1]` */
  function Chain(path: Path, lo: nat, hi: nat): seq<Path>
    requires lo <= hi <= |path| + 1
  {
    seq(hi - lo, i requires 0 <= i < hi - lo => path[..lo + i])
  }

  /** A failed call is reported and nothing else is, unless there is no root directory to begin with. */
  ghost predicate FailedOr(fs: FileSystem, before: seq<Error>, err: Status)
    reads fs
  {
    Reports(before, fs.errors, err) || ([] !in fs.visible && fs.errors == before && err == Some(ENOENT))
  }

  /** The upward scan: the parents of all missing directories, nearest first. */
  method MissingParents(fs: FileSystem, path: Path) returns (parents: seq<Path>, err: Status)
    modifies fs`errors
    ensures FailedOr(fs, old(fs.errors), err)
    ensures err == None ==>
      && |parents| <= |path| && path[..|path| - |parents|] == FirstExisting(fs.visible, path)
      && FirstExisting(fs.visible, path) in fs.visible
      && forall i :: 0 <= i < |parents| ==> parents[i] == path[..|path| - 1 - i]
  {
    parents := [];
    var dir := path;
    assert path[..|path|] == path;
    while true
      invariant fs.errors == old(fs.errors)
      invariant |parents| <= |path| && dir == path[..|path| - |parents|]
      invariant forall i :: 0 <= i < |parents| ==> parents[i] == path[..|path| - 1 - i]
      invariant forall k :: |dir| < k <= |path| ==> path[..k] !in fs.visible
      decreases |dir|
    {
      var r := fs.Stat(dir);
      match r {
        case Present =>
          var q := FirstExisting(fs.visible, path);
          assert path[..|q|] == q;
          return parents, None;
        case Fault(e) => return parents, Some(e);
        case NotExist =>
          var parent := Parent(dir);
          if parent == dir {
            return parents, Some(ENOENT);
          }
          parents := parents + [parent];
          dir := parent;
      }
    }
  }

  /**
   `mkdirAll`. On success the path is a directory, exactly the parents of the created
   entries have been synced, from the top down, and the path survives a crash if and only
   if the part of it that existed before the call did.
   */
  method MkdirAll(fs: FileSystem, path: Path) returns (err: Status)
    requires Closed(fs.visible)
    modifies fs
    ensures DirsMade(old(fs.visible), fs.visible, path)
    ensures FailedOr(fs, old(fs.errors), err)
    ensures err == None ==> Reaches(fs.visible, path)
    ensures forall k :: 0 <= k <= |path| && Look(old(fs.visible), path[..k]) == Some(File) ==> err.Some?
    ensures err == None ==>
      fs.synced == old(fs.synced) + Chain(path, |FirstExisting(old(fs.visible), path)|, |path|)
    ensures err == None && fs.syncsDirs ==>
      var first := FirstExisting(old(fs.visible), path);
      SurvivesCrash(fs.durable, fs.visible, path) <==> SurvivesCrash(old(fs.durable), old(fs.visible), first)
    ensures !fs.syncsDirs ==> fs.durable == old(fs.durable)
    ensures forall p :: SurvivesCrash(old(fs.durable), old(fs.visible), p) ==> SurvivesCrash(fs.durable, fs.visible, p)
  {
    hide SurvivesCrash, FirstExisting;
    var parents;
    parents, err := MissingParents(fs, path);
    if err.Some? {
      return;
    }
    ghost var first := FirstExisting(fs.visible, path);
    ghost var d0, v0 := fs.durable, fs.visible;
    err := fs.MakeDirs(path);
    if err == None {
      err := SyncParents(fs, path, parents);
    }
    forall p | SurvivesCrash(d0, v0, p) ensures SurvivesCrash(fs.durable, fs.visible, p) {
      StillSurvives(d0, v0, fs.durable, fs.visible, p);
    }
    if err == None && fs.syncsDirs {
      ChainSurvives(d0, v0, fs.durable, fs.visible, path, first);
    }
  }

  /** The loop of `mkdirAll` that syncs from the first existing ancestor downwards. */
  method SyncParents(fs: FileSystem, path: Path, parents: seq<Path>) returns (err: Status)
    requires |parents| <= |path|
    requires forall i :: 0 <= i < |parents| ==> parents[i] == path[..|path| - 1 - i]
    modifies fs`durable, fs`synced, fs`errors
    ensures Reports(old(fs.errors), fs.errors, err)
    ensures !fs.syncsDirs ==> fs.durable == old(fs.durable)
    ensures forall q :: Look(fs.durable, q) == Look(old(fs.durable), q) || Look(fs.durable, q) == Look(fs.visible, q)
    ensures err == None ==> fs.synced == old(fs.synced) + Chain(path, |path| - |parents|, |path|)
    ensures err == None && fs.syncsDirs ==>
      && (forall k :: 0 <= k <= |path| - |parents| ==> Look(fs.durable, path[..k]) == Look(old(fs.durable), path[..k]))
      && (forall k :: |path| - |parents| < k <= |path| ==> Look(fs.durable, path[..k]) == Look(fs.visible, path[..k]))
  {
    var n, m := |path|, |parents|;
    var i := m;
    while i > 0
      invariant 0 <= i <= m
      invariant fs.visible == old(fs.visible) && fs.errors == old(fs.errors)
      invariant !fs.syncsDirs ==> fs.durable == old(fs.durable)
      invariant forall q ::
        Look(fs.durable, q) == Look(old(fs.durable), q) || Look(fs.durable, q) == Look(fs.visible, q)
      invariant fs.synced == old(fs.synced) + Chain(path, n - m, n - i)
      invariant fs.syncsDirs ==> forall k :: 0 <= k <= n - m ==>
        Look(fs.durable, path[..k]) == Look(old(fs.durable), path[..k])
      invariant fs.syncsDirs ==> forall k :: n - m < k <= n - i ==>
        Look(fs.durable, path[..k]) == Look(fs.visible, path[..k])
    {
      i := i - 1;
      err := fs.SyncDir(parents[i]);
      if err.Some? {
        return;
      }
      assert Chain(path, n - m, n - i) == Chain(path, n - m, n - i - 1) + [parents[i]];
      forall k | 0 < k <= n
        ensures Parent(path[..k]) == path[..k - 1] && (Parent(path[..k]) == parents[i] <==> k == n - i)
      {
        assert |Parent(path[..k])| == k - 1 && |parents[i]| == n - 1 - i;
      }
    }
    err := None;
  }

  lemma ChainSurvives(d0: Tree, v0: Tree, d: Tree, v: Tree, path: Path, first: Path)
    requires first <= path && Closed(v0) && first in v0 && Reaches(v, path)
    requires forall q :: q in v0 ==> Look(v, q) == Look(v0, q)
    requires forall k :: 0 <= k <= |first| ==> Look(d, path[..k]) == Look(d0, path[..k])
    requires forall k :: |first| < k <= |path| ==> Look(d, path[..k]) == Look(v, path[..k])
    ensures SurvivesCrash(d, v, path) <==> SurvivesCrash(d0, v0, first)
  {
    SurvivesMeans(d, v, path);
    SurvivesMeans(d0, v0, first);
    assert path[..|first|] == first;
    assert Look(v0, first) == Look(v, path[..|first|]) == Some(Directory);
    ClosedReaches(v0, first);
    assert forall k :: 0 <= k <= |first| ==> first[..k] == path[..k];
    assert Reaches(d, path) <==> Reaches(d0, first);
  }
}
