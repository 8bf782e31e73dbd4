/** The objects the engine works on: commits, the log file and the directory of snapshot files. */
module Storage {
  import opened Basics
  import opened Records

  /** A group commit: closed once, with the outcome of its batch. */
  class Commit {
    var done: bool
    var err: Status

    constructor ()
      ensures !done
    {
      done, err := false, None;
    }

    method Close(e: Status)
      requires !done
      modifies this
      ensures done && err == e
    {
      err := e;
      done := true;
    }
  }

  /**
   The open log: `visible` is what a reader sees, `durable` what was last synced. Any call
   may fail; `errors` lists the errors returned, so that nobody else can make one up.
   */
  class LogFile {
    var durable: bytes
    var visible: bytes
    ghost var errors: seq<Error>

    constructor (d: bytes)
      ensures durable == d && visible == d && errors == []
    {
      durable, visible, errors := d, d, [];
    }

    /** Appends `p`, or fails after some prefix of it. */
    method Write(p: bytes) returns (err: Status, ghost kept: nat)
      modifies this
      ensures durable == old(durable) && errors == Noted(old(errors), err)
      ensures kept <= |p| && visible == old(visible) + p[..kept]
      ensures err == None ==> kept == |p|
    {
      if * {
        visible := visible + p;
        return None, |p|;
      }
      var n: nat, e: Error :| n <= |p|;
      visible, errors := visible + p[..n], errors + [e];
      return Some(e), n;
    }

    method Sync() returns (err: Status)
      modifies this
      ensures visible == old(visible) && errors == Noted(old(errors), err)
      ensures durable == if err == None then old(visible) else old(durable)
    {
      if * {
        durable := visible;
        return None;
      }
      var e: Error :| true;
      errors := errors + [e];
      return Some(e);
    }

    /** Cuts the file, or fails having cut it or not. */
    method Truncate(n: nat) returns (err: Status, ghost cut: bool)
      requires n <= |visible|
      modifies this
      ensures durable == old(durable) && errors == Noted(old(errors), err)
      ensures visible == if cut then old(visible)[..n] else old(visible)
      ensures err == None ==> cut
    {
      if * {
        visible := visible[..n];
        return None, true;
      }
      var e: Error :| true;
      errors := errors + [e];
      if * {
        visible := visible[..n];
        return Some(e), true;
      }
      return Some(e), false;
    }

    method Close() returns (err: Status)
      modifies this`errors
      ensures errors == Noted(old(errors), err)
    {
      if * {
        return None;
      }
      var e: Error :| true;
      errors := errors + [e];
      return Some(e);
    }
  }

  /** The lock on the database directory. */
  class LockFile {
    ghost var errors: seq<Error>

    constructor ()
      ensures errors == []
    {
      errors := [];
    }

    method Close() returns (err: Status)
      modifies this
      ensures errors == Noted(old(errors), err)
    {
      if * {
        return None;
      }
      var e: Error :| true;
      errors := errors + [e];
      return Some(e);
    }
  }

  /**
   The snapshot files by collection name. A rename or removal is durable once the directory
   is synced, if the file system can sync directories.
   */
  class SnapDir {
    const syncs: bool
    var durable: Colls
    var visible: Colls
    ghost var errors: seq<Error>

    constructor (fs: Colls, syncs: bool)
      ensures durable == fs && visible == fs && this.syncs == syncs && errors == []
    {
      durable, visible, this.syncs, errors := fs, fs, syncs, [];
    }

    /** The contents of a file in its stored form, which may fail. */
    method Marshal(c: Coll) returns (data: Coll, err: Status)
      modifies this`errors
      ensures errors == Noted(old(errors), err) && data == c
    {
      data := c;
      if * {
        return data, None;
      }
      var e: Error :| true;
      errors := errors + [e];
      err := Some(e);
    }

    /** Parent directories, the synced temporary file, and its rename; on failure no snapshot file has changed. */
    method Rename(name: bytes, c: Coll) returns (err: Status)
      modifies this
      ensures durable == old(durable) && errors == Noted(old(errors), err)
      ensures visible == if err == None then old(visible)[name := c] else old(visible)
    {
      if * {
        visible := visible[name := c];
        return None;
      }
      var e: Error :| true;
      errors := errors + [e];
      return Some(e);
    }

    /** `missing` is Go's fs.ErrNotExist, which is not a failure of the file system. */
    method Remove(name: bytes) returns (err: Status, missing: bool)
      modifies this
      ensures durable == old(durable)
      ensures missing <==> name !in old(visible)
      ensures missing ==> err.Some? && errors == old(errors)
      ensures !missing ==> errors == Noted(old(errors), err)
      ensures visible == if err == None then old(visible) - {name} else old(visible)
    {
      var e: Error :| true;
      if name !in visible {
        return Some(e), true;
      }
      if * {
        visible := visible - {name};
        return None, false;
      }
      errors := errors + [e];
      return Some(e), false;
    }

    /** A file system that cannot sync directories does not report that as an error. */
    method Sync() returns (err: Status)
      modifies this
      ensures visible == old(visible) && errors == Noted(old(errors), err)
      ensures durable == if err == None && syncs then old(visible) else old(durable)
    {
      if * {
        if syncs {
          durable := visible;
        }
        return None;
      }
      var e: Error :| true;
      errors := errors + [e];
      return Some(e);
    }
  }
}
