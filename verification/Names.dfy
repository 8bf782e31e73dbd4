/** The grammar of collection names, its two checkers, and the paths names map to. */
module Names {
  import opened Basics

  const MAX_NAME_LEN := 240

  predicate NameChar(c: byte) {
    'a' <= c <= 'z' || '0' <= c <= '9' || c == '_' || c == '-'
  }

  /** Nonempty segments of name characters, separated by single slashes. */
  predicate Segmented(s: bytes) {
    && s != []
    && (forall i :: 0 <= i < |s| ==> NameChar(s[i]) || s[i] == '/')
    && (forall i :: 0 <= i < |s| && s[i] == '/' ==> 0 < i < |s| - 1 && s[i - 1] != '/')
  }

  predicate ValidName(s: bytes) {
    |s| <= MAX_NAME_LEN && Segmented(s)
  }

  method CheckName(name: bytes) returns (ok: bool)
    ensures ok <==> ValidName(name)
  {
    if |name| > MAX_NAME_LEN {
      return false;
    }
    var seg := 0;
    for i := 0 to |name|
      invariant 0 <= seg <= i
      invariant seg == 0 <==> i == 0 || name[i - 1] == '/'
      invariant forall j :: 0 <= j < i ==> NameChar(name[j]) || name[j] == '/'
      invariant forall j :: 0 <= j < i && name[j] == '/' ==> 0 < j && name[j - 1] != '/'
    {
      var c := name[i];
      if c == '/' {
        if seg == 0 {
          return false;
        }
        seg := 0;
      } else if NameChar(c) {
        seg := seg + 1;
      } else {
        return false;
      }
    }
    if seg == 0 && name != [] {
      assert name[|name| - 1] == '/';
    }
    return seg > 0;
  }

  /** The server's own copy of the checker, which tests the empty name first. */
  method CheckCollectionName(name: bytes) returns (ok: bool)
    ensures ok <==> ValidName(name)
  {
    if |name| == 0 || |name| > 240 {
      return false;
    }
    var segment := 0;
    for i := 0 to |name|
      invariant 0 <= segment <= i
      invariant segment == 0 <==> i == 0 || name[i - 1] == '/'
      invariant forall j :: 0 <= j < i ==> NameChar(name[j]) || name[j] == '/'
      invariant forall j :: 0 <= j < i && name[j] == '/' ==> 0 < j && name[j - 1] != '/'
    {
      var c := name[i];
      if c == '/' {
        if segment == 0 {
          return false;
        }
        segment := 0;
      } else if NameChar(c) {
        segment := segment + 1;
      } else {
        return false;
      }
    }
    if segment == 0 {
      assert name[|name| - 1] == '/';
    }
    return segment > 0;
  }

  // ----- Paths, relative to the database directory -----

  const WAL_NAME: bytes := "wal.log"
  const LOCK_NAME: bytes := "lock"
  const JSON: bytes := ".json"
  const TMP: bytes := ".tmp"

  function CollPath(name: bytes): bytes { name + JSON }

  function TmpPath(name: bytes): bytes { CollPath(name) + TMP }

  /** `dir` is one of the directories the snapshot path of `name` lies in. */
  predicate ParentDir(dir: bytes, name: bytes) {
    |dir| < |name| && name[..|dir|] == dir && name[|dir|] == '/'
  }

  /** Snapshot files, temporary files, the log and directories never share a path. */
  lemma PathsDisjoint(m: bytes, n: bytes, dir: bytes)
    requires ValidName(m) && ValidName(n)
    ensures CollPath(m) == CollPath(n) ==> m == n
    ensures CollPath(m) != TmpPath(n)
    ensures WAL_NAME !in {CollPath(m), TmpPath(m)} && LOCK_NAME !in {CollPath(m), TmpPath(m)}
    ensures ParentDir(dir, n) ==> dir !in {CollPath(m), TmpPath(m), WAL_NAME}
  {
    assert CollPath(m)[..|m|] == m && CollPath(n)[..|n|] == n;
    assert CollPath(m)[|CollPath(m)| - 1] == 'n' && TmpPath(n)[|TmpPath(n)| - 1] == 'p';
    assert WAL_NAME[|WAL_NAME| - 1] == 'g' && LOCK_NAME[|LOCK_NAME| - 1] == 'k';
    assert CollPath(m)[|m|] == '.' && TmpPath(m)[|m|] == '.' && WAL_NAME[3] == '.';
    assert TmpPath(m)[|TmpPath(m)| - 1] == 'p';
    if ParentDir(dir, n) {
      forall i | 0 <= i < |dir| ensures dir[i] != '.' {
        assert dir[i] == n[i];
      }
    }
  }

  function FirstSlash(n: bytes): (i: nat)
    ensures i <= |n| && '/' !in n[..i] && (i < |n| ==> n[i] == '/')
  {
    if n == [] || n[0] == '/' then 0
    else
      var i := FirstSlash(n[1..]) + 1;
      assert n[..i] == [n[0]] + n[1..][..i - 1];
      i
  }

  /** The path components a name stands for. */
  function Segments(n: bytes): (s: seq<bytes>)
    ensures s != []
    decreases |n|
  {
    var i := FirstSlash(n);
    if i == |n| then [n] else [n[..i]] + Segments(n[i + 1..])
  }

  lemma {:induction false} FirstSlashIs(n: bytes, k: nat)
    requires k < |n| && n[k] == '/' && '/' !in n[..k]
    ensures FirstSlash(n) == k
    decreases k
  {
    if k > 0 {
      assert n[0] == n[..k][0];
      assert n[1..][..k - 1] == n[..k][1..];
      FirstSlashIs(n[1..], k - 1);
    }
  }

  /** A name lies below the path component `lock` exactly when it starts with `lock/`. */
  lemma BelowLock(n: bytes)
    ensures |Segments(n)| >= 2 && Segments(n)[0] == LOCK_NAME <==> LOCK_NAME + "/" <= n
  {
    if LOCK_NAME + "/" <= n {
      assert n[..4] == LOCK_NAME && n[4] == '/';
      FirstSlashIs(n, 4);
    }
  }

  /** `n` needs a directory where one of the database's own files is. */
  predicate Clashes(n: bytes) {
    ParentDir(LOCK_NAME, n) || ParentDir(WAL_NAME, n)
  }

  /** Among valid names the clashes are exactly the names that start with `lock/`, and there are such names. */
  lemma LockClash(n: bytes)
    ensures ValidName(n) ==> (Clashes(n) <==> LOCK_NAME + "/" <= n)
    ensures ValidName("lock/x") && Clashes("lock/x")
  {
    if ParentDir(LOCK_NAME, n) {
      assert n[..5] == LOCK_NAME + "/";
    }
    if ValidName(n) && |n| > 7 {
      assert WAL_NAME[3] == '.' && n[..7][3] == n[3] && n[3] != '.';
    }
  }
}
