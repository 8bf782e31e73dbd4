/**
 Log records and what replaying them does to the collections.

 A database state is read through cells: one cell per collection name (does the
 collection exist?) and one per document. Every record writes a constant into some
 cells and leaves the others alone, so replay is "last writer wins" cell by cell.
 */
module Records {
  import opened Basics

  type Coll = map<bytes, bytes>
  type Colls = map<bytes, Coll>

  datatype Record = Record(op: bytes, coll: bytes, id: bytes, doc: bytes)

  const OP_SET: bytes := "set"
  const OP_DEL: bytes := "del"
  const OP_DROP: bytes := "drop"

  /** The collections after one record. A record with any other op changes nothing. */
  function Apply(s: Colls, r: Record): Colls {
    if r.op == OP_SET then
      var c: Coll := if r.coll in s then s[r.coll] else map[];
      s[r.coll := c[r.id := r.doc]]
    else if r.op == OP_DEL then
      if r.coll in s && r.id in s[r.coll] then s[r.coll := s[r.coll] - {r.id}] else s
    else if r.op == OP_DROP then
      s - {r.coll}
    else
      s
  }

  /** Whether applying the record marks its collection dirty. */
  predicate Marks(s: Colls, r: Record) {
    || r.op == OP_SET
    || (r.op == OP_DEL && r.coll in s && r.id in s[r.coll])
    || (r.op == OP_DROP && r.coll in s)
  }

  function Replay(s: Colls, rs: seq<Record>): Colls {
    if rs == [] then s else Apply(Replay(s, rs[..|rs| - 1]), rs[|rs| - 1])
  }

  /** The dirty set that replaying `rs` leaves behind. */
  function Dirtied(s: Colls, rs: seq<Record>): set<bytes> {
    if rs == [] then {} else
    var front := rs[..|rs| - 1];
    var r := rs[|rs| - 1];
    Dirtied(s, front) + (if Marks(Replay(s, front), r) then {r.coll} else {})
  }

  lemma ReplayNothing(s: Colls)
    ensures Replay(s, []) == s && Dirtied(s, []) == {}
  {}

  lemma OneMore(s: Colls, rs: seq<Record>, r: Record)
    ensures Replay(s, rs + [r]) == Apply(Replay(s, rs), r)
    ensures Dirtied(s, rs + [r]) == Dirtied(s, rs) + (if Marks(Replay(s, rs), r) then {r.coll} else {})
  {
    assert (rs + [r])[..|rs|] == rs;
  }

  // ----- Cells -----

  datatype Cell = Exists(name: bytes) | DocOf(name: bytes, id: bytes)

  /** The content of a cell; None is absence. */
  function Read(s: Colls, k: Cell): Option<bytes> {
    match k
    case Exists(n) => if n in s then Some("") else None
    case DocOf(n, i) => if n in s && i in s[n] then Some(s[n][i]) else None
  }

  /** What a record stores in a cell; None when it leaves the cell alone. */
  function Wrote(r: Record, k: Cell): Option<Option<bytes>> {
    if r.coll != k.name then None
    else if r.op == OP_SET then
      match k
      case Exists(_) => Some(Some(""))
      case DocOf(_, i) => if i == r.id then Some(Some(r.doc)) else None
    else if r.op == OP_DEL then
      if k == DocOf(r.coll, r.id) then Some(None) else None
    else if r.op == OP_DROP then Some(None)
    else None
  }

  function LastWrite(rs: seq<Record>, k: Cell): Option<Option<bytes>> {
    if rs == [] then None
    else if Wrote(rs[|rs| - 1], k).Some? then Wrote(rs[|rs| - 1], k)
    else LastWrite(rs[..|rs| - 1], k)
  }

  function Over(w: Option<Option<bytes>>, before: Option<bytes>): Option<bytes> {
    if w.Some? then w.value else before
  }

  lemma ApplyCell(s: Colls, r: Record, k: Cell)
    ensures Read(Apply(s, r), k) == Over(Wrote(r, k), Read(s, k))
  {}

  /** The three operations, document by document, and what becomes of the set of collections. */
  lemma ApplyMeans(s: Colls, r: Record, n: bytes, i: bytes)
    ensures
      var t := Apply(s, r);
      var was, now := Read(s, DocOf(n, i)), Read(t, DocOf(n, i));
      if r.op == "set" then
        t.Keys == s.Keys + {r.coll} && now == if n == r.coll && i == r.id then Some(r.doc) else was
      else if r.op == "del" then
        t.Keys == s.Keys && now == if n == r.coll && i == r.id then None else was
      else if r.op == "drop" then
        t.Keys == s.Keys - {r.coll} && now == if n == r.coll then None else was
      else
        t == s
  {
    ApplyCell(s, r, DocOf(n, i));
    if r.op == OP_DEL && r.coll in s {
      assert Apply(s, r).Keys == s.Keys;
    }
  }

  /** Replay is last-writer-wins on every cell. */
  lemma {:induction false} ReplayCell(s: Colls, rs: seq<Record>, k: Cell)
    ensures Read(Replay(s, rs), k) == Over(LastWrite(rs, k), Read(s, k))
  {
    if rs != [] {
      ReplayCell(s, rs[..|rs| - 1], k);
      ApplyCell(Replay(s, rs[..|rs| - 1]), rs[|rs| - 1], k);
    }
  }

  /** Two states that agree on every cell are equal. */
  lemma CellsDetermine(s: Colls, t: Colls)
    requires forall k :: Read(s, k) == Read(t, k)
    ensures s == t
  {
    forall n ensures (n in s) == (n in t) {
      assert Read(s, Exists(n)) == Read(t, Exists(n));
    }
    forall n | n in s ensures s[n] == t[n] {
      forall i ensures (i in s[n]) == (i in t[n]) && (i in s[n] ==> s[n][i] == t[n][i]) {
        assert Read(s, DocOf(n, i)) == Read(t, DocOf(n, i));
      }
    }
  }

  /** The write at position `p` is the last one if no later record writes the cell. */
  lemma {:induction false} LastWriteIs(rs: seq<Record>, p: nat, k: Cell)
    requires p < |rs| && Wrote(rs[p], k).Some?
    requires forall j :: p < j < |rs| ==> Wrote(rs[j], k) == None
    ensures LastWrite(rs, k) == Wrote(rs[p], k)
    decreases |rs|
  {
    if p < |rs| - 1 {
      LastWriteIs(rs[..|rs| - 1], p, k);
    }
  }

  lemma {:induction false} LastWriteConcat(a: seq<Record>, b: seq<Record>, k: Cell)
    ensures LastWrite(a + b, k) == if LastWrite(b, k).Some? then LastWrite(b, k) else LastWrite(a, k)
  {
    if b == [] {
      assert a + b == a;
    } else {
      assert (a + b)[..|a + b| - 1] == a + b[..|b| - 1];
      LastWriteConcat(a, b[..|b| - 1], k);
    }
  }

  lemma {:induction false} ReplayConcat(s: Colls, a: seq<Record>, b: seq<Record>)
    ensures Replay(s, a + b) == Replay(Replay(s, a), b)
  {
    if b == [] {
      assert a + b == a;
    } else {
      assert (a + b)[..|a + b| - 1] == a + b[..|b| - 1];
      ReplayConcat(s, a, b[..|b| - 1]);
    }
  }

  /** A replayed run of records is absorbed by a later replay of the same run. */
  lemma Absorption(s: Colls, p: seq<Record>, q: seq<Record>)
    ensures Replay(s, p + q + p) == Replay(s, q + p)
  {
    forall k ensures Read(Replay(s, p + q + p), k) == Read(Replay(s, q + p), k) {
      ReplayCell(s, p + q + p, k);
      ReplayCell(s, q + p, k);
      LastWriteConcat(p + q, p, k);
      LastWriteConcat(p, q, k);
      LastWriteConcat(q, p, k);
    }
    CellsDetermine(Replay(s, p + q + p), Replay(s, q + p));
  }

  /** Replaying the end of the log once more changes nothing. */
  lemma SuffixReplay(s: Colls, a: seq<Record>, b: seq<Record>)
    ensures Replay(Replay(s, a + b), b) == Replay(s, a + b)
  {
    forall k ensures Read(Replay(Replay(s, a + b), b), k) == Read(Replay(s, a + b), k) {
      ReplayCell(Replay(s, a + b), b, k);
      ReplayCell(s, a + b, k);
      LastWriteConcat(a, b, k);
    }
    CellsDetermine(Replay(Replay(s, a + b), b), Replay(s, a + b));
  }

  // ----- Collections one at a time -----

  /** The content of one collection, None when it does not exist. */
  function Slot(s: Colls, n: bytes): Option<Coll> {
    if n in s then Some(s[n]) else None
  }

  /** A state with one slot replaced. */
  function PutSlot(s: Colls, n: bytes, v: Option<Coll>): Colls {
    match v
    case Some(c) => s[n := c]
    case None => s - {n}
  }

  lemma PutSlotReads(s: Colls, n: bytes, v: Option<Coll>, m: bytes)
    ensures Slot(PutSlot(s, n, v), m) == if m == n then v else Slot(s, m)
  {}

  lemma SlotCells(s: Colls, t: Colls, k: Cell)
    requires Slot(s, k.name) == Slot(t, k.name)
    ensures Read(s, k) == Read(t, k)
  {}

  lemma SlotsDetermine(s: Colls, t: Colls)
    requires forall n :: Slot(s, n) == Slot(t, n)
    ensures s == t
  {
    forall n ensures (n in s) == (n in t) && (n in s ==> s[n] == t[n]) {
      assert Slot(s, n) == Slot(t, n);
    }
  }

  /** Not marking a collection dirty is sound: the record left it exactly as it was. */
  lemma UnmarkedSlot(s: Colls, r: Record, n: bytes)
    requires n != r.coll || !Marks(s, r)
    ensures Slot(Apply(s, r), n) == Slot(s, n)
  {}

  /** Marking is exact on deletes and drops, the two operations that may skip it. */
  lemma MarksExactly(s: Colls, r: Record)
    requires r.op != OP_SET
    ensures Marks(s, r) <==> Apply(s, r) != s
  {
    if Marks(s, r) {
      if r.op == OP_DEL {
        assert r.id !in Apply(s, r)[r.coll];
      } else {
        assert r.coll !in Apply(s, r);
      }
    } else {
      assert Apply(s, r) == s;
    }
  }

  lemma {:induction false} DirtiedSound(s: Colls, rs: seq<Record>, n: bytes)
    requires n !in Dirtied(s, rs)
    ensures Slot(Replay(s, rs), n) == Slot(s, n)
  {
    if rs != [] {
      DirtiedSound(s, rs[..|rs| - 1], n);
      UnmarkedSlot(Replay(s, rs[..|rs| - 1]), rs[|rs| - 1], n);
    }
  }

  // ----- Replaying part of a history over a newer or older file -----

  /** The state after the first `i` records of a history. */
  function At(base: Colls, hist: seq<Record>, i: nat): Colls
    requires i <= |hist|
  {
    Replay(base, hist[..i])
  }

  lemma AtExtends(base: Colls, hist: seq<Record>, more: seq<Record>, i: nat)
    requires i <= |hist|
    ensures At(base, hist + more, i) == At(base, hist, i)
  {
    assert (hist + more)[..i] == hist[..i];
  }

  lemma AtCell(base: Colls, hist: seq<Record>, i: nat, j: nat, k: Cell)
    requires i <= j <= |hist|
    ensures Read(At(base, hist, j), k) == Over(LastWrite(hist[i..j], k), Read(At(base, hist, i), k))
  {
    assert hist[..j] == hist[..i] + hist[i..j];
    ReplayConcat(base, hist[..i], hist[i..j]);
    ReplayCell(At(base, hist, i), hist[i..j], k);
  }

  /**
   The heart of crash safety. A file reflects position `f` of the history, the log
   holds records `lo..j` with `lo <= f`. After replay, every cell has the value it
   had at position `j`, or at position `f` when the file is ahead of the log.
   */
  lemma ReplayOverFile(base: Colls, hist: seq<Record>, file: Colls, lo: nat, f: nat, j: nat, k: Cell) returns (i: nat)
    requires lo <= f <= |hist| && lo <= j <= |hist|
    requires Slot(file, k.name) == Slot(At(base, hist, f), k.name)
    ensures j <= i <= |hist|
    ensures i == if LastWrite(hist[lo..j], k).Some? || f <= j then j else f
    ensures Read(Replay(file, hist[lo..j]), k) == Read(At(base, hist, i), k)
  {
    SlotCells(file, At(base, hist, f), k);
    ReplayCell(file, hist[lo..j], k);
    AtCell(base, hist, lo, j, k);
    if LastWrite(hist[lo..j], k).Some? {
      i := j;
    } else if f <= j {
      assert hist[lo..j] == hist[lo..f] + hist[f..j];
      LastWriteConcat(hist[lo..f], hist[f..j], k);
      AtCell(base, hist, f, j, k);
      i := j;
    } else {
      i := f;
    }
  }
}
