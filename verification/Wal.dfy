/** The write-ahead log as a byte file: one encoded record per line. */
module Wal {
  import opened Basics
  import opened Records
  import opened Codec
  import opened Names

  /** What `write` may be asked to log, and what replay accepts. */
  predicate Loggable(r: Record) {
    && ValidStrings(r)
    && ValidName(r.coll)
    && (r.op == OP_SET ==> r.doc != [])
    && '\n' !in r.doc
  }

  /** Records of the three operations on a valid name and a UTF-8 id are loggable. */
  lemma OperationsLoggable(coll: bytes, id: bytes, doc: bytes)
    requires ValidName(coll) && ValidUtf8(id) && doc != [] && '\n' !in doc
    ensures Loggable(Record(OP_SET, coll, id, doc))
    ensures Loggable(Record(OP_DEL, coll, id, []))
    ensures Loggable(Record(OP_DROP, coll, [], []))
  {
    hide ValidUtf8, ValidName;
    OpsAreUtf8();
    NameIsUtf8(coll);
    NothingIsUtf8();
  }

  lemma OpsAreUtf8()
    ensures ValidUtf8(OP_SET) && ValidUtf8(OP_DEL) && ValidUtf8(OP_DROP)
  {
    hide ValidUtf8;
    AsciiIsUtf8(OP_SET);
    AsciiIsUtf8(OP_DEL);
    AsciiIsUtf8(OP_DROP);
  }

  lemma NameIsUtf8(name: bytes)
    requires ValidName(name)
    ensures ValidUtf8(name)
  {
    hide ValidUtf8;
    AsciiIsUtf8(name);
  }

  lemma NothingIsUtf8()
    ensures ValidUtf8([])
  {}

  predicate AllLoggable(rs: seq<Record>) {
    forall i :: 0 <= i < |rs| ==> Loggable(rs[i])
  }

  /** Encoded records with a newline after each. */
  function JoinLines(lines: seq<bytes>): bytes {
    if lines == [] then [] else lines[0] + "\n" + JoinLines(lines[1..])
  }

  function Lines(rs: seq<Record>): (lines: seq<bytes>)
    ensures |lines| == |rs|
    ensures forall i :: 0 <= i < |rs| ==> lines[i] == EncodeRecord(rs[i])
  {
    seq(|rs|, i requires 0 <= i < |rs| => EncodeRecord(rs[i]))
  }

  function EncodeLog(rs: seq<Record>): bytes {
    JoinLines(Lines(rs))
  }

  lemma {:induction false} JoinConcat(a: seq<bytes>, b: seq<bytes>)
    ensures JoinLines(a + b) == JoinLines(a) + JoinLines(b)
  {
    if a == [] {
      assert a + b == b;
    } else {
      assert (a + b)[1..] == a[1..] + b;
      JoinConcat(a[1..], b);
    }
  }

  lemma LinesConcat(a: seq<Record>, b: seq<Record>)
    ensures Lines(a + b) == Lines(a) + Lines(b)
  {}

  lemma EncodeConcat(a: seq<Record>, b: seq<Record>)
    ensures EncodeLog(a + b) == EncodeLog(a) + EncodeLog(b)
  {
    LinesConcat(a, b);
    JoinConcat(Lines(a), Lines(b));
  }

  lemma EncodeNothing()
    ensures EncodeLog([]) == [] && Newlines([]) == 0
  {}

  lemma EncodeFirst(rs: seq<Record>)
    requires rs != []
    ensures EncodeLog(rs) == EncodeRecord(rs[0]) + ("\n" + EncodeLog(rs[1..]))
  {
    assert Lines(rs)[1..] == Lines(rs[1..]);
  }

  // ----- Newlines -----

  function Newlines(d: bytes): nat {
    if d == [] then 0 else (if d[0] == '\n' then 1 else 0) + Newlines(d[1..])
  }

  lemma {:induction false} NewlinesConcat(a: bytes, b: bytes)
    ensures Newlines(a + b) == Newlines(a) + Newlines(b)
  {
    if a == [] {
      assert a + b == b;
    } else {
      assert (a + b)[1..] == a[1..] + b;
      NewlinesConcat(a[1..], b);
    }
  }

  lemma {:induction false} NoNewlines(a: bytes)
    ensures Newlines(a) == 0 <==> '\n' !in a
  {
    if a != [] {
      NoNewlines(a[1..]);
      assert a == [a[0]] + a[1..];
    }
  }

  lemma {:induction false} EncodedNewlines(rs: seq<Record>)
    requires AllLoggable(rs)
    ensures Newlines(EncodeLog(rs)) == |rs|
  {
    if rs != [] {
      EncodeFirst(rs);
      EncodedNewlines(rs[1..]);
      var line := EncodeRecord(rs[0]);
      RecordHasNoNewline(rs[0]);
      NoNewlines(line);
      NewlinesConcat(line, "\n" + EncodeLog(rs[1..]));
      assert ("\n" + EncodeLog(rs[1..]))[1..] == EncodeLog(rs[1..]);
    }
  }

  // ----- Parsing -----

  /** Index of the first newline, or the length if there is none. */
  function LineEnd(d: bytes): (i: nat)
    ensures i <= |d|
    ensures i < |d| ==> d[i] == '\n'
    ensures '\n' !in d[..i]
  {
    if d == [] then 0
    else if d[0] == '\n' then 0
    else
      var i := LineEnd(d[1..]) + 1;
      assert d[..i] == [d[0]] + d[1..][..i - 1];
      i
  }

  datatype Fault = BadSyntax | BadName | NoDoc

  datatype Line = Good(rec: Record) | Bad(fault: Fault)

  /** One complete line: its record, or why replay refuses it. */
  function ReadLine(line: bytes): Line {
    match DecodeRecord(line)
    case None => Bad(BadSyntax)
    case Some(r) =>
      if !ValidName(r.coll) then Bad(BadName)
      else if r.op == OP_SET && r.doc == [] then Bad(NoDoc)
      else Good(r)
  }

  /** Parsed: the complete records and the bytes they take. Corrupt: the 1-based bad line. */
  datatype Parse = Parsed(recs: seq<Record>, size: nat) | Corrupt(line: nat, fault: Fault)

  function Prepend(rs: seq<Record>, n: nat, p: Parse): Parse {
    match p
    case Parsed(more, size) => Parsed(rs + more, n + size)
    case Corrupt(line, fault) => Corrupt(|rs| + line, fault)
  }

  lemma PrependTwice(a: seq<Record>, m: nat, b: seq<Record>, n: nat, p: Parse)
    ensures Prepend(a, m, Prepend(b, n, p)) == Prepend(a + b, m + n, p)
  {}

  function ParseLog(d: bytes): Parse
    decreases |d|
  {
    var i := LineEnd(d);
    if i == |d| then Parsed([], 0)
    else
      match ReadLine(d[..i])
      case Good(r) => Prepend([r], i + 1, ParseLog(d[i + 1..]))
      case Bad(fault) => Corrupt(1, fault)
  }

  lemma ParseStart(d: bytes)
    ensures ParseLog(d) == Prepend([], 0, ParseLog(d))
  {
    hide ReadLine, ParseLog;
    match ParseLog(d)
    case Parsed(recs, _) => assert [] + recs == recs;
    case Corrupt(_, _) =>
  }

  lemma PrependNothing(recs: seq<Record>, size: nat)
    ensures Prepend(recs, size, Parsed([], 0)) == Parsed(recs, size)
  {
    assert recs + [] == recs;
  }

  lemma PrependBad(recs: seq<Record>, size: nat, fault: Fault)
    ensures Prepend(recs, size, Corrupt(1, fault)) == Corrupt(|recs| + 1, fault)
  {}

  /** One turn of the parse, seen from the records and bytes already read. */
  lemma ParseTurn(recs: seq<Record>, size: nat, rest: bytes)
    ensures
      var i := LineEnd(rest);
      var p := Prepend(recs, size, ParseLog(rest));
      if i == |rest| then p == Parsed(recs, size)
      else match ReadLine(rest[..i])
           case Bad(fault) => p == Corrupt(|recs| + 1, fault)
           case Good(r) => p == Prepend(recs + [r], size + i + 1, ParseLog(rest[i + 1..]))
  {
    hide ReadLine, LineEnd, Prepend;
    var i := LineEnd(rest);
    if i == |rest| {
      PrependNothing(recs, size);
    } else {
      match ReadLine(rest[..i])
      case Bad(fault) => PrependBad(recs, size, fault);
      case Good(r) => PrependTwice(recs, size, [r], i + 1, ParseLog(rest[i + 1..]));
    }
  }

  lemma {:induction false} LineEndAt(line: bytes, x: bytes)
    requires '\n' !in line
    ensures LineEnd(line + ("\n" + x)) == |line|
  {
    if line != [] {
      assert (line + ("\n" + x))[1..] == line[1..] + ("\n" + x);
      LineEndAt(line[1..], x);
    }
  }

  // ----- What a log says -----

  /** `d` is the given lines, each ended by a newline, and a tail without one. */
  predicate Splits(d: bytes, lines: seq<bytes>, tail: bytes) {
    && d == JoinLines(lines) + tail
    && '\n' !in tail
    && forall k :: 0 <= k < |lines| ==> '\n' !in lines[k]
  }

  /** Every byte string splits that way. */
  lemma {:induction false} SplitLog(d: bytes) returns (lines: seq<bytes>, tail: bytes)
    ensures Splits(d, lines, tail)
    decreases |d|
  {
    var i := LineEnd(d);
    if i == |d| {
      lines, tail := [], d;
      assert d[..i] == d;
    } else {
      lines, tail := SplitLog(d[i + 1..]);
      assert d == d[..i] + "\n" + d[i + 1..];
      lines := [d[..i]] + lines;
      assert lines[1..] + [] == lines[1..];
    }
  }

  /** What makes a complete line good: it decodes, and to an acceptable record. */
  predicate Accepts(line: bytes) {
    var r := DecodeRecord(line);
    r.Some? && ValidName(r.value.coll) && !(r.value.op == "set" && r.value.doc == [])
  }

  /** Which of the three tests a line fails first. */
  predicate Refuses(line: bytes, fault: Fault) {
    var r := DecodeRecord(line);
    match fault
    case BadSyntax => r == None
    case BadName => r.Some? && !ValidName(r.value.coll)
    case NoDoc => r.Some? && ValidName(r.value.coll) && r.value.op == "set" && r.value.doc == []
  }

  lemma LineIsRead(line: bytes)
    ensures match ReadLine(line)
            case Good(r) => Accepts(line) && DecodeRecord(line) == Some(r)
            case Bad(fault) => !Accepts(line) && Refuses(line, fault)
  {
    hide DecodeRecord, ValidName;
  }

  lemma FirstLine(lines: seq<bytes>, tail: bytes)
    requires Splits(JoinLines(lines) + tail, lines, tail) && lines != []
    ensures
      var d := JoinLines(lines) + tail;
      && LineEnd(d) == |lines[0]| < |d| && d[..|lines[0]|] == lines[0]
      && d[|lines[0]| + 1..] == JoinLines(lines[1..]) + tail
  {
    var rest := JoinLines(lines[1..]) + tail;
    var d := lines[0] + ("\n" + rest);
    assert JoinLines(lines) + tail == d;
    LineEndAt(lines[0], rest);
    assert d[|lines[0]| + 1..] == rest;
  }

  /** A log is read whole exactly when every complete line is good, and then as their records in order. */
  lemma {:induction false} GoodLog(d: bytes, lines: seq<bytes>, tail: bytes)
    requires Splits(d, lines, tail)
    requires forall k :: 0 <= k < |lines| ==> Accepts(lines[k])
    ensures ParseLog(d).Parsed? && |ParseLog(d).recs| == |lines| && ParseLog(d).size == |JoinLines(lines)|
    ensures forall k :: 0 <= k < |lines| ==> DecodeRecord(lines[k]) == Some(ParseLog(d).recs[k])
    decreases |lines|
  {
    hide DecodeRecord, ReadLine, Accepts, Refuses;
    if lines == [] {
      assert d == tail;
    } else {
      FirstLine(lines, tail);
      LineIsRead(lines[0]);
      GoodLog(JoinLines(lines[1..]) + tail, lines[1..], tail);
    }
  }

  /** Otherwise the parse stops at the first line that is not good and says which test it failed. */
  lemma {:induction false} BadLog(d: bytes, lines: seq<bytes>, tail: bytes, n: nat)
    requires Splits(d, lines, tail) && n < |lines| && !Accepts(lines[n])
    requires forall k :: 0 <= k < n ==> Accepts(lines[k])
    ensures ParseLog(d).Corrupt? && ParseLog(d).line == n + 1 && Refuses(lines[n], ParseLog(d).fault)
    decreases n
  {
    hide DecodeRecord, ReadLine, Accepts, Refuses;
    FirstLine(lines, tail);
    LineIsRead(lines[0]);
    if n > 0 {
      BadLog(JoinLines(lines[1..]) + tail, lines[1..], tail, n - 1);
    }
  }

  lemma FirstBad(lines: seq<bytes>) returns (n: nat)
    ensures n <= |lines| && (forall k :: 0 <= k < n ==> Accepts(lines[k]))
    ensures n < |lines| ==> !Accepts(lines[n])
  {
    hide Accepts;
    n := 0;
    while n < |lines| && Accepts(lines[n])
      invariant n <= |lines| && forall k :: 0 <= k < n ==> Accepts(lines[k])
    {
      n := n + 1;
    }
  }

  /**
   What replay makes of any file: all its records in order if every complete line decodes to a
   record with a valid name and, for a set, a document; else the first bad line and its fault.
   */
  lemma ParseMeans(d: bytes, lines: seq<bytes>, tail: bytes)
    requires Splits(d, lines, tail)
    ensures ParseLog(d).Parsed? <==> forall k :: 0 <= k < |lines| ==> Accepts(lines[k])
    ensures
      match ParseLog(d)
      case Parsed(rs, size) =>
        && |rs| == |lines| && size + |tail| == |d|
        && forall k :: 0 <= k < |lines| ==> DecodeRecord(lines[k]) == Some(rs[k])
      case Corrupt(n, fault) =>
        && 1 <= n <= |lines| && !Accepts(lines[n - 1]) && Refuses(lines[n - 1], fault)
        && forall k :: 0 <= k < n - 1 ==> Accepts(lines[k])
  {
    hide DecodeRecord, ParseLog, Accepts, Refuses;
    var n := FirstBad(lines);
    if n == |lines| {
      GoodLog(d, lines, tail);
    } else {
      BadLog(d, lines, tail, n);
    }
  }

  /** `d` is the encoding of `rs` followed by a torn tail. */
  predicate Shape(d: bytes, rs: seq<Record>) {
    && EncodeLog(rs) <= d
    && '\n' !in d[|EncodeLog(rs)|..]
  }

  lemma LoggableLine(r: Record)
    requires Loggable(r)
    ensures '\n' !in EncodeRecord(r)
    ensures Newlines(EncodeRecord(r)) == 0
  {
    RecordHasNoNewline(r);
    NoNewlines(EncodeRecord(r));
  }

  lemma ParseFirst(r: Record, x: bytes)
    requires Loggable(r)
    ensures ParseLog(EncodeRecord(r) + ("\n" + x)) == Prepend([r], |EncodeRecord(r)| + 1, ParseLog(x))
  {
    hide EncodeRecord, DecodeRecord, ValidName, ValidStrings;
    var line := EncodeRecord(r);
    var d := line + ("\n" + x);
    RecordHasNoNewline(r);
    LineEndAt(line, x);
    RecordRoundTrip(r);
    assert d[..|line|] == line && d[|line| + 1..] == x;
  }

  lemma ShapeCons(r: Record, x: bytes, rs: seq<Record>)
    ensures Shape(EncodeRecord(r) + ("\n" + x), [r] + rs) <==> Shape(x, rs)
  {
    hide EncodeRecord;
    var line := EncodeRecord(r);
    var d := line + ("\n" + x);
    EncodeFirst([r] + rs);
    assert ([r] + rs)[1..] == rs;
    var enc := EncodeLog(rs);
    assert line + ("\n" + enc) == (line + "\n") + enc && d == (line + "\n") + x;
    if enc <= x {
      assert x == enc + x[|enc|..];
      assert d == (line + "\n") + enc + x[|enc|..];
      assert d[|line| + 1 + |enc|..] == x[|enc|..];
    }
    if EncodeLog([r] + rs) <= d {
      assert x == d[|line| + 1..];
      assert enc == EncodeLog([r] + rs)[|line| + 1..];
      assert x[..|enc|] == d[|line| + 1..|line| + 1 + |enc|] == enc;
    }
  }

  lemma SplitLine(d: bytes, line: bytes, more: bytes) returns (x: bytes)
    requires d <= line + ("\n" + more) && |d| > |line|
    ensures d == line + ("\n" + x) && x <= more && |x| < |d|
  {
    x := d[|line| + 1..];
    var whole := line + ("\n" + more);
    assert d == whole[..|d|];
    assert d[..|line|] == line && d[|line|] == '\n';
    assert whole[|line| + 1..] == more;
    assert x == more[..|x|];
  }

  /** Replay reads back exactly the records whose newline is in the file. */
  lemma {:induction false} ParseShape(d: bytes, rs: seq<Record>)
    requires AllLoggable(rs) && Shape(d, rs)
    ensures ParseLog(d) == Parsed(rs, |EncodeLog(rs)|)
    decreases |rs|
  {
    hide EncodeRecord, Loggable, ReadLine;
    if rs == [] {
      assert d[0..] == d;
    } else {
      EncodeFirst(rs);
      var line := EncodeRecord(rs[0]);
      var tail := d[|EncodeLog(rs)|..];
      assert d == EncodeLog(rs) + tail == line + ("\n" + (EncodeLog(rs[1..]) + tail));
      var x := SplitLine(d, line, EncodeLog(rs[1..]) + tail);
      assert [rs[0]] + rs[1..] == rs;
      ShapeCons(rs[0], x, rs[1..]);
      ParseFirst(rs[0], x);
      ParseShape(x, rs[1..]);
    }
  }

  /** Any byte prefix of a log is the encoding of the records whose newline survived, and a torn tail. */
  lemma {:induction false} PrefixShape(d: bytes, rs: seq<Record>, tail: bytes)
    requires AllLoggable(rs) && '\n' !in tail && d <= EncodeLog(rs) + tail
    ensures Newlines(d) <= |rs| && Shape(d, rs[..Newlines(d)])
    decreases |rs|
  {
    hide EncodeRecord, Loggable, ReadLine;
    if rs == [] {
      assert d == tail[..|d|];
      NoNewlines(d);
      assert rs[..0] == [] && d[0..] == d;
    } else {
      EncodeFirst(rs);
      var line := EncodeRecord(rs[0]);
      LoggableLine(rs[0]);
      var more := EncodeLog(rs[1..]) + tail;
      assert EncodeLog(rs) + tail == line + ("\n" + more);
      if |d| <= |line| {
        assert d == line[..|d|];
        NoNewlines(d);
        assert rs[..0] == [] && d[0..] == d;
      } else {
        var x := SplitLine(d, line, more);
        PrefixShape(x, rs[1..], tail);
        NewlinesConcat(line, "\n" + x);
        assert ("\n" + x)[1..] == x;
        var k := Newlines(x);
        assert rs[..k + 1] == [rs[0]] + rs[1..][..k];
        ShapeCons(rs[0], x, rs[1..][..k]);
      }
    }
  }

  /** A log torn at any byte is read as the records whose newline survived, up to their exact length. */
  lemma TornTail(rs: seq<Record>, cut: nat)
    requires AllLoggable(rs) && cut <= |EncodeLog(rs)|
    ensures
      var d := EncodeLog(rs)[..cut];
      var k := Newlines(d);
      k <= |rs| && ParseLog(d) == Parsed(rs[..k], |EncodeLog(rs[..k])|)
  {
    var d := EncodeLog(rs)[..cut];
    assert d <= EncodeLog(rs) + [];
    PrefixShape(d, rs, []);
    ParseShape(d, rs[..Newlines(d)]);
  }

  /** Cutting the torn tail off means later appends are never glued to it. */
  lemma NoGluing(rs: seq<Record>, cut: nat, more: seq<Record>)
    requires AllLoggable(rs) && AllLoggable(more) && cut <= |EncodeLog(rs)|
    ensures
      var d := EncodeLog(rs)[..cut];
      var p := ParseLog(d);
      && p.Parsed? && p.size <= |d| && '\n' !in d[p.size..]
      && ParseLog(d[..p.size] + EncodeLog(more)) == Parsed(p.recs + more, p.size + |EncodeLog(more)|)
  {
    hide EncodeRecord, Loggable, ReadLine;
    var d := EncodeLog(rs)[..cut];
    TornTail(rs, cut);
    var kept := rs[..Newlines(d)];
    assert d <= EncodeLog(rs) + [];
    PrefixShape(d, rs, []);
    EncodeConcat(kept, more);
    var whole := EncodeLog(kept + more);
    assert d[..|EncodeLog(kept)|] + EncodeLog(more) == whole;
    assert whole[|whole|..] == [];
    ParseShape(whole, kept + more);
  }

  lemma {:induction false} NewlinesAfterLine(d: bytes)
    requires LineEnd(d) < |d|
    ensures Newlines(d) == 1 + Newlines(d[LineEnd(d) + 1..])
  {
    if d[0] != '\n' {
      NewlinesAfterLine(d[1..]);
      assert d[1..][LineEnd(d[1..]) + 1..] == d[LineEnd(d) + 1..];
    }
  }

  /** Whatever the file holds, a successful parse stops just after its last newline. */
  lemma {:induction false} ParseSize(d: bytes)
    requires ParseLog(d).Parsed?
    ensures ParseLog(d).size <= |d| && '\n' !in d[ParseLog(d).size..]
    ensures ParseLog(d).size > 0 ==> d[ParseLog(d).size - 1] == '\n'
    ensures |ParseLog(d).recs| == Newlines(d)
    decreases |d|
  {
    hide ReadLine;
    var i := LineEnd(d);
    if i == |d| {
      assert d[..i] == d && d[0..] == d;
      NoNewlines(d);
    } else {
      var x := d[i + 1..];
      ParseSize(x);
      NewlinesAfterLine(d);
      var n := ParseLog(x).size;
      assert ParseLog(d).size == i + 1 + n;
      assert d[i + 1 + n..] == x[n..];
      assert n > 0 ==> d[i + n] == x[n - 1];
    }
  }

  lemma {:induction false} LineEndOfPrefix(d: bytes, n: nat)
    requires LineEnd(d) < n <= |d|
    ensures LineEnd(d[..n]) == LineEnd(d)
    decreases |d|
  {
    assert d[..n][0] == d[0];
    if d[0] != '\n' {
      assert d[1..][..n - 1] == d[..n][1..];
      LineEndOfPrefix(d[1..], n - 1);
    }
  }

  /** Cutting the torn tail off a log does not change what is read from it. */
  lemma {:induction false} CutParse(d: bytes)
    requires ParseLog(d).Parsed? && ParseLog(d).size <= |d|
    ensures ParseLog(d[..ParseLog(d).size]) == ParseLog(d)
    decreases |d|
  {
    hide ReadLine;
    var i, n := LineEnd(d), ParseLog(d).size;
    if i < |d| {
      var x := d[i + 1..];
      var cut := d[..n];
      CutParse(x);
      LineEndOfPrefix(d, n);
      assert cut[..i] == d[..i];
      assert cut[i + 1..] == x[..n - i - 1];
    }
  }
}
