/**
 What the log's text is, said without the functions that read it: valid UTF-8 is encoded scalar
 values, a string body is spelled-out characters, and a record line is one fixed layout.
 */
module Grammar {
  import opened Basics
  import opened Records
  import opened Codec

  // ----- UTF-8 -----

  predicate AllScalars(vs: seq<int>) {
    forall i :: 0 <= i < |vs| ==> IsScalar(vs[i])
  }

  function EncodeScalars(vs: seq<int>): bytes
    requires AllScalars(vs)
  {
    if vs == [] then [] else EncodeScalar(vs[0]) + EncodeScalars(vs[1..])
  }

  /** Every scalar value is read in full, whatever follows it. */
  lemma ScalarIsRune(v: int, rest: bytes)
    requires IsScalar(v)
    ensures RuneSize(EncodeScalar(v) + rest) == |EncodeScalar(v)|
  {}

  lemma Sextet(a: nat, b: nat)
    requires b < 0x40
    ensures (a * 0x40 + b) / 0x40 == a && (a * 0x40 + b) % 0x40 == b
  {}

  /** The six-bit digits of a number are the bytes of its UTF-8 form after the first. */
  lemma Sextets(a: nat, b: nat, c: nat, d: nat)
    requires b < 0x40 && c < 0x40 && d < 0x40
    ensures
      var v := ((a * 0x40 + b) * 0x40 + c) * 0x40 + d;
      && v / 0x40000 == a && v / 0x1000 == a * 0x40 + b && v / 0x40 == (a * 0x40 + b) * 0x40 + c
      && v / 0x1000 % 0x40 == b && v / 0x40 % 0x40 == c && v % 0x40 == d
  {
    Sextet(a, b);
    Sextet(a * 0x40 + b, c);
    Sextet((a * 0x40 + b) * 0x40 + c, d);
  }

  /** A well-formed sequence at the front of `s` is some scalar value's. */
  lemma RuneIsScalar(s: bytes) returns (v: int)
    requires s != [] && RuneSize(s) > 0
    ensures IsScalar(v) && s[..RuneSize(s)] == EncodeScalar(v)
  {
    var b := s[0] as int;
    if b < 0x80 {
      v := b;
    } else if b <= 0xDF {
      v := (b - 0xC0) * 0x40 + (s[1] as int - 0x80);
      Sextet(b - 0xC0, s[1] as int - 0x80);
    } else if b <= 0xEF {
      v := ThreeBytes(s);
    } else {
      v := FourBytes(s);
    }
  }

  lemma ThreeBytes(s: bytes) returns (v: int)
    requires s != [] && RuneSize(s) == 3
    ensures IsScalar(v) && s[..3] == EncodeScalar(v)
  {
    var b, c, d := s[0] as int - 0xE0, s[1] as int - 0x80, s[2] as int - 0x80;
    v := (b * 0x40 + c) * 0x40 + d;
    Sextet(b, c);
    Sextet(b * 0x40 + c, d);
    assert 0x800 <= v < 0x10000;
    assert v / 0x1000 == b;
  }

  lemma FourBytes(s: bytes) returns (v: int)
    requires s != [] && RuneSize(s) == 4
    ensures IsScalar(v) && s[..4] == EncodeScalar(v)
  {
    var a, b, c, d := s[0] as int - 0xF0, s[1] as int - 0x80, s[2] as int - 0x80, s[3] as int - 0x80;
    v := ((a * 0x40 + b) * 0x40 + c) * 0x40 + d;
    Sextets(a, b, c, d);
    assert 0x10000 <= v <= 0x10FFFF;
  }

  lemma {:induction false} ScalarsAreValid(vs: seq<int>)
    requires AllScalars(vs)
    ensures ValidUtf8(EncodeScalars(vs))
  {
    hide EncodeScalar, RuneSize;
    if vs != [] {
      var rest := EncodeScalars(vs[1..]);
      ScalarIsRune(vs[0], rest);
      ScalarsAreValid(vs[1..]);
      assert (EncodeScalar(vs[0]) + rest)[|EncodeScalar(vs[0])|..] == rest;
    }
  }

  lemma {:induction false} ValidIsScalars(s: bytes) returns (vs: seq<int>)
    requires ValidUtf8(s)
    ensures AllScalars(vs) && s == EncodeScalars(vs)
  {
    hide EncodeScalar, RuneSize;
    if s == [] {
      vs := [];
    } else {
      var v := RuneIsScalar(s);
      var more := ValidIsScalars(s[RuneSize(s)..]);
      vs := [v] + more;
      assert vs[1..] == more;
    }
  }

  /** A byte string is valid UTF-8 exactly when it is a sequence of encoded scalar values. */
  lemma Utf8Means(s: bytes)
    ensures ValidUtf8(s) <==> exists vs :: AllScalars(vs) && s == EncodeScalars(vs)
  {
    if ValidUtf8(s) {
      var vs := ValidIsScalars(s);
    } else {
      forall vs | AllScalars(vs) ensures s != EncodeScalars(vs) {
        ScalarsAreValid(vs);
      }
    }
  }

  // ----- Strings -----

  /** `c` is the hexadecimal digit, in either case, of value `n`. */
  predicate IsDigit(c: byte, n: nat) {
    n < 16 && (c == "0123456789abcdef"[n] || c == "0123456789ABCDEF"[n])
  }

  lemma HexValueMeans(c: byte, n: nat)
    ensures HexValue(c) == Some(n) <==> IsDigit(c, n)
  {}

  function Base16(w: nat, x: nat, y: nat, z: nat): nat {
    0x1000 * w + 0x100 * x + 0x10 * y + z
  }

  lemma Base16Unique(w: nat, x: nat, y: nat, z: nat, w': nat, x': nat, y': nat, z': nat)
    requires x < 0x10 && y < 0x10 && z < 0x10 && x' < 0x10 && y' < 0x10 && z' < 0x10
    requires Base16(w, x, y, z) == Base16(w', x', y', z')
    ensures w == w' && x == x' && y == y' && z == z'
  {
    assert w == w';
    assert x == x';
  }

  /** Four digits spell a number when they are its base-16 digits, most significant first. */
  lemma Hex4Means(a: byte, b: byte, c: byte, d: byte, w: nat, x: nat, y: nat, z: nat)
    requires w < 0x10 && x < 0x10 && y < 0x10 && z < 0x10
    ensures
      Hex4(a, b, c, d) == Some(Base16(w, x, y, z)) <==>
        IsDigit(a, w) && IsDigit(b, x) && IsDigit(c, y) && IsDigit(d, z)
  {
    hide IsDigit, HexValue;
    HexValueMeans(a, w);
    HexValueMeans(b, x);
    HexValueMeans(c, y);
    HexValueMeans(d, z);
    if Hex4(a, b, c, d) == Some(Base16(w, x, y, z)) {
      Base16Unique(w, x, y, z, HexValue(a).value, HexValue(b).value, HexValue(c).value, HexValue(d).value);
    }
  }

  /** One character of a JSON string as it is written, and the bytes it stands for. */
  datatype Char = Char(text: bytes, value: bytes)

  /** A byte that stands for itself: not a control byte, a quote or a backslash. */
  predicate Plain(c: Char) {
    |c.text| == 1 && c.text[0] as int >= 0x20 && c.text[0] != '"' && c.text[0] != '\\' && c.value == c.text
  }

  /** The two-byte escapes of section 7 of RFC 8259. */
  predicate ShortEscape(c: Char) {
    c in {
      Char("\\\"", "\""), Char("\\\\", "\\"), Char("\\/", "/"), Char("\\b", [8 as char]),
      Char("\\f", [12 as char]), Char("\\n", [10 as char]), Char("\\r", [13 as char]), Char("\\t", [9 as char])
    }
  }

  /** Backslash, `u` and the four digits of a scalar value. */
  ghost predicate UnicodeEscape(c: Char) {
    && |c.text| == 6 && c.text[..2] == "\\u"
    && exists w, x, y, z ::
         && IsDigit(c.text[2], w) && IsDigit(c.text[3], x) && IsDigit(c.text[4], y) && IsDigit(c.text[5], z)
         && IsScalar(Base16(w, x, y, z)) && c.value == EncodeScalar(Base16(w, x, y, z))
  }

  ghost predicate Spelled(cs: seq<Char>) {
    forall i :: 0 <= i < |cs| ==> Plain(cs[i]) || ShortEscape(cs[i]) || UnicodeEscape(cs[i])
  }

  function Texts(cs: seq<Char>): bytes {
    if cs == [] then [] else cs[0].text + Texts(cs[1..])
  }

  function Values(cs: seq<Char>): bytes {
    if cs == [] then [] else cs[0].value + Values(cs[1..])
  }

  lemma ShortIsRead(c: Char, x: bytes)
    requires ShortEscape(c)
    ensures Unescape(c.text + x) == Before(c.value, Unescape(x))
  {
    assert (c.text + x)[2..] == x;
    assert ReadEscape(c.text + x) == Some((c.value, 2));
  }

  lemma HexIsRead(s: bytes, v: int)
    requires |s| >= 6 && s[..2] == "\\u" && Hex4(s[2], s[3], s[4], s[5]) == Some(v) && IsScalar(v)
    ensures s[0] == '\\' && ReadEscape(s) == Some((EncodeScalar(v), 6))
  {
    hide Hex4, EncodeScalar;
    assert s[0] == s[..2][0] && s[1] == s[..2][1];
  }

  lemma UnicodeIsRead(c: Char, x: bytes)
    requires UnicodeEscape(c)
    ensures Unescape(c.text + x) == Before(c.value, Unescape(x))
  {
    hide IsDigit, HexValue, Hex4, EncodeScalar, ReadEscape, Base16, IsScalar;
    var t := c.text;
    var p: nat, q: nat, r: nat, s: nat :|
      && IsDigit(t[2], p) && IsDigit(t[3], q) && IsDigit(t[4], r) && IsDigit(t[5], s)
      && IsScalar(Base16(p, q, r, s)) && c.value == EncodeScalar(Base16(p, q, r, s));
    assert p < 16 && q < 16 && r < 16 && s < 16 by {
      HexValueMeans(t[2], p);
      HexValueMeans(t[3], q);
      HexValueMeans(t[4], r);
      HexValueMeans(t[5], s);
    }
    Hex4Means(t[2], t[3], t[4], t[5], p, q, r, s);
    assert (t + x)[..2] == t[..2] && (t + x)[6..] == x;
    HexIsRead(t + x, Base16(p, q, r, s));
  }

  lemma CharIsRead(c: Char, x: bytes)
    requires Plain(c) || ShortEscape(c) || UnicodeEscape(c)
    ensures Unescape(c.text + x) == Before(c.value, Unescape(x))
  {
    hide ShortEscape, UnicodeEscape, ReadEscape;
    if ShortEscape(c) {
      ShortIsRead(c, x);
    } else if UnicodeEscape(c) {
      UnicodeIsRead(c, x);
    } else {
      assert (c.text + x)[1..] == x;
      assert c.value == [(c.text + x)[0]];
    }
  }

  lemma {:induction false} SpelledIsRead(cs: seq<Char>, rest: bytes)
    requires Spelled(cs)
    ensures Unescape(Texts(cs) + ("\"" + rest)) == Some((Values(cs), rest))
  {
    hide Plain, ShortEscape, UnicodeEscape, ReadEscape;
    var tail := "\"" + rest;
    if cs == [] {
      assert Texts(cs) + tail == tail;
    } else {
      assert Texts(cs) + tail == cs[0].text + (Texts(cs[1..]) + tail);
      CharIsRead(cs[0], Texts(cs[1..]) + tail);
      SpelledIsRead(cs[1..], rest);
    }
  }

  lemma HexIsUnicode(s: bytes) returns (c: Char)
    requires |s| >= 6 && s[..2] == "\\u" && ReadEscape(s).Some?
    ensures c == Char(s[..6], ReadEscape(s).value.0) && UnicodeEscape(c)
  {
    hide IsDigit, HexValue;
    c := Char(s[..6], ReadEscape(s).value.0);
    var p, q, r, t := HexValue(s[2]).value, HexValue(s[3]).value, HexValue(s[4]).value, HexValue(s[5]).value;
    HexValueMeans(s[2], p);
    HexValueMeans(s[3], q);
    HexValueMeans(s[4], r);
    HexValueMeans(s[5], t);
    assert Hex4(s[2], s[3], s[4], s[5]) == Some(Base16(p, q, r, t));
    assert c.text[..2] == s[..2];
  }

  /** The character at the front of a string body that is read to its end. */
  lemma FirstChar(s: bytes) returns (c: Char)
    requires s != [] && s[0] != '"' && Unescape(s).Some?
    ensures Plain(c) || ShortEscape(c) || UnicodeEscape(c)
    ensures c.text != [] && c.text <= s
    ensures Unescape(s) == Before(c.value, Unescape(s[|c.text|..]))
  {
    hide UnicodeEscape, Hex4;
    if s[0] != '\\' {
      c := Char([s[0]], [s[0]]);
    } else if s[1] == 'u' {
      c := HexIsUnicode(s);
    } else {
      c := Char(s[..2], ReadEscape(s).value.0);
      assert s[..2] == ['\\', s[1]];
    }
  }

  lemma {:induction false} ReadIsSpelled(s: bytes) returns (cs: seq<Char>)
    requires Unescape(s).Some?
    ensures Spelled(cs)
    ensures s == Texts(cs) + ("\"" + Unescape(s).value.1) && Unescape(s).value.0 == Values(cs)
    decreases |s|
  {
    hide Plain, ShortEscape, UnicodeEscape, ReadEscape;
    if s[0] == '"' {
      cs := [];
    } else {
      var c := FirstChar(s);
      var more := ReadIsSpelled(s[|c.text|..]);
      cs := [c] + more;
      assert cs[1..] == more;
      assert s == c.text + s[|c.text|..];
    }
  }

  /** A string body is read exactly when it is spelled-out characters up to the first bare quote. */
  lemma StringMeans(s: bytes, v: bytes, rest: bytes)
    ensures
      Unescape(s) == Some((v, rest)) <==>
        exists cs :: Spelled(cs) && s == Texts(cs) + ("\"" + rest) && v == Values(cs)
  {
    if Unescape(s) == Some((v, rest)) {
      var cs := ReadIsSpelled(s);
    } else {
      forall cs | Spelled(cs) && s == Texts(cs) + ("\"" + rest) ensures v != Values(cs) {
        SpelledIsRead(cs, rest);
      }
    }
  }

  // ----- Records -----

  /** `s` is a string body of value `v` with its closing quote. */
  ghost predicate Quoted(s: bytes, v: bytes) {
    exists cs :: Spelled(cs) && s == Texts(cs) + "\"" && v == Values(cs)
  }

  /** The document and the closing brace; an empty document is left out. */
  ghost predicate DocPart(s: bytes, doc: bytes) {
    s == (if doc == [] then "}" else ",\"doc\":" + (doc + "}"))
  }

  /** The id, which may be left out when it is empty, and what follows it. */
  ghost predicate IdPart(s: bytes, id: bytes, rest: bytes) {
    (id == [] && s == rest) || exists q :: Quoted(q, id) && s == ",\"id\":\"" + (q + rest)
  }

  /** The line of a record: operation, collection, id and document, in this order. */
  ghost predicate RecordLine(s: bytes, r: Record) {
    exists op: bytes, coll: bytes, id: bytes, doc: bytes ::
      && Quoted(op, r.op) && Quoted(coll, r.coll) && IdPart(id, r.id, doc) && DocPart(doc, r.doc)
      && s == "{\"op\":\"" + (op + (",\"coll\":\"" + (coll + id)))
  }

  lemma QuotedIsRead(q: bytes, v: bytes, rest: bytes)
    requires Quoted(q, v)
    ensures Unescape(q + rest) == Some((v, rest))
  {
    hide Spelled, Texts, Values, Unescape;
    var cs: seq<Char> :| Spelled(cs) && q == Texts(cs) + "\"" && v == Values(cs);
    assert q + rest == Texts(cs) + ("\"" + rest);
    SpelledIsRead(cs, rest);
  }

  lemma ReadIsQuoted(s: bytes) returns (q: bytes)
    requires Unescape(s).Some?
    ensures Quoted(q, Unescape(s).value.0) && s == q + Unescape(s).value.1
  {
    hide Spelled, Texts, Values, Unescape;
    var cs := ReadIsSpelled(s);
    q := Texts(cs) + "\"";
    assert s == q + Unescape(s).value.1;
  }

  lemma DocMeans(s: bytes, doc: bytes)
    ensures DecodeDoc(s) == Some(doc) <==> DocPart(s, doc)
  {
    if DecodeDoc(s) == Some(doc) && s != "}" {
      var t := s[|DOC_KEY|..];
      assert s == DOC_KEY + t && t == doc + "}";
    }
    if DocPart(s, doc) && doc != [] {
      SkipPrefix(DOC_KEY, doc + "}");
      assert (doc + "}")[..|doc|] == doc;
    }
  }

  lemma IdIsRead(s: bytes, id: bytes, rest: bytes, doc: bytes)
    requires IdPart(s, id, rest) && DocPart(rest, doc)
    ensures DecodeIdDoc(s) == Some((id, doc))
  {
    hide Quoted, DecodeDoc;
    DocMeans(rest, doc);
    if id == [] && s == rest {
      assert |s| < 3 || s[2] == DOC_KEY[2] != ID_KEY[2];
      assert Skip(ID_KEY, s) == None;
    } else {
      var q :| Quoted(q, id) && s == ",\"id\":\"" + (q + rest);
      SkipPrefix(ID_KEY, q + rest);
      QuotedIsRead(q, id, rest);
    }
  }

  lemma ReadIsId(s: bytes, id: bytes, doc: bytes) returns (rest: bytes)
    requires DecodeIdDoc(s) == Some((id, doc))
    ensures IdPart(s, id, rest) && DocPart(rest, doc)
  {
    hide Quoted, DecodeDoc;
    match Skip(ID_KEY, s)
    case None =>
      rest := s;
      DocMeans(rest, doc);
    case Some(t) =>
      rest := Unescape(t).value.1;
      var q := ReadIsQuoted(t);
      assert s == ID_KEY + t;
      DocMeans(rest, doc);
  }

  lemma LineIsRead(s: bytes, r: Record)
    requires RecordLine(s, r)
    ensures DecodeRecord(s) == Some(r)
  {
    hide Quoted, IdPart, DocPart, DecodeIdDoc;
    var op: bytes, coll: bytes, id: bytes, doc: bytes :|
      && Quoted(op, r.op) && Quoted(coll, r.coll) && IdPart(id, r.id, doc) && DocPart(doc, r.doc)
      && s == "{\"op\":\"" + (op + (",\"coll\":\"" + (coll + id)));
    SkipPrefix(OP_KEY, op + (",\"coll\":\"" + (coll + id)));
    QuotedIsRead(op, r.op, ",\"coll\":\"" + (coll + id));
    SkipPrefix(COLL_KEY, coll + id);
    QuotedIsRead(coll, r.coll, id);
    IdIsRead(id, r.id, doc, r.doc);
  }

  lemma ReadIsLine(s: bytes, r: Record)
    requires DecodeRecord(s) == Some(r)
    ensures RecordLine(s, r)
  {
    hide Quoted, IdPart, DocPart, DecodeIdDoc;
    var t := Skip(OP_KEY, s).value;
    var u := Unescape(t).value.1;
    var v := Skip(COLL_KEY, u).value;
    var w := Unescape(v).value.1;
    var op := ReadIsQuoted(t);
    var coll := ReadIsQuoted(v);
    var rest := ReadIsId(w, r.id, r.doc);
    assert s == OP_KEY + t && u == COLL_KEY + v;
    assert s == "{\"op\":\"" + (op + (",\"coll\":\"" + (coll + w)));
  }

  /** A line decodes exactly when it has the record's layout. */
  lemma LineMeans(s: bytes, r: Record)
    ensures DecodeRecord(s) == Some(r) <==> RecordLine(s, r)
  {
    hide RecordLine, DecodeRecord;
    if RecordLine(s, r) {
      LineIsRead(s, r);
    } else if DecodeRecord(s) == Some(r) {
      ReadIsLine(s, r);
    }
  }

  /** A string the encoder copies as it is. */
  predicate Unescaped(s: bytes) {
    forall i :: 0 <= i < |s| ==> Safe(s[i]) && s[i] as int < 0x80 && s[i] != '"' && s[i] != '\\'
  }

  lemma {:induction false} UnescapedIsCopied(s: bytes)
    requires Unescaped(s)
    ensures Escape(s) == s
  {
    if s != [] {
      UnescapedIsCopied(s[1..]);
    }
  }

  /** The encoder writes that layout, leaving out an empty id and an empty document. */
  lemma EncodedLayout(r: Record)
    requires Unescaped(r.op) && Unescaped(r.coll) && Unescaped(r.id)
    ensures
      var doc := (if r.doc == [] then "" else ",\"doc\":" + r.doc) + "}";
      var id := if r.id == [] then "" else ",\"id\":\"" + (r.id + "\"");
      EncodeRecord(r) == "{\"op\":\"" + (r.op + ("\"" + (",\"coll\":\"" + (r.coll + ("\"" + (id + doc))))))
  {
    hide Escape, Unescaped;
    UnescapedIsCopied(r.op);
    UnescapedIsCopied(r.coll);
    UnescapedIsCopied(r.id);
  }
}
