/**
 The bytes of one log record: a JSON object whose strings are escaped the way Go's
 encoder escapes them, so that a record never contains a raw newline.
 Documents are opaque: they are copied between `"doc":` and the closing brace.
 */
module Codec {
  import opened Basics
  import opened Records

  // ----- UTF-8 (the Unicode Standard, Table 3-7) -----

  predicate Continuation(c: byte) { 0x80 <= c as int <= 0xBF }

  /** Length of the well-formed UTF-8 sequence at the front of `s`, 0 if there is none. */
  function RuneSize(s: bytes): (n: nat)
    requires s != []
    ensures n <= |s|
    ensures s[0] as int < 0x80 <==> n == 1
    ensures forall i :: 0 <= i < n && n > 1 ==> s[i] as int >= 0x80
  {
    var b := s[0] as int;
    if b < 0x80 then 1
    else if 0xC2 <= b <= 0xDF then
      if |s| >= 2 && Continuation(s[1]) then 2 else 0
    else if 0xE0 <= b <= 0xEF then
      var lo := if b == 0xE0 then 0xA0 else 0x80;
      var hi := if b == 0xED then 0x9F else 0xBF;
      if |s| >= 3 && lo <= s[1] as int <= hi && Continuation(s[2]) then 3 else 0
    else if 0xF0 <= b <= 0xF4 then
      var lo := if b == 0xF0 then 0x90 else 0x80;
      var hi := if b == 0xF4 then 0x8F else 0xBF;
      if |s| >= 4 && lo <= s[1] as int <= hi && Continuation(s[2]) && Continuation(s[3]) then 4 else 0
    else 0
  }

  predicate ValidUtf8(s: bytes) {
    s == [] || (RuneSize(s) > 0 && ValidUtf8(s[RuneSize(s)..]))
  }

  /** A Unicode scalar value: any code point that is not a surrogate. */
  predicate IsScalar(v: int) {
    0 <= v <= 0x10FFFF && !(0xD800 <= v <= 0xDFFF)
  }

  /** The UTF-8 form of a scalar value, one to four bytes. */
  function EncodeScalar(v: int): (s: bytes)
    requires IsScalar(v)
    ensures 1 <= |s| <= 4
  {
    if v < 0x80 then [v as char]
    else if v < 0x800 then [(0xC0 + v / 0x40) as char, Low6(v)]
    else if v < 0x10000 then [(0xE0 + v / 0x1000) as char, Low6(v / 0x40), Low6(v)]
    else [(0xF0 + v / 0x40000) as char, Low6(v / 0x1000), Low6(v / 0x40), Low6(v)]
  }

  /** The continuation byte that carries the low six bits of `v`. */
  function Low6(v: nat): byte { (0x80 + v % 0x40) as char }

  lemma {:induction false} AsciiIsUtf8(s: bytes)
    requires forall i :: 0 <= i < |s| ==> s[i] as int < 0x80
    ensures ValidUtf8(s)
  {
    if s != [] {
      AsciiIsUtf8(s[1..]);
    }
  }

  function Bytes3(a: int, b: int, c: int): bytes
    requires 0 <= a < 256 && 0 <= b < 256 && 0 <= c < 256
  {
    [a as char, b as char, c as char]
  }

  const REPLACEMENT: bytes := Bytes3(0xEF, 0xBF, 0xBD) // U+FFFD
  const LINE_SEP: bytes := Bytes3(0xE2, 0x80, 0xA8)    // U+2028
  const PARA_SEP: bytes := Bytes3(0xE2, 0x80, 0xA9)    // U+2029

  /** How many bytes Go's decoder consumes: one when the sequence is malformed. */
  function Width(s: bytes): (n: nat)
    requires s != []
    ensures 1 <= n <= |s|
  {
    if RuneSize(s) == 0 then 1 else RuneSize(s)
  }

  function SanitizeHead(s: bytes): bytes
    requires s != []
  {
    if RuneSize(s) == 0 then REPLACEMENT else s[..RuneSize(s)]
  }

  /** `s` with every byte that is not part of valid UTF-8 replaced by U+FFFD. */
  function Sanitize(s: bytes): bytes {
    if s == [] then [] else SanitizeHead(s) + Sanitize(s[Width(s)..])
  }

  lemma {:induction false} SanitizeGrows(s: bytes)
    ensures |Sanitize(s)| >= |s|
    ensures !ValidUtf8(s) ==> |Sanitize(s)| > |s|
  {
    if s != [] {
      SanitizeGrows(s[Width(s)..]);
    }
  }

  lemma {:induction false} SanitizeValid(s: bytes)
    requires ValidUtf8(s)
    ensures Sanitize(s) == s
  {
    if s != [] {
      SanitizeValid(s[RuneSize(s)..]);
    }
  }

  // ----- JSON strings -----

  function HexDigit(n: int): byte
    requires 0 <= n < 16
  {
    if n < 10 then ('0' as int + n) as char else ('a' as int + n - 10) as char
  }

  const BACKSPACE: byte := 8 as char
  const FORM_FEED: byte := 12 as char
  const NEWLINE: byte := '\n'
  const RETURN: byte := '\r'
  const TAB: byte := '\t'

  function EscapeAscii(c: byte): bytes
    requires c as int < 0x80
  {
    if c == '"' || c == '\\' then ['\\', c]
    else if c == BACKSPACE then "\\b"
    else if c == FORM_FEED then "\\f"
    else if c == '\n' then "\\n"
    else if c == '\r' then "\\r"
    else if c == '\t' then "\\t"
    else if c as int < 0x20 || c == '<' || c == '>' || c == '&' then
      "\\u00" + [HexDigit(c as int / 16), HexDigit(c as int % 16)]
    else [c]
  }

  /** What Go's encoder writes for the first rune, or first malformed byte, of `s`. */
  function EscapeHead(s: bytes): bytes
    requires s != []
  {
    var n := RuneSize(s);
    if n == 0 then "\\ufffd"
    else if n == 1 then EscapeAscii(s[0])
    else if s[..n] == LINE_SEP then "\\u2028"
    else if s[..n] == PARA_SEP then "\\u2029"
    else s[..n]
  }

  /** The body of the JSON string Go's encoder writes for `s`. */
  function Escape(s: bytes): bytes {
    if s == [] then [] else EscapeHead(s) + Escape(s[Width(s)..])
  }

  function HexValue(c: byte): (v: Option<int>)
    ensures v.Some? ==> 0 <= v.value < 16
  {
    if '0' <= c <= '9' then Some(c as int - '0' as int)
    else if 'a' <= c <= 'f' then Some(c as int - 'a' as int + 10)
    else if 'A' <= c <= 'F' then Some(c as int - 'A' as int + 10)
    else None
  }

  function Hex4(a: byte, b: byte, c: byte, d: byte): (v: Option<int>)
    ensures v.Some? ==> 0 <= v.value < 0x10000
  {
    var w, x, y, z := HexValue(a), HexValue(b), HexValue(c), HexValue(d);
    if w.Some? && x.Some? && y.Some? && z.Some? then
      Some(0x1000 * w.value + 0x100 * x.value + 0x10 * y.value + z.value)
    else None
  }

  /** The value of one escape sequence and the number of bytes it takes. */
  function ReadEscape(s: bytes): (r: Option<(bytes, nat)>)
    ensures r.Some? ==> 2 <= r.value.1 <= |s|
  {
    if |s| < 2 then None
    else if s[1] == '"' || s[1] == '\\' || s[1] == '/' then Some(([s[1]], 2))
    else if s[1] == 'b' then Some(([BACKSPACE], 2))
    else if s[1] == 'f' then Some(([FORM_FEED], 2))
    else if s[1] == 'n' then Some(([NEWLINE], 2))
    else if s[1] == 'r' then Some(([RETURN], 2))
    else if s[1] == 't' then Some(([TAB], 2))
    else if s[1] == 'u' && |s| >= 6 then
      match Hex4(s[2], s[3], s[4], s[5])
      case Some(v) => if 0xD800 <= v <= 0xDFFF then None else Some((EncodeScalar(v), 6))
      case None => None
    else None
  }

  function Before(v: bytes, r: Option<(bytes, bytes)>): Option<(bytes, bytes)> {
    match r
    case Some((w, rest)) => Some((v + w, rest))
    case None => None
  }

  /** Reads a string body up to its closing quote; also returns what follows the quote. */
  function Unescape(s: bytes): (r: Option<(bytes, bytes)>)
    ensures r.Some? ==> |r.value.1| < |s|
  {
    if s == [] then None
    else if s[0] == '"' then Some(([], s[1..]))
    else if s[0] == '\\' then
      match ReadEscape(s)
      case Some((v, n)) => Before(v, Unescape(s[n..]))
      case None => None
    else if s[0] as int < 0x20 then None
    else Before([s[0]], Unescape(s[1..]))
  }

  lemma HexRoundTrip(n: int)
    requires 0 <= n < 16
    ensures HexValue(HexDigit(n)) == Some(n)
  {}

  lemma AsciiRoundTrip(c: byte, x: bytes)
    requires c as int < 0x80
    ensures Unescape(EscapeAscii(c) + x) == Before([c], Unescape(x))
  {
    var e := EscapeAscii(c);
    assert (e + x)[|e|..] == x;
    if |e| == 6 {
      HexRoundTrip(c as int / 16);
      HexRoundTrip(c as int % 16);
      assert HexValue('0') == Some(0);
    }
    assert |e| == 1 || ReadEscape(e + x) == Some(([c], |e|));
  }

  lemma UnicodeEscape(e: bytes, v: bytes, x: bytes)
    requires (e, v) in {("\\ufffd", REPLACEMENT), ("\\u2028", LINE_SEP), ("\\u2029", PARA_SEP)}
    ensures Unescape(e + x) == Before(v, Unescape(x))
  {
    assert (e + x)[6..] == x;
    assert HexValue('f') == Some(15) && HexValue('d') == Some(13) && HexValue('0') == Some(0);
    assert HexValue('2') == Some(2) && HexValue('8') == Some(8) && HexValue('9') == Some(9);
    assert EncodeScalar(0xFFFD) == REPLACEMENT;
    assert EncodeScalar(0x2028) == LINE_SEP && EncodeScalar(0x2029) == PARA_SEP;
    assert ReadEscape(e + x) == Some((v, 6));
  }

  lemma {:induction false} HighBytesPass(v: bytes, x: bytes)
    requires forall i :: 0 <= i < |v| ==> v[i] as int >= 0x80
    ensures Unescape(v + x) == Before(v, Unescape(x))
  {
    if v == [] {
      assert v + x == x;
      assert Unescape(x).Some? ==> [] + Unescape(x).value.0 == Unescape(x).value.0;
    } else {
      assert (v + x)[1..] == v[1..] + x;
      HighBytesPass(v[1..], x);
      if Unescape(x).Some? {
        var w := Unescape(x).value.0;
        assert [v[0]] + (v[1..] + w) == v + w;
      }
    }
  }

  lemma HeadRoundTrip(s: bytes, x: bytes)
    requires s != []
    ensures Unescape(EscapeHead(s) + x) == Before(SanitizeHead(s), Unescape(x))
  {
    var n := RuneSize(s);
    if n == 0 {
      UnicodeEscape("\\ufffd", REPLACEMENT, x);
    } else if n == 1 {
      AsciiRoundTrip(s[0], x);
      assert s[..1] == [s[0]];
    } else if s[..n] == LINE_SEP {
      UnicodeEscape("\\u2028", LINE_SEP, x);
    } else if s[..n] == PARA_SEP {
      UnicodeEscape("\\u2029", PARA_SEP, x);
    } else {
      HighBytesPass(s[..n], x);
    }
  }

  /** Decoding what the encoder wrote gives back the string with its invalid bytes replaced. */
  lemma {:induction false} StringRoundTrip(s: bytes, rest: bytes)
    ensures Unescape(Escape(s) + ("\"" + rest)) == Some((Sanitize(s), rest))
  {
    var tail := "\"" + rest;
    if s == [] {
      assert Escape(s) + tail == tail;
    } else {
      var more := s[Width(s)..];
      assert Escape(s) + tail == EscapeHead(s) + (Escape(more) + tail);
      HeadRoundTrip(s, Escape(more) + tail);
      StringRoundTrip(more, rest);
    }
  }

  /** Not a control byte, and none of the three bytes that HTML gives a meaning to. */
  predicate Safe(c: byte) {
    c as int >= 0x20 && c != '<' && c != '>' && c != '&'
  }

  lemma HeadIsSafe(s: bytes)
    requires s != []
    ensures forall i :: 0 <= i < |EscapeHead(s)| ==> Safe(EscapeHead(s)[i])
  {
    var n := RuneSize(s);
    if n > 1 {
      assert forall i :: 0 <= i < n ==> s[..n][i] as int >= 0x80;
    }
  }

  /** Whatever the string, the encoder writes no control byte and no HTML byte for it. */
  lemma {:induction false} EscapeIsSafe(s: bytes)
    ensures forall i :: 0 <= i < |Escape(s)| ==> Safe(Escape(s)[i])
  {
    if s != [] {
      HeadIsSafe(s);
      EscapeIsSafe(s[Width(s)..]);
    }
  }

  lemma EscapeHasNoNewline(s: bytes)
    ensures '\n' !in Escape(s)
  {
    EscapeIsSafe(s);
  }

  // ----- Records -----

  const OP_KEY: bytes := "{\"op\":\""
  const COLL_KEY: bytes := ",\"coll\":\""
  const ID_KEY: bytes := ",\"id\":\""
  const DOC_KEY: bytes := ",\"doc\":"

  /** Everything after the collection name: empty ids and documents are omitted. */
  function EncodeDoc(doc: bytes): bytes {
    (if doc == [] then [] else DOC_KEY + doc) + "}"
  }

  function EncodeIdDoc(id: bytes, doc: bytes): bytes {
    (if id == [] then [] else ID_KEY + (Escape(id) + "\"")) + EncodeDoc(doc)
  }

  function EncodeRecord(r: Record): bytes {
    OP_KEY + (Escape(r.op) + ("\"" + (COLL_KEY + (Escape(r.coll) + ("\"" + EncodeIdDoc(r.id, r.doc))))))
  }

  /** The rest of `s` after the prefix `p`. */
  function Skip(p: bytes, s: bytes): Option<bytes> {
    if |p| <= |s| && s[..|p|] == p then Some(s[|p|..]) else None
  }

  function DecodeDoc(s: bytes): Option<bytes> {
    if s == "}" then Some([])
    else
      match Skip(DOC_KEY, s)
      case Some(t) => if |t| >= 2 && t[|t| - 1] == '}' then Some(t[..|t| - 1]) else None
      case None => None
  }

  function DecodeIdDoc(s: bytes): Option<(bytes, bytes)> {
    match Skip(ID_KEY, s)
    case None =>
      (match DecodeDoc(s)
       case Some(doc) => Some(([], doc))
       case None => None)
    case Some(t) =>
      match Unescape(t)
      case None => None
      case Some((id, u)) =>
        match DecodeDoc(u)
        case Some(doc) => Some((id, doc))
        case None => None
  }

  /** Reads a line in the encoder's layout; None is a syntax error. */
  function DecodeRecord(s: bytes): Option<Record> {
    match Skip(OP_KEY, s)
    case None => None
    case Some(t) =>
      match Unescape(t)
      case None => None
      case Some((op, u)) =>
        match Skip(COLL_KEY, u)
        case None => None
        case Some(v) =>
          match Unescape(v)
          case None => None
          case Some((coll, w)) =>
            match DecodeIdDoc(w)
            case None => None
            case Some((id, doc)) => Some(Record(op, coll, id, doc))
  }

  lemma SkipPrefix(p: bytes, x: bytes)
    ensures Skip(p, p + x) == Some(x)
  {}

  lemma DocRoundTrip(doc: bytes)
    ensures DecodeDoc(EncodeDoc(doc)) == Some(doc)
  {
    if doc != [] {
      assert EncodeDoc(doc) == DOC_KEY + (doc + "}");
      SkipPrefix(DOC_KEY, doc + "}");
      assert (doc + "}")[..|doc|] == doc;
    }
  }

  lemma IdDocRoundTrip(id: bytes, doc: bytes)
    ensures DecodeIdDoc(EncodeIdDoc(id, doc)) == Some((Sanitize(id), doc))
  {
    DocRoundTrip(doc);
    var d := EncodeDoc(doc);
    if id == [] {
      assert EncodeIdDoc(id, doc) == d;
      assert |d| < 3 || d[2] == DOC_KEY[2] != ID_KEY[2];
      assert Skip(ID_KEY, d) == None;
    } else {
      var body := Escape(id) + ("\"" + d);
      assert EncodeIdDoc(id, doc) == ID_KEY + body;
      SkipPrefix(ID_KEY, body);
      StringRoundTrip(id, d);
    }
  }

  lemma RecordDecodes(r: Record)
    ensures DecodeRecord(EncodeRecord(r)) == Some(Record(Sanitize(r.op), Sanitize(r.coll), Sanitize(r.id), r.doc))
  {
    var a := EncodeIdDoc(r.id, r.doc);
    var b := COLL_KEY + (Escape(r.coll) + ("\"" + a));
    SkipPrefix(OP_KEY, Escape(r.op) + ("\"" + b));
    StringRoundTrip(r.op, b);
    SkipPrefix(COLL_KEY, Escape(r.coll) + ("\"" + a));
    StringRoundTrip(r.coll, a);
    IdDocRoundTrip(r.id, r.doc);
  }

  predicate ValidStrings(r: Record) {
    ValidUtf8(r.op) && ValidUtf8(r.coll) && ValidUtf8(r.id)
  }

  /** A record comes back from the log unchanged exactly when its strings are valid UTF-8. */
  lemma RecordRoundTrip(r: Record)
    ensures DecodeRecord(EncodeRecord(r)) == Some(r) <==> ValidStrings(r)
  {
    RecordDecodes(r);
    SanitizeGrows(r.op);
    SanitizeGrows(r.coll);
    SanitizeGrows(r.id);
    if ValidStrings(r) {
      SanitizeValid(r.op);
      SanitizeValid(r.coll);
      SanitizeValid(r.id);
    }
  }

  /** The id FF (one byte) is logged as U+FFFD, so replay brings it back under another id. */
  lemma InvalidIdIsRenamed(coll: bytes, doc: bytes)
    ensures
      var r := Record(OP_SET, coll, [255 as char], doc);
      var back := DecodeRecord(EncodeRecord(r));
      back.Some? && back.value.id == REPLACEMENT
  {
    var id: bytes := [255 as char];
    RecordDecodes(Record(OP_SET, coll, id, doc));
    assert RuneSize(id) == 0;
    assert Sanitize(id) == REPLACEMENT + Sanitize(id[1..]);
  }

  lemma NoNewlineConcat(a: bytes, b: bytes)
    ensures '\n' in a + b <==> '\n' in a || '\n' in b
  {}

  lemma IdDocHasNoNewline(id: bytes, doc: bytes)
    requires '\n' !in doc
    ensures '\n' !in EncodeIdDoc(id, doc)
  {
    EscapeHasNoNewline(id);
    assert '\n' !in EncodeDoc(doc) by { NoNewlineConcat(DOC_KEY, doc); }
    assert '\n' !in ID_KEY;
  }

  lemma RecordHasNoNewline(r: Record)
    requires '\n' !in r.doc
    ensures '\n' !in EncodeRecord(r)
  {
    EscapeHasNoNewline(r.op);
    EscapeHasNoNewline(r.coll);
    IdDocHasNoNewline(r.id, r.doc);
    var a := EncodeIdDoc(r.id, r.doc);
    var b := Escape(r.coll) + ("\"" + a);
    assert '\n' !in b;
    var c := Escape(r.op) + ("\"" + (COLL_KEY + b));
    assert '\n' !in c by { assert '\n' !in COLL_KEY; }
    assert '\n' !in OP_KEY;
  }
}
