/** The scanner that rejects JSON text whose string escapes are not well-formed UTF-16. */
module JsonUnicode {
  import opened Basics
  import Codec

  // ----- Hexadecimal escapes -----

  predicate IsHex(c: byte) { Codec.HexValue(c).Some? }

  predicate AllHex(s: bytes) {
    forall i :: 0 <= i < |s| ==> IsHex(s[i])
  }

  /** The number written in base 16. */
  function HexNumber(s: bytes): nat
    requires AllHex(s)
  {
    if s == [] then 0 else HexNumber(s[..|s| - 1]) * 16 + Codec.HexValue(s[|s| - 1]).value
  }

  /** Four hexadecimal digits stand at `start`. */
  predicate HexAt(data: bytes, start: nat) {
    start + 4 <= |data| && AllHex(data[start..start + 4])
  }

  lemma ShiftIsTimes(v: bv16, d: bv16)
    requires v < 0x1000 && d < 0x10
    ensures (v << 4) | d == v * 16 + d
  {}

  lemma TimesSixteen(v: bv16)
    requires v < 0x1000
    ensures (v * 16) as int == (v as int) * 16
  {
    assert v as int < 0x1000;
  }

  lemma PlusDigit(v: bv16, d: bv16)
    requires v < 0x1000 && d < 0x10
    ensures (v * 16 + d) as int == (v * 16) as int + d as int
  {}

  /** `value <<= 4; value |= d`: with four digits nothing is shifted out. */
  function ShiftIn(v: bv16, d: bv16): (r: bv16)
    requires v < 0x1000 && d < 0x10
    ensures r as int == (v as int) * 16 + d as int
  {
    ShiftIsTimes(v, d);
    TimesSixteen(v);
    PlusDigit(v, d);
    (v << 4) | d
  }

  lemma {:induction false} HexBound(s: bytes)
    requires AllHex(s) && |s| <= 3
    ensures HexNumber(s) < match |s| case 0 => 1 case 1 => 0x10 case 2 => 0x100 case _ => 0x1000
  {
    if s != [] {
      HexBound(s[..|s| - 1]);
    }
  }

  /** The value of one digit as a `uint16`. */
  method Nibble(c: byte) returns (d: bv16, ok: bool)
    ensures ok <==> IsHex(c)
    ensures ok ==> d < 0x10 && d as int == Codec.HexValue(c).value
  {
    ok := true;
    var n: nat;
    if '0' <= c <= '9' {
      n := c as int - '0' as int;
      SmallNumber(n);
      d := n as bv16;
    } else if 'a' <= c <= 'f' {
      n := c as int - 'a' as int;
      SmallNumber(n);
      d := n as bv16 + 10;
    } else if 'A' <= c <= 'F' {
      n := c as int - 'A' as int;
      SmallNumber(n);
      d := n as bv16 + 10;
    } else {
      d, ok := 0, false;
    }
  }

  lemma SmallNumber(n: nat)
    requires n < 10
    ensures n as bv16 < 0x10 && (n as bv16) as int == n
    ensures n < 6 ==> n as bv16 + 10 < 0x10 && (n as bv16 + 10) as int == n + 10
  {
    assert n as bv16 < 10;
    if n < 6 {
      assert n as bv16 < 6;
    }
  }

  /** Shifting digits into sixteen bits computes their base-16 value. */
  method ParseHex4(data: bytes, start: nat) returns (value: bv16, ok: bool)
    ensures ok <==> HexAt(data, start)
    ensures ok ==> value as int == HexNumber(data[start..start + 4])
  {
    hide ShiftIn;
    if start + 4 > |data| {
      return 0, false;
    }
    value := 0;
    var digits := data[start..start + 4];
    for i := 0 to 4
      invariant AllHex(digits[..i])
      invariant value as int == HexNumber(digits[..i])
    {
      var d, hex := Nibble(digits[i]);
      if !hex {
        assert !AllHex(digits);
        return 0, false;
      }
      HexBound(digits[..i]);
      assert digits[..i + 1][..i] == digits[..i];
      value := ShiftIn(value, d);
    }
    assert digits[..4] == digits;
    ok := true;
  }

  // ----- What the text is meant to be -----

  /** One element of a string: a plain byte, a short escape, or a four-digit escape. */
  datatype Unit = Plain(c: byte) | Short(c: byte) | Hex(digits: bytes)

  predicate ValidUnit(u: Unit) {
    match u
    case Plain(c) => c != '"' && c != '\\'
    case Short(c) => c != 'u'
    case Hex(digits) => |digits| == 4 && AllHex(digits)
  }

  function RenderUnit(u: Unit): bytes {
    match u
    case Plain(c) => [c]
    case Short(c) => ['\\', c]
    case Hex(digits) => "\\u" + digits
  }

  function RenderUnits(us: seq<Unit>): bytes {
    if us == [] then [] else RenderUnit(us[0]) + RenderUnits(us[1..])
  }

  /** A piece of JSON text: a byte outside strings, or a closed string. */
  datatype Item = Outside(c: byte) | Quoted(units: seq<Unit>)

  ghost predicate ValidItem(it: Item) {
    match it
    case Outside(c) => c != '"'
    case Quoted(us) => ValidUnits(us) && WellFormed(us)
  }

  function RenderItem(it: Item): bytes {
    match it
    case Outside(c) => [c]
    case Quoted(us) => ['"'] + RenderUnits(us) + ['"']
  }

  function RenderItems(its: seq<Item>): bytes {
    if its == [] then [] else RenderItem(its[0]) + RenderItems(its[1..])
  }

  predicate IsHigh(u: Unit) { u.Hex? && AllHex(u.digits) && 0xD800 <= HexNumber(u.digits) <= 0xDBFF }

  predicate IsLow(u: Unit) { u.Hex? && AllHex(u.digits) && 0xDC00 <= HexNumber(u.digits) <= 0xDFFF }

  /** Well-formed UTF-16: surrogates come only in adjacent pairs, high then low. */
  ghost predicate WellFormed(us: seq<Unit>) {
    && (forall i :: 0 <= i < |us| && IsHigh(us[i]) ==> i + 1 < |us| && IsLow(us[i + 1]))
    && (forall i :: 0 <= i < |us| && IsLow(us[i]) ==> 0 < i && IsHigh(us[i - 1]))
  }

  /** The text splits into bytes outside strings and closed strings of well-formed UTF-16. */
  ghost predicate ValidText(data: bytes) {
    exists its :: ValidItems(its) && RenderItems(its) == data
  }

  // ----- The scanner as a function of the rest of the input -----

  predicate ScanText(d: bytes)
    decreases |d|
  {
    d == [] || if d[0] == '"' then ScanString(d[1..]) else ScanText(d[1..])
  }

  /** How many bytes the escape, or surrogate pair of escapes, at the start of `d` takes; 0 if it is refused. */
  function EscapeLength(d: bytes): (n: nat)
    requires |d| > 0
    ensures n <= |d|
  {
    if |d| < 2 then 0
    else if d[1] != 'u' then 2
    else if !HexAt(d, 2) then 0
    else
      var value := HexNumber(d[2..6]);
      if 0xD800 <= value <= 0xDBFF then
        if |d| < 12 || d[6] != '\\' || d[7] != 'u' || !HexAt(d, 8) then 0
        else if 0xDC00 <= HexNumber(d[8..12]) <= 0xDFFF then 12 else 0
      else if 0xDC00 <= value <= 0xDFFF then 0
      else 6
  }

  predicate ScanString(d: bytes)
    decreases |d|
  {
    if d == [] then false
    else if d[0] == '"' then ScanText(d[1..])
    else if d[0] == '\\' then EscapeLength(d) > 0 && ScanString(d[EscapeLength(d)..])
    else ScanString(d[1..])
  }

  lemma Slices(data: bytes, i: nat, k: nat)
    requires i + k <= |data|
    ensures data[i..][k..] == data[i + k..]
    ensures HexAt(data, i + k) <==> HexAt(data[i..], k)
    ensures i + k + 4 <= |data| ==> data[i..][k..k + 4] == data[i + k..i + k + 4]
  {
    if i + k + 4 <= |data| {
      assert data[i + k..i + k + 4] == data[i..][k..k + 4];
    }
  }

  /** The escape at position `i`, in terms of the whole input. */
  lemma EscapeAt(data: bytes, i: nat)
    requires i < |data|
    ensures
      var n := EscapeLength(data[i..]);
      if i + 1 == |data| then n == 0
      else if data[i + 1] != 'u' then n == 2
      else if !HexAt(data, i + 2) then n == 0
      else
        var value := HexNumber(data[i + 2..i + 6]);
        if 0xD800 <= value <= 0xDBFF then
          if i + 12 > |data| || data[i + 6] != '\\' || data[i + 7] != 'u' || !HexAt(data, i + 8) then n == 0
          else n == if 0xDC00 <= HexNumber(data[i + 8..i + 12]) <= 0xDFFF then 12 else 0
        else n == if 0xDC00 <= value <= 0xDFFF then 0 else 6
  {
    hide HexNumber, AllHex;
    if i + 2 <= |data| {
      Slices(data, i, 2);
    }
    if i + 8 <= |data| {
      Slices(data, i, 8);
    }
  }

  /** One turn of the scan, in terms of the whole input. */
  lemma ScanAt(data: bytes, i: nat)
    requires i < |data|
    ensures ScanText(data[i..]) == if data[i] == '"' then ScanString(data[i + 1..]) else ScanText(data[i + 1..])
    ensures
      var n := EscapeLength(data[i..]);
      ScanString(data[i..]) ==
        if data[i] == '"' then ScanText(data[i + 1..])
        else if data[i] == '\\' then n > 0 && ScanString(data[i + n..])
        else ScanString(data[i + 1..])
  {
    hide EscapeLength;
    Slices(data, i, 1);
    Slices(data, i, EscapeLength(data[i..]));
  }

  /** `validJSONUnicode`, loop by loop. */
  method ScanLoop(data: bytes) returns (ok: bool)
    ensures ok <==> ScanText(data)
  {
    hide ScanText, ScanString, EscapeLength, HexNumber, AllHex;
    var inString := false;
    var i := 0;
    assert data[0..] == data;
    while i < |data|
      invariant 0 <= i <= |data|
      invariant ScanText(data) == if inString then ScanString(data[i..]) else ScanText(data[i..])
    {
      ScanAt(data, i);
      var c := data[i];
      if !inString {
        if c == '"' {
          inString := true;
        }
        i := i + 1;
        continue;
      }
      if c == '"' {
        inString := false;
        i := i + 1;
      } else if c == '\\' {
        EscapeAt(data, i);
        if i + 1 >= |data| {
          return false;
        }
        if data[i + 1] != 'u' {
          i := i + 2;
          continue;
        }
        var value, hex := ParseHex4(data, i + 2);
        if !hex {
          return false;
        }
        if 0xD800 <= value <= 0xDBFF {
          if i + 12 > |data| || data[i + 6] != '\\' || data[i + 7] != 'u' {
            return false;
          }
          var low, lowHex := ParseHex4(data, i + 8);
          if !lowHex || low < 0xDC00 || low > 0xDFFF {
            return false;
          }
          i := i + 12;
        } else if 0xDC00 <= value <= 0xDFFF {
          return false;
        } else {
          i := i + 6;
        }
      } else {
        i := i + 1;
      }
    }
    EndOfScan(data);
    ok := !inString;
  }

  lemma EndOfScan(data: bytes)
    ensures ScanText(data[|data|..]) && !ScanString(data[|data|..])
  {}

  // ----- What the scanner accepts -----

  ghost predicate ValidItems(its: seq<Item>) {
    forall i :: 0 <= i < |its| ==> ValidItem(its[i])
  }

  ghost predicate ValidUnits(us: seq<Unit>) {
    forall i :: 0 <= i < |us| ==> ValidUnit(us[i])
  }

  predicate IsSurrogate(u: Unit) { IsHigh(u) || IsLow(u) }

  lemma WellFormedCons(u: Unit, us: seq<Unit>)
    requires !IsSurrogate(u)
    ensures WellFormed([u] + us) <==> WellFormed(us)
  {
    var all := [u] + us;
    assert forall i :: 0 <= i < |us| ==> us[i] == all[i + 1];
    if WellFormed(all) {
      forall i | 0 <= i < |us| && IsLow(us[i]) ensures 0 < i && IsHigh(us[i - 1]) {
        assert IsLow(all[i + 1]) && IsHigh(all[i]);
      }
    }
  }

  lemma WellFormedPair(h: Unit, l: Unit, us: seq<Unit>)
    requires IsHigh(h) && IsLow(l)
    ensures WellFormed([h, l] + us) <==> WellFormed(us)
  {
    var all := [h, l] + us;
    assert forall i :: 0 <= i < |us| ==> us[i] == all[i + 2];
    if WellFormed(all) {
      forall i | 0 <= i < |us| && IsLow(us[i]) ensures 0 < i && IsHigh(us[i - 1]) {
        assert IsLow(all[i + 2]) && IsHigh(all[i + 1]);
      }
    }
  }

  lemma RenderUnitsConcat(a: seq<Unit>, b: seq<Unit>)
    ensures RenderUnits(a + b) == RenderUnits(a) + RenderUnits(b)
  {
    if a == [] {
      assert a + b == b;
    } else {
      assert (a + b)[1..] == a[1..] + b;
      RenderUnitsConcat(a[1..], b);
    }
  }

  /** The units an escape stands for. */
  lemma EscapeUnits(d: bytes) returns (us: seq<Unit>)
    requires |d| > 0 && d[0] == '\\' && EscapeLength(d) > 0
    ensures ValidUnits(us) && RenderUnits(us) == d[..EscapeLength(d)]
    ensures forall more :: WellFormed(more) ==> WellFormed(us + more)
  {
    var n := EscapeLength(d);
    if n == 2 {
      us := [Short(d[1])];
      assert RenderUnits(us) == d[..2];
    } else if n == 6 {
      us := [Hex(d[2..6])];
      assert RenderUnits(us) == d[..6];
    } else {
      var h, l := Hex(d[2..6]), Hex(d[8..12]);
      us := [h, l];
      assert us[1..] == [l];
      assert RenderUnits([l]) == RenderUnit(l);
      assert RenderUnits(us) == RenderUnit(h) + RenderUnit(l) == d[..12];
    }
    forall more | WellFormed(more) ensures WellFormed(us + more) {
      if n == 12 {
        WellFormedPair(us[0], us[1], more);
      } else {
        WellFormedCons(us[0], more);
      }
    }
  }

  lemma RenderItemsCons(it: Item, its: seq<Item>)
    ensures RenderItems([it] + its) == RenderItem(it) + RenderItems(its)
  {
    assert ([it] + its)[1..] == its;
  }

  lemma NoItems()
    ensures RenderItems([]) == []
  {}

  lemma QuotedText(d: bytes, units: bytes, more: bytes)
    requires |d| > 0 && d[0] == '"' && d[1..] == units + ['"'] + more
    ensures d == (['"'] + units + ['"']) + more
  {}

  lemma {:induction false} TextItems(d: bytes) returns (its: seq<Item>)
    requires ScanText(d)
    ensures ValidItems(its) && RenderItems(its) == d
    decreases |d|
  {
    hide WellFormed, ValidUnits, RenderUnits, ScanString, RenderItems;
    if d == [] {
      NoItems();
      return [];
    }
    if d[0] == '"' {
      var us, more := StringUnits(d[1..]);
      its := [Quoted(us)] + more;
      RenderItemsCons(Quoted(us), more);
      QuotedText(d, RenderUnits(us), RenderItems(more));
    } else {
      var more := TextItems(d[1..]);
      its := [Outside(d[0])] + more;
      RenderItemsCons(Outside(d[0]), more);
    }
  }

  lemma {:induction false} StringUnits(d: bytes) returns (us: seq<Unit>, its: seq<Item>)
    requires ScanString(d)
    ensures ValidUnits(us) && WellFormed(us) && ValidItems(its)
    ensures RenderUnits(us) + ['"'] + RenderItems(its) == d
    decreases |d|
  {
    hide WellFormed, ValidItems, RenderItems, ScanText, EscapeLength;
    if d[0] == '"' {
      us := [];
      NoSurrogates();
      its := TextItems(d[1..]);
      QuotedTail(d, RenderUnits(us), RenderItems(its));
      return;
    }
    var head: seq<Unit>, n;
    if d[0] == '\\' {
      n := EscapeLength(d);
      head := EscapeUnits(d);
    } else {
      n, head := 1, [Plain(d[0])];
      PlainUnit(d);
    }
    hide RenderUnits;
    var tail;
    tail, its := StringUnits(d[n..]);
    us := head + tail;
    RenderUnitsConcat(head, tail);
    Glue(d, n, RenderUnits(tail), RenderItems(its));
  }

  lemma NoSurrogates()
    ensures WellFormed([])
  {}

  lemma QuotedTail(d: bytes, units: bytes, more: bytes)
    requires |d| > 0 && d[0] == '"' && units == [] && more == d[1..]
    ensures units + ['"'] + more == d
  {}

  lemma PlainUnit(d: bytes)
    requires |d| > 0 && d[0] != '"' && d[0] != '\\'
    ensures ValidUnits([Plain(d[0])]) && RenderUnits([Plain(d[0])]) == d[..1]
    ensures forall more :: WellFormed(more) ==> WellFormed([Plain(d[0])] + more)
  {
    forall more | WellFormed(more) ensures WellFormed([Plain(d[0])] + more) {
      WellFormedCons(Plain(d[0]), more);
    }
  }

  lemma Glue(d: bytes, n: nat, units: bytes, more: bytes)
    requires n <= |d| && units + ['"'] + more == d[n..]
    ensures (d[..n] + units) + ['"'] + more == d
  {
    assert (d[..n] + units) + ['"'] + more == d[..n] + (units + ['"'] + more);
  }

  lemma {:induction false} TextScans(its: seq<Item>)
    requires ValidItems(its)
    ensures ScanText(RenderItems(its))
  {
    hide WellFormed, ScanString, ValidUnits, RenderUnits;
    if its != [] {
      TextScans(its[1..]);
      assert ValidItem(its[0]);
      ItemScans(its[0], RenderItems(its[1..]));
    }
  }

  lemma ItemScans(it: Item, rest: bytes)
    requires ValidItem(it) && ScanText(rest)
    ensures ScanText(RenderItem(it) + rest)
  {
    hide WellFormed, ScanString, ValidUnits, RenderUnits;
    var d := RenderItem(it) + rest;
    match it
    case Outside(c) => assert d[1..] == rest;
    case Quoted(us) =>
      StringScans(us, rest);
      assert d[1..] == RenderUnits(us) + ['"'] + rest;
  }

  lemma FirstUnit(us: seq<Unit>, rest: bytes)
    requires us != []
    ensures RenderUnits(us) + ['"'] + rest == RenderUnit(us[0]) + (RenderUnits(us[1..]) + ['"'] + rest)
  {
    hide RenderUnit;
    var a, b := RenderUnit(us[0]), RenderUnits(us[1..]);
    assert (a + b) + ['"'] + rest == a + (b + ['"'] + rest);
  }

  lemma HexScans(d: bytes, digits: bytes, rest: bytes)
    requires ValidUnit(Hex(digits)) && d == RenderUnit(Hex(digits)) + rest
    ensures d[0] == '\\' && d[1] == 'u' && HexAt(d, 2) && d[2..6] == digits && d[6..] == rest
  {}

  lemma {:induction false} StringScans(us: seq<Unit>, rest: bytes)
    requires ValidUnits(us) && WellFormed(us) && ScanText(rest)
    ensures ScanString(RenderUnits(us) + ['"'] + rest)
    decreases |us|
  {
    hide ScanText, HexNumber, AllHex, EscapeLength;
    var d := RenderUnits(us) + ['"'] + rest;
    if us == [] {
      assert d[0] == '"' && d[1..] == rest;
      return;
    }
    hide ScanString, RenderUnit, ValidUnit, IsHigh, IsLow;
    var u, more := us[0], RenderUnits(us[1..]) + ['"'] + rest;
    assert us == [u] + us[1..];
    FirstUnit(us, rest);
    assert ValidUnit(u);
    if IsHigh(u) {
      var l, tail := us[1], RenderUnits(us[2..]) + ['"'] + rest;
      assert IsLow(l) && ValidUnit(l);
      assert us == [u, l] + us[2..] && us[1..][1..] == us[2..];
      WellFormedPair(u, l, us[2..]);
      StringScans(us[2..], rest);
      FirstUnit(us[1..], rest);
      PairScans(d, u, l, tail);
    } else {
      assert !IsLow(u);
      WellFormedCons(u, us[1..]);
      StringScans(us[1..], rest);
      UnitScans(d, u, more);
    }
  }

  lemma UnitScans(d: bytes, u: Unit, more: bytes)
    requires ValidUnit(u) && !IsSurrogate(u) && d == RenderUnit(u) + more && ScanString(more)
    ensures ScanString(d)
  {
    hide ScanText, HexNumber;
    match u
    case Plain(_) => assert d[1..] == more;
    case Short(_) => assert d[2..] == more;
    case Hex(digits) =>
      HexScans(d, digits, more);
      hide AllHex;
      assert EscapeLength(d) == 6;
  }

  lemma PairScans(d: bytes, u: Unit, l: Unit, tail: bytes)
    requires ValidUnit(u) && IsHigh(u) && ValidUnit(l) && IsLow(l) && ScanString(tail)
    requires d == RenderUnit(u) + (RenderUnit(l) + tail)
    ensures ScanString(d)
  {
    var more := RenderUnit(l) + tail;
    HexScans(d, u.digits, more);
    HexScans(more, l.digits, tail);
    hide ScanText, HexNumber, AllHex, RenderUnit;
    assert d[6] == more[0] && d[7] == more[1] && d[8..12] == more[2..6] && d[12..] == tail;
    assert EscapeLength(d) == 12;
  }

  /** `validJSONUnicode` accepts exactly the texts whose strings are closed and well-formed UTF-16. */
  method ValidJsonUnicode(data: bytes) returns (ok: bool)
    ensures ok <==> ValidText(data)
  {
    ok := ScanLoop(data);
    if ok {
      ghost var its := TextItems(data);
    }
    forall its | ValidItems(its) && RenderItems(its) == data ensures ok {
      TextScans(its);
    }
  }
}
