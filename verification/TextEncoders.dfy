/** Base64 and JSON string escaping, with the decoders they must agree with. */
module TextEncoders {
  import opened Common
  import Utf8

  // ----- Base64 (section 4 of RFC 4648): three bytes as four sextets

  type Sextet = x: int | 0 <= x < 64

  function First(x: Byte): Sextet { x / 4 }

  function Second(x: Byte, y: Byte): Sextet { x % 4 * 16 + y / 16 }

  function Third(y: Byte, z: Byte): Sextet { y % 16 * 4 + z / 64 }

  function Fourth(z: Byte): Sextet { z % 64 }

  function High(a: Sextet, b: Sextet): Byte { a * 4 + b / 16 }

  function Middle(b: Sextet, c: Sextet): Byte { b % 16 * 16 + c / 4 }

  function Low(c: Sextet, d: Sextet): Byte { c % 4 * 64 + d }

  lemma BytesRegroup(x: Byte, y: Byte, z: Byte)
    ensures High(First(x), Second(x, y)) == x
    ensures Middle(Second(x, y), Third(y, z)) == y
    ensures Low(Third(y, z), Fourth(z)) == z
  {
  }

  lemma SextetsRegroup(a: Sextet, b: Sextet, c: Sextet, d: Sextet)
    ensures First(High(a, b)) == a
    ensures Second(High(a, b), Middle(b, c)) == b
    ensures Third(Middle(b, c), Low(c, d)) == c
    ensures Fourth(Low(c, d)) == d
  {
  }

  lemma PaddedByte(x: Byte)
    ensures High(First(x), Second(x, 0)) == x && Middle(Second(x, 0), 0) == 0
  {
  }

  lemma PaddedPair(y: Byte)
    ensures Low(Third(y, 0), 0) == 0
  {
  }

  lemma PaddedSextets(a: Sextet, b: Sextet, c: Sextet)
    ensures Middle(b, 0) == 0 ==> First(High(a, b)) == a && Second(High(a, b), 0) == b
    ensures Low(c, 0) == 0 ==> Third(Middle(b, c), 0) == c
  {
    SextetsRegroup(a, b, 0, 0);
    SextetsRegroup(a, b, c, 0);
  }

  /** A symbol stands for six bits or for padding. */
  datatype Symbol = Bits(value: Sextet) | Pad

  /** Three bytes become four symbols; one or two last bytes are filled up with zero bits and padding. */
  function ToSymbols(bytes: seq<Byte>): seq<Symbol> {
    if bytes == [] then []
    else if |bytes| == 1 then [Bits(First(bytes[0])), Bits(Second(bytes[0], 0)), Pad, Pad]
    else if |bytes| == 2 then
      [Bits(First(bytes[0])), Bits(Second(bytes[0], bytes[1])), Bits(Third(bytes[1], 0)), Pad]
    else Quantum(bytes[0], bytes[1], bytes[2]) + ToSymbols(bytes[3..])
  }

  function Quantum(x: Byte, y: Byte, z: Byte): seq<Symbol> {
    [Bits(First(x)), Bits(Second(x, y)), Bits(Third(y, z)), Bits(Fourth(z))]
  }

  /** Strict: full quanta, padding only at the end, and no stray bits under the padding. */
  function FromSymbols(s: seq<Symbol>): Option<seq<Byte>> {
    if s == [] then Some([])
    else if |s| < 4 || s[0].Pad? || s[1].Pad? then None
    else if s[2].Pad? then
      if |s| > 4 || s[3].Bits? || Middle(s[1].value, 0) != 0 then None else Some([High(s[0].value, s[1].value)])
    else if s[3].Pad? then
      if |s| > 4 || Low(s[2].value, 0) != 0 then None
      else Some([High(s[0].value, s[1].value), Middle(s[1].value, s[2].value)])
    else
      var rest := FromSymbols(s[4..]);
      if rest.None? then None
      else Some([High(s[0].value, s[1].value), Middle(s[1].value, s[2].value), Low(s[2].value, s[3].value)] + rest.value)
  }

  lemma FromOne(a: Sextet, b: Sextet)
    ensures FromSymbols([Bits(a), Bits(b), Pad, Pad]) == if Middle(b, 0) != 0 then None else Some([High(a, b)])
  {
    var s := [Bits(a), Bits(b), Pad, Pad];
    assert s[0] == Bits(a) && s[1] == Bits(b) && s[2] == Pad && s[3] == Pad;
  }

  lemma OneDecodes(x: Byte)
    ensures FromSymbols([Bits(First(x)), Bits(Second(x, 0)), Pad, Pad]) == Some([x])
  {
    var a, b := First(x), Second(x, 0);
    PaddedByte(x);
    FromOne(a, b);
  }

  lemma TwoDecode(x: Byte, y: Byte)
    ensures FromSymbols([Bits(First(x)), Bits(Second(x, y)), Bits(Third(y, 0)), Pad]) == Some([x, y])
  {
    BytesRegroup(x, y, 0);
    PaddedPair(y);
  }

  lemma ThreeDecode(x: Byte, y: Byte, z: Byte, rest: seq<Symbol>)
    ensures FromSymbols(Quantum(x, y, z) + rest)
         == if FromSymbols(rest).None? then None else Some([x, y, z] + FromSymbols(rest).value)
  {
    BytesRegroup(x, y, z);
    assert (Quantum(x, y, z) + rest)[4..] == rest;
  }

  lemma {:induction false} SymbolsDecode(bytes: seq<Byte>)
    ensures FromSymbols(ToSymbols(bytes)) == Some(bytes)
  {
    if |bytes| == 1 {
      OneDecodes(bytes[0]);
      assert bytes == [bytes[0]];
    } else if |bytes| == 2 {
      TwoDecode(bytes[0], bytes[1]);
      assert bytes == [bytes[0], bytes[1]];
    } else if |bytes| >= 3 {
      var x, y, z, rest := bytes[0], bytes[1], bytes[2], bytes[3..];
      SymbolsDecode(rest);
      ThreeDecode(x, y, z, ToSymbols(rest));
      assert bytes == [x, y, z] + rest;
    }
  }

  lemma {:induction false} SymbolCount(bytes: seq<Byte>)
    ensures |ToSymbols(bytes)| == 4 * ((|bytes| + 2) / 3)
  {
    if |bytes| >= 3 {
      SymbolCount(bytes[3..]);
    }
  }

  lemma OnePadded(a: Sextet, b: Sextet)
    requires Middle(b, 0) == 0
    ensures ToSymbols([High(a, b)]) == [Bits(a), Bits(b), Pad, Pad]
  {
    PaddedSextets(a, b, 0);
  }

  lemma TwoPadded(a: Sextet, b: Sextet, c: Sextet)
    requires Low(c, 0) == 0
    ensures ToSymbols([High(a, b), Middle(b, c)]) == [Bits(a), Bits(b), Bits(c), Pad]
  {
    SextetsRegroup(a, b, c, 0);
    PaddedSextets(a, b, c);
  }

  lemma FullQuantum(a: Sextet, b: Sextet, c: Sextet, d: Sextet)
    ensures Quantum(High(a, b), Middle(b, c), Low(c, d)) == [Bits(a), Bits(b), Bits(c), Bits(d)]
  {
    SextetsRegroup(a, b, c, d);
  }

  lemma {:induction false} BytesEncode(s: seq<Symbol>)
    requires FromSymbols(s).Some?
    ensures ToSymbols(FromSymbols(s).value) == s
  {
    if s != [] {
      if s[2].Pad? {
        OnePadded(s[0].value, s[1].value);
        assert s == [s[0], s[1], s[2], s[3]];
      } else if s[3].Pad? {
        TwoPadded(s[0].value, s[1].value, s[2].value);
        assert s == [s[0], s[1], s[2], s[3]];
      } else {
        FullQuantum(s[0].value, s[1].value, s[2].value, s[3].value);
        BytesEncode(s[4..]);
        assert FromSymbols(s).value[3..] == FromSymbols(s[4..]).value;
        assert s == [s[0], s[1], s[2], s[3]] + s[4..];
      }
    }
  }

  // ----- Base64: symbols as characters

  function Character(s: Symbol): char {
    match s
    case Pad => '='
    case Bits(v) =>
      if v < 26 then ('A' as int + v) as char
      else if v < 52 then ('a' as int + v - 26) as char
      else if v < 62 then ('0' as int + v - 52) as char
      else if v == 62 then '+' else '/'
  }

  function Meaning(c: char): Option<Symbol> {
    if 'A' <= c <= 'Z' then Some(Bits(c as int - 'A' as int))
    else if 'a' <= c <= 'z' then Some(Bits(c as int - 'a' as int + 26))
    else if '0' <= c <= '9' then Some(Bits(c as int - '0' as int + 52))
    else if c == '+' then Some(Bits(62))
    else if c == '/' then Some(Bits(63))
    else if c == '=' then Some(Pad)
    else None
  }

  lemma CharacterInverts(c: char, s: Symbol)
    ensures Meaning(c) == Some(s) <==> c == Character(s)
  {
  }

  function Write(s: seq<Symbol>): string {
    seq(|s|, i requires 0 <= i < |s| => Character(s[i]))
  }

  function Read(text: string): Option<seq<Symbol>> {
    if exists i :: 0 <= i < |text| && Meaning(text[i]).None? then None
    else Some(seq(|text|, i requires 0 <= i < |text| && Meaning(text[i]).Some? => Meaning(text[i]).value))
  }

  lemma ReadInverts(text: string, s: seq<Symbol>)
    ensures Read(text) == Some(s) <==> text == Write(s)
  {
    if |text| == |s| {
      forall i | 0 <= i < |s| ensures Meaning(text[i]) == Some(s[i]) <==> text[i] == Character(s[i]) {
        CharacterInverts(text[i], s[i]);
      }
      if text == Write(s) {
        assert forall i :: 0 <= i < |s| ==> text[i] == Character(s[i]);
        assert Read(text).value == s;
      }
      if Read(text) == Some(s) {
        assert forall i :: 0 <= i < |s| ==> Meaning(text[i]) == Some(Read(text).value[i]);
      }
    }
  }

  function Decode(text: string): Option<seq<Byte>> {
    var s := Read(text);
    if s.None? then None else FromSymbols(s.value)
  }

  /** A text decodes to the given bytes exactly when it is their encoding. */
  lemma Base64Inverts(text: string, bytes: seq<Byte>)
    ensures Decode(text) == Some(bytes) <==> text == Write(ToSymbols(bytes))
  {
    SymbolsDecode(bytes);
    ReadInverts(text, ToSymbols(bytes));
    if Decode(text) == Some(bytes) {
      BytesEncode(Read(text).value);
    }
  }

  lemma WriteSplit(a: seq<Symbol>, b: seq<Symbol>)
    ensures Write(a + b) == Write(a) + Write(b)
  {
  }

  lemma TakeQuantum(bytes: seq<Byte>, index: nat)
    requires index + 3 <= |bytes|
    ensures Write(ToSymbols(bytes[index..]))
         == Write(Quantum(bytes[index], bytes[index + 1], bytes[index + 2])) + Write(ToSymbols(bytes[index + 3..]))
  {
    var rest := bytes[index..];
    assert rest[0] == bytes[index] && rest[1] == bytes[index + 1] && rest[2] == bytes[index + 2];
    assert rest[3..] == bytes[index + 3..];
    WriteSplit(Quantum(rest[0], rest[1], rest[2]), ToSymbols(rest[3..]));
  }

  method Base64Encode(bytes: seq<Byte>) returns (result: string)
    ensures |result| == 4 * ((|bytes| + 2) / 3)
    ensures forall text :: Decode(text) == Some(bytes) <==> text == result
  {
    result := [];
    var index := 0;
    assert bytes[0..] == bytes;
    while index + 3 <= |bytes|
      invariant 0 <= index <= |bytes|
      invariant Write(ToSymbols(bytes)) == result + Write(ToSymbols(bytes[index..]))
    {
      TakeQuantum(bytes, index);
      result := result + Write(Quantum(bytes[index], bytes[index + 1], bytes[index + 2]));
      index := index + 3;
    }
    var remaining := |bytes| - index;
    if remaining != 0 {
      var first := bytes[index];
      if remaining == 1 {
        result := result + Write([Bits(First(first)), Bits(Second(first, 0)), Pad, Pad]);
      } else {
        var second := bytes[index + 1];
        result := result + Write([Bits(First(first)), Bits(Second(first, second)), Bits(Third(second, 0)), Pad]);
      }
    }
    SymbolCount(bytes);
    forall text ensures Decode(text) == Some(bytes) <==> text == result {
      Base64Inverts(text, bytes);
    }
  }

  // ----- JSON strings (section 7 of RFC 8259), as bytes

  const QUOTE: Byte := 0x22
  const BACKSLASH: Byte := 0x5C

  /** The letter after the backslash for the characters that have a short escape. */
  function ShortEscape(b: Byte): Option<Byte> {
    if b == BACKSLASH then Some(BACKSLASH)
    else if b == QUOTE then Some(QUOTE)
    else if b == 0x08 then Some(0x62)
    else if b == 0x0C then Some(0x66)
    else if b == 0x0A then Some(0x6E)
    else if b == 0x0D then Some(0x72)
    else if b == 0x09 then Some(0x74)
    else None
  }

  function EscapeByte(b: Byte): seq<Byte> {
    var short := ShortEscape(b);
    if short.Some? then [BACKSLASH, short.value]
    else if b < 0x20 then [BACKSLASH, 0x75, 0x30, 0x30, HexDigit(b / 16), HexDigit(b % 16)]
    else [b]
  }

  predicate IsText(bytes: seq<Byte>, text: string) {
    |bytes| == |text| && forall i :: 0 <= i < |text| ==> bytes[i] == text[i] as int
  }

  /** The short escapes as they are written. */
  lemma ShortEscapesAreText()
    ensures IsText(EscapeByte('\"' as int), "\\\"") && IsText(EscapeByte('\\' as int), "\\\\")
    ensures IsText(EscapeByte('\n' as int), "\\n") && IsText(EscapeByte('\r' as int), "\\r")
    ensures IsText(EscapeByte('\t' as int), "\\t")
    ensures IsText(EscapeByte(0x08), "\\b") && IsText(EscapeByte(0x0C), "\\f") && IsText(EscapeByte(0x1F), "\\u001f")
  {
  }

  function Escape(value: seq<Byte>): seq<Byte> {
    if value == [] then [] else EscapeByte(value[0]) + Escape(value[1..])
  }

  function UnescapeShort(letter: Byte): Option<Byte> {
    if letter == BACKSLASH || letter == QUOTE || letter == 0x2F then Some(letter)
    else if letter == 0x62 then Some(0x08)
    else if letter == 0x66 then Some(0x0C)
    else if letter == 0x6E then Some(0x0A)
    else if letter == 0x72 then Some(0x0D)
    else if letter == 0x74 then Some(0x09)
    else None
  }

  function Hex4(text: seq<Byte>): Option<int>
    requires |text| == 4
  {
    var a, b, c, d := HexValue(text[0]), HexValue(text[1]), HexValue(text[2]), HexValue(text[3]);
    if a.None? || b.None? || c.None? || d.None? then None
    else Some(((a.value * 16 + b.value) * 16 + c.value) * 16 + d.value)
  }

  /** One character of a string body: its bytes and how much text it took. None for a raw control or quote. */
  function TakeOne(text: seq<Byte>): Option<(seq<Byte>, nat)>
    requires text != []
    ensures TakeOne(text).Some? ==> 0 < TakeOne(text).value.1 <= |text|
  {
    if text[0] < 0x20 || text[0] == QUOTE then None
    else if text[0] != BACKSLASH then Some(([text[0]], 1))
    else if |text| < 2 then None
    else if text[1] != 0x75 then
      var b := UnescapeShort(text[1]);
      if b.None? then None else Some(([b.value], 2))
    else if |text| < 6 then None
    else
      var code := Hex4(text[2..6]);
      if code.None? || 0xD800 <= code.value <= 0xDFFF || !(0 <= code.value <= 0x10FFFF) then None
      else Some((Utf8.EncodeScalar(code.value), 6))
  }

  /** The body of a JSON string, read back; surrogate escapes are not needed and not read. */
  function Unescape(text: seq<Byte>): Option<seq<Byte>> {
    if text == [] then Some([])
    else
      var one := TakeOne(text);
      if one.None? then None
      else
        var rest := Unescape(text[one.value.1..]);
        if rest.None? then None else Some(one.value.0 + rest.value)
  }

  lemma HexInverts(n: int)
    requires 0 <= n < 16
    ensures HexValue(HexDigit(n)) == Some(n)
  {
  }

  /** Each escaped byte is read back as itself, whatever follows. */
  lemma EscapedByteIsTaken(b: Byte, rest: seq<Byte>)
    ensures TakeOne(EscapeByte(b) + rest) == Some(([b], |EscapeByte(b)|))
  {
    var text := EscapeByte(b) + rest;
    if ShortEscape(b).None? && b < 0x20 {
      var code := [0x30, 0x30, HexDigit(b / 16), HexDigit(b % 16)];
      assert text[2..6] == code;
      HexInverts(b / 16);
      HexInverts(b % 16);
      assert HexValue(0x30) == Some(0);
      assert Hex4(code) == Some(b / 16 * 16 + b % 16);
    }
  }

  /** Unescaping restores every byte string. */
  lemma {:induction false} EscapeUnescapes(value: seq<Byte>)
    ensures Unescape(Escape(value)) == Some(value)
  {
    if value != [] {
      var rest := Escape(value[1..]);
      EscapeUnescapes(value[1..]);
      EscapedByteIsTaken(value[0], rest);
      assert Escape(value)[|EscapeByte(value[0])|..] == rest;
      assert value == [value[0]] + value[1..];
    }
  }

  lemma EscapeByteIsPrintable(b: Byte)
    ensures forall i :: 0 <= i < |EscapeByte(b)| ==> EscapeByte(b)[i] >= 0x20
    ensures EscapeByte(b)[0] != QUOTE
    ensures forall i :: 1 <= i < |EscapeByte(b)| && EscapeByte(b)[i] == QUOTE ==> EscapeByte(b)[i - 1] == BACKSLASH
  {
  }

  lemma EscapeNext(value: seq<Byte>, i: nat)
    requires i < |value|
    ensures Escape(value[i..]) == EscapeByte(value[i]) + Escape(value[i + 1..])
  {
    assert value[i..][0] == value[i] && value[i..][1..] == value[i + 1..];
  }

  /** No raw control byte is left, a quote only follows a backslash, and the text reads back as the value. */
  method JsonEscape(value: seq<Byte>) returns (result: seq<Byte>)
    ensures result == Escape(value)
    ensures forall i :: 0 <= i < |result| ==> result[i] >= 0x20
    ensures forall i :: 0 <= i < |result| && result[i] == QUOTE ==> i > 0 && result[i - 1] == BACKSLASH
    ensures Unescape(result) == Some(value)
  {
    result := [];
    assert value[0..] == value;
    for i := 0 to |value|
      invariant Escape(value) == result + Escape(value[i..])
      invariant forall k :: 0 <= k < |result| ==> result[k] >= 0x20
      invariant forall k :: 0 <= k < |result| && result[k] == QUOTE ==> k > 0 && result[k - 1] == BACKSLASH
    {
      EscapeNext(value, i);
      EscapeByteIsPrintable(value[i]);
      result := result + EscapeByte(value[i]);
    }
    assert Escape(value) == result;
    EscapeUnescapes(value);
  }
}
