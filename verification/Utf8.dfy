/**
 * UTF-8 validity. The reference is section 3 of RFC 3629 (the encoding of one
 * Unicode scalar value) and section 4 (the byte grammar); the two validators are
 * the library's own and the device selector's own, which are written differently.
 */
module Utf8 {
  import opened Common

  type Scalar = v: int | 0 <= v <= 0x10FFFF && !(0xD800 <= v <= 0xDFFF)

  function EncodeScalar(v: Scalar): (s: seq<Byte>)
    ensures 1 <= |s| <= 4
  {
    if v < 0x80 then [v]
    else if v < 0x800 then [0xC0 + v / 0x40, 0x80 + v % 0x40]
    else if v < 0x10000 then [0xE0 + v / 0x1000, 0x80 + v / 0x40 % 0x40, 0x80 + v % 0x40]
    else [0xF0 + v / 0x40000, 0x80 + v / 0x1000 % 0x40, 0x80 + v / 0x40 % 0x40, 0x80 + v % 0x40]
  }

  function Encode(vs: seq<Scalar>): seq<Byte> {
    if vs == [] then [] else EncodeScalar(vs[0]) + Encode(vs[1..])
  }

  /** The byte string is a concatenation of encoded scalar values. */
  ghost predicate IsUtf8(s: seq<Byte>) {
    exists vs: seq<Scalar> :: Encode(vs) == s
  }

  predicate Tail(b: Byte) {
    0x80 <= b <= 0xBF
  }

  /** The byte grammar of section 4 of RFC 3629 for one character. */
  predicate Character(s: seq<Byte>) {
    if |s| == 1 then s[0] <= 0x7F
    else if |s| == 2 then 0xC2 <= s[0] <= 0xDF && Tail(s[1])
    else if |s| == 3 then
      && (|| (s[0] == 0xE0 && 0xA0 <= s[1] <= 0xBF)
          || (0xE1 <= s[0] <= 0xEC && Tail(s[1]))
          || (s[0] == 0xED && 0x80 <= s[1] <= 0x9F)
          || (0xEE <= s[0] <= 0xEF && Tail(s[1])))
      && Tail(s[2])
    else if |s| == 4 then
      && (|| (s[0] == 0xF0 && 0x90 <= s[1] <= 0xBF)
          || (0xF1 <= s[0] <= 0xF3 && Tail(s[1]))
          || (s[0] == 0xF4 && 0x80 <= s[1] <= 0x8F))
      && Tail(s[2]) && Tail(s[3])
    else false
  }

  function DecodeScalar(s: seq<Byte>): (v: Scalar)
    requires Character(s)
  {
    if |s| == 1 then s[0] as int
    else if |s| == 2 then (s[0] as int - 0xC0) * 0x40 + (s[1] as int - 0x80)
    else if |s| == 3 then (s[0] as int - 0xE0) * 0x1000 + (s[1] as int - 0x80) * 0x40 + (s[2] as int - 0x80)
    else (s[0] as int - 0xF0) * 0x40000 + (s[1] as int - 0x80) * 0x1000 + (s[2] as int - 0x80) * 0x40 + (s[3] as int - 0x80)
  }

  /** The grammar describes exactly the encodings of scalar values. */
  lemma CharacterIsEncoding(s: seq<Byte>)
    ensures Character(s) <==> exists v: Scalar :: EncodeScalar(v) == s
    ensures Character(s) ==> EncodeScalar(DecodeScalar(s)) == s
  {
    if Character(s) { DecodingInverts(s); }
    forall v: Scalar | EncodeScalar(v) == s ensures Character(s) { EncodingIsCharacter(v); }
  }

  lemma DecodingInverts(s: seq<Byte>)
    requires Character(s)
    ensures EncodeScalar(DecodeScalar(s)) == s
  {
    var v := DecodeScalar(s);
    if |s| == 2 {
      SplitSextet(v, s[0] - 0xC0, s[1] - 0x80);
    } else if |s| == 3 {
      SplitSextet(v, (s[0] - 0xE0) as int * 0x40 + (s[1] - 0x80), s[2] - 0x80);
      SplitSextet(v / 0x40, s[0] - 0xE0, s[1] - 0x80);
    } else if |s| == 4 {
      SplitSextet(v, (s[0] - 0xF0) as int * 0x1000 + (s[1] - 0x80) as int * 0x40 + (s[2] - 0x80), s[3] - 0x80);
      SplitSextet(v / 0x40, (s[0] - 0xF0) as int * 0x40 + (s[1] - 0x80), s[2] - 0x80);
      SplitSextet(v / 0x1000, s[0] - 0xF0, s[1] - 0x80);
    }
  }

  lemma SplitSextet(v: int, high: int, low: int)
    requires 0 <= low < 0x40 && v == high * 0x40 + low
    ensures v / 0x40 == high && v % 0x40 == low
  {
  }

  lemma EncodingIsCharacter(v: Scalar)
    ensures Character(EncodeScalar(v))
  {
  }

  /** Removing one leading character keeps validity in both directions. */
  lemma DropCharacter(s: seq<Byte>, n: nat)
    requires n <= |s| && Character(s[..n])
    ensures IsUtf8(s) <==> IsUtf8(s[n..])
  {
    CharacterIsEncoding(s[..n]);
    var v := DecodeScalar(s[..n]);
    assert s == s[..n] + s[n..];
    if IsUtf8(s[n..]) {
      var vs: seq<Scalar> :| Encode(vs) == s[n..];
      assert ([v] + vs)[1..] == vs;
      assert Encode([v] + vs) == s;
    }
    if IsUtf8(s) {
      var vs: seq<Scalar> :| Encode(vs) == s;
      var m := FirstCharacter(s, vs);
      assert s[..m][0] == s[..n][0];
      assert n == m;
      assert Encode(vs[1..]) == s[n..];
    }
  }

  lemma FirstCharacter(s: seq<Byte>, vs: seq<Scalar>) returns (n: nat)
    requires Encode(vs) == s && s != []
    ensures n <= |s| && Character(s[..n]) && vs != [] && Encode(vs[1..]) == s[n..]
  {
    n := |EncodeScalar(vs[0])|;
    EncodingIsCharacter(vs[0]);
    assert s[..n] == EncodeScalar(vs[0]) && s[n..] == Encode(vs[1..]);
  }

  /** A non-empty valid string starts with a character. */
  lemma StartsWithCharacter(s: seq<Byte>)
    requires s != [] && IsUtf8(s)
    ensures exists n :: 0 < n <= |s| && n <= 4 && Character(s[..n])
  {
    var vs: seq<Scalar> :| Encode(vs) == s;
    var n := FirstCharacter(s, vs);
  }

  lemma EmptyIsUtf8()
    ensures IsUtf8([])
  {
    assert Encode([]) == [];
  }

  /** The validator of the library's entry points. */
  method ValidUtf8(value: seq<Byte>) returns (valid: bool)
    ensures valid <==> IsUtf8(value)
  {
    var index := 0;
    EmptyIsUtf8();
    while index < |value|
      invariant 0 <= index <= |value|
      invariant IsUtf8(value) <==> IsUtf8(value[index..])
    {
      ghost var rest := value[index..];
      var lead := value[index];
      if lead <= 0x7F {
        DropCharacter(rest, 1);
        index := index + 1;
        continue;
      }
      if IsUtf8(rest) { StartsWithCharacter(rest); }
      var continuationCount := 0;
      var firstMinimum, firstMaximum := 0x80, 0xBF;
      if 0xC2 <= lead <= 0xDF {
        continuationCount := 1;
      } else if 0xE0 <= lead <= 0xEF {
        continuationCount := 2;
        if lead == 0xE0 {
          firstMinimum := 0xA0;
        } else if lead == 0xED {
          firstMaximum := 0x9F;
        }
      } else if 0xF0 <= lead <= 0xF4 {
        continuationCount := 3;
        if lead == 0xF0 {
          firstMinimum := 0x90;
        } else if lead == 0xF4 {
          firstMaximum := 0x8F;
        }
      } else {
        return false;
      }
      if continuationCount > |value| - index - 1 {
        return false;
      }
      var first := value[index + 1];
      if first < firstMinimum || first > firstMaximum {
        return false;
      }
      var offset := 2;
      while offset <= continuationCount
        invariant 2 <= offset <= continuationCount + 1
        invariant forall k :: 2 <= k < offset ==> Tail(rest[k])
      {
        var continuation := value[index + offset];
        if continuation < 0x80 || continuation > 0xBF {
          return false;
        }
        offset := offset + 1;
      }
      DropCharacter(rest, continuationCount + 1);
      index := index + continuationCount + 1;
      assert rest[continuationCount + 1..] == value[index..];
    }
    return true;
  }

  /** The validator inside the device selector. */
  method SelectorValidUtf8(value: seq<Byte>) returns (valid: bool)
    ensures valid <==> IsUtf8(value)
  {
    var index := 0;
    EmptyIsUtf8();
    while index < |value|
      invariant 0 <= index <= |value|
      invariant IsUtf8(value) <==> IsUtf8(value[index..])
    {
      ghost var rest := value[index..];
      var lead := value[index];
      if lead <= 0x7F {
        DropCharacter(rest, 1);
        index := index + 1;
        continue;
      }
      if IsUtf8(rest) { StartsWithCharacter(rest); }
      var continuations := 0;
      var firstMinimum, firstMaximum := 0x80, 0xBF;
      if 0xC2 <= lead <= 0xDF {
        continuations := 1;
      } else if 0xE0 <= lead <= 0xEF {
        continuations := 2;
        firstMinimum := if lead == 0xE0 then 0xA0 else 0x80;
        firstMaximum := if lead == 0xED then 0x9F else 0xBF;
      } else if 0xF0 <= lead <= 0xF4 {
        continuations := 3;
        firstMinimum := if lead == 0xF0 then 0x90 else 0x80;
        firstMaximum := if lead == 0xF4 then 0x8F else 0xBF;
      } else {
        return false;
      }
      if continuations > |value| - index - 1 {
        return false;
      }
      var first := value[index + 1];
      if first < firstMinimum || first > firstMaximum {
        return false;
      }
      for offset := 2 to continuations + 1
        invariant forall k :: 2 <= k < offset ==> Tail(rest[k])
      {
        if value[index + offset] < 0x80 || value[index + offset] > 0xBF {
          return false;
        }
      }
      DropCharacter(rest, continuations + 1);
      index := index + continuations + 1;
      assert rest[continuations + 1..] == value[index..];
    }
    return true;
  }

  /** Both validators give the same verdict on every input. */
  method ValidatorsAgree(value: seq<Byte>) returns (first: bool, second: bool)
    ensures first == second && (first <==> IsUtf8(value))
  {
    first := ValidUtf8(value);
    second := SelectorValidUtf8(value);
  }
}
