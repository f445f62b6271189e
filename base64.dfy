/**
 * Base 64 encoding of section 4 of RFC 4648 (standard alphabet, `=` padding,
 * no line breaks), which is what Foundation's `base64EncodedString()` produces
 * with no options. Decode is the reading a receiver performs; the round trip
 * states that the encoded image loses nothing.
 */
module Base64 {
  import opened Wrappers

  newtype byte = x: int | 0 <= x < 256

  /** The alphabet of RFC 4648 section 4, table 1: A-Z, a-z, 0-9, '+', '/'. */
  function CharOf(v: nat): (c: char)
    requires v < 64
  {
    if v < 26 then ('A' as int + v) as char
    else if v < 52 then ('a' as int + (v - 26)) as char
    else if v < 62 then ('0' as int + (v - 52)) as char
    else if v == 62 then '+'
    else '/'
  }

  /** Inverse of CharOf on the alphabet; None off it (including '='). */
  function ValueOf(c: char): (r: Option<nat>)
    ensures r.Some? ==> r.value < 64 && CharOf(r.value) == c
  {
    if 'A' <= c <= 'Z' then Some(c as int - 'A' as int)
    else if 'a' <= c <= 'z' then Some(c as int - 'a' as int + 26)
    else if '0' <= c <= '9' then Some(c as int - '0' as int + 52)
    else if c == '+' then Some(62)
    else if c == '/' then Some(63)
    else None
  }

  lemma ValueOfCharOf(v: nat)
    requires v < 64
    ensures ValueOf(CharOf(v)) == Some(v)
  {
  }

  predicate IsSymbol(c: char) {
    ValueOf(c).Some? || c == '='
  }

  /** Every character is in the alphabet or is padding. */
  predicate AllSymbols(s: string) {
    forall i :: 0 <= i < |s| ==> IsSymbol(s[i])
  }

  lemma CharOfIsSymbol(v: nat)
    requires v < 64
    ensures IsSymbol(CharOf(v))
  {
    ValueOfCharOf(v);
  }

  lemma AllSymbolsConcat(a: string, b: string)
    requires AllSymbols(a) && AllSymbols(b)
    ensures AllSymbols(a + b)
  {
    forall i | 0 <= i < |a + b| ensures IsSymbol((a + b)[i]) {
      if i >= |a| { assert (a + b)[i] == b[i - |a|]; }
    }
  }

  /** The four symbols Encode writes for a final single byte. */
  function Single(b0: byte): (g: string)
    ensures |g| == 4 && AllSymbols(g)
  {
    var x0 := b0 as int;
    CharOfIsSymbol(x0 / 4);
    CharOfIsSymbol((x0 % 4) * 16);
    [CharOf(x0 / 4), CharOf((x0 % 4) * 16), '=', '=']
  }

  /** The four symbols Encode writes for a final pair of bytes. */
  function Pair(b0: byte, b1: byte): (g: string)
    ensures |g| == 4 && AllSymbols(g)
  {
    var x0, x1 := b0 as int, b1 as int;
    CharOfIsSymbol(x0 / 4);
    CharOfIsSymbol((x0 % 4) * 16 + x1 / 16);
    CharOfIsSymbol((x1 % 16) * 4);
    [CharOf(x0 / 4), CharOf((x0 % 4) * 16 + x1 / 16), CharOf((x1 % 16) * 4), '=']
  }

  /** The four symbols Encode writes for three bytes. */
  function Group(b0: byte, b1: byte, b2: byte): (g: string)
    ensures |g| == 4 && AllSymbols(g)
  {
    var x0, x1, x2 := b0 as int, b1 as int, b2 as int;
    CharOfIsSymbol(x0 / 4);
    CharOfIsSymbol((x0 % 4) * 16 + x1 / 16);
    CharOfIsSymbol((x1 % 16) * 4 + x2 / 64);
    CharOfIsSymbol(x2 % 64);
    [CharOf(x0 / 4), CharOf((x0 % 4) * 16 + x1 / 16), CharOf((x1 % 16) * 4 + x2 / 64), CharOf(x2 % 64)]
  }

  /** The encoding of `d`: every three bytes become four symbols; a final
      group of one or two bytes is padded with '='. */
  function Encode(d: seq<byte>): (s: string)
    ensures |s| == 4 * ((|d| + 2) / 3)
    ensures AllSymbols(s)
    decreases |d|
  {
    if |d| == 0 then []
    else if |d| == 1 then Single(d[0])
    else if |d| == 2 then Pair(d[0], d[1])
    else
      var group, rest := Group(d[0], d[1], d[2]), Encode(d[3..]);
      AllSymbolsConcat(group, rest);
      assert (|d| + 2) / 3 == (|d[3..]| + 2) / 3 + 1;
      group + rest
  }

  /** Decoding of a padded base 64 string; None when the string is not made
      of whole four-symbol groups with padding only at the very end. */
  function Decode(s: string): (r: Option<seq<byte>>)
    decreases |s|
  {
    if |s| == 0 then Some([])
    else if |s| < 4 then None
    else
      var v0 :- ValueOf(s[0]);
      var v1 :- ValueOf(s[1]);
      if |s| == 4 && s[2] == '=' && s[3] == '=' then
        Some([(v0 * 4 + v1 / 16) as byte])
      else
        var v2 :- ValueOf(s[2]);
        if |s| == 4 && s[3] == '=' then
          Some([(v0 * 4 + v1 / 16) as byte, ((v1 % 16) * 16 + v2 / 4) as byte])
        else
          var v3 :- ValueOf(s[3]);
          var rest :- Decode(s[4..]);
          Some([(v0 * 4 + v1 / 16) as byte, ((v1 % 16) * 16 + v2 / 4) as byte,
                ((v2 % 4) * 64 + v3) as byte] + rest)
  }

  /** The six-bit groups of three bytes reassemble to those bytes. */
  lemma RegroupBits(b0: int, b1: int, b2: int)
    requires 0 <= b0 < 256 && 0 <= b1 < 256 && 0 <= b2 < 256
    ensures (b0 / 4) * 4 + ((b0 % 4) * 16 + b1 / 16) / 16 == b0
    ensures (((b0 % 4) * 16 + b1 / 16) % 16) * 16 + ((b1 % 16) * 4 + b2 / 64) / 4 == b1
    ensures (((b1 % 16) * 4 + b2 / 64) % 4) * 64 + b2 % 64 == b2
  {
    var hi1, hi2 := b1 / 16, b2 / 64;
    assert 0 <= hi1 < 16 && 0 <= hi2 < 4;
    assert ((b0 % 4) * 16 + hi1) / 16 == b0 % 4;
    assert ((b0 % 4) * 16 + hi1) % 16 == hi1;
    assert ((b1 % 16) * 4 + hi2) / 4 == b1 % 16;
    assert ((b1 % 16) * 4 + hi2) % 4 == hi2;
  }

  lemma DecodeSingle(b0: byte)
    ensures Decode(Single(b0)) == Some([b0])
  {
    var x0 := b0 as int;
    var v0, v1 := x0 / 4, (x0 % 4) * 16;
    var s := Single(b0);
    ValueOfCharOf(v0);
    ValueOfCharOf(v1);
    RegroupBits(x0, 0, 0);
    assert s[0] == CharOf(v0) && s[1] == CharOf(v1) && s[2] == '=' && s[3] == '=';
  }

  lemma DecodePair(b0: byte, b1: byte)
    ensures Decode(Pair(b0, b1)) == Some([b0, b1])
  {
    var x0, x1 := b0 as int, b1 as int;
    var v0, v1, v2 := x0 / 4, (x0 % 4) * 16 + x1 / 16, (x1 % 16) * 4;
    var s := Pair(b0, b1);
    ValueOfCharOf(v0);
    ValueOfCharOf(v1);
    ValueOfCharOf(v2);
    RegroupBits(x0, x1, 0);
    assert s[0] == CharOf(v0) && s[1] == CharOf(v1) && s[2] == CharOf(v2) && s[3] == '=';
    assert s[2] != '=';
  }

  /** One step of Decode on four alphabet symbols. */
  lemma {:induction false} DecodeAt(s: string, v0: nat, v1: nat, v2: nat, v3: nat)
    requires |s| >= 4
    requires ValueOf(s[0]) == Some(v0) && ValueOf(s[1]) == Some(v1)
    requires ValueOf(s[2]) == Some(v2) && ValueOf(s[3]) == Some(v3)
    ensures v0 < 64 && v1 < 64 && v2 < 64 && v3 < 64
    ensures Decode(s) == (
      match Decode(s[4..])
      case None => None
      case Some(r) => Some([(v0 * 4 + v1 / 16) as byte, ((v1 % 16) * 16 + v2 / 4) as byte,
                            ((v2 % 4) * 64 + v3) as byte] + r))
  {
    assert s[2] != '=' && s[3] != '=';
  }

  /** Decode reads a leading full group back as its three bytes. */
  lemma {:induction false} DecodeFullGroup(b0: byte, b1: byte, b2: byte, rest: string)
    ensures Decode(Group(b0, b1, b2) + rest) == (
      match Decode(rest)
      case None => None
      case Some(r) => Some([b0, b1, b2] + r))
  {
    var x0, x1, x2 := b0 as int, b1 as int, b2 as int;
    var v0, v1, v2, v3 := x0 / 4, (x0 % 4) * 16 + x1 / 16, (x1 % 16) * 4 + x2 / 64, x2 % 64;
    var s := Group(b0, b1, b2) + rest;
    ValueOfCharOf(v0);
    ValueOfCharOf(v1);
    ValueOfCharOf(v2);
    ValueOfCharOf(v3);
    assert s[0] == CharOf(v0) && s[1] == CharOf(v1) && s[2] == CharOf(v2) && s[3] == CharOf(v3);
    assert s[4..] == rest;
    DecodeAt(s, v0, v1, v2, v3);
    RegroupBits(x0, x1, x2);
  }

  /** Decoding recovers every encoded byte sequence exactly. */
  lemma {:induction false} DecodeEncode(d: seq<byte>)
    ensures Decode(Encode(d)) == Some(d)
    decreases |d|
  {
    if |d| == 1 {
      assert Encode(d) == Single(d[0]);
      DecodeSingle(d[0]);
      assert [d[0]] == d;
    } else if |d| == 2 {
      assert Encode(d) == Pair(d[0], d[1]);
      DecodePair(d[0], d[1]);
      assert [d[0], d[1]] == d;
    } else if |d| >= 3 {
      DecodeEncode(d[3..]);
      DecodeEncodeStep(d);
    }
  }

  /** One step of the round trip: a leading group decodes back, given that
      the rest does. */
  lemma {:induction false} DecodeEncodeStep(d: seq<byte>)
    requires |d| >= 3 && Decode(Encode(d[3..])) == Some(d[3..])
    ensures Decode(Encode(d)) == Some(d)
  {
    var rest := Encode(d[3..]);
    EncodeLong(d);
    DecodeFullGroup(d[0], d[1], d[2], rest);
    assert [d[0], d[1], d[2]] + d[3..] == d;
  }

  /** Encode on three or more bytes: a group, then the rest. */
  lemma EncodeLong(d: seq<byte>)
    requires |d| >= 3
    ensures Encode(d) == Group(d[0], d[1], d[2]) + Encode(d[3..])
  {
  }
}
