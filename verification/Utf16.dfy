/** UTF-16 code units of a Rust string: `encode_utf16`, `len_utf16`, `from_utf16_lossy`. */
module Utf16 {

  /** One UTF-16 code unit. */
  type u16 = x: int | 0 <= x < 0x10000

  function Width(c: char): nat {
    if (c as int) < 0x10000 then 1 else 2
  }

  /** The UTF-16 length of `s`. */
  function Units(s: string): nat {
    if s == [] then 0 else Units(s[..|s| - 1]) + Width(s[|s| - 1])
  }

  function EncodeChar(c: char): (u: seq<u16>)
    ensures |u| == Width(c)
  {
    var x := c as int;
    if x < 0x10000 then [x]
    else [0xD800 + (x - 0x10000) / 0x400, 0xDC00 + (x - 0x10000) % 0x400]
  }

  function Encode(s: string): seq<u16> {
    if s == [] then [] else Encode(s[..|s| - 1]) + EncodeChar(s[|s| - 1])
  }

  predicate HighSurrogate(u: u16) { 0xD800 <= u < 0xDC00 }
  predicate LowSurrogate(u: u16) { 0xDC00 <= u < 0xE000 }

  /** `String::from_utf16_lossy`: an unpaired surrogate reads as U+FFFD. */
  function DecodeLossy(u: seq<u16>): string
  {
    if u == [] then []
    else if HighSurrogate(u[0]) && |u| > 1 && LowSurrogate(u[1]) then
      [(0x10000 + (u[0] as int - 0xD800) * 0x400 + (u[1] as int - 0xDC00)) as char] + DecodeLossy(u[2..])
    else if HighSurrogate(u[0]) || LowSurrogate(u[0]) then
      [0xFFFD as char] + DecodeLossy(u[1..])
    else [u[0] as char] + DecodeLossy(u[1..])
  }

  lemma {:induction false} UnitsConcat(a: string, b: string)
    ensures Units(a + b) == Units(a) + Units(b)
    decreases |b|
  {
    if b == [] {
      assert a + b == a;
    } else {
      UnitsConcat(a, b[..|b| - 1]);
      assert (a + b)[..|a + b| - 1] == a + b[..|b| - 1];
    }
  }

  lemma {:induction false} EncodeConcat(a: string, b: string)
    ensures Encode(a + b) == Encode(a) + Encode(b)
    decreases |b|
  {
    if b == [] {
      assert a + b == a;
    } else {
      EncodeConcat(a, b[..|b| - 1]);
      assert (a + b)[..|a + b| - 1] == a + b[..|b| - 1];
    }
  }

  lemma {:induction false} EncodeUnits(s: string)
    ensures |Encode(s)| == Units(s)
  {
    if s != [] {
      EncodeUnits(s[..|s| - 1]);
    }
  }

  lemma DecodeFirst(c: char, rest: seq<u16>)
    ensures DecodeLossy(EncodeChar(c) + rest) == [c] + DecodeLossy(rest)
  {
    assert (EncodeChar(c) + rest)[|EncodeChar(c)|..] == rest;
  }

  /** Decoding what was encoded gives the string back. */
  lemma {:induction false} DecodeEncode(s: string)
    ensures DecodeLossy(Encode(s)) == s
  {
    if s != [] {
      var first, rest := [s[0]], s[1..];
      assert Encode(s) == EncodeChar(s[0]) + Encode(rest) by {
        assert s == first + rest;
        EncodeConcat(first, rest);
        assert first[..0] == [];
      }
      DecodeEncode(rest);
      DecodeFirst(s[0], Encode(rest));
    }
  }

  /** The units between two character boundaries are the encoding of the characters between them. */
  lemma SliceUnits(s: string, a: nat, b: nat)
    requires a <= b <= |s|
    ensures Units(s[..a]) <= Units(s[..b]) <= |Encode(s)| == Units(s)
    ensures Encode(s)[Units(s[..a])..Units(s[..b])] == Encode(s[a..b])
  {
    assert s == s[..a] + s[a..b] + s[b..];
    assert s[..b] == s[..a] + s[a..b];
    EncodeConcat(s[..a] + s[a..b], s[b..]);
    EncodeConcat(s[..a], s[a..b]);
    UnitsConcat(s[..a], s[a..b]);
    UnitsConcat(s[..b], s[b..]);
    EncodeUnits(s); EncodeUnits(s[..a]); EncodeUnits(s[..b]); EncodeUnits(s[a..b]);
  }

  /** The UTF-16 offset of character `i` of `s`. */
  function UnitsTo(s: string, i: nat): nat
    requires i <= |s|
  {
    if i == 0 then 0 else UnitsTo(s, i - 1) + Width(s[i - 1])
  }

  lemma {:induction false} UnitsToPrefix(s: string, i: nat)
    requires i <= |s|
    ensures UnitsTo(s, i) == Units(s[..i])
  {
    if i > 0 {
      UnitsToPrefix(s, i - 1);
      assert s[..i][..i - 1] == s[..i - 1];
    }
  }

  /** Reading a UTF-16 slice cut at character boundaries gives exactly those characters. */
  lemma DecodeSlice(s: string, a: nat, b: nat)
    requires a <= b <= |s|
    ensures UnitsTo(s, a) <= UnitsTo(s, b) <= |Encode(s)| == UnitsTo(s, |s|)
    ensures DecodeLossy(Encode(s)[UnitsTo(s, a)..UnitsTo(s, b)]) == s[a..b]
  {
    SliceUnits(s, a, b);
    UnitsToPrefix(s, a);
    UnitsToPrefix(s, b);
    UnitsToPrefix(s, |s|);
    assert s[..|s|] == s;
    DecodeEncode(s[a..b]);
  }

  /** Distinct character boundaries have distinct UTF-16 offsets. */
  lemma {:induction false} UnitsGrow(s: string, a: nat, b: nat)
    requires a < b <= |s|
    ensures UnitsTo(s, a) < UnitsTo(s, b)
  {
    if a < b - 1 {
      UnitsGrow(s, a, b - 1);
    }
  }
}
