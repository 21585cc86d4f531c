/** UTF-8 as defined by section 4 of RFC 3629: which byte sequences are
    well-formed, the text they encode, and the encoder they invert. This is
    the check `String::from_utf8` performs for `ToVec::to_string`. */
module Utf8 {
  import opened Wrappers

  type Byte = b: int | 0 <= b < 256

  /** UTF8-tail = %x80-BF */
  predicate IsTail(b: Byte)
  {
    0x80 <= b <= 0xBF
  }

  /** The range the second byte of a three- or four-byte character must lie
      in, given its first byte: the ranges that rule out overlong forms,
      surrogates and values above U+10FFFF. */
  predicate SecondOk(b0: Byte, b1: Byte)
  {
    if b0 == 0xE0 then 0xA0 <= b1 <= 0xBF
    else if b0 == 0xED then 0x80 <= b1 <= 0x9F
    else if b0 == 0xF0 then 0x90 <= b1 <= 0xBF
    else if b0 == 0xF4 then 0x80 <= b1 <= 0x8F
    else IsTail(b1)
  }

  /** The length of the UTF8-char that `s` starts with, following the
      grammar rules UTF8-1 to UTF8-4; 0 when `s` starts with none. */
  function CharWidth(s: seq<Byte>): (w: nat)
    ensures w <= |s| && w <= 4
  {
    if |s| == 0 then 0
    else if s[0] <= 0x7F then 1
    else if 0xC2 <= s[0] <= 0xDF then
      if |s| >= 2 && IsTail(s[1]) then 2 else 0
    else if 0xE0 <= s[0] <= 0xEF then
      if |s| >= 3 && SecondOk(s[0], s[1]) && IsTail(s[2]) then 3 else 0
    else if 0xF0 <= s[0] <= 0xF4 then
      if |s| >= 4 && SecondOk(s[0], s[1]) && IsTail(s[2]) && IsTail(s[3]) then 4 else 0
    else 0
  }

  /** UTF8-octets = *( UTF8-char ) */
  predicate Valid(s: seq<Byte>)
    decreases |s|
  {
    s == [] || (CharWidth(s) > 0 && Valid(s[CharWidth(s)..]))
  }

  /** The values of the two-, three- and four-byte forms: the payload
      bits of each byte, most significant first. */
  function Value2(b0: int, b1: int): int
  {
    (b0 - 0xC0) * 64 + (b1 - 0x80)
  }

  function Value3(b0: int, b1: int, b2: int): int
  {
    ((b0 - 0xE0) * 64 + (b1 - 0x80)) * 64 + (b2 - 0x80)
  }

  function Value4(b0: int, b1: int, b2: int, b3: int): int
  {
    (((b0 - 0xF0) * 64 + (b1 - 0x80)) * 64 + (b2 - 0x80)) * 64 + (b3 - 0x80)
  }

  /** The code point held by the well-formed character `s` starts with. */
  function CodePoint(s: seq<Byte>): (v: int)
    requires CharWidth(s) > 0
    ensures 0 <= v < 0xD800 || 0xE000 <= v <= 0x10FFFF
  {
    var w := CharWidth(s);
    if w == 1 then s[0]
    else if w == 2 then Value2(s[0], s[1])
    else if w == 3 then Value3(s[0], s[1], s[2])
    else Value4(s[0], s[1], s[2], s[3])
  }

  function DecodeChar(s: seq<Byte>): char
    requires CharWidth(s) > 0
  {
    CodePoint(s) as char
  }

  /** The text a well-formed byte sequence encodes. */
  function DecodeAll(s: seq<Byte>): string
    requires Valid(s)
    decreases |s|
  {
    if s == [] then "" else [DecodeChar(s)] + DecodeAll(s[CharWidth(s)..])
  }

  /** The shortest encoding of one code point (RFC 3629 section 3): six
      payload bits per continuation byte, the rest in the leading byte. */
  function EncodeChar(c: char): (b: seq<Byte>)
    ensures 1 <= |b| <= 4
  {
    var v := c as int;
    var q1 := v / 64;
    var q2 := q1 / 64;
    var q3 := q2 / 64;
    if v < 0x80 then [v]
    else if v < 0x800 then [0xC0 + q1, 0x80 + v % 64]
    else if v < 0x10000 then [0xE0 + q2, 0x80 + q1 % 64, 0x80 + v % 64]
    else [0xF0 + q3, 0x80 + q2 % 64, 0x80 + q1 % 64, 0x80 + v % 64]
  }

  function EncodeAll(t: string): seq<Byte>
  {
    if t == "" then [] else EncodeChar(t[0]) + EncodeAll(t[1..])
  }

  /** `String::from_utf8`: the text if the bytes are UTF-8, `None` if not. */
  function FromUtf8(bytes: seq<Byte>): Option<string>
  {
    if Valid(bytes) then Some(DecodeAll(bytes)) else None
  }

  /** The encoding of a code point is one well-formed character, whatever
      follows it, and it decodes back to that code point. */
  lemma EncodeCharDecodes(c: char, rest: seq<Byte>)
    ensures CharWidth(EncodeChar(c) + rest) == |EncodeChar(c)|
    ensures DecodeChar(EncodeChar(c) + rest) == c
  {
    var s := EncodeChar(c) + rest;
    assert s[..|EncodeChar(c)|] == EncodeChar(c);
  }

  /** A well-formed character is the encoding of the code point it decodes to. */
  lemma DecodeCharEncodes(s: seq<Byte>)
    requires CharWidth(s) > 0
    ensures EncodeChar(DecodeChar(s)) == s[..CharWidth(s)]
  {
    var w := CharWidth(s);
    if w == 2 {
      PayloadSplits2(s[0], s[1]);
    } else if w == 3 {
      PayloadSplits3(s[0], s[1], s[2]);
    } else if w == 4 {
      PayloadSplits4(s[0], s[1], s[2], s[3]);
    }
  }

  /** The quotients and remainders by 64 that `EncodeChar` takes of a
      decoded value give back the payload of each byte. */
  lemma PayloadSplits2(b0: Byte, b1: Byte)
    requires 0xC2 <= b0 <= 0xDF && IsTail(b1)
    ensures 0x80 <= Value2(b0, b1) < 0x800
    ensures Value2(b0, b1) / 64 == b0 - 0xC0 && Value2(b0, b1) % 64 == b1 - 0x80
  {
  }

  lemma PayloadSplits3(b0: Byte, b1: Byte, b2: Byte)
    requires 0xE0 <= b0 <= 0xEF && SecondOk(b0, b1) && IsTail(b2)
    ensures 0x800 <= Value3(b0, b1, b2) < 0x10000
    ensures Value3(b0, b1, b2) / 64 == (b0 - 0xE0) * 64 + (b1 - 0x80)
    ensures Value3(b0, b1, b2) / 64 / 64 == b0 - 0xE0
    ensures Value3(b0, b1, b2) / 64 % 64 == b1 - 0x80
    ensures Value3(b0, b1, b2) % 64 == b2 - 0x80
  {
  }

  lemma PayloadSplits4(b0: Byte, b1: Byte, b2: Byte, b3: Byte)
    requires 0xF0 <= b0 <= 0xF4 && SecondOk(b0, b1) && IsTail(b2) && IsTail(b3)
    ensures 0x10000 <= Value4(b0, b1, b2, b3) <= 0x10FFFF
    ensures Value4(b0, b1, b2, b3) / 64 == ((b0 - 0xF0) * 64 + (b1 - 0x80)) * 64 + (b2 - 0x80)
    ensures Value4(b0, b1, b2, b3) / 64 / 64 == (b0 - 0xF0) * 64 + (b1 - 0x80)
    ensures Value4(b0, b1, b2, b3) / 64 / 64 / 64 == b0 - 0xF0
    ensures Value4(b0, b1, b2, b3) / 64 / 64 % 64 == b1 - 0x80
    ensures Value4(b0, b1, b2, b3) / 64 % 64 == b2 - 0x80
    ensures Value4(b0, b1, b2, b3) % 64 == b3 - 0x80
  {
  }

  /** Encoding any text gives well-formed bytes that decode to that text. */
  lemma {:induction false} EncodeAllDecodes(t: string)
    ensures Valid(EncodeAll(t))
    ensures DecodeAll(EncodeAll(t)) == t
  {
    if t != "" {
      var rest := EncodeAll(t[1..]);
      EncodeCharDecodes(t[0], rest);
      var s := EncodeChar(t[0]) + rest;
      assert s[CharWidth(s)..] == rest;
      EncodeAllDecodes(t[1..]);
      assert t == [t[0]] + t[1..];
    }
  }

  /** Decoding well-formed bytes and encoding the text again gives back the
      same bytes: nothing substituted, nothing reordered. */
  lemma {:induction false} DecodeAllEncodes(s: seq<Byte>)
    requires Valid(s)
    ensures EncodeAll(DecodeAll(s)) == s
    decreases |s|
  {
    if s != [] {
      var w := CharWidth(s);
      DecodeCharEncodes(s);
      DecodeAllEncodes(s[w..]);
      var t := DecodeAll(s);
      assert t[0] == DecodeChar(s) && t[1..] == DecodeAll(s[w..]);
      assert s == s[..w] + s[w..];
    }
  }

  /** `from_utf8` succeeds exactly on well-formed input, and the text it
      returns is encoded by exactly the input bytes. */
  lemma FromUtf8Spec(bytes: seq<Byte>)
    ensures FromUtf8(bytes).Some? <==> Valid(bytes)
    ensures FromUtf8(bytes).Some? ==> EncodeAll(FromUtf8(bytes).value) == bytes
  {
    if Valid(bytes) {
      DecodeAllEncodes(bytes);
    }
  }

  /** Bytes below 0x80 are always well-formed (UTF8-1). */
  lemma {:induction false} AsciiValid(s: seq<Byte>)
    requires forall i :: 0 <= i < |s| ==> s[i] < 0x80
    ensures Valid(s)
    decreases |s|
  {
    if s != [] {
      AsciiValid(s[1..]);
    }
  }

  /** ASCII text is encoded one byte per character, each byte the
      character's code. */
  lemma {:induction false} EncodeAscii(t: string)
    requires forall i :: 0 <= i < |t| ==> t[i] as int < 0x80
    ensures |EncodeAll(t)| == |t|
    ensures forall i :: 0 <= i < |t| ==> EncodeAll(t)[i] == t[i] as int
  {
    if t != "" {
      EncodeAscii(t[1..]);
      assert EncodeAll(t) == [t[0] as int] + EncodeAll(t[1..]);
    }
  }

  /** Well-formed sequences stay well-formed when concatenated. */
  lemma {:induction false} ValidConcat(a: seq<Byte>, b: seq<Byte>)
    requires Valid(a) && Valid(b)
    ensures Valid(a + b)
    decreases |a|
  {
    if a != [] {
      var w := CharWidth(a);
      assert w > 0 && Valid(a[w..]);
      assert (a + b)[..w] == a[..w];
      assert CharWidth(a + b) == w;
      assert (a + b)[w..] == a[w..] + b;
      ValidConcat(a[w..], b);
    } else {
      assert a + b == b;
    }
  }

  /** Sequences RFC 3629 rules out: a lone continuation byte, an overlong
      two-byte form, an encoded surrogate, a value above U+10FFFF, and a
      character cut short. */
  lemma InvalidExamples()
    ensures !Valid([0x80])
    ensures !Valid([0xC0, 0x80])
    ensures !Valid([0xED, 0xA0, 0x80])
    ensures !Valid([0xF4, 0x90, 0x80, 0x80])
    ensures !Valid([0xE2, 0x82])
  {
  }
}
