/** UTF-8 encoding of strings (`str.encode('utf-8')`) and a strict decoder
    that inverts it. A Dafny `char` is a Unicode scalar value, which is
    exactly what UTF-8 encodes. */
module Utf8 {
  import opened Basics

  /** A continuation byte, 10xxxxxx. */
  predicate IsContinuation(b: byte)
  {
    0x80 <= b < 0xC0
  }

  /** The one to four bytes that encode a single scalar value: a lead byte
      whose high bits announce the length, then continuation bytes, laid out
      so that the strict decoder reads exactly `c` back from them. */
  function EncodeChar(c: char): (bs: seq<byte>)
    ensures 1 <= |bs| <= 4
    ensures |bs| == 1 <==> c as int < 0x80
    ensures |bs| == 1 ==> bs[0] == c as int
    ensures |bs| == 2 <==> 0x80 <= c as int < 0x800
    ensures |bs| == 3 <==> 0x800 <= c as int < 0x1_0000
    ensures |bs| == 2 ==> 0xC0 <= bs[0] < 0xE0
    ensures |bs| == 3 ==> 0xE0 <= bs[0] < 0xF0
    ensures |bs| == 4 ==> 0xF0 <= bs[0] < 0xF8
    ensures forall i :: 1 <= i < |bs| ==> IsContinuation(bs[i])
    ensures DecodeFirst(bs) == Some((c, |bs|))
  {
    var cp := c as int;
    if cp < 0x80 then [cp]
    else if cp < 0x800 then EncodeTwo(c)
    else if cp < 0x1_0000 then EncodeThree(c)
    else EncodeFour(c)
  }

  /** The two-byte form 110xxxxx 10xxxxxx. */
  function EncodeTwo(c: char): (bs: seq<byte>)
    requires 0x80 <= c as int < 0x800
    ensures |bs| == 2 && 0xC0 <= bs[0] < 0xE0 && IsContinuation(bs[1])
    ensures DecodeFirst(bs) == Some((c, 2))
  {
    var cp := c as int;
    assert (cp / 64) * 64 + cp % 64 == cp;
    [0xC0 + cp / 64, 0x80 + cp % 64]
  }

  /** The three-byte form 1110xxxx 10xxxxxx 10xxxxxx. */
  function EncodeThree(c: char): (bs: seq<byte>)
    requires 0x800 <= c as int < 0x1_0000
    ensures |bs| == 3 && 0xE0 <= bs[0] < 0xF0 && IsContinuation(bs[1]) && IsContinuation(bs[2])
    ensures DecodeFirst(bs) == Some((c, 3))
  {
    var cp := c as int;
    assert (cp / 4096) * 4096 + ((cp / 64) % 64) * 64 + cp % 64 == cp;
    [0xE0 + cp / 4096, 0x80 + (cp / 64) % 64, 0x80 + cp % 64]
  }

  /** The four-byte form 11110xxx 10xxxxxx 10xxxxxx 10xxxxxx. */
  function EncodeFour(c: char): (bs: seq<byte>)
    requires 0x1_0000 <= c as int
    ensures |bs| == 4 && 0xF0 <= bs[0] < 0xF8
    ensures IsContinuation(bs[1]) && IsContinuation(bs[2]) && IsContinuation(bs[3])
    ensures DecodeFirst(bs) == Some((c, 4))
  {
    var cp := c as int;
    assert (cp / 262144) * 262144 + ((cp / 4096) % 64) * 4096 + ((cp / 64) % 64) * 64 + cp % 64 == cp;
    [0xF0 + cp / 262144, 0x80 + (cp / 4096) % 64, 0x80 + (cp / 64) % 64, 0x80 + cp % 64]
  }

  function Encode(s: string): (bs: seq<byte>)
    ensures |s| <= |bs| <= 4 * |s|
    decreases |s|
  {
    if |s| == 0 then [] else EncodeChar(s[0]) + Encode(s[1..])
  }

  /** True when `cp` is a Unicode scalar value, i.e. a valid `char`. */
  predicate IsScalar(cp: int)
  {
    (0 <= cp < 0xD800) || (0xE000 <= cp < 0x11_0000)
  }

  /** Decodes the first scalar value of `bs`, returning it with the number
      of bytes it took; rejects overlong forms, surrogates and values past
      U+10FFFF. */
  function DecodeFirst(bs: seq<byte>): (r: Option<(char, nat)>)
    requires |bs| > 0
    ensures r.Some? ==> 1 <= r.value.1 <= |bs| && r.value.1 <= 4
  {
    var b0: int := bs[0];
    if b0 < 0x80 then Some((b0 as char, 1))
    else if 0xC0 <= b0 < 0xE0 && |bs| >= 2 && IsContinuation(bs[1]) then
      var cp := (b0 - 0xC0) * 64 + (bs[1] as int - 0x80);
      if 0x80 <= cp then Some((cp as char, 2)) else None
    else if 0xE0 <= b0 < 0xF0 && |bs| >= 3 && IsContinuation(bs[1]) && IsContinuation(bs[2]) then
      var cp := (b0 - 0xE0) * 4096 + (bs[1] as int - 0x80) * 64 + (bs[2] as int - 0x80);
      if 0x800 <= cp && IsScalar(cp) then Some((cp as char, 3)) else None
    else if 0xF0 <= b0 < 0xF8 && |bs| >= 4 && IsContinuation(bs[1]) && IsContinuation(bs[2]) && IsContinuation(bs[3]) then
      var cp := (b0 - 0xF0) * 262144 + (bs[1] as int - 0x80) * 4096 + (bs[2] as int - 0x80) * 64 + (bs[3] as int - 0x80);
      if 0x1_0000 <= cp && IsScalar(cp) then Some((cp as char, 4)) else None
    else None
  }

  /** Strict UTF-8 decoding (`bytes.decode('utf-8')`); `None` on malformed input. */
  function Decode(bs: seq<byte>): Option<string>
    decreases |bs|
  {
    if |bs| == 0 then Some([])
    else match DecodeFirst(bs)
      case None => None
      case Some(first) =>
        match Decode(bs[first.1..])
        case None => None
        case Some(rest) => Some([first.0] + rest)
  }

  /** The decoder reads back exactly the bytes `EncodeChar` wrote. */
  lemma DecodeFirstOfEncodeChar(c: char, rest: seq<byte>)
    ensures DecodeFirst(EncodeChar(c) + rest) == Some((c, |EncodeChar(c)|))
  {
    var head := EncodeChar(c);
    var bs := head + rest;
    assert bs[..|head|] == head;
  }

  /** Decoding an encoding gives the original string back. */
  lemma {:induction false} DecodeEncode(s: string)
    ensures Decode(Encode(s)) == Some(s)
    decreases |s|
  {
    if |s| > 0 {
      var head := EncodeChar(s[0]);
      var bs := Encode(s);
      DecodeFirstOfEncodeChar(s[0], Encode(s[1..]));
      assert bs[|head|..] == Encode(s[1..]);
      DecodeEncode(s[1..]);
      assert s == [s[0]] + s[1..];
    }
  }

  /** Distinct strings have distinct encodings. */
  lemma EncodeInjective(s: string, t: string)
    requires Encode(s) == Encode(t)
    ensures s == t
  {
    DecodeEncode(s);
    DecodeEncode(t);
  }
}
