/** Base64 as defined in section 4 of RFC 4648 (`base64.b64encode`): the
    standard alphabet, `=` padding, and a strict decoder that accepts
    exactly the canonical encodings. */
module Base64 {
  import opened Basics

  /** The 6-bit value `i` as a character of the alphabet (Table 1 of the RFC). */
  function Letter(i: nat): (c: char)
    requires i < 64
    ensures c != '='
  {
    if i < 26 then ('A' as int + i) as char
    else if i < 52 then ('a' as int + (i - 26)) as char
    else if i < 62 then ('0' as int + (i - 52)) as char
    else if i == 62 then '+'
    else '/'
  }

  /** The 6-bit value of an alphabet character; `None` for anything else,
      including the pad character `=`. */
  function SextetOf(c: char): (r: Option<nat>)
    ensures r.Some? ==> r.value < 64 && Letter(r.value) == c
  {
    if 'A' <= c <= 'Z' then Some(c as int - 'A' as int)
    else if 'a' <= c <= 'z' then Some(c as int - 'a' as int + 26)
    else if '0' <= c <= '9' then Some(c as int - '0' as int + 52)
    else if c == '+' then Some(62)
    else if c == '/' then Some(63)
    else None
  }

  lemma SextetOfLetter(i: nat)
    requires i < 64
    ensures SextetOf(Letter(i)) == Some(i)
  {
  }

  /** Three octets as four characters. */
  function EncodeTriple(b0: byte, b1: byte, b2: byte): string
  {
    [Letter(b0 / 4), Letter((b0 % 4) * 16 + b1 / 16), Letter((b1 % 16) * 4 + b2 / 64), Letter(b2 % 64)]
  }

  /** The final quantum: one or two octets, padded to four characters. */
  function EncodeTail(bs: seq<byte>): string
    requires 1 <= |bs| <= 2
  {
    if |bs| == 1 then
      [Letter(bs[0] / 4), Letter((bs[0] % 4) * 16), '=', '=']
    else
      [Letter(bs[0] / 4), Letter((bs[0] % 4) * 16 + bs[1] / 16), Letter((bs[1] % 16) * 4), '=']
  }

  function Encode(bs: seq<byte>): (s: string)
    ensures |s| % 4 == 0 && (|bs| == 0 <==> |s| == 0)
    decreases |bs|
  {
    if |bs| == 0 then []
    else if |bs| <= 2 then EncodeTail(bs)
    else EncodeTriple(bs[0], bs[1], bs[2]) + Encode(bs[3..])
  }

  /** Every three octets (and a final one or two) become four characters. */
  lemma {:induction false} EncodedLength(bs: seq<byte>)
    ensures |Encode(bs)| == 4 * ((|bs| + 2) / 3)
    decreases |bs|
  {
    if |bs| > 2 {
      EncodedLength(bs[3..]);
      assert (|bs| + 2) / 3 == (|bs[3..]| + 2) / 3 + 1;
    }
  }

  /** Decodes four alphabet characters into three octets. */
  function DecodeQuad(s: string): Option<seq<byte>>
    requires |s| == 4
  {
    match (SextetOf(s[0]), SextetOf(s[1]), SextetOf(s[2]), SextetOf(s[3]))
    case (Some(i0), Some(i1), Some(i2), Some(i3)) =>
      Some([i0 * 4 + i1 / 16, (i1 % 16) * 16 + i2 / 4, (i2 % 4) * 64 + i3])
    case _ => None
  }

  /** Decodes the last quantum, which may carry one or two pad characters;
      the bits the padding leaves unused must be zero. */
  function DecodeFinal(s: string): Option<seq<byte>>
    requires |s| == 4
  {
    if s[2] == '=' && s[3] == '=' then
      match (SextetOf(s[0]), SextetOf(s[1]))
      case (Some(i0), Some(i1)) =>
        if i1 % 16 == 0 then Some([i0 * 4 + i1 / 16]) else None
      case _ => None
    else if s[3] == '=' then
      match (SextetOf(s[0]), SextetOf(s[1]), SextetOf(s[2]))
      case (Some(i0), Some(i1), Some(i2)) =>
        if i2 % 4 == 0 then Some([i0 * 4 + i1 / 16, (i1 % 16) * 16 + i2 / 4]) else None
      case _ => None
    else DecodeQuad(s)
  }

  function Decode(s: string): Option<seq<byte>>
    decreases |s|
  {
    if |s| == 0 then Some([])
    else if |s| < 4 then None
    else if |s| == 4 then DecodeFinal(s)
    else match DecodeQuad(s[..4])
      case None => None
      case Some(head) =>
        match Decode(s[4..])
        case None => None
        case Some(rest) => Some(head + rest)
  }

  lemma DecodeQuadOfTriple(b0: byte, b1: byte, b2: byte)
    ensures DecodeQuad(EncodeTriple(b0, b1, b2)) == Some([b0, b1, b2])
  {
    var i0, i1, i2, i3 := b0 / 4, (b0 % 4) * 16 + b1 / 16, (b1 % 16) * 4 + b2 / 64, b2 % 64;
    SextetOfLetter(i0);
    SextetOfLetter(i1);
    SextetOfLetter(i2);
    SextetOfLetter(i3);
    assert i1 / 16 == b0 % 4 && i1 % 16 == b1 / 16;
    assert i2 / 4 == b1 % 16 && i2 % 4 == b2 / 64;
  }

  lemma DecodeFinalOfTail(bs: seq<byte>)
    requires 1 <= |bs| <= 2
    ensures DecodeFinal(EncodeTail(bs)) == Some(bs)
  {
    var b0 := bs[0];
    SextetOfLetter(b0 / 4);
    if |bs| == 1 {
      var i1 := (b0 % 4) * 16;
      SextetOfLetter(i1);
      assert i1 % 16 == 0 && i1 / 16 == b0 % 4;
      assert (b0 / 4) * 4 + i1 / 16 == b0;
      var s := EncodeTail(bs);
      assert s == [Letter(b0 / 4), Letter(i1), '=', '='];
      assert DecodeFinal(s) == Some([b0]);
      assert bs == [b0];
    } else {
      var b1 := bs[1];
      var i1, i2 := (b0 % 4) * 16 + b1 / 16, (b1 % 16) * 4;
      SextetOfLetter(i1);
      SextetOfLetter(i2);
      assert i1 / 16 == b0 % 4 && i1 % 16 == b1 / 16;
      assert i2 / 4 == b1 % 16 && i2 % 4 == 0;
      var s := EncodeTail(bs);
      assert s == [Letter(b0 / 4), Letter(i1), Letter(i2), '='];
      assert DecodeFinal(s) == Some([b0, b1]);
      assert bs == [b0, b1];
    }
  }

  /** A full quantum followed by more input decodes as the quantum's
      octets followed by the rest's. */
  lemma DecodeConcat(head: string, tail: string, h: seq<byte>, r: seq<byte>)
    requires |head| == 4 && |tail| > 0
    requires DecodeQuad(head) == Some(h) && Decode(tail) == Some(r)
    ensures Decode(head + tail) == Some(h + r)
  {
    var s := head + tail;
    assert s[..4] == head && s[4..] == tail;
  }

  lemma DecodeSingleTriple(bs: seq<byte>)
    requires |bs| == 3
    ensures Decode(Encode(bs)) == Some(bs)
  {
    var s := EncodeTriple(bs[0], bs[1], bs[2]);
    DecodeQuadOfTriple(bs[0], bs[1], bs[2]);
    assert bs[3..] == [];
    assert Encode(bs) == s;
    assert s[3] != '=' by {
      assert s[3] == Letter(bs[2] % 64);
    }
    assert DecodeFinal(s) == DecodeQuad(s);
    assert bs == [bs[0], bs[1], bs[2]];
  }

  lemma DecodeLeadingTriple(bs: seq<byte>, tail: string)
    requires |bs| > 3
    requires tail == Encode(bs[3..])
    requires Decode(tail) == Some(bs[3..])
    ensures Decode(Encode(bs)) == Some(bs)
  {
    var head := EncodeTriple(bs[0], bs[1], bs[2]);
    assert Encode(bs) == head + tail;
    DecodeQuadOfTriple(bs[0], bs[1], bs[2]);
    DecodeConcat(head, tail, [bs[0], bs[1], bs[2]], bs[3..]);
    assert bs == [bs[0], bs[1], bs[2]] + bs[3..];
  }

  /** Decoding an encoding gives the original octets back. */
  lemma {:induction false} DecodeEncode(bs: seq<byte>)
    ensures Decode(Encode(bs)) == Some(bs)
    decreases |bs|
  {
    if |bs| == 0 {
    } else if |bs| <= 2 {
      DecodeFinalOfTail(bs);
    } else if |bs| == 3 {
      DecodeSingleTriple(bs);
    } else {
      DecodeEncode(bs[3..]);
      DecodeLeadingTriple(bs, Encode(bs[3..]));
    }
  }

  /** Every string the decoder accepts is the encoding of what it decodes
      to: the decoder accepts canonical encodings only. */
  lemma {:induction false} EncodeDecode(s: string)
    requires Decode(s).Some?
    ensures Encode(Decode(s).value) == s
    decreases |s|
  {
    if |s| == 4 {
      EncodeOfFinal(s);
    } else if |s| > 4 {
      var head := DecodeQuad(s[..4]).value;
      EncodeOfQuad(s[..4]);
      EncodeDecode(s[4..]);
      var rest := Decode(s[4..]).value;
      assert |rest| > 0;
      assert (head + rest)[3..] == rest;
      assert s == s[..4] + s[4..];
    }
  }

  lemma EncodeOfQuad(s: string)
    requires |s| == 4 && DecodeQuad(s).Some?
    ensures |DecodeQuad(s).value| == 3
    ensures var b := DecodeQuad(s).value; EncodeTriple(b[0], b[1], b[2]) == s
  {
    var i0, i1, i2, i3 := SextetOf(s[0]).value, SextetOf(s[1]).value, SextetOf(s[2]).value, SextetOf(s[3]).value;
    var b := DecodeQuad(s).value;
    assert b == [i0 * 4 + i1 / 16, (i1 % 16) * 16 + i2 / 4, (i2 % 4) * 64 + i3];
    SplitSextets(i0, i1, i2, i3);
    assert EncodeTriple(b[0], b[1], b[2]) == [Letter(i0), Letter(i1), Letter(i2), Letter(i3)];
  }

  /** Regrouping four sextets into three octets and back is the identity. */
  lemma SplitSextets(i0: nat, i1: nat, i2: nat, i3: nat)
    requires i0 < 64 && i1 < 64 && i2 < 64 && i3 < 64
    ensures var b0, b1, b2 := i0 * 4 + i1 / 16, (i1 % 16) * 16 + i2 / 4, (i2 % 4) * 64 + i3;
            && b0 < 256 && b1 < 256 && b2 < 256
            && b0 / 4 == i0 && (b0 % 4) * 16 + b1 / 16 == i1
            && (b1 % 16) * 4 + b2 / 64 == i2 && b2 % 64 == i3
  {
    var b0, b1, b2 := i0 * 4 + i1 / 16, (i1 % 16) * 16 + i2 / 4, (i2 % 4) * 64 + i3;
    assert b0 / 4 == i0 && b0 % 4 == i1 / 16;
    assert b1 / 16 == i1 % 16 && b1 % 16 == i2 / 4;
    assert b2 / 64 == i2 % 4 && b2 % 64 == i3;
  }

  lemma EncodeOfFinal(s: string)
    requires |s| == 4 && DecodeFinal(s).Some?
    ensures Encode(DecodeFinal(s).value) == s
  {
    if s[2] == '=' && s[3] == '=' {
      EncodeOfSingle(s);
    } else if s[3] == '=' {
      EncodeOfPair(s);
    } else {
      EncodeOfQuad(s);
      var b := DecodeQuad(s).value;
      assert b[3..] == [];
    }
  }

  lemma EncodeOfSingle(s: string)
    requires |s| == 4 && s[2] == '=' && s[3] == '='
    requires DecodeFinal(s).Some?
    ensures Encode(DecodeFinal(s).value) == s
  {
    var i0, i1 := SextetOf(s[0]).value, SextetOf(s[1]).value;
    var b0 := i0 * 4 + i1 / 16;
    assert DecodeFinal(s).value == [b0];
    assert b0 / 4 == i0 && (b0 % 4) * 16 == i1;
  }

  lemma EncodeOfPair(s: string)
    requires |s| == 4 && s[2] != '=' && s[3] == '='
    requires DecodeFinal(s).Some?
    ensures Encode(DecodeFinal(s).value) == s
  {
    var i0, i1, i2 := SextetOf(s[0]).value, SextetOf(s[1]).value, SextetOf(s[2]).value;
    var b0, b1 := i0 * 4 + i1 / 16, (i1 % 16) * 16 + i2 / 4;
    assert DecodeFinal(s).value == [b0, b1];
    assert b0 / 4 == i0 && b0 % 4 == i1 / 16;
    assert b1 / 16 == i1 % 16 && (b1 % 16) * 4 == i2;
  }

  /** Distinct octet strings have distinct encodings. */
  lemma EncodeInjective(a: seq<byte>, b: seq<byte>)
    requires Encode(a) == Encode(b)
    ensures a == b
  {
    DecodeEncode(a);
    DecodeEncode(b);
  }
}
