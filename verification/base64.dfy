/** Base64 as defined in section 4 of RFC 4648 (alphabet `A-Z a-z 0-9 + /`,
    `=` padding), with the behaviour of Python's `base64.b64encode` and of
    `b64decode` on well-formed input. */
module Base64 {
  import opened Text
  import opened Wrappers

  /** Why decoding fails (`binascii.Error` in Python). */
  datatype DecodeError = IncorrectPadding | InvalidCharacter

  predicate IsBase64Char(c: char)
  {
    ('A' <= c <= 'Z') || ('a' <= c <= 'z') || ('0' <= c <= '9') || c == '+' || c == '/'
  }

  /** The alphabet character for a 6-bit value (table 1 of RFC 4648). */
  function CharOf(v: nat): (c: char)
    requires v < 64
    ensures IsBase64Char(c)
  {
    if v < 26 then ('A' as int + v) as char
    else if v < 52 then ('a' as int + v - 26) as char
    else if v < 62 then ('0' as int + v - 52) as char
    else if v == 62 then '+'
    else '/'
  }

  /** The 6-bit value of an alphabet character; the inverse of `CharOf`. */
  function ValueOf(c: char): (v: nat)
    requires IsBase64Char(c)
    ensures v < 64
    ensures CharOf(v) == c
  {
    if 'A' <= c <= 'Z' then c as int - 'A' as int
    else if 'a' <= c <= 'z' then c as int - 'a' as int + 26
    else if '0' <= c <= '9' then c as int - '0' as int + 52
    else if c == '+' then 62
    else 63
  }

  lemma ValueOfChar(v: nat)
    requires v < 64
    ensures ValueOf(CharOf(v)) == v
  {
  }

  /** Encoding of a final group of one byte: two characters and `==`. */
  function EncodeOne(a: byte): string
  {
    [CharOf(a / 4), CharOf((a % 4) * 16), '=', '=']
  }

  /** Encoding of a final group of two bytes: three characters and `=`. */
  function EncodeTwo(a: byte, b: byte): string
  {
    [CharOf(a / 4), CharOf((a % 4) * 16 + b / 16), CharOf((b % 16) * 4), '=']
  }

  /** Encoding of a full group of three bytes: four characters. */
  function EncodeThree(a: byte, b: byte, c: byte): string
  {
    [CharOf(a / 4), CharOf((a % 4) * 16 + b / 16), CharOf((b % 16) * 4 + c / 64), CharOf(c % 64)]
  }

  /** `b64encode`: every group of three bytes becomes four characters, and a
      final short group is padded with `=` to four characters. */
  function Encode(b: seq<byte>): (s: string)
    ensures |s| == 4 * ((|b| + 2) / 3)
  {
    if |b| == 0 then ""
    else if |b| == 1 then EncodeOne(b[0])
    else if |b| == 2 then EncodeTwo(b[0], b[1])
    else EncodeThree(b[0], b[1], b[2]) + Encode(b[3..])
  }

  /** Three bytes from four alphabet characters. */
  function DecodeQuad(q: string): (r: Result<seq<byte>, DecodeError>)
    requires |q| == 4
    ensures r.Success? ==> |r.value| == 3
  {
    if !(IsBase64Char(q[0]) && IsBase64Char(q[1]) && IsBase64Char(q[2]) && IsBase64Char(q[3])) then
      Failure(InvalidCharacter)
    else
      var v0, v1, v2, v3 := ValueOf(q[0]), ValueOf(q[1]), ValueOf(q[2]), ValueOf(q[3]);
      Success([v0 * 4 + v1 / 16, (v1 % 16) * 16 + v2 / 4, (v2 % 4) * 64 + v3])
  }

  /** The last group, which may carry one or two `=` of padding. The bits
      that padding leaves over are ignored, as Python's decoder does. */
  function DecodeLast(q: string): (r: Result<seq<byte>, DecodeError>)
    requires |q| == 4
    ensures r.Success? ==> 1 <= |r.value| <= 3
  {
    if q[2] == '=' && q[3] == '=' then
      if IsBase64Char(q[0]) && IsBase64Char(q[1]) then
        Success([ValueOf(q[0]) * 4 + ValueOf(q[1]) / 16])
      else Failure(InvalidCharacter)
    else if q[3] == '=' then
      if IsBase64Char(q[0]) && IsBase64Char(q[1]) && IsBase64Char(q[2]) then
        var v0, v1, v2 := ValueOf(q[0]), ValueOf(q[1]), ValueOf(q[2]);
        Success([v0 * 4 + v1 / 16, (v1 % 16) * 16 + v2 / 4])
      else Failure(InvalidCharacter)
    else DecodeQuad(q)
  }

  /** `b64decode` on text made of whole four-character groups, padding only
      in the last group. */
  function Decode(s: string): (r: Result<seq<byte>, DecodeError>)
    ensures |s| % 4 != 0 ==> r == Failure(IncorrectPadding)
    ensures r.Success? ==> 4 * |r.value| <= 3 * |s| <= 4 * |r.value| + 8
    decreases |s|
  {
    if |s| == 0 then Success([])
    else if |s| % 4 != 0 then Failure(IncorrectPadding)
    else if |s| == 4 then DecodeLast(s)
    else
      var head :- DecodeQuad(s[..4]);
      var tail :- Decode(s[4..]);
      Success(head + tail)
  }

  /** Text that decodes is made of alphabet characters, except that the
      last two may be `=` padding. */
  lemma {:induction false} DecodeAlphabet(s: string)
    requires Decode(s).Success?
    ensures forall i :: 0 <= i < |s| - 2 ==> IsBase64Char(s[i])
    ensures forall i :: 0 <= i < |s| && |s| - 2 <= i ==> IsBase64Char(s[i]) || s[i] == '='
    decreases |s|
  {
    if |s| > 4 {
      DecodeAlphabet(s[4..]);
      assert forall i :: 4 <= i < |s| ==> s[i] == s[4..][i - 4];
      assert forall i :: 0 <= i < 4 ==> s[i] == s[..4][i];
    }
  }

  /** A value packed above four low bits is recovered by `/ 16` and `% 16`. */
  lemma Unpack16(x: nat, y: nat)
    requires y < 16
    ensures (x * 16 + y) / 16 == x && (x * 16 + y) % 16 == y
  {
  }

  /** A value packed above two low bits is recovered by `/ 4` and `% 4`. */
  lemma Unpack4(x: nat, y: nat)
    requires y < 4
    ensures (x * 4 + y) / 4 == x && (x * 4 + y) % 4 == y
  {
  }

  lemma RecoverFirst(a: byte, b: byte)
    ensures (a / 4) * 4 + ((a % 4) * 16 + b / 16) / 16 == a
  {
    Unpack16(a % 4, b / 16);
  }

  lemma RecoverSecond(a: byte, b: byte, c: byte)
    ensures (((a % 4) * 16 + b / 16) % 16) * 16 + ((b % 16) * 4 + c / 64) / 4 == b
  {
    Unpack16(a % 4, b / 16);
    Unpack4(b % 16, c / 64);
  }

  lemma RecoverThird(b: byte, c: byte)
    ensures (((b % 16) * 4 + c / 64) % 4) * 64 + c % 64 == c
  {
    Unpack4(b % 16, c / 64);
  }

  lemma DecodeEncodeOne(a: byte)
    ensures DecodeLast(EncodeOne(a)) == Success([a])
  {
    var v0, v1 := a / 4, (a % 4) * 16;
    ValueOfChar(v0);
    ValueOfChar(v1);
    assert v0 * 4 + v1 / 16 == a by { Unpack16(a % 4, 0); }
  }

  lemma DecodeEncodeTwo(a: byte, b: byte)
    ensures DecodeLast(EncodeTwo(a, b)) == Success([a, b])
  {
    var v0, v1, v2 := a / 4, (a % 4) * 16 + b / 16, (b % 16) * 4;
    ValueOfChar(v0);
    ValueOfChar(v1);
    ValueOfChar(v2);
    RecoverFirst(a, b);
    assert (v1 % 16) * 16 + v2 / 4 == b by { RecoverSecond(a, b, 0); }
  }

  lemma DecodeEncodeThree(a: byte, b: byte, c: byte)
    ensures DecodeQuad(EncodeThree(a, b, c)) == Success([a, b, c])
  {
    var v0, v1, v2, v3 := a / 4, (a % 4) * 16 + b / 16, (b % 16) * 4 + c / 64, c % 64;
    ValueOfChar(v0);
    ValueOfChar(v1);
    ValueOfChar(v2);
    ValueOfChar(v3);
    RecoverFirst(a, b);
    RecoverSecond(a, b, c);
    RecoverThird(b, c);
  }

  lemma GroupLength(m: nat, n: nat)
    requires m == 4 && n % 4 == 0
    ensures (m + n) % 4 == 0
  {
  }

  /** Decoding a full leading group followed by more groups. */
  lemma DecodeCons(q: string, rest: string, h: seq<byte>, t: seq<byte>)
    requires |q| == 4 && |rest| > 0 && |rest| % 4 == 0
    requires DecodeQuad(q) == Success(h) && Decode(rest) == Success(t)
    ensures Decode(q + rest) == Success(h + t)
  {
    var s := q + rest;
    assert s[..4] == q && s[4..] == rest;
    GroupLength(|q|, |rest|);
    assert |s| % 4 == 0 && |s| != 4;
    assert DecodeQuad(s[..4]) == Success(h) && Decode(s[4..]) == Success(t);
  }

  /** A single final group: four characters decoded by `DecodeLast`. */
  lemma DecodeLastGroup(s: string, b: seq<byte>)
    requires |s| == 4 && DecodeLast(s) == Success(b)
    ensures Decode(s) == Success(b)
  {
  }

  lemma SplitHead(b: seq<byte>)
    requires |b| >= 3
    ensures [b[0], b[1], b[2]] + b[3..] == b
  {
  }

  /** Round trip of an input of at most three bytes: one final group. */
  lemma DecodeEncodeShort(b: seq<byte>)
    requires 1 <= |b| <= 3
    ensures Decode(Encode(b)) == Success(b)
  {
    if |b| == 1 {
      DecodeEncodeSingle(b);
    } else if |b| == 2 {
      DecodeEncodePair(b);
    } else {
      DecodeEncodeGroup(b);
    }
  }

  lemma DecodeEncodeSingle(b: seq<byte>)
    requires |b| == 1
    ensures Decode(Encode(b)) == Success(b)
  {
    DecodeEncodeOne(b[0]);
    assert [b[0]] == b;
    assert Encode(b) == EncodeOne(b[0]);
    DecodeLastGroup(EncodeOne(b[0]), b);
  }

  lemma DecodeEncodePair(b: seq<byte>)
    requires |b| == 2
    ensures Decode(Encode(b)) == Success(b)
  {
    DecodeEncodeTwo(b[0], b[1]);
    assert [b[0], b[1]] == b;
    assert Encode(b) == EncodeTwo(b[0], b[1]);
    DecodeLastGroup(EncodeTwo(b[0], b[1]), b);
  }

  lemma DecodeEncodeGroup(b: seq<byte>)
    requires |b| == 3
    ensures Decode(Encode(b)) == Success(b)
  {
    var q := EncodeThree(b[0], b[1], b[2]);
    DecodeEncodeThree(b[0], b[1], b[2]);
    assert Encode(b[3..]) == "";
    assert Encode(b) == q;
    assert [b[0], b[1], b[2]] == b;
    assert DecodeLast(q) == DecodeQuad(q);
    DecodeLastGroup(q, b);
  }

  /** Round trip of a longer input, given the round trip of its tail. */
  lemma DecodeEncodeStep(b: seq<byte>)
    requires |b| > 3
    requires Decode(Encode(b[3..])) == Success(b[3..])
    ensures Decode(Encode(b)) == Success(b)
  {
    var head := EncodeThree(b[0], b[1], b[2]);
    var rest := Encode(b[3..]);
    assert Encode(b) == head + rest;
    DecodeEncodeThree(b[0], b[1], b[2]);
    DecodeCons(head, rest, [b[0], b[1], b[2]], b[3..]);
    SplitHead(b);
  }

  /** Decoding what was encoded gives the bytes back, for every length. */
  lemma {:induction false} DecodeEncode(b: seq<byte>)
    ensures Decode(Encode(b)) == Success(b)
    decreases |b|
  {
    if 1 <= |b| <= 3 {
      DecodeEncodeShort(b);
    } else if |b| > 3 {
      DecodeEncode(b[3..]);
      DecodeEncodeStep(b);
    }
  }

  /** A 16-byte value (a 128-bit key) encodes to 24 characters of which the
      last two are padding: five full groups and one single-byte group. */
  lemma {:induction false} EncodeSixteen(b: seq<byte>)
    requires |b| == 16
    ensures |Encode(b)| == 24
    ensures Encode(b)[22..] == "=="
  {
    assert Encode(b[3..]) == EncodeThree(b[3], b[4], b[5]) + Encode(b[6..]);
    assert Encode(b[6..]) == EncodeThree(b[6], b[7], b[8]) + Encode(b[9..]);
    assert Encode(b[9..]) == EncodeThree(b[9], b[10], b[11]) + Encode(b[12..]);
    assert Encode(b[12..]) == EncodeThree(b[12], b[13], b[14]) + Encode(b[15..]);
    assert Encode(b[15..]) == EncodeOne(b[15]);
  }
}
