/** Base16 as defined in section 8 of RFC 4648, with the behaviour of
    Python's `base64.b16encode` / `b16decode` (default `casefold=False`):
    the alphabet is `0-9A-F` only, so lower-case digits are rejected. */
module Base16 {
  import opened Text
  import opened Wrappers

  /** Why `b16decode` raises `binascii.Error`. */
  datatype DecodeError = NonBase16Digit | OddLength

  predicate IsDigit(c: char)
  {
    ('0' <= c <= '9') || ('A' <= c <= 'F')
  }

  predicate AllDigits(s: string)
  {
    forall i :: 0 <= i < |s| ==> IsDigit(s[i])
  }

  /** The digit for a 4-bit value. */
  function DigitChar(v: nat): (c: char)
    requires v < 16
    ensures IsDigit(c)
  {
    if v < 10 then ('0' as int + v) as char else ('A' as int + v - 10) as char
  }

  /** The 4-bit value of a digit; the inverse of `DigitChar`. */
  function DigitValue(c: char): (v: nat)
    requires IsDigit(c)
    ensures v < 16
    ensures DigitChar(v) == c
  {
    if c <= '9' then c as int - '0' as int else c as int - 'A' as int + 10
  }

  lemma DigitValueOfChar(v: nat)
    requires v < 16
    ensures DigitValue(DigitChar(v)) == v
  {
  }

  /** `b16encode`: two upper-case digits per byte, high nibble first. */
  function Encode(b: seq<byte>): (s: string)
    ensures |s| == 2 * |b|
    ensures AllDigits(s)
  {
    if |b| == 0 then ""
    else [DigitChar(b[0] / 16), DigitChar(b[0] % 16)] + Encode(b[1..])
  }

  /** The bytes of an even-length digit string, one per pair of digits. */
  function DecodePairs(s: string): (b: seq<byte>)
    requires AllDigits(s) && |s| % 2 == 0
    ensures |b| == |s| / 2
  {
    if |s| == 0 then []
    else [DigitValue(s[0]) * 16 + DigitValue(s[1])] + DecodePairs(s[2..])
  }

  /** `b16decode`: the non-digit check runs over the whole string before the
      odd-length check, so `"G"` is a digit error and `"0"` a length error. */
  function Decode(s: string): (r: Result<seq<byte>, DecodeError>)
    ensures r.Success? <==> AllDigits(s) && |s| % 2 == 0
    ensures r == Failure(NonBase16Digit) <==> !AllDigits(s)
    ensures r.Success? ==> |r.value| == |s| / 2
  {
    if !AllDigits(s) then Failure(NonBase16Digit)
    else if |s| % 2 == 1 then Failure(OddLength)
    else Success(DecodePairs(s))
  }

  /** Decoding what was encoded gives the bytes back. */
  lemma {:induction false} DecodeEncode(b: seq<byte>)
    ensures Decode(Encode(b)) == Success(b)
  {
    DecodePairsEncode(b);
  }

  lemma {:induction false} DecodePairsEncode(b: seq<byte>)
    ensures DecodePairs(Encode(b)) == b
  {
    if |b| > 0 {
      var s := Encode(b);
      assert s[2..] == Encode(b[1..]);
      DigitValueOfChar(b[0] / 16);
      DigitValueOfChar(b[0] % 16);
      DecodePairsEncode(b[1..]);
      assert [b[0]] + b[1..] == b;
    }
  }

  /** Encoding what was decoded gives the digit string back: the upper-case
      alphabet makes the textual form canonical. */
  lemma {:induction false} EncodeDecode(s: string)
    requires Decode(s).Success?
    ensures Encode(Decode(s).value) == s
  {
    EncodeDecodePairs(s);
  }

  lemma {:induction false} EncodeDecodePairs(s: string)
    requires AllDigits(s) && |s| % 2 == 0
    ensures Encode(DecodePairs(s)) == s
  {
    if |s| > 0 {
      var hi, lo := DigitValue(s[0]), DigitValue(s[1]);
      var b := DecodePairs(s);
      assert b[0] / 16 == hi && b[0] % 16 == lo;
      assert b[1..] == DecodePairs(s[2..]);
      EncodeDecodePairs(s[2..]);
      assert s == [s[0], s[1]] + s[2..];
    }
  }
}
