/** The key-spec parser `parse_keys` (example/cpix_gen.py:83-98): every
    `KID:CEK` argument becomes a content key whose key id must be a UUID and
    whose content key is hex-decoded and stored base64-encoded. */
module Keys {
  import opened Wrappers
  import opened Text
  import Base16
  import Base64

  /** A parsed key id (`uuid.UUID`): a 128-bit value. */
  type Uuid = x: nat | x < 0x1_0000_0000_0000_0000_0000_0000_0000_0000

  /** A parsed key: the key id by the text it was written as, which the UUID
      parse accepts, and the content key as the base64 text of its 16 raw
      bytes (`cpix.ContentKey(kid, cek)`). */
  datatype ContentKey = ContentKey(kid: string, cek: string)

  /** The five ways `parse_keys` rejects an argument, in the order it checks. */
  datatype KeyError =
    | MalformedKeySpec   // `split(":")` did not give exactly two parts
    | KeyIdNot128Bit     // the key id is not 32 characters
    | CekNot128Bit       // the content key is not 32 characters
    | CekNotBase16       // `b16decode` rejected the content key
    | KeyIdNotUuid       // `cpix.ContentKey` could not convert the key id to a UUID

  /** The length of a 128-bit value written as hexadecimal text. */
  const HexLength := 32

  /** The shape of an accepted argument: 32 characters of key id free of
      `:`, one `:`, then 32 upper-case hexadecimal digits. */
  predicate ValidKeySpec(spec: string)
  {
    && |spec| == 2 * HexLength + 1
    && spec[HexLength] == ':'
    && (forall i :: 0 <= i < HexLength ==> spec[i] != ':')
    && Base16.AllDigits(spec[HexLength + 1..])
  }

  /** An argument `parse_keys` accepts: the right shape, and a key id that
      the UUID parse accepts. */
  predicate AcceptedKeySpec(spec: string, parseUuid: string -> Option<Uuid>)
  {
    ValidKeySpec(spec) && parseUuid(spec[..HexLength]).Some?
  }

  /** The content key as 32 upper-case hex digits: `b16encode(b64decode(cek))`
      (example/cpix_gen.py:266-267). */
  function CekHex(k: ContentKey): (r: Result<string, Base64.DecodeError>)
    ensures r.Success? ==> Base16.AllDigits(r.value)
  {
    var raw :- Base64.Decode(k.cek);
    Success(Base16.Encode(raw))
  }

  /** An argument splits into two parts exactly when it has one colon, and
      it is accepted exactly when it has the shape `ValidKeySpec` describes. */
  lemma KeySpecShape(spec: string)
    ensures |Split(spec, ':')| == 2 <==> Count(spec, ':') == 1
    ensures ValidKeySpec(spec) <==>
      (var parts := Split(spec, ':');
       |parts| == 2 && |parts[0]| == HexLength && |parts[1]| == HexLength && Base16.AllDigits(parts[1]))
    ensures ValidKeySpec(spec) ==> Split(spec, ':') == [spec[..HexLength], spec[HexLength + 1..]]
  {
    var parts := Split(spec, ':');
    if |parts| == 2 && |parts[0]| == HexLength && |parts[1]| == HexLength && Base16.AllDigits(parts[1]) {
      SplitPartsAreValid(spec, parts);
    }
    if ValidKeySpec(spec) {
      ValidSpecSplits(spec);
    }
  }

  lemma SplitPartsAreValid(spec: string, parts: seq<string>)
    requires parts == Split(spec, ':') && |parts| == 2
    requires |parts[0]| == HexLength && |parts[1]| == HexLength && Base16.AllDigits(parts[1])
    ensures ValidKeySpec(spec)
  {
    assert Join(parts, ':') == parts[0] + [':'] + parts[1];
    assert spec[..HexLength] == parts[0];
    assert spec[HexLength + 1..] == parts[1];
  }

  lemma ValidSpecSplits(spec: string)
    requires ValidKeySpec(spec)
    ensures Split(spec, ':') == [spec[..HexLength], spec[HexLength + 1..]]
  {
    var kid, cek := spec[..HexLength], spec[HexLength + 1..];
    assert spec == kid + [':'] + cek;
    assert forall i :: 0 <= i < |cek| ==> Base16.IsDigit(cek[i]);
    SplitPair(kid, ':', cek);
  }

  /** One argument of `parse_keys`. The content key is hex-decoded before
      `cpix.ContentKey` converts the key id, so a bad content key is reported
      before a key id that is not a UUID. */
  function ParseKey(spec: string, parseUuid: string -> Option<Uuid>): (r: Result<ContentKey, KeyError>)
    ensures r.Success? <==> AcceptedKeySpec(spec, parseUuid)
    ensures r == Failure(MalformedKeySpec) <==> Count(spec, ':') != 1
    ensures r == Failure(KeyIdNot128Bit) <==>
      Count(spec, ':') == 1 && |Split(spec, ':')[0]| != HexLength
    ensures r == Failure(CekNot128Bit) <==>
      Count(spec, ':') == 1 && |Split(spec, ':')[0]| == HexLength && |Split(spec, ':')[1]| != HexLength
    ensures r == Failure(CekNotBase16) <==>
      && Count(spec, ':') == 1 && |Split(spec, ':')[0]| == HexLength && |Split(spec, ':')[1]| == HexLength
      && !Base16.AllDigits(Split(spec, ':')[1])
    ensures r == Failure(KeyIdNotUuid) <==> ValidKeySpec(spec) && parseUuid(spec[..HexLength]).None?
    ensures r.Success? ==> r.value.kid == spec[..HexLength]
    ensures r.Success? ==> CekHex(r.value) == Success(spec[HexLength + 1..])
    ensures r.Success? ==> |r.value.cek| == 24 && r.value.cek[22..] == "=="
  {
    KeySpecShape(spec);
    var parts := Split(spec, ':');
    if |parts| != 2 then Failure(MalformedKeySpec)
    else
      var kid, cek := parts[0], parts[1];
      if |kid| != HexLength then Failure(KeyIdNot128Bit)
      else if |cek| != HexLength then Failure(CekNot128Bit)
      else
        match Base16.Decode(cek)
        case Failure(_) => Failure(CekNotBase16)
        case Success(raw) =>
          Base64.DecodeEncode(raw);
          Base64.EncodeSixteen(raw);
          Base16.EncodeDecode(cek);
          if parseUuid(kid).None? then Failure(KeyIdNotUuid)
          else Success(ContentKey(kid, Base64.Encode(raw)))
  }

  /** `parse_keys`: one key per argument, in argument order, or the error of
      the first bad argument, in which case no key is returned at all. */
  function ParseKeys(specs: seq<string>, parseUuid: string -> Option<Uuid>): (r: Result<seq<ContentKey>, KeyError>)
    ensures r.Success? <==> forall i :: 0 <= i < |specs| ==> AcceptedKeySpec(specs[i], parseUuid)
    ensures r.Success? ==> |r.value| == |specs|
    ensures r.Success? ==> forall i :: 0 <= i < |specs| ==>
      r.value[i].kid == specs[i][..HexLength] && CekHex(r.value[i]) == Success(specs[i][HexLength + 1..])
    ensures r.Failure? ==>
      exists i :: 0 <= i < |specs| && !AcceptedKeySpec(specs[i], parseUuid)
                  && ParseKey(specs[i], parseUuid) == Failure(r.error)
                  && forall j :: 0 <= j < i ==> AcceptedKeySpec(specs[j], parseUuid)
  {
    var f := (spec: string) => ParseKey(spec, parseUuid);
    assert forall i :: 0 <= i < |specs| ==> f(specs[i]) == ParseKey(specs[i], parseUuid);
    var r := MapAll(f, specs);
    assert r.Success? ==> forall i :: 0 <= i < |specs| ==> ParseKey(specs[i], parseUuid) == Success(r.value[i]);
    r
  }

  /** The argument a key was parsed from: the inverse of `ParseKey`. */
  function KeySpec(k: ContentKey): string
    requires CekHex(k).Success?
  {
    k.kid + [':'] + CekHex(k).value
  }

  /** Parsing then formatting gives back the argument, character for character. */
  lemma FormatParsedKey(spec: string, parseUuid: string -> Option<Uuid>)
    requires AcceptedKeySpec(spec, parseUuid)
    ensures ParseKey(spec, parseUuid).Success? && KeySpec(ParseKey(spec, parseUuid).value) == spec
  {
    assert spec == spec[..HexLength] + [':'] + spec[HexLength + 1..];
  }

  /** Every well-formed key is the parse of its own argument. */
  lemma ParseFormattedKey(kid: string, raw: seq<byte>, parseUuid: string -> Option<Uuid>)
    requires |kid| == HexLength && ':' !in kid && parseUuid(kid).Some? && |raw| == 16
    ensures ParseKey(kid + [':'] + Base16.Encode(raw), parseUuid) == Success(ContentKey(kid, Base64.Encode(raw)))
  {
    var cek := Base16.Encode(raw);
    var spec := kid + [':'] + cek;
    assert forall i :: 0 <= i < |cek| ==> cek[i] != ':' by {
      assert Base16.AllDigits(cek);
    }
    SplitPair(kid, ':', cek);
    Base16.DecodeEncode(raw);
  }

  /** `parse_keys` does not look for repeated key ids: the same argument
      twice gives two keys with the same id. */
  lemma DuplicateKeyIdsAccepted(spec: string, parseUuid: string -> Option<Uuid>)
    requires AcceptedKeySpec(spec, parseUuid)
    ensures ParseKeys([spec, spec], parseUuid).Success?
    ensures ParseKeys([spec, spec], parseUuid).value[0].kid == ParseKeys([spec, spec], parseUuid).value[1].kid
  {
  }

  /** The content key's digits are matched case-sensitively: an otherwise
      well-formed argument whose content key has a lower-case digit is
      rejected by `b16decode`, whatever its key id. */
  lemma LowerCaseCekRejected(spec: string, j: nat, parseUuid: string -> Option<Uuid>)
    requires |spec| == 2 * HexLength + 1 && spec[HexLength] == ':'
    requires forall i :: 0 <= i < |spec| && i != HexLength ==> spec[i] != ':'
    requires HexLength < j < |spec| && 'a' <= spec[j] <= 'f'
    ensures ParseKey(spec, parseUuid) == Failure(CekNotBase16)
  {
    var kid, cek := spec[..HexLength], spec[HexLength + 1..];
    assert spec == kid + [':'] + cek;
    assert ':' !in cek by {
      assert forall i :: 0 <= i < |cek| ==> cek[i] == spec[HexLength + 1 + i];
    }
    SplitPair(kid, ':', cek);
    assert cek[j - HexLength - 1] == spec[j];
  }
}
