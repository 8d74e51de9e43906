/** The DRM-system entries of `main` (example/cpix_gen.py:244-280): each
    enabled DRM system asks its PSSH generator for ONE box covering all keys,
    then emits one entry per key, in key order, every entry carrying that same
    box base64-encoded. Widevine's entries come first, PlayReady's after. */
module DrmSystems {
  import opened Wrappers
  import opened Text
  import opened Keys
  import Base16
  import Base64

  /** The two DRM systems the generator knows (`cpix.WIDEVINE_SYSTEM_ID`,
      `cpix.PLAYREADY_SYSTEM_ID`). */
  datatype SystemId = Widevine | PlayReady

  /** One `cpix.DRMSystem`: key id, system, and base64 text of the PSSH box. */
  datatype DrmSystem = DrmSystem(kid: string, systemId: SystemId, pssh: string)

  /** The arguments of `widevine.generate_pssh`. */
  datatype WidevineRequest = WidevineRequest(
    keyIds: seq<string>, provider: Option<string>, contentId: Option<string>, version: int)

  /** One `{"key_id": ..., "key": ...}` entry of `playready.generate_pssh`. */
  datatype PlayReadyKey = PlayReadyKey(keyId: string, key: string)

  /** The arguments of `playready.generate_pssh`. */
  datatype PlayReadyRequest = PlayReadyRequest(
    keys: seq<PlayReadyKey>, url: string, algorithm: string, version: int)

  /** The library's PSSH generators, deterministic and otherwise unknown. */
  datatype PsshGenerators = PsshGenerators(
    widevine: WidevineRequest -> seq<byte>,
    playready: PlayReadyRequest -> seq<byte>)

  /** The DRM options of the command line, after argument parsing. */
  datatype DrmOptions = DrmOptions(
    widevine: bool,
    widevineContentId: Option<string>,
    widevineProvider: Option<string>,
    widevinePsshVersion: int,
    playready: bool,
    playreadyLaUrl: Option<string>,
    playreadyAlgorithm: string,
    playreadyPsshVersion: int)

  /** Keys whose stored content key decodes, as every key `ParseKeys` returns does. */
  predicate Decodable(keys: seq<ContentKey>)
  {
    forall i {:trigger CekHex(keys[i])} :: 0 <= i < |keys| ==> CekHex(keys[i]).Success?
  }

  /** `[key.kid for key in keys]`. */
  function KeyIds(keys: seq<ContentKey>): (ids: seq<string>)
    ensures |ids| == |keys|
    ensures forall i {:trigger ids[i]} :: 0 <= i < |keys| ==> ids[i] == keys[i].kid
  {
    if |keys| == 0 then [] else [keys[0].kid] + KeyIds(keys[1..])
  }

  /** The PlayReady key list: each key id with its content key turned back
      into hex digits (example/cpix_gen.py:266-267). */
  function PlayReadyKeys(keys: seq<ContentKey>): (r: seq<PlayReadyKey>)
    requires Decodable(keys)
    ensures |r| == |keys|
    ensures forall i {:trigger r[i]} :: 0 <= i < |keys| ==> r[i] == PlayReadyKey(keys[i].kid, CekHex(keys[i]).value)
  {
    if |keys| == 0 then []
    else
      var rest := keys[1..];
      assert forall i :: 0 <= i < |rest| ==> rest[i] == keys[i + 1];
      assert Decodable(rest);
      var tail := PlayReadyKeys(rest);
      var r := [PlayReadyKey(keys[0].kid, CekHex(keys[0]).value)] + tail;
      assert forall i :: 1 <= i < |keys| ==> r[i] == tail[i - 1];
      r
  }

  /** The `for key in keys: drm_systems.append(...)` loop of one system. */
  function Entries(keys: seq<ContentKey>, system: SystemId, pssh: string): (r: seq<DrmSystem>)
    ensures |r| == |keys|
    ensures forall i {:trigger r[i]} :: 0 <= i < |keys| ==> r[i] == DrmSystem(keys[i].kid, system, pssh)
  {
    if |keys| == 0 then []
    else
      assert forall i :: 0 <= i < |keys| - 1 ==> keys[1..][i] == keys[i + 1];
      [DrmSystem(keys[0].kid, system, pssh)] + Entries(keys[1..], system, pssh)
  }

  /** The arguments of the Widevine generator call (lines 248-253). */
  function WidevineRequestFor(keys: seq<ContentKey>, opts: DrmOptions): WidevineRequest
  {
    WidevineRequest(KeyIds(keys), opts.widevineProvider, opts.widevineContentId, opts.widevinePsshVersion)
  }

  /** The arguments of the PlayReady generator call (lines 265-271). */
  function PlayReadyRequestFor(keys: seq<ContentKey>, opts: DrmOptions): PlayReadyRequest
    requires opts.playreadyLaUrl.Some? && Decodable(keys)
  {
    PlayReadyRequest(PlayReadyKeys(keys), opts.playreadyLaUrl.value, opts.playreadyAlgorithm, opts.playreadyPsshVersion)
  }

  /** The Widevine generator is given every key id, in key order, and the
      Widevine options of the command line. */
  lemma WidevineRequestArguments(keys: seq<ContentKey>, opts: DrmOptions)
    ensures var r := WidevineRequestFor(keys, opts);
      && |r.keyIds| == |keys| && (forall i :: 0 <= i < |keys| ==> r.keyIds[i] == keys[i].kid)
      && r.provider == opts.widevineProvider && r.contentId == opts.widevineContentId
      && r.version == opts.widevinePsshVersion
  {
  }

  /** The PlayReady generator is given every key id with the hex text of its
      content key, which decodes to the key's raw bytes, in key order, and the
      licence URL and PlayReady options of the command line. */
  lemma PlayReadyRequestArguments(keys: seq<ContentKey>, opts: DrmOptions)
    requires opts.playreadyLaUrl.Some? && Decodable(keys)
    ensures var r := PlayReadyRequestFor(keys, opts);
      && |r.keys| == |keys|
      && (forall i :: 0 <= i < |keys| ==>
            r.keys[i].keyId == keys[i].kid
            && Base16.Decode(r.keys[i].key) == Success(Base64.Decode(keys[i].cek).value))
      && Some(r.url) == opts.playreadyLaUrl
      && r.algorithm == opts.playreadyAlgorithm && r.version == opts.playreadyPsshVersion
  {
    HexKeysDecode(keys);
  }

  /** The hex text of each stored content key decodes to its raw bytes. */
  lemma HexKeysDecode(keys: seq<ContentKey>)
    requires Decodable(keys)
    ensures forall i :: 0 <= i < |keys| ==>
      Base16.Decode(PlayReadyKeys(keys)[i].key) == Success(Base64.Decode(keys[i].cek).value)
  {
    forall i | 0 <= i < |keys|
      ensures Base16.Decode(PlayReadyKeys(keys)[i].key) == Success(Base64.Decode(keys[i].cek).value)
    {
      assert CekHex(keys[i]).Success?;
      assert PlayReadyKeys(keys)[i].key == CekHex(keys[i]).value == Base16.Encode(Base64.Decode(keys[i].cek).value);
      Base16.DecodeEncode(Base64.Decode(keys[i].cek).value);
    }
  }

  /** How many entries one enabled system contributes for `n` keys. */
  function BlockSize(enabled: bool, n: nat): nat
  {
    if enabled then n else 0
  }

  /** The base64 text of the Widevine box for all keys (lines 248-253, 260). */
  function WidevinePssh(keys: seq<ContentKey>, opts: DrmOptions, gen: PsshGenerators): string
  {
    Base64.Encode(gen.widevine(WidevineRequestFor(keys, opts)))
  }

  /** The base64 text of the PlayReady box for all keys (lines 265-271, 278). */
  function PlayReadyPssh(keys: seq<ContentKey>, opts: DrmOptions, gen: PsshGenerators): string
    requires opts.playreadyLaUrl.Some? && Decodable(keys)
  {
    Base64.Encode(gen.playready(PlayReadyRequestFor(keys, opts)))
  }

  /** The entries of the Widevine branch (lines 247-262): none when disabled. */
  function WidevineBlock(keys: seq<ContentKey>, opts: DrmOptions, gen: PsshGenerators): (r: seq<DrmSystem>)
    ensures |r| == BlockSize(opts.widevine, |keys|)
    ensures forall i {:trigger r[i]} :: 0 <= i < |r| ==> r[i] == DrmSystem(keys[i].kid, Widevine, WidevinePssh(keys, opts, gen))
  {
    if opts.widevine then Entries(keys, Widevine, WidevinePssh(keys, opts, gen)) else []
  }

  /** The entries of the PlayReady branch (lines 264-280): none when disabled. */
  function PlayReadyBlock(keys: seq<ContentKey>, opts: DrmOptions, gen: PsshGenerators): (r: seq<DrmSystem>)
    requires opts.playready ==> opts.playreadyLaUrl.Some? && Decodable(keys)
    ensures |r| == BlockSize(opts.playready, |keys|)
    ensures opts.playready ==> forall i {:trigger r[i]} :: 0 <= i < |r| ==>
      r[i] == DrmSystem(keys[i].kid, PlayReady, PlayReadyPssh(keys, opts, gen))
    ensures forall i :: 0 <= i < |r| ==> r[i].systemId == PlayReady
  {
    if opts.playready then Entries(keys, PlayReady, PlayReadyPssh(keys, opts, gen)) else []
  }

  /** The DRM-system list of `main`. The licence URL must be present when
      PlayReady is enabled: `main` has already stopped otherwise (lines 232-234).
      Which entry carries what is stated by `WidevineBlockCarriesBox`,
      `PlayReadyBlockCarriesBox` and `PlayReadyEntriesComeLast`. */
  function BuildDrmSystems(keys: seq<ContentKey>, opts: DrmOptions, gen: PsshGenerators): (r: seq<DrmSystem>)
    requires opts.playready ==> opts.playreadyLaUrl.Some? && Decodable(keys)
    ensures |r| == BlockSize(opts.widevine, |keys|) + BlockSize(opts.playready, |keys|)
  {
    WidevineBlock(keys, opts, gen) + PlayReadyBlock(keys, opts, gen)
  }

  /** Widevine's block comes first: no Widevine entry follows a PlayReady one. */
  lemma PlayReadyEntriesComeLast(keys: seq<ContentKey>, opts: DrmOptions, gen: PsshGenerators)
    requires opts.playready ==> opts.playreadyLaUrl.Some? && Decodable(keys)
    ensures var r := BuildDrmSystems(keys, opts, gen);
      forall i, j :: 0 <= i < j < |r| && r[i].systemId == PlayReady ==> r[j].systemId == PlayReady
  {
    var wv := WidevineBlock(keys, opts, gen);
    var pr := PlayReadyBlock(keys, opts, gen);
    var r := BuildDrmSystems(keys, opts, gen);
    assert r == wv + pr;
    assert forall i :: 0 <= i < |wv| ==> r[i] == wv[i];
    assert forall j :: |wv| <= j < |r| ==> r[j] == pr[j - |wv|];
  }

  /** Entries `offset` to `offset + |kids| - 1` of `drm` are entries of
      `system` for the key ids `kids`, in order, each carrying the base64 text
      of `box`. */
  predicate CarriesBox(drm: seq<DrmSystem>, offset: nat, kids: seq<string>, system: SystemId, box: seq<byte>)
  {
    && offset + |kids| <= |drm|
    && forall i :: 0 <= i < |kids| ==>
         (&& drm[offset + i].kid == kids[i]
          && drm[offset + i].systemId == system
          && drm[offset + i].pssh == Base64.Encode(box))
  }

  /** Every entry's PSSH text decodes to the box its system's generator made
      for the whole key list, so all entries of one system share one box. */
  lemma PsshDecodesToGeneratedBox(keys: seq<ContentKey>, opts: DrmOptions, gen: PsshGenerators, i: nat)
    requires opts.playready ==> opts.playreadyLaUrl.Some? && Decodable(keys)
    requires i < BlockSize(opts.widevine, |keys|) + BlockSize(opts.playready, |keys|)
    ensures var e := BuildDrmSystems(keys, opts, gen)[i];
      && (e.systemId == Widevine ==> Base64.Decode(e.pssh) == Success(gen.widevine(WidevineRequestFor(keys, opts))))
      && (e.systemId == PlayReady ==> Base64.Decode(e.pssh) == Success(gen.playready(PlayReadyRequestFor(keys, opts))))
  {
    var r := BuildDrmSystems(keys, opts, gen);
    if opts.widevine && i < |keys| {
      WidevineBlockCarriesBox(keys, opts, gen);
      Base64.DecodeEncode(gen.widevine(WidevineRequestFor(keys, opts)));
      assert r[i].pssh == Base64.Encode(gen.widevine(WidevineRequestFor(keys, opts)));
    } else {
      var offset := BlockSize(opts.widevine, |keys|);
      PlayReadyBlockCarriesBox(keys, opts, gen);
      assert r[i] == r[offset + (i - offset)];
      Base64.DecodeEncode(gen.playready(PlayReadyRequestFor(keys, opts)));
      assert r[i].pssh == Base64.Encode(gen.playready(PlayReadyRequestFor(keys, opts)));
    }
  }

  /** The Widevine block: the first entries, one per key in order, all
      carrying the one box generated for the whole key list. */
  lemma WidevineBlockCarriesBox(keys: seq<ContentKey>, opts: DrmOptions, gen: PsshGenerators)
    requires opts.widevine && (opts.playready ==> opts.playreadyLaUrl.Some? && Decodable(keys))
    ensures CarriesBox(BuildDrmSystems(keys, opts, gen), 0, KeyIds(keys), Widevine,
                       gen.widevine(WidevineRequestFor(keys, opts)))
  {
    var drm := BuildDrmSystems(keys, opts, gen);
    var kids := KeyIds(keys);
    var pssh := WidevinePssh(keys, opts, gen);
    assert forall i :: 0 <= i < |kids| ==> drm[i] == DrmSystem(kids[i], Widevine, pssh) by {
      var wv := WidevineBlock(keys, opts, gen);
      assert drm == wv + PlayReadyBlock(keys, opts, gen);
      assert forall i :: 0 <= i < |wv| ==> drm[i] == wv[i];
    }
  }

  /** The PlayReady block: after the Widevine block, one entry per key in
      order, all carrying the one box generated for the whole key list. */
  lemma PlayReadyBlockCarriesBox(keys: seq<ContentKey>, opts: DrmOptions, gen: PsshGenerators)
    requires opts.playready && opts.playreadyLaUrl.Some? && Decodable(keys)
    ensures |BuildDrmSystems(keys, opts, gen)| == BlockSize(opts.widevine, |keys|) + |keys|
    ensures CarriesBox(BuildDrmSystems(keys, opts, gen), BlockSize(opts.widevine, |keys|), KeyIds(keys), PlayReady,
                       gen.playready(PlayReadyRequestFor(keys, opts)))
  {
    var drm := BuildDrmSystems(keys, opts, gen);
    var offset := BlockSize(opts.widevine, |keys|);
    var kids := KeyIds(keys);
    var pssh := PlayReadyPssh(keys, opts, gen);
    assert forall i :: 0 <= i < |kids| ==> drm[offset + i] == DrmSystem(kids[i], PlayReady, pssh) by {
      var pr := PlayReadyBlock(keys, opts, gen);
      assert drm == WidevineBlock(keys, opts, gen) + pr;
      assert forall i :: 0 <= i < |pr| ==> drm[offset + i] == pr[i];
    }
  }
}
