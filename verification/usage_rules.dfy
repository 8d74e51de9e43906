/** The preset usage rules of `main` (example/cpix_gen.py:285-309) and the
    pixel bounds the module documentation gives each preset (lines 55-61). */
module UsageRules {
  import opened Wrappers
  import opened Keys

  /** The six presets, one per `cpix.*UsageRule` class. */
  datatype Preset = Audio | Video | VideoSd | VideoHd | VideoUhd1 | VideoUhd2

  /** The accepted preset names, in the order the error message lists them. */
  const PresetNames: seq<string> := ["audio", "video", "video_sd", "video_hd", "video_uhd1", "video_uhd2"]

  function Name(p: Preset): string
  {
    match p
    case Audio => "audio"
    case Video => "video"
    case VideoSd => "video_sd"
    case VideoHd => "video_hd"
    case VideoUhd1 => "video_uhd1"
    case VideoUhd2 => "video_uhd2"
  }

  /** The `if`/`elif` chain on the preset name: exact, case-sensitive matches. */
  function ParsePreset(name: string): (r: Option<Preset>)
    ensures r.Some? <==> name in PresetNames
    ensures r.Some? ==> Name(r.value) == name
  {
    if name == "audio" then Some(Audio)
    else if name == "video" then Some(Video)
    else if name == "video_sd" then Some(VideoSd)
    else if name == "video_hd" then Some(VideoHd)
    else if name == "video_uhd1" then Some(VideoUhd1)
    else if name == "video_uhd2" then Some(VideoUhd2)
    else None
  }

  /** Every preset is recognised by its own name, and by no other. */
  lemma ParseName(p: Preset)
    ensures ParsePreset(Name(p)) == Some(p)
    ensures Name(p) in PresetNames
  {
  }

  /** The content a rule lets through: all audio, or video whose pixel count
      lies within optional inclusive bounds. */
  datatype Filter = AudioFilter | VideoFilter(minPixels: Option<nat>, maxPixels: Option<nat>)

  /** The filter of each preset, as documented (lines 55-61). */
  function PresetFilter(p: Preset): Filter
  {
    match p
    case Audio => AudioFilter
    case Video => VideoFilter(None, None)
    case VideoSd => VideoFilter(None, Some(442368))
    case VideoHd => VideoFilter(Some(442369), Some(2073600))
    case VideoUhd1 => VideoFilter(Some(2073601), Some(8847360))
    case VideoUhd2 => VideoFilter(Some(8847361), None)
  }

  /** Whether video of `pixels` pixels matches the filter. */
  predicate AdmitsVideo(f: Filter, pixels: nat)
  {
    && f.VideoFilter?
    && (f.minPixels.None? || f.minPixels.value <= pixels)
    && (f.maxPixels.None? || pixels <= f.maxPixels.value)
  }

  /** The four resolution presets, from lowest to highest. */
  const ResolutionTiers: seq<Preset> := [VideoSd, VideoHd, VideoUhd1, VideoUhd2]

  /** The resolution presets partition the pixel counts: every count falls in
      exactly one of them, and consecutive tiers meet without gap or overlap. */
  lemma ResolutionTiersPartition(pixels: nat)
    ensures exists i :: 0 <= i < |ResolutionTiers| && AdmitsVideo(PresetFilter(ResolutionTiers[i]), pixels)
    ensures forall i, j :: 0 <= i < j < |ResolutionTiers| ==>
      !(AdmitsVideo(PresetFilter(ResolutionTiers[i]), pixels) && AdmitsVideo(PresetFilter(ResolutionTiers[j]), pixels))
    ensures PresetFilter(ResolutionTiers[0]).minPixels.None?
    ensures PresetFilter(ResolutionTiers[3]).maxPixels.None?
    ensures forall i :: 0 <= i < |ResolutionTiers| - 1 ==>
      PresetFilter(ResolutionTiers[i + 1]).minPixels == Some(PresetFilter(ResolutionTiers[i]).maxPixels.value + 1)
  {
    if pixels <= 442368 {
      assert AdmitsVideo(PresetFilter(ResolutionTiers[0]), pixels);
    } else if pixels <= 2073600 {
      assert AdmitsVideo(PresetFilter(ResolutionTiers[1]), pixels);
    } else if pixels <= 8847360 {
      assert AdmitsVideo(PresetFilter(ResolutionTiers[2]), pixels);
    } else {
      assert AdmitsVideo(PresetFilter(ResolutionTiers[3]), pixels);
    }
  }

  /** A `ContentKeyUsageRule` built from a preset. */
  datatype UsageRule = UsageRule(kid: Uuid, preset: Preset)

  /** The two messages with which the preset loop stops. */
  datatype RuleError =
    | InvalidKeyId     // not a UUID, or not the id of a parsed key
    | InvalidPreset    // not one of the six names

  /** One `--usage_rule_preset KID NAME` argument: the key id must parse as a
      UUID and belong to a parsed key, checked before the name. */
  function PresetRule(kidArg: string, name: string, known: set<Uuid>, parseUuid: string -> Option<Uuid>)
    : (r: Result<UsageRule, RuleError>)
    ensures r == Failure(InvalidKeyId) <==> parseUuid(kidArg).None? || parseUuid(kidArg).value !in known
    ensures r.Success? <==>
      parseUuid(kidArg).Some? && parseUuid(kidArg).value in known && name in PresetNames
    ensures r.Success? ==> r.value.kid == parseUuid(kidArg).value && Name(r.value.preset) == name
  {
    match parseUuid(kidArg)
    case None => Failure(InvalidKeyId)
    case Some(kid) =>
      if kid !in known then Failure(InvalidKeyId)
      else
        match ParsePreset(name)
        case None => Failure(InvalidPreset)
        case Some(p) => Success(UsageRule(kid, p))
  }
}
