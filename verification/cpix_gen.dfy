/** The body of `main` from the PlayReady option check to `exit(0)`
    (example/cpix_gen.py:231-331): parse the keys, build the DRM-system
    entries, check and build the preset usage rules, then run the custom-rule
    tokeniser. Every check stops the whole run; at `exit(0)` the program holds
    the keys, the DRM entries and the preset rules, which `Run` returns. */
module CpixGen {
  import opened Wrappers
  import opened Text
  import opened Keys
  import opened DrmSystems
  import opened UsageRules
  import opened CustomRules

  /** A `KID RULE` pair of `--usage_rule_preset` or `--usage_rule`. */
  datatype RuleArg = RuleArg(kid: string, rule: string)

  /** The command line after argument parsing. */
  datatype Config = Config(
    keySpecs: seq<string>,
    drm: DrmOptions,
    presetRules: seq<RuleArg>,
    customRules: seq<RuleArg>)

  /** What the program takes from libraries this model does not contain:
      `uuid.UUID` (also standing for the key-id conversion the `cpix` library
      applies to `key.kid`) and the PSSH generators. */
  datatype Library = Library(parseUuid: string -> Option<Uuid>, pssh: PsshGenerators)

  /** The state of `main` at `exit(0)`. */
  datatype Generated = Generated(
    keys: seq<ContentKey>, drmSystems: seq<DrmSystem>, usageRules: seq<UsageRule>)

  datatype CustomRuleError = CustomKeyIdInvalid | FilterRejected(error: TokenError)

  /** Why `main` stops before `exit(0)`. */
  datatype GenError =
    | MissingLaUrl                              // `--playready` without `--playready.la_url`
    | KeyRejected(keyError: KeyError)
    | PresetRuleRejected(ruleError: RuleError)
    | CustomRuleRejected(customError: CustomRuleError)

  /** `[key.kid for key in keys]` as the membership tests see it. */
  function KnownKids(keys: seq<ContentKey>, parseUuid: string -> Option<Uuid>): (r: set<Uuid>)
    ensures forall u :: u in r <==> exists i :: 0 <= i < |keys| && parseUuid(keys[i].kid) == Some(u)
  {
    set i | 0 <= i < |keys| && parseUuid(keys[i].kid).Some? :: parseUuid(keys[i].kid).value
  }

  /** The UUIDs of the key ids written in the `KID:CEK` arguments. */
  function SpecKids(specs: seq<string>, parseUuid: string -> Option<Uuid>): (r: set<Uuid>)
    ensures forall u :: u in r <==>
      exists i :: 0 <= i < |specs| && HexLength <= |specs[i]| && parseUuid(specs[i][..HexLength]) == Some(u)
  {
    set i | 0 <= i < |specs| && HexLength <= |specs[i]| && parseUuid(specs[i][..HexLength]).Some?
      :: parseUuid(specs[i][..HexLength]).value
  }

  /** After `parse_keys`, the known key ids are those of the arguments. */
  lemma KnownKidsAreSpecKids(specs: seq<string>, parseUuid: string -> Option<Uuid>)
    ensures ParseKeys(specs, parseUuid).Success? ==>
      KnownKids(ParseKeys(specs, parseUuid).value, parseUuid) == SpecKids(specs, parseUuid)
  {
    if ParseKeys(specs, parseUuid).Success? {
      var keys := ParseKeys(specs, parseUuid).value;
      assert forall i :: 0 <= i < |specs| ==> keys[i].kid == specs[i][..HexLength] && HexLength <= |specs[i]|;
    }
  }

  /** One `--usage_rule KID RULE` argument (lines 313-328). The key id is
      checked before the rule text; a rule text that stops the token loop
      stops the argument with that loop's error. */
  function CustomRule(arg: RuleArg, known: set<Uuid>, parseUuid: string -> Option<Uuid>)
    : (r: Result<seq<FilterToken>, CustomRuleError>)
    ensures r == Failure(CustomKeyIdInvalid) <==> parseUuid(arg.kid).None? || parseUuid(arg.kid).value !in known
    ensures r.Success? <==>
      parseUuid(arg.kid).Some? && parseUuid(arg.kid).value in known && ProcessRule(arg.rule).Success?
    ensures parseUuid(arg.kid).Some? && parseUuid(arg.kid).value in known && ProcessRule(arg.rule).Failure?
      ==> r == Failure(FilterRejected(ProcessRule(arg.rule).error))
    ensures r.Success? ==> r.value == Tokenize(arg.rule).value
  {
    match parseUuid(arg.kid)
    case None => Failure(CustomKeyIdInvalid)
    case Some(kid) =>
      if kid !in known then Failure(CustomKeyIdInvalid)
      else
        ProcessRuleTokenize(arg.rule);
        match ProcessRule(arg.rule)
        case Failure(e) => Failure(FilterRejected(e))
        case Success(ts) => Success(ts)
  }

  /** The preset loop (lines 286-309): one usage rule per argument, in order,
      or the error of the first argument that fails its checks. */
  function PresetRuleList(args: seq<RuleArg>, known: set<Uuid>, parseUuid: string -> Option<Uuid>)
    : (r: Result<seq<UsageRule>, RuleError>)
    ensures r.Success? ==> |r.value| == |args|
    ensures r.Success? ==> forall i :: 0 <= i < |args| ==>
      PresetRule(args[i].kid, args[i].rule, known, parseUuid) == Success(r.value[i])
    ensures r.Success? <==> forall i :: 0 <= i < |args| ==>
      PresetRule(args[i].kid, args[i].rule, known, parseUuid).Success?
    ensures r.Failure? ==>
      exists i :: 0 <= i < |args| && PresetRule(args[i].kid, args[i].rule, known, parseUuid) == Failure(r.error)
                  && forall j :: 0 <= j < i ==> PresetRule(args[j].kid, args[j].rule, known, parseUuid).Success?
  {
    var f := (a: RuleArg) => PresetRule(a.kid, a.rule, known, parseUuid);
    var r := MapAll(f, args);
    assert forall i :: 0 <= i < |args| ==> f(args[i]) == PresetRule(args[i].kid, args[i].rule, known, parseUuid);
    r
  }

  /** The custom-rule loop (lines 312-328): it finishes exactly when every
      argument does, or stops with the error of the first one that fails. */
  function CustomRuleList(args: seq<RuleArg>, known: set<Uuid>, parseUuid: string -> Option<Uuid>)
    : (r: Result<seq<seq<FilterToken>>, CustomRuleError>)
    ensures r.Success? <==> forall i :: 0 <= i < |args| ==> CustomRule(args[i], known, parseUuid).Success?
    ensures r.Failure? ==>
      exists i :: 0 <= i < |args| && CustomRule(args[i], known, parseUuid) == Failure(r.error)
                  && forall j :: 0 <= j < i ==> CustomRule(args[j], known, parseUuid).Success?
  {
    var f := (a: RuleArg) => CustomRule(a, known, parseUuid);
    var r := MapAll(f, args);
    assert forall i :: 0 <= i < |args| ==> f(args[i]) == CustomRule(args[i], known, parseUuid);
    r
  }

  /** `main` from line 231 to `exit(0)`. */
  function Run(cfg: Config, lib: Library): (r: Result<Generated, GenError>)
    ensures cfg.drm.playready && cfg.drm.playreadyLaUrl.None? ==> r == Failure(MissingLaUrl)
    ensures !(cfg.drm.playready && cfg.drm.playreadyLaUrl.None?)
            && !(forall i :: 0 <= i < |cfg.keySpecs| ==> AcceptedKeySpec(cfg.keySpecs[i], lib.parseUuid))
            ==> r.Failure? && r.error.KeyRejected?
    ensures r.Success? ==> forall i :: 0 <= i < |cfg.keySpecs| ==> AcceptedKeySpec(cfg.keySpecs[i], lib.parseUuid)
    ensures r.Success? ==> |r.value.keys| == |cfg.keySpecs|
    ensures r.Success? ==> |r.value.usageRules| == |cfg.presetRules|
  {
    if cfg.drm.playready && cfg.drm.playreadyLaUrl.None? then Failure(MissingLaUrl)
    else
      match ParseKeys(cfg.keySpecs, lib.parseUuid)
      case Failure(e) => Failure(KeyRejected(e))
      case Success(keys) =>
        var drm := BuildDrmSystems(keys, cfg.drm, lib.pssh);
        var known := KnownKids(keys, lib.parseUuid);
        match PresetRuleList(cfg.presetRules, known, lib.parseUuid)
        case Failure(e) => Failure(PresetRuleRejected(e))
        case Success(rules) =>
          match CustomRuleList(cfg.customRules, known, lib.parseUuid)
          case Failure(e) => Failure(CustomRuleRejected(e))
          case Success(_) => Success(Generated(keys, drm, rules))
  }

  /** When a run completes: exactly when the licence URL is present for
      PlayReady, every key argument is accepted, and every preset and custom
      rule names the UUID of an argument's key id and passes its own checks. */
  lemma RunSucceeds(cfg: Config, lib: Library)
    ensures var known := SpecKids(cfg.keySpecs, lib.parseUuid);
      Run(cfg, lib).Success? <==>
        && !(cfg.drm.playready && cfg.drm.playreadyLaUrl.None?)
        && (forall i :: 0 <= i < |cfg.keySpecs| ==> AcceptedKeySpec(cfg.keySpecs[i], lib.parseUuid))
        && (forall i :: 0 <= i < |cfg.presetRules| ==>
              PresetRule(cfg.presetRules[i].kid, cfg.presetRules[i].rule, known, lib.parseUuid).Success?)
        && (forall i :: 0 <= i < |cfg.customRules| ==> CustomRule(cfg.customRules[i], known, lib.parseUuid).Success?)
  {
    KnownKidsAreSpecKids(cfg.keySpecs, lib.parseUuid);
    var known := SpecKids(cfg.keySpecs, lib.parseUuid);
    var urlOk := !(cfg.drm.playready && cfg.drm.playreadyLaUrl.None?);
    var keys := ParseKeys(cfg.keySpecs, lib.parseUuid);
    if urlOk && keys.Success? {
      assert KnownKids(keys.value, lib.parseUuid) == known;
      var presets := PresetRuleList(cfg.presetRules, known, lib.parseUuid);
      var customs := CustomRuleList(cfg.customRules, known, lib.parseUuid);
      assert Run(cfg, lib).Success? <==> presets.Success? && customs.Success?;
    } else {
      assert Run(cfg, lib).Failure?;
    }
  }

  /** Which stage stops a run that does not complete: the first failing one,
      in the order URL check, keys, preset rules, custom rules, gives the
      error. */
  lemma RunFailsAtFirstStage(cfg: Config, lib: Library)
    ensures var keys := ParseKeys(cfg.keySpecs, lib.parseUuid);
      !(cfg.drm.playready && cfg.drm.playreadyLaUrl.None?) && keys.Failure? ==>
        Run(cfg, lib) == Failure(KeyRejected(keys.error))
    ensures var known := SpecKids(cfg.keySpecs, lib.parseUuid);
      var presets := PresetRuleList(cfg.presetRules, known, lib.parseUuid);
      !(cfg.drm.playready && cfg.drm.playreadyLaUrl.None?) && ParseKeys(cfg.keySpecs, lib.parseUuid).Success?
      && presets.Failure? ==>
        Run(cfg, lib) == Failure(PresetRuleRejected(presets.error))
    ensures var known := SpecKids(cfg.keySpecs, lib.parseUuid);
      var customs := CustomRuleList(cfg.customRules, known, lib.parseUuid);
      !(cfg.drm.playready && cfg.drm.playreadyLaUrl.None?) && ParseKeys(cfg.keySpecs, lib.parseUuid).Success?
      && PresetRuleList(cfg.presetRules, known, lib.parseUuid).Success? && customs.Failure? ==>
        Run(cfg, lib) == Failure(CustomRuleRejected(customs.error))
  {
    KnownKidsAreSpecKids(cfg.keySpecs, lib.parseUuid);
  }

  /** What the PlayReady generator is given per key: the key id and the
      content key exactly as they were written in each `KID:CEK` argument. */
  function SpecHalves(specs: seq<string>): (r: seq<PlayReadyKey>)
    requires forall i :: 0 <= i < |specs| ==> ValidKeySpec(specs[i])
    ensures |r| == |specs|
  {
    seq(|specs|, i requires 0 <= i < |specs| && ValidKeySpec(specs[i]) =>
      PlayReadyKey(specs[i][..HexLength], specs[i][HexLength + 1..]))
  }

  /** The keys of a successful run are the command line's: one per
      argument, in order, with the key id as written and the content key
      coming back from its base64 storage as the hex digits written. */
  lemma RunKeyArguments(cfg: Config, lib: Library)
    ensures Run(cfg, lib).Success? ==>
      var keys := Run(cfg, lib).value.keys;
      && |keys| == |cfg.keySpecs|
      && forall i :: 0 <= i < |cfg.keySpecs| ==>
           (&& ValidKeySpec(cfg.keySpecs[i])
            && keys[i].kid == cfg.keySpecs[i][..HexLength]
            && CekHex(keys[i]) == Success(cfg.keySpecs[i][HexLength + 1..]))
  {
    RunKeys(cfg, lib);
  }

  /** The keys and DRM entries of a successful run. */
  lemma RunKeys(cfg: Config, lib: Library)
    ensures Run(cfg, lib).Success? ==>
      && ParseKeys(cfg.keySpecs, lib.parseUuid).Success?
      && var g := Run(cfg, lib).value;
      && g.keys == ParseKeys(cfg.keySpecs, lib.parseUuid).value
      && Decodable(g.keys)
      && (cfg.drm.playready ==> cfg.drm.playreadyLaUrl.Some?)
      && g.drmSystems == BuildDrmSystems(g.keys, cfg.drm, lib.pssh)
  {
  }

  /** The usage rules of a successful run. */
  lemma RunRules(cfg: Config, lib: Library)
    ensures Run(cfg, lib).Success? ==>
      && ParseKeys(cfg.keySpecs, lib.parseUuid).Success?
      && var g := Run(cfg, lib).value;
      && g.keys == ParseKeys(cfg.keySpecs, lib.parseUuid).value
      && PresetRuleList(cfg.presetRules, KnownKids(g.keys, lib.parseUuid), lib.parseUuid) == Success(g.usageRules)
      && CustomRuleList(cfg.customRules, KnownKids(g.keys, lib.parseUuid), lib.parseUuid).Success?
  {
  }

  /** Accepted arguments give keys whose content keys all decode from base64. */
  lemma ParsedKeysDecodable(specs: seq<string>, parseUuid: string -> Option<Uuid>)
    requires forall i :: 0 <= i < |specs| ==> AcceptedKeySpec(specs[i], parseUuid)
    ensures ParseKeys(specs, parseUuid).Success? && Decodable(ParseKeys(specs, parseUuid).value)
  {
  }

  /** The key list handed to the PlayReady generator is the command line's. */
  lemma PlayReadyKeysAreSpecHalves(specs: seq<string>, parseUuid: string -> Option<Uuid>)
    requires forall i :: 0 <= i < |specs| ==> AcceptedKeySpec(specs[i], parseUuid)
    ensures ParseKeys(specs, parseUuid).Success? && Decodable(ParseKeys(specs, parseUuid).value)
    ensures PlayReadyKeys(ParseKeys(specs, parseUuid).value) == SpecHalves(specs)
  {
  }

  /** The key ids written in the `KID:CEK` arguments, in argument order. */
  function SpecKeyIds(specs: seq<string>): (r: seq<string>)
    requires forall i :: 0 <= i < |specs| ==> ValidKeySpec(specs[i])
    ensures |r| == |specs|
  {
    seq(|specs|, i requires 0 <= i < |specs| && ValidKeySpec(specs[i]) => specs[i][..HexLength])
  }

  /** The key ids handed to the Widevine generator are the command line's. */
  lemma WidevineKeyIdsAreSpecs(specs: seq<string>, parseUuid: string -> Option<Uuid>)
    requires forall i :: 0 <= i < |specs| ==> AcceptedKeySpec(specs[i], parseUuid)
    ensures ParseKeys(specs, parseUuid).Success?
    ensures KeyIds(ParseKeys(specs, parseUuid).value) == SpecKeyIds(specs)
  {
  }

  /** The Widevine entries built from accepted arguments: the first ones,
      one per argument, in argument order, each carrying the one box
      generated for all key ids. */
  lemma WidevineBlockOfSpecs(specs: seq<string>, parseUuid: string -> Option<Uuid>, opts: DrmOptions, gen: PsshGenerators)
    requires forall i :: 0 <= i < |specs| ==> AcceptedKeySpec(specs[i], parseUuid)
    requires opts.widevine && (opts.playready ==> opts.playreadyLaUrl.Some?)
    ensures ParseKeys(specs, parseUuid).Success? && Decodable(ParseKeys(specs, parseUuid).value)
    ensures var keys := ParseKeys(specs, parseUuid).value;
      CarriesBox(BuildDrmSystems(keys, opts, gen), 0, SpecKeyIds(specs), Widevine,
                 gen.widevine(WidevineRequestFor(keys, opts)))
  {
    ParsedKeysDecodable(specs, parseUuid);
    WidevineKeyIdsAreSpecs(specs, parseUuid);
    WidevineBlockCarriesBox(ParseKeys(specs, parseUuid).value, opts, gen);
  }

  /** The PlayReady entries built from accepted arguments: after the
      Widevine block, one per argument, in argument order, each carrying the
      one box generated for all keys. */
  lemma PlayReadyBlockOfSpecs(specs: seq<string>, parseUuid: string -> Option<Uuid>, opts: DrmOptions, gen: PsshGenerators)
    requires forall i :: 0 <= i < |specs| ==> AcceptedKeySpec(specs[i], parseUuid)
    requires opts.playready && opts.playreadyLaUrl.Some?
    ensures ParseKeys(specs, parseUuid).Success? && Decodable(ParseKeys(specs, parseUuid).value)
    ensures var keys := ParseKeys(specs, parseUuid).value;
      && |BuildDrmSystems(keys, opts, gen)| == BlockSize(opts.widevine, |specs|) + |specs|
      && CarriesBox(BuildDrmSystems(keys, opts, gen), BlockSize(opts.widevine, |specs|), SpecKeyIds(specs), PlayReady,
                    gen.playready(PlayReadyRequestFor(keys, opts)))
  {
    ParsedKeysDecodable(specs, parseUuid);
    WidevineKeyIdsAreSpecs(specs, parseUuid);
    PlayReadyBlockCarriesBox(ParseKeys(specs, parseUuid).value, opts, gen);
  }

  /** The Widevine generator of a successful run is given the key ids of
      the command line, in argument order. */
  lemma RunWidevineRequest(cfg: Config, lib: Library)
    ensures Run(cfg, lib).Success? && cfg.drm.widevine ==>
      && (forall i :: 0 <= i < |cfg.keySpecs| ==> ValidKeySpec(cfg.keySpecs[i]))
      && WidevineRequestFor(Run(cfg, lib).value.keys, cfg.drm).keyIds == SpecKeyIds(cfg.keySpecs)
  {
    if Run(cfg, lib).Success? && cfg.drm.widevine {
      RunKeys(cfg, lib);
      WidevineKeyIdsAreSpecs(cfg.keySpecs, lib.parseUuid);
    }
  }

  /** The Widevine block of a successful run: the first entries, one per
      key in argument order, each holding the one box generated for the key
      ids of the command line. */
  lemma RunWidevineEntries(cfg: Config, lib: Library)
    ensures Run(cfg, lib).Success? && cfg.drm.widevine ==>
      var g := Run(cfg, lib).value;
      && (forall i :: 0 <= i < |cfg.keySpecs| ==> ValidKeySpec(cfg.keySpecs[i]))
      && CarriesBox(g.drmSystems, 0, SpecKeyIds(cfg.keySpecs), Widevine,
                    lib.pssh.widevine(WidevineRequestFor(g.keys, cfg.drm)))
  {
    if Run(cfg, lib).Success? && cfg.drm.widevine {
      RunKeys(cfg, lib);
      WidevineBlockOfSpecs(cfg.keySpecs, lib.parseUuid, cfg.drm, lib.pssh);
    }
  }

  /** The PlayReady request built from the parsed keys names exactly the key-spec halves and the options. */
  lemma PlayReadyRequestOfSpecs(specs: seq<string>, parseUuid: string -> Option<Uuid>, opts: DrmOptions)
    requires forall i :: 0 <= i < |specs| ==> AcceptedKeySpec(specs[i], parseUuid)
    requires opts.playreadyLaUrl.Some?
    ensures ParseKeys(specs, parseUuid).Success? && Decodable(ParseKeys(specs, parseUuid).value)
    ensures PlayReadyRequestFor(ParseKeys(specs, parseUuid).value, opts)
      == PlayReadyRequest(SpecHalves(specs), opts.playreadyLaUrl.value, opts.playreadyAlgorithm, opts.playreadyPsshVersion)
  {
    PlayReadyKeysAreSpecHalves(specs, parseUuid);
  }

  /** The PlayReady generator of a successful run is given the key ids and
      hexadecimal content keys of the command line, which come back
      unchanged from their base64 storage, the licence URL and the options. */
  lemma RunPlayReadyRequest(cfg: Config, lib: Library)
    ensures Run(cfg, lib).Success? && cfg.drm.playready ==>
      var g := Run(cfg, lib).value;
      && cfg.drm.playreadyLaUrl.Some? && Decodable(g.keys)
      && (forall i :: 0 <= i < |cfg.keySpecs| ==> ValidKeySpec(cfg.keySpecs[i]))
      && PlayReadyRequestFor(g.keys, cfg.drm)
        == PlayReadyRequest(SpecHalves(cfg.keySpecs), cfg.drm.playreadyLaUrl.value,
                            cfg.drm.playreadyAlgorithm, cfg.drm.playreadyPsshVersion)
  {
    if Run(cfg, lib).Success? && cfg.drm.playready {
      RunKeys(cfg, lib);
      PlayReadyRequestOfSpecs(cfg.keySpecs, lib.parseUuid, cfg.drm);
      assert Run(cfg, lib).value.keys == ParseKeys(cfg.keySpecs, lib.parseUuid).value;
    }
  }

  /** The PlayReady block of a successful run: right after the Widevine
      block, one entry per key in argument order, each holding the one box
      generated for the request `RunPlayReadyRequest` describes. */
  lemma RunPlayReadyEntries(cfg: Config, lib: Library)
    ensures Run(cfg, lib).Success? && cfg.drm.playready ==>
      var g := Run(cfg, lib).value;
      var n := |cfg.keySpecs|;
      && cfg.drm.playreadyLaUrl.Some? && Decodable(g.keys)
      && (forall i :: 0 <= i < n ==> ValidKeySpec(cfg.keySpecs[i]))
      && |g.drmSystems| == BlockSize(cfg.drm.widevine, n) + n
      && CarriesBox(g.drmSystems, BlockSize(cfg.drm.widevine, n), SpecKeyIds(cfg.keySpecs), PlayReady,
                    lib.pssh.playready(PlayReadyRequestFor(g.keys, cfg.drm)))
  {
    if Run(cfg, lib).Success? && cfg.drm.playready {
      RunKeys(cfg, lib);
      PlayReadyBlockOfSpecs(cfg.keySpecs, lib.parseUuid, cfg.drm, lib.pssh);
    }
  }

  /** The preset usage rules of a successful run: one per argument, in
      argument order, each for the parsed key id of a parsed key and with the
      named preset. */
  lemma RunPresetRules(cfg: Config, lib: Library)
    ensures Run(cfg, lib).Success? ==>
      var g := Run(cfg, lib).value;
      forall i :: 0 <= i < |cfg.presetRules| ==>
        && lib.parseUuid(cfg.presetRules[i].kid) == Some(g.usageRules[i].kid)
        && (exists k :: 0 <= k < |g.keys| && lib.parseUuid(g.keys[k].kid) == Some(g.usageRules[i].kid))
        && Name(g.usageRules[i].preset) == cfg.presetRules[i].rule
  {
    if Run(cfg, lib).Success? {
      RunRules(cfg, lib);
    }
  }

  /** Every custom rule of a successful run names a parsed key and
      tokenises without an audio token. */
  lemma RunCustomRules(cfg: Config, lib: Library)
    ensures Run(cfg, lib).Success? ==>
      var g := Run(cfg, lib).value;
      forall i :: 0 <= i < |cfg.customRules| ==>
        && lib.parseUuid(cfg.customRules[i].kid).Some?
        && lib.parseUuid(cfg.customRules[i].kid).value in KnownKids(g.keys, lib.parseUuid)
        && Tokenize(cfg.customRules[i].rule).Success?
  {
    if Run(cfg, lib).Success? {
      RunRules(cfg, lib);
      var g := Run(cfg, lib).value;
      var known := KnownKids(g.keys, lib.parseUuid);
      forall i | 0 <= i < |cfg.customRules|
        ensures lib.parseUuid(cfg.customRules[i].kid).Some?
        ensures lib.parseUuid(cfg.customRules[i].kid).value in known
        ensures Tokenize(cfg.customRules[i].rule).Success?
      {
        assert CustomRule(cfg.customRules[i], known, lib.parseUuid).Success?;
        ProcessRuleTokenize(cfg.customRules[i].rule);
      }
    }
  }
}
