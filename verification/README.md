# cpix_gen: key parsing, DRM fan-out and usage-rule checks

This project is a Dafny model of the pure rules inside `example/cpix_gen.py`.
That script is a command-line generator of CPIX (Content Protection
Information Exchange) documents. The model covers:

- `parse_keys`, which parses the `--key KID:CEK` arguments;
- the DRM-system fan-out of `main`: one PSSH box per enabled DRM system, and one DRM-system entry per key;
- the preset usage-rule dispatch of `main`;
- the custom usage-rule tokeniser of `main`.

Everything is stated as pure functions over immutable values. Python's
exceptions and `parser.error` calls become `Result` failures.

Modules, one per concern:

- `Wrappers`: `Option`, `Result`, and `MapAll`. `MapAll` is the
  left-to-right loop that stops at the first raised error. `parse_keys`, the
  preset loop, the custom-rule loop and the token loop all share it.
- `Text`: bytes, and Python's `str.split(sep)` for one-character separators.
  `Split` has `Join` as its inverse.
- `Base16`: section 8 of RFC 4648, as Python's `b16encode`/`b16decode` implement it. Only `0-9A-F` is accepted.
- `Base64`: section 4 of RFC 4648, as `b64encode`/`b64decode` implement it.
- `Keys`: `parse_keys`. Each key id is kept as the text written, which must parse as a UUID. Each content key is stored as `b64encode(b16decode(cek))`.
- `DrmSystems`: the Widevine and PlayReady blocks of DRM-system entries.
- `UsageRules`: the six presets, their documented pixel ranges, and the
  preset-rule checks.
- `CustomRules`: the `type:param=value` tokeniser.
- `CpixGen`: `main` from the PlayReady option check (line 232) to `exit(0)`
  (line 331), as `Run`.

The central proved property is the content-key round trip. `parse_keys`
stores the content key in base64. The PlayReady branch turns it back into
hex (lines 266-267). The model proves that this gives back exactly the 32
characters written on the command line. So the PlayReady generator receives
each key id and content key as written (`CpixGen.RunPlayReadyRequest`), and
every PlayReady entry carries the box generated for them
(`CpixGen.RunPlayReadyEntries`).

What the program does at its edges:

- Content-key hex is case-sensitive: lower-case digits are rejected (`Keys.LowerCaseCekRejected`).
- `parse_keys` checks the key id only for length. The rule checks at line 292 compare a `UUID` with `key.kid`, which can only match when `cpix.ContentKey` holds the key id as a UUID. So the model rejects a key id that the UUID parse refuses, after the content-key checks (`Keys.ParseKey`).
- Duplicate key ids are accepted (`Keys.DuplicateKeyIdsAccepted`).
- The custom-rule branch is unfinished. Its tokens are never stored. An
  `audio` token raises `KeyError` (line 328), and the model makes that an error.
- Nothing is assembled: the program exits at line 331.

## Model

| member | source | states |
|---|---|---|
| Wrappers.MapAll | example/cpix_gen.py:86-98 | a loop whose body may raise: either every element succeeds and the results keep input order and count, or the error is that of the first failing element, with all earlier elements succeeding |
| Text.Split | example/cpix_gen.py:88 | `str.split(sep)` gives one more part than there are separators, no part contains the separator, and joining the parts with the separator gives back the string |
| Text.SplitJoin | example/cpix_gen.py:88 | splitting the join of separator-free parts gives back exactly those parts |
| Text.SplitPair | example/cpix_gen.py:88 | a string with one separator splits into exactly the text before and after it |
| Base16.Encode | example/cpix_gen.py:266 | `b16encode` writes two upper-case hex digits per byte |
| Base16.Decode | example/cpix_gen.py:97 | `b16decode` succeeds exactly on even-length strings of `0-9A-F`; any other character is a digit error (checked first), otherwise odd length is an error; it yields half as many bytes as characters |
| Base16.DecodeEncode | example/cpix_gen.py:97 | decoding the upper-case hex of any bytes gives the bytes back |
| Base16.EncodeDecode | example/cpix_gen.py:266-267 | encoding the bytes of any accepted hex string gives the string back, character for character |
| Base64.Encode | example/cpix_gen.py:97 | `b64encode` output has 4 characters per started group of 3 bytes |
| Base64.Decode | example/cpix_gen.py:267 | `b64decode` rejects text whose length is not a multiple of 4 with a padding error; accepted text of `n` characters yields between `3n/4 - 2` and `3n/4` bytes |
| Base64.DecodeAlphabet | example/cpix_gen.py:267 | text that decodes is made of alphabet characters, except that its last two may be `=` padding |
| Base64.DecodeEncode | example/cpix_gen.py:266-267 | `b64decode(b64encode(b)) == b` for bytes of every length |
| Base64.EncodeSixteen | example/cpix_gen.py:97 | a 128-bit key encodes to 24 characters ending in `==` |
| Keys.CekHex | example/cpix_gen.py:266-267 | the stored content key turned back into hex is made of upper-case hex digits |
| Keys.KeySpecShape | example/cpix_gen.py:88-95 | an argument splits into two parts exactly when it has one colon; it passes the split, length and hex checks exactly when it is 32 colon-free characters, `:`, and 32 characters of `0-9A-F` |
| Keys.ParseKey | example/cpix_gen.py:87-97 | accepted exactly on that shape with a key id the UUID parse accepts; each error exactly on its condition, in check order: a colon count other than one is the split error, then the key-id length error, the content-key length error, the `b16decode` error, and last the key id that is not a UUID; on success the key id is the text before the colon, the stored content key is 24 characters ending in `==`, and turning it back into hex gives the text after the colon |
| Keys.ParseKeys | example/cpix_gen.py:83-98 | succeeds exactly when every argument is accepted, giving one key per argument in order with the key id unchanged and the content key round-tripping; otherwise fails with the error of the first argument that is not accepted, all earlier ones being accepted |
| Keys.FormatParsedKey | example/cpix_gen.py:97 | writing an accepted argument's key back as `kid:hex(cek)` gives the original argument |
| Keys.ParseFormattedKey | example/cpix_gen.py:88-97 | every 32-character colon-free key id that is a UUID, with any 16-byte content key, is what its own `KID:CEK` text parses to |
| Keys.DuplicateKeyIdsAccepted | example/cpix_gen.py:83-98 | the same accepted argument twice is accepted and yields two keys with the same id |
| Keys.LowerCaseCekRejected | example/cpix_gen.py:97 | a lower-case hex digit in the content key makes `b16decode`, and so the argument, fail, whatever the key id |
| DrmSystems.KeyIds | example/cpix_gen.py:249 | the Widevine generator's key-id list holds the keys' ids in key order |
| DrmSystems.PlayReadyKeys | example/cpix_gen.py:266-267 | the PlayReady key list pairs each key id, in order, with its content key turned back into hex |
| DrmSystems.WidevineRequestArguments | example/cpix_gen.py:248-253 | the Widevine generator is given every key id in key order, and the provider, content id and PSSH version options |
| DrmSystems.PlayReadyRequestArguments | example/cpix_gen.py:265-271 | the PlayReady generator is given every key id in key order with a hex content key that `b16decode` turns into the key's raw bytes, and the licence URL, algorithm and PSSH version options |
| DrmSystems.HexKeysDecode | example/cpix_gen.py:266-267 | each hex content key in the PlayReady key list decodes to the bytes the stored base64 content key decodes to |
| DrmSystems.Entries | example/cpix_gen.py:255-262 | one entry per key, in key order, each with the key's id, the system's id and the shared PSSH |
| DrmSystems.WidevineBlock | example/cpix_gen.py:247-262 | with Widevine enabled, one Widevine entry per key in key order, all carrying the base64 of the single box generated for all key ids; none otherwise |
| DrmSystems.PlayReadyBlock | example/cpix_gen.py:264-280 | with PlayReady enabled, one PlayReady entry per key in key order, all carrying the base64 of the single box generated for all keys; none otherwise |
| DrmSystems.BuildDrmSystems | example/cpix_gen.py:247-280 | `|keys|` entries per enabled system |
| DrmSystems.WidevineBlockCarriesBox | example/cpix_gen.py:247-262 | with Widevine enabled, the first entries are Widevine entries for the keys in key order, each carrying the base64 text of the one box generated for all key ids |
| DrmSystems.PlayReadyBlockCarriesBox | example/cpix_gen.py:264-280 | with PlayReady enabled, the entries right after the Widevine block are PlayReady entries for the keys in key order, each carrying the base64 text of the one box generated for all keys, and they end the list |
| DrmSystems.PlayReadyEntriesComeLast | example/cpix_gen.py:247-280 | no Widevine entry follows a PlayReady entry |
| DrmSystems.PsshDecodesToGeneratedBox | example/cpix_gen.py:248-280 | every entry's base64 PSSH decodes to the box its system's generator made for the whole key list |
| UsageRules.ParsePreset | example/cpix_gen.py:295-309 | a preset name is accepted exactly when it is one of the six names, and then names the preset it yields |
| UsageRules.ParseName | example/cpix_gen.py:295-309 | each preset's own name is accepted and yields that preset |
| UsageRules.ResolutionTiersPartition | example/cpix_gen.py:55-61 | the sd, hd, uhd1 and uhd2 pixel ranges cover every pixel count without overlap; each tier starts one above the previous tier's maximum; sd has no lower bound and uhd2 no upper bound |
| UsageRules.PresetRule | example/cpix_gen.py:288-309 | a key id that does not parse as a UUID or is not a parsed key's id is rejected before the name is looked at; success exactly when the id is known and the name is a preset name, giving a rule for that id and preset |
| CustomRules.ParseToken | example/cpix_gen.py:324-325 | a token without exactly one `:` fails with the first unpacking error; an accepted token is exactly `type:param=value` with no stray separators |
| CustomRules.ParseRenderedToken | example/cpix_gen.py:324-325 | every unambiguous token is what its own text unpacks to |
| CustomRules.Tokenize | example/cpix_gen.py:323-325 | a rule is split on `,` and its tokens unpacked left to right: success exactly when every token unpacks, with one token per comma-separated part in order; otherwise the error of the first bad token |
| CustomRules.TokenizeJoins | example/cpix_gen.py:323 | a tokenised rule written back with commas is the original rule |
| CustomRules.TokenizeRendered | example/cpix_gen.py:323-325 | any non-empty list of unambiguous, comma-free tokens is what its own rule text tokenises to |
| CustomRules.ProcessToken | example/cpix_gen.py:324-328 | the loop body succeeds exactly on a token that unpacks and is not an `audio` filter; a token that does not unpack fails with its unpacking error, and an `audio` filter with the `KeyError` of line 328 |
| CustomRules.ProcessRule | example/cpix_gen.py:323-328 | the loop over a rule's comma-separated tokens finishes exactly when every token passes the loop body, unpacking each token in order; otherwise it stops with the error of the first token that fails, all earlier tokens passing |
| CustomRules.ProcessRuleTokenize | example/cpix_gen.py:323-328 | the loop finishes exactly when the rule tokenises and no token is an `audio` filter, and then its tokens are the tokeniser's |
| CpixGen.KnownKids | example/cpix_gen.py:292 | a UUID is among the known key ids exactly when some parsed key's id parses to it |
| CpixGen.SpecKids | example/cpix_gen.py:292 | a UUID is among the argument key ids exactly when the first 32 characters of some `KID:CEK` argument parse to it |
| CpixGen.KnownKidsAreSpecKids | example/cpix_gen.py:289-292 | after a successful `parse_keys`, the known key ids are exactly the argument key ids |
| CpixGen.CustomRule | example/cpix_gen.py:313-328 | a custom rule whose key id is not a UUID or not known is rejected for its key id; one with a known key id whose token loop stops is rejected with that loop's error; it succeeds exactly when the id is known and the loop finishes, and then holds the rule's tokens |
| CpixGen.PresetRuleList | example/cpix_gen.py:286-309 | one usage rule per preset argument, in order, each the result of that argument's checks; success exactly when every argument passes; otherwise the error of the first argument that fails, all earlier ones passing |
| CpixGen.CustomRuleList | example/cpix_gen.py:312-328 | the custom-rule loop succeeds exactly when every custom rule does; otherwise it stops with the error of the first failing rule, all earlier ones succeeding |
| CpixGen.Run | example/cpix_gen.py:231-331 | PlayReady without a licence URL stops the run first; otherwise a key argument that is not accepted stops it with a key error; a completed run holds one key per argument and one usage rule per preset argument |
| CpixGen.RunSucceeds | example/cpix_gen.py:231-331 | a run completes exactly when the licence URL is present for PlayReady, every key argument is accepted, and every preset and custom rule passes its checks against the argument key ids |
| CpixGen.RunFailsAtFirstStage | example/cpix_gen.py:231-331 | a run that does not complete stops with the error of the first failing stage, in the order URL check, keys, preset rules, custom rules |
| CpixGen.RunKeyArguments | example/cpix_gen.py:236-240 | a completed run holds one key per argument, in order, with the key id as written and the content key turning back into the hex written |
| CpixGen.RunKeys | example/cpix_gen.py:236-280 | a completed run holds the keys `parse_keys` returned and the DRM entries built from them |
| CpixGen.RunRules | example/cpix_gen.py:284-328 | a completed run holds the preset rules the preset loop returned for the known key ids, and the custom-rule loop finished for them |
| CpixGen.ParsedKeysDecodable | example/cpix_gen.py:97 | every stored content key of accepted arguments decodes from base64 |
| CpixGen.WidevineKeyIdsAreSpecs | example/cpix_gen.py:249 | for accepted arguments, the key ids given to the Widevine generator are the text before each colon, in argument order |
| CpixGen.PlayReadyKeysAreSpecHalves | example/cpix_gen.py:265-267 | for accepted arguments, the PlayReady generator's key list pairs the text before each colon with the text after it, in argument order: the content key comes back unchanged from base64 storage |
| CpixGen.WidevineBlockOfSpecs | example/cpix_gen.py:247-262 | for accepted arguments, the first entries are Widevine entries for the argument key ids in order, each carrying the base64 text of the Widevine box |
| CpixGen.PlayReadyBlockOfSpecs | example/cpix_gen.py:264-280 | for accepted arguments, the entries after the Widevine block are PlayReady entries for the argument key ids in order, each carrying the base64 text of the PlayReady box |
| CpixGen.PlayReadyRequestOfSpecs | example/cpix_gen.py:265-271 | for accepted arguments, the PlayReady request holds exactly the argument key ids with their hex content keys as written, the licence URL and the options |
| CpixGen.RunWidevineRequest | example/cpix_gen.py:248-253 | in a completed run the Widevine generator is given the argument key ids, in order |
| CpixGen.RunWidevineEntries | example/cpix_gen.py:247-262 | with Widevine enabled, the first `|keys|` entries are Widevine entries for the argument key ids in order, all carrying the base64 text of the one box generated |
| CpixGen.RunPlayReadyRequest | example/cpix_gen.py:264-271 | with PlayReady enabled in a completed run, the licence URL is present and the generator is given exactly the argument key ids and hex content keys as written, the URL, the algorithm and the PSSH version |
| CpixGen.RunPlayReadyEntries | example/cpix_gen.py:264-280 | with PlayReady enabled in a completed run, the last `|keys|` entries follow the Widevine block and are PlayReady entries for the argument key ids in order, all carrying the base64 text of the one box generated for that request |
| CpixGen.RunPresetRules | example/cpix_gen.py:286-309 | in a completed run each preset rule carries its argument's parsed UUID, which is the id of a parsed key, and the preset its argument names |
| CpixGen.RunCustomRules | example/cpix_gen.py:312-325 | in a completed run every custom rule's key id is a known UUID and its rule text tokenises |

## Left out

- Argument parsing, logging and output (lines 101-229, 339-345) are I/O plumbing. `Config` holds the parsed arguments.
- `widevine.generate_pssh` and `playready.generate_pssh` belong to the external `cpix` library. They are uninterpreted functions in `DrmSystems.PsshGenerators`. Their box layouts are not part of this model.
- The `cpix` classes `ContentKey`, `DRMSystem`, the `*UsageRule` classes and `CPIX` are modelled as plain datatypes. A preset rule records its preset; its filter is the documented one (`UsageRules.PresetFilter`).
- `uuid.UUID` is an uninterpreted partial function (`Library.parseUuid`). The membership test at line 292 compares against `key.kid` after the library converts it. The model assumes that conversion is the same UUID parse, because the `cpix` library is not part of this model.
- Keys.ContentKey keeps the key id as the text written. `cpix.ContentKey` stores the UUID it converts that text to, so the generators and entries receive the UUID. The model identifies the two through `parseUuid`; the rule checks compare UUIDs only. The `cpix` library is not part of this model.
- Text: Python `str` can hold lone surrogate code points, which a Dafny `char` cannot. Arguments containing them are outside the model.
- DrmSystems.BuildDrmSystems: its own contract states only the number of entries. What each entry holds is stated by `DrmSystems.WidevineBlockCarriesBox`, `DrmSystems.PlayReadyBlockCarriesBox` and `DrmSystems.PlayReadyEntriesComeLast`, which keeps each proof small.
- Base64.Decode: Python's `b64decode` first drops characters outside the alphabet. The model rejects them instead. The two agree on every string `b64encode` produces, and those are the only strings the program decodes.
- Base16.Decode: a non-ASCII `str` makes Python raise `ValueError` rather than `binascii.Error`. The model treats both as the same digit error.
- Error messages are not modelled, only which check failed. The model does not distinguish `parser.error` from an uncaught exception (the custom-rule branch).
- The filter meaning of custom rules is left out: the source never builds filters (lines 321-328). Only tokenising and the `audio` `KeyError` are modelled.
- Document assembly and serialisation (lines 333-345) come after `exit(0)`, so they never run.
- The unused `PRESET_USAGE_RULES` list (line 80) is left out.
