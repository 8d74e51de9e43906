/** The custom usage-rule tokeniser of `main` (example/cpix_gen.py:311-328):
    a rule is a comma-separated list of `type:parameter=value` tokens, each
    unpacked from left to right. The branch is unfinished in the program:
    the parsed tokens are never stored, and an `audio` token stops the run
    because it reads a key of a still-empty dictionary. */
module CustomRules {
  import opened Wrappers
  import opened Text

  /** One unpacked `filter_type:filter_param_type=filter_param_value` token. */
  datatype FilterToken = FilterToken(filterType: string, param: string, value: string)

  /** How processing a rule's tokens stops. */
  datatype TokenError =
    | MissingTypeSeparator(token: string)    // `split(":")` did not give two parts
    | MissingValueSeparator(token: string)   // `split("=")` did not give two parts
    | AudioFilterUnhandled                   // `parsed_filters["audio"]` on an empty dict

  /** The text of a token. */
  function Render(t: FilterToken): string
  {
    t.filterType + [':'] + t.param + ['='] + t.value
  }

  /** A token that its own text unpacks back into: no `:` in any field and
      no `=` in the parameter or value. */
  predicate Unambiguous(t: FilterToken)
  {
    && ':' !in t.filterType && ':' !in t.param && ':' !in t.value
    && '=' !in t.param && '=' !in t.value
  }

  /** The two unpacking assignments of one token (lines 324-325). */
  function ParseToken(tok: string): (r: Result<FilterToken, TokenError>)
    ensures r == Failure(MissingTypeSeparator(tok)) <==> Count(tok, ':') != 1
    ensures r.Success? ==> Render(r.value) == tok && Unambiguous(r.value)
    ensures r.Failure? ==> r.error.MissingTypeSeparator? || r.error.MissingValueSeparator?
  {
    var parts := Split(tok, ':');
    if |parts| != 2 then Failure(MissingTypeSeparator(tok))
    else
      var kv := Split(parts[1], '=');
      if |kv| != 2 then Failure(MissingValueSeparator(tok))
      else
        assert Join(parts, ':') == parts[0] + [':'] + parts[1];
        assert Join(kv, '=') == kv[0] + ['='] + kv[1];
        assert ':' !in kv[0] + ['='] + kv[1];
        assert forall c :: c in kv[0] || c in kv[1] ==> c in kv[0] + ['='] + kv[1];
        Success(FilterToken(parts[0], kv[0], kv[1]))
  }

  /** Unpacking undoes rendering for every unambiguous token. */
  lemma ParseRenderedToken(t: FilterToken)
    requires Unambiguous(t)
    ensures ParseToken(Render(t)) == Success(t)
  {
    var tail := t.param + ['='] + t.value;
    assert ':' !in tail by {
      assert forall k :: 0 <= k < |tail| ==> tail[k] in t.param || tail[k] == '=' || tail[k] in t.value;
    }
    assert Render(t) == t.filterType + [':'] + tail;
    SplitPair(t.filterType, ':', tail);
    SplitPair(t.param, '=', t.value);
  }

  /** The tokens of a rule: split on `,`, then every token unpacked, left to
      right, stopping at the first malformed one. */
  function Tokenize(rule: string): (r: Result<seq<FilterToken>, TokenError>)
    ensures r.Success? ==> forall i :: 0 <= i < |Split(rule, ',')| ==> ParseToken(Split(rule, ',')[i]).Success?
    ensures r.Failure? ==> exists i :: 0 <= i < |Split(rule, ',')| && ParseToken(Split(rule, ',')[i]).Failure?
    ensures r.Success? ==> |r.value| == Count(rule, ',') + 1
    ensures r.Success? ==> forall i :: 0 <= i < |r.value| ==> Render(r.value[i]) == Split(rule, ',')[i]
    ensures r.Success? ==> forall i :: 0 <= i < |r.value| ==> ParseToken(Split(rule, ',')[i]) == Success(r.value[i])
    ensures r.Failure? ==>
      exists i :: 0 <= i < |Split(rule, ',')| && ParseToken(Split(rule, ',')[i]) == Failure(r.error)
                  && forall j :: 0 <= j < i ==> ParseToken(Split(rule, ',')[j]).Success?
  {
    var toks := Split(rule, ',');
    var r := MapAll(ParseToken, toks);
    if r.Success? then
      assert forall i :: 0 <= i < |toks| ==> ParseToken(toks[i]) == Success(r.value[i]);
      assert forall i :: 0 <= i < |toks| ==> Render(r.value[i]) == toks[i];
      r
    else
      var k :| 0 <= k < |toks| && ParseToken(toks[k]) == Failure(r.error);
      assert !(forall i :: 0 <= i < |toks| ==> ParseToken(toks[i]).Success?) by {
        assert 0 <= k < |toks| && !ParseToken(toks[k]).Success?;
      }
      r
  }

  function Renders(ts: seq<FilterToken>): (r: seq<string>)
    ensures |r| == |ts|
    ensures forall i :: 0 <= i < |ts| ==> r[i] == Render(ts[i])
  {
    seq(|ts|, i requires 0 <= i < |ts| => Render(ts[i]))
  }

  /** A successful tokenisation can be written back as the rule it came from. */
  lemma TokenizeJoins(rule: string)
    requires Tokenize(rule).Success?
    ensures Join(Renders(Tokenize(rule).value), ',') == rule
  {
    assert Renders(Tokenize(rule).value) == Split(rule, ',');
  }

  /** Any non-empty list of unambiguous, comma-free tokens is what its own
      rule text tokenises to. */
  lemma TokenizeRendered(ts: seq<FilterToken>)
    requires |ts| >= 1
    requires forall i :: 0 <= i < |ts| ==> Unambiguous(ts[i]) && ',' !in Render(ts[i])
    ensures Tokenize(Join(Renders(ts), ',')) == Success(ts)
  {
    var texts := Renders(ts);
    SplitJoin(texts, ',');
    forall i | 0 <= i < |ts|
      ensures ParseToken(texts[i]) == Success(ts[i])
    {
      ParseRenderedToken(ts[i]);
    }
    var r := Tokenize(Join(texts, ','));
    assert r.Success?;
    assert forall i :: 0 <= i < |ts| ==> ParseToken(texts[i]) == Success(r.value[i]);
    assert r.value == ts;
  }

  /** One token as the loop body handles it: unpacked, then rejected if it
      is an audio filter (line 328 reads `parsed_filters["audio"]`). */
  function ProcessToken(tok: string): (r: Result<FilterToken, TokenError>)
    ensures r.Success? <==> ParseToken(tok).Success? && ParseToken(tok).value.filterType != "audio"
    ensures ParseToken(tok).Failure? ==> r == Failure(ParseToken(tok).error)
    ensures ParseToken(tok).Success? && ParseToken(tok).value.filterType == "audio" ==> r == Failure(AudioFilterUnhandled)
    ensures r.Success? ==> r == ParseToken(tok)
  {
    var t :- ParseToken(tok);
    if t.filterType == "audio" then Failure(AudioFilterUnhandled) else Success(t)
  }

  /** The whole custom-rule loop of one rule: every comma-separated token is
      processed in order, and the first token that is malformed or an audio
      filter stops it, a malformed one with its unpacking error (a
      `ValueError`), an audio one with `AudioFilterUnhandled` (a `KeyError`). */
  function ProcessRule(rule: string): (r: Result<seq<FilterToken>, TokenError>)
    ensures r.Success? <==> forall i :: 0 <= i < |Split(rule, ',')| ==> ProcessToken(Split(rule, ',')[i]).Success?
    ensures r.Success? ==> |r.value| == |Split(rule, ',')|
    ensures r.Success? ==> forall i :: 0 <= i < |r.value| ==> ParseToken(Split(rule, ',')[i]) == Success(r.value[i])
    ensures r.Failure? ==>
      exists i :: 0 <= i < |Split(rule, ',')| && ProcessToken(Split(rule, ',')[i]) == Failure(r.error)
                  && forall j :: 0 <= j < i ==> ProcessToken(Split(rule, ',')[j]).Success?
  {
    var toks := Split(rule, ',');
    var r := MapAll(ProcessToken, toks);
    assert r.Success? ==> forall i :: 0 <= i < |toks| ==> ProcessToken(toks[i]) == Success(r.value[i]);
    r
  }

  /** The loop finishes exactly when the rule tokenises and no token is an
      audio filter, and then the tokens it unpacks are those of `Tokenize`. */
  lemma ProcessRuleTokenize(rule: string)
    ensures ProcessRule(rule).Success? <==>
      Tokenize(rule).Success? && forall i :: 0 <= i < |Tokenize(rule).value| ==> Tokenize(rule).value[i].filterType != "audio"
    ensures ProcessRule(rule).Success? ==> ProcessRule(rule) == Tokenize(rule)
  {
    var toks := Split(rule, ',');
    var r := ProcessRule(rule);
    var t := Tokenize(rule);
    if r.Success? {
      assert forall i :: 0 <= i < |toks| ==> ParseToken(toks[i]).Success?;
      assert t.Success?;
      assert |t.value| == |r.value|;
      forall i | 0 <= i < |r.value|
        ensures t.value[i] == r.value[i] && t.value[i].filterType != "audio"
      {
        assert ParseToken(toks[i]) == Success(t.value[i]);
        assert ProcessToken(toks[i]).Success?;
      }
      assert t.value == r.value;
    } else {
      var k :| 0 <= k < |toks| && ProcessToken(toks[k]).Failure?;
      if t.Success? {
        assert ParseToken(toks[k]) == Success(t.value[k]);
        assert t.value[k].filterType == "audio";
      }
    }
  }
}
