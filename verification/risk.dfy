/** Risk normalisation: mapping a ZAP risk indicator ("High (3)", "med",
    "2", absent, ...) onto one of the four canonical severity levels. */
module Risk {

  import opened Wrappers
  import opened Text

  /** The four canonical levels; the declaration order is the order of
      increasing severity. */
  datatype Severity = Informational | Low | Medium | High

  /** The canonical level names: the keys of the count table. */
  const LevelNames: set<string> := {"High", "Medium", "Low", "Informational"}

  /** The level's canonical spelling, used as the key of the count table
      and in policy rule lists. */
  function Name(l: Severity): (r: string)
    ensures r in LevelNames
  {
    match l
    case Informational => "Informational"
    case Low => "Low"
    case Medium => "Medium"
    case High => "High"
  }

  /** Distinct levels have distinct names (they differ in their first
      letter). */
  lemma NameInjective(l1: Severity, l2: Severity)
    requires Name(l1) == Name(l2)
    ensures l1 == l2
  {
    assert Name(l1)[0] == Name(l2)[0];
  }

  /** Every canonical name is the name of a level. */
  lemma LevelOfName(k: string) returns (l: Severity)
    requires k in LevelNames
    ensures Name(l) == k
  {
    if k == "High" { l := High; }
    else if k == "Medium" { l := Medium; }
    else if k == "Low" { l := Low; }
    else { l := Informational; }
  }

  function Rank(l: Severity): nat
  {
    match l
    case Informational => 0
    case Low => 1
    case Medium => 2
    case High => 3
  }

  /** The alias table: lower-case words and the ZAP numeric risk codes. */
  const RiskNormalization: map<string, Severity> := map[
    "0" := Informational,
    "1" := Low,
    "2" := Medium,
    "3" := High,
    "informational" := Informational,
    "info" := Informational,
    "low" := Low,
    "medium" := Medium,
    "med" := Medium,
    "high" := High
  ]

  /** The level an alias names, Informational for anything unknown. */
  function AliasOf(token: string): Severity
  {
    if token in RiskNormalization then RiskNormalization[token] else Informational
  }

  /** Every alias is a non-empty word without whitespace that lower-casing
      leaves unchanged. */
  lemma AliasKeysAreLowerWords(k: string)
    requires k in RiskNormalization
    ensures k != [] && NoSpace(k) && Lower(k) == k
  {
    assert k in RiskNormalization.Keys;
    assert k in {"0", "1", "2", "3", "informational", "info", "low", "medium", "med", "high"};
    assert LowerWord(k);
    LowerWordFixed(k);
  }

  /** `normalize_risk`: absent and blank indicators are Informational;
      anything else is looked up after trimming. */
  function NormalizeRisk(value: Option<string>): (r: Severity)
    ensures value.None? ==> r == Informational
    ensures value.Some? && AllSpace(value.value) ==> r == Informational
  {
    match value
    case None => Informational
    case Some(raw) =>
      var v := Strip(raw);
      if v == [] then Informational
      else LookupTrimmed(v)
  }

  /** The lookups on a non-empty trimmed indicator: the lower-cased first
      token, then the whole indicator as it is, then Informational. The
      second lookup adds nothing, so the level is the alias the first
      token names. */
  function LookupTrimmed(v: string): (r: Severity)
    requires v != [] && !IsSpace(v[0])
    ensures Split(v) != [] && r == AliasOf(Lower(Split(v)[0]))
  {
    var parts := Split(v);
    assert parts != [] by { assert !AllSpace(v); }
    var token := Lower(parts[0]);
    var level :=
      if token in RiskNormalization then RiskNormalization[token]
      else if v in RiskNormalization then RiskNormalization[v]
      else Informational;
    WholeStringCheckNeverMatches(v);
    level
  }

  /** An alias is its own first token, already in lower case. */
  lemma AliasIsOwnFirstToken(v: string)
    requires v in RiskNormalization
    ensures Split(v) == [v] && Lower(v) == v
  {
    AliasKeysAreLowerWords(v);
    SplitSingleToken(v);
  }

  /** The whole-string lookup never matches when the first-token lookup
      did not: an alias has no whitespace and is its own lower-case form. */
  lemma WholeStringCheckNeverMatches(v: string)
    requires v != [] && !IsSpace(v[0])
    ensures Split(v) != [] && (Lower(Split(v)[0]) !in RiskNormalization ==> v !in RiskNormalization)
  {
    assert !AllSpace(v);
    if v in RiskNormalization {
      AliasIsOwnFirstToken(v);
    }
  }

  /** Stripping an indicator that starts, after whitespace, with a token
      keeps the token at the front, followed by nothing or by whitespace. */
  lemma StripAroundToken(lead: string, tok: string, rest: string) returns (core: string)
    requires AllSpace(lead)
    requires tok != [] && NoSpace(tok)
    requires rest != [] ==> IsSpace(rest[0])
    ensures Strip(lead + tok + rest) == tok + core
    ensures core != [] ==> IsSpace(core[0])
  {
    var m := |rest| - TrailingSpace(rest);
    core := rest[..m];
    var trail := rest[m..];
    assert rest == core + trail;
    assert AllSpace(trail);
    assert (tok + core)[0] == tok[0];
    assert !IsSpace((tok + core)[|tok + core| - 1]) by {
      if m > 0 {
        assert (tok + core)[|tok + core| - 1] == rest[m - 1];
      } else {
        assert (tok + core)[|tok + core| - 1] == tok[|tok| - 1];
      }
    }
    assert lead + tok + rest == lead + (tok + core) + trail;
    StripPadded(lead, tok + core, trail);
  }

  /** The result depends only on the first whitespace-delimited token:
      whatever whitespace precedes it and whatever follows it, the level is
      the alias the lower-cased token names, or Informational. */
  lemma {:induction false} NormalizeRiskFirstToken(lead: string, tok: string, rest: string)
    requires AllSpace(lead)
    requires tok != [] && NoSpace(tok)
    requires rest != [] ==> IsSpace(rest[0])
    ensures NormalizeRisk(Some(lead + tok + rest)) == AliasOf(Lower(tok))
  {
    var core := StripAroundToken(lead, tok, rest);
    LookupTrimmedToken(tok, core);
  }

  /** The lookups on a trimmed indicator give the level its first token
      names. */
  lemma LookupTrimmedToken(tok: string, core: string)
    requires tok != [] && NoSpace(tok)
    requires core != [] ==> IsSpace(core[0])
    ensures (tok + core)[0] == tok[0]
    ensures LookupTrimmed(tok + core) == AliasOf(Lower(tok))
  {
    var v := tok + core;
    assert v[0] == tok[0];
    SplitLeadingToken(tok, core);
  }

  /** `normalize_risk` on any present value: Informational when it is blank,
      otherwise the level its lower-cased first token names, or
      Informational when that token is not an alias. */
  lemma NormalizeRiskByFirstToken(s: string)
    ensures NormalizeRisk(Some(s)) ==
      if AllSpace(s) then Informational else AliasOf(Lower(Split(s)[0]))
  {
    if !AllSpace(s) {
      var lead, tok, rest := FirstTokenOf(s);
      NormalizeRiskFirstToken(lead, tok, rest);
      SplitFirstToken(lead, tok, rest);
    }
  }

  /** Any known alias, written in any ASCII case and followed by nothing or
      by whitespace and anything (such as " (3)"), normalises to its
      level. */
  lemma AliasWithSuffix(word: string, suffix: string)
    requires Lower(word) in RiskNormalization
    requires suffix != [] ==> IsSpace(suffix[0])
    ensures NormalizeRisk(Some(word + suffix)) == RiskNormalization[Lower(word)]
  {
    AliasKeysAreLowerWords(Lower(word));
    assert word != [] && NoSpace(word);
    assert word + suffix == [] + word + suffix;
    NormalizeRiskFirstToken([], word, suffix);
  }

  /** A non-blank string is its leading whitespace, its first token and a
      remainder that is empty or starts with whitespace. */
  lemma FirstTokenOf(s: string) returns (lead: string, tok: string, rest: string)
    requires !AllSpace(s)
    ensures s == lead + tok + rest
    ensures AllSpace(lead) && tok != [] && NoSpace(tok)
    ensures rest != [] ==> IsSpace(rest[0])
  {
    var a := LeadingSpace(s);
    var n := TokenLength(s[a..]);
    assert n >= 1 by { assert s[a..][0] == s[a]; }
    lead, tok, rest := s[..a], s[a..][..n], s[a..][n..];
    assert s == lead + tok + rest;
  }

  /** Lower-casing keeps that three-part layout. */
  lemma LowerKeepsLayout(lead: string, tok: string, rest: string)
    requires AllSpace(lead) && tok != [] && NoSpace(tok)
    requires rest != [] ==> IsSpace(rest[0])
    ensures Lower(lead + tok + rest) == Lower(lead) + Lower(tok) + Lower(rest)
    ensures AllSpace(Lower(lead)) && Lower(tok) != [] && NoSpace(Lower(tok))
    ensures Lower(rest) != [] ==> IsSpace(Lower(rest)[0])
  {
    LowerAppend(lead + tok, rest);
    LowerAppend(lead, tok);
  }

  /** Normalisation ignores ASCII case. */
  lemma NormalizeRiskIgnoresCase(s: string)
    ensures NormalizeRisk(Some(Lower(s))) == NormalizeRisk(Some(s))
  {
    if !AllSpace(s) {
      var lead, tok, rest := FirstTokenOf(s);
      NormalizeRiskFirstToken(lead, tok, rest);
      LowerKeepsLayout(lead, tok, rest);
      NormalizeRiskFirstToken(Lower(lead), Lower(tok), Lower(rest));
      LowerIdempotent(tok);
    } else {
      assert AllSpace(Lower(s));
    }
  }

  /** Each canonical level name is, lower-cased, an alias of that level. */
  lemma NameIsAlias(l: Severity)
    ensures Lower(Name(l)) in RiskNormalization && RiskNormalization[Lower(Name(l))] == l
  {
    match l
    case Informational => assert Lower("Informational") == "informational";
    case Low => assert Lower("Low") == "low";
    case Medium => assert Lower("Medium") == "medium";
    case High => assert Lower("High") == "high";
  }

  /** A description that starts with a canonical level name, followed by
      nothing or by whitespace and anything (ZAP writes "High (Medium)"),
      normalises to that level. */
  lemma LevelDescNormalizes(l: Severity, suffix: string)
    requires suffix != [] ==> IsSpace(suffix[0])
    ensures NormalizeRisk(Some(Name(l) + suffix)) == l
  {
    NameIsAlias(l);
    AliasWithSuffix(Name(l), suffix);
  }

  /** A canonical level name normalises to that level, so normalising is
      idempotent on its own output. */
  lemma CanonicalNameNormalizes(l: Severity)
    ensures NormalizeRisk(Some(Name(l))) == l
  {
    LevelDescNormalizes(l, []);
    assert Name(l) + [] == Name(l);
  }
}
