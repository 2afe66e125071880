/** `count_by_risk`: the four-bucket histogram of normalised alert
    severities. */
module Counting {

  import opened Wrappers
  import opened Text
  import opened Risk
  import opened ZapReport

  /** `a.get("riskdesc") or a.get("riskcode")`: the description unless it
      is missing or the empty string, else the code. */
  function RiskIndicator(a: Alert): (r: Option<string>)
    ensures a.riskdesc.Some? && a.riskdesc.value != [] ==> r == a.riskdesc
    ensures a.riskdesc.None? || a.riskdesc.value == [] ==> r == a.riskcode
  {
    if a.riskdesc.Some? && a.riskdesc.value != [] then a.riskdesc else a.riskcode
  }

  /** The severity one alert is counted under: that of its description when
      the description is present and non-empty, that of its code otherwise. */
  function Classify(a: Alert): (l: Severity)
    ensures a.riskdesc.Some? && a.riskdesc.value != [] ==> l == NormalizeRisk(a.riskdesc)
    ensures a.riskdesc.None? || a.riskdesc.value == [] ==> l == NormalizeRisk(a.riskcode)
  {
    NormalizeRisk(RiskIndicator(a))
  }

  /** A missing or empty description falls back to the risk code. */
  lemma EmptyRiskdescFallsBack(a: Alert)
    requires a.riskdesc.None? || a.riskdesc.value == []
    ensures Classify(a) == NormalizeRisk(a.riskcode)
  {
  }

  /** A whitespace-only description is still a present value: it wins over
      the code and is counted as Informational. */
  lemma BlankRiskdescDoesNotFallBack(a: Alert)
    requires a.riskdesc.Some? && a.riskdesc.value != [] && AllSpace(a.riskdesc.value)
    ensures Classify(a) == Informational
  {
  }

  function ZeroCounts(): (c: map<string, nat>)
    ensures c.Keys == LevelNames
  {
    map["High" := 0, "Medium" := 0, "Low" := 0, "Informational" := 0]
  }

  /** `sum(counts.values())` over a table with the four level keys. */
  function Total(counts: map<string, nat>): int
    requires LevelNames <= counts.Keys
  {
    counts["High"] + counts["Medium"] + counts["Low"] + counts["Informational"]
  }

  /** One iteration of the counting loop: the level's bucket goes up by
      one, falling back to the Informational bucket when the level is not
      a key of the table. On a table that has the level as a key, exactly
      that bucket changes. */
  function Tally(counts: map<string, nat>, risk: Severity): (r: map<string, nat>)
    requires Name(risk) in counts || "Informational" in counts
    ensures r.Keys == counts.Keys
    ensures Name(risk) in counts ==> r[Name(risk)] == counts[Name(risk)] + 1
    ensures Name(risk) in counts ==> forall k :: k in counts && k != Name(risk) ==> r[k] == counts[k]
  {
    var key := if Name(risk) in counts then Name(risk) else "Informational";
    counts[key := counts[key] + 1]
  }

  /** Tallying adds one to the total of a four-key table. */
  lemma TallyTotal(c: map<string, nat>, x: Severity)
    requires c.Keys == LevelNames
    ensures Total(Tally(c, x)) == Total(c) + 1
  {
    match x
    case High =>
    case Medium =>
    case Low =>
    case Informational =>
  }

  /** Tallying one more level into a table that counts a list of levels
      gives the table for the extended list. */
  lemma TallyCounts(c: map<string, nat>, s: seq<Severity>, x: Severity)
    requires c.Keys == LevelNames
    requires forall l :: c[Name(l)] == multiset(s)[l]
    ensures forall l :: Tally(c, x)[Name(l)] == multiset(s + [x])[l]
  {
    var r := Tally(c, x);
    forall l
      ensures r[Name(l)] == multiset(s + [x])[l]
    {
      assert multiset(s + [x]) == multiset(s) + multiset{x};
      if l != x {
        if Name(l) == Name(x) {
          NameInjective(l, x);
        }
      }
    }
  }

  /** The normalised severity of each alert, in order. */
  function Severities(alerts: seq<Alert>): (r: seq<Severity>)
    ensures |r| == |alerts|
    ensures forall i :: 0 <= i < |alerts| ==> r[i] == Classify(alerts[i])
  {
    seq(|alerts|, i requires 0 <= i < |alerts| => Classify(alerts[i]))
  }

  lemma SeveritiesAppend(a: seq<Alert>, b: seq<Alert>)
    ensures Severities(a + b) == Severities(a) + Severities(b)
  {
    var l, r := Severities(a + b), Severities(a) + Severities(b);
    assert |l| == |r|;
    forall i | 0 <= i < |l|
      ensures l[i] == r[i]
    {
      if i < |a| {
        assert (a + b)[i] == a[i];
      } else {
        assert (a + b)[i] == b[i - |a|];
      }
    }
  }

  /** The counting loop over the alerts' levels, in order: the table
      always has exactly the four level keys, the buckets add up to the
      number of levels, and each bucket holds the multiplicity of its
      level. */
  function Histogram(levels: seq<Severity>): (counts: map<string, nat>)
    ensures counts.Keys == LevelNames
    ensures Total(counts) == |levels|
    ensures forall l :: counts[Name(l)] == multiset(levels)[l]
  {
    if levels == [] then ZeroCounts()
    else
      var init, last := levels[..|levels| - 1], levels[|levels| - 1];
      assert levels == init + [last];
      var c := Histogram(init);
      TallyCounts(c, init, last);
      TallyTotal(c, last);
      Tally(c, last)
  }

  /** `count_by_risk`: each alert is counted once, under its normalised
      level, so the buckets add up to the number of alerts. */
  function CountByRisk(alerts: seq<Alert>): (counts: map<string, nat>)
    ensures counts.Keys == LevelNames
    ensures Total(counts) == |alerts|
    ensures forall l :: counts[Name(l)] == multiset(Severities(alerts))[l]
  {
    Histogram(Severities(alerts))
  }

  /** The fallback at the top of the loop is never taken: every alert's
      level is already a key of the running table. */
  lemma GuardNeverTaken(alerts: seq<Alert>, i: nat)
    requires i < |alerts|
    ensures Name(Classify(alerts[i])) in CountByRisk(alerts[..i])
  {
  }

  /** Counting two lists one after the other adds their buckets. */
  lemma CountByRiskAppend(a: seq<Alert>, b: seq<Alert>, l: Severity)
    ensures CountByRisk(a + b)[Name(l)] == CountByRisk(a)[Name(l)] + CountByRisk(b)[Name(l)]
  {
    SeveritiesAppend(a, b);
  }

  /** A level's bucket is non-zero exactly when some alert has that level. */
  lemma CountPositive(alerts: seq<Alert>, l: Severity)
    ensures CountByRisk(alerts)[Name(l)] > 0 <==> exists i :: 0 <= i < |alerts| && Classify(alerts[i]) == l
  {
    var s := Severities(alerts);
    assert multiset(s)[l] > 0 <==> l in s;
    if l in s {
      var i :| 0 <= i < |s| && s[i] == l;
      assert Classify(alerts[i]) == l;
    }
  }
}
