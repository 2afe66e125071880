/** The evaluation `main` performs between loading its inputs and writing
    its result: extract the alerts, count them by level, decide, and map
    the decision to an exit status. */
module Pipeline {

  import opened Wrappers
  import opened Text
  import opened Risk
  import opened ZapReport
  import opened Counting
  import opened PolicyGate

  /** The names flagged in the count table are exactly the names of the
      levels some alert has. */
  lemma FlaggedLevels(alerts: seq<Alert>, k: string)
    ensures k in Flagged(CountByRisk(alerts)) <==> exists i :: 0 <= i < |alerts| && Name(Classify(alerts[i])) == k
  {
    var counts := CountByRisk(alerts);
    if k in Flagged(counts) {
      assert k in LevelNames;
      var l := LevelOfName(k);
      CountPositive(alerts, l);
    }
    if exists i :: 0 <= i < |alerts| && Name(Classify(alerts[i])) == k {
      var i :| 0 <= i < |alerts| && Name(Classify(alerts[i])) == k;
      CountPositive(alerts, Classify(alerts[i]));
    }
  }

  /** Some extracted alert has a level listed in `names`. */
  predicate SomeAlertIn(alerts: seq<Alert>, names: set<string>)
  {
    exists i :: 0 <= i < |alerts| && Name(Classify(alerts[i])) in names
  }

  lemma FlaggedOverlap(alerts: seq<Alert>, names: set<string>)
    ensures Flagged(CountByRisk(alerts)) * names != {} <==> SomeAlertIn(alerts, names)
  {
    var f := Flagged(CountByRisk(alerts));
    if f * names != {} {
      var k :| k in f * names;
      FlaggedLevels(alerts, k);
    }
    if SomeAlertIn(alerts, names) {
      var i :| 0 <= i < |alerts| && Name(Classify(alerts[i])) in names;
      FlaggedLevels(alerts, Name(Classify(alerts[i])));
      assert Name(Classify(alerts[i])) in f * names;
    }
  }

  /** One evaluation of a parsed report against a parsed policy. The
      decision is FAIL exactly when some extracted alert normalises to a
      `fail_on` level, otherwise WARN exactly when one normalises to a
      `warn_on` level, otherwise PASS. The reasons are those `Decide`
      gives for the counts of the extracted alerts. */
  function Evaluate(report: Report, policy: Policy): (e: Evaluation)
    ensures e.decision == Fail <==> SomeAlertIn(ExtractAlerts(report), policy.failOn)
    ensures e.decision == Warn <==>
      !SomeAlertIn(ExtractAlerts(report), policy.failOn) && SomeAlertIn(ExtractAlerts(report), policy.warnOn)
  {
    var alerts := ExtractAlerts(report);
    FlaggedOverlap(alerts, policy.failOn);
    FlaggedOverlap(alerts, policy.warnOn);
    Decide(CountByRisk(alerts), policy)
  }

  /** The exit status `main` returns after a completed evaluation: 1
      exactly when some extracted alert is at a `fail_on` level. */
  function GateExitCode(report: Report, policy: Policy): (code: int)
    ensures code == 1 <==> SomeAlertIn(ExtractAlerts(report), policy.failOn)
    ensures code == 0 <==> !SomeAlertIn(ExtractAlerts(report), policy.failOn)
  {
    ExitCode(Evaluate(report, policy).decision)
  }

  /** More alerts never relax the gate: evaluating a longer alert list
      decides at least as strictly. */
  lemma MoreAlertsNeverRelax(a: seq<Alert>, b: seq<Alert>, policy: Policy)
    ensures Strictness(Decide(CountByRisk(a), policy).decision) <= Strictness(Decide(CountByRisk(a + b), policy).decision)
  {
    var c1, c2 := CountByRisk(a), CountByRisk(a + b);
    forall k | k in Flagged(c1)
      ensures k in Flagged(c2)
    {
      FlaggedLevels(a, k);
      var i :| 0 <= i < |a| && Name(Classify(a[i])) == k;
      assert (a + b)[i] == a[i];
      FlaggedLevels(a + b, k);
    }
    VerdictMonotone(c1, c2, policy);
  }

  /** An alert with a non-empty description is counted by the
      description alone. */
  lemma ClassifyByDesc(a: Alert)
    requires a.riskdesc.Some? && a.riskdesc.value != []
    ensures Classify(a) == NormalizeRisk(a.riskdesc)
  {
  }

  /** An alert described by a level name and a whitespace-led suffix is
      counted at that level. */
  lemma DescribedAs(a: Alert, l: Severity, suffix: string)
    requires a.riskdesc == Some(Name(l) + suffix)
    requires suffix != [] ==> IsSpace(suffix[0])
    ensures Classify(a) == l
  {
    LevelDescNormalizes(l, suffix);
    ClassifyByDesc(a);
  }

  /** A report with one site holding exactly the alert `a`. */
  lemma OneSiteExtract(a: Alert, top: Option<seq<Alert>>)
    ensures ExtractAlerts(Report(Some([Site(Some([a]))]), top)) == [a]
  {
    var sites := [Site(Some([a]))];
    assert sites[..|sites| - 1] == [];
    assert ConcatSites(sites) == ConcatSites([]) + [a];
  }

  /** A report without sites whose top-level list holds exactly `a`. */
  lemma TopLevelExtract(a: Alert)
    ensures ExtractAlerts(Report(None, Some([a]))) == [a]
  {
  }

  /** Counting a single alert puts one in its level's bucket and zero in
      the others. */
  lemma CountOne(a: Alert, l: Severity)
    requires Classify(a) == l
    ensures forall m :: CountByRisk([a])[Name(m)] == if m == l then 1 else 0
  {
    assert Severities([a]) == [l];
  }

  /** With a single extracted alert, its level alone decides, and the exit
      status follows. */
  lemma EvaluateSingle(report: Report, a: Alert, l: Severity, policy: Policy)
    requires ExtractAlerts(report) == [a] && Classify(a) == l
    ensures Evaluate(report, policy).decision ==
      if Name(l) in policy.failOn then Fail
      else if Name(l) in policy.warnOn then Warn
      else Pass
    ensures GateExitCode(report, policy) == if Name(l) in policy.failOn then 1 else 0
  {
    SomeAlertInSingle(a, policy.failOn);
    SomeAlertInSingle(a, policy.warnOn);
  }

  lemma SomeAlertInSingle(a: Alert, names: set<string>)
    ensures SomeAlertIn([a], names) <==> Name(Classify(a)) in names
  {
    assert [a][0] == a;
  }

  lemma DescribedHigh(a: Alert)
    requires a.riskdesc == Some("High (3)")
    ensures Classify(a) == High
  {
    assert "High (3)" == Name(High) + " (3)";
    DescribedAs(a, High, " (3)");
  }

  lemma DescribedMedium(a: Alert)
    requires a.riskdesc == Some("Medium (2)")
    ensures Classify(a) == Medium
  {
    assert "Medium (2)" == Name(Medium) + " (2)";
    DescribedAs(a, Medium, " (2)");
  }

  lemma DescribedInformational(a: Alert)
    requires a.riskdesc == Some("Informational (0)")
    ensures Classify(a) == Informational
  {
    assert "Informational (0)" == Name(Informational) + " (0)";
    DescribedAs(a, Informational, " (0)");
  }

  /** A High alert in the top-level list fails a report without sites. */
  lemma TopLevelAlertsCountWithoutSites(high: Alert)
    requires high.riskdesc == Some("High (3)")
    ensures Evaluate(Report(None, Some([high])), Policy({"High"}, {})).decision == Fail
  {
    DescribedHigh(high);
    TopLevelExtract(high);
    EvaluateSingle(Report(None, Some([high])), high, High, Policy({"High"}, {}));
  }

  /** Shape B is only a fallback: once any site holds an alert, alerts in
      the top-level list are not counted, even a High one. */
  lemma TopLevelAlertsIgnoredWithSites(info: Alert, high: Alert)
    requires info.riskdesc == Some("Informational (0)")
    requires high.riskdesc == Some("High (3)")
    ensures Evaluate(Report(Some([Site(Some([info]))]), Some([high])), Policy({"High"}, {})).decision == Pass
  {
    DescribedInformational(info);
    OneSiteExtract(info, Some([high]));
    EvaluateSingle(Report(Some([Site(Some([info]))]), Some([high])), info, Informational, Policy({"High"}, {}));
  }

  /** A report whose only alert is described "High (3)", whatever its
      code, counts one High finding and nothing else. */
  lemma ScenarioHighCounts(a: Alert)
    requires a.riskdesc == Some("High (3)")
    ensures var counts := CountByRisk(ExtractAlerts(Report(Some([Site(Some([a]))]), None)));
            && counts["High"] == 1 && counts["Medium"] == 0
            && counts["Low"] == 0 && counts["Informational"] == 0
  {
    DescribedHigh(a);
    OneSiteExtract(a, None);
    CountOne(a, High);
    var counts := CountByRisk([a]);
    assert counts[Name(High)] == 1 && counts[Name(Medium)] == 0;
    assert counts[Name(Low)] == 0 && counts[Name(Informational)] == 0;
  }

  /** The same report under `fail_on: [High]` fails and exits with 1. */
  lemma ScenarioHighFails(a: Alert)
    requires a.riskdesc == Some("High (3)")
    ensures var report := Report(Some([Site(Some([a]))]), None);
            && Evaluate(report, Policy({"High"}, {})).decision == Fail
            && GateExitCode(report, Policy({"High"}, {})) == 1
  {
    DescribedHigh(a);
    OneSiteExtract(a, None);
    EvaluateSingle(Report(Some([Site(Some([a]))]), None), a, High, Policy({"High"}, {}));
  }

  /** One Medium alert under `fail_on: [High]`, `warn_on: [Medium]` warns
      and exits with 0. */
  lemma ScenarioMediumWarns(a: Alert)
    requires a.riskdesc == Some("Medium (2)")
    ensures var report := Report(None, Some([a]));
            var policy := Policy({"High"}, {"Medium"});
            && Evaluate(report, policy).decision == Warn
            && GateExitCode(report, policy) == 0
  {
    DescribedMedium(a);
    TopLevelExtract(a);
    EvaluateSingle(Report(None, Some([a])), a, Medium, Policy({"High"}, {"Medium"}));
  }

  /** An empty alert list counts nothing, passes, and exits with 0. */
  lemma ScenarioEmptyPasses(policy: Policy)
    ensures var report := Report(None, Some([]));
            && (forall l :: CountByRisk(ExtractAlerts(report))[Name(l)] == 0)
            && Evaluate(report, policy).decision == Pass
            && GateExitCode(report, policy) == 0
  {
    assert ExtractAlerts(Report(None, Some([]))) == [];
  }
}
