/** The parsed ZAP report and `extract_alerts`, which finds the list of
    alerts in either of the two report shapes zap-baseline produces. */
module ZapReport {

  import opened Wrappers

  /** One finding. Only the two risk fields matter to the gate; a field
      value that is not a string stands here as its `str()` form. */
  datatype Alert = Alert(riskdesc: Option<string>, riskcode: Option<string>)

  /** One element of the report's `site` list. `alerts` is None when the
      key is missing or holds something other than a list. */
  datatype Site = Site(alerts: Option<seq<Alert>>)

  /** The parsed report document: `site` (Shape A) and top-level `alerts`
      (Shape B), each None when missing or not a list. */
  datatype Report = Report(site: Option<seq<Site>>, alerts: Option<seq<Alert>>)

  /** The alerts one site contributes: its list, or nothing. */
  function SiteAlerts(s: Site): seq<Alert>
  {
    match s.alerts
    case Some(a) => a
    case None => []
  }

  /** The number of alerts the sites' lists hold together. */
  function AlertCount(sites: seq<Site>): nat
  {
    if sites == [] then 0 else |SiteAlerts(sites[0])| + AlertCount(sites[1..])
  }

  /** Shape A: every site's alerts appended in site order, as the loop
      over `site` extends its accumulator. */
  function ConcatSites(sites: seq<Site>): seq<Alert>
  {
    if sites == [] then []
    else ConcatSites(sites[..|sites| - 1]) + SiteAlerts(sites[|sites| - 1])
  }

  /** Counting the sites from the back gives the same total. */
  lemma {:induction false} AlertCountLast(sites: seq<Site>)
    ensures sites != [] ==>
      AlertCount(sites) == AlertCount(sites[..|sites| - 1]) + |SiteAlerts(sites[|sites| - 1])|
  {
    if |sites| > 1 {
      var tail := sites[1..];
      AlertCountLast(tail);
      assert tail[..|tail| - 1] == sites[..|sites| - 1][1..];
      assert tail[|tail| - 1] == sites[|sites| - 1];
      assert sites[..|sites| - 1][0] == sites[0];
    } else if |sites| == 1 {
      assert sites[..0] == [];
      assert sites[1..] == [];
    }
  }

  /** No alert is dropped or added: Shape A is as long as the sites' lists
      together. */
  lemma {:induction false} ConcatSitesLength(sites: seq<Site>)
    ensures |ConcatSites(sites)| == AlertCount(sites)
  {
    if sites != [] {
      ConcatSitesLength(sites[..|sites| - 1]);
      AlertCountLast(sites);
    }
  }

  /** Shape A yields nothing exactly when no site contributes an alert. */
  lemma {:induction false} ConcatSitesEmpty(sites: seq<Site>)
    ensures ConcatSites(sites) == [] <==> forall i :: 0 <= i < |sites| ==> SiteAlerts(sites[i]) == []
  {
    if sites != [] {
      var init := sites[..|sites| - 1];
      ConcatSitesEmpty(init);
      assert forall i :: 0 <= i < |init| ==> init[i] == sites[i];
    }
  }

  /** Concatenating the sites of two reports' lists concatenates their
      alerts: site order and per-site order are both preserved. */
  lemma {:induction false} ConcatSitesAppend(a: seq<Site>, b: seq<Site>)
    ensures ConcatSites(a + b) == ConcatSites(a) + ConcatSites(b)
    decreases |b|
  {
    if b == [] {
      assert a + b == a;
    } else {
      var b', last := b[..|b| - 1], b[|b| - 1];
      ConcatSitesAppend(a, b');
      assert (a + b)[..|a + b| - 1] == a + b';
      assert (a + b)[|a + b| - 1] == last;
      assert ConcatSites(a + b) == ConcatSites(a + b') + SiteAlerts(last);
      assert ConcatSites(b) == ConcatSites(b') + SiteAlerts(last);
      AppendAssoc(ConcatSites(a), ConcatSites(b'), SiteAlerts(last));
    }
  }

  lemma AppendAssoc(x: seq<Alert>, y: seq<Alert>, z: seq<Alert>)
    ensures x + y + z == x + (y + z)
  {
  }

  /** An alert is in the Shape A list exactly when some site holds it. */
  lemma {:induction false} ConcatSitesMember(sites: seq<Site>, x: Alert)
    ensures x in ConcatSites(sites) <==> exists i :: 0 <= i < |sites| && x in SiteAlerts(sites[i])
  {
    if sites != [] {
      var init, last := sites[..|sites| - 1], sites[|sites| - 1];
      ConcatSitesMember(init, x);
      assert ConcatSites(sites) == ConcatSites(init) + SiteAlerts(last);
      if x in ConcatSites(sites) {
        if x in ConcatSites(init) {
          var i :| 0 <= i < |init| && x in SiteAlerts(init[i]);
          assert init[i] == sites[i];
        } else {
          assert x in SiteAlerts(sites[|init|]);
        }
      } else {
        forall i | 0 <= i < |sites| ensures x !in SiteAlerts(sites[i]) {
          if i < |init| {
            assert init[i] == sites[i];
          }
        }
      }
    }
  }

  /** Shape A's alerts: empty when `site` is missing or not a list. */
  function ShapeA(report: Report): seq<Alert>
  {
    match report.site
    case Some(sites) => ConcatSites(sites)
    case None => []
  }

  /** Some site of the report holds at least one alert. */
  predicate HasSiteAlerts(report: Report)
  {
    report.site.Some? && exists i :: 0 <= i < |report.site.value| && SiteAlerts(report.site.value[i]) != []
  }

  lemma ShapeAEmpty(report: Report)
    ensures ShapeA(report) == [] <==> !HasSiteAlerts(report)
  {
    if report.site.Some? {
      ConcatSitesEmpty(report.site.value);
    }
  }

  /** Some site of the report holds the alert `x`. */
  predicate InSomeSite(report: Report, x: Alert)
  {
    report.site.Some? && exists i :: 0 <= i < |report.site.value| && x in SiteAlerts(report.site.value[i])
  }

  /** `extract_alerts`: the Shape A alerts, or the top-level list when
      Shape A yields none. The result is empty, never an error, exactly
      when no site holds an alert and the top-level list is missing or
      empty. */
  function ExtractAlerts(report: Report): (r: seq<Alert>)
    ensures r == [] <==> !HasSiteAlerts(report) && (report.alerts.None? || report.alerts.value == [])
  {
    ShapeAEmpty(report);
    var alerts := ShapeA(report);
    if alerts == [] && report.alerts.Some? then report.alerts.value
    else alerts
  }

  /** When any site holds an alert, the top-level list is ignored. */
  lemma ShapeAPreferred(report: Report)
    requires HasSiteAlerts(report)
    ensures ExtractAlerts(report) == ConcatSites(report.site.value)
  {
    ConcatSitesEmpty(report.site.value);
  }

  /** When no site holds an alert, the top-level list is the result. */
  lemma ShapeBFallback(report: Report)
    requires !HasSiteAlerts(report) && report.alerts.Some?
    ensures ExtractAlerts(report) == report.alerts.value
  {
    if report.site.Some? {
      ConcatSitesEmpty(report.site.value);
    }
  }

  /** An extracted alert is one some site holds, or, when no site holds
      any, one of the top-level list; and every such alert is extracted. */
  lemma ExtractedAlertMember(report: Report, x: Alert)
    ensures x in ExtractAlerts(report) <==>
      InSomeSite(report, x) || (!HasSiteAlerts(report) && report.alerts.Some? && x in report.alerts.value)
  {
    if report.site.Some? {
      ConcatSitesMember(report.site.value, x);
      ConcatSitesEmpty(report.site.value);
    }
  }
}
