# DAST policy gate — Dafny model

This project models `scripts/evaluate_dast_policy.py`, the gate that turns an
OWASP ZAP scan report into a PASS, WARN or FAIL decision for a pipeline. The
gate runs four pure stages:

1. **Risk normalisation** (`Risk.NormalizeRisk`). A raw risk indicator may be
   absent, a word, a word with a code such as `"High (3)"`, or a bare code
   `"0"`–`"3"`. It maps onto one of the four levels Informational, Low, Medium
   and High, using the alias table `Risk.RiskNormalization`.
2. **Alert extraction** (`ZapReport.ExtractAlerts`). Shape A is the
   concatenation of every `site[*].alerts` list. Shape B is the top-level
   `alerts` list, used only when Shape A yields nothing. Any other shape gives
   an empty list.
3. **Counting** (`Counting.CountByRisk`). It builds a table with exactly the
   keys High, Medium, Low and Informational. Each alert is counted under the
   level of its `riskdesc`, or of its `riskcode` when `riskdesc` is missing or
   empty.
4. **Decision** (`PolicyGate.Decide`, `PolicyGate.ExitCode`). It builds the
   reasons list `"<Level>: <count>"`, most severe first. The verdict is FAIL
   when a `fail_on` name has a non-zero count, otherwise WARN when a `warn_on`
   name has one, otherwise PASS. FAIL exits with 1; PASS and WARN exit with 0.

`Pipeline.Evaluate` composes the stages. Its contract states the whole gate in
terms of the report: FAIL exactly when some extracted alert normalises to a
`fail_on` level.

Modules, one per file:

- `wrappers.dfy`: `Option`.
- `text.dfy`: the Python string built-ins the normaliser uses (`strip`,
  `split`, `lower`), and decimal rendering and parsing.
- `risk.dfy`: levels, the alias table and normalisation.
- `report.dfy`: the parsed report and extraction.
- `counting.dfy`: the count table.
- `decide.dfy`: the policy, reasons, verdict and exit code.
- `pipeline.dfy`: the composed evaluation and the end-to-end scenarios.

Modelling choices:

- **Parsed documents.** Report and policy arrive already parsed. A report is a
  record with an optional `site` list and an optional `alerts` list. A value
  that is present but is not a list is represented as missing, because the
  source's `isinstance(..., list)` checks treat both alike. A policy is two
  sets of names. Names that are not levels, such as `"Critical"`, are allowed
  and never match.
- **Risk fields.** An alert's `riskdesc` and `riskcode` are optional strings.
  A non-string value stands as its `str()` form, which is what line 29
  produces.
- **Whitespace.** Whitespace is exactly the set of characters Python's
  `str.isspace` accepts, because `strip()` and `split()` use that set.
- **Lower-casing.** `lower()` is modelled as ASCII lower-casing; see "Left
  out".
- **The count table** is a `map<string, nat>`, like the source's dict. This
  lets the model include the fallback at lines 72–73, which sends an unknown
  level to Informational. `Counting.GuardNeverTaken` shows that fallback is
  never used.
- **The whole-string lookup** at lines 39–40 is modelled as written.
  `Risk.WholeStringCheckNeverMatches` shows it never matches when the
  first-token lookup has failed, because every alias is a single lower-case
  word. In the code, then, the result depends only on the first token
  (`Risk.NormalizeRiskFirstToken`). The comment at line 38 says the branch
  is for numeric risk codes `0`–`3`, but those are single tokens that the
  first-token lookup at line 35 already matches.

## Model

| member | source | states |
|---|---|---|
| Text.Strip | scripts/evaluate_dast_policy.py:29 | `strip()` gives the empty string exactly when the input is all whitespace; otherwise the result starts and ends with a non-whitespace character |
| Text.StripPadded | scripts/evaluate_dast_policy.py:29 | `strip()` removes exactly the leading and trailing whitespace around a core that does not start or end with whitespace |
| Text.Split | scripts/evaluate_dast_policy.py:34 | `split()` yields only non-empty tokens with no whitespace, and yields none exactly when the input is all whitespace |
| Text.SplitFirstToken | scripts/evaluate_dast_policy.py:34 | the first token of `split()` is the first run of non-whitespace characters, whatever whitespace precedes it and whatever follows it |
| Text.Lower | scripts/evaluate_dast_policy.py:34 | `lower()` maps each ASCII capital to the small letter at the same place in the alphabet and keeps every other character, so the length and whitespace positions are kept and no ASCII capital is left |
| Text.NatToString | scripts/evaluate_dast_policy.py:86 | the count in a reason line is written in decimal: at least one digit, all digits, and a leading `0` only for the count 0 |
| Text.ParseNatOfNatToString | scripts/evaluate_dast_policy.py:86 | the decimal rendering of a count reads back to that count |
| Risk.AliasKeysAreLowerWords | scripts/evaluate_dast_policy.py:12-23 | every key of the alias table is a non-empty single word with no whitespace and is already lower case |
| Risk.NameIsAlias | scripts/evaluate_dast_policy.py:12-23 | each canonical level name, lower-cased, is a key of the alias table that maps to that level |
| Risk.NormalizeRisk | scripts/evaluate_dast_policy.py:26-31 | an absent indicator, or one that is empty or all whitespace, normalises to Informational |
| Risk.LookupTrimmed | scripts/evaluate_dast_policy.py:33-42 | the two lookups on a trimmed indicator (first token lower-cased, then the whole indicator, then Informational) give the level the lower-cased first token names, or Informational |
| Risk.WholeStringCheckNeverMatches | scripts/evaluate_dast_policy.py:33-40 | when the lower-cased first token is not an alias, the whole trimmed indicator is not an alias either, so the second lookup never matches |
| Risk.NormalizeRiskFirstToken | scripts/evaluate_dast_policy.py:26-42 | for any indicator of the form whitespace, token, then nothing or whitespace and anything: the level is the one the lower-cased token names in the alias table, or Informational when it names none |
| Risk.NormalizeRiskByFirstToken | scripts/evaluate_dast_policy.py:26-42 | for every present value: Informational when it is blank, otherwise the level its lower-cased first `split()` token names in the alias table, or Informational when it names none |
| Risk.AliasWithSuffix | scripts/evaluate_dast_policy.py:33-36 | any alias, in any ASCII case and followed by nothing or by whitespace and anything (such as `" (3)"`), normalises to its level |
| Risk.NormalizeRiskIgnoresCase | scripts/evaluate_dast_policy.py:34 | normalising the lower-cased indicator gives the same level as normalising the indicator |
| Risk.LevelDescNormalizes | scripts/evaluate_dast_policy.py:12-36 | a description made of a canonical level name, followed by nothing or by whitespace and anything (ZAP's `"High (Medium)"`), normalises to that level |
| Risk.CanonicalNameNormalizes | scripts/evaluate_dast_policy.py:12-36 | each canonical level name normalises to that level, so normalisation is idempotent on its own output |
| ZapReport.ConcatSitesEmpty | scripts/evaluate_dast_policy.py:52-57 | Shape A yields nothing exactly when no site has a non-empty alerts list |
| ZapReport.ConcatSitesAppend | scripts/evaluate_dast_policy.py:52-57 | Shape A is a concatenation: the alerts of two site lists joined are the two results joined, so site order and per-site order are kept |
| ZapReport.ConcatSitesMember | scripts/evaluate_dast_policy.py:52-57 | an alert is in the Shape A list exactly when some site's alerts list holds it |
| ZapReport.ConcatSitesLength | scripts/evaluate_dast_policy.py:52-57 | Shape A drops and adds no alert: its length is the total length of the sites' alerts lists |
| ZapReport.ExtractAlerts | scripts/evaluate_dast_policy.py:45-63 | extraction returns the empty list, never an error, exactly when no site holds an alert and the top-level list is missing or empty |
| ZapReport.ShapeAPreferred | scripts/evaluate_dast_policy.py:59-61 | when any site holds an alert, the result is the Shape A concatenation and the top-level list is ignored |
| ZapReport.ShapeBFallback | scripts/evaluate_dast_policy.py:59-61 | when no site holds an alert and a top-level list exists, that list is the result |
| ZapReport.ExtractedAlertMember | scripts/evaluate_dast_policy.py:45-63 | an alert is extracted exactly when some site holds it, or when no site holds any alert and the top-level list holds it |
| Counting.RiskIndicator | scripts/evaluate_dast_policy.py:71 | `riskdesc or riskcode`: the description when it is present and non-empty, the code otherwise |
| Counting.EmptyRiskdescFallsBack | scripts/evaluate_dast_policy.py:71 | an alert whose `riskdesc` is missing or empty is counted by its `riskcode` |
| Counting.BlankRiskdescDoesNotFallBack | scripts/evaluate_dast_policy.py:71 | a whitespace-only `riskdesc` is still used, so the alert counts as Informational whatever its `riskcode` says |
| Counting.Classify | scripts/evaluate_dast_policy.py:69-71 | an alert is counted under the normalised level of its `riskdesc` when that is present and non-empty, and of its `riskcode` otherwise |
| Counting.Tally | scripts/evaluate_dast_policy.py:72-74 | one loop step keeps the table's keys; on a table that has the level as a key, it adds one to that bucket and changes no other |
| Counting.Histogram | scripts/evaluate_dast_policy.py:67-76 | the counting loop gives a table with exactly the four level keys; its buckets sum to the number of levels counted, and each bucket is that level's multiplicity |
| Counting.CountByRisk | scripts/evaluate_dast_policy.py:66-76 | the table always has exactly the keys High, Medium, Low and Informational; the counts sum to the number of alerts; and each count is the number of alerts that normalise to that level |
| Counting.GuardNeverTaken | scripts/evaluate_dast_policy.py:72-73 | every alert's level is already a key of the running table, so the fallback to Informational is never taken |
| Counting.CountByRiskAppend | scripts/evaluate_dast_policy.py:66-76 | counting two alert lists joined adds their buckets |
| Counting.CountPositive | scripts/evaluate_dast_policy.py:66-76 | a level's count is non-zero exactly when some alert normalises to that level |
| PolicyGate.AnyPositiveIsOverlap | scripts/evaluate_dast_policy.py:88-91 | `any(counts.get(r, 0) > 0 for r in names)` holds exactly when `names` meets the set of names with a non-zero count |
| PolicyGate.Verdict | scripts/evaluate_dast_policy.py:88-92 | FAIL exactly when `fail_on` meets the non-zero names; WARN exactly when it does not but `warn_on` does; PASS exactly when neither does |
| PolicyGate.VerdictMonotone | scripts/evaluate_dast_policy.py:88-92 | a table with at least the same non-zero names never gets a less strict verdict |
| PolicyGate.FailTakesPrecedence | scripts/evaluate_dast_policy.py:88-91 | a name in both `fail_on` and `warn_on` with a non-zero count forces FAIL |
| PolicyGate.UnknownNamesNeverTrigger | scripts/evaluate_dast_policy.py:80-91 | adding names that are not keys of the table, such as `"Critical"`, to either rule set never changes the verdict |
| PolicyGate.ReasonText | scripts/evaluate_dast_policy.py:86 | a reason line's first letter tells the level it was made for |
| PolicyGate.ParseReasonText | scripts/evaluate_dast_policy.py:86 | a reason line `"<Level>: <count>"` reads back to its level and count |
| PolicyGate.ReasonsFrom | scripts/evaluate_dast_policy.py:83-86 | each reason is the line of a listed level with a non-zero count, and every listed level with a non-zero count has its line |
| PolicyGate.ReasonsFromOrdered | scripts/evaluate_dast_policy.py:83-86 | when the levels are listed from most to least severe, the reason lines follow the same order |
| PolicyGate.ReasonsProperties | scripts/evaluate_dast_policy.py:83-86 | the loop over High, Medium, Low, Informational gives a level a line exactly when its count is non-zero, and the lines run from most to least severe |
| PolicyGate.Reasons | scripts/evaluate_dast_policy.py:83-86 | the reasons list: a level has its line exactly when its count is non-zero, every line is the line of such a level, and the lines run High, Medium, Low, Informational with no repeat |
| PolicyGate.ReasonsReadBack | scripts/evaluate_dast_policy.py:86 | every reason line reads back to a level and that level's non-zero count |
| PolicyGate.Decide | scripts/evaluate_dast_policy.py:79-92 | the verdict as in `Verdict`, and reasons that hold the line of every non-zero level and no other line, most severe first |
| PolicyGate.ExitCode | scripts/evaluate_dast_policy.py:148-151 | the exit status is 1 exactly for FAIL, and 0 for PASS and WARN |
| Pipeline.FlaggedLevels | scripts/evaluate_dast_policy.py:66-76 | a name has a non-zero count exactly when it is the level of some alert |
| Pipeline.Evaluate | scripts/evaluate_dast_policy.py:130-132 | FAIL exactly when some extracted alert normalises to a `fail_on` level; WARN exactly when none does but one normalises to a `warn_on` level |
| Pipeline.GateExitCode | scripts/evaluate_dast_policy.py:130-151 | `main` returns 1 after an evaluation exactly when some extracted alert is at a `fail_on` level, and 0 otherwise |
| Pipeline.MoreAlertsNeverRelax | scripts/evaluate_dast_policy.py:66-92 | adding alerts to a list never makes the decision less strict |
| Pipeline.DescribedAs | scripts/evaluate_dast_policy.py:69-71 | an alert whose `riskdesc` is a level name followed by a whitespace-led suffix is counted at that level, whatever its `riskcode` |
| Pipeline.EvaluateSingle | scripts/evaluate_dast_policy.py:79-92 | with one extracted alert, that alert's level alone decides: FAIL if `fail_on` names it, else WARN if `warn_on` does, else PASS; the exit status is 1 exactly in the FAIL case |
| Pipeline.TopLevelAlertsCountWithoutSites | scripts/evaluate_dast_policy.py:59-61 | a report with no sites and one top-level alert described `"High (3)"` fails under `fail_on: [High]` |
| Pipeline.TopLevelAlertsIgnoredWithSites | scripts/evaluate_dast_policy.py:52-63 | add one site holding an Informational alert to that report, and the top-level High alert is no longer counted, so the report passes |
| Pipeline.ScenarioHighCounts | scripts/evaluate_dast_policy.py:66-76 | a report whose only alert is described `"High (3)"` counts High 1, Medium 0, Low 0 and Informational 0 |
| Pipeline.ScenarioHighFails | scripts/evaluate_dast_policy.py:130-151 | that report under `fail_on: [High]` fails and exits with 1 |
| Pipeline.ScenarioMediumWarns | scripts/evaluate_dast_policy.py:130-151 | one Medium alert under `fail_on: [High]` and `warn_on: [Medium]` warns and exits with 0 |
| Pipeline.ScenarioEmptyPasses | scripts/evaluate_dast_policy.py:130-151 | an empty top-level alerts list counts zero at every level, passes under any policy, and exits with 0 |

## Left out

- Loading the policy and the report (lines 95–106 and 123–128) is left out. This covers the file existence checks, PyYAML and `json` parsing, and the `or {}` default. They are file I/O and foreign libraries, so the model takes both documents already parsed. A malformed document makes the source raise an uncaught exception; that is not modelled.
- The PyYAML import fallback (lines 6–9 and 99–102) is environment plumbing and is left out.
- Argument handling in `main` (lines 109–121) is left out. This covers `sys.argv`, the `inputs.zap_json` fallback path and the default output path. It is command-line plumbing. Informally, `main` returns 2 when no policy path or no report path is given, or when the report file does not exist. The model starts after those checks.
- Building and writing the result document (lines 134–146) is I/O and JSON serialisation and is left out. This covers the echoed `policy` metadata, `os.makedirs`, the file write and the print.
- Python's dynamic-typing failures are left out: a site, alert or report that is not a dict, or unhashable rule entries. The model's types rule them out.
- Text.Lower: lower-cases ASCII letters only, whereas Python's `str.lower()` follows Unicode. The only non-ASCII characters whose lower-case form contains ASCII letters are the Kelvin sign (to `k`) and capital I with dot above (to `i` plus a combining dot). Neither can produce an alias key, so no lookup result changes. This argument is not itself proved.
- Counting.EmptyRiskdescFallsBack: the fallback is modelled only for a `riskdesc` that is missing or the empty string. Python's `or` also falls back for other falsy values, such as the number 0 or `false`. The model types the field as a string, so these are not modelled.
- The policy's `rules.fail_on` and `rules.warn_on` are modelled as sets of strings; a missing key is the empty set. Lines 80–81 call `set(...)` on whatever the YAML holds there, and the model assumes a list of strings. Other shapes are not modelled. A scalar such as `fail_on: High` becomes the set of its one-character names `{"H", "i", "g", "h"}`, none of which is a level, so it silently never triggers. A mapping contributes its keys. A `null` `rules` or rule list raises an exception. Non-string list entries are not modelled either.
