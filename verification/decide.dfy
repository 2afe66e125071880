/** `decide` and the exit-code tail of `main`: applying the policy's
    `fail_on` and `warn_on` rule sets to the count table. */
module PolicyGate {

  import opened Wrappers
  import opened Text
  import opened Risk

  /** The policy's `rules.fail_on` and `rules.warn_on` lists as sets of
      level names (empty when missing). Names that are not level names,
      such as "Critical", are allowed. */
  datatype Policy = Policy(failOn: set<string>, warnOn: set<string>)

  datatype Decision = Pass | Warn | Fail

  /** The verdict together with its ordered reasons list. */
  datatype Evaluation = Evaluation(decision: Decision, reasons: seq<string>)

  /** How strongly a decision blocks the pipeline. */
  function Strictness(d: Decision): nat
  {
    match d
    case Pass => 0
    case Warn => 1
    case Fail => 2
  }

  /** `counts.get(name, 0)`. */
  function Get(counts: map<string, nat>, name: string): nat
  {
    if name in counts then counts[name] else 0
  }

  /** The names with a non-zero count. */
  function Flagged(counts: map<string, nat>): set<string>
  {
    set k | k in counts && counts[k] > 0
  }

  /** `any(counts.get(r, 0) > 0 for r in names)`. */
  predicate AnyPositive(counts: map<string, nat>, names: set<string>)
  {
    exists r :: r in names && Get(counts, r) > 0
  }

  lemma AnyPositiveIsOverlap(counts: map<string, nat>, names: set<string>)
    ensures AnyPositive(counts, names) <==> Flagged(counts) * names != {}
  {
    if AnyPositive(counts, names) {
      var r :| r in names && Get(counts, r) > 0;
      assert r in Flagged(counts) * names;
    }
    if Flagged(counts) * names != {} {
      var r :| r in Flagged(counts) * names;
      assert Get(counts, r) > 0;
    }
  }

  /** The verdict: FAIL when a `fail_on` name has a non-zero count, else
      WARN when a `warn_on` name has one, else PASS. */
  function Verdict(counts: map<string, nat>, policy: Policy): (d: Decision)
    ensures d == Fail <==> Flagged(counts) * policy.failOn != {}
    ensures d == Warn <==> Flagged(counts) * policy.failOn == {} && Flagged(counts) * policy.warnOn != {}
    ensures d == Pass <==> Flagged(counts) * (policy.failOn + policy.warnOn) == {}
  {
    AnyPositiveIsOverlap(counts, policy.failOn);
    AnyPositiveIsOverlap(counts, policy.warnOn);
    assert Flagged(counts) * (policy.failOn + policy.warnOn)
      == Flagged(counts) * policy.failOn + Flagged(counts) * policy.warnOn;
    if AnyPositive(counts, policy.failOn) then Fail
    else if AnyPositive(counts, policy.warnOn) then Warn
    else Pass
  }

  /** A policy decides at least as strictly on a table that flags at least
      the same names. */
  lemma VerdictMonotone(c1: map<string, nat>, c2: map<string, nat>, policy: Policy)
    requires Flagged(c1) <= Flagged(c2)
    ensures Strictness(Verdict(c1, policy)) <= Strictness(Verdict(c2, policy))
  {
    assert Flagged(c1) * policy.failOn <= Flagged(c2) * policy.failOn;
    assert Flagged(c1) * policy.warnOn <= Flagged(c2) * policy.warnOn;
  }

  /** A level listed in both rule sets forces FAIL once it is counted. */
  lemma FailTakesPrecedence(counts: map<string, nat>, policy: Policy, name: string)
    requires name in policy.failOn && name in policy.warnOn
    requires Get(counts, name) > 0
    ensures Verdict(counts, policy) == Fail
  {
    assert name in Flagged(counts) * policy.failOn;
  }

  /** Names that are not keys of the table, such as "Critical", never
      change the verdict in either rule set. */
  lemma UnknownNamesNeverTrigger(counts: map<string, nat>, policy: Policy, extra: set<string>)
    requires extra * counts.Keys == {}
    ensures Verdict(counts, Policy(policy.failOn + extra, policy.warnOn + extra)) == Verdict(counts, policy)
  {
    var f := Flagged(counts);
    forall k | k in f
      ensures k !in extra
    {
      assert k in counts.Keys;
      assert k !in extra * counts.Keys;
    }
    assert f * (policy.failOn + extra) == f * policy.failOn;
    assert f * (policy.warnOn + extra) == f * policy.warnOn;
  }

  /** The reason line `"<Level>: <count>"`: it opens with the level's name
      and a colon and space, so its first letter tells the level, and the
      count follows in decimal (`ParseReasonText` reads both back). */
  function ReasonText(l: Severity, n: nat): (s: string)
    ensures ReasonLevel(s) == l
  {
    var s := Name(l) + ": " + NatToString(n);
    assert s[0] == Name(l)[0];
    s
  }

  /** Reads a reason line back: the first level (in the given order) whose
      `"<Level>: "` prefix the line has, and the count after it. */
  function ParseReasonFrom(s: string, candidates: seq<Severity>): Option<(Severity, nat)>
  {
    if candidates == [] then None
    else
      var p := Name(candidates[0]) + ": ";
      if |p| <= |s| && s[..|p|] == p then
        match ParseNat(s[|p|..])
        case Some(n) => Some((candidates[0], n))
        case None => None
      else ParseReasonFrom(s, candidates[1..])
  }

  /** The order `decide` lists levels in: most severe first. */
  const ReasonOrder: seq<Severity> := [High, Medium, Low, Informational]

  function ParseReason(s: string): Option<(Severity, nat)>
  {
    ParseReasonFrom(s, ReasonOrder)
  }

  /** The level a reason line is about, told by its first letter (the four
      names differ there). */
  function ReasonLevel(s: string): Severity
  {
    if |s| > 0 && s[0] == 'H' then High
    else if |s| > 0 && s[0] == 'M' then Medium
    else if |s| > 0 && s[0] == 'L' then Low
    else Informational
  }

  /** A reason line for another level does not carry this level's prefix:
      the four names differ in their first letter. */
  lemma ReasonPrefixDiffers(l: Severity, m: Severity, n: nat)
    requires l != m
    ensures !(|Name(m) + ": "| <= |ReasonText(l, n)| && ReasonText(l, n)[..|Name(m) + ": "|] == Name(m) + ": ")
  {
    var s, p := ReasonText(l, n), Name(m) + ": ";
    assert s[0] == Name(l)[0];
    assert p[0] == Name(m)[0];
    assert |p| <= |s| ==> s[..|p|][0] == s[0];
  }

  lemma {:induction false} ParseReasonFromText(l: Severity, n: nat, candidates: seq<Severity>)
    requires l in candidates
    ensures ParseReasonFrom(ReasonText(l, n), candidates) == Some((l, n))
    decreases |candidates|
  {
    var s := ReasonText(l, n);
    if candidates[0] == l {
      var p := Name(l) + ": ";
      assert s == p + NatToString(n);
      assert s[..|p|] == p;
      assert s[|p|..] == NatToString(n);
      ParseNatOfNatToString(n);
    } else {
      ReasonPrefixDiffers(l, candidates[0], n);
      ParseReasonFromText(l, n, candidates[1..]);
    }
  }

  lemma InReasonOrder(l: Severity)
    ensures l in ReasonOrder
  {
    match l
    case High => assert ReasonOrder[0] == High;
    case Medium => assert ReasonOrder[1] == Medium;
    case Low => assert ReasonOrder[2] == Low;
    case Informational => assert ReasonOrder[3] == Informational;
  }

  /** Reason lines read back to the level and count they were made from. */
  lemma ParseReasonText(l: Severity, n: nat)
    ensures ParseReason(ReasonText(l, n)) == Some((l, n))
  {
    InReasonOrder(l);
    ParseReasonFromText(l, n, ReasonOrder);
  }

  /** The line a level contributes when its count is `Get(counts, ...)`. */
  function LineFor(counts: map<string, nat>, l: Severity): string
  {
    ReasonText(l, Get(counts, Name(l)))
  }

  /** The reasons loop over `levels`: one line per level with a non-zero
      count. Each line is the line of a listed level with a non-zero count,
      and every listed level with a non-zero count has its line. */
  function ReasonsFrom(counts: map<string, nat>, levels: seq<Severity>): (r: seq<string>)
    ensures forall i :: 0 <= i < |r| ==>
      ReasonLevel(r[i]) in levels && Get(counts, Name(ReasonLevel(r[i]))) > 0 && r[i] == LineFor(counts, ReasonLevel(r[i]))
    ensures forall l :: l in levels && Get(counts, Name(l)) > 0 ==> LineFor(counts, l) in r
  {
    if levels == [] then []
    else
      var l := levels[0];
      var rest := ReasonsFrom(counts, levels[1..]);
      if Get(counts, Name(l)) > 0 then [LineFor(counts, l)] + rest else rest
  }

  /** The levels run strictly from most to least severe. */
  predicate LevelsDescending(levels: seq<Severity>)
  {
    forall i, j :: 0 <= i < j < |levels| ==> Rank(levels[i]) > Rank(levels[j])
  }

  /** The lines' levels run strictly from most to least severe. */
  predicate LinesDescending(r: seq<string>)
  {
    forall i, j :: 0 <= i < j < |r| ==> Rank(ReasonLevel(r[i])) > Rank(ReasonLevel(r[j]))
  }

  /** When `levels` runs from most to least severe, so do the lines. */
  lemma {:induction false} ReasonsFromOrdered(counts: map<string, nat>, levels: seq<Severity>)
    requires LevelsDescending(levels)
    ensures LinesDescending(ReasonsFrom(counts, levels))
  {
    if levels != [] {
      var l, tail := levels[0], levels[1..];
      assert LevelsDescending(tail) by {
        forall i, j | 0 <= i < j < |tail| ensures Rank(tail[i]) > Rank(tail[j]) {
          assert tail[i] == levels[i + 1] && tail[j] == levels[j + 1];
        }
      }
      ReasonsFromOrdered(counts, tail);
      var rest := ReasonsFrom(counts, tail);
      if Get(counts, Name(l)) > 0 {
        var line := LineFor(counts, l);
          assert ReasonsFrom(counts, levels) == [line] + rest;
        forall i | 0 <= i < |rest| ensures Rank(ReasonLevel(rest[i])) < Rank(ReasonLevel(line)) {
          var k :| 0 <= k < |tail| && tail[k] == ReasonLevel(rest[i]);
          assert levels[k + 1] == tail[k];
        }
        ConsDescending(line, rest);
      } else {
        assert ReasonsFrom(counts, levels) == rest;
      }
    }
  }

  /** A line more severe than every line of a descending list extends it. */
  lemma ConsDescending(line: string, rest: seq<string>)
    requires LinesDescending(rest)
    requires forall i :: 0 <= i < |rest| ==> Rank(ReasonLevel(rest[i])) < Rank(ReasonLevel(line))
    ensures LinesDescending([line] + rest)
  {
    var r := [line] + rest;
    forall i, j | 0 <= i < j < |r| ensures Rank(ReasonLevel(r[i])) > Rank(ReasonLevel(r[j])) {
      assert r[j] == rest[j - 1];
      if i > 0 {
        assert r[i] == rest[i - 1];
      }
    }
  }

  /** The reasons list of `decide`: a level has its line exactly when its
      count is non-zero, there is no other line, and the lines run from
      most to least severe. */
  function Reasons(counts: map<string, nat>): (r: seq<string>)
    ensures forall l :: Get(counts, Name(l)) > 0 <==> LineFor(counts, l) in r
    ensures forall i :: 0 <= i < |r| ==>
      Get(counts, Name(ReasonLevel(r[i]))) > 0 && r[i] == LineFor(counts, ReasonLevel(r[i]))
    ensures LinesDescending(r)
  {
    ReasonsProperties(counts);
    ReasonsFrom(counts, ReasonOrder)
  }

  /** `decide`: the verdict and its reasons. FAIL exactly when a `fail_on`
      name has a non-zero count, otherwise WARN exactly when a `warn_on`
      name has one, otherwise PASS; the reasons hold the line of every level
      with a non-zero count and no other line, most severe first. */
  function Decide(counts: map<string, nat>, policy: Policy): (e: Evaluation)
    ensures e.decision == Fail <==> Flagged(counts) * policy.failOn != {}
    ensures e.decision == Warn <==> Flagged(counts) * policy.failOn == {} && Flagged(counts) * policy.warnOn != {}
    ensures forall l :: Get(counts, Name(l)) > 0 <==> LineFor(counts, l) in e.reasons
    ensures forall i :: 0 <= i < |e.reasons| ==> e.reasons[i] == LineFor(counts, ReasonLevel(e.reasons[i]))
    ensures forall i, j :: 0 <= i < j < |e.reasons| ==> Rank(ReasonLevel(e.reasons[i])) > Rank(ReasonLevel(e.reasons[j]))
  {
    Evaluation(Verdict(counts, policy), Reasons(counts))
  }

  /** The loop over High, Medium, Low, Informational gives every level with
      a non-zero count its line, most severe first. */
  lemma ReasonsProperties(counts: map<string, nat>)
    ensures forall l :: Get(counts, Name(l)) > 0 <==> LineFor(counts, l) in ReasonsFrom(counts, ReasonOrder)
    ensures LinesDescending(ReasonsFrom(counts, ReasonOrder))
  {
    var r := ReasonsFrom(counts, ReasonOrder);
    forall l
      ensures Get(counts, Name(l)) > 0 <==> LineFor(counts, l) in r
    {
      InReasonOrder(l);
      if LineFor(counts, l) in r {
        var i :| 0 <= i < |r| && r[i] == LineFor(counts, l);
        }
    }
    assert LevelsDescending(ReasonOrder);
    ReasonsFromOrdered(counts, ReasonOrder);
  }

  /** Every reason line reads back to its level and that level's count. */
  lemma ReasonsReadBack(counts: map<string, nat>, i: nat)
    requires i < |Reasons(counts)|
    ensures ParseReason(Reasons(counts)[i]) == Some((ReasonLevel(Reasons(counts)[i]), Get(counts, Name(ReasonLevel(Reasons(counts)[i])))))
    ensures Get(counts, Name(ReasonLevel(Reasons(counts)[i]))) > 0
  {
    var l := ReasonLevel(Reasons(counts)[i]);
    ParseReasonText(l, Get(counts, Name(l)));
  }

  /** The exit status of `main` after a decision: 1 for FAIL, 0 for PASS
      and WARN, which do not block the pipeline. */
  function ExitCode(d: Decision): (code: int)
    ensures code == 1 <==> d == Fail
    ensures code == 0 <==> d != Fail
  {
    if d == Fail then 1 else 0
  }
}
