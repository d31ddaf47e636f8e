/** Scoring one scan's outputs against the benchmark corpus. */
module GroundTruth {
  import opened Text

  datatype Scope = Sniper | Static | Future

  datatype Route = Route(path: string, verb: string, parameter: Option<string>)

  datatype Finding = Finding(
    id: string, cweId: string, vulnerabilityType: Option<string>, scope: Scope, routes: seq<Route>)

  datatype ExploitStatus = CONFIRMED | EXPLOITABLE | OTHER_STATUS

  datatype Exploit = Exploit(
    id: string, endpoint: string, verb: string, parameter: Option<string>,
    vulnerabilityType: Option<string>, cweId: Option<string>, status: ExploitStatus)

  datatype Vulnerability = Vulnerability(id: string, cweId: Option<string>, vulnType: Option<string>)

  /** Upper and lower casing and route normalisation, left uninterpreted. */
  datatype TextRules = TextRules(upper: string -> string, lower: string -> string, route: string -> string)

  // ----- the match relations -----

  /** A JavaScript string that is present and not empty. */
  predicate Truthy(s: Option<string>) {
    s.Some? && s.value != ""
  }

  predicate RoutesOverlap(t: TextRules, a: Route, e: Exploit) {
    && t.upper(a.verb) == t.upper(e.verb)
    && t.route(a.path) == t.route(e.endpoint)
    && (Truthy(a.parameter) && Truthy(e.parameter) ==> t.lower(a.parameter.value) == t.lower(e.parameter.value))
  }

  predicate SameText(t: TextRules, a: Option<string>, b: Option<string>) {
    a.Some? && b.Some? && t.upper(a.value) == t.upper(b.value)
  }

  predicate MatchesExploit(t: TextRules, f: Finding, e: Exploit) {
    && (SameText(t, f.vulnerabilityType, e.vulnerabilityType) || SameText(t, Some(f.cweId), e.cweId))
    && (f.routes == [] || exists i :: 0 <= i < |f.routes| && RoutesOverlap(t, f.routes[i], e))
  }

  predicate MatchesVulnerability(t: TextRules, f: Finding, v: Vulnerability) {
    SameText(t, Some(f.cweId), v.cweId) || SameText(t, f.vulnerabilityType, v.vulnType)
  }

  // ----- the greedy assignment -----

  datatype MatchedBy = Nothing | ByExploit(exploit: Exploit) | ByVulnerability(vulnerability: Vulnerability)

  datatype FindingMatch = FindingMatch(finding: Finding, matchedBy: MatchedBy)

  predicate Counts(e: Exploit) {
    e.status.CONFIRMED? || e.status.EXPLOITABLE?
  }

  function Confirmed(exploits: seq<Exploit>): seq<Exploit> {
    if exploits == [] then []
    else (if Counts(exploits[0]) then [exploits[0]] else []) + Confirmed(exploits[1..])
  }

  predicate Fits(t: TextRules, f: Finding, e: Exploit, used: set<string>) {
    e.id !in used && MatchesExploit(t, f, e)
  }

  function FirstExploit(t: TextRules, f: Finding, confirmed: seq<Exploit>, used: set<string>): (r: Option<Exploit>)
    ensures r.Some? ==> r.value in confirmed && r.value.id !in used && MatchesExploit(t, f, r.value)
    ensures r.None? ==> forall e :: e in confirmed && MatchesExploit(t, f, e) ==> e.id in used
  {
    if confirmed == [] then None
    else if Fits(t, f, confirmed[0], used) then Some(confirmed[0])
    else FirstExploit(t, f, confirmed[1..], used)
  }

  /** Exploit `i` fits, and none before it does. */
  predicate IsFirstFit(t: TextRules, f: Finding, confirmed: seq<Exploit>, used: set<string>, i: nat) {
    i < |confirmed| && Fits(t, f, confirmed[i], used) && forall j :: 0 <= j < i ==> !Fits(t, f, confirmed[j], used)
  }

  /** What is taken is the first confirmed exploit that fits; nothing is taken exactly if none does. */
  lemma {:induction false} FirstExploitIsFirst(t: TextRules, f: Finding, confirmed: seq<Exploit>, used: set<string>)
    ensures match FirstExploit(t, f, confirmed, used)
            case None => forall e :: e in confirmed ==> !Fits(t, f, e, used)
            case Some(e) => exists i: nat :: IsFirstFit(t, f, confirmed, used, i) && confirmed[i] == e
  {
    hide MatchesExploit;
    if confirmed != [] {
      if Fits(t, f, confirmed[0], used) {
        assert IsFirstFit(t, f, confirmed, used, 0);
      } else {
        var rest := confirmed[1..];
        FirstExploitIsFirst(t, f, rest, used);
        if FirstExploit(t, f, rest, used).Some? {
          var i: nat :| IsFirstFit(t, f, rest, used, i) && rest[i] == FirstExploit(t, f, rest, used).value;
          assert forall j :: 0 < j <= i ==> confirmed[j] == rest[j - 1];
          assert IsFirstFit(t, f, confirmed, used, i + 1) && confirmed[i + 1] == rest[i];
        }
      }
    }
  }

  function FirstVulnerability(t: TextRules, f: Finding, vulnerabilities: seq<Vulnerability>): Option<Vulnerability> {
    if vulnerabilities == [] then None
    else if MatchesVulnerability(t, f, vulnerabilities[0]) then Some(vulnerabilities[0])
    else FirstVulnerability(t, f, vulnerabilities[1..])
  }

  function MatchOf(t: TextRules, f: Finding, confirmed: seq<Exploit>, vulns: seq<Vulnerability>, used: set<string>): MatchedBy {
    match f.scope
    case Sniper =>
      (match FirstExploit(t, f, confirmed, used) case None => Nothing case Some(e) => ByExploit(e))
    case Static =>
      (match FirstVulnerability(t, f, vulns) case None => Nothing case Some(v) => ByVulnerability(v))
    case Future => Nothing
  }

  function UsedBy(m: MatchedBy): set<string> {
    if m.ByExploit? then {m.exploit.id} else {}
  }

  /** Findings in corpus order, each taking the first free exploit that matches it. */
  function Assign(
      t: TextRules, findings: seq<Finding>, confirmed: seq<Exploit>, vulns: seq<Vulnerability>, used: set<string>):
      (r: seq<FindingMatch>)
    ensures |r| == |findings| && forall i :: 0 <= i < |r| ==> r[i].finding == findings[i]
  {
    if findings == [] then []
    else
      var m := MatchOf(t, findings[0], confirmed, vulns, used);
      [FindingMatch(findings[0], m)] + Assign(t, findings[1..], confirmed, vulns, used + UsedBy(m))
  }

  function UsedIds(matches: seq<FindingMatch>): set<string> {
    if matches == [] then {} else UsedBy(matches[0].matchedBy) + UsedIds(matches[1..])
  }

  /** Confirmed exploits whose id no finding used. */
  function Unused(confirmed: seq<Exploit>, used: set<string>): seq<Exploit> {
    if confirmed == [] then []
    else (if confirmed[0].id in used then [] else [confirmed[0]]) + Unused(confirmed[1..], used)
  }

  // ----- counts and metrics -----

  function CountScope(matches: seq<FindingMatch>, scope: Scope): nat {
    if matches == [] then 0
    else (if matches[0].finding.scope == scope then 1 else 0) + CountScope(matches[1..], scope)
  }

  predicate Hit(m: FindingMatch, scope: Scope) {
    m.finding.scope == scope && !m.matchedBy.Nothing?
  }

  function CountHits(matches: seq<FindingMatch>, scope: Scope): (n: nat)
    ensures n <= CountScope(matches, scope)
  {
    if matches == [] then 0
    else (if Hit(matches[0], scope) then 1 else 0) + CountHits(matches[1..], scope)
  }

  function Ratio(a: nat, b: nat): real {
    if b == 0 then 0.0 else a as real / b as real
  }

  function F1(recall: real, precision: real): real {
    if recall + precision == 0.0 then 0.0 else 2.0 * recall * precision / (recall + precision)
  }

  /** `Math.round(v * 1000) / 1000`. */
  function Round(v: real): real {
    (v * 1000.0 + 0.5).Floor as real / 1000.0
  }

  datatype Score = Score(
    truePositive: nat, falseNegative: nat, falsePositive: nat, recall: real, precision: real, f1: real)

  function AggregateFor(matches: seq<FindingMatch>, scope: Scope, falsePositives: nat): Score {
    var tp := CountHits(matches, scope);
    var fn := CountScope(matches, scope) - tp;
    var recall, precision := Ratio(tp, tp + fn), Ratio(tp, tp + falsePositives);
    Score(tp, fn, falsePositives, Round(recall), Round(precision), Round(F1(recall, precision)))
  }

  // ----- per-CWE groups, in the order their keys first appear -----

  datatype Group = Group(key: string, scope: Scope, tp: nat, fn: nat)

  function ScopeName(s: Scope): string {
    match s case Sniper => "sniper" case Static => "static" case Future => "future"
  }

  function KeyOf(m: FindingMatch): string {
    ScopeName(m.finding.scope) + ":" + m.finding.cweId
  }

  function IndexOf(s: string, c: char): (n: nat)
    ensures n <= |s|
  {
    if s == "" || s[0] == c then 0 else 1 + IndexOf(s[1..], c)
  }

  /** `parseCweKey`: everything before the first colon names the scope. */
  function ParseKey(key: string): (string, string) {
    var n := IndexOf(key, ':');
    (key[..n], if n < |key| then key[n + 1..] else "")
  }

  function Bump(groups: seq<Group>, key: string, scope: Scope, hit: bool): seq<Group> {
    if groups == [] then [Group(key, scope, if hit then 1 else 0, if hit then 0 else 1)]
    else if groups[0].key == key then
      [if hit then groups[0].(tp := groups[0].tp + 1) else groups[0].(fn := groups[0].fn + 1)] + groups[1..]
    else [groups[0]] + Bump(groups[1..], key, scope, hit)
  }

  function GroupsFrom(groups: seq<Group>, matches: seq<FindingMatch>): seq<Group>
    decreases |matches|
  {
    if matches == [] then groups
    else if matches[0].finding.scope.Future? then GroupsFrom(groups, matches[1..])
    else
      GroupsFrom(Bump(groups, KeyOf(matches[0]), matches[0].finding.scope, !matches[0].matchedBy.Nothing?), matches[1..])
  }

  /** False positives that carry the group's CWE, whatever its casing. */
  function CountCwe(t: TextRules, falsePositives: seq<Exploit>, cweId: string): nat {
    if falsePositives == [] then 0
    else (if SameText(t, falsePositives[0].cweId, Some(cweId)) then 1 else 0) + CountCwe(t, falsePositives[1..], cweId)
  }

  datatype CweScore = CweScore(
    scope: string, cweId: string, truePositive: nat, falseNegative: nat, falsePositive: nat, f1: real)

  function CweScoreOf(t: TextRules, g: Group, falsePositives: seq<Exploit>): CweScore {
    var (scope, cweId) := ParseKey(g.key);
    var fp := if scope == "sniper" then CountCwe(t, falsePositives, cweId) else 0;
    CweScore(scope, cweId, g.tp, g.fn, fp, Round(F1(Ratio(g.tp, g.tp + g.fn), Ratio(g.tp, g.tp + fp))))
  }

  function CweScores(t: TextRules, groups: seq<Group>, falsePositives: seq<Exploit>): seq<CweScore> {
    if groups == [] then [] else [CweScoreOf(t, groups[0], falsePositives)] + CweScores(t, groups[1..], falsePositives)
  }

  function UsedVulnerabilities(matches: seq<FindingMatch>): set<string> {
    if matches == [] then {}
    else
      (if matches[0].matchedBy.ByVulnerability? then {matches[0].matchedBy.vulnerability.id} else {})
      + UsedVulnerabilities(matches[1..])
  }

  function Undetected(vulns: seq<Vulnerability>, used: set<string>): seq<Vulnerability> {
    if vulns == [] then []
    else (if vulns[0].id in used then [] else [vulns[0]]) + Undetected(vulns[1..], used)
  }

  datatype Report = Report(
    findings: seq<FindingMatch>, falsePositives: seq<Exploit>, unmatched: seq<Vulnerability>,
    sniper: Score, static_: Score, futureCount: nat, perCwe: seq<CweScore>)

  function ScoreScan(t: TextRules, findings: seq<Finding>, exploits: seq<Exploit>, vulns: seq<Vulnerability>): Report {
    var confirmed := Confirmed(exploits);
    var matches := Assign(t, findings, confirmed, vulns, {});
    var falsePositives := Unused(confirmed, UsedIds(matches));
    var unmatched := Undetected(vulns, UsedVulnerabilities(matches));
    Report(
      matches, falsePositives, unmatched,
      AggregateFor(matches, Sniper, |falsePositives|), AggregateFor(matches, Static, |unmatched|),
      CountScope(matches, Future), CweScores(t, GroupsFrom([], matches), falsePositives))
  }

  // ----- the scorer's loops -----

  method FindExploit(t: TextRules, f: Finding, confirmed: seq<Exploit>, used: set<string>) returns (r: Option<Exploit>)
    ensures r == FirstExploit(t, f, confirmed, used)
  {
    var i := 0;
    assert confirmed[0..] == confirmed;
    while i < |confirmed|
      invariant 0 <= i <= |confirmed|
      invariant FirstExploit(t, f, confirmed[i..], used) == FirstExploit(t, f, confirmed, used)
    {
      assert confirmed[i..][1..] == confirmed[i + 1..];
      if confirmed[i].id !in used && MatchesExploit(t, f, confirmed[i]) {
        return Some(confirmed[i]);
      }
      i := i + 1;
    }
    return None;
  }

  /** `groundTruth.map(...)` with the set of used exploit ids filled on the way. */
  method AssignFindings(t: TextRules, findings: seq<Finding>, confirmed: seq<Exploit>, vulns: seq<Vulnerability>)
      returns (matches: seq<FindingMatch>, usedExploitIds: set<string>)
    ensures matches == Assign(t, findings, confirmed, vulns, {})
    ensures usedExploitIds == UsedIds(matches)
  {
    hide FirstExploit, FirstVulnerability;
    matches, usedExploitIds := [], {};
    var i := 0;
    assert findings[0..] == findings;
    assert matches + Assign(t, findings, confirmed, vulns, {}) == Assign(t, findings, confirmed, vulns, {});
    while i < |findings|
      invariant 0 <= i <= |findings|
      invariant matches + Assign(t, findings[i..], confirmed, vulns, usedExploitIds) == Assign(t, findings, confirmed, vulns, {})
      invariant usedExploitIds == UsedIds(matches)
    {
      assert findings[i..][1..] == findings[i + 1..];
      var f := findings[i];
      var m := Nothing;
      if f.scope.Sniper? {
        var found := FindExploit(t, f, confirmed, usedExploitIds);
        m := if found.Some? then ByExploit(found.value) else Nothing;
      } else if f.scope.Static? {
        var found := FirstVulnerability(t, f, vulns);
        m := if found.Some? then ByVulnerability(found.value) else Nothing;
      }
      UsedIdsSnoc(matches, FindingMatch(f, m));
      Associate(matches, [FindingMatch(f, m)], Assign(t, findings[i + 1..], confirmed, vulns, usedExploitIds + UsedBy(m)));
      matches := matches + [FindingMatch(f, m)];
      usedExploitIds := usedExploitIds + UsedBy(m);
      i := i + 1;
    }
    assert findings[|findings|..] == [];
  }

  lemma {:induction false} UsedIdsSnoc(matches: seq<FindingMatch>, m: FindingMatch)
    ensures UsedIds(matches + [m]) == UsedIds(matches) + UsedBy(m.matchedBy)
  {
    if matches == [] {
      assert UsedIds([m][1..]) == {};
    } else {
      assert (matches + [m])[1..] == matches[1..] + [m];
      UsedIdsSnoc(matches[1..], m);
    }
  }

  method GroupByCwe(matches: seq<FindingMatch>) returns (groups: seq<Group>)
    ensures groups == GroupsFrom([], matches)
  {
    groups := [];
    var i := 0;
    assert matches[0..] == matches;
    while i < |matches|
      invariant 0 <= i <= |matches|
      invariant GroupsFrom(groups, matches[i..]) == GroupsFrom([], matches)
    {
      var m := matches[i];
      assert matches[i..][1..] == matches[i + 1..];
      i := i + 1;
      if m.finding.scope.Future? {
        continue;
      }
      groups := Bump(groups, KeyOf(m), m.finding.scope, !m.matchedBy.Nothing?);
    }
  }

  method BuildDetectionReport(t: TextRules, findings: seq<Finding>, exploits: seq<Exploit>, vulns: seq<Vulnerability>)
      returns (r: Report)
    ensures r == ScoreScan(t, findings, exploits, vulns)
  {
    var confirmed := Confirmed(exploits);
    var matches, usedExploitIds := AssignFindings(t, findings, confirmed, vulns);
    var falsePositives := Unused(confirmed, usedExploitIds);
    var unmatched := Undetected(vulns, UsedVulnerabilities(matches));
    var groups := GroupByCwe(matches);
    r := Report(
      matches, falsePositives, unmatched, AggregateFor(matches, Sniper, |falsePositives|),
      AggregateFor(matches, Static, |unmatched|), CountScope(matches, Future), CweScores(t, groups, falsePositives));
  }
}
