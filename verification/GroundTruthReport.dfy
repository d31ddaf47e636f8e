/** What a detection report says, list by list and number by number, without the functions that compute it. */
module GroundTruthReport {
  import opened Text
  import opened GroundTruth
  import opened GroundTruthScores

  // ----- counting -----

  /** The positions of a list whose entries satisfy `p`. */
  ghost function Positions<T>(p: T -> bool, s: seq<T>): set<nat> {
    set i: nat | i < |s| && p(s[i])
  }

  function Count<T>(p: T -> bool, s: seq<T>): nat {
    if s == [] then 0 else (if p(s[0]) then 1 else 0) + Count(p, s[1..])
  }

  lemma {:induction false} CountSnoc<T>(p: T -> bool, s: seq<T>, x: T)
    ensures Count(p, s + [x]) == Count(p, s) + if p(x) then 1 else 0
  {
    if s == [] {
      assert ([x])[1..] == [] && s + [x] == [x];
    } else {
      assert (s + [x])[1..] == s[1..] + [x];
      CountSnoc(p, s[1..], x);
    }
  }

  lemma {:induction false} CountIsCardinality<T>(p: T -> bool, s: seq<T>)
    ensures Count(p, s) == |Positions(p, s)|
    decreases |s|
  {
    if s == [] {
      assert Positions(p, s) == {};
    } else {
      var n := |s| - 1;
      var front, last := s[..n], s[n];
      assert s == front + [last];
      CountIsCardinality(p, front);
      CountSnoc(p, front, last);
      assert Positions(p, s) == Positions(p, front) + if p(last) then {n} else {};
      assert n !in Positions(p, front);
    }
  }

  ghost function Scored(matches: seq<FindingMatch>, scope: Scope): set<nat> {
    Positions((m: FindingMatch) => m.finding.scope == scope, matches)
  }

  ghost function Found(matches: seq<FindingMatch>, scope: Scope): set<nat> {
    Positions((m: FindingMatch) => m.finding.scope == scope && m.matchedBy != Nothing, matches)
  }

  lemma {:induction false} ScopeCounts(matches: seq<FindingMatch>, scope: Scope)
    ensures CountScope(matches, scope) == |Scored(matches, scope)|
    ensures CountHits(matches, scope) == |Found(matches, scope)|
  {
    CountIsCardinality((m: FindingMatch) => m.finding.scope == scope, matches);
    CountIsCardinality((m: FindingMatch) => m.finding.scope == scope && m.matchedBy != Nothing, matches);
    SameCounts(matches, scope);
  }

  lemma {:induction false} SameCounts(matches: seq<FindingMatch>, scope: Scope)
    ensures CountScope(matches, scope) == Count((m: FindingMatch) => m.finding.scope == scope, matches)
    ensures CountHits(matches, scope)
         == Count((m: FindingMatch) => m.finding.scope == scope && m.matchedBy != Nothing, matches)
  {
    if matches != [] {
      SameCounts(matches[1..], scope);
    }
  }

  /** The counts of the report are numbers of its own entries. */
  lemma {:induction false} CountsExactly(
      t: TextRules, findings: seq<Finding>, exploits: seq<Exploit>, vulns: seq<Vulnerability>)
    ensures var r := ScoreScan(t, findings, exploits, vulns);
      && r.sniper.truePositive == |Found(r.findings, Sniper)|
      && r.sniper.truePositive + r.sniper.falseNegative == |Scored(r.findings, Sniper)|
      && r.sniper.falsePositive == |r.falsePositives|
      && r.static_.truePositive == |Found(r.findings, Static)|
      && r.static_.truePositive + r.static_.falseNegative == |Scored(r.findings, Static)|
      && r.static_.falsePositive == |r.unmatched|
      && r.futureCount == |Scored(r.findings, Future)|
  {
    var r := ScoreScan(t, findings, exploits, vulns);
    ScopeCounts(r.findings, Sniper);
    ScopeCounts(r.findings, Static);
    ScopeCounts(r.findings, Future);
    hide Assign, Confirmed, Unused, Undetected, UsedIds, UsedVulnerabilities, CweScores, Round, F1, Ratio, Scored, Found,
      CountScope, CountHits;
  }

  // ----- metrics -----

  /** `v` is `num / den` rounded to three digits, halves up, and 0 when there is nothing to divide by. */
  predicate Rounded(v: real, num: nat, den: nat) {
    if den == 0 then v == 0.0
    else
      && -0.0005 < v - num as real / den as real <= 0.0005
      && (v * 1000.0).Floor as real == v * 1000.0
  }

  predicate MetricsFit(s: Score) {
    && Rounded(s.recall, s.truePositive, s.truePositive + s.falseNegative)
    && Rounded(s.precision, s.truePositive, s.truePositive + s.falsePositive)
    && Rounded(s.f1, 2 * s.truePositive, 2 * s.truePositive + s.falseNegative + s.falsePositive)
  }

  lemma {:induction false} RoundsRatio(num: nat, den: nat)
    ensures Rounded(Round(Ratio(num, den)), num, den)
  {
    var v := Ratio(num, den);
    assert Round(v) * 1000.0 == (v * 1000.0 + 0.5).Floor as real;
    if den == 0 {
      assert Round(0.0) == 0.0;
    }
  }

  lemma {:induction false} ScoreFits(matches: seq<FindingMatch>, scope: Scope, falsePositives: nat)
    ensures MetricsFit(AggregateFor(matches, scope, falsePositives))
  {
    var tp := CountHits(matches, scope);
    var fn := CountScope(matches, scope) - tp;
    hide Rounded, Round, F1, Ratio, CountHits, CountScope;
    RoundsRatio(tp, tp + fn);
    RoundsRatio(tp, tp + falsePositives);
    RoundsRatio(2 * tp, 2 * tp + fn + falsePositives);
    F1Exactly(tp, fn, falsePositives);
  }

  predicate RowFits(row: CweScore) {
    Rounded(row.f1, 2 * row.truePositive, 2 * row.truePositive + row.falseNegative + row.falsePositive)
  }

  lemma {:induction false} RowsFit(t: TextRules, groups: seq<Group>, falsePositives: seq<Exploit>)
    ensures |CweScores(t, groups, falsePositives)| == |groups|
    ensures forall i :: 0 <= i < |groups| ==>
      CweScores(t, groups, falsePositives)[i] == CweScoreOf(t, groups[i], falsePositives)
      && RowFits(CweScores(t, groups, falsePositives)[i])
  {
    if groups != [] {
      RowsFit(t, groups[1..], falsePositives);
      OneRowFits(t, groups[0], falsePositives);
      hide RowFits, CweScoreOf;
    }
  }

  lemma {:induction false} OneRowFits(t: TextRules, g: Group, falsePositives: seq<Exploit>)
    ensures RowFits(CweScoreOf(t, g, falsePositives))
  {
    hide Rounded, Round, F1, Ratio, ParseKey, CountCwe;
    var fp := CweScoreOf(t, g, falsePositives).falsePositive;
    RoundsRatio(2 * g.tp, 2 * g.tp + g.fn + fp);
    F1Exactly(g.tp, g.fn, fp);
  }

  /** Every metric of the report is the rounded quotient of the counts beside it. */
  lemma {:induction false} MetricsExactly(
      t: TextRules, findings: seq<Finding>, exploits: seq<Exploit>, vulns: seq<Vulnerability>)
    ensures var r := ScoreScan(t, findings, exploits, vulns);
      MetricsFit(r.sniper) && MetricsFit(r.static_) && forall row :: row in r.perCwe ==> RowFits(row)
  {
    var r := ScoreScan(t, findings, exploits, vulns);
    ScoreFits(r.findings, Sniper, |r.falsePositives|);
    ScoreFits(r.findings, Static, |r.unmatched|);
    RowsFit(t, GroupsFrom([], r.findings), r.falsePositives);
    hide Assign, Confirmed, Unused, Undetected, UsedIds, UsedVulnerabilities, CweScores, CweScoreOf, GroupsFrom, AggregateFor,
      MetricsFit, RowFits, CountScope;
  }

  // ----- the lists -----

  lemma {:induction false} CountingCons<T>(first: T, rest: seq<T>, x: T)
    ensures multiset([first] + rest)[x] == multiset(rest)[x] + if first == x then 1 else 0
  {
    assert multiset([first] + rest) == multiset([first]) + multiset(rest);
  }

  lemma {:induction false} ConfirmedExactly(exploits: seq<Exploit>, e: Exploit)
    ensures multiset(Confirmed(exploits))[e]
         == if e.status == CONFIRMED || e.status == EXPLOITABLE then multiset(exploits)[e] else 0
  {
    if exploits != [] {
      var first, rest := exploits[0], exploits[1..];
      ConfirmedExactly(rest, e);
      assert exploits == [first] + rest;
      CountingCons(first, rest, e);
      CountingCons(first, Confirmed(rest), e);
      assert [] + Confirmed(rest) == Confirmed(rest);
    }
  }

  lemma {:induction false} UnusedExactly(confirmed: seq<Exploit>, used: set<string>, e: Exploit)
    ensures multiset(Unused(confirmed, used))[e] == if e.id in used then 0 else multiset(confirmed)[e]
  {
    if confirmed != [] {
      var first, rest := confirmed[0], confirmed[1..];
      UnusedExactly(rest, used, e);
      assert confirmed == [first] + rest;
      CountingCons(first, rest, e);
      CountingCons(first, Unused(rest, used), e);
      assert [] + Unused(rest, used) == Unused(rest, used);
    }
  }

  lemma {:induction false} UndetectedExactly(vulns: seq<Vulnerability>, used: set<string>, v: Vulnerability)
    ensures multiset(Undetected(vulns, used))[v] == if v.id in used then 0 else multiset(vulns)[v]
  {
    if vulns != [] {
      var first, rest := vulns[0], vulns[1..];
      UndetectedExactly(rest, used, v);
      assert vulns == [first] + rest;
      CountingCons(first, rest, v);
      CountingCons(first, Undetected(rest, used), v);
      assert [] + Undetected(rest, used) == Undetected(rest, used);
    }
  }

  /** Some finding was matched by an exploit, or by a vulnerability, with this id. */
  ghost predicate ExploitTaken(matches: seq<FindingMatch>, id: string) {
    exists i :: 0 <= i < |matches| && matches[i].matchedBy.ByExploit? && matches[i].matchedBy.exploit.id == id
  }

  ghost predicate VulnerabilityTaken(matches: seq<FindingMatch>, id: string) {
    exists i :: 0 <= i < |matches| && matches[i].matchedBy.ByVulnerability? && matches[i].matchedBy.vulnerability.id == id
  }

  lemma {:induction false} TakenIds(matches: seq<FindingMatch>, id: string)
    ensures id in UsedIds(matches) <==> ExploitTaken(matches, id)
    ensures id in UsedVulnerabilities(matches) <==> VulnerabilityTaken(matches, id)
  {
    if matches != [] {
      var first, rest := matches[0], matches[1..];
      TakenIds(rest, id);
      assert forall i :: 0 <= i < |rest| ==> rest[i] == matches[i + 1];
      if ExploitTaken(rest, id) {
        var i :| 0 <= i < |rest| && rest[i].matchedBy.ByExploit? && rest[i].matchedBy.exploit.id == id;
        assert matches[i + 1] == rest[i];
      }
      if VulnerabilityTaken(rest, id) {
        var i :| 0 <= i < |rest| && rest[i].matchedBy.ByVulnerability? && rest[i].matchedBy.vulnerability.id == id;
        assert matches[i + 1] == rest[i];
      }
    }
  }

  /**
   False positives are exactly the confirmed or exploitable exploits whose id no finding took, and
   unmatched detections exactly the rows whose id no finding took, each as often as it was given.
   */
  lemma {:induction false} LeftoversExactly(
      t: TextRules, findings: seq<Finding>, exploits: seq<Exploit>, vulns: seq<Vulnerability>, e: Exploit, v: Vulnerability)
    ensures var r := ScoreScan(t, findings, exploits, vulns);
      && multiset(r.falsePositives)[e]
         == (if (e.status == CONFIRMED || e.status == EXPLOITABLE) && !ExploitTaken(r.findings, e.id)
             then multiset(exploits)[e] else 0)
      && multiset(r.unmatched)[v] == if VulnerabilityTaken(r.findings, v.id) then 0 else multiset(vulns)[v]
  {
    var r := ScoreScan(t, findings, exploits, vulns);
    ConfirmedExactly(exploits, e);
    UnusedExactly(Confirmed(exploits), UsedIds(r.findings), e);
    UndetectedExactly(vulns, UsedVulnerabilities(r.findings), v);
    TakenIds(r.findings, e.id);
    TakenIds(r.findings, v.id);
    hide Assign, Confirmed, Unused, Undetected, UsedIds, UsedVulnerabilities, CweScores, GroupsFrom, AggregateFor, CountScope;
  }

  // ----- the match relations, spelled out -----

  /** Two texts given on both sides that are the same whatever their casing. */
  ghost predicate BothSame(fold: string -> string, a: Option<string>, b: Option<string>) {
    exists x, y :: a == Some(x) && b == Some(y) && fold(x) == fold(y)
  }

  /** A parameter that is absent or empty on one side is no obstacle. */
  ghost predicate ParametersAgree(t: TextRules, a: Option<string>, b: Option<string>) {
    a == None || b == None || a == Some("") || b == Some("") || BothSame(t.lower, a, b)
  }

  /**
   A finding and an exploit match if type or CWE agree and, when the finding names routes, method,
   path and parameter of one of them do.
   */
  lemma {:induction false} ExploitMatchExactly(t: TextRules, f: Finding, e: Exploit)
    ensures MatchesExploit(t, f, e) <==> (
      && (BothSame(t.upper, f.vulnerabilityType, e.vulnerabilityType) || BothSame(t.upper, Some(f.cweId), e.cweId))
      && (|f.routes| > 0 ==> exists r ::
            r in f.routes && t.upper(r.verb) == t.upper(e.verb) && t.route(r.path) == t.route(e.endpoint)
            && ParametersAgree(t, r.parameter, e.parameter)))
  {
    forall a, b ensures SameText(t, a, b) <==> BothSame(t.upper, a, b) {
      SameIsBoth(t, a, b);
    }
    forall r: Route ensures RoutesOverlap(t, r, e) <==>
      t.upper(r.verb) == t.upper(e.verb) && t.route(r.path) == t.route(e.endpoint) && ParametersAgree(t, r.parameter, e.parameter)
    {
      RouteExactly(t, r, e);
    }
    hide SameText, BothSame, ParametersAgree, RoutesOverlap;
    if f.routes != [] && (exists i :: 0 <= i < |f.routes| && RoutesOverlap(t, f.routes[i], e)) {
      var i :| 0 <= i < |f.routes| && RoutesOverlap(t, f.routes[i], e);
      assert f.routes[i] in f.routes;
    }
  }

  lemma {:induction false} SameIsBoth(t: TextRules, a: Option<string>, b: Option<string>)
    ensures SameText(t, a, b) <==> BothSame(t.upper, a, b)
  {
    if SameText(t, a, b) {
      assert a == Some(a.value) && b == Some(b.value);
    }
  }

  lemma {:induction false} RouteExactly(t: TextRules, r: Route, e: Exploit)
    ensures RoutesOverlap(t, r, e) <==> (
      && t.upper(r.verb) == t.upper(e.verb) && t.route(r.path) == t.route(e.endpoint)
      && ParametersAgree(t, r.parameter, e.parameter))
  {
    if r.parameter.Some? && e.parameter.Some? {
      assert r.parameter == Some(r.parameter.value) && e.parameter == Some(e.parameter.value);
    }
  }

  lemma {:induction false} VulnerabilityMatchExactly(t: TextRules, f: Finding, v: Vulnerability)
    ensures MatchesVulnerability(t, f, v)
       <==> BothSame(t.upper, Some(f.cweId), v.cweId) || BothSame(t.upper, f.vulnerabilityType, v.vulnType)
  {
    SameIsBoth(t, Some(f.cweId), v.cweId);
    SameIsBoth(t, f.vulnerabilityType, v.vulnType);
    hide SameText, BothSame;
  }

  // ----- the static half of the matching -----

  ghost predicate IsFirstMatch(t: TextRules, f: Finding, vulns: seq<Vulnerability>, k: nat) {
    k < |vulns| && MatchesVulnerability(t, f, vulns[k]) && forall j :: 0 <= j < k ==> !MatchesVulnerability(t, f, vulns[j])
  }

  lemma {:induction false} FirstVulnerabilityIsFirst(t: TextRules, f: Finding, vulns: seq<Vulnerability>)
    ensures match FirstVulnerability(t, f, vulns)
            case None => forall v :: v in vulns ==> !MatchesVulnerability(t, f, v)
            case Some(v) => exists k: nat :: IsFirstMatch(t, f, vulns, k) && vulns[k] == v
  {
    hide MatchesVulnerability;
    if vulns != [] {
      if MatchesVulnerability(t, f, vulns[0]) {
        assert IsFirstMatch(t, f, vulns, 0);
      } else {
        var rest := vulns[1..];
        FirstVulnerabilityIsFirst(t, f, rest);
        if FirstVulnerability(t, f, rest).Some? {
          var k: nat :| IsFirstMatch(t, f, rest, k) && rest[k] == FirstVulnerability(t, f, rest).value;
          assert forall j :: 0 < j <= k ==> vulns[j] == rest[j - 1];
          assert IsFirstMatch(t, f, vulns, k + 1) && vulns[k + 1] == rest[k];
        }
      }
    }
  }

  /**
   A static finding is matched by the first row that fits it, taken or not, and by none exactly if
   none fits; a future finding is matched by nothing.
   */
  lemma {:induction false} StaticMatchedExactly(
      t: TextRules, findings: seq<Finding>, confirmed: seq<Exploit>, vulns: seq<Vulnerability>, used: set<string>, i: nat)
    requires i < |findings|
    ensures var m := Assign(t, findings, confirmed, vulns, used)[i].matchedBy;
      && (findings[i].scope.Future? ==> m == Nothing)
      && (findings[i].scope.Static? ==>
            if m.ByVulnerability? then exists k: nat :: IsFirstMatch(t, findings[i], vulns, k) && vulns[k] == m.vulnerability
            else m == Nothing && forall v :: v in vulns ==> !MatchesVulnerability(t, findings[i], v))
    decreases |findings|
  {
    if i == 0 {
      hide MatchesVulnerability, FirstExploit, FirstVulnerability, IsFirstMatch;
      FirstVulnerabilityIsFirst(t, findings[0], vulns);
    } else {
      hide MatchOf, IsFirstMatch, MatchesVulnerability;
      StaticMatchedExactly(
        t, findings[1..], confirmed, vulns, used + UsedBy(MatchOf(t, findings[0], confirmed, vulns, used)), i - 1);
    }
  }

  // ----- the rows per CWE -----

  predicate DistinctKeys(groups: seq<Group>) {
    forall i, j :: 0 <= i < j < |groups| ==> groups[i].key != groups[j].key
  }

  ghost function Keys(groups: seq<Group>): set<string> {
    set g | g in groups :: g.key
  }

  /** What the group with this key holds, zeros if there is none. */
  function Lookup(groups: seq<Group>, key: string): (nat, nat) {
    if groups == [] then (0, 0)
    else if groups[0].key == key then (groups[0].tp, groups[0].fn)
    else Lookup(groups[1..], key)
  }

  /** How many scored matches with this key were found, or were missed. */
  function Tally(matches: seq<FindingMatch>, key: string, found: bool): nat {
    if matches == [] then 0
    else
      (if !matches[0].finding.scope.Future? && KeyOf(matches[0]) == key && (matches[0].matchedBy != Nothing) == found
         then 1 else 0)
      + Tally(matches[1..], key, found)
  }

  lemma {:induction false} KeysCons(g: Group, rest: seq<Group>)
    ensures Keys([g] + rest) == {g.key} + Keys(rest)
    ensures DistinctKeys([g] + rest) <==> g.key !in Keys(rest) && DistinctKeys(rest)
  {
    var all := [g] + rest;
    assert g in all && forall x :: x in rest ==> x in all;
    if DistinctKeys(all) {
      forall i, j | 0 <= i < j < |rest| ensures rest[i].key != rest[j].key {
        assert all[i + 1].key != all[j + 1].key;
      }
      forall x | x in rest ensures x.key != g.key {
        var j :| 0 <= j < |rest| && rest[j] == x;
        assert all[0].key != all[j + 1].key;
      }
    }
    if g.key !in Keys(rest) && DistinctKeys(rest) {
      forall i, j | 0 <= i < j < |all| ensures all[i].key != all[j].key {
        assert all[j] == rest[j - 1] && rest[j - 1] in rest;
        if i > 0 {
          assert all[i] == rest[i - 1];
        }
      }
    }
  }

  lemma {:induction false} LookupCons(g: Group, rest: seq<Group>, k: string)
    ensures Lookup([g] + rest, k) == if g.key == k then (g.tp, g.fn) else Lookup(rest, k)
  {
    assert ([g] + rest)[1..] == rest;
  }

  lemma {:induction false} BumpKeys(groups: seq<Group>, key: string, scope: Scope, hit: bool)
    requires DistinctKeys(groups)
    ensures DistinctKeys(Bump(groups, key, scope, hit)) && Keys(Bump(groups, key, scope, hit)) == Keys(groups) + {key}
    decreases |groups|
  {
    if groups == [] {
      var g := Group(key, scope, if hit then 1 else 0, if hit then 0 else 1);
      KeysCons(g, []);
      assert [g] + [] == [g] && Keys([]) == {};
    } else {
      var first, rest := groups[0], groups[1..];
      assert groups == [first] + rest;
      KeysCons(first, rest);
      hide DistinctKeys, Keys;
      if first.key == key {
        var bumped := if hit then first.(tp := first.tp + 1) else first.(fn := first.fn + 1);
        KeysCons(bumped, rest);
      } else {
        BumpKeys(rest, key, scope, hit);
        KeysCons(first, Bump(rest, key, scope, hit));
      }
    }
  }

  lemma {:induction false} BumpLooksUp(groups: seq<Group>, key: string, scope: Scope, hit: bool, k: string)
    ensures var after := Bump(groups, key, scope, hit);
      && Lookup(after, k).0 == Lookup(groups, k).0 + (if k == key && hit then 1 else 0)
      && Lookup(after, k).1 == Lookup(groups, k).1 + (if k == key && !hit then 1 else 0)
    decreases |groups|
  {
    if groups == [] {
      LookupCons(Group(key, scope, if hit then 1 else 0, if hit then 0 else 1), [], k);
      assert forall g: Group :: [g] + [] == [g];
    } else {
      var first, rest := groups[0], groups[1..];
      assert groups == [first] + rest;
      LookupCons(first, rest, k);
      if first.key == key {
        LookupCons(if hit then first.(tp := first.tp + 1) else first.(fn := first.fn + 1), rest, k);
      } else {
        BumpLooksUp(rest, key, scope, hit, k);
        LookupCons(first, Bump(rest, key, scope, hit), k);
      }
      hide Lookup;
    }
  }

  /** The keys of the scored matches. */
  ghost function MatchKeys(matches: seq<FindingMatch>): set<string> {
    set m | m in matches && !m.finding.scope.Future? :: KeyOf(m)
  }

  lemma {:induction false} GroupsLookUp(groups: seq<Group>, matches: seq<FindingMatch>, k: string)
    requires DistinctKeys(groups)
    ensures var after := GroupsFrom(groups, matches);
      && DistinctKeys(after) && Keys(after) == Keys(groups) + MatchKeys(matches)
      && Lookup(after, k).0 == Lookup(groups, k).0 + Tally(matches, k, true)
      && Lookup(after, k).1 == Lookup(groups, k).1 + Tally(matches, k, false)
    decreases |matches|
  {
    if matches != [] {
      var m, rest := matches[0], matches[1..];
      assert matches == [m] + rest;
      assert MatchKeys(matches) == (if m.finding.scope.Future? then {} else {KeyOf(m)}) + MatchKeys(rest);
      hide DistinctKeys, Keys, MatchKeys, KeyOf, Lookup, Bump;
      if m.finding.scope.Future? {
        GroupsLookUp(groups, rest, k);
      } else {
        BumpKeys(groups, KeyOf(m), m.finding.scope, !m.matchedBy.Nothing?);
        BumpLooksUp(groups, KeyOf(m), m.finding.scope, !m.matchedBy.Nothing?, k);
        GroupsLookUp(Bump(groups, KeyOf(m), m.finding.scope, !m.matchedBy.Nothing?), rest, k);
      }
    } else {
      assert MatchKeys(matches) == {};
    }
  }

  lemma {:induction false} LookupAt(groups: seq<Group>, i: nat)
    requires DistinctKeys(groups) && i < |groups|
    ensures Lookup(groups, groups[i].key) == (groups[i].tp, groups[i].fn)
    decreases |groups|
  {
    if i > 0 {
      assert groups == [groups[0]] + groups[1..];
      assert groups[0].key != groups[i].key;
      KeysCons(groups[0], groups[1..]);
      LookupAt(groups[1..], i - 1);
    }
  }

  /** The matches of one scope and one CWE that were found, or that were missed. */
  ghost function OfCwe(matches: seq<FindingMatch>, scope: Scope, cweId: string, found: bool): set<nat> {
    Positions(
      (m: FindingMatch) => m.finding.scope == scope && m.finding.cweId == cweId && (m.matchedBy != Nothing) == found, matches)
  }

  lemma {:induction false} KeyOfExactly(m: FindingMatch, scope: Scope, cweId: string)
    ensures KeyOf(m) == ScopeName(scope) + ":" + cweId <==> m.finding.scope == scope && m.finding.cweId == cweId
  {
    KeyRoundTrip(m.finding.scope, m.finding.cweId);
    KeyRoundTrip(scope, cweId);
    ScopeNamesDiffer(m.finding.scope, scope);
  }

  lemma {:induction false} TallyIsOfCwe(matches: seq<FindingMatch>, scope: Scope, cweId: string, found: bool)
    requires !scope.Future?
    ensures Tally(matches, ScopeName(scope) + ":" + cweId, found) == |OfCwe(matches, scope, cweId, found)|
  {
    var p := (m: FindingMatch) => m.finding.scope == scope && m.finding.cweId == cweId && (m.matchedBy != Nothing) == found;
    CountIsCardinality(p, matches);
    TallyIsCount(matches, scope, cweId, found, p);
  }

  lemma {:induction false} TallyIsCount(
      matches: seq<FindingMatch>, scope: Scope, cweId: string, found: bool, p: FindingMatch -> bool)
    requires !scope.Future?
    requires forall m :: p(m) <==> m.finding.scope == scope && m.finding.cweId == cweId && (m.matchedBy != Nothing) == found
    ensures Tally(matches, ScopeName(scope) + ":" + cweId, found) == Count(p, matches)
  {
    if matches != [] {
      KeyOfExactly(matches[0], scope, cweId);
      hide KeyOf, ScopeName;
      TallyIsCount(matches[1..], scope, cweId, found, p);
    }
  }

  /** The false positives that carry this CWE, whatever its casing. */
  ghost function WithCwe(t: TextRules, exploits: seq<Exploit>, cweId: string): set<nat> {
    Positions((e: Exploit) => e.cweId.Some? && t.upper(e.cweId.value) == t.upper(cweId), exploits)
  }

  lemma {:induction false} CountCweIsWithCwe(t: TextRules, exploits: seq<Exploit>, cweId: string)
    ensures CountCwe(t, exploits, cweId) == |WithCwe(t, exploits, cweId)|
  {
    var p := (e: Exploit) => e.cweId.Some? && t.upper(e.cweId.value) == t.upper(cweId);
    CountIsCardinality(p, exploits);
    CountCweIsCount(t, exploits, cweId, p);
  }

  lemma {:induction false} CountCweIsCount(t: TextRules, exploits: seq<Exploit>, cweId: string, p: Exploit -> bool)
    requires forall e :: p(e) <==> e.cweId.Some? && t.upper(e.cweId.value) == t.upper(cweId)
    ensures CountCwe(t, exploits, cweId) == Count(p, exploits)
  {
    if exploits != [] {
      CountCweIsCount(t, exploits[1..], cweId, p);
    }
  }

  /** The row is about this scope and CWE and counts exactly its matches and, for sniper, its false positives. */
  ghost predicate RowCounts(t: TextRules, r: Report, row: CweScore, scope: Scope, cweId: string) {
    && row.scope == ScopeName(scope) && row.cweId == cweId && !scope.Future?
    && row.truePositive == |OfCwe(r.findings, scope, cweId, true)|
    && row.falseNegative == |OfCwe(r.findings, scope, cweId, false)|
    && row.falsePositive == if scope.Sniper? then |WithCwe(t, r.falsePositives, cweId)| else 0
  }

  ghost predicate RowHasFinding(t: TextRules, r: Report, row: CweScore) {
    exists m :: m in r.findings && RowCounts(t, r, row, m.finding.scope, m.finding.cweId)
  }

  ghost predicate FindingHasRow(t: TextRules, r: Report, m: FindingMatch) {
    exists row :: row in r.perCwe && RowCounts(t, r, row, m.finding.scope, m.finding.cweId)
  }

  lemma {:induction false} GroupKeysAreMatchKeys(matches: seq<FindingMatch>, key: string)
    requires key in MatchKeys(matches)
    ensures exists m :: m in matches && !m.finding.scope.Future? && KeyOf(m) == key
  {}

  lemma {:induction false} RowOfGroup(t: TextRules, r: Report, groups: seq<Group>, i: nat, m: FindingMatch)
    requires DistinctKeys(groups) && i < |groups| && groups[i].key == KeyOf(m) && !m.finding.scope.Future?
    requires Lookup(groups, KeyOf(m)) == (Tally(r.findings, KeyOf(m), true), Tally(r.findings, KeyOf(m), false))
    ensures RowCounts(t, r, CweScoreOf(t, groups[i], r.falsePositives), m.finding.scope, m.finding.cweId)
  {
    LookupAt(groups, i);
    KeyRoundTrip(m.finding.scope, m.finding.cweId);
    TallyIsOfCwe(r.findings, m.finding.scope, m.finding.cweId, true);
    TallyIsOfCwe(r.findings, m.finding.scope, m.finding.cweId, false);
    CountCweIsWithCwe(t, r.falsePositives, m.finding.cweId);
    assert ScopeName(m.finding.scope) == "sniper" <==> m.finding.scope.Sniper?;
    hide Tally, Lookup, DistinctKeys, OfCwe, WithCwe, CountCwe, ParseKey, ScopeName, Round, F1, Ratio;
  }

  /**
   The rows per CWE, exactly: one row for each scope and CWE that a scored finding has, no two for
   the same, and each counts its own matches and nothing else.
   */
  lemma {:induction false} RowsExactly(
      t: TextRules, findings: seq<Finding>, exploits: seq<Exploit>, vulns: seq<Vulnerability>)
    ensures var r := ScoreScan(t, findings, exploits, vulns);
      && (forall row :: row in r.perCwe ==> RowHasFinding(t, r, row))
      && (forall m :: m in r.findings && !m.finding.scope.Future? ==> FindingHasRow(t, r, m))
      && (forall i, j :: 0 <= i < j < |r.perCwe| ==>
            r.perCwe[i].scope != r.perCwe[j].scope || r.perCwe[i].cweId != r.perCwe[j].cweId)
  {
    var r := ScoreScan(t, findings, exploits, vulns);
    var groups := GroupsFrom([], r.findings);
    assert r.perCwe == CweScores(t, groups, r.falsePositives);
    hide ScoreScan;
    RowsOfGroups(t, r, groups);
  }

  lemma {:induction false} GroupsOfMatches(matches: seq<FindingMatch>, key: string)
    ensures var groups := GroupsFrom([], matches);
      DistinctKeys(groups) && Keys(groups) == MatchKeys(matches)
      && Lookup(groups, key) == (Tally(matches, key, true), Tally(matches, key, false))
  {
    GroupsLookUp([], matches, key);
    assert Keys([]) == {};
  }

  lemma {:induction false} RowAt(t: TextRules, r: Report, groups: seq<Group>, i: nat)
    requires groups == GroupsFrom([], r.findings) && r.perCwe == CweScores(t, groups, r.falsePositives) && i < |groups|
    ensures |r.perCwe| == |groups|
    ensures exists m :: m in r.findings && !m.finding.scope.Future? && KeyOf(m) == groups[i].key
                     && RowCounts(t, r, r.perCwe[i], m.finding.scope, m.finding.cweId)
  {
    var key := groups[i].key;
    GroupsOfMatches(r.findings, key);
    RowsFit(t, groups, r.falsePositives);
    assert groups[i] in groups && key in Keys(groups);
    hide GroupsFrom, CweScores, DistinctKeys, Keys, MatchKeys, RowCounts, CweScoreOf, Lookup, Tally, RowFits, KeyOf;
    GroupKeysAreMatchKeys(r.findings, key);
    var m :| m in r.findings && !m.finding.scope.Future? && KeyOf(m) == key;
    RowOfGroup(t, r, groups, i, m);
  }

  lemma {:induction false} RowsOfGroups(t: TextRules, r: Report, groups: seq<Group>)
    requires groups == GroupsFrom([], r.findings) && r.perCwe == CweScores(t, groups, r.falsePositives)
    ensures forall row :: row in r.perCwe ==> RowHasFinding(t, r, row)
    ensures forall m :: m in r.findings && !m.finding.scope.Future? ==> FindingHasRow(t, r, m)
    ensures forall i, j :: 0 <= i < j < |r.perCwe| ==>
      r.perCwe[i].scope != r.perCwe[j].scope || r.perCwe[i].cweId != r.perCwe[j].cweId
  {
    RowsFit(t, groups, r.falsePositives);
    hide GroupsFrom, CweScores, RowCounts, CweScoreOf, RowFits, KeyOf;
    forall row | row in r.perCwe ensures RowHasFinding(t, r, row) {
      var i :| 0 <= i < |r.perCwe| && r.perCwe[i] == row;
      RowAt(t, r, groups, i);
    }
    forall m | m in r.findings && !m.finding.scope.Future? ensures FindingHasRow(t, r, m) {
      var i := GroupOfMatch(r.findings, m);
      GroupsOfMatches(r.findings, KeyOf(m));
      RowOfGroup(t, r, groups, i, m);
      assert r.perCwe[i] in r.perCwe;
    }
    hide RowHasFinding, FindingHasRow;
    forall i, j | 0 <= i < j < |r.perCwe|
      ensures r.perCwe[i].scope != r.perCwe[j].scope || r.perCwe[i].cweId != r.perCwe[j].cweId
    {
      RowAt(t, r, groups, i);
      RowAt(t, r, groups, j);
      GroupsOfMatches(r.findings, "");
      DifferentRows(t, r, groups, i, j);
    }
  }

  lemma {:induction false} GroupOfMatch(matches: seq<FindingMatch>, m: FindingMatch) returns (i: nat)
    requires m in matches && !m.finding.scope.Future?
    ensures i < |GroupsFrom([], matches)| && GroupsFrom([], matches)[i].key == KeyOf(m)
  {
    GroupsOfMatches(matches, KeyOf(m));
    var groups := GroupsFrom([], matches);
    assert KeyOf(m) in MatchKeys(matches);
    hide GroupsFrom, KeyOf;
    var g :| g in groups && g.key == KeyOf(m);
    i :| i < |groups| && groups[i] == g;
  }

  lemma {:induction false} DifferentRows(t: TextRules, r: Report, groups: seq<Group>, i: nat, j: nat)
    requires DistinctKeys(groups) && i < j < |groups| && |r.perCwe| == |groups|
    requires exists m :: m in r.findings && KeyOf(m) == groups[i].key
                      && RowCounts(t, r, r.perCwe[i], m.finding.scope, m.finding.cweId)
    requires exists m :: m in r.findings && KeyOf(m) == groups[j].key
                      && RowCounts(t, r, r.perCwe[j], m.finding.scope, m.finding.cweId)
    ensures r.perCwe[i].scope != r.perCwe[j].scope || r.perCwe[i].cweId != r.perCwe[j].cweId
  {
    var m :| m in r.findings && KeyOf(m) == groups[i].key && RowCounts(t, r, r.perCwe[i], m.finding.scope, m.finding.cweId);
    var n :| n in r.findings && KeyOf(n) == groups[j].key && RowCounts(t, r, r.perCwe[j], n.finding.scope, n.finding.cweId);
    assert KeyOf(m) != KeyOf(n);
    assert KeyOf(m) == r.perCwe[i].scope + ":" + r.perCwe[i].cweId;
    assert KeyOf(n) == r.perCwe[j].scope + ":" + r.perCwe[j].cweId;
  }
}
