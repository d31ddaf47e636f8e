/** What the scores mean: how good the greedy assignment is, and what the numbers add up to. */
module GroundTruthScores {
  import opened GroundTruth

  predicate DistinctIds(exploits: seq<Exploit>) {
    forall i, j :: 0 <= i < j < |exploits| ==> exploits[i].id != exploits[j].id
  }

  function Ids(exploits: seq<Exploit>): set<string> {
    set e | e in exploits :: e.id
  }

  // ----- one-to-one and maximal -----

  /** The ids already used when finding `i` gets its turn. */
  function UsedBefore(matches: seq<FindingMatch>, i: nat): set<string>
    requires i <= |matches|
  {
    UsedIds(matches[..i])
  }

  /** Every assigned exploit is confirmed, matches its finding, and was not used before. */
  ghost predicate Sound(t: TextRules, confirmed: seq<Exploit>, matches: seq<FindingMatch>, used: set<string>) {
    forall i :: 0 <= i < |matches| && matches[i].matchedBy.ByExploit? ==>
      var e := matches[i].matchedBy.exploit;
      && matches[i].finding.scope.Sniper? && e in confirmed && MatchesExploit(t, matches[i].finding, e)
      && e.id !in used && e.id !in UsedBefore(matches, i)
  }

  /** A sniper finding is left unmatched although `e` fits it. */
  predicate Missed(t: TextRules, m: FindingMatch, e: Exploit) {
    m.finding.scope.Sniper? && m.matchedBy.Nothing? && MatchesExploit(t, m.finding, e)
  }

  /** A sniper finding is left unmatched only if every exploit that fits it was used by then. */
  ghost predicate Maximal(t: TextRules, confirmed: seq<Exploit>, matches: seq<FindingMatch>, used: set<string>) {
    forall i, e :: 0 <= i < |matches| && e in confirmed && Missed(t, matches[i], e) ==> e.id in used + UsedBefore(matches, i)
  }

  lemma {:induction false} UsedBeforeCons(m: FindingMatch, rest: seq<FindingMatch>, i: nat)
    requires i <= |rest|
    ensures UsedBefore([m] + rest, i + 1) == UsedBy(m.matchedBy) + UsedBefore(rest, i)
  {
    assert ([m] + rest)[..i + 1][1..] == rest[..i];
    assert ([m] + rest)[..i + 1][0] == m;
  }

  lemma {:induction false} AssignIsGreedy(
      t: TextRules, findings: seq<Finding>, confirmed: seq<Exploit>, vulns: seq<Vulnerability>, used: set<string>)
    ensures Sound(t, confirmed, Assign(t, findings, confirmed, vulns, used), used)
    ensures Maximal(t, confirmed, Assign(t, findings, confirmed, vulns, used), used)
    decreases |findings|
  {
    if findings != [] {
      var m := MatchOf(t, findings[0], confirmed, vulns, used);
      var first, more := FindingMatch(findings[0], m), used + UsedBy(m);
      var rest := Assign(t, findings[1..], confirmed, vulns, more);
      AssignIsGreedy(t, findings[1..], confirmed, vulns, more);
      GreedyCons(t, confirmed, first, rest, used);
    }
  }

  lemma {:induction false} GreedyCons(t: TextRules, confirmed: seq<Exploit>, first: FindingMatch, rest: seq<FindingMatch>, used: set<string>)
    requires Sound(t, confirmed, rest, used + UsedBy(first.matchedBy))
    requires Maximal(t, confirmed, rest, used + UsedBy(first.matchedBy))
    requires Sound(t, confirmed, [first], used) && Maximal(t, confirmed, [first], used)
    ensures Sound(t, confirmed, [first] + rest, used) && Maximal(t, confirmed, [first] + rest, used)
  {
    var all := [first] + rest;
    assert UsedBefore(all, 0) == {} && UsedBefore([first], 0) == {};
    assert all[0] == [first][0];
    forall i | 0 < i < |all| ensures UsedBefore(all, i) == UsedBy(first.matchedBy) + UsedBefore(rest, i - 1) {
      UsedBeforeCons(first, rest, i - 1);
    }
    hide MatchesExploit, Missed, UsedBefore, UsedBy;
  }

  lemma {:induction false} UsedIdsHas(matches: seq<FindingMatch>, i: nat)
    requires i < |matches| && matches[i].matchedBy.ByExploit?
    ensures matches[i].matchedBy.exploit.id in UsedIds(matches)
  {
    if i > 0 {
      UsedIdsHas(matches[1..], i - 1);
    }
  }

  lemma {:induction false} UsedIdsOnly(matches: seq<FindingMatch>, n: nat)
    requires n <= |matches|
    ensures UsedIds(matches[..n]) <= UsedIds(matches)
    decreases |matches|
  {
    if n > 0 {
      assert matches[..n][1..] == matches[1..][..n - 1];
      UsedIdsOnly(matches[1..], n - 1);
    }
  }

  /** No two findings share an exploit id. */
  lemma {:induction false} OneToOne(t: TextRules, confirmed: seq<Exploit>, matches: seq<FindingMatch>, used: set<string>, i: nat, j: nat)
    requires Sound(t, confirmed, matches, used) && i < j < |matches|
    requires matches[i].matchedBy.ByExploit? && matches[j].matchedBy.ByExploit?
    ensures matches[i].matchedBy.exploit.id != matches[j].matchedBy.exploit.id
  {
    UsedIdsHas(matches[..j], i);
  }

  /** There are as many used ids as true positives, and they are ids of confirmed exploits. */
  lemma {:induction false} UsedIdsCount(
      t: TextRules, findings: seq<Finding>, confirmed: seq<Exploit>, vulns: seq<Vulnerability>, used: set<string>)
    ensures var matches := Assign(t, findings, confirmed, vulns, used);
      && UsedIds(matches) !! used && UsedIds(matches) <= Ids(confirmed)
      && |UsedIds(matches)| == CountHits(matches, Sniper)
    decreases |findings|
  {
    if findings != [] {
      var m := MatchOf(t, findings[0], confirmed, vulns, used);
      var rest := Assign(t, findings[1..], confirmed, vulns, used + UsedBy(m));
      UsedIdsCount(t, findings[1..], confirmed, vulns, used + UsedBy(m));
      TakesFreeExploit(t, findings[0], confirmed, vulns, used);
      hide MatchOf;
      assert Assign(t, findings, confirmed, vulns, used) == [FindingMatch(findings[0], m)] + rest;
      hide Assign;
      UsedIdsCons(FindingMatch(findings[0], m), rest);
    }
  }

  lemma {:induction false} TakesFreeExploit(
      t: TextRules, f: Finding, confirmed: seq<Exploit>, vulns: seq<Vulnerability>, used: set<string>)
    ensures var m := MatchOf(t, f, confirmed, vulns, used);
      && UsedBy(m) !! used && UsedBy(m) <= Ids(confirmed)
      && (m.ByExploit? <==> Hit(FindingMatch(f, m), Sniper))
  {
    hide MatchesExploit, FirstVulnerability;
  }

  lemma {:induction false} UsedIdsCons(first: FindingMatch, rest: seq<FindingMatch>)
    requires UsedBy(first.matchedBy) !! UsedIds(rest)
    requires first.matchedBy.ByExploit? <==> Hit(first, Sniper)
    ensures UsedIds([first] + rest) == UsedBy(first.matchedBy) + UsedIds(rest)
    ensures |UsedIds([first] + rest)| == (if Hit(first, Sniper) then 1 else 0) + |UsedIds(rest)|
    ensures CountHits([first] + rest, Sniper) == (if Hit(first, Sniper) then 1 else 0) + CountHits(rest, Sniper)
  {
    assert ([first] + rest)[1..] == rest;
  }

  // ----- at least half of any matching -----

  type Pairing = set<(nat, nat)>

  predicate Fits(t: TextRules, findings: seq<Finding>, confirmed: seq<Exploit>, p: (nat, nat)) {
    p.0 < |findings| && p.1 < |confirmed| && findings[p.0].scope.Sniper?
    && MatchesExploit(t, findings[p.0], confirmed[p.1])
  }

  /** Any one-to-one pairing of sniper findings with confirmed exploits that the match relation allows. */
  ghost predicate IsMatching(t: TextRules, findings: seq<Finding>, confirmed: seq<Exploit>, pairs: Pairing) {
    && (forall p :: p in pairs ==> Fits(t, findings, confirmed, p))
    && (forall p, q :: p in pairs && q in pairs && p != q ==> p.0 != q.0 && p.1 != q.1)
  }

  lemma {:induction false} InjectionBound<T, U>(s: set<T>, f: T -> U, t: set<U>)
    requires forall x :: x in s ==> f(x) in t
    requires forall x, y :: x in s && y in s && x != y ==> f(x) != f(y)
    ensures |s| <= |t|
  {
    if s != {} {
      var x :| x in s;
      InjectionBound(s - {x}, f, t - {f(x)});
    }
  }

  function AssignedId(matches: seq<FindingMatch>, i: nat): string {
    if i < |matches| && matches[i].matchedBy.ByExploit? then matches[i].matchedBy.exploit.id else ""
  }

  function IdAt(confirmed: seq<Exploit>, j: nat): string {
    if j < |confirmed| then confirmed[j].id else ""
  }

  /** Pairs whose finding the greedy assignment matched too. */
  lemma {:induction false} MatchedSide(t: TextRules, findings: seq<Finding>, confirmed: seq<Exploit>, matches: seq<FindingMatch>, pairs: Pairing)
    requires IsMatching(t, findings, confirmed, pairs) && Sound(t, confirmed, matches, {})
    requires forall p :: p in pairs ==> p.0 < |matches| && matches[p.0].matchedBy.ByExploit?
    ensures |pairs| <= |UsedIds(matches)|
  {
    forall p | p in pairs ensures AssignedId(matches, p.0) in UsedIds(matches) {
      UsedIdsHas(matches, p.0);
    }
    forall p, q | p in pairs && q in pairs && p != q ensures AssignedId(matches, p.0) != AssignedId(matches, q.0) {
      if p.0 < q.0 {
        OneToOne(t, confirmed, matches, {}, p.0, q.0);
      } else {
        OneToOne(t, confirmed, matches, {}, q.0, p.0);
      }
    }
    InjectionBound(pairs, (p: (nat, nat)) => AssignedId(matches, p.0), UsedIds(matches));
  }

  /** Pairs whose exploit the greedy assignment used. */
  lemma {:induction false} UsedSide(t: TextRules, findings: seq<Finding>, confirmed: seq<Exploit>, ids: set<string>, pairs: Pairing)
    requires IsMatching(t, findings, confirmed, pairs) && DistinctIds(confirmed)
    requires forall p :: p in pairs ==> IdAt(confirmed, p.1) in ids
    ensures |pairs| <= |ids|
  {
    forall p, q | p in pairs && q in pairs && p != q ensures IdAt(confirmed, p.1) != IdAt(confirmed, q.1) {
      assert p.1 != q.1;
    }
    InjectionBound(pairs, (p: (nat, nat)) => IdAt(confirmed, p.1), ids);
  }

  /** If the greedy assignment left a pair's finding unmatched, it had used the pair's exploit. */
  lemma {:induction false} UnmatchedWasUsed(
      t: TextRules, confirmed: seq<Exploit>, matches: seq<FindingMatch>, i: nat, e: Exploit)
    requires Maximal(t, confirmed, matches, {}) && i < |matches| && e in confirmed && Missed(t, matches[i], e)
    ensures e.id in UsedIds(matches)
  {
    hide Missed;
    UsedIdsOnly(matches, i);
  }

  /** Main theorem: no pairing the relation allows finds more than twice the greedy true positives. */
  lemma {:induction false} GreedyIsHalfOptimal(
      t: TextRules, findings: seq<Finding>, confirmed: seq<Exploit>, vulns: seq<Vulnerability>, pairs: Pairing)
    requires DistinctIds(confirmed) && IsMatching(t, findings, confirmed, pairs)
    ensures |pairs| <= 2 * CountHits(Assign(t, findings, confirmed, vulns, {}), Sniper)
  {
    var matches := Assign(t, findings, confirmed, vulns, {});
    AssignIsGreedy(t, findings, confirmed, vulns, {});
    UsedIdsCount(t, findings, confirmed, vulns, {});
    NoVulnerabilityForSniper(t, findings, confirmed, vulns, {});
    HalfOfPairs(t, findings, confirmed, matches, pairs);
  }

  lemma {:induction false} HalfOfPairs(
      t: TextRules, findings: seq<Finding>, confirmed: seq<Exploit>, matches: seq<FindingMatch>, pairs: Pairing)
    requires DistinctIds(confirmed) && IsMatching(t, findings, confirmed, pairs)
    requires Sound(t, confirmed, matches, {}) && Maximal(t, confirmed, matches, {})
    requires |matches| == |findings|
    requires forall i :: 0 <= i < |findings| ==>
      matches[i].finding == findings[i] && (findings[i].scope.Sniper? ==> !matches[i].matchedBy.ByVulnerability?)
    ensures |pairs| <= 2 * |UsedIds(matches)|
  {
    hide Sound, Maximal, MatchesExploit, DistinctIds, UsedIds;
    assert forall p :: p in pairs ==> Fits(t, findings, confirmed, p);
    var first := set p | p in pairs && matches[p.0].matchedBy.ByExploit?;
    var second := pairs - first;
    SubMatching(t, findings, confirmed, pairs, first);
    SubMatching(t, findings, confirmed, pairs, second);
    MatchedSide(t, findings, confirmed, matches, first);
    forall p | p in second ensures IdAt(confirmed, p.1) in UsedIds(matches) {
      assert Fits(t, findings, confirmed, p);
      UnmatchedWasUsed(t, confirmed, matches, p.0, confirmed[p.1]);
    }
    UsedSide(t, findings, confirmed, UsedIds(matches), second);
    assert pairs == first + second;
  }

  lemma {:induction false} SubMatching(
      t: TextRules, findings: seq<Finding>, confirmed: seq<Exploit>, pairs: Pairing, some: Pairing)
    requires IsMatching(t, findings, confirmed, pairs) && some <= pairs
    ensures IsMatching(t, findings, confirmed, some)
  {
    hide Fits;
  }

  lemma {:induction false} NoVulnerabilityForSniper(
      t: TextRules, findings: seq<Finding>, confirmed: seq<Exploit>, vulns: seq<Vulnerability>, used: set<string>)
    ensures forall i :: 0 <= i < |findings| && findings[i].scope.Sniper? ==>
      !Assign(t, findings, confirmed, vulns, used)[i].matchedBy.ByVulnerability?
    decreases |findings|
  {
    if findings != [] {
      NoVulnerabilityForSniper(
        t, findings[1..], confirmed, vulns, used + UsedBy(MatchOf(t, findings[0], confirmed, vulns, used)));
    }
  }

  /** The bound is met: one exploit that fits two findings, taken by the one it should have left alone. */
  lemma {:induction false} HalfIsTight(
      t: TextRules, f0: Finding, f1: Finding, e0: Exploit, e1: Exploit, vulns: seq<Vulnerability>)
    requires f0.scope.Sniper? && f1.scope.Sniper? && e0.id != e1.id
    requires MatchesExploit(t, f0, e0) && MatchesExploit(t, f0, e1) && MatchesExploit(t, f1, e0) && !MatchesExploit(t, f1, e1)
    ensures DistinctIds([e0, e1]) && IsMatching(t, [f0, f1], [e0, e1], {(0, 1), (1, 0)})
    ensures CountHits(Assign(t, [f0, f1], [e0, e1], vulns, {}), Sniper) == 1 && |{(0, 1), (1, 0)}| == 2
  {
    hide MatchesExploit;
    var confirmed := [e0, e1];
    assert confirmed[1..] == [e1] && [e1][1..] == [] && [f0, f1][1..] == [f1] && [f1][1..] == [];
    var m0, m1 := FindingMatch(f0, ByExploit(e0)), FindingMatch(f1, Nothing);
    assert MatchOf(t, f0, confirmed, vulns, {}) == ByExploit(e0);
    assert FirstExploit(t, f1, confirmed, {e0.id}) == FirstExploit(t, f1, [e1], {e0.id}) == FirstExploit(t, f1, [], {e0.id});
    assert MatchOf(t, f1, confirmed, vulns, {e0.id}) == Nothing;
    assert {} + UsedBy(ByExploit(e0)) == {e0.id};
    assert Assign(t, [f1], confirmed, vulns, {e0.id}) == [m1] + Assign(t, [], confirmed, vulns, {e0.id} + UsedBy(Nothing)) == [m1];
    assert Assign(t, [f0, f1], confirmed, vulns, {}) == [m0] + [m1];
    assert ([m0] + [m1])[1..] == [m1] && [m1][1..] == [];
  }

  // ----- conservation of counts -----

  function CountFindings(findings: seq<Finding>, scope: Scope): nat {
    if findings == [] then 0 else (if findings[0].scope == scope then 1 else 0) + CountFindings(findings[1..], scope)
  }

  /** How many confirmed exploits carry a used id. */
  function CountUsed(confirmed: seq<Exploit>, used: set<string>): nat {
    if confirmed == [] then 0 else (if confirmed[0].id in used then 1 else 0) + CountUsed(confirmed[1..], used)
  }

  /** No used id is carried by two confirmed exploits. */
  predicate UsedOnce(confirmed: seq<Exploit>, used: set<string>) {
    confirmed == []
    || ((confirmed[0].id in used ==> confirmed[0].id !in Ids(confirmed[1..])) && UsedOnce(confirmed[1..], used))
  }

  lemma {:induction false} UsedOrNot(confirmed: seq<Exploit>, used: set<string>)
    ensures |Unused(confirmed, used)| + CountUsed(confirmed, used) == |confirmed|
  {
    if confirmed != [] {
      UsedOrNot(confirmed[1..], used);
    }
  }

  lemma {:induction false} IntersectInsert(used: set<string>, x: string, s: set<string>)
    ensures |used * ({x} + s)| == |used * s| + if x in used && x !in s then 1 else 0
  {
    if x in used && x !in s {
      assert used * ({x} + s) == {x} + used * s;
    } else {
      assert used * ({x} + s) == used * s;
    }
  }

  lemma {:induction false} IdsCons(e: Exploit, rest: seq<Exploit>)
    ensures Ids([e] + rest) == {e.id} + Ids(rest)
  {
    assert e in [e] + rest;
    assert forall x :: x in rest ==> x in [e] + rest;
  }

  lemma {:induction false} CountUsedExactly(confirmed: seq<Exploit>, used: set<string>)
    ensures CountUsed(confirmed, used) >= |used * Ids(confirmed)|
    ensures CountUsed(confirmed, used) == |used * Ids(confirmed)| <==> UsedOnce(confirmed, used)
  {
    if confirmed == [] {
      assert used * Ids(confirmed) == {};
    } else {
      var e, rest := confirmed[0], confirmed[1..];
      CountUsedExactly(rest, used);
      assert confirmed == [e] + rest;
      IdsCons(e, rest);
      hide Ids;
      IntersectInsert(used, e.id, Ids(rest));
    }
  }

  lemma {:induction false} ScopesKept(matches: seq<FindingMatch>, findings: seq<Finding>, scope: Scope)
    requires |matches| == |findings| && forall i :: 0 <= i < |matches| ==> matches[i].finding == findings[i]
    ensures CountScope(matches, scope) == CountFindings(findings, scope)
  {
    if findings != [] {
      ScopesKept(matches[1..], findings[1..], scope);
    }
  }

  /**
   Conservation: hits and misses add up to the sniper findings, and hits and false positives
   to the confirmed exploits exactly if no used exploit id occurs twice among them.
   */
  lemma {:induction false} CountsPartition(
      t: TextRules, findings: seq<Finding>, exploits: seq<Exploit>, vulns: seq<Vulnerability>)
    ensures var r, confirmed := ScoreScan(t, findings, exploits, vulns), Confirmed(exploits);
      && r.sniper.truePositive + r.sniper.falseNegative == CountFindings(findings, Sniper)
      && r.sniper.truePositive + r.sniper.falsePositive <= |confirmed|
      && (r.sniper.truePositive + r.sniper.falsePositive == |confirmed| <==> UsedOnce(confirmed, UsedIds(r.findings)))
      && r.futureCount == CountFindings(findings, Future)
  {
    var confirmed := Confirmed(exploits);
    var matches := Assign(t, findings, confirmed, vulns, {});
    var used := UsedIds(matches);
    UsedIdsCount(t, findings, confirmed, vulns, {});
    ScopesKept(matches, findings, Sniper);
    ScopesKept(matches, findings, Future);
    UsedOrNot(confirmed, used);
    CountUsedExactly(confirmed, used);
    assert used * Ids(confirmed) == used;
    hide Assign, Confirmed, UsedIds, Unused, CountUsed, UsedOnce, CweScores, Round, F1, Ratio;
  }

  /** Distinct exploit ids are enough. */
  lemma {:induction false} DistinctIdsAreUsedOnce(confirmed: seq<Exploit>, used: set<string>)
    requires DistinctIds(confirmed)
    ensures UsedOnce(confirmed, used)
  {
    if confirmed != [] {
      DistinctIdsAreUsedOnce(confirmed[1..], used);
    }
  }

  // ----- per-CWE rows -----

  function SumTrue(rows: seq<CweScore>, scope: string): nat {
    if rows == [] then 0 else (if rows[0].scope == scope then rows[0].truePositive else 0) + SumTrue(rows[1..], scope)
  }

  function SumMissed(rows: seq<CweScore>, scope: string): nat {
    if rows == [] then 0 else (if rows[0].scope == scope then rows[0].falseNegative else 0) + SumMissed(rows[1..], scope)
  }

  function SumTp(groups: seq<Group>, scope: Scope): nat {
    if groups == [] then 0 else (if groups[0].scope == scope then groups[0].tp else 0) + SumTp(groups[1..], scope)
  }

  function SumFn(groups: seq<Group>, scope: Scope): nat {
    if groups == [] then 0 else (if groups[0].scope == scope then groups[0].fn else 0) + SumFn(groups[1..], scope)
  }

  /** The key names the group's scope. */
  predicate KeyFits(g: Group) {
    ScopeName(g.scope) + ":" <= g.key
  }

  predicate AllFit(groups: seq<Group>) {
    groups == [] || (KeyFits(groups[0]) && AllFit(groups[1..]))
  }

  lemma {:induction false} IndexOfAfter(name: string, c: char, rest: string)
    requires c !in name
    ensures IndexOf(name + [c] + rest, c) == |name|
  {
    if name == "" {
      assert name + [c] + rest == [c] + rest;
    } else {
      IndexOfAfter(name[1..], c, rest);
      assert (name + [c] + rest)[1..] == name[1..] + [c] + rest;
    }
  }

  /** A group key is read back as the scope and CWE it was made of, whatever the CWE looks like. */
  lemma {:induction false} KeyRoundTrip(scope: Scope, cweId: string)
    ensures ParseKey(ScopeName(scope) + ":" + cweId) == (ScopeName(scope), cweId)
  {
    var name := ScopeName(scope);
    assert ':' !in name;
    IndexOfAfter(name, ':', cweId);
    var key := name + ":" + cweId;
    assert key == name + [':'] + cweId;
    assert key[..|name|] == name && key[|name| + 1..] == cweId;
  }

  lemma {:induction false} ScopeNamesDiffer(a: Scope, b: Scope)
    ensures ScopeName(a) == ScopeName(b) <==> a == b
    ensures |ScopeName(a)| == 6
  {}

  /** A key determines its scope. */
  lemma {:induction false} KeyDeterminesScope(g: Group, scope: Scope, cweId: string)
    requires KeyFits(g) && g.key == ScopeName(scope) + ":" + cweId
    ensures g.scope == scope
  {
    var other := g.key[|ScopeName(g.scope)| + 1..];
    assert g.key == ScopeName(g.scope) + ":" + other;
    KeyRoundTrip(scope, cweId);
    KeyRoundTrip(g.scope, other);
    ScopeNamesDiffer(g.scope, scope);
  }

  lemma {:induction false} BumpSums(groups: seq<Group>, scope: Scope, cweId: string, hit: bool, s: Scope)
    requires AllFit(groups)
    ensures var after := Bump(groups, ScopeName(scope) + ":" + cweId, scope, hit);
      && AllFit(after)
      && SumTp(after, s) == SumTp(groups, s) + (if hit && s == scope then 1 else 0)
      && SumFn(after, s) == SumFn(groups, s) + (if !hit && s == scope then 1 else 0)
    decreases |groups|
  {
    var key := ScopeName(scope) + ":" + cweId;
    assert KeyFits(Group(key, scope, 0, 0)) && KeyFits(Group(key, scope, 1, 0)) && KeyFits(Group(key, scope, 0, 1));
    if groups != [] {
      var first, rest := groups[0], groups[1..];
      if first.key == key {
        KeyDeterminesScope(first, scope, cweId);
        var bumped := if hit then first.(tp := first.tp + 1) else first.(fn := first.fn + 1);
        assert KeyFits(bumped);
        assert ([bumped] + rest)[1..] == rest;
      } else {
        BumpSums(rest, scope, cweId, hit, s);
        assert ([first] + Bump(rest, key, scope, hit))[1..] == Bump(rest, key, scope, hit);
      }
    }
    hide ScopeName, KeyFits;
  }

  lemma {:induction false} GroupSums(groups: seq<Group>, matches: seq<FindingMatch>, s: Scope)
    requires !s.Future? && AllFit(groups)
    ensures var after := GroupsFrom(groups, matches);
      && AllFit(after)
      && SumTp(after, s) == SumTp(groups, s) + CountHits(matches, s)
      && SumFn(after, s) + CountHits(matches, s) == SumFn(groups, s) + CountScope(matches, s)
    decreases |matches|
  {
    if matches != [] {
      var m := matches[0];
      hide KeyFits, SumTp, SumFn, Bump, ScopeName;
      if m.finding.scope.Future? {
        GroupSums(groups, matches[1..], s);
      } else {
        BumpSums(groups, m.finding.scope, m.finding.cweId, !m.matchedBy.Nothing?, s);
        GroupSums(Bump(groups, KeyOf(m), m.finding.scope, !m.matchedBy.Nothing?), matches[1..], s);
      }
    }
  }

  lemma {:induction false} RowSums(t: TextRules, groups: seq<Group>, falsePositives: seq<Exploit>, s: Scope)
    requires AllFit(groups)
    ensures SumTrue(CweScores(t, groups, falsePositives), ScopeName(s)) == SumTp(groups, s)
    ensures SumMissed(CweScores(t, groups, falsePositives), ScopeName(s)) == SumFn(groups, s)
  {
    if groups != [] {
      var g := groups[0];
      assert KeyFits(g);
      var cweId := g.key[|ScopeName(g.scope)| + 1..];
      assert g.key == ScopeName(g.scope) + ":" + cweId;
      KeyRoundTrip(g.scope, cweId);
      ScopeNamesDiffer(g.scope, s);
      RowSums(t, groups[1..], falsePositives, s);
      hide KeyFits, ScopeName, ParseKey, Round, F1, Ratio, CountCwe;
      assert CweScores(t, groups, falsePositives)[1..] == CweScores(t, groups[1..], falsePositives);
    }
  }

  /** The per-CWE rows of a scope add up to its aggregate hits and misses. */
  lemma {:induction false} PerCweSumsToAggregate(
      t: TextRules, findings: seq<Finding>, exploits: seq<Exploit>, vulns: seq<Vulnerability>)
    ensures var r := ScoreScan(t, findings, exploits, vulns);
      && SumTrue(r.perCwe, "sniper") == r.sniper.truePositive && SumMissed(r.perCwe, "sniper") == r.sniper.falseNegative
      && SumTrue(r.perCwe, "static") == r.static_.truePositive && SumMissed(r.perCwe, "static") == r.static_.falseNegative
  {
    var r := ScoreScan(t, findings, exploits, vulns);
    var groups := GroupsFrom([], r.findings);
    GroupSums([], r.findings, Sniper);
    GroupSums([], r.findings, Static);
    RowSums(t, groups, r.falsePositives, Sniper);
    RowSums(t, groups, r.falsePositives, Static);
    hide Assign, Confirmed, UsedIds, Unused, CweScores, Round, F1, Ratio, GroupsFrom, SumTrue, SumMissed;
  }

  // ----- metrics -----

  lemma {:induction false} RatioTimes(a: nat, b: nat)
    requires a <= b
    ensures Ratio(a, b) * b as real == a as real && 0.0 <= Ratio(a, b) <= 1.0
    ensures Ratio(a, b) == 0.0 <==> a == 0
  {
    if b != 0 {
      var q := a as real / b as real;
      assert q * b as real == a as real;
    }
  }

  /** Cross-multiplied: r and p are tp/a and tp/b, and q is 2tp/(a+b). */
  lemma {:induction false} HarmonicMean(tp: real, a: real, b: real, r: real, p: real, q: real)
    requires a > 0.0 && b > 0.0 && r * a == tp && p * b == tp && q * (a + b) == 2.0 * tp
    ensures q * (r + p) == 2.0 * r * p
  {
    var ab := a * b;
    assert (r + p) * ab == tp * (a + b) by {
      assert (r * a) * b == tp * b && (p * b) * a == tp * a;
      assert (r + p) * ab == (r * a) * b + (p * b) * a;
    }
    assert (r * p) * ab == (r * a) * (p * b) == tp * tp;
    assert (q * (r + p)) * ab == q * ((r + p) * ab) == (q * (a + b)) * tp == 2.0 * tp * tp;
    assert (2.0 * r * p) * ab == 2.0 * ((r * p) * ab);
    CancelPositive(q * (r + p), 2.0 * r * p, ab);
  }

  lemma {:induction false} CancelPositive(x: real, y: real, z: real)
    requires z > 0.0 && x * z == y * z
    ensures x == y
  {
    assert (x - y) * z == 0.0;
  }

  lemma {:induction false} F1AsHarmonicMean(tp: nat, fn: nat, fp: nat)
    requires tp > 0
    ensures F1(Ratio(tp, tp + fn), Ratio(tp, tp + fp)) == Ratio(2 * tp, 2 * tp + fn + fp)
  {
    var a, b := tp + fn, tp + fp;
    var r, p, q := Ratio(tp, a), Ratio(tp, b), Ratio(2 * tp, a + b);
    RatioTimes(tp, a);
    RatioTimes(tp, b);
    RatioTimes(2 * tp, a + b);
    hide Ratio;
    HarmonicMean(tp as real, a as real, b as real, r, p, q);
    assert (2.0 * r * p) / (r + p) == q by {
      CancelPositive((2.0 * r * p) / (r + p), q, r + p);
    }
  }

  lemma {:induction false} BetweenLowAndHigh(r: real, p: real)
    requires 0.0 < r <= p
    ensures r <= F1(r, p) <= p && F1(r, p) == F1(p, r)
  {
    var sum := r + p;
    var q := F1(r, p);
    assert q * sum == 2.0 * r * p == 2.0 * p * r;
    TimesMonotone(r, p, r);
    TimesMonotone(r, p, p);
    assert r * sum == r * r + p * r && p * sum == r * p + p * p;
    hide F1;
    LessCancel(r, q, sum);
    LessCancel(q, p, sum);
  }

  lemma {:induction false} TimesMonotone(x: real, y: real, z: real)
    requires x <= y && z >= 0.0
    ensures x * z <= y * z
  {}

  lemma {:induction false} LessCancel(x: real, y: real, z: real)
    requires z > 0.0 && x * z <= y * z
    ensures x <= y
  {}

  /**
   F1 in closed form for any counts, zero when its denominator is, and between precision and
   recall.
   */
  lemma {:induction false} F1Exactly(tp: nat, fn: nat, fp: nat)
    ensures var r, p := Ratio(tp, tp + fn), Ratio(tp, tp + fp);
      && F1(r, p) == Ratio(2 * tp, 2 * tp + fn + fp)
      && 0.0 <= F1(r, p) <= 1.0
      && (if r <= p then r else p) <= F1(r, p) <= (if r <= p then p else r)
  {
    var r, p := Ratio(tp, tp + fn), Ratio(tp, tp + fp);
    RatioTimes(tp, tp + fn);
    RatioTimes(tp, tp + fp);
    RatioTimes(2 * tp, 2 * tp + fn + fp);
    if tp > 0 {
      F1AsHarmonicMean(tp, fn, fp);
      hide Ratio, F1;
      if r <= p {
        BetweenLowAndHigh(r, p);
      } else {
        BetweenLowAndHigh(p, r);
      }
    }
  }

  /** Rounding stays in [0, 1], moves a value by at most 1/2000 and keeps order. */
  lemma {:induction false} RoundIsClose(v: real, w: real)
    requires 0.0 <= v <= w <= 1.0
    ensures 0.0 <= Round(v) <= Round(w) <= 1.0
    ensures -0.0005 < Round(v) - v <= 0.0005
  {
    var x, y := (v * 1000.0 + 0.5).Floor, (w * 1000.0 + 0.5).Floor;
    assert 0 <= x <= y <= 1000;
  }
}
