/** Picking the one source file that clearly matches an endpoint. */
module SourceResolver {
  import opened Text
  import StableSort

  datatype Candidate = Candidate(path: string, score: int)

  const PREFILTER := 40
  const REQUIRED := 50
  const MARGIN := 10

  datatype Resolution = Resolved(path: string) | NoMatch | BelowThreshold | Ambiguous

  function ScoreOf(c: Candidate): int {
    c.score
  }

  function Prefiltered(candidates: seq<Candidate>): seq<Candidate> {
    if candidates == [] then []
    else (if candidates[0].score >= PREFILTER then [candidates[0]] else []) + Prefiltered(candidates[1..])
  }

  /** File paths are the keys of one object, so no path comes twice. */
  predicate DistinctPaths(candidates: seq<Candidate>) {
    forall i, j :: 0 <= i < j < |candidates| ==> candidates[i].path != candidates[j].path
  }

  /** `f` scores at least 50 and beats every other candidate by more than 10. */
  ghost predicate ClearWinner(candidates: seq<Candidate>, c: Candidate) {
    c in candidates && c.score >= 50
    && forall d :: d in candidates && d.path != c.path ==> c.score > d.score + 10
  }

  /** Filter, sort, threshold, ambiguity check. */
  method Resolve(candidates: seq<Candidate>) returns (r: Resolution)
    requires DistinctPaths(candidates)
    ensures forall f :: r == Resolved(f) <==> exists c :: ClearWinner(candidates, c) && c.path == f
    // and why not, otherwise
    ensures r == NoMatch <==> forall c :: c in candidates ==> c.score < 40
    ensures r == BelowThreshold <==>
      (exists c :: c in candidates && c.score >= 40) && forall c :: c in candidates ==> c.score < 50
  {
    var scored: seq<Candidate> := [];
    var i := 0;
    assert candidates[0..] == candidates;
    while i < |candidates|
      invariant 0 <= i <= |candidates|
      invariant scored + Prefiltered(candidates[i..]) == Prefiltered(candidates)
    {
      assert candidates[i..][1..] == candidates[i + 1..];
      if candidates[i].score >= PREFILTER {
        Associate(scored, [candidates[i]], Prefiltered(candidates[i + 1..]));
        scored := scored + [candidates[i]];
      }
      i := i + 1;
    }
    assert candidates[|candidates|..] == [];
    assert scored + [] == scored;
    assert scored == Prefiltered(candidates);
    var sorted := StableSort.Sort(ScoreOf, scored);
    RankingOfSorted(candidates);
    WinnersAreOnTop(candidates, sorted);
    TopWins(candidates, sorted);
    hide ClearWinner, Ranking, DistinctPaths, Prefiltered, StableSort.Sort;
    if |sorted| == 0 {
      return NoMatch;
    }
    var top := sorted[0];
    if top.score < REQUIRED {
      return BelowThreshold;
    }
    if |sorted| > 1 && top.score <= sorted[1].score + MARGIN {
      return Ambiguous;
    }
    return Resolved(top.path);
  }

  /** `sorted` ranks exactly the candidates that pass the pre-filter. */
  ghost predicate Ranking(candidates: seq<Candidate>, sorted: seq<Candidate>) {
    Ranked(sorted) && DistinctPaths(sorted) && forall c :: c in sorted <==> c in candidates && c.score >= PREFILTER
  }

  ghost predicate Ranked(sorted: seq<Candidate>) {
    forall i, j :: 0 <= i < j < |sorted| ==> sorted[i].score >= sorted[j].score
  }

  lemma {:induction false} DistinctCons(c: Candidate, rest: seq<Candidate>)
    requires DistinctPaths(rest) && forall d :: d in rest ==> d.path != c.path
    ensures DistinctPaths([c] + rest)
  {}

  lemma {:induction false} PrefilteredEntries(candidates: seq<Candidate>)
    requires DistinctPaths(candidates)
    ensures forall c :: c in Prefiltered(candidates) <==> c in candidates && c.score >= PREFILTER
    ensures DistinctPaths(Prefiltered(candidates))
  {
    if candidates != [] {
      var first, rest := candidates[0], candidates[1..];
      assert candidates == [first] + rest;
      assert forall d :: d in rest ==> d.path != first.path;
      PrefilteredEntries(rest);
      DistinctCons(first, Prefiltered(rest));
    }
  }

  lemma {:induction false} SameMembers(a: seq<Candidate>, b: seq<Candidate>, c: Candidate)
    requires multiset(a) == multiset(b)
    ensures c in a <==> c in b
  {
    assert c in a <==> c in multiset(a);
    assert c in b <==> c in multiset(b);
  }

  lemma {:induction false} OnceEach(s: seq<Candidate>, c: Candidate)
    requires DistinctPaths(s)
    ensures multiset(s)[c] <= 1
  {
    if s != [] {
      assert s == [s[0]] + s[1..];
      OnceEach(s[1..], c);
      assert forall d :: d in s[1..] ==> d.path != s[0].path;
      assert s[0] !in multiset(s[1..]);
    }
  }

  lemma {:induction false} PathsStayDistinct(a: seq<Candidate>, b: seq<Candidate>)
    requires DistinctPaths(a) && multiset(a) == multiset(b)
    ensures DistinctPaths(b)
  {
    forall i, j | 0 <= i < j < |b| ensures b[i].path != b[j].path {
      SameMembers(a, b, b[i]);
      SameMembers(a, b, b[j]);
      OnceEach(a, b[i]);
      assert b == b[..j] + b[j..];
      assert b[i] in b[..j] && b[j] in b[j..];
    }
  }

  lemma {:induction false} RankingOfSorted(candidates: seq<Candidate>)
    requires DistinctPaths(candidates)
    ensures Ranking(candidates, StableSort.Sort(ScoreOf, Prefiltered(candidates)))
  {
    var scored := Prefiltered(candidates);
    var sorted := StableSort.Sort(ScoreOf, scored);
    PrefilteredEntries(candidates);
    StableSort.SortIsStable(ScoreOf, scored, 0);
    hide Prefiltered, StableSort.Sort;
    PathsStayDistinct(scored, sorted);
    forall c ensures c in sorted <==> c in scored {
      SameMembers(scored, sorted, c);
    }
    assert forall c: Candidate :: ScoreOf(c) == c.score;
  }

  /** A clear winner can only be the first of the ranking, more than the margin ahead of the second. */
  lemma {:induction false} WinnersAreOnTop(candidates: seq<Candidate>, sorted: seq<Candidate>)
    requires DistinctPaths(candidates) && Ranking(candidates, sorted)
    ensures forall c :: ClearWinner(candidates, c) ==>
      && sorted != [] && sorted[0] == c && c.score >= REQUIRED
      && (|sorted| > 1 ==> c.score > sorted[1].score + MARGIN)
  {
    forall c | ClearWinner(candidates, c)
      ensures sorted != [] && sorted[0] == c && (|sorted| > 1 ==> c.score > sorted[1].score + MARGIN)
    {
      assert c in sorted;
      assert sorted[0] in sorted;
      assert |sorted| > 1 ==> sorted[1] in sorted;
    }
  }

  /** The first of the ranking is a clear winner if it is high enough and far enough ahead. */
  lemma {:induction false} TopWins(candidates: seq<Candidate>, sorted: seq<Candidate>)
    requires Ranking(candidates, sorted)
    ensures sorted != [] && sorted[0].score >= REQUIRED && (|sorted| > 1 ==> sorted[0].score > sorted[1].score + MARGIN)
      ==> ClearWinner(candidates, sorted[0])
  {
    if sorted != [] && sorted[0].score >= REQUIRED && (|sorted| > 1 ==> sorted[0].score > sorted[1].score + MARGIN) {
      assert sorted[0] in sorted;
      forall d | d in candidates && d.path != sorted[0].path ensures sorted[0].score > d.score + MARGIN {
        assert d.score >= PREFILTER ==> d in sorted;
      }
    }
  }

  /** The decision does not depend on the order in which the files are listed. */
  lemma {:induction false} OrderDoesNotMatter(a: seq<Candidate>, b: seq<Candidate>, c: Candidate)
    requires multiset(a) == multiset(b)
    ensures ClearWinner(a, c) <==> ClearWinner(b, c)
  {
    forall d ensures d in a <==> d in b {
      SameMembers(a, b, d);
    }
  }
}
