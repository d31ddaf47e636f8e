/**
 Printing a snippet pair as a one-hunk unified diff: common prefix and suffix are
 trimmed, three lines of context are kept on each side.
 */
module DiffBuilder {
  import opened Text
  import opened UnifiedDiff
  import Decimal

  function CodeLines(code: string): Lines {
    if code == "" then [] else Split(code)
  }

  /** `filePath.replace(/^\/+/, '')`. */
  function NormalizedPath(path: string): string {
    if path != "" && path[0] == '/' then NormalizedPath(path[1..]) else path
  }

  // ----- the trimmed edit -----

  /** `orig[prefix..origEnd]` becomes `patched[prefix..patchEnd]`; everything else is common. */
  datatype Edit = Edit(prefix: nat, origEnd: nat, patchEnd: nat)

  ghost predicate IsEdit(orig: Lines, patched: Lines, e: Edit) {
    && e.prefix <= e.origEnd <= |orig|
    && e.prefix <= e.patchEnd <= |patched|
    && orig[..e.prefix] == patched[..e.prefix]
    && orig[e.origEnd..] == patched[e.patchEnd..]
  }

  /** The prefix cannot be extended, and given the prefix neither can the suffix. */
  ghost predicate IsTrimmed(orig: Lines, patched: Lines, e: Edit)
    requires IsEdit(orig, patched, e)
  {
    && (e.prefix == |orig| || e.prefix == |patched| || orig[e.prefix] != patched[e.prefix])
    && (e.origEnd == e.prefix || e.patchEnd == e.prefix || orig[e.origEnd - 1] != patched[e.patchEnd - 1])
  }

  function CommonPrefix(orig: Lines, patched: Lines, from: nat): (n: nat)
    requires from <= |orig| && from <= |patched|
    requires orig[..from] == patched[..from]
    ensures from <= n <= |orig| && n <= |patched|
    ensures orig[..n] == patched[..n]
    ensures n == |orig| || n == |patched| || orig[n] != patched[n]
    decreases |orig| - from
  {
    if from < |orig| && from < |patched| && orig[from] == patched[from] then
      PrefixGrows(orig, patched, from);
      CommonPrefix(orig, patched, from + 1)
    else from
  }

  lemma {:induction false} PrefixGrows(a: Lines, b: Lines, n: nat)
    requires n < |a| && n < |b| && a[..n] == b[..n] && a[n] == b[n]
    ensures a[..n + 1] == b[..n + 1]
  {
    assert a[..n + 1] == a[..n] + [a[n]];
    assert b[..n + 1] == b[..n] + [b[n]];
  }

  lemma {:induction false} SuffixGrows(a: Lines, b: Lines, i: nat, j: nat)
    requires 0 < i <= |a| && 0 < j <= |b| && a[i..] == b[j..] && a[i - 1] == b[j - 1]
    ensures a[i - 1..] == b[j - 1..]
  {
    assert a[i - 1..] == [a[i - 1]] + a[i..];
    assert b[j - 1..] == [b[j - 1]] + b[j..];
  }

  predicate CanShrink(orig: Lines, patched: Lines, e: Edit)
    requires e.origEnd <= |orig| && e.patchEnd <= |patched|
  {
    e.origEnd > e.prefix && e.patchEnd > e.prefix && orig[e.origEnd - 1] == patched[e.patchEnd - 1]
  }

  function TrimSuffix(orig: Lines, patched: Lines, e: Edit): (t: Edit)
    requires e.origEnd <= |orig| && e.patchEnd <= |patched|
    ensures t.prefix == e.prefix && t.origEnd <= e.origEnd && t.patchEnd <= e.patchEnd
    ensures !CanShrink(orig, patched, t)
    decreases e.origEnd
  {
    if CanShrink(orig, patched, e) then TrimSuffix(orig, patched, Edit(e.prefix, e.origEnd - 1, e.patchEnd - 1)) else e
  }

  lemma {:induction false} ShrinkKeepsEdit(orig: Lines, patched: Lines, e: Edit)
    requires IsEdit(orig, patched, e) && CanShrink(orig, patched, e)
    ensures IsEdit(orig, patched, Edit(e.prefix, e.origEnd - 1, e.patchEnd - 1))
  {
    SuffixGrows(orig, patched, e.origEnd, e.patchEnd);
  }

  lemma {:induction false} TrimSuffixKeepsEdit(orig: Lines, patched: Lines, e: Edit)
    requires IsEdit(orig, patched, e)
    ensures IsEdit(orig, patched, TrimSuffix(orig, patched, e))
    decreases e.origEnd
  {
    assert e.origEnd <= |orig| && e.patchEnd <= |patched|;
    hide IsEdit;
    if CanShrink(orig, patched, e) {
      ShrinkKeepsEdit(orig, patched, e);
      TrimSuffixKeepsEdit(orig, patched, Edit(e.prefix, e.origEnd - 1, e.patchEnd - 1));
    }
  }

  function Trim(orig: Lines, patched: Lines): (e: Edit)
    ensures IsEdit(orig, patched, e) && IsTrimmed(orig, patched, e)
  {
    var whole := Edit(CommonPrefix(orig, patched, 0), |orig|, |patched|);
    TrimSuffixKeepsEdit(orig, patched, whole);
    TrimSuffix(orig, patched, whole)
  }

  /** The common prefix stops at a difference, or one list of lines is a prefix of the other. */
  lemma {:induction false} PrefixStops(orig: Lines, patched: Lines)
    ensures var n := Trim(orig, patched).prefix;
      && n <= |orig| && n <= |patched| && orig[..n] == patched[..n]
      && (n < |orig| && n < |patched| ==> orig[n] != patched[n])
      && (n == |orig| ==> orig <= patched)
      && (n == |patched| ==> patched <= orig)
  {
    var n := Trim(orig, patched).prefix;
    hide Trim;
    if n == |orig| {
      assert orig == orig[..n];
    }
    if n == |patched| {
      assert patched == patched[..n];
    }
  }

  /** The first trimming loop. */
  method CountPrefix(orig: Lines, patched: Lines) returns (prefixCount: nat)
    ensures prefixCount == CommonPrefix(orig, patched, 0)
  {
    prefixCount := 0;
    while prefixCount < |orig| && prefixCount < |patched| && orig[prefixCount] == patched[prefixCount]
      invariant prefixCount <= |orig| && prefixCount <= |patched|
      invariant orig[..prefixCount] == patched[..prefixCount]
      invariant CommonPrefix(orig, patched, prefixCount) == CommonPrefix(orig, patched, 0)
    {
      PrefixGrows(orig, patched, prefixCount);
      prefixCount := prefixCount + 1;
    }
  }

  /** The second trimming loop: two indices move down together, never below the prefix. */
  method ShrinkSuffix(orig: Lines, patched: Lines, whole: Edit) returns (e: Edit)
    requires whole.origEnd <= |orig| && whole.patchEnd <= |patched|
    ensures e == TrimSuffix(orig, patched, whole)
  {
    e := whole;
    while CanShrink(orig, patched, e)
      invariant e.origEnd <= |orig| && e.patchEnd <= |patched|
      invariant TrimSuffix(orig, patched, e) == TrimSuffix(orig, patched, whole)
      decreases e.origEnd
    {
      e := Edit(e.prefix, e.origEnd - 1, e.patchEnd - 1);
    }
  }

  method FindEdit(orig: Lines, patched: Lines) returns (e: Edit)
    ensures e == Trim(orig, patched)
  {
    var prefixCount := CountPrefix(orig, patched);
    e := ShrinkSuffix(orig, patched, Edit(prefixCount, |orig|, |patched|));
  }

  lemma {:induction false} CommonPrefixAt(a: Lines, b: Lines, n: nat, i: nat)
    requires i < n <= |a| && n <= |b| && a[..n] == b[..n]
    ensures a[i] == b[i]
  {
    assert a[i] == a[..n][i] == b[..n][i];
  }

  lemma {:induction false} CommonSuffixAt(a: Lines, b: Lines, i: nat, j: nat, k: nat)
    requires i <= |a| && j <= |b| && a[i..] == b[j..] && k < |a| - i
    ensures |a| - i == |b| - j && a[i + k] == b[j + k]
  {
    assert |a[i..]| == |b[j..]|;
    assert a[i + k] == a[i..][k] == b[j..][k];
  }

  /**
   The printed edit is minimal: no other way to write both texts as common head, changed
   middle and common tail has a shorter removed or a shorter added middle.
   */
  lemma {:induction false} TrimIsMinimal(orig: Lines, patched: Lines, other: Edit)
    requires IsEdit(orig, patched, other)
    ensures var e := Trim(orig, patched);
      && e.origEnd - e.prefix <= other.origEnd - other.prefix
      && e.patchEnd - e.prefix <= other.patchEnd - other.prefix
  {
    var e := Trim(orig, patched);
    hide Trim;
    assert |orig[e.origEnd..]| == |patched[e.patchEnd..]|;
    assert |orig[other.origEnd..]| == |patched[other.patchEnd..]|;
    if e.prefix < other.prefix {
      CommonPrefixAt(orig, patched, other.prefix, e.prefix);
    }
    if e.origEnd > other.origEnd {
      CommonSuffixAt(orig, patched, other.origEnd, other.patchEnd, e.origEnd - 1 - other.origEnd);
    }
  }

  // ----- the printed hunk -----

  datatype Tag = Keep | Remove | Add {
    function Line(text: string): BodyLine {
      match this
      case Keep => Context(text)
      case Remove => Removed(text)
      case Add => Added(text)
    }
  }

  function Tagged(tag: Tag, lines: Lines): seq<BodyLine> {
    if lines == [] then [] else [tag.Line(lines[0])] + Tagged(tag, lines[1..])
  }

  /** First and one-past-last original line the hunk shows. */
  function BlockStart(e: Edit): (n: nat)
    ensures n <= e.prefix
  {
    if e.prefix >= 3 then e.prefix - 3 else 0
  }

  function BlockEnd(orig: Lines, e: Edit): (n: nat)
    requires e.origEnd <= |orig|
    ensures e.origEnd <= n <= |orig|
  {
    if e.origEnd + 3 <= |orig| then e.origEnd + 3 else |orig|
  }

  function BodyOf(orig: Lines, patched: Lines, e: Edit): seq<BodyLine>
    requires e.prefix <= e.origEnd <= |orig| && e.prefix <= e.patchEnd <= |patched|
  {
    Tagged(Keep, orig[BlockStart(e)..e.prefix])
    + Tagged(Remove, orig[e.prefix..e.origEnd])
    + Tagged(Add, patched[e.prefix..e.patchEnd])
    + Tagged(Keep, orig[e.origEnd..BlockEnd(orig, e)])
  }

  function ChangeOf(orig: Lines, patched: Lines): Change {
    var e := Trim(orig, patched);
    Change(BlockStart(e) + 1, BlockStart(e) + 1, BodyOf(orig, patched, e))
  }

  function Preamble(path: string): Lines {
    ["--- a/" + NormalizedPath(path), "+++ b/" + NormalizedPath(path)]
  }

  function Build(path: string, originalCode: string, patchedCode: string): string {
    var orig, patched := CodeLines(originalCode), CodeLines(patchedCode);
    if |orig| == 0 && |patched| == 0 then ""
    else Join(Preamble(path) + RenderChanges([ChangeOf(orig, patched)]))
  }

  lemma {:induction false} TaggedSides(tag: Tag, lines: Lines)
    ensures OldSide(Tagged(tag, lines)) == if tag == Add then [] else lines
    ensures NewSide(Tagged(tag, lines)) == if tag == Remove then [] else lines
  {
    if lines != [] {
      TaggedSides(tag, lines[1..]);
    }
  }

  lemma {:induction false} SidesOfSum(a: seq<BodyLine>, b: seq<BodyLine>)
    ensures OldSide(a + b) == OldSide(a) + OldSide(b)
    ensures NewSide(a + b) == NewSide(a) + NewSide(b)
    ensures RenderBody(a + b) == RenderBody(a) + RenderBody(b)
    decreases |a|
  {
    if a == [] {
      assert a + b == b;
    } else {
      SidesOfSum(a[1..], b);
      UnfoldBody(a);
      UnfoldBody(a + b);
      hide OldSide, NewSide, RenderBody;
      assert (a + b)[1..] == a[1..] + b;
      Associate(a[0].OldPart(), OldSide(a[1..]), OldSide(b));
      Associate(a[0].NewPart(), NewSide(a[1..]), NewSide(b));
      Associate([a[0].Render()], RenderBody(a[1..]), RenderBody(b));
    }
  }

  /** What the printed hunk takes away is a contiguous block of the original ... */
  function OldBlock(orig: Lines, e: Edit): Lines
    requires e.prefix <= e.origEnd <= |orig|
  {
    orig[BlockStart(e)..BlockEnd(orig, e)]
  }

  /** ... and what it puts there is the same context around the patched middle. */
  function NewBlock(orig: Lines, patched: Lines, e: Edit): Lines
    requires e.prefix <= e.origEnd <= |orig| && e.prefix <= e.patchEnd <= |patched|
  {
    orig[BlockStart(e)..e.prefix] + patched[e.prefix..e.patchEnd] + orig[e.origEnd..BlockEnd(orig, e)]
  }

  lemma {:induction false} FourPartSides(before: Lines, gone: Lines, come: Lines, after: Lines)
    ensures var body := Tagged(Keep, before) + Tagged(Remove, gone) + Tagged(Add, come) + Tagged(Keep, after);
      && OldSide(body) == before + gone + after
      && NewSide(body) == before + come + after
      && RenderBody(body) == RenderBody(Tagged(Keep, before)) + RenderBody(Tagged(Remove, gone))
                           + RenderBody(Tagged(Add, come)) + RenderBody(Tagged(Keep, after))
  {
    hide Tagged, OldSide, NewSide, RenderBody;
    var b1, b2, b3, b4 := Tagged(Keep, before), Tagged(Remove, gone), Tagged(Add, come), Tagged(Keep, after);
    SidesOfSum(b1, b2);
    SidesOfSum(b1 + b2, b3);
    SidesOfSum(b1 + b2 + b3, b4);
    TaggedSides(Keep, before);
    TaggedSides(Remove, gone);
    TaggedSides(Add, come);
    TaggedSides(Keep, after);
    assert before + gone + [] == before + gone;
    assert before + [] == before;
  }

  lemma {:induction false} BodySides(orig: Lines, patched: Lines, e: Edit)
    requires e.prefix <= e.origEnd <= |orig| && e.prefix <= e.patchEnd <= |patched|
    ensures OldSide(BodyOf(orig, patched, e)) == OldBlock(orig, e)
    ensures NewSide(BodyOf(orig, patched, e)) == NewBlock(orig, patched, e)
  {
    hide Tagged, OldSide, NewSide, BlockStart, BlockEnd;
    var start, end := BlockStart(e), BlockEnd(orig, e);
    FourPartSides(orig[start..e.prefix], orig[e.prefix..e.origEnd], patched[e.prefix..e.patchEnd], orig[e.origEnd..end]);
    SliceJoins(orig, start, e.prefix, e.origEnd);
    SliceJoins(orig, start, e.origEnd, end);
  }

  /** One `forEach` that pushes tagged lines. */
  method PushAll(lines: Lines, tag: Tag, items: Lines) returns (r: Lines)
    ensures r == lines + RenderBody(Tagged(tag, items))
  {
    r := lines;
    var i := 0;
    assert items[0..] == items;
    while i < |items|
      invariant 0 <= i <= |items|
      invariant r + RenderBody(Tagged(tag, items[i..])) == lines + RenderBody(Tagged(tag, items))
    {
      assert items[i..][1..] == items[i + 1..];
      UnfoldBody(Tagged(tag, items[i..]));
      Associate(r, [tag.Line(items[i]).Render()], RenderBody(Tagged(tag, items[i + 1..])));
      r := r + [tag.Line(items[i]).Render()];
      i := i + 1;
    }
  }

  /** The text of the printed diff, part by part. */
  lemma {:induction false} PrintedParts(path: string, orig: Lines, patched: Lines)
    ensures var e := Trim(orig, patched);
      var start, end := BlockStart(e), BlockEnd(orig, e);
      var before, gone := orig[start..e.prefix], orig[e.prefix..e.origEnd];
      var come, after := patched[e.prefix..e.patchEnd], orig[e.origEnd..end];
      var header := Header(start + 1, |before| + |gone| + |after|, start + 1, |before| + |come| + |after|);
      Preamble(path) + RenderChanges([ChangeOf(orig, patched)])
      == Preamble(path) + [RenderHeader(header)]
       + RenderBody(Tagged(Keep, before)) + RenderBody(Tagged(Remove, gone))
       + RenderBody(Tagged(Add, come)) + RenderBody(Tagged(Keep, after))
  {
    hide Tagged, OldSide, NewSide, RenderBody, BlockStart, BlockEnd, Trim, RenderHeader, Preamble;
    var e := Trim(orig, patched);
    var c := ChangeOf(orig, patched);
    FourPartSides(
      orig[BlockStart(e)..e.prefix], orig[e.prefix..e.origEnd],
      patched[e.prefix..e.patchEnd], orig[e.origEnd..BlockEnd(orig, e)]);
    assert RenderChanges([c]) == c.Lines() + RenderChanges([]) == c.Lines();
  }

  /** The lines with a character in front of each. */
  function Prefixed(c: char, lines: Lines): Lines {
    if lines == [] then [] else [[c] + lines[0]] + Prefixed(c, lines[1..])
  }

  lemma {:induction false} TaggedIsPrefixed(lines: Lines)
    ensures RenderBody(Tagged(Keep, lines)) == Prefixed(' ', lines)
    ensures RenderBody(Tagged(Remove, lines)) == Prefixed('-', lines)
    ensures RenderBody(Tagged(Add, lines)) == Prefixed('+', lines)
  {
    if lines != [] {
      TaggedIsPrefixed(lines[1..]);
      UnfoldBody(Tagged(Keep, lines));
      UnfoldBody(Tagged(Remove, lines));
      UnfoldBody(Tagged(Add, lines));
      hide RenderBody;
    }
  }

  lemma {:induction false} SlashesDropped(slashes: string, file: string)
    requires (forall c :: c in slashes ==> c == '/') && (file != "" ==> file[0] != '/')
    ensures NormalizedPath(slashes + file) == file
  {
    if slashes == "" {
      assert slashes + file == file;
    } else {
      assert (slashes + file)[1..] == slashes[1..] + file && slashes[0] in slashes;
      assert forall c :: c in slashes[1..] ==> c in slashes;
      SlashesDropped(slashes[1..], file);
    }
  }

  function AtMostThree(n: nat): nat {
    if n < 3 then n else 3
  }

  /** The lines after the two file lines: header, context, removals, additions, context. */
  function HunkLines(start: nat, before: Lines, gone: Lines, come: Lines, after: Lines): Lines {
    ["@@ -" + Decimal.Print(start) + "," + Decimal.Print(|before| + |gone| + |after|)
     + " +" + Decimal.Print(start) + "," + Decimal.Print(|before| + |come| + |after|) + " @@"]
    + Prefixed(' ', before) + Prefixed('-', gone) + Prefixed('+', come) + Prefixed(' ', after)
  }

  lemma {:induction false} RegroupFive<T>(p: seq<T>, a: seq<T>, b: seq<T>, c: seq<T>, d: seq<T>, e: seq<T>)
    ensures p + a + b + c + d + e == p + (a + b + c + d + e)
  {}

  lemma {:induction false} PrintedLines(path: string, orig: Lines, patched: Lines)
    ensures var e := Trim(orig, patched);
      Preamble(path) + RenderChanges([ChangeOf(orig, patched)])
      == Preamble(path)
       + HunkLines(BlockStart(e) + 1, orig[BlockStart(e)..e.prefix], orig[e.prefix..e.origEnd],
                   patched[e.prefix..e.patchEnd], orig[e.origEnd..BlockEnd(orig, e)])
  {
    var e := Trim(orig, patched);
    hide Trim, IsTrimmed, BlockStart, BlockEnd, Preamble, Prefixed, RenderBody, Tagged;
    PrintedParts(path, orig, patched);
    var before, gone := orig[BlockStart(e)..e.prefix], orig[e.prefix..e.origEnd];
    var come, after := patched[e.prefix..e.patchEnd], orig[e.origEnd..BlockEnd(orig, e)];
    TaggedIsPrefixed(before);
    TaggedIsPrefixed(gone);
    TaggedIsPrefixed(come);
    TaggedIsPrefixed(after);
    hide RenderChanges, ChangeOf, Decimal.Print;
    var start := BlockStart(e) + 1;
    var header := Header(start, |before| + |gone| + |after|, start, |before| + |come| + |after|);
    RegroupFive(
      Preamble(path), [RenderHeader(header)], Prefixed(' ', before), Prefixed('-', gone), Prefixed('+', come),
      Prefixed(' ', after));
  }

  /**
   The printed text, line by line: the path without leading slashes, a header that counts the
   lines, three unchanged lines before the edit or as many as there are, all removals, then all
   additions, and three unchanged lines behind, or as many as there are.
   */
  lemma {:induction false} PrintedDiff(slashes: string, file: string, originalCode: string, patchedCode: string)
    requires (forall c :: c in slashes ==> c == '/') && (file != "" ==> file[0] != '/')
    requires originalCode != "" || patchedCode != ""
    ensures var orig, patched := CodeLines(originalCode), CodeLines(patchedCode);
      var e := Trim(orig, patched);
      var lead, trail := AtMostThree(e.prefix), AtMostThree(|orig| - e.origEnd);
      Build(slashes + file, originalCode, patchedCode)
      == Join(["--- a/" + file, "+++ b/" + file]
              + HunkLines(e.prefix - lead + 1, orig[e.prefix - lead..e.prefix], orig[e.prefix..e.origEnd],
                          patched[e.prefix..e.patchEnd], orig[e.origEnd..e.origEnd + trail]))
  {
    hide *;
    var orig, patched := CodeLines(originalCode), CodeLines(patchedCode);
    BuildJoins(slashes + file, originalCode, patchedCode);
    PreambleNamesFile(slashes, file);
    ThreeAtMost(orig, Trim(orig, patched));
    PrintedLines(slashes + file, orig, patched);
  }

  lemma {:induction false} BuildJoins(path: string, originalCode: string, patchedCode: string)
    requires originalCode != "" || patchedCode != ""
    ensures Build(path, originalCode, patchedCode)
         == Join(Preamble(path) + RenderChanges([ChangeOf(CodeLines(originalCode), CodeLines(patchedCode))]))
  {
    CodeHasLines(originalCode);
    CodeHasLines(patchedCode);
    hide CodeLines, Join, Preamble, RenderChanges, ChangeOf;
  }

  lemma {:induction false} PreambleNamesFile(slashes: string, file: string)
    requires (forall c :: c in slashes ==> c == '/') && (file != "" ==> file[0] != '/')
    ensures Preamble(slashes + file) == ["--- a/" + file, "+++ b/" + file]
  {
    SlashesDropped(slashes, file);
  }

  lemma {:induction false} CodeHasLines(code: string)
    ensures code != "" <==> |CodeLines(code)| > 0
  {}

  lemma {:induction false} ThreeAtMost(orig: Lines, e: Edit)
    ensures e.origEnd <= |orig| ==>
      BlockEnd(orig, e) == e.origEnd + AtMostThree(|orig| - e.origEnd)
    ensures BlockStart(e) == e.prefix - AtMostThree(e.prefix)
  {}

  /** The printer: header counts are the lengths of the parts, body lines are pushed in order. */
  method BuildUnifiedDiff(filePath: string, originalCode: string, patchedCode: string) returns (diff: string)
    ensures diff == Build(filePath, originalCode, patchedCode)
  {
    hide Tagged, RenderBody, RenderChanges, ChangeOf, Trim, Join, RenderHeader, Preamble, BlockStart, BlockEnd;
    var origLines, patchLines := CodeLines(originalCode), CodeLines(patchedCode);
    if |origLines| == 0 && |patchLines| == 0 {
      return "";
    }
    var e := FindEdit(origLines, patchLines);
    var contextBeforeStart, contextAfterEnd := BlockStart(e), BlockEnd(origLines, e);
    var contextBefore := origLines[contextBeforeStart..e.prefix];
    var contextAfter := origLines[e.origEnd..contextAfterEnd];
    var origChange := origLines[e.prefix..e.origEnd];
    var patchChange := patchLines[e.prefix..e.patchEnd];
    var origCount := |contextBefore| + |origChange| + |contextAfter|;
    var patchCount := |contextBefore| + |patchChange| + |contextAfter|;
    var startLine := contextBeforeStart + 1;
    var lines := Preamble(filePath) + [RenderHeader(Header(startLine, origCount, startLine, patchCount))];
    lines := PushAll(lines, Keep, contextBefore);
    lines := PushAll(lines, Remove, origChange);
    lines := PushAll(lines, Add, patchChange);
    lines := PushAll(lines, Keep, contextAfter);
    PrintedParts(filePath, origLines, patchLines);
    diff := Join(lines);
  }
}
