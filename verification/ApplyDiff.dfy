/**
 Applying parsed hunks to a text: stated position first, leftmost exact occurrence
 otherwise, hunks spliced in descending order of their stated start.
 */
module ApplyDiff {
  import opened Text
  import opened UnifiedDiff
  import StableSort

  datatype ApplyOutcome =
    | Applied(content: string)
    | Rejected(reason: string, hunk: Option<nat>)

  datatype LinesOutcome = Spliced(lines: Lines) | Mismatch(oldStart: nat)

  // ----- lines of a text -----

  /** The applier's `splitLines`: the empty line behind a final newline is dropped. */
  function SplitLines(text: string): Lines {
    if text == "" then []
    else
      var lines := Split(CrlfToLf(text));
      if lines[|lines| - 1] == "" then lines[..|lines| - 1] else lines
  }

  function JoinLines(lines: Lines, trailingNewline: bool): string {
    if trailingNewline then Join(lines) + "\n" else Join(lines)
  }

  // ----- finding the place of one hunk -----

  predicate OccursAt(lines: Lines, block: Lines, pos: int) {
    0 <= pos && pos + |block| <= |lines| && lines[pos..pos + |block|] == block
  }

  /** The least position at or after `from` where `block` occurs. */
  function Leftmost(lines: Lines, block: Lines, from: nat): (r: Option<nat>)
    ensures r.Some? ==> r.value >= from && OccursAt(lines, block, r.value)
    ensures r.Some? ==> forall q :: from <= q < r.value ==> !OccursAt(lines, block, q)
    ensures r.None? ==> forall q :: from <= q ==> !OccursAt(lines, block, q)
    decreases |lines| + 1 - from
  {
    if from + |block| > |lines| then None
    else if OccursAt(lines, block, from) then Some(from)
    else Leftmost(lines, block, from + 1)
  }

  function Place(lines: Lines, h: ParsedHunk): (r: Option<nat>)
    ensures r.Some? ==> OccursAt(lines, h.oldOrdered, r.value)
  {
    if OccursAt(lines, h.oldOrdered, h.oldStart - 1) then Some(h.oldStart - 1)
    else Leftmost(lines, h.oldOrdered, 0)
  }

  function Splice(lines: Lines, pos: nat, count: nat, insert: Lines): Lines
    requires pos + count <= |lines|
  {
    lines[..pos] + insert + lines[pos + count..]
  }

  function ApplyHunk(lines: Lines, h: ParsedHunk): LinesOutcome {
    match Place(lines, h)
    case None => Mismatch(h.oldStart)
    case Some(pos) => Spliced(Splice(lines, pos, |h.oldOrdered|, h.newOrdered))
  }

  function ApplyAll(lines: Lines, hunks: seq<ParsedHunk>): LinesOutcome
    decreases |hunks|
  {
    if hunks == [] then Spliced(lines)
    else
      match ApplyHunk(lines, hunks[0])
      case Mismatch(s) => Mismatch(s)
      case Spliced(ls) => ApplyAll(ls, hunks[1..])
  }

  // ----- the order of application -----

  function StartOf(h: ParsedHunk): int {
    h.oldStart
  }

  /** The hunks with larger starts first, so that lower ones still see the original text. */
  function SortDescending(hunks: seq<ParsedHunk>): seq<ParsedHunk> {
    StableSort.Sort(StartOf, hunks)
  }

  /** Sorting reorders the hunks by start and keeps the diff's order among equal starts. */
  lemma {:induction false} SortedByStart(hunks: seq<ParsedHunk>, start: int)
    ensures StableSort.Descending(StartOf, SortDescending(hunks)) && multiset(SortDescending(hunks)) == multiset(hunks)
    ensures StableSort.WithKey(StartOf, SortDescending(hunks), start) == StableSort.WithKey(StartOf, hunks, start)
  {
    StableSort.SortIsStable(StartOf, hunks, start);
  }

  // ----- the applier -----

  function ApplyParsed(base: string, hunks: seq<ParsedHunk>): ApplyOutcome {
    match ApplyAll(SplitLines(base), SortDescending(hunks))
    case Mismatch(s) => Rejected("context mismatch", Some(s))
    case Spliced(lines) => Applied(JoinLines(lines, EndsWith(base, '\n')))
  }

  function Apply(base: string, diff: string): ApplyOutcome {
    match Parse(diff)
    case Malformed(reason, hunk) => Rejected(reason, hunk)
    case Parsed(hunks) => if hunks == [] then Rejected("no hunks found", None) else ApplyParsed(base, hunks)
  }

  /** The comparison loop: does `block` stand at `pos`? */
  method MatchesAt(lines: Lines, block: Lines, pos: nat) returns (isMatch: bool)
    requires pos + |block| <= |lines|
    ensures isMatch <==> OccursAt(lines, block, pos)
  {
    isMatch := true;
    var k := 0;
    while k < |block|
      invariant 0 <= k <= |block|
      invariant isMatch
      invariant forall j :: 0 <= j < k ==> lines[pos + j] == block[j]
    {
      if lines[pos + k] != block[k] {
        isMatch := false;
        assert lines[pos..pos + |block|][k] != block[k];
        break;
      }
      k := k + 1;
    }
  }

  /** The stated line if the old lines stand there, else a scan from the top. */
  method FindPlace(lines: Lines, h: ParsedHunk) returns (place: Option<nat>)
    requires h.WellCounted()
    ensures place == Place(lines, h)
  {
    var stated := h.oldStart - 1;
    if stated >= 0 && stated + h.oldCount <= |lines| {
      var isMatch := MatchesAt(lines, h.oldOrdered, stated);
      if isMatch {
        return Some(stated);
      }
    }
    var i := 0;
    while i <= |lines| - h.oldCount
      invariant 0 <= i
      invariant Leftmost(lines, h.oldOrdered, i) == Leftmost(lines, h.oldOrdered, 0)
    {
      var isMatch := MatchesAt(lines, h.oldOrdered, i);
      if isMatch {
        return Some(i);
      }
      i := i + 1;
    }
    return None;
  }

  /** The applier's loop over the sorted hunks computes `Apply`. */
  method ApplyUnifiedDiff(base: string, diff: string) returns (r: ApplyOutcome)
    ensures r == Apply(base, diff)
  {
    hide SplitLines, JoinLines, SortDescending, Place, Parse;
    var parsed := ParseUnifiedHunks(diff);
    if parsed.Malformed? {
      return Rejected(parsed.reason, parsed.hunk);
    }
    if |parsed.hunks| == 0 {
      return Rejected("no hunks found", None);
    }
    ParsedAreWellCounted(diff);
    var lines := SplitLines(base);
    var ordered := SortDescending(parsed.hunks);
    SortedByStart(parsed.hunks, 0);
    assert ordered[0..] == ordered;
    var i := 0;
    while i < |ordered|
      invariant 0 <= i <= |ordered|
      invariant ApplyAll(lines, ordered[i..]) == ApplyAll(SplitLines(base), ordered)
    {
      var hunk := ordered[i];
      assert hunk in multiset(ordered);
      assert hunk in parsed.hunks;
      assert ordered[i..][1..] == ordered[i + 1..];
      var place := FindPlace(lines, hunk);
      if place.None? {
        return Rejected("context mismatch", Some(hunk.oldStart));
      }
      var pos := place.value;
      lines := lines[..pos] + hunk.newOrdered + lines[pos + hunk.oldCount..];
      i := i + 1;
    }
    r := Applied(JoinLines(lines, EndsWith(base, '\n')));
  }

  lemma {:induction false} ParsedAreWellCounted(diff: string)
    ensures Parse(diff).Parsed? ==> forall h :: h in Parse(diff).hunks ==> h.WellCounted()
  {
    ParsedHunksAreWellCounted(Split(CrlfToLf(diff)), []);
  }

  // ----- what one hunk does -----

  /** The occurrence a hunk goes for: the stated one if its old lines stand there, else the first. */
  ghost predicate IsChosen(lines: Lines, h: ParsedHunk, pos: nat) {
    OccursAt(lines, h.oldOrdered, pos)
    && (pos == h.oldStart - 1
        || (!OccursAt(lines, h.oldOrdered, h.oldStart - 1)
            && forall q :: 0 <= q < pos ==> !OccursAt(lines, h.oldOrdered, q)))
  }

  lemma {:induction false} SingleHunkApplies(lines: Lines, h: ParsedHunk)
    ensures ApplyHunk(lines, h).Spliced? <==> exists pos :: OccursAt(lines, h.oldOrdered, pos)
    ensures forall pos: nat :: IsChosen(lines, h, pos) ==>
      ApplyHunk(lines, h) == Spliced(Splice(lines, pos, |h.oldOrdered|, h.newOrdered))
  {
    if Place(lines, h).Some? {
      assert OccursAt(lines, h.oldOrdered, Place(lines, h).value);
    }
  }

  lemma {:induction false} ApplyOne(lines: Lines, h: ParsedHunk)
    ensures ApplyAll(lines, SortDescending([h])) == ApplyHunk(lines, h)
  {
    assert SortDescending([h]) == [h] by { assert StableSort.Sort(StartOf, [h][1..]) == []; }
    hide SortDescending;
    var one := ApplyHunk(lines, h);
    if one.Spliced? {
      assert ApplyAll(one.lines, [h][1..]) == Spliced(one.lines);
    }
  }

  /**
   A one-hunk diff applies to a text if and only if its old lines stand somewhere in the text's
   lines, and what it replaces is the chosen occurrence and nothing else.
   */
  lemma {:induction false} SingleHunkDiff(base: string, diff: string, h: ParsedHunk)
    requires Parse(diff) == Parsed([h])
    ensures Apply(base, diff).Applied? <==> exists pos :: OccursAt(SplitLines(base), h.oldOrdered, pos)
    ensures forall pos: nat :: IsChosen(SplitLines(base), h, pos) ==>
      Apply(base, diff)
      == Applied(JoinLines(Splice(SplitLines(base), pos, |h.oldOrdered|, h.newOrdered), EndsWith(base, '\n')))
    ensures !Apply(base, diff).Applied? ==> Apply(base, diff) == Rejected("context mismatch", Some(h.oldStart))
  {
    hide Parse, SplitLines, JoinLines, SortDescending, EndsWith, Splice;
    ApplyOne(SplitLines(base), h);
    SingleHunkApplies(SplitLines(base), h);
  }

  function LineDelta(hunks: seq<ParsedHunk>): int {
    if hunks == [] then 0 else hunks[0].newCount - hunks[0].oldCount + LineDelta(hunks[1..])
  }

  /** Wherever hunks were relocated, success changes the line count by the declared counts. */
  lemma {:induction false} LineCountChange(lines: Lines, hunks: seq<ParsedHunk>)
    requires forall h :: h in hunks ==> h.WellCounted()
    ensures ApplyAll(lines, hunks).Spliced? ==> |ApplyAll(lines, hunks).lines| == |lines| + LineDelta(hunks)
    decreases |hunks|
  {
    if hunks != [] {
      var one := ApplyHunk(lines, hunks[0]);
      assert hunks[0] in hunks;
      if one.Spliced? {
        LineCountChange(one.lines, hunks[1..]);
      }
    }
  }

  lemma {:induction false} InsertKeepsDelta(h: ParsedHunk, sorted: seq<ParsedHunk>)
    ensures LineDelta(StableSort.Insert(StartOf, h, sorted)) == h.newCount - h.oldCount + LineDelta(sorted)
  {
    var inserted := StableSort.Insert(StartOf, h, sorted);
    if sorted == [] || StartOf(h) >= StartOf(sorted[0]) {
      assert inserted[1..] == sorted;
    } else {
      InsertKeepsDelta(h, sorted[1..]);
      assert inserted[1..] == StableSort.Insert(StartOf, h, sorted[1..]);
    }
  }

  lemma {:induction false} SortKeepsDelta(hunks: seq<ParsedHunk>)
    ensures LineDelta(SortDescending(hunks)) == LineDelta(hunks)
  {
    if hunks != [] {
      SortKeepsDelta(hunks[1..]);
      InsertKeepsDelta(hunks[0], SortDescending(hunks[1..]));
    }
  }

  lemma {:induction false} SortKeepsMembers(hunks: seq<ParsedHunk>)
    ensures forall h :: h in SortDescending(hunks) ==> h in hunks
  {
    SortedByStart(hunks, 0);
    hide SortDescending;
    forall h | h in SortDescending(hunks) ensures h in hunks {
      assert h in multiset(SortDescending(hunks));
    }
  }

  lemma {:induction false} ApplyAllKeepsLines(lines: Lines, hunks: seq<ParsedHunk>)
    requires NoBreaks(lines) && forall h :: h in hunks ==> NoBreaks(h.newOrdered)
    ensures ApplyAll(lines, hunks).Spliced? ==> NoBreaks(ApplyAll(lines, hunks).lines)
    decreases |hunks|
  {
    if hunks != [] {
      var one := ApplyHunk(lines, hunks[0]);
      assert hunks[0] in hunks;
      if one.Spliced? {
        ApplyAllKeepsLines(one.lines, hunks[1..]);
      }
    }
  }

  /** The lines of a text hold no newline; with the final newline they hold as many as the text does. */
  lemma {:induction false} SplitLinesCount(text: string)
    ensures NoBreaks(SplitLines(text))
    ensures text != "" ==>
      Newlines(text) == |SplitLines(text)| - 1 + (if EndsWith(text, '\n') then 1 else 0)
  {
    if text != "" {
      var lines := Split(CrlfToLf(text));
      CrlfToLfKeepsNewlines(text);
      CrlfToLfKeepsEnd(text);
      EndsWithNewline(CrlfToLf(text));
      JoinSplit(CrlfToLf(text));
      NewlinesOfJoin(lines);
    }
  }

  lemma {:induction false} JoinLinesCount(lines: Lines, trailingNewline: bool)
    requires NoBreaks(lines) && lines != []
    ensures Newlines(JoinLines(lines, trailingNewline)) == |lines| - 1 + (if trailingNewline then 1 else 0)
  {
    NewlinesOfJoin(lines);
    NewlinesOfSum(Join(lines), "\n");
  }

  /**
   For a whole diff and file: a successful application changes the number of newlines in the
   file by exactly what the diff's headers declare, wherever its hunks were relocated. (A file
   without lines, before or after, has no newline to count from.)
   */
  lemma {:induction false} DiffChangesLineCount(base: string, diff: string)
    requires Apply(base, diff).Applied?
    ensures Parse(diff).Parsed?
    ensures var delta := LineDelta(Parse(diff).hunks);
      && |SplitLines(base)| + delta >= 0
      && (base != "" && |SplitLines(base)| + delta > 0 ==> Newlines(Apply(base, diff).content) == Newlines(base) + delta)
  {
    hide Parse, SplitLines, JoinLines, EndsWith, SortDescending, LineDelta, ApplyAll, NoBreaks;
    var hunks := Parse(diff).hunks;
    ParsedAreWellCounted(diff);
    ParsedHaveNoBreaks(diff);
    SortKeepsMembers(hunks);
    SortKeepsDelta(hunks);
    LineCountChange(SplitLines(base), SortDescending(hunks));
    SplitLinesCount(base);
    ApplyAllKeepsLines(SplitLines(base), SortDescending(hunks));
    var lines := ApplyAll(SplitLines(base), SortDescending(hunks)).lines;
    assert Apply(base, diff).content == JoinLines(lines, EndsWith(base, '\n'));
    if lines != [] {
      JoinLinesCount(lines, EndsWith(base, '\n'));
    }
  }

  lemma {:induction false} ParsedHaveNoBreaks(diff: string)
    ensures Parse(diff).Parsed? ==> forall h :: h in Parse(diff).hunks ==> NoBreaks(h.newOrdered)
  {
    HunksHaveNoBreaks(Split(CrlfToLf(diff)), []);
  }

  // ----- newline style -----

  /** The result does not depend on the base's newline style, so it can follow at most one. */
  lemma {:induction false} ApplyIgnoresNewlineStyle(one: string, other: string, diff: string)
    requires CrlfToLf(one) == CrlfToLf(other)
    ensures Apply(one, diff) == Apply(other, diff)
  {
    hide Parse, SortDescending, ApplyAll, Split, JoinLines;
    if one != "" {
      CrlfToLfKeepsEnd(one);
    }
    if other != "" {
      CrlfToLfKeepsEnd(other);
    }
    hide EndsWith;
    assert SplitLines(one) == SplitLines(other);
  }

  predicate ChangesNothing(hunks: seq<ParsedHunk>) {
    forall h :: h in hunks ==> h.newOrdered == h.oldOrdered
  }

  lemma {:induction false} NothingSpliced(lines: Lines, hunks: seq<ParsedHunk>)
    requires ChangesNothing(hunks) && ApplyAll(lines, hunks).Spliced?
    ensures ApplyAll(lines, hunks).lines == lines
    decreases |hunks|
  {
    if hunks != [] {
      var h, pos := hunks[0], Place(lines, hunks[0]).value;
      assert h in hunks;
      assert lines == lines[..pos] + lines[pos..pos + |h.oldOrdered|] + lines[pos + |h.oldOrdered|..];
      NothingSpliced(lines, hunks[1..]);
    }
  }

  lemma {:induction false} JoinSplitLines(text: string)
    ensures JoinLines(SplitLines(text), EndsWith(text, '\n')) == CrlfToLf(text)
  {
    if text != "" {
      var lines := Split(CrlfToLf(text));
      CrlfToLfKeepsEnd(text);
      EndsWithNewline(CrlfToLf(text));
      JoinSplit(CrlfToLf(text));
      if lines[|lines| - 1] == "" {
        assert lines == lines[..|lines| - 1] + [""];
        JoinSnocEmpty(lines[..|lines| - 1]);
      }
    }
  }

  /**
   When the base's newline style is kept, exactly: a diff whose hunks change nothing gives the base
   back if and only if the base has no CRLF; all of them become LF.
   */
  lemma {:induction false} NewlineStyleKeptIff(base: string, diff: string)
    requires Parse(diff).Parsed? && ChangesNothing(Parse(diff).hunks) && Apply(base, diff).Applied?
    ensures Apply(base, diff).content == CrlfToLf(base)
    ensures Apply(base, diff).content == base <==> !HasCrlf(base)
  {
    hide Parse, SplitLines, JoinLines, EndsWith, SortDescending, ApplyAll, HasCrlf, CrlfToLf;
    var hunks := Parse(diff).hunks;
    SortKeepsMembers(hunks);
    NothingSpliced(SplitLines(base), SortDescending(hunks));
    JoinSplitLines(base);
    CrlfToLfShortens(base);
    if !HasCrlf(base) {
      CrlfToLfNoPair(base);
    }
  }
}
