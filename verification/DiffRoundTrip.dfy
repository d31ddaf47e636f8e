/**
 The printer against the parser and the applier: when a printed snippet diff, applied to
 a text, gives the patched text back.
 */
module DiffRoundTrip {
  import opened Text
  import opened UnifiedDiff
  import opened ApplyDiff
  import B = DiffBuilder

  predicate Inputs(path: string, original: string, patched: string) {
    CleanLine(path) && CleanText(original) && CleanText(patched) && (original != "" || patched != "")
  }

  lemma {:induction false} CodeLinesJoin(code: string)
    ensures Join(B.CodeLines(code)) == code
    ensures code != "" ==> |B.CodeLines(code)| >= 1
  {
    JoinSplit(code);
  }

  // ----- the printed diff parses to one hunk -----

  function Hunk(orig: Lines, patched: Lines): ParsedHunk {
    B.ChangeOf(orig, patched).ToHunk()
  }

  lemma {:induction false} HunkShape(orig: Lines, patched: Lines)
    ensures var e, h := B.Trim(orig, patched), Hunk(orig, patched);
      && h.oldStart == B.BlockStart(e) + 1
      && h.oldOrdered == B.OldBlock(orig, e)
      && h.newOrdered == B.NewBlock(orig, patched, e)
  {
    hide B.BodyOf, B.OldBlock, B.NewBlock, OldSide, NewSide;
    B.BodySides(orig, patched, B.Trim(orig, patched));
  }

  lemma {:induction false} TaggedIsClean(tag: B.Tag, lines: Lines)
    requires CleanLines(lines)
    ensures forall b :: b in B.Tagged(tag, lines) ==> CleanLine(b.text)
  {
    if lines != [] {
      assert lines[0] in lines;
      TaggedIsClean(tag, lines[1..]);
    }
  }

  lemma {:induction false} ChangeIsClean(orig: Lines, patched: Lines)
    requires CleanLines(orig) && CleanLines(patched)
    ensures CleanChanges([B.ChangeOf(orig, patched)])
  {
    hide B.Tagged, CleanLine, B.Trim;
    var e := B.Trim(orig, patched);
    TaggedIsClean(B.Keep, orig[B.BlockStart(e)..e.prefix]);
    TaggedIsClean(B.Remove, orig[e.prefix..e.origEnd]);
    TaggedIsClean(B.Add, patched[e.prefix..e.patchEnd]);
    TaggedIsClean(B.Keep, orig[e.origEnd..B.BlockEnd(orig, e)]);
  }

  lemma {:induction false} NormalizedPathIsClean(path: string)
    requires CleanLine(path)
    ensures CleanLine(B.NormalizedPath(path))
  {
    if path != "" && path[0] == '/' {
      assert path == [path[0]] + path[1..];
      NormalizedPathIsClean(path[1..]);
    }
  }

  lemma {:induction false} PreambleIsClean(path: string)
    requires CleanLine(path)
    ensures |B.Preamble(path)| == 2 && CleanLines(B.Preamble(path)) && forall l :: l in B.Preamble(path) ==> Skippable(l)
  {
    NormalizedPathIsClean(path);
    var p := B.NormalizedPath(path);
    hide B.NormalizedPath;
    assert "---" <= "--- a/" + p && "+++" <= "+++ b/" + p;
    assert '\n' !in "--- a/" && '\n' !in "+++ b/";
    assert !EndsWith("--- a/" + p, '\r') && !EndsWith("+++ b/" + p, '\r');
  }

  lemma {:induction false} CodeLinesAreClean(code: string)
    requires CleanText(code)
    ensures CleanLines(B.CodeLines(code))
  {}

  /** Whatever the two texts contain, their printed diff parses to exactly the intended hunk. */
  lemma {:induction false} BuiltDiffParses(path: string, original: string, patched: string)
    requires Inputs(path, original, patched)
    ensures Parse(B.Build(path, original, patched))
         == Parsed([Hunk(B.CodeLines(original), B.CodeLines(patched))])
  {
    hide CleanText, CleanLine, CleanLines, CleanChanges, Parse, RenderChanges, B.Preamble, B.ChangeOf, Skippable;
    var o, p := B.CodeLines(original), B.CodeLines(patched);
    CodeLinesJoin(original);
    CodeLinesJoin(patched);
    CodeLinesAreClean(original);
    CodeLinesAreClean(patched);
    ChangeIsClean(o, p);
    PreambleIsClean(path);
    PrintParse(B.Preamble(path), [B.ChangeOf(o, p)]);
    assert ToHunks([B.ChangeOf(o, p)]) == [Hunk(o, p)] + ToHunks([]) == [Hunk(o, p)];
  }

  /** Applying a printed diff is splicing its one hunk. */
  lemma {:induction false} ApplyBuilt(path: string, original: string, patched: string, base: string)
    requires Inputs(path, original, patched)
    ensures Apply(base, B.Build(path, original, patched))
         == match ApplyHunk(SplitLines(base), Hunk(B.CodeLines(original), B.CodeLines(patched)))
            case Mismatch(s) => Rejected("context mismatch", Some(s))
            case Spliced(lines) => Applied(JoinLines(lines, EndsWith(base, '\n')))
  {
    hide Parse, SplitLines, JoinLines, ApplyHunk, B.Build, Hunk, SortDescending, Inputs;
    var h := Hunk(B.CodeLines(original), B.CodeLines(patched));
    BuiltDiffParses(path, original, patched);
    ApplyOne(SplitLines(base), h);
  }

  // ----- the text the hunk was cut from -----

  /** The patched lines are the original with the old block replaced by the new one. */
  lemma {:induction false} BlocksRebuild(orig: Lines, patched: Lines)
    ensures var e := B.Trim(orig, patched);
      var s, t := B.BlockStart(e), B.BlockEnd(orig, e);
      && orig[..s] + B.OldBlock(orig, e) + orig[t..] == orig
      && orig[..s] + B.NewBlock(orig, patched, e) + orig[t..] == patched
  {
    hide B.Trim, B.IsTrimmed, B.BlockStart, B.BlockEnd;
    var e := B.Trim(orig, patched);
    var s, t := B.BlockStart(e), B.BlockEnd(orig, e);
    SliceJoins(orig, 0, s, e.prefix);
    SliceJoins(orig, e.origEnd, t, |orig|);
    assert orig[t..] == orig[t..|orig|] && orig[e.origEnd..] == orig[e.origEnd..|orig|];
    var middle := patched[e.prefix..e.patchEnd];
    Surround(orig[..s], orig[s..e.prefix], middle, orig[e.origEnd..t], orig[t..]);
    assert patched == patched[..e.prefix] + middle + patched[e.patchEnd..];
    SliceJoins(orig, 0, s, t);
    SliceJoins(orig, 0, t, |orig|);
  }

  lemma {:induction false} Surround<T>(a: seq<T>, b: seq<T>, m: seq<T>, c: seq<T>, d: seq<T>)
    ensures a + (b + m + c) + d == (a + b) + m + (c + d)
  {}

  /** What the applier cuts the original into: without the phantom line behind a final newline. */
  lemma {:induction false} RealLines(original: string)
    requires CleanText(original) && original != ""
    ensures var o := B.CodeLines(original);
      if EndsWith(original, '\n') then |o| >= 2 && o == SplitLines(original) + [""]
      else SplitLines(original) == o
  {
    CleanTextUnchanged(original);
    EndsWithNewline(original);
    var o := Split(original);
    assert o == o[..|o| - 1] + [o[|o| - 1]];
  }

  /** The hunk shows the phantom line exactly when fewer than three real lines follow the change. */
  predicate ShowsPhantom(original: string, patched: string) {
    var o := B.CodeLines(original);
    EndsWith(original, '\n') && |o| - B.Trim(o, B.CodeLines(patched)).origEnd <= 3
  }

  lemma {:induction false} AppliesAtStatedLine(before: Lines, after: Lines, h: ParsedHunk)
    requires h.oldStart == |before| + 1
    ensures ApplyHunk(before + h.oldOrdered + after, h) == Spliced(before + h.newOrdered + after)
  {
    var lines, n := before + h.oldOrdered + after, |before| + |h.oldOrdered|;
    assert lines[|before|..n] == h.oldOrdered;
    assert lines[..|before|] == before && lines[n..] == after;
  }

  lemma {:induction false} CodeLinesNotOneBlank(code: string)
    ensures B.CodeLines(code) != [""]
  {
    CodeLinesJoin(code);
  }

  /** Adding back the phantom line is adding back the final newline. */
  lemma {:induction false} JoinWithPhantom(lines: Lines, code: string)
    requires B.CodeLines(code) == lines + [""]
    ensures JoinLines(lines, true) == code
  {
    CodeLinesJoin(code);
    CodeLinesNotOneBlank(code);
    assert lines == [] ==> lines + [""] == [""];
    JoinSnocEmpty(lines);
  }

  lemma {:induction false} CutLastOfSum<T>(whole: seq<T>, front: seq<T>, last: T, a: seq<T>, t: nat)
    requires whole == front + [last] && t < |whole| && whole == a + whole[t..]
    ensures front == a + front[t..] && whole[t..] == front[t..] + [last]
  {
    assert |a| == t;
    assert a == whole[..t] == front[..t];
  }

  /** Without the phantom line in the hunk the round trip is character for character. */
  lemma {:induction false} RoundTripAtStatedLine(path: string, original: string, patched: string)
    requires Inputs(path, original, patched) && !ShowsPhantom(original, patched)
    ensures Apply(original, B.Build(path, original, patched)) == Applied(patched)
  {
    var o, p := B.CodeLines(original), B.CodeLines(patched);
    var e := B.Trim(o, p);
    var s, t := B.BlockStart(e), B.BlockEnd(o, e);
    var h, lines := Hunk(o, p), SplitLines(original);
    CodeLinesJoin(patched);
    ApplyBuilt(path, original, patched, original);
    HunkShape(o, p);
    BlocksRebuild(o, p);
    assert EndsWith(original, '\n') ==> t < |o|;
    if original != "" {
      RealLines(original);
    }
    hide B.Trim, B.BlockStart, B.BlockEnd, Hunk, SplitLines, B.CodeLines, Apply, B.Build, B.OldBlock, B.NewBlock,
      Join, CleanText, ApplyHunk;
    if EndsWith(original, '\n') {
      CutLastOfSum(o, lines, "", o[..s] + h.oldOrdered, t);
      AppliesAtStatedLine(o[..s], lines[t..], h);
      Associate(o[..s] + h.newOrdered, lines[t..], [""]);
      JoinWithPhantom(o[..s] + h.newOrdered + lines[t..], patched);
    } else {
      AppliesAtStatedLine(o[..s], o[t..], h);
    }
  }

  // ----- the phantom line in the hunk -----

  /**
   Moving the block from line `start` up to line `i` goes unnoticed: from `i` on the patched
   lines repeat with period `start - i`, and both texts end in the same period.
   */
  predicate Slides(orig: Lines, patched: Lines, i: nat, start: nat) {
    var k := start - i;
    && 0 < k <= |orig| && k <= |patched|
    && (forall j :: i <= j < |patched| - k ==> patched[j] == patched[j + k])
    && orig[|orig| - k..] == patched[|patched| - k..]
  }

  /** When the round trip survives, in terms of the two texts alone. */
  predicate Survives(original: string, patched: string) {
    var o, p := B.CodeLines(original), B.CodeLines(patched);
    var e := B.Trim(o, p);
    !ShowsPhantom(original, patched)
    || (match Leftmost(SplitLines(original), B.OldBlock(o, e), 0)
        case None => false
        case Some(i) => Slides(o, p, i, B.BlockStart(e)))
  }

  lemma {:induction false} SlideIffPointwise(o: Lines, p: Lines, q: Lines, i: nat, s: nat)
    requires i < s && s - i <= |o| && s <= |p| && |q| == |p|
    requires q[..i] == p[..i]
    requires forall j :: i <= j < |p| - (s - i) ==> q[j] == p[j + (s - i)]
    requires q[|p| - (s - i)..] == o[|o| - (s - i)..]
    ensures q == p <==> Slides(o, p, i, s)
  {
    var m := |p| - (s - i);
    if Slides(o, p, i, s) {
      forall j | 0 <= j < |p| ensures q[j] == p[j] {
        if j < i {
          B.CommonPrefixAt(q, p, i, j);
        } else if j >= m {
          B.CommonSuffixAt(q, p, m, m, j - m);
        }
      }
    }
  }

  lemma {:induction false} SlidPoints(o: Lines, news: Lines, i: nat, s: nat)
    requires i < s <= |o|
    ensures var p, q := o[..s] + news, o[..i] + news + o[|o| - (s - i)..];
      && |q| == |p| && q[..i] == p[..i]
      && (forall j :: i <= j < |p| - (s - i) ==> q[j] == p[j + (s - i)])
      && q[|p| - (s - i)..] == o[|o| - (s - i)..]
  {
    assert |o[..i] + news| == |o[..s] + news| - (s - i);
    assert (o[..s] + news)[..i] == o[..s][..i] == o[..i];
  }

  lemma {:induction false} SlideIff(o: Lines, news: Lines, i: nat, s: nat)
    requires i < s <= |o|
    ensures var p := o[..s] + news;
      (o[..i] + news + o[|o| - (s - i)..] == p) <==> Slides(o, p, i, s)
  {
    SlidPoints(o, news, i, s);
    SlideIffPointwise(o, o[..s] + news, o[..i] + news + o[|o| - (s - i)..], i, s);
  }

  lemma {:induction false} PartsAreClean(o: Lines, news: Lines, p: Lines, i: nat, j: nat)
    requires CleanLines(o) && CleanLines(p) && i <= |o| && j <= |o| && (forall l :: l in news ==> l in p)
    ensures CleanLines(o[..i] + news + o[j..])
  {
    hide CleanLine;
  }

  lemma {:induction false} PhantomJoins(lines: Lines, code: string)
    requires CleanLines(lines) && |B.CodeLines(code)| == |lines| + 1
    ensures JoinLines(lines, true) == code <==> B.CodeLines(code) == lines + [""]
  {
    if B.CodeLines(code) == lines + [""] {
      JoinWithPhantom(lines, code);
    }
    if JoinLines(lines, true) == code {
      SplitPrefix("", "");
      assert "" + "\n" + "" == "\n";
      assert lines == [] ==> code == "\n";
      JoinSnocEmpty(lines);
      SplitJoin(lines + [""]);
    }
  }

  /** With the phantom line shown, the hunk's block is everything from its start on. */
  lemma {:induction false} PhantomBlocks(original: string, patched: string)
    requires CleanText(original) && ShowsPhantom(original, patched)
    ensures var o, p := B.CodeLines(original), B.CodeLines(patched);
      var e := B.Trim(o, p);
      var s := B.BlockStart(e);
      && o == SplitLines(original) + [""]
      && s < |o|
      && B.OldBlock(o, e) == o[s..]
      && p == o[..s] + B.NewBlock(o, p, e)
      && forall l :: l in B.NewBlock(o, p, e) ==> l in p
  {
    var o, p := B.CodeLines(original), B.CodeLines(patched);
    var e := B.Trim(o, p);
    assert B.BlockEnd(o, e) == |o| && B.BlockStart(e) <= e.prefix;
    BlocksRebuild(o, p);
    RealLines(original);
    hide B.Trim, SplitLines, B.CodeLines, B.NewBlock, B.BlockStart, B.BlockEnd, ShowsPhantom;
    assert o[|o|..] == [];
    var head := o[..B.BlockStart(e)] + B.NewBlock(o, p, e);
    assert head + [] == head;
  }

  /** The stated place is then out of reach; the block can only move up. */
  lemma {:induction false} PhantomPlace(lines: Lines, h: ParsedHunk, o: Lines)
    requires o == lines + [""] && 1 <= h.oldStart <= |o| && h.oldOrdered == o[h.oldStart - 1..]
    ensures Place(lines, h) == Leftmost(lines, h.oldOrdered, 0)
    ensures Place(lines, h).Some? ==> Place(lines, h).value < h.oldStart - 1
  {
    hide Leftmost;
  }

  lemma {:induction false} SplicedWithPhantom(whole: Lines, front: Lines, news: Lines, i: nat, count: nat)
    requires whole == front + [""] && i + count <= |front|
    ensures Splice(front, i, count, news) + [""] == whole[..i] + news + whole[i + count..]
  {
    assert front[..i] == whole[..i];
    assert front[i + count..] + [""] == whole[i + count..];
    Associate(front[..i] + news, front[i + count..], [""]);
  }

  /** The result of a moved phantom block is the patched text exactly if the move goes unnoticed. */
  lemma {:induction false} MovedBlock(o: Lines, lines: Lines, news: Lines, s: nat, i: nat, patched: string)
    requires o == lines + [""] && i < s < |o| && i + |o| - s <= |lines|
    requires var p := B.CodeLines(patched); p == o[..s] + news && forall l :: l in news ==> l in p
    requires CleanLines(o) && CleanLines(B.CodeLines(patched))
    ensures JoinLines(Splice(lines, i, |o| - s, news), true) == patched <==> Slides(o, B.CodeLines(patched), i, s)
  {
    hide B.CodeLines, Slides, CleanLines, JoinLines;
    SlideIff(o, news, i, s);
    SplicedWithPhantom(o, lines, news, i, |o| - s);
    hide Splice;
    var result := Splice(lines, i, |o| - s, news);
    PartsAreClean(o, news, B.CodeLines(patched), i, i + |o| - s);
    FrontIsClean(result, "");
    PhantomJoins(result, patched);
  }

  lemma {:induction false} FrontIsClean(lines: Lines, last: string)
    requires CleanLines(lines + [last])
    ensures CleanLines(lines)
  {
    hide CleanLine;
    assert forall l :: l in lines ==> l in lines + [last];
  }

  lemma {:induction false} MovedHunk(o: Lines, lines: Lines, h: ParsedHunk, patched: string)
    requires o == lines + [""] && 1 <= h.oldStart <= |o| && h.oldOrdered == o[h.oldStart - 1..]
    requires var p := B.CodeLines(patched);
      p == o[..h.oldStart - 1] + h.newOrdered && forall l :: l in h.newOrdered ==> l in p
    requires CleanLines(o) && CleanLines(B.CodeLines(patched))
    ensures (match ApplyHunk(lines, h) case Mismatch(_) => false case Spliced(ls) => JoinLines(ls, true) == patched)
       <==> (match Leftmost(lines, h.oldOrdered, 0)
             case None => false
             case Some(i) => Slides(o, B.CodeLines(patched), i, h.oldStart - 1))
  {
    hide Slides, JoinLines, Leftmost, CleanLines, Splice, B.CodeLines;
    PhantomPlace(lines, h, o);
    var place := Place(lines, h);
    hide Place;
    if place.Some? {
      MovedBlock(o, lines, h.newOrdered, h.oldStart - 1, place.value, patched);
    }
  }

  lemma {:induction false} RoundTripWithPhantom(path: string, original: string, patched: string)
    requires Inputs(path, original, patched) && ShowsPhantom(original, patched)
    ensures Apply(original, B.Build(path, original, patched)) == Applied(patched) <==> Survives(original, patched)
  {
    var o, p := B.CodeLines(original), B.CodeLines(patched);
    assert EndsWith(original, '\n');
    ApplyBuilt(path, original, patched, original);
    PhantomBlocks(original, patched);
    HunkShape(o, p);
    CodeLinesAreClean(original);
    CodeLinesAreClean(patched);
    hide B.Trim, B.IsEdit, B.IsTrimmed, SplitLines, B.CodeLines, Hunk, B.NewBlock, B.OldBlock, B.BlockStart, B.BlockEnd,
      Slides, CleanText, JoinLines, Leftmost, Apply, B.Build, CleanLines, ApplyHunk, EndsWith;
    MovedHunk(o, SplitLines(original), Hunk(o, p), patched);
  }

  /**
   Main theorem. On texts without a carriage return at a line end, not both empty, applying
   the printed diff to the original returns the patched text if and only if either the hunk
   does not show the phantom line, or its block happens to occur higher up and sliding it
   there cannot be noticed.
   */
  lemma {:induction false} RoundTripExactly(path: string, original: string, patched: string)
    requires Inputs(path, original, patched)
    ensures Apply(original, B.Build(path, original, patched)) == Applied(patched) <==> Survives(original, patched)
  {
    if ShowsPhantom(original, patched) {
      RoundTripWithPhantom(path, original, patched);
    } else {
      RoundTripAtStatedLine(path, original, patched);
    }
  }

  /** The same for all texts without a carriage return; without a final newline nothing else is asked. */
  lemma {:induction false} PlainTextRoundTrip(path: string, original: string, patched: string)
    requires '\r' !in path && '\n' !in path && '\r' !in original && '\r' !in patched
    requires original != "" || patched != ""
    ensures Apply(original, B.Build(path, original, patched)) == Applied(patched) <==> Survives(original, patched)
    ensures !EndsWith(original, '\n') ==> Apply(original, B.Build(path, original, patched)) == Applied(patched)
  {
    NoCarriageReturnIsClean(original);
    NoCarriageReturnIsClean(patched);
    hide Apply, B.Build, B.CodeLines, CleanText;
    RoundTripExactly(path, original, patched);
  }

  lemma {:induction false} PeriodReachesBack(o: Lines, p: Lines, lines: Lines, i: nat, s: nat, n: nat)
    requires Slides(o, p, i, s) && i < s <= n < |o| && n < |p|
    requires o == lines + [""] && OccursAt(lines, o[s..], i)
    requires o[..n] == p[..n]
    ensures o[n] == p[n]
  {
    var back := n - (s - i);
    assert o[s..][n - s] == o[n];
    assert lines[i..i + |o[s..]|][n - s] == lines[back] == o[back];
    B.CommonPrefixAt(o, p, n, back);
    assert p[back] == p[back + (s - i)];
  }

  lemma {:induction false} SlideMeansPrefix(o: Lines, p: Lines, lines: Lines, h: ParsedHunk, n: nat)
    requires o == lines + [""] && 1 <= h.oldStart <= |o| && h.oldOrdered == o[h.oldStart - 1..] && h.oldStart - 1 <= n
    requires match Leftmost(lines, h.oldOrdered, 0) case None => false case Some(i) => Slides(o, p, i, h.oldStart - 1)
    requires n <= |o| && n <= |p| && o[..n] == p[..n]
    requires n == |o| ==> o <= p
    requires n == |p| ==> p <= o
    requires n < |o| && n < |p| ==> o[n] != p[n]
    ensures o <= p || p <= o
  {
    PhantomPlace(lines, h, o);
    var i := Place(lines, h).value;
    hide Place, Leftmost, Slides;
    if n < |o| && n < |p| {
      PeriodReachesBack(o, p, lines, i, h.oldStart - 1, n);
    }
  }

  /** The surviving phantom case is narrow: one text only appends lines to, or cuts lines from, the other. */
  lemma {:induction false} SurvivingPhantomIsAppendOrCut(original: string, patched: string)
    requires CleanText(original) && ShowsPhantom(original, patched) && Survives(original, patched)
    ensures var o, p := B.CodeLines(original), B.CodeLines(patched); o <= p || p <= o
  {
    hide *;
    var o, p := B.CodeLines(original), B.CodeLines(patched);
    SurvivalNeedsSlide(original, patched);
    PhantomBlocks(original, patched);
    HunkShape(o, p);
    B.PrefixStops(o, p);
    SlideMeansPrefix(o, p, SplitLines(original), Hunk(o, p), B.Trim(o, p).prefix);
  }

  lemma {:induction false} SurvivalNeedsSlide(original: string, patched: string)
    requires ShowsPhantom(original, patched) && Survives(original, patched)
    ensures var o, p := B.CodeLines(original), B.CodeLines(patched);
      match Leftmost(SplitLines(original), B.OldBlock(o, B.Trim(o, p)), 0)
      case None => false
      case Some(i) => Slides(o, p, i, B.BlockStart(B.Trim(o, p)))
  {
    hide ShowsPhantom, B.CodeLines, SplitLines, B.OldBlock, Leftmost, Slides, B.BlockStart, B.Trim;
  }

  /**
   A newline-terminated original that is changed near its end, other than by appending or
   cutting lines, never survives.
   */
  lemma {:induction false} ChangeNearFinalNewlineIsLost(path: string, original: string, patched: string)
    requires Inputs(path, original, patched) && ShowsPhantom(original, patched)
    requires var o, p := B.CodeLines(original), B.CodeLines(patched); !(o <= p) && !(p <= o)
    ensures Apply(original, B.Build(path, original, patched)) != Applied(patched)
  {
    RoundTripExactly(path, original, patched);
    if Survives(original, patched) {
      SurvivingPhantomIsAppendOrCut(original, patched);
    }
  }

  /** If moreover the block starts at the first line, there is nowhere to move it and the diff is refused. */
  lemma {:induction false} ShortNewlineTerminatedIsRejected(path: string, original: string, patched: string)
    requires Inputs(path, original, patched) && ShowsPhantom(original, patched)
    requires B.Trim(B.CodeLines(original), B.CodeLines(patched)).prefix <= 3
    ensures Apply(original, B.Build(path, original, patched)) == Rejected("context mismatch", Some(1))
  {
    var o, p := B.CodeLines(original), B.CodeLines(patched);
    PhantomBlocks(original, patched);
    HunkShape(o, p);
    ApplyBuilt(path, original, patched, original);
    hide Apply, B.Build, B.Trim, SplitLines, B.CodeLines, Hunk, Leftmost, B.OldBlock;
    PhantomPlace(SplitLines(original), Hunk(o, p), o);
  }

  /** Two empty texts print to an empty diff, which has no hunks. */
  lemma {:induction false} BothEmptyIsRejected(path: string, base: string)
    ensures Apply(base, B.Build(path, "", "")) == Rejected("no hunks found", None)
  {
    assert Split("") == [""] && CrlfToLf("") == "";
    assert ParseFrom([""][1..], []) == Parsed([]);
  }

  /** The smallest kind of failing input: two newline-terminated lines, the second one changed. */
  lemma {:induction false} TwoLineFileIsRejected()
    ensures Apply("a\nb\n", B.Build("f", "a\nb\n", "a\nc\n")) == Rejected("context mismatch", Some(1))
  {
    hide Apply, B.Build, B.Trim, Split;
    TwoLines("a", "b");
    TwoLines("a", "c");
    assert "a" + "\n" + "b" + "\n" == "a\nb\n" && "a" + "\n" + "c" + "\n" == "a\nc\n";
    ShortNewlineTerminatedIsRejected("f", "a\nb\n", "a\nc\n");
  }

  lemma {:induction false} TwoLines(first: string, second: string)
    requires CleanLine(first) && CleanLine(second)
    ensures Split(first + "\n" + second + "\n") == [first, second, ""]
  {
    SplitPrefix(first, second + "\n");
    SplitPrefix(second, "");
    Associate(first + "\n", second, "\n");
    assert second + "\n" + "" == second + "\n";
  }

  // ----- a snippet inside a larger file -----

  /** Where the only occurrence is, the hunk goes, whatever line its header states. */
  lemma {:induction false} UniqueOccurrenceIsReplaced(lines: Lines, before: Lines, after: Lines, h: ParsedHunk)
    requires lines == before + h.oldOrdered + after
    requires forall q :: OccursAt(lines, h.oldOrdered, q) ==> q == |before|
    ensures ApplyHunk(lines, h) == Spliced(before + h.newOrdered + after)
  {
    var n := |before| + |h.oldOrdered|;
    assert lines[|before|..n] == h.oldOrdered;
    assert OccursAt(lines, h.oldOrdered, |before|);
    assert Place(lines, h) == Some(|before|);
    assert lines[..|before|] == before && lines[n..] == after;
  }

  lemma {:induction false} SnippetInFile(o: Lines, p: Lines, above: Lines, below: Lines, m: nat)
    requires B.BlockEnd(o, B.Trim(o, p)) <= m <= |o|
    ensures var e := B.Trim(o, p);
      var s, t := B.BlockStart(e), B.BlockEnd(o, e);
      && |o| - m <= |p|
      && above + o[..m] + below == (above + o[..s]) + B.OldBlock(o, e) + (o[t..m] + below)
      && above + p[..|p| - (|o| - m)] + below == (above + o[..s]) + B.NewBlock(o, p, e) + (o[t..m] + below)
  {
    BlocksRebuild(o, p);
    var e := B.Trim(o, p);
    var s, t := B.BlockStart(e), B.BlockEnd(o, e);
    var olds, news := B.OldBlock(o, e), B.NewBlock(o, p, e);
    hide B.Trim, B.IsEdit, B.IsTrimmed, B.BlockStart, B.BlockEnd, B.OldBlock, B.NewBlock;
    SliceJoins(o, t, m, |o|);
    assert o[t..] == o[t..|o|];
    CutTail(o[..s] + olds, o[t..m], o[m..|o|]);
    CutTail(o[..s] + news, o[t..m], o[m..|o|]);
    Surround(above, o[..s], olds, o[t..m], below);
    Surround(above, o[..s], news, o[t..m], below);
    Associate(above, o[..s] + olds, o[t..m]);
    Surround(above, o[..s], news, o[t..m], below);
  }

  lemma {:induction false} CutTail<T>(a: seq<T>, b: seq<T>, c: seq<T>)
    ensures |a + (b + c)| == |a| + |b| + |c|
    ensures (a + (b + c))[..|a| + |b|] == a + b
  {}

  lemma {:induction false} SnippetHunkRelocates(o: Lines, p: Lines, lines: Lines, above: Lines, below: Lines, m: nat)
    requires B.BlockEnd(o, B.Trim(o, p)) <= m <= |o| && lines == above + o[..m] + below
    requires var e := B.Trim(o, p);
      forall q :: OccursAt(lines, B.OldBlock(o, e), q) ==> q == |above| + B.BlockStart(e)
    ensures |o| - m <= |p|
    ensures ApplyHunk(lines, Hunk(o, p)) == Spliced(above + p[..|p| - (|o| - m)] + below)
  {
    var e := B.Trim(o, p);
    var s, t := B.BlockStart(e), B.BlockEnd(o, e);
    HunkShape(o, p);
    SnippetInFile(o, p, above, below, m);
    hide B.Trim, B.IsEdit, B.IsTrimmed, Hunk, B.OldBlock, B.NewBlock, B.BlockEnd, B.BlockStart, ApplyHunk, OccursAt;
    assert |above + o[..s]| == |above| + s;
    UniqueOccurrenceIsReplaced(lines, above + o[..s], o[t..m] + below, Hunk(o, p));
  }

  /**
   Relocation. If a file holds the snippet's lines between `above` and `below`, at least down
   to where the hunk's block ends, and the block occurs nowhere else, then the snippet's diff
   turns exactly those lines into the replacement's and keeps the file's final newline, although
   its header counts lines from the top of the snippet.
   */
  lemma {:induction false} SnippetDiffRelocates(
      path: string, snippet: string, replacement: string, file: string, above: Lines, below: Lines, m: nat)
    requires Inputs(path, snippet, replacement)
    requires var o, p := B.CodeLines(snippet), B.CodeLines(replacement);
      var e := B.Trim(o, p);
      && B.BlockEnd(o, e) <= m <= |o|
      && SplitLines(file) == above + o[..m] + below
      && forall q :: OccursAt(SplitLines(file), B.OldBlock(o, e), q) ==> q == |above| + B.BlockStart(e)
    ensures var o, p := B.CodeLines(snippet), B.CodeLines(replacement);
      && |o| - m <= |p|
      && Apply(file, B.Build(path, snippet, replacement))
         == Applied(JoinLines(above + p[..|p| - (|o| - m)] + below, EndsWith(file, '\n')))
  {
    hide B.Trim, B.IsEdit, B.IsTrimmed, B.CodeLines, B.Build, Apply, Hunk, B.OldBlock, B.NewBlock, B.BlockEnd, SplitLines,
      JoinLines, ApplyHunk, B.BlockStart, Inputs, EndsWith, OccursAt;
    ApplyBuilt(path, snippet, replacement, file);
    SnippetHunkRelocates(B.CodeLines(snippet), B.CodeLines(replacement), SplitLines(file), above, below, m);
  }
}
