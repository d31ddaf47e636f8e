/**
 The unified diff format: hunk headers, the hunk parser, and the rendering of hunks
 as diff lines that the parser reads back.
 */
module UnifiedDiff {
  import opened Text
  import Decimal

  /** The two ranges of an `@@ -a,b +c,d @@` line. */
  datatype Header = Header(oldStart: nat, oldCount: nat, newStart: nat, newCount: nat)

  datatype ParsedHunk = ParsedHunk(
    oldStart: nat, oldCount: nat, newStart: nat, newCount: nat,
    oldOrdered: seq<string>, newOrdered: seq<string>)
  {
    predicate WellCounted() {
      |oldOrdered| == oldCount && |newOrdered| == newCount
    }
  }

  datatype ParseResult =
    | Parsed(hunks: seq<ParsedHunk>)
    | Malformed(reason: string, hunk: Option<nat>)

  // ----- header lines -----

  datatype Range = Range(start: nat, count: nat, rest: string)

  /** `(\d+)(?:,(\d+))?` at the front of `s`; a missing count is 1. */
  function ParseRange(s: string): Option<Range> {
    var n := Decimal.Span(s);
    if n == 0 then None
    else
      var start, after := Decimal.Value(s[..n]), s[n..];
      if "," <= after && Decimal.Span(after[1..]) > 0 then
        var m := Decimal.Span(after[1..]);
        Some(Range(start, Decimal.Value(after[1..][..m]), after[1..][m..]))
      else Some(Range(start, 1, after))
  }

  /** The regular expression `^@@ -(\d+)(?:,(\d+))? \+(\d+)(?:,(\d+))? @@`. */
  function ParseHeader(line: string): Option<Header> {
    if !("@@ -" <= line) then None
    else
      match ParseRange(line[4..])
      case None => None
      case Some(from) =>
        if !(" +" <= from.rest) then None
        else
          match ParseRange(from.rest[2..])
          case None => None
          case Some(to) =>
            if " @@" <= to.rest then Some(Header(from.start, from.count, to.start, to.count)) else None
  }

  function RenderHeader(h: Header): string {
    "@@ -" + Decimal.Print(h.oldStart) + "," + Decimal.Print(h.oldCount)
    + " +" + Decimal.Print(h.newStart) + "," + Decimal.Print(h.newCount) + " @@"
  }

  lemma {:induction false} RangeRoundTrip(start: nat, count: nat, rest: string)
    requires rest != "" ==> !Decimal.IsDigit(rest[0])
    ensures ParseRange(Decimal.Print(start) + "," + Decimal.Print(count) + rest) == Some(Range(start, count, rest))
  {
    hide Decimal.Print, Decimal.Value, Decimal.Span;
    var a, b := Decimal.Print(start), Decimal.Print(count);
    assert a + "," + b + rest == a + ("," + (b + rest));
    Decimal.ReadsPrinted(start, "," + (b + rest));
    assert ("," + (b + rest))[1..] == b + rest;
    Decimal.ReadsPrinted(count, rest);
  }

  /** Every header that is printed is read back with the same four numbers. */
  lemma {:induction false} HeaderRoundTrip(h: Header)
    ensures ParseHeader(RenderHeader(h)) == Some(h)
  {
    var newPart := Decimal.Print(h.newStart) + "," + Decimal.Print(h.newCount) + " @@";
    var oldPart := Decimal.Print(h.oldStart) + "," + Decimal.Print(h.oldCount) + (" +" + newPart);
    assert RenderHeader(h) == "@@ -" + oldPart;
    assert RenderHeader(h)[4..] == oldPart;
    RangeRoundTrip(h.oldStart, h.oldCount, " +" + newPart);
    assert (" +" + newPart)[2..] == newPart;
    RangeRoundTrip(h.newStart, h.newCount, " @@");
  }

  // ----- the parser -----

  /** Lines the parser passes over between hunks. */
  predicate Skippable(line: string) {
    line == "" || "diff --git" <= line || "index " <= line || "---" <= line || "+++" <= line
  }

  /** Lines the parser passes over inside a hunk whose counts are not met yet. */
  predicate BodyNoise(line: string): (noise: bool)
    ensures !noise ==> line != ""
  {
    line == "" || "\\ No newline" <= line
  }

  datatype Body = Body(olds: seq<string>, news: seq<string>, rest: seq<string>)

  /** Collects body lines until both declared counts are reached or the input ends. */
  function ParseBody(raw: seq<string>, oldCount: nat, newCount: nat, olds: seq<string>, news: seq<string>): (b: Body)
    ensures |b.rest| <= |raw|
  {
    if raw == [] || (|olds| >= oldCount && |news| >= newCount) then Body(olds, news, raw)
    else
      var l := raw[0];
      if BodyNoise(l) then ParseBody(raw[1..], oldCount, newCount, olds, news)
      else if l[0] == '-' then ParseBody(raw[1..], oldCount, newCount, olds + [l[1..]], news)
      else if l[0] == '+' then ParseBody(raw[1..], oldCount, newCount, olds, news + [l[1..]])
      else ParseBody(raw[1..], oldCount, newCount, olds + [l[1..]], news + [l[1..]])
  }

  function ParseFrom(raw: seq<string>, hunks: seq<ParsedHunk>): ParseResult
    decreases |raw|
  {
    if raw == [] then Parsed(hunks)
    else if Skippable(raw[0]) then ParseFrom(raw[1..], hunks)
    else
      match ParseHeader(raw[0])
      case None => Malformed("unexpected diff line: " + Cut(raw[0], 60), None)
      case Some(h) =>
        var b := ParseBody(raw[1..], h.oldCount, h.newCount, [], []);
        if |b.olds| != h.oldCount || |b.news| != h.newCount then
          Malformed("hunk counts do not match header", Some(|hunks| + 1))
        else
          ParseFrom(b.rest, hunks + [ParsedHunk(h.oldStart, h.oldCount, h.newStart, h.newCount, b.olds, b.news)])
  }

  function Parse(diff: string): ParseResult {
    ParseFrom(Split(CrlfToLf(diff)), [])
  }

  /** The inner loop: reads one hunk body from index `start` and stops at index `end`. */
  method ReadBody(rawLines: seq<string>, start: nat, oldCount: nat, newCount: nat)
      returns (oldOrdered: seq<string>, newOrdered: seq<string>, end: nat)
    requires start <= |rawLines|
    ensures start <= end <= |rawLines|
    ensures ParseBody(rawLines[start..], oldCount, newCount, [], []) == Body(oldOrdered, newOrdered, rawLines[end..])
  {
    hide BodyNoise;
    oldOrdered, newOrdered := [], [];
    var i := start;
    while i < |rawLines| && (|oldOrdered| < oldCount || |newOrdered| < newCount)
      invariant start <= i <= |rawLines|
      invariant ParseBody(rawLines[i..], oldCount, newCount, oldOrdered, newOrdered)
             == ParseBody(rawLines[start..], oldCount, newCount, [], [])
    {
      var l := rawLines[i];
      assert rawLines[i..][1..] == rawLines[i + 1..];
      i := i + 1;
      if BodyNoise(l) {
        continue;
      }
      if l[0] == '-' {
        oldOrdered := oldOrdered + [l[1..]];
      } else if l[0] == '+' {
        newOrdered := newOrdered + [l[1..]];
      } else {
        oldOrdered := oldOrdered + [l[1..]];
        newOrdered := newOrdered + [l[1..]];
      }
    }
    end := i;
  }

  /** The parser's loop over one running index computes `Parse`. */
  method ParseUnifiedHunks(diff: string) returns (r: ParseResult)
    ensures r == Parse(diff)
  {
    hide Skippable, ParseHeader, Split, CrlfToLf, ParseBody;
    var rawLines := Split(CrlfToLf(diff));
    var hunks: seq<ParsedHunk> := [];
    var i := 0;
    assert rawLines[0..] == rawLines;
    while i < |rawLines|
      invariant 0 <= i <= |rawLines|
      invariant ParseFrom(rawLines[i..], hunks) == Parse(diff)
    {
      var line := rawLines[i];
      assert rawLines[i..][1..] == rawLines[i + 1..];
      i := i + 1;
      if Skippable(line) {
        continue;
      }
      var header := ParseHeader(line);
      if header.None? {
        return Malformed("unexpected diff line: " + Cut(line, 60), None);
      }
      var h := header.value;
      var oldOrdered, newOrdered, end := ReadBody(rawLines, i, h.oldCount, h.newCount);
      i := end;
      if |oldOrdered| != h.oldCount || |newOrdered| != h.newCount {
        return Malformed("hunk counts do not match header", Some(|hunks| + 1));
      }
      hunks := hunks + [ParsedHunk(h.oldStart, h.oldCount, h.newStart, h.newCount, oldOrdered, newOrdered)];
    }
    r := Parsed(hunks);
  }

  /** Every hunk that comes out of the parser holds exactly as many lines as its header declares. */
  lemma {:induction false} ParsedHunksAreWellCounted(raw: seq<string>, hunks: seq<ParsedHunk>)
    requires forall h :: h in hunks ==> h.WellCounted()
    ensures ParseFrom(raw, hunks).Parsed? ==> forall h :: h in ParseFrom(raw, hunks).hunks ==> h.WellCounted()
    decreases |raw|
  {
    if raw != [] {
      if Skippable(raw[0]) {
        ParsedHunksAreWellCounted(raw[1..], hunks);
      } else if ParseHeader(raw[0]).Some? {
        var h := ParseHeader(raw[0]).value;
        var b := ParseBody(raw[1..], h.oldCount, h.newCount, [], []);
        if |b.olds| == h.oldCount && |b.news| == h.newCount {
          ParsedHunksAreWellCounted(
            b.rest, hunks + [ParsedHunk(h.oldStart, h.oldCount, h.newStart, h.newCount, b.olds, b.news)]);
        }
      }
    }
  }

  lemma {:induction false} BodyHasNoBreaks(
      raw: seq<string>, oldCount: nat, newCount: nat, olds: seq<string>, news: seq<string>)
    requires NoBreaks(raw) && NoBreaks(news)
    ensures var b := ParseBody(raw, oldCount, newCount, olds, news); NoBreaks(b.news) && NoBreaks(b.rest)
    decreases |raw|
  {
    if raw != [] && (|olds| < oldCount || |news| < newCount) {
      var l := raw[0];
      assert l in raw;
      if BodyNoise(l) {
        BodyHasNoBreaks(raw[1..], oldCount, newCount, olds, news);
      } else if l[0] == '-' {
        BodyHasNoBreaks(raw[1..], oldCount, newCount, olds + [l[1..]], news);
      } else if l[0] == '+' {
        BodyHasNoBreaks(raw[1..], oldCount, newCount, olds, news + [l[1..]]);
      } else {
        BodyHasNoBreaks(raw[1..], oldCount, newCount, olds + [l[1..]], news + [l[1..]]);
      }
    }
  }

  lemma {:induction false} HunksHaveNoBreaks(raw: seq<string>, hunks: seq<ParsedHunk>)
    requires NoBreaks(raw) && forall h :: h in hunks ==> NoBreaks(h.newOrdered)
    ensures ParseFrom(raw, hunks).Parsed? ==> forall h :: h in ParseFrom(raw, hunks).hunks ==> NoBreaks(h.newOrdered)
    decreases |raw|
  {
    hide NoBreaks, Skippable, ParseHeader;
    if raw != [] {
      assert NoBreaks(raw[1..]) by { TailHasNoBreaks(raw); }
      if Skippable(raw[0]) {
        HunksHaveNoBreaks(raw[1..], hunks);
      } else if ParseHeader(raw[0]).Some? {
        var h := ParseHeader(raw[0]).value;
        assert NoBreaks([]) by { EmptyHasNoBreaks(); }
        BodyHasNoBreaks(raw[1..], h.oldCount, h.newCount, [], []);
        var b := ParseBody(raw[1..], h.oldCount, h.newCount, [], []);
        if |b.olds| == h.oldCount && |b.news| == h.newCount {
          HunksHaveNoBreaks(
            b.rest, hunks + [ParsedHunk(h.oldStart, h.oldCount, h.newStart, h.newCount, b.olds, b.news)]);
        }
      }
    }
  }

  lemma {:induction false} TailHasNoBreaks(lines: seq<string>)
    requires lines != [] && NoBreaks(lines)
    ensures NoBreaks(lines[1..])
  {}

  lemma {:induction false} EmptyHasNoBreaks()
    ensures NoBreaks([])
  {}

  // ----- rendering -----

  datatype BodyLine = Context(text: string) | Removed(text: string) | Added(text: string) {
    function Render(): string {
      match this
      case Context(t) => " " + t
      case Removed(t) => "-" + t
      case Added(t) => "+" + t
    }

    function OldPart(): seq<string> {
      if Added? then [] else [text]
    }

    function NewPart(): seq<string> {
      if Removed? then [] else [text]
    }
  }

  /** A hunk before printing: where it starts on either side, and its tagged lines. */
  datatype Change = Change(oldStart: nat, newStart: nat, body: seq<BodyLine>) {
    function Lines(): seq<string> {
      [RenderHeader(Header(oldStart, |OldSide(body)|, newStart, |NewSide(body)|))] + RenderBody(body)
    }

    function ToHunk(): ParsedHunk {
      ParsedHunk(oldStart, |OldSide(body)|, newStart, |NewSide(body)|, OldSide(body), NewSide(body))
    }
  }

  function RenderBody(body: seq<BodyLine>): seq<string> {
    if body == [] then [] else [body[0].Render()] + RenderBody(body[1..])
  }

  /** The lines the body takes from the old file: context and removals. */
  function OldSide(body: seq<BodyLine>): seq<string> {
    if body == [] then [] else body[0].OldPart() + OldSide(body[1..])
  }

  /** The lines the body puts into the new file: context and additions. */
  function NewSide(body: seq<BodyLine>): seq<string> {
    if body == [] then [] else body[0].NewPart() + NewSide(body[1..])
  }

  function RenderChanges(changes: seq<Change>): seq<string> {
    if changes == [] then [] else changes[0].Lines() + RenderChanges(changes[1..])
  }

  function ToHunks(changes: seq<Change>): seq<ParsedHunk> {
    if changes == [] then [] else [changes[0].ToHunk()] + ToHunks(changes[1..])
  }

  lemma {:induction false} RenderedLineShape(b: BodyLine)
    ensures !BodyNoise(b.Render())
    ensures b.Render()[1..] == b.text
    ensures b.Render()[0] == match b case Context(_) => ' ' case Removed(_) => '-' case Added(_) => '+'
  {
    assert b.Render()[0] != '\\';
  }

  lemma {:induction false} ParseBodyStep(
      b: BodyLine, raw: seq<string>, oldCount: nat, newCount: nat, olds: seq<string>, news: seq<string>)
    requires |olds| < oldCount || |news| < newCount
    ensures ParseBody([b.Render()] + raw, oldCount, newCount, olds, news)
         == ParseBody(raw, oldCount, newCount, olds + b.OldPart(), news + b.NewPart())
  {
    hide BodyNoise, BodyLine.Render;
    RenderedLineShape(b);
    assert ([b.Render()] + raw)[1..] == raw;
    assert olds + [] == olds && news + [] == news;
  }

  lemma {:induction false} UnfoldBody(body: seq<BodyLine>)
    requires body != []
    ensures RenderBody(body) == [body[0].Render()] + RenderBody(body[1..])
    ensures OldSide(body) == body[0].OldPart() + OldSide(body[1..])
    ensures NewSide(body) == body[0].NewPart() + NewSide(body[1..])
  {}

  lemma {:induction false} ParseRenderedBody(
      body: seq<BodyLine>, tail: seq<string>, oldCount: nat, newCount: nat, olds: seq<string>, news: seq<string>)
    requires |olds| + |OldSide(body)| == oldCount && |news| + |NewSide(body)| == newCount
    ensures ParseBody(RenderBody(body) + tail, oldCount, newCount, olds, news)
         == Body(olds + OldSide(body), news + NewSide(body), tail)
    decreases |body|
  {
    hide BodyNoise, BodyLine.Render;
    if body == [] {
      assert RenderBody(body) + tail == tail;
      assert olds + [] == olds && news + [] == news;
    } else {
      hide ParseBody, RenderBody, OldSide, NewSide;
      UnfoldBody(body);
      var b, rest := body[0], body[1..];
      Associate([b.Render()], RenderBody(rest), tail);
      ParseBodyStep(b, RenderBody(rest) + tail, oldCount, newCount, olds, news);
      ParseRenderedBody(rest, tail, oldCount, newCount, olds + b.OldPart(), news + b.NewPart());
      Associate(olds, b.OldPart(), OldSide(rest));
      Associate(news, b.NewPart(), NewSide(rest));
    }
  }

  lemma {:induction false} RenderedHeaderShape(h: Header)
    ensures !Skippable(RenderHeader(h))
    ensures ParseHeader(RenderHeader(h)) == Some(h)
  {
    HeaderRoundTrip(h);
    assert RenderHeader(h)[0] == '@';
  }

  lemma {:induction false} ParseChangeStep(c: Change, raw: seq<string>, hunks: seq<ParsedHunk>)
    ensures ParseFrom(c.Lines() + raw, hunks) == ParseFrom(raw, hunks + [c.ToHunk()])
  {
    hide Skippable, ParseHeader, RenderHeader, ParseBody, RenderBody, OldSide, NewSide;
    var h := Header(c.oldStart, |OldSide(c.body)|, c.newStart, |NewSide(c.body)|);
    Associate([RenderHeader(h)], RenderBody(c.body), raw);
    assert ([RenderHeader(h)] + (RenderBody(c.body) + raw))[1..] == RenderBody(c.body) + raw;
    RenderedHeaderShape(h);
    ParseRenderedBody(c.body, raw, h.oldCount, h.newCount, [], []);
    assert [] + OldSide(c.body) == OldSide(c.body) && [] + NewSide(c.body) == NewSide(c.body);
  }

  /** Reading rendered changes continues with whatever follows them. */
  lemma {:induction false} ParseRenderedThen(changes: seq<Change>, tail: seq<string>, hunks: seq<ParsedHunk>)
    ensures ParseFrom(RenderChanges(changes) + tail, hunks) == ParseFrom(tail, hunks + ToHunks(changes))
    decreases |changes|
  {
    hide ParseFrom, Change.Lines, Change.ToHunk;
    if changes == [] {
      assert RenderChanges(changes) + tail == tail;
      assert hunks + ToHunks(changes) == hunks;
    } else {
      var c, rest := changes[0], changes[1..];
      Associate(c.Lines(), RenderChanges(rest), tail);
      ParseChangeStep(c, RenderChanges(rest) + tail, hunks);
      ParseRenderedThen(rest, tail, hunks + [c.ToHunk()]);
      Associate(hunks, [c.ToHunk()], ToHunks(rest));
    }
  }

  lemma {:induction false} ParseSkips(preamble: seq<string>, raw: seq<string>, hunks: seq<ParsedHunk>)
    requires forall l :: l in preamble ==> Skippable(l)
    ensures ParseFrom(preamble + raw, hunks) == ParseFrom(raw, hunks)
    decreases |preamble|
  {
    hide Skippable, ParseHeader;
    if preamble == [] {
      assert preamble + raw == raw;
    } else {
      ParseSkips(preamble[1..], raw, hunks);
      assert (preamble + raw)[1..] == preamble[1..] + raw;
    }
  }

  predicate CleanChanges(changes: seq<Change>) {
    forall c, b :: c in changes && b in c.body ==> CleanLine(b.text)
  }

  lemma {:induction false} RenderedBodyIsClean(body: seq<BodyLine>)
    requires forall b :: b in body ==> CleanLine(b.text)
    ensures CleanLines(RenderBody(body))
  {
    if body != [] {
      RenderedBodyIsClean(body[1..]);
      var l := body[0].Render();
      assert body[0] in body;
      assert l[1..] == body[0].text && l == [l[0]] + l[1..];
    }
  }

  lemma {:induction false} PrintedNumberIsClean(n: nat)
    ensures '\n' !in Decimal.Print(n)
  {
    assert Decimal.AllDigits(Decimal.Print(n));
  }

  lemma {:induction false} RenderedChangesAreClean(changes: seq<Change>)
    requires CleanChanges(changes)
    ensures CleanLines(RenderChanges(changes))
  {
    if changes != [] {
      var c := changes[0];
      assert c in changes;
      RenderedBodyIsClean(c.body);
      RenderedChangesAreClean(changes[1..]);
      PrintedNumberIsClean(c.oldStart);
      PrintedNumberIsClean(|OldSide(c.body)|);
      PrintedNumberIsClean(c.newStart);
      PrintedNumberIsClean(|NewSide(c.body)|);
    }
  }

  /**
   Printing and parsing are inverse on any number of hunks: whatever the lines look like
   (`---`, `+++`, `@@`, `\ No newline`, blank), the parsed hunks are the printed ones.
   */
  lemma {:induction false} PrintParse(preamble: seq<string>, changes: seq<Change>)
    requires |preamble| >= 1 && CleanLines(preamble) && CleanChanges(changes)
    requires forall l :: l in preamble ==> Skippable(l)
    ensures Parse(Join(preamble + RenderChanges(changes))) == Parsed(ToHunks(changes))
  {
    var raw := preamble + RenderChanges(changes);
    RenderedChangesAreClean(changes);
    CleanJoin(raw);
    SplitJoin(raw);
    ParseSkips(preamble, RenderChanges(changes), []);
    ParseRenderedThen(changes, [], []);
    assert RenderChanges(changes) + [] == RenderChanges(changes);
    assert [] + ToHunks(changes) == ToHunks(changes);
  }

  // ----- no-newline markers -----

  predicate IsMarker(line: string) {
    "\\ No newline" <= line && CleanLine(line)
  }

  function Unexpected(line: string): ParseResult {
    Malformed("unexpected diff line: " + Cut(line, 60), None)
  }

  /** `raw` with the marker put before line `k` wherever `gaps[k]` says so; the last gap is the end. */
  function Woven(raw: seq<string>, gaps: seq<bool>, marker: string): seq<string>
    requires |gaps| == |raw| + 1
  {
    (if gaps[0] then [marker] else []) + if raw == [] then [] else [raw[0]] + Woven(raw[1..], gaps[1..], marker)
  }

  /** Gap `k` of the rendered changes is behind a header and before that hunk's last body line. */
  predicate InsideBody(changes: seq<Change>, k: int) {
    changes != [] && (1 <= k <= |changes[0].body| || InsideBody(changes[1..], k - |changes[0].body| - 1))
  }

  predicate MarkersInside(changes: seq<Change>, gaps: seq<bool>, offset: nat) {
    forall k :: 0 <= k < |gaps| && gaps[k] ==> InsideBody(changes, k - offset)
  }

  lemma {:induction false} MarkerIsUnexpected(marker: string, rest: seq<string>, hunks: seq<ParsedHunk>)
    requires IsMarker(marker)
    ensures ParseFrom([marker] + rest, hunks) == Unexpected(marker)
  {
    assert marker[0] == '\\';
    assert !Skippable(marker) && ParseHeader(marker) == None;
  }

  lemma {:induction false} WovenStep(line: string, raw: seq<string>, gaps: seq<bool>, marker: string)
    requires |gaps| == |raw| + 2
    ensures Woven([line] + raw, gaps, marker)
         == (if gaps[0] then [marker] else []) + ([line] + Woven(raw, gaps[1..], marker))
  {
    assert ([line] + raw)[1..] == raw;
  }

  lemma {:induction false} ParseBodySkips(
      marker: string, raw: seq<string>, oldCount: nat, newCount: nat, olds: seq<string>, news: seq<string>)
    requires IsMarker(marker) && (|olds| < oldCount || |news| < newCount)
    ensures ParseBody([marker] + raw, oldCount, newCount, olds, news) == ParseBody(raw, oldCount, newCount, olds, news)
  {
    assert ([marker] + raw)[1..] == raw;
  }

  lemma {:induction false} RenderedLength(body: seq<BodyLine>)
    ensures |RenderBody(body)| == |body|
    ensures |body| > 0 ==> |OldSide(body)| + |NewSide(body)| > 0
  {
    if body != [] {
      RenderedLength(body[1..]);
    }
  }

  /** Markers before a body line are passed over; the body read is the one without them. */
  lemma {:induction false} ParseWovenBody(
      body: seq<BodyLine>, tail: seq<string>, gaps: seq<bool>, marker: string,
      oldCount: nat, newCount: nat, olds: seq<string>, news: seq<string>)
    requires IsMarker(marker) && |gaps| == |body| + |tail| + 1
    requires |olds| + |OldSide(body)| == oldCount && |news| + |NewSide(body)| == newCount
    ensures |RenderBody(body)| == |body|
    ensures ParseBody(Woven(RenderBody(body) + tail, gaps, marker), oldCount, newCount, olds, news)
         == Body(olds + OldSide(body), news + NewSide(body), Woven(tail, gaps[|body|..], marker))
    decreases |body|
  {
    hide BodyNoise, BodyLine.Render, IsMarker;
    RenderedLength(body);
    if body == [] {
      assert RenderBody(body) + tail == tail && gaps[0..] == gaps;
      assert olds + [] == olds && news + [] == news;
    } else {
      hide ParseBody, RenderBody, OldSide, NewSide, Woven;
      var b, rest := body[0], body[1..];
      UnfoldBody(body);
      RenderedLength(rest);
      Associate([b.Render()], RenderBody(rest), tail);
      WovenStep(b.Render(), RenderBody(rest) + tail, gaps, marker);
      var after := Woven(RenderBody(rest) + tail, gaps[1..], marker);
      if gaps[0] {
        ParseBodySkips(marker, [b.Render()] + after, oldCount, newCount, olds, news);
      } else {
        assert [] + ([b.Render()] + after) == [b.Render()] + after;
      }
      ParseBodyStep(b, after, oldCount, newCount, olds, news);
      ParseWovenBody(rest, tail, gaps[1..], marker, oldCount, newCount, olds + b.OldPart(), news + b.NewPart());
      assert gaps[1..][|rest|..] == gaps[|body|..];
      Associate(olds, b.OldPart(), OldSide(rest));
      Associate(news, b.NewPart(), NewSide(rest));
    }
  }

  lemma {:induction false} ParseWovenChange(
      c: Change, tail: seq<string>, gaps: seq<bool>, marker: string, hunks: seq<ParsedHunk>)
    requires IsMarker(marker) && |gaps| == |c.body| + |tail| + 2
    ensures |c.Lines()| == |c.body| + 1
    ensures ParseFrom(Woven(c.Lines() + tail, gaps, marker), hunks)
         == if gaps[0] then Unexpected(marker)
            else ParseFrom(Woven(tail, gaps[|c.body| + 1..], marker), hunks + [c.ToHunk()])
  {
    hide Skippable, ParseHeader, RenderHeader, ParseBody, RenderBody, OldSide, NewSide, Woven, IsMarker;
    var h := Header(c.oldStart, |OldSide(c.body)|, c.newStart, |NewSide(c.body)|);
    RenderedLength(c.body);
    Associate([RenderHeader(h)], RenderBody(c.body), tail);
    WovenStep(RenderHeader(h), RenderBody(c.body) + tail, gaps, marker);
    var after := Woven(RenderBody(c.body) + tail, gaps[1..], marker);
    if gaps[0] {
      MarkerIsUnexpected(marker, [RenderHeader(h)] + after, hunks);
    } else {
      assert [] + ([RenderHeader(h)] + after) == [RenderHeader(h)] + after;
      assert ([RenderHeader(h)] + after)[1..] == after;
      RenderedHeaderShape(h);
      ParseWovenBody(c.body, tail, gaps[1..], marker, h.oldCount, h.newCount, [], []);
      assert gaps[1..][|c.body|..] == gaps[|c.body| + 1..];
      assert [] + OldSide(c.body) == OldSide(c.body) && [] + NewSide(c.body) == NewSide(c.body);
    }
  }

  lemma {:induction false} NothingInsideBefore(changes: seq<Change>, k: int)
    requires k <= 0
    ensures !InsideBody(changes, k)
    decreases |changes|
  {
    if changes != [] {
      NothingInsideBefore(changes[1..], k - |changes[0].body| - 1);
    }
  }

  lemma {:induction false} MarkersInsideStep(changes: seq<Change>, gaps: seq<bool>)
    requires changes != [] && |gaps| > |changes[0].body|
    ensures MarkersInside(changes, gaps, 0)
       <==> !gaps[0] && MarkersInside(changes[1..], gaps[|changes[0].body| + 1..], 0)
  {
    var n, rest := |changes[0].body| + 1, changes[1..];
    var later := gaps[n..];
    NothingInsideBefore(changes, 0);
    forall k | 0 <= k < |gaps| ensures InsideBody(changes, k) <==> 1 <= k < n || (n <= k && InsideBody(rest, k - n)) {
      if k < n {
        NothingInsideBefore(rest, k - n);
      }
    }
    assert forall k :: 0 <= k < |later| ==> later[k] == gaps[k + n];
    if MarkersInside(changes, gaps, 0) {
      forall k | 0 <= k < |later| && later[k] ensures InsideBody(rest, k - 0) {
        assert gaps[k + n] && InsideBody(changes, k + n - 0);
      }
    }
    if !gaps[0] && MarkersInside(rest, later, 0) {
      forall k | 0 <= k < |gaps| && gaps[k] ensures InsideBody(changes, k - 0) {
        if n <= k {
          assert later[k - n] && InsideBody(rest, k - n - 0);
        }
      }
    }
  }

  lemma {:induction false} ParseWovenChanges(
      changes: seq<Change>, gaps: seq<bool>, marker: string, hunks: seq<ParsedHunk>)
    requires IsMarker(marker) && |gaps| == |RenderChanges(changes)| + 1
    ensures ParseFrom(Woven(RenderChanges(changes), gaps, marker), hunks)
         == if MarkersInside(changes, gaps, 0) then Parsed(hunks + ToHunks(changes)) else Unexpected(marker)
    decreases |changes|
  {
    if changes == [] {
      assert hunks + [] == hunks;
      if gaps[0] {
        assert !InsideBody(changes, 0 - 0);
        MarkerIsUnexpected(marker, [], hunks);
      }
    } else {
      var c, rest := changes[0], changes[1..];
      hide ParseFrom, Change.Lines, Change.ToHunk, Woven, IsMarker, MarkersInside;
      assert RenderChanges(changes) == c.Lines() + RenderChanges(rest);
      assert |c.Lines()| == |c.body| + 1 by { RenderedLength(c.body); LinesLength(c); }
      ParseWovenChange(c, RenderChanges(rest), gaps, marker, hunks);
      MarkersInsideStep(changes, gaps);
      if !gaps[0] {
        ParseWovenChanges(rest, gaps[|c.body| + 1..], marker, hunks + [c.ToHunk()]);
        Associate(hunks, [c.ToHunk()], ToHunks(rest));
      }
    }
  }

  lemma {:induction false} LinesLength(c: Change)
    ensures |c.Lines()| == |c.body| + 1
  {
    RenderedLength(c.body);
  }

  lemma {:induction false} ParseWovenDiff(
      preamble: seq<string>, changes: seq<Change>, gaps: seq<bool>, marker: string)
    requires IsMarker(marker) && |gaps| == |preamble| + |RenderChanges(changes)| + 1
    requires forall l :: l in preamble ==> Skippable(l)
    ensures ParseFrom(Woven(preamble + RenderChanges(changes), gaps, marker), [])
         == if MarkersInside(changes, gaps, |preamble|) then Parsed(ToHunks(changes)) else Unexpected(marker)
    decreases |preamble|
  {
    if preamble == [] {
      assert preamble + RenderChanges(changes) == RenderChanges(changes);
      assert [] + ToHunks(changes) == ToHunks(changes);
      ParseWovenChanges(changes, gaps, marker, []);
    } else {
      var l, rest := preamble[0], preamble[1..];
      hide Skippable, ParseHeader, RenderChanges, Woven, InsideBody, IsMarker, ToHunks;
      assert preamble + RenderChanges(changes) == [l] + (rest + RenderChanges(changes));
      WovenStep(l, rest + RenderChanges(changes), gaps, marker);
      var after := Woven(rest + RenderChanges(changes), gaps[1..], marker);
      if gaps[0] {
        NothingInsideBefore(changes, 0 - |preamble|);
        MarkerIsUnexpected(marker, [l] + after, []);
      } else {
        assert [] + ([l] + after) == [l] + after;
        assert ([l] + after)[1..] == after;
        ParseWovenDiff(rest, changes, gaps[1..], marker);
        MarkersInsideShift(changes, gaps, |preamble|);
      }
    }
  }

  lemma {:induction false} MarkersInsideShift(changes: seq<Change>, gaps: seq<bool>, offset: nat)
    requires gaps != [] && !gaps[0] && offset > 0
    ensures MarkersInside(changes, gaps, offset) <==> MarkersInside(changes, gaps[1..], offset - 1)
  {
    hide InsideBody;
    var later := gaps[1..];
    if MarkersInside(changes, gaps, offset) {
      forall k | 0 <= k < |later| && later[k] ensures InsideBody(changes, k - (offset - 1)) {
        assert gaps[k + 1] && InsideBody(changes, k + 1 - offset);
      }
    }
    if MarkersInside(changes, later, offset - 1) {
      forall k | 0 <= k < |gaps| && gaps[k] ensures InsideBody(changes, k - offset) {
        assert later[k - 1] && InsideBody(changes, k - 1 - (offset - 1));
      }
    }
  }

  lemma {:induction false} WovenIsClean(raw: seq<string>, gaps: seq<bool>, marker: string)
    requires |gaps| == |raw| + 1 && CleanLines(raw) && CleanLine(marker)
    ensures CleanLines(Woven(raw, gaps, marker)) && |Woven(raw, gaps, marker)| >= |raw|
  {
    hide CleanLine;
    if raw != [] {
      WovenIsClean(raw[1..], gaps[1..], marker);
    }
  }

  /**
   When no-newline markers are ignored, exactly. Put the marker into any of the gaps of a
   printed diff: if every marker stands behind a header and before that hunk's last body line,
   the parse is what it is without them; otherwise the whole diff is malformed.
   */
  lemma {:induction false} MarkersIgnoredExactly(
      preamble: seq<string>, changes: seq<Change>, gaps: seq<bool>, marker: string)
    requires |preamble| >= 1 && CleanLines(preamble) && CleanChanges(changes) && IsMarker(marker)
    requires forall l :: l in preamble ==> Skippable(l)
    requires |gaps| == |preamble + RenderChanges(changes)| + 1
    ensures Parse(Join(Woven(preamble + RenderChanges(changes), gaps, marker)))
         == if MarkersInside(changes, gaps, |preamble|) then Parsed(ToHunks(changes)) else Unexpected(marker)
  {
    hide Woven, MarkersInside, RenderChanges, CleanLine, Skippable, ToHunks, CleanChanges;
    var raw := preamble + RenderChanges(changes);
    RenderedChangesAreClean(changes);
    assert CleanLine(marker) by { MarkerIsClean(marker); }
    WovenIsClean(raw, gaps, marker);
    CleanJoin(Woven(raw, gaps, marker));
    CleanHasNoBreaks(Woven(raw, gaps, marker));
    SplitJoin(Woven(raw, gaps, marker));
    ParseWovenDiff(preamble, changes, gaps, marker);
  }

  lemma {:induction false} MarkerIsClean(marker: string)
    requires IsMarker(marker)
    ensures CleanLine(marker)
  {}

  lemma {:induction false} CleanHasNoBreaks(lines: seq<string>)
    requires CleanLines(lines)
    ensures NoBreaks(lines)
  {}

  /**
   In particular a marker behind the last counted line, where diff tools put it when the new
   file does not end in a newline, makes the diff malformed, whatever follows.
   */
  lemma {:induction false} MarkerAfterLastLineIsRejected(changes: seq<Change>, marker: string, tail: seq<string>)
    requires IsMarker(marker)
    ensures ParseFrom(RenderChanges(changes) + ([marker] + tail), []) == Unexpected(marker)
  {
    hide *;
    ParseRenderedThen(changes, [marker] + tail, []);
    MarkerIsUnexpected(marker, tail, [] + ToHunks(changes));
  }
}
