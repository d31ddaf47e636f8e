/**
 What a diff text has to look like, said without the parser: headers as text patterns, segments
 that hold exactly their declared counts, and skippable lines between them. The parser accepts
 exactly such texts, and says where any other one goes wrong.
 */
module DiffGrammar {
  import opened Text
  import opened UnifiedDiff
  import opened ApplyDiff
  import Decimal

  // ----- header lines -----

  predicate Numeral(s: string, n: nat) {
    s != "" && Decimal.AllDigits(s) && Decimal.Value(s) == n
  }

  /** `start,count`, or `start` alone for a count of 1. */
  ghost predicate RangeText(s: string, start: nat, count: nat) {
    (Numeral(s, start) && count == 1)
    || exists a, b :: s == a + "," + b && Numeral(a, start) && Numeral(b, count)
  }

  /** `@@ -range +range @@` and anything behind it. */
  ghost predicate IsHeader(line: string, h: Header) {
    exists from, to, tail :: HeaderText(line, h, from, to, tail)
  }

  ghost predicate HeaderText(line: string, h: Header, from: string, to: string, tail: string) {
    && line == "@@ -" + (from + (" +" + (to + (" @@" + tail))))
    && RangeText(from, h.oldStart, h.oldCount) && RangeText(to, h.newStart, h.newCount)
  }

  lemma {:induction false} NumeralSpan(digits: string, n: nat, rest: string)
    requires Numeral(digits, n) && (rest != "" ==> !Decimal.IsDigit(rest[0]))
    ensures Decimal.Span(digits + rest) == |digits| && (digits + rest)[..|digits|] == digits
    ensures (digits + rest)[|digits|..] == rest
  {
    Decimal.SpanOfRun(digits, rest);
  }

  lemma {:induction false} RangeReads(s: string, start: nat, count: nat, rest: string)
    requires RangeText(s, start, count) && rest != "" && rest[0] == ' '
    ensures ParseRange(s + rest) == Some(Range(start, count, rest))
  {
    hide Decimal.Span, Decimal.Value;
    if Numeral(s, start) && count == 1 {
      NumeralSpan(s, start, rest);
    } else {
      var a, b :| s == a + "," + b && Numeral(a, start) && Numeral(b, count);
      assert s + rest == a + ("," + (b + rest));
      NumeralSpan(a, start, "," + (b + rest));
      assert ("," + (b + rest))[1..] == b + rest;
      NumeralSpan(b, count, rest);
    }
  }

  lemma {:induction false} RangeIsText(s: string) returns (range: string)
    requires ParseRange(s).Some?
    ensures var r := ParseRange(s).value; s == range + r.rest && RangeText(range, r.start, r.count)
  {
    hide Decimal.Value;
    var n := Decimal.Span(s);
    var a, after := s[..n], s[n..];
    assert Numeral(a, Decimal.Value(a));
    if "," <= after && Decimal.Span(after[1..]) > 0 {
      var b := after[1..][..Decimal.Span(after[1..])];
      assert Numeral(b, Decimal.Value(b));
      range := a + "," + b;
      assert after == "," + after[1..];
      assert after[1..] == b + after[1..][|b|..];
    } else {
      range := a;
    }
  }

  lemma {:induction false} TailAfter(prefix: string, rest: string)
    ensures prefix <= prefix + rest && (prefix + rest)[|prefix|..] == rest
  {}

  lemma {:induction false} HeaderReads(line: string, h: Header)
    requires IsHeader(line, h)
    ensures ParseHeader(line) == Some(h)
  {
    hide ParseRange, RangeText;
    var from, to, tail :| HeaderText(line, h, from, to, tail);
    TailAfter("@@ -", from + (" +" + (to + (" @@" + tail))));
    RangeReads(from, h.oldStart, h.oldCount, " +" + (to + (" @@" + tail)));
    TailAfter(" +", to + (" @@" + tail));
    RangeReads(to, h.newStart, h.newCount, " @@" + tail);
    TailAfter(" @@", tail);
  }

  lemma {:induction false} HeaderIsText(line: string)
    requires ParseHeader(line).Some?
    ensures IsHeader(line, ParseHeader(line).value)
  {
    hide ParseRange, RangeText;
    var from := RangeIsText(line[4..]);
    var r := ParseRange(line[4..]).value;
    var to := RangeIsText(r.rest[2..]);
    var q := ParseRange(r.rest[2..]).value;
    var tail := q.rest[3..];
    assert line == "@@ -" + line[4..] && r.rest == " +" + r.rest[2..] && q.rest == " @@" + tail;
    assert HeaderText(line, ParseHeader(line).value, from, to, tail);
  }

  /** The header pattern, exactly: it reads these four numbers from the lines of this form and from no others. */
  lemma {:induction false} HeaderExactly(line: string, h: Header)
    ensures ParseHeader(line) == Some(h) <==> IsHeader(line, h)
  {
    hide ParseHeader, IsHeader;
    if IsHeader(line, h) {
      HeaderReads(line, h);
    }
    if ParseHeader(line) == Some(h) {
      HeaderIsText(line);
    }
  }

  // ----- the lines of a hunk -----

  /** Blank lines and no-newline markers count for neither side. */
  predicate IsNoise(line: string) {
    |line| == 0 || "\\ No newline" <= line
  }

  /** What a line adds to the old side: all but additions, without the first character. */
  function OldLine(line: string): Lines {
    if IsNoise(line) || line[0] == '+' then [] else [line[1..]]
  }

  function NewLine(line: string): Lines {
    if IsNoise(line) || line[0] == '-' then [] else [line[1..]]
  }

  function OldLines(body: Lines): Lines {
    if body == [] then [] else OldLine(body[0]) + OldLines(body[1..])
  }

  function NewLines(body: Lines): Lines {
    if body == [] then [] else NewLine(body[0]) + NewLines(body[1..])
  }

  predicate Reaches(body: Lines, oldCount: nat, newCount: nat) {
    |OldLines(body)| >= oldCount && |NewLines(body)| >= newCount
  }

  /** The body holds exactly the declared lines and ends with the one that completes them. */
  ghost predicate Complete(body: Lines, h: Header) {
    && |OldLines(body)| == h.oldCount && |NewLines(body)| == h.newCount
    && forall k :: 0 <= k < |body| ==> !Reaches(body[..k], h.oldCount, h.newCount)
  }

  // ----- whole diffs -----

  /** What may stand between hunks: nothing, file headers and the two git lines. */
  predicate IsBetween(line: string) {
    |line| == 0 || (exists p :: p in ["diff --git", "index ", "---", "+++"] && p <= line)
  }

  datatype Piece = Between(line: string) | Segment(line: string, header: Header, body: Lines) {
    function Text(): Lines {
      if Between? then [line] else [line] + body
    }

    ghost predicate Good() {
      if Between? then IsBetween(line) else !IsBetween(line) && IsHeader(line, header) && Complete(body, header)
    }

    function Hunks(): seq<ParsedHunk> {
      if Between? then []
      else [ParsedHunk(header.oldStart, header.oldCount, header.newStart, header.newCount, OldLines(body), NewLines(body))]
    }
  }

  function TextOf(pieces: seq<Piece>): Lines {
    if pieces == [] then [] else pieces[0].Text() + TextOf(pieces[1..])
  }

  function HunksOf(pieces: seq<Piece>): seq<ParsedHunk> {
    if pieces == [] then [] else pieces[0].Hunks() + HunksOf(pieces[1..])
  }

  ghost predicate AllGood(pieces: seq<Piece>) {
    forall p :: p in pieces ==> p.Good()
  }

  /** The rest starts with a line that is neither skippable nor a header. */
  ghost predicate StrayLine(rest: Lines) {
    rest != [] && !IsBetween(rest[0]) && forall h :: !IsHeader(rest[0], h)
  }

  /** The rest starts with a header whose counts no body behind it meets. */
  ghost predicate Miscounted(rest: Lines) {
    rest != [] && !IsBetween(rest[0])
    && exists h :: IsHeader(rest[0], h) && forall k :: 0 <= k <= |rest| - 1 ==> !Complete(rest[1..][..k], h)
  }

  // ----- the parser against the grammar -----

  lemma {:induction false} BetweenExactly(line: string)
    ensures Skippable(line) <==> IsBetween(line)
  {
    var prefixes := ["diff --git", "index ", "---", "+++"];
    assert prefixes[0] in prefixes && prefixes[1] in prefixes && prefixes[2] in prefixes && prefixes[3] in prefixes;
  }

  /** Where the parser stops in a body: at the first place that reaches both counts, or at the end. */
  lemma {:induction false} BodySplits(raw: Lines, oldCount: nat, newCount: nat, olds: Lines, news: Lines)
      returns (n: nat)
    ensures n <= |raw|
    ensures var b := ParseBody(raw, oldCount, newCount, olds, news);
      b == Body(olds + OldLines(raw[..n]), news + NewLines(raw[..n]), raw[n..])
    ensures forall k :: 0 <= k < n ==> |olds| + |OldLines(raw[..k])| < oldCount || |news| + |NewLines(raw[..k])| < newCount
    ensures n < |raw| ==> |olds| + |OldLines(raw[..n])| >= oldCount && |news| + |NewLines(raw[..n])| >= newCount
    decreases |raw|
  {
    if raw == [] || (|olds| >= oldCount && |news| >= newCount) {
      n := 0;
      assert raw[..0] == [] && raw[0..] == raw && olds + [] == olds && news + [] == news;
    } else {
      var l, rest := raw[0], raw[1..];
      var o, w := OldLine(l), NewLine(l);
      ParseBodyTakes(l, rest, oldCount, newCount, olds, news);
      assert raw == [l] + rest;
      var m := BodySplits(rest, oldCount, newCount, olds + o, news + w);
      n := m + 1;
      hide ParseBody, OldLine, NewLine;
      forall k | 0 < k <= n ensures OldLines(raw[..k]) == o + OldLines(rest[..k - 1]) && NewLines(raw[..k]) == w + NewLines(rest[..k - 1]) {
        assert raw[..k][1..] == rest[..k - 1] && raw[..k][0] == l;
      }
      assert raw[n..] == rest[m..];
      Associate(olds, o, OldLines(rest[..m]));
      Associate(news, w, NewLines(rest[..m]));
      assert raw[..0] == [];
    }
  }

  lemma {:induction false} ParseBodyTakes(
      l: string, rest: Lines, oldCount: nat, newCount: nat, olds: Lines, news: Lines)
    requires |olds| < oldCount || |news| < newCount
    ensures ParseBody([l] + rest, oldCount, newCount, olds, news)
         == ParseBody(rest, oldCount, newCount, olds + OldLine(l), news + NewLine(l))
  {
    assert ([l] + rest)[1..] == rest;
    assert olds + [] == olds && news + [] == news;
  }

  lemma {:induction false} OnlyOneComplete(raw: Lines, h: Header, k: nat, n: nat)
    requires k <= |raw| && n <= |raw| && Complete(raw[..k], h)
    requires forall j :: 0 <= j < n ==> !Reaches(raw[..j], h.oldCount, h.newCount)
    requires n < |raw| ==> Reaches(raw[..n], h.oldCount, h.newCount)
    ensures k == n
  {
    assert Reaches(raw[..k], h.oldCount, h.newCount);
    assert forall j :: 0 <= j <= k ==> raw[..k][..j] == raw[..j];
  }

  /** A body that is complete is exactly what the parser takes, whatever follows. */
  lemma {:induction false} CompleteIsTaken(body: Lines, rest: Lines, h: Header)
    requires Complete(body, h)
    ensures ParseBody(body + rest, h.oldCount, h.newCount, [], []) == Body(OldLines(body), NewLines(body), rest)
  {
    hide ParseBody, OldLines, NewLines;
    var raw := body + rest;
    var n := BodySplits(raw, h.oldCount, h.newCount, [], []);
    assert raw[..|body|] == body && raw[|body|..] == rest;
    OnlyOneComplete(raw, h, |body|, n);
    assert [] + OldLines(body) == OldLines(body) && [] + NewLines(body) == NewLines(body);
  }

  /** Without one, the parser comes out with other counts than declared. */
  lemma {:induction false} IncompleteIsNoticed(raw: Lines, h: Header)
    requires forall k :: 0 <= k <= |raw| ==> !Complete(raw[..k], h)
    ensures var b := ParseBody(raw, h.oldCount, h.newCount, [], []);
      |b.olds| != h.oldCount || |b.news| != h.newCount
  {
    hide ParseBody, OldLines, NewLines;
    var n := BodySplits(raw, h.oldCount, h.newCount, [], []);
    assert !Complete(raw[..n], h);
    forall k | 0 <= k < n ensures !Reaches(raw[..n][..k], h.oldCount, h.newCount) {
      assert raw[..n][..k] == raw[..k];
    }
  }

  lemma {:induction false} ParsePiece(p: Piece, rest: Lines, hunks: seq<ParsedHunk>)
    requires p.Good()
    ensures ParseFrom(p.Text() + rest, hunks) == ParseFrom(rest, hunks + p.Hunks())
  {
    hide Skippable, ParseHeader, ParseBody, IsHeader, IsBetween, Complete, OldLines, NewLines;
    BetweenExactly(p.line);
    if p.Between? {
      assert (p.Text() + rest)[1..] == rest && hunks + [] == hunks;
    } else {
      HeaderExactly(p.line, p.header);
      assert (p.Text() + rest)[1..] == p.body + rest;
      CompleteIsTaken(p.body, rest, p.header);
      assert |OldLines(p.body)| == p.header.oldCount && |NewLines(p.body)| == p.header.newCount by {
        CompleteCounts(p.body, p.header);
      }
    }
  }

  lemma {:induction false} CompleteCounts(body: Lines, h: Header)
    requires Complete(body, h)
    ensures |OldLines(body)| == h.oldCount && |NewLines(body)| == h.newCount
  {}

  lemma {:induction false} ParsePieces(pieces: seq<Piece>, rest: Lines, hunks: seq<ParsedHunk>)
    requires AllGood(pieces)
    ensures ParseFrom(TextOf(pieces) + rest, hunks) == ParseFrom(rest, hunks + HunksOf(pieces))
    decreases |pieces|
  {
    hide ParseFrom, Piece.Text, Piece.Hunks, Piece.Good;
    if pieces == [] {
      assert TextOf(pieces) + rest == rest && hunks + HunksOf(pieces) == hunks;
    } else {
      var p, more := pieces[0], pieces[1..];
      Associate(p.Text(), TextOf(more), rest);
      assert p in pieces;
      ParsePiece(p, TextOf(more) + rest, hunks);
      ParsePieces(more, rest, hunks + p.Hunks());
      Associate(hunks, p.Hunks(), HunksOf(more));
    }
  }

  lemma {:induction false} ParseStray(rest: Lines, hunks: seq<ParsedHunk>)
    requires StrayLine(rest)
    ensures ParseFrom(rest, hunks) == Unexpected(rest[0])
  {
    hide Skippable, IsBetween, ParseHeader, IsHeader;
    BetweenExactly(rest[0]);
    if ParseHeader(rest[0]).Some? {
      HeaderExactly(rest[0], ParseHeader(rest[0]).value);
    }
  }

  lemma {:induction false} ParseMiscounted(rest: Lines, hunks: seq<ParsedHunk>)
    requires Miscounted(rest)
    ensures ParseFrom(rest, hunks) == Malformed("hunk counts do not match header", Some(|hunks| + 1))
  {
    hide Skippable, IsBetween, ParseHeader, IsHeader, ParseBody, Complete;
    BetweenExactly(rest[0]);
    var h :| IsHeader(rest[0], h) && forall k :: 0 <= k <= |rest| - 1 ==> !Complete(rest[1..][..k], h);
    HeaderExactly(rest[0], h);
    IncompleteIsNoticed(rest[1..], h);
  }

  /** Every text is good pieces and then nothing, a stray line, or a miscounted segment. */
  lemma {:induction false} Decompose(raw: Lines) returns (pieces: seq<Piece>, rest: Lines)
    ensures AllGood(pieces) && raw == TextOf(pieces) + rest
    ensures rest == [] || StrayLine(rest) || Miscounted(rest)
    decreases |raw|
  {
    hide IsBetween, IsHeader, Complete;
    pieces, rest := [], raw;
    if raw != [] {
      if IsBetween(raw[0]) {
        assert raw == [raw[0]] + raw[1..];
        pieces, rest := Prepend(Between(raw[0]), raw[1..]);
      } else if h :| IsHeader(raw[0], h) {
        if k :| 0 <= k <= |raw| - 1 && Complete(raw[1..][..k], h) {
          var p := Segment(raw[0], h, raw[1..][..k]);
          assert raw == p.Text() + raw[1..][k..];
          pieces, rest := Prepend(p, raw[1..][k..]);
        }
      }
    }
  }

  lemma {:induction false} Prepend(p: Piece, raw: Lines) returns (pieces: seq<Piece>, rest: Lines)
    requires p.Good()
    ensures AllGood(pieces) && p.Text() + raw == TextOf(pieces) + rest
    ensures rest == [] || StrayLine(rest) || Miscounted(rest)
    decreases |raw| + 1, 0
  {
    hide StrayLine, Miscounted, Piece.Good, Piece.Text;
    var more;
    more, rest := Decompose(raw);
    pieces := [p] + more;
    assert pieces[1..] == more;
    Associate(p.Text(), TextOf(more), rest);
  }

  // ----- the main theorems -----

  /** The diff's lines, as the parser cuts them. */
  function LinesOf(diff: string): Lines {
    Split(CrlfToLf(diff))
  }

  lemma {:induction false} ParseNothing(hunks: seq<ParsedHunk>)
    ensures ParseFrom([], hunks) == Parsed(hunks)
  {}

  lemma {:induction false} ParseDecomposed(diff: string, pieces: seq<Piece>, rest: Lines)
    requires AllGood(pieces) && LinesOf(diff) == TextOf(pieces) + rest
    ensures rest == [] ==> Parse(diff) == Parsed(HunksOf(pieces))
    ensures StrayLine(rest) ==> Parse(diff) == Unexpected(rest[0])
    ensures Miscounted(rest) ==>
      Parse(diff) == Malformed("hunk counts do not match header", Some(|HunksOf(pieces)| + 1))
  {
    hide StrayLine, Miscounted, AllGood, TextOf, HunksOf, ParseFrom, Split, CrlfToLf, Unexpected;
    ParseNothing(HunksOf(pieces));
    ParsePieces(pieces, rest, []);
    assert [] + HunksOf(pieces) == HunksOf(pieces);
    if StrayLine(rest) {
      ParseStray(rest, HunksOf(pieces));
    }
    if Miscounted(rest) {
      ParseMiscounted(rest, HunksOf(pieces));
    }
  }

  /** Acceptance, exactly: the hunks are `hs` if and only if the whole text is made of good pieces with these hunks. */
  lemma {:induction false} AcceptsExactly(diff: string, hs: seq<ParsedHunk>)
    ensures Parse(diff) == Parsed(hs)
       <==> exists pieces :: AllGood(pieces) && TextOf(pieces) == LinesOf(diff) && HunksOf(pieces) == hs
  {
    hide Parse, AllGood, TextOf, HunksOf, StrayLine, Miscounted, LinesOf;
    var pieces, rest := Decompose(LinesOf(diff));
    ParseDecomposed(diff, pieces, rest);
    assert TextOf(pieces) + [] == TextOf(pieces);
    forall good | AllGood(good) && TextOf(good) == LinesOf(diff) ensures Parse(diff) == Parsed(HunksOf(good)) {
      assert TextOf(good) + [] == TextOf(good);
      ParseDecomposed(diff, good, []);
    }
  }

  /**
   Refusal, exactly: with good pieces up to it, a stray line is quoted, and a miscounted segment is
   named by one more than the number of complete segments before it. Nothing else is refused.
   */
  lemma {:induction false} RefusesExactly(diff: string, reason: string, hunk: Option<nat>)
    ensures Parse(diff) == Malformed(reason, hunk)
       <==> exists pieces, rest ::
              && AllGood(pieces) && TextOf(pieces) + rest == LinesOf(diff)
              && ((StrayLine(rest) && reason == "unexpected diff line: " + Cut(rest[0], 60) && hunk == None)
                  || (Miscounted(rest) && reason == "hunk counts do not match header"
                      && hunk == Some(|HunksOf(pieces)| + 1)))
  {
    hide Parse, AllGood, TextOf, HunksOf, Miscounted, LinesOf, IsBetween, IsHeader;
    var pieces, rest := Decompose(LinesOf(diff));
    ParseDecomposed(diff, pieces, rest);
    forall good, more | AllGood(good) && TextOf(good) + more == LinesOf(diff) && (StrayLine(more) || Miscounted(more))
      ensures StrayLine(more) ==> Parse(diff) == Unexpected(more[0])
      ensures Miscounted(more) ==> Parse(diff) == Malformed("hunk counts do not match header", Some(|HunksOf(good)| + 1))
    {
      ParseDecomposed(diff, good, more);
    }
  }

  /** A miscounted hunk refuses the whole diff, however many good hunks stand before it. */
  lemma {:induction false} MiscountedIsNotApplied(base: string, diff: string, pieces: seq<Piece>, rest: Lines)
    requires AllGood(pieces) && TextOf(pieces) + rest == LinesOf(diff) && Miscounted(rest)
    ensures Apply(base, diff) == Rejected("hunk counts do not match header", Some(|HunksOf(pieces)| + 1))
  {
    hide Parse, AllGood, TextOf, HunksOf, Miscounted, LinesOf;
    ParseDecomposed(diff, pieces, rest);
  }
}
