/**
 Bottom-up splicing is simultaneous substitution: hunks laid out on the original file
 give the same result as one walk from top to bottom that replaces each hunk's edit.
 */
module Substitution {
  import opened Text
  import opened UnifiedDiff
  import opened ApplyDiff
  import StableSort

  /** Number of leading lines a hunk keeps: its first lines that are the same on both sides. */
  function Lead(olds: Lines, news: Lines): (n: nat)
    ensures n <= |olds| && n <= |news| && olds[..n] == news[..n]
  {
    if olds != [] && news != [] && olds[0] == news[0] then 1 + Lead(olds[1..], news[1..]) else 0
  }

  /** First line (0-based) the hunk may change, and the line after its old block. */
  function EditStart(h: ParsedHunk): int {
    h.oldStart - 1 + Lead(h.oldOrdered, h.newOrdered)
  }

  function EditEnd(h: ParsedHunk): int {
    h.oldStart - 1 + |h.oldOrdered|
  }

  function EditText(h: ParsedHunk): Lines {
    h.newOrdered[Lead(h.oldOrdered, h.newOrdered)..]
  }

  /**
   Hunks listed top to bottom from line `cursor` on, each matching the file at its stated
   line and changing nothing before the end of the previous block. Leading context may
   overlap the previous hunk, as in the repository's own two-hunk example.
   */
  predicate LaidOut(base: Lines, hunks: seq<ParsedHunk>, cursor: nat) {
    if hunks == [] then cursor <= |base|
    else
      && hunks[0].oldStart >= 1
      && OccursAt(base, hunks[0].oldOrdered, hunks[0].oldStart - 1)
      && cursor <= EditStart(hunks[0])
      && LaidOut(base, hunks[1..], EditEnd(hunks[0]))
  }

  /** One pass over the original lines from `cursor`: copy, replace, copy, replace, ... */
  function Substitute(base: Lines, hunks: seq<ParsedHunk>, cursor: nat): Lines
    requires LaidOut(base, hunks, cursor)
  {
    if hunks == [] then base[cursor..]
    else base[cursor..EditStart(hunks[0])] + EditText(hunks[0]) + Substitute(base, hunks[1..], EditEnd(hunks[0]))
  }

  lemma {:induction false} KeptLeadPlusEdit(base: Lines, h: ParsedHunk)
    requires h.oldStart >= 1 && OccursAt(base, h.oldOrdered, h.oldStart - 1)
    ensures h.newOrdered == base[h.oldStart - 1..EditStart(h)] + EditText(h)
  {
    hide Lead;
    var p, n, k := h.oldStart - 1, |h.oldOrdered|, Lead(h.oldOrdered, h.newOrdered);
    var block := base[p..p + n];
    assert block[..k] == base[p..p + k];
    assert h.newOrdered == h.newOrdered[..k] + h.newOrdered[k..];
  }

  /** Splicing a hunk that matches at its stated line only writes its edit. */
  lemma {:induction false} SpliceIsEdit(base: Lines, tail: Lines, h: ParsedHunk)
    requires h.oldStart >= 1 && OccursAt(base, h.oldOrdered, h.oldStart - 1)
    ensures ApplyHunk(base[..EditEnd(h)] + tail, h) == Spliced(base[..EditStart(h)] + EditText(h) + tail)
  {
    hide Lead;
    var p, end, k := h.oldStart - 1, EditEnd(h), Lead(h.oldOrdered, h.newOrdered);
    var head := base[..end];
    SliceOfSum(head, tail, p, end);
    SliceOfPrefix(base, p, end, end);
    assert OccursAt(head + tail, h.oldOrdered, p);
    SliceOfPrefix(base, 0, p, end);
    assert ApplyHunk(head + tail, h) == Spliced(base[..p] + h.newOrdered + tail);
    KeptLeadPlusEdit(base, h);
    assert base[..p] + base[p..p + k] == base[..p + k];
    Associate(base[..p], base[p..p + k], EditText(h));
  }

  function Reversed(hunks: seq<ParsedHunk>): seq<ParsedHunk> {
    if hunks == [] then [] else Reversed(hunks[1..]) + [hunks[0]]
  }

  lemma {:induction false} ApplyAllThenOne(lines: Lines, hunks: seq<ParsedHunk>, last: ParsedHunk)
    ensures ApplyAll(lines, hunks + [last])
         == match ApplyAll(lines, hunks) case Mismatch(s) => Mismatch(s) case Spliced(ls) => ApplyHunk(ls, last)
    decreases |hunks|
  {
    if hunks == [] {
      assert [last][1..] == [];
    } else {
      assert (hunks + [last])[1..] == hunks[1..] + [last];
      var one := ApplyHunk(lines, hunks[0]);
      if one.Spliced? {
        ApplyAllThenOne(one.lines, hunks[1..], last);
      }
    }
  }

  /** Last hunk first: every hunk still finds its stated line, and the result is the one-pass walk. */
  lemma {:induction false} BottomUpIsSubstitution(base: Lines, hunks: seq<ParsedHunk>, cursor: nat)
    requires LaidOut(base, hunks, cursor)
    ensures cursor <= |base|
    ensures ApplyAll(base, Reversed(hunks)) == Spliced(base[..cursor] + Substitute(base, hunks, cursor))
    decreases |hunks|
  {
    hide ApplyHunk, Lead;
    if hunks == [] {
      assert base[..cursor] + base[cursor..] == base;
    } else {
      var h, rest := hunks[0], hunks[1..];
      BottomUpIsSubstitution(base, rest, EditEnd(h));
      ApplyAllThenOne(base, Reversed(rest), h);
      var tail := Substitute(base, rest, EditEnd(h));
      SpliceIsEdit(base, tail, h);
      SliceJoins(base, 0, cursor, EditStart(h));
      Associate(base[..cursor], base[cursor..EditStart(h)], EditText(h));
      Associate(base[..cursor], base[cursor..EditStart(h)] + EditText(h), tail);
    }
  }

  // ----- any listing order -----

  predicate StrictlyAscending(hunks: seq<ParsedHunk>) {
    forall i, j :: 0 <= i < j < |hunks| ==> hunks[i].oldStart < hunks[j].oldStart
  }

  predicate StrictlyDescending(hunks: seq<ParsedHunk>) {
    forall i, j :: 0 <= i < j < |hunks| ==> hunks[i].oldStart > hunks[j].oldStart
  }

  lemma {:induction false} StrictlyDescendingSnoc(hunks: seq<ParsedHunk>, last: ParsedHunk)
    requires StrictlyDescending(hunks) && forall x :: x in hunks ==> x.oldStart > last.oldStart
    ensures StrictlyDescending(hunks + [last])
  {}

  lemma {:induction false} StrictlyAscendingHead(hunks: seq<ParsedHunk>)
    requires StrictlyAscending(hunks) && hunks != []
    ensures StrictlyAscending(hunks[1..]) && forall x :: x in hunks[1..] ==> x.oldStart > hunks[0].oldStart
  {}

  lemma {:induction false} StrictlyDescendingHead(hunks: seq<ParsedHunk>)
    requires StrictlyDescending(hunks) && hunks != []
    ensures StrictlyDescending(hunks[1..]) && forall x :: x in hunks && x != hunks[0] ==> x.oldStart < hunks[0].oldStart
  {}

  lemma {:induction false} ReversedIsDescending(hunks: seq<ParsedHunk>)
    requires StrictlyAscending(hunks)
    ensures StrictlyDescending(Reversed(hunks))
    ensures multiset(Reversed(hunks)) == multiset(hunks)
  {
    if hunks != [] {
      hide StrictlyAscending, StrictlyDescending;
      var h, rest := hunks[0], hunks[1..];
      StrictlyAscendingHead(hunks);
      ReversedIsDescending(rest);
      assert hunks == [h] + rest;
      forall x | x in Reversed(rest) ensures x.oldStart > h.oldStart {
        assert x in multiset(Reversed(rest));
      }
      StrictlyDescendingSnoc(Reversed(rest), h);
    }
  }

  /** Two descending arrangements of the same hunks are equal when no two starts coincide. */
  lemma {:induction false} DescendingIsUnique(a: seq<ParsedHunk>, b: seq<ParsedHunk>)
    requires multiset(a) == multiset(b)
    requires StableSort.Descending(StartOf, a) && StrictlyDescending(b)
    ensures a == b
  {
    hide StableSort.Descending, StrictlyDescending;
    assert |multiset(a)| == |a| && |multiset(b)| == |b|;
    if a != [] {
      StableSort.DescendingHead(StartOf, a);
      StrictlyDescendingHead(b);
      assert a[0] in multiset(b);
      assert b[0] in multiset(a);
      assert StartOf(a[0]) >= StartOf(b[0]);
      assert a[0] == b[0];
      assert a == [a[0]] + a[1..];
      assert b == [b[0]] + b[1..];
      assert multiset(a[1..]) == multiset(a) - multiset([a[0]]);
      assert multiset(b[1..]) == multiset(b) - multiset([b[0]]);
      DescendingIsUnique(a[1..], b[1..]);
    }
  }

  /**
   Main theorem. Whatever order a diff lists its hunks in, if they can be laid out on the
   original file, applying them gives exactly the simultaneous substitution.
   */
  lemma {:induction false} ApplyingIsSimultaneousSubstitution(base: string, listed: seq<ParsedHunk>, hunks: seq<ParsedHunk>)
    requires LaidOut(SplitLines(base), hunks, 0) && StrictlyAscending(hunks)
    requires multiset(listed) == multiset(hunks)
    ensures ApplyParsed(base, listed)
         == Applied(JoinLines(Substitute(SplitLines(base), hunks, 0), EndsWith(base, '\n')))
  {
    hide SplitLines, JoinLines, SortDescending, Reversed, ApplyAll, LaidOut, Substitute;
    var lines := SplitLines(base);
    SortedByStart(listed, 0);
    ReversedIsDescending(hunks);
    DescendingIsUnique(SortDescending(listed), Reversed(hunks));
    BottomUpIsSubstitution(lines, hunks, 0);
    assert lines[..0] + Substitute(lines, hunks, 0) == Substitute(lines, hunks, 0);
  }

  // ----- disjoint hunks: whole blocks substituted -----

  /** The stronger layout in which whole hunks, context included, are disjoint. */
  predicate Disjoint(base: Lines, hunks: seq<ParsedHunk>, cursor: nat) {
    if hunks == [] then cursor <= |base|
    else
      && cursor <= hunks[0].oldStart - 1
      && OccursAt(base, hunks[0].oldOrdered, hunks[0].oldStart - 1)
      && Disjoint(base, hunks[1..], EditEnd(hunks[0]))
  }

  /** The same walk with whole hunks, context lines included. */
  function SubstituteWhole(base: Lines, hunks: seq<ParsedHunk>, cursor: nat): Lines
    requires Disjoint(base, hunks, cursor)
  {
    if hunks == [] then base[cursor..]
    else
      base[cursor..hunks[0].oldStart - 1] + hunks[0].newOrdered + SubstituteWhole(base, hunks[1..], EditEnd(hunks[0]))
  }

  lemma {:induction false} RegroupCopy<T>(s: seq<T>, i: nat, j: nat, k: nat, edit: seq<T>, tail: seq<T>)
    requires i <= j <= k <= |s|
    ensures s[i..j] + (s[j..k] + edit) + tail == s[i..k] + edit + tail
  {
    SliceJoins(s, i, j, k);
    Associate(s[i..j], s[j..k], edit);
  }

  lemma {:induction false} WholeBlocksAgree(base: Lines, hunks: seq<ParsedHunk>, cursor: nat)
    requires Disjoint(base, hunks, cursor)
    ensures LaidOut(base, hunks, cursor)
    ensures SubstituteWhole(base, hunks, cursor) == Substitute(base, hunks, cursor)
    decreases |hunks|
  {
    hide Lead, EditText;
    if hunks != [] {
      var h := hunks[0];
      WholeBlocksAgree(base, hunks[1..], EditEnd(h));
      KeptLeadPlusEdit(base, h);
      RegroupCopy(
        base, cursor, h.oldStart - 1, EditStart(h), EditText(h), Substitute(base, hunks[1..], EditEnd(h)));
    }
  }

  /** Strictly ordered, disjoint hunks: every block is replaced by its new lines, all else is kept. */
  lemma {:induction false} DisjointHunksSubstituteWholeBlocks(base: string, listed: seq<ParsedHunk>, hunks: seq<ParsedHunk>)
    requires Disjoint(SplitLines(base), hunks, 0) && StrictlyAscending(hunks)
    requires multiset(listed) == multiset(hunks)
    ensures ApplyParsed(base, listed)
         == Applied(JoinLines(SubstituteWhole(SplitLines(base), hunks, 0), EndsWith(base, '\n')))
  {
    hide ApplyParsed, SplitLines, JoinLines, Substitute, SubstituteWhole;
    WholeBlocksAgree(SplitLines(base), hunks, 0);
    ApplyingIsSimultaneousSubstitution(base, listed, hunks);
  }

  /** From printed text to patched text: a diff of any number of hunks, listed in any order. */
  lemma {:induction false} PrintedDiffIsSubstitution(
      base: string, preamble: seq<string>, listed: seq<Change>, hunks: seq<ParsedHunk>)
    requires |preamble| >= 1 && CleanLines(preamble) && CleanChanges(listed) && listed != []
    requires forall l :: l in preamble ==> Skippable(l)
    requires LaidOut(SplitLines(base), hunks, 0) && StrictlyAscending(hunks)
    requires multiset(ToHunks(listed)) == multiset(hunks)
    ensures Apply(base, Join(preamble + RenderChanges(listed)))
         == Applied(JoinLines(Substitute(SplitLines(base), hunks, 0), EndsWith(base, '\n')))
  {
    PrintParse(preamble, listed);
    assert ToHunks(listed) != [];
    hide Parse, ApplyParsed, SplitLines, JoinLines, Substitute, LaidOut, RenderChanges, ToHunks, Join, Skippable;
    ApplyingIsSimultaneousSubstitution(base, ToHunks(listed), hunks);
  }
}
