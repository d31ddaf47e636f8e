/** Texts as character sequences, cut into lines the way the diff code cuts them. */
module Text {
  datatype Option<+T> = None | Some(value: T)

  type Lines = seq<string>

  /** `s.slice(0, n)`. */
  function Cut<T>(s: seq<T>, n: nat): seq<T> {
    if |s| > n then s[..n] else s
  }

  predicate NoBreaks(lines: seq<string>) {
    forall l :: l in lines ==> '\n' !in l
  }

  /** `text.split('\n')`: always at least one line. */
  function Split(text: string): (lines: seq<string>)
    ensures |lines| >= 1
    ensures NoBreaks(lines)
  {
    if text == "" then [""]
    else
      var rest := Split(text[1..]);
      if text[0] == '\n' then [""] + rest else [[text[0]] + rest[0]] + rest[1..]
  }

  /** `lines.join('\n')`. */
  function Join(lines: seq<string>): string {
    if |lines| == 0 then ""
    else if |lines| == 1 then lines[0]
    else lines[0] + "\n" + Join(lines[1..])
  }

  /** `text.replace(/\r\n/g, '\n')`. Cutting at `/\r?\n/` is `Split` after this. */
  function CrlfToLf(text: string): string {
    if |text| >= 2 && text[0] == '\r' && text[1] == '\n' then "\n" + CrlfToLf(text[2..])
    else if text == "" then ""
    else [text[0]] + CrlfToLf(text[1..])
  }

  predicate EndsWith(text: string, c: char) {
    text != "" && text[|text| - 1] == c
  }

  /** A line that survives newline normalisation untouched. */
  predicate CleanLine(line: string) {
    '\n' !in line && !EndsWith(line, '\r')
  }

  predicate CleanLines(lines: seq<string>) {
    forall l :: l in lines ==> CleanLine(l)
  }

  /** No line of the text ends in `\r`; every text without `\r` qualifies. */
  predicate CleanText(text: string) {
    CleanLines(Split(text))
  }

  lemma {:induction false} JoinSplit(text: string)
    ensures Join(Split(text)) == text
  {
    if text != "" {
      JoinSplit(text[1..]);
      var rest := Split(text[1..]);
      if text[0] == '\n' {
        assert Split(text)[1..] == rest;
      } else {
        assert Split(text)[1..] == rest[1..];
      }
    }
  }

  lemma {:induction false} SplitPrefix(line: string, text: string)
    requires '\n' !in line
    ensures Split(line + "\n" + text) == [line] + Split(text)
    ensures Split(line) == [line]
  {
    if line == "" {
      assert (line + "\n" + text)[1..] == text;
    } else {
      SplitPrefix(line[1..], text);
      assert (line + "\n" + text)[1..] == line[1..] + "\n" + text;
      assert line == [line[0]] + line[1..];
    }
  }

  lemma {:induction false} SplitJoin(lines: seq<string>)
    requires |lines| >= 1
    requires NoBreaks(lines)
    ensures Split(Join(lines)) == lines
  {
    if |lines| == 1 {
      SplitPrefix(lines[0], "");
    } else {
      SplitJoin(lines[1..]);
      SplitPrefix(lines[0], Join(lines[1..]));
    }
  }

  function Newlines(text: string): nat {
    if text == "" then 0 else (if text[0] == '\n' then 1 else 0) + Newlines(text[1..])
  }

  lemma {:induction false} NewlinesOfSum(a: string, b: string)
    ensures Newlines(a + b) == Newlines(a) + Newlines(b)
  {
    if a == "" {
      assert a + b == b;
    } else {
      NewlinesOfSum(a[1..], b);
      assert (a + b)[1..] == a[1..] + b;
    }
  }

  lemma {:induction false} NewlinesOfLine(line: string)
    requires '\n' !in line
    ensures Newlines(line) == 0
  {
    if line != "" {
      NewlinesOfLine(line[1..]);
    }
  }

  lemma {:induction false} NewlinesOfJoin(lines: seq<string>)
    requires NoBreaks(lines) && lines != []
    ensures Newlines(Join(lines)) == |lines| - 1
  {
    NewlinesOfLine(lines[0]);
    if |lines| > 1 {
      NewlinesOfJoin(lines[1..]);
      NewlinesOfSum(lines[0] + "\n", Join(lines[1..]));
      NewlinesOfSum(lines[0], "\n");
    }
  }

  lemma {:induction false} NewlinesCons(c: char, text: string)
    ensures Newlines([c] + text) == (if c == '\n' then 1 else 0) + Newlines(text)
  {
    assert ([c] + text)[1..] == text;
  }

  lemma {:induction false} CrlfToLfKeepsNewlines(text: string)
    ensures Newlines(CrlfToLf(text)) == Newlines(text)
  {
    if |text| >= 2 && text[0] == '\r' && text[1] == '\n' {
      CrlfToLfKeepsNewlines(text[2..]);
      assert text == ['\r'] + (['\n'] + text[2..]);
      NewlinesCons('\r', ['\n'] + text[2..]);
      NewlinesCons('\n', text[2..]);
      NewlinesCons('\n', CrlfToLf(text[2..]));
    } else if text != "" {
      CrlfToLfKeepsNewlines(text[1..]);
      NewlinesCons(text[0], CrlfToLf(text[1..]));
    }
  }

  lemma {:induction false} EndsWithCons(first: char, text: string, c: char)
    ensures EndsWith([first] + text, c) <==> if text == "" then first == c else EndsWith(text, c)
  {}

  lemma {:induction false} CrlfToLfKeepsEnd(text: string)
    requires text != ""
    ensures CrlfToLf(text) != "" && (EndsWith(CrlfToLf(text), '\n') <==> EndsWith(text, '\n'))
  {
    hide EndsWith;
    if |text| >= 2 && text[0] == '\r' && text[1] == '\n' {
      var rest := text[2..];
      assert text == ['\r'] + (['\n'] + rest) && CrlfToLf(text) == ['\n'] + CrlfToLf(rest);
      EndsWithCons('\r', ['\n'] + rest, '\n');
      EndsWithCons('\n', rest, '\n');
      EndsWithCons('\n', CrlfToLf(rest), '\n');
      if rest != "" {
        CrlfToLfKeepsEnd(rest);
      }
    } else {
      var rest := text[1..];
      assert text == [text[0]] + rest && CrlfToLf(text) == [text[0]] + CrlfToLf(rest);
      EndsWithCons(text[0], rest, '\n');
      EndsWithCons(text[0], CrlfToLf(rest), '\n');
      if rest != "" {
        CrlfToLfKeepsEnd(rest);
      }
    }
  }

  lemma {:induction false} JoinSnocEmpty(lines: seq<string>)
    requires |lines| >= 1
    ensures Join(lines + [""]) == Join(lines) + "\n"
  {
    if |lines| > 1 {
      JoinSnocEmpty(lines[1..]);
      assert (lines + [""])[1..] == lines[1..] + [""];
    } else {
      assert (lines + [""])[1..] == [""];
    }
  }

  /** A text ends in a newline exactly when cutting it leaves an empty last line behind. */
  lemma {:induction false} EndsWithNewline(text: string)
    requires text != ""
    ensures EndsWith(text, '\n') <==> Split(text)[|Split(text)| - 1] == ""
    ensures EndsWith(text, '\n') ==> |Split(text)| >= 2
  {
    if |text| == 1 {
      assert Split("") == [""];
    } else {
      var rest := Split(text[1..]);
      EndsWithNewline(text[1..]);
      assert text[1..][|text| - 2] == text[|text| - 1];
      if text[0] == '\n' {
        assert Split(text) == [""] + rest;
      } else if |rest| > 1 {
        assert Split(text) == [[text[0]] + rest[0]] + rest[1..];
        assert Split(text)[|rest| - 1] == rest[|rest| - 1];
      }
    }
  }

  predicate HasCrlf(text: string) {
    exists i :: 0 <= i < |text| - 1 && text[i] == '\r' && text[i + 1] == '\n'
  }

  lemma {:induction false} TailHasCrlf(text: string)
    requires text != "" && HasCrlf(text[1..])
    ensures HasCrlf(text)
  {
    var i :| 0 <= i < |text[1..]| - 1 && text[1..][i] == '\r' && text[1..][i + 1] == '\n';
    assert text[i + 1] == '\r' && text[i + 1 + 1] == '\n';
  }

  lemma {:induction false} CrlfToLfNoPair(text: string)
    requires !HasCrlf(text)
    ensures CrlfToLf(text) == text
  {
    if text != "" {
      if HasCrlf(text[1..]) {
        TailHasCrlf(text);
      }
      CrlfToLfNoPair(text[1..]);
    }
  }

  /** Normalising shortens exactly the texts that hold a CRLF. */
  lemma {:induction false} CrlfToLfShortens(text: string)
    ensures |CrlfToLf(text)| <= |text| && (HasCrlf(text) ==> |CrlfToLf(text)| < |text|)
  {
    if |text| >= 2 && text[0] == '\r' && text[1] == '\n' {
      CrlfToLfShortens(text[2..]);
    } else if text != "" {
      var rest := text[1..];
      if HasCrlf(text) {
        var i :| 0 <= i < |text| - 1 && text[i] == '\r' && text[i + 1] == '\n';
        assert rest[i - 1] == '\r' && rest[i] == '\n';
      }
      CrlfToLfShortens(rest);
    }
  }

  lemma {:induction false} CleanJoinHasNoPair(lines: seq<string>)
    requires CleanLines(lines)
    ensures !HasCrlf(Join(lines))
  {
    if |lines| == 1 {
      assert lines[0] in lines;
    } else if |lines| > 1 {
      assert lines[0] in lines;
      CleanJoinHasNoPair(lines[1..]);
      var head, tail := lines[0], Join(lines[1..]);
      assert Join(lines) == head + "\n" + tail;
    }
  }

  /** Newline normalisation is the identity on clean lines. */
  lemma {:induction false} CleanJoin(lines: seq<string>)
    requires CleanLines(lines)
    ensures CrlfToLf(Join(lines)) == Join(lines)
  {
    CleanJoinHasNoPair(lines);
    CrlfToLfNoPair(Join(lines));
  }

  lemma {:induction false} CleanTextUnchanged(text: string)
    requires CleanText(text)
    ensures CrlfToLf(text) == text
  {
    CleanJoin(Split(text));
    JoinSplit(text);
  }

  lemma {:induction false} SplitKeepsCharacters(text: string)
    requires '\r' !in text
    ensures forall l :: l in Split(text) ==> '\r' !in l
  {
    if text != "" {
      SplitKeepsCharacters(text[1..]);
      assert Split(text[1..])[0] in Split(text[1..]);
    }
  }

  lemma {:induction false} NoCarriageReturnIsClean(text: string)
    requires '\r' !in text
    ensures CleanText(text)
  {
    SplitKeepsCharacters(text);
  }

  lemma {:induction false} Associate<T>(a: seq<T>, b: seq<T>, c: seq<T>)
    ensures (a + b) + c == a + (b + c)
  {}

  lemma {:induction false} SliceOfPrefix<T>(s: seq<T>, i: nat, j: nat, n: nat)
    requires i <= j <= n <= |s|
    ensures s[..n][i..j] == s[i..j] && s[..n][..j] == s[..j]
  {}

  lemma {:induction false} SliceJoins<T>(s: seq<T>, i: nat, j: nat, k: nat)
    requires i <= j <= k <= |s|
    ensures s[i..j] + s[j..k] == s[i..k]
  {}

  lemma {:induction false} SliceOfSum<T>(a: seq<T>, b: seq<T>, i: nat, j: nat)
    requires i <= j <= |a|
    ensures (a + b)[i..j] == a[i..j] && (a + b)[..j] == a[..j] && (a + b)[|a|..] == b
  {}
}
