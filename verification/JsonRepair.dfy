/** Escaping raw control characters inside the strings of an almost-JSON text. */
module JsonRepair {
  import opened Text

  const BACKSLASH := '\\'
  const QUOTE := '\"'

  /** The three control characters the scan knows. */
  predicate IsRaw(c: char) {
    c == '\n' || c == '\r' || c == '\t'
  }

  function EscapeLetter(c: char): char {
    if c == '\n' then 'n' else if c == '\r' then 'r' else 't'
  }

  /** What the scan writes for one character, and the state it moves to. */
  function Written(c: char, inString: bool, escaped: bool): string {
    if !escaped && inString && IsRaw(c) then [BACKSLASH, EscapeLetter(c)] else [c]
  }

  function NextInString(c: char, inString: bool, escaped: bool): bool {
    if !escaped && c == QUOTE then !inString else inString
  }

  function NextEscaped(c: char, escaped: bool): bool {
    !escaped && c == BACKSLASH
  }

  function Scan(s: string, inString: bool, escaped: bool): string {
    if s == "" then ""
    else Written(s[0], inString, escaped) + Scan(s[1..], NextInString(s[0], inString, escaped), NextEscaped(s[0], escaped))
  }

  /** The character loop over `inString`, `escaped` and `result`. */
  method Repair(candidate: string) returns (result: string)
    ensures result == Scan(candidate, false, false)
  {
    result := "";
    var inString, escaped := false, false;
    var i := 0;
    assert candidate[0..] == candidate;
    while i < |candidate|
      invariant 0 <= i <= |candidate|
      invariant result + Scan(candidate[i..], inString, escaped) == Scan(candidate, false, false)
    {
      var c := candidate[i];
      ghost var before, wasIn, wasEscaped := result, inString, escaped;
      assert candidate[i..][1..] == candidate[i + 1..];
      if escaped {
        result := result + [c];
        escaped := false;
      } else if c == BACKSLASH {
        result := result + [c];
        escaped := true;
      } else if c == QUOTE {
        inString := !inString;
        result := result + [c];
      } else if inString && c == '\n' {
        result := result + "\\n";
      } else if inString && c == '\r' {
        result := result + "\\r";
      } else if inString && c == '\t' {
        result := result + "\\t";
      } else {
        result := result + [c];
      }
      assert result == before + Written(c, wasIn, wasEscaped);
      Associate(before, Written(c, wasIn, wasEscaped), Scan(candidate[i + 1..], inString, escaped));
      i := i + 1;
    }
  }

  // ----- what a text means to a lenient reader -----

  /** A quote, a character of a string, an escape it does not resolve, or a character between strings. */
  datatype Symbol = Delimiter | Character(c: char) | Escape(c: char) | Between(c: char) | Dangling

  /** Reads raw control characters in strings as themselves, and `\n`, `\r`, `\t` as what they stand for. */
  function Decode(s: string, inString: bool, escaped: bool): seq<Symbol> {
    if s == "" then (if escaped then [Dangling] else [])
    else Meaning(s[0], inString, escaped) + Decode(s[1..], NextInString(s[0], inString, escaped), NextEscaped(s[0], escaped))
  }

  function Meaning(c: char, inString: bool, escaped: bool): seq<Symbol> {
    if !inString then (if !escaped && c == QUOTE then [Delimiter] else [Between(c)])
    else if escaped then [if c == 'n' then Character('\n') else if c == 'r' then Character('\r')
                          else if c == 't' then Character('\t') else Escape(c)]
    else if c == BACKSLASH then []
    else if c == QUOTE then [Delimiter]
    else [Character(c)]
  }

  /** Inside strings no raw newline, CR or tab except right after a backslash. */
  predicate Escaped(s: string, inString: bool, escaped: bool) {
    s == "" || (
      !(inString && !escaped && IsRaw(s[0]))
      && Escaped(s[1..], NextInString(s[0], inString, escaped), NextEscaped(s[0], escaped)))
  }

  lemma {:induction false} DecodeWritten(c: char, rest: string, inString: bool, escaped: bool)
    ensures Decode(Written(c, inString, escaped) + rest, inString, escaped)
         == Meaning(c, inString, escaped) + Decode(rest, NextInString(c, inString, escaped), NextEscaped(c, escaped))
  {
    if !escaped && inString && IsRaw(c) {
      var e := EscapeLetter(c);
      assert ([BACKSLASH, e] + rest)[1..] == [e] + rest && ([e] + rest)[1..] == rest;
      assert Decode([e] + rest, true, true) == [Character(c)] + Decode(rest, true, false);
    } else {
      assert ([c] + rest)[1..] == rest;
    }
  }

  /** Main theorem: the scan keeps the meaning of every text. */
  lemma {:induction false} ScanKeepsMeaning(s: string, inString: bool, escaped: bool)
    ensures Decode(Scan(s, inString, escaped), inString, escaped) == Decode(s, inString, escaped)
  {
    if s != "" {
      var in', esc' := NextInString(s[0], inString, escaped), NextEscaped(s[0], escaped);
      ScanKeepsMeaning(s[1..], in', esc');
      DecodeWritten(s[0], Scan(s[1..], in', esc'), inString, escaped);
    }
  }

  lemma {:induction false} EscapedWritten(c: char, rest: string, inString: bool, escaped: bool)
    ensures Escaped(Written(c, inString, escaped) + rest, inString, escaped)
       <==> Escaped(rest, NextInString(c, inString, escaped), NextEscaped(c, escaped))
  {
    if !escaped && inString && IsRaw(c) {
      var e := EscapeLetter(c);
      assert ([BACKSLASH, e] + rest)[1..] == [e] + rest && ([e] + rest)[1..] == rest;
      assert Escaped([e] + rest, true, true) <==> Escaped(rest, true, false);
    } else {
      assert ([c] + rest)[1..] == rest;
    }
  }

  /** The result is always escaped ... */
  lemma {:induction false} ScanEscapes(s: string, inString: bool, escaped: bool)
    ensures Escaped(Scan(s, inString, escaped), inString, escaped)
  {
    if s != "" {
      var in', esc' := NextInString(s[0], inString, escaped), NextEscaped(s[0], escaped);
      ScanEscapes(s[1..], in', esc');
      EscapedWritten(s[0], Scan(s[1..], in', esc'), inString, escaped);
    }
  }

  /** ... and a text is left alone exactly when it was escaped already. */
  lemma {:induction false} UnchangedIffEscaped(s: string, inString: bool, escaped: bool)
    ensures Scan(s, inString, escaped) == s <==> Escaped(s, inString, escaped)
    ensures |Scan(s, inString, escaped)| >= |s|
  {
    if s != "" {
      var in', esc' := NextInString(s[0], inString, escaped), NextEscaped(s[0], escaped);
      var w, rest := Written(s[0], inString, escaped), Scan(s[1..], in', esc');
      UnchangedIffEscaped(s[1..], in', esc');
      assert s == [s[0]] + s[1..];
      if |w| == 1 {
        assert (w + rest)[1..] == rest;
      } else {
        assert |w + rest| > |s|;
      }
    }
  }

  /** So scanning twice is scanning once. */
  lemma {:induction false} ScanIsIdempotent(s: string)
    ensures Scan(Scan(s, false, false), false, false) == Scan(s, false, false)
  {
    ScanEscapes(s, false, false);
    UnchangedIffEscaped(Scan(s, false, false), false, false);
  }

  // ----- section 7 of RFC 8259: no control character inside a string -----

  predicate IsControl(c: char) {
    c < ' '
  }

  predicate NoControlInStrings(s: string, inString: bool, escaped: bool) {
    s == "" || (
      !(inString && IsControl(s[0]))
      && NoControlInStrings(s[1..], NextInString(s[0], inString, escaped), NextEscaped(s[0], escaped)))
  }

  /** In strings, control characters are only the three known ones, and none follows a backslash. */
  predicate Repairable(s: string, inString: bool, escaped: bool) {
    s == "" || (
      !(inString && IsControl(s[0]) && (escaped || !IsRaw(s[0])))
      && Repairable(s[1..], NextInString(s[0], inString, escaped), NextEscaped(s[0], escaped)))
  }

  /** The scan yields strings the grammar allows exactly for repairable texts. */
  lemma {:induction false} LawfulIffRepairable(s: string, inString: bool, escaped: bool)
    ensures NoControlInStrings(Scan(s, inString, escaped), inString, escaped) <==> Repairable(s, inString, escaped)
  {
    if s != "" {
      var in', esc' := NextInString(s[0], inString, escaped), NextEscaped(s[0], escaped);
      var rest := Scan(s[1..], in', esc');
      LawfulIffRepairable(s[1..], in', esc');
      if !escaped && inString && IsRaw(s[0]) {
        var e := EscapeLetter(s[0]);
        assert ([BACKSLASH, e] + rest)[1..] == [e] + rest && ([e] + rest)[1..] == rest;
        assert NoControlInStrings([e] + rest, true, true) <==> NoControlInStrings(rest, true, false);
      } else {
        assert ([s[0]] + rest)[1..] == rest;
      }
    }
  }
}
