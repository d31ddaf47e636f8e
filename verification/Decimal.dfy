/** Decimal numerals: what `String(n)` prints and `\d+` with `Number(...)` reads. */
module Decimal {
  predicate IsDigit(c: char) {
    '0' <= c <= '9'
  }

  predicate AllDigits(s: string) {
    forall i :: 0 <= i < |s| ==> IsDigit(s[i])
  }

  function Print(n: nat): (s: string)
    ensures |s| >= 1 && AllDigits(s)
  {
    if n < 10 then ['0' + n as char] else Print(n / 10) + ['0' + (n % 10) as char]
  }

  function Value(s: string): nat
    requires AllDigits(s)
  {
    if s == "" then 0 else 10 * Value(s[..|s| - 1]) + (s[|s| - 1] - '0') as nat
  }

  /** Length of the longest run of digits at the front, the part a greedy `\d*` takes. */
  function Span(s: string): (n: nat)
    ensures n <= |s| && AllDigits(s[..n])
    ensures n < |s| ==> !IsDigit(s[n])
  {
    if s == "" || !IsDigit(s[0]) then 0 else 1 + Span(s[1..])
  }

  lemma {:induction false} ValueOfPrint(n: nat)
    ensures Value(Print(n)) == n
  {
    if n >= 10 {
      ValueOfPrint(n / 10);
      var s := Print(n);
      assert s[..|s| - 1] == Print(n / 10);
    }
  }

  /** Base ten: appending a digit multiplies by ten and adds it. */
  lemma {:induction false} DigitAppended(n: nat, d: nat)
    requires d < 10
    ensures Print(d) == ['0' + d as char]
    ensures n > 0 ==> Print(10 * n + d) == Print(n) + Print(d)
  {
    assert (10 * n + d) / 10 == n && (10 * n + d) % 10 == d;
  }

  lemma {:induction false} SpanOfRun(digits: string, rest: string)
    requires AllDigits(digits)
    requires rest != "" ==> !IsDigit(rest[0])
    ensures Span(digits + rest) == |digits|
  {
    if digits == "" {
      assert digits + rest == rest;
    } else {
      SpanOfRun(digits[1..], rest);
      assert (digits + rest)[1..] == digits[1..] + rest;
    }
  }

  /** Reading a printed numeral takes exactly its digits and gives the number back. */
  lemma {:induction false} ReadsPrinted(n: nat, rest: string)
    requires rest != "" ==> !IsDigit(rest[0])
    ensures var s := Print(n) + rest;
      && Span(s) == |Print(n)|
      && Value(s[..Span(s)]) == n
      && s[Span(s)..] == rest
  {
    hide Print, Value, Span;
    var digits := Print(n);
    SpanOfRun(digits, rest);
    ValueOfPrint(n);
    assert (digits + rest)[..|digits|] == digits;
  }
}
