/**
 Texts as strings and the stretches between them, without any scanning state: what the repair
 does to each of them, and what a reader of pieces gets.
 */
module JsonPieces {
  import opened Text
  import R = JsonRepair

  // ----- texts made of pieces -----

  /** A character that is no backslash, or a backslash together with the character behind it. */
  datatype Unit = One(c: char) | Pair(c: char) {
    function Print(): string {
      if One? then [c] else ['\\', c]
    }

    /** A quote ends a stretch unless a backslash stands before it, and backslashes come in pairs. */
    predicate Fits() {
      One? ==> c != '\\' && c != '\"'
    }
  }

  function PrintUnits(units: seq<Unit>): string {
    if units == [] then "" else units[0].Print() + PrintUnits(units[1..])
  }

  predicate AllFit(units: seq<Unit>) {
    forall u :: u in units ==> u.Fits()
  }

  /** A string literal with its quotes, or a stretch between literals. */
  datatype Piece = Literal(units: seq<Unit>) | Between(units: seq<Unit>) {
    function Print(): string {
      if Literal? then "\"" + PrintUnits(units) + "\"" else PrintUnits(units)
    }
  }

  /** Pieces, perhaps a literal that is not closed, perhaps one backslash with nothing behind it. */
  datatype Document = Document(pieces: seq<Piece>, open: Option<seq<Unit>>, dangling: bool) {
    function Print(): string {
      PrintPieces(pieces) + PrintEnd()
    }

    function PrintEnd(): string {
      (if open.Some? then "\"" + PrintUnits(open.value) else "") + (if dangling then "\\" else "")
    }

    predicate Fits() {
      (forall p :: p in pieces ==> AllFit(p.units)) && (open.Some? ==> AllFit(open.value))
    }
  }

  function PrintPieces(pieces: seq<Piece>): string {
    if pieces == [] then "" else pieces[0].Print() + PrintPieces(pieces[1..])
  }

  // ----- what the repair should do -----

  /** A raw newline, carriage return or tab becomes its escape. */
  function FixUnit(u: Unit): Unit {
    match u
    case One('\n') => Pair('n')
    case One('\r') => Pair('r')
    case One('\t') => Pair('t')
    case _ => u
  }

  function FixUnits(units: seq<Unit>): seq<Unit> {
    seq(|units|, i requires 0 <= i < |units| => FixUnit(units[i]))
  }

  /** Only what is inside literals changes. */
  function FixPiece(p: Piece): Piece {
    if p.Literal? then Literal(FixUnits(p.units)) else p
  }

  function Fix(d: Document): Document {
    Document(
      seq(|d.pieces|, i requires 0 <= i < |d.pieces| => FixPiece(d.pieces[i])),
      if d.open.Some? then Some(FixUnits(d.open.value)) else None, d.dangling)
  }

  // ----- the scan does it -----

  lemma {:induction false} ScanUnit(u: Unit, rest: string, inString: bool)
    requires u.Fits()
    ensures R.Scan(u.Print() + rest, inString, false)
         == (if inString then FixUnit(u).Print() else u.Print()) + R.Scan(rest, inString, false)
  {
    if u.One? {
      assert ([u.c] + rest)[1..] == rest;
    } else {
      assert (['\\', u.c] + rest)[1..] == [u.c] + rest && ([u.c] + rest)[1..] == rest;
      assert R.Scan([u.c] + rest, inString, true) == [u.c] + R.Scan(rest, inString, false);
    }
  }

  lemma {:induction false} UnfoldUnits(units: seq<Unit>)
    requires units != []
    ensures PrintUnits(units) == units[0].Print() + PrintUnits(units[1..])
    ensures PrintUnits(FixUnits(units)) == FixUnit(units[0]).Print() + PrintUnits(FixUnits(units[1..]))
  {
    assert FixUnits(units)[1..] == FixUnits(units[1..]);
  }

  lemma {:induction false} ScanUnits(units: seq<Unit>, rest: string, inString: bool)
    requires AllFit(units)
    ensures R.Scan(PrintUnits(units) + rest, inString, false)
         == PrintUnits(if inString then FixUnits(units) else units) + R.Scan(rest, inString, false)
    decreases |units|
  {
    if units == [] {
      assert PrintUnits(units) + rest == rest && FixUnits(units) == [];
      assert "" + R.Scan(rest, inString, false) == R.Scan(rest, inString, false);
    } else {
      hide R.Scan, PrintUnits, FixUnits, FixUnit, Unit.Print, Unit.Fits;
      var u, more := units[0], units[1..];
      UnfoldUnits(units);
      assert u in units && AllFit(more);
      Associate(u.Print(), PrintUnits(more), rest);
      ScanUnit(u, PrintUnits(more) + rest, inString);
      ScanUnits(more, rest, inString);
      Associate(
        if inString then FixUnit(u).Print() else u.Print(), PrintUnits(if inString then FixUnits(more) else more),
        R.Scan(rest, inString, false));
    }
  }

  lemma {:induction false} ScanQuote(rest: string, inString: bool)
    ensures R.Scan("\"" + rest, inString, false) == "\"" + R.Scan(rest, !inString, false)
  {
    assert ("\"" + rest)[1..] == rest;
  }

  lemma {:induction false} ScanLiteral(units: seq<Unit>, rest: string)
    requires AllFit(units)
    ensures R.Scan("\"" + PrintUnits(units) + rest, false, false)
         == "\"" + PrintUnits(FixUnits(units)) + R.Scan(rest, true, false)
  {
    hide R.Scan, PrintUnits, FixUnits, AllFit;
    Associate("\"", PrintUnits(units), rest);
    ScanQuote(PrintUnits(units) + rest, false);
    ScanUnits(units, rest, true);
    Associate("\"", PrintUnits(FixUnits(units)), R.Scan(rest, true, false));
  }

  lemma {:induction false} ScanPiece(p: Piece, rest: string)
    requires AllFit(p.units)
    ensures R.Scan(p.Print() + rest, false, false) == FixPiece(p).Print() + R.Scan(rest, false, false)
  {
    hide R.Scan, PrintUnits, FixUnits, AllFit;
    if p.Literal? {
      Associate("\"" + PrintUnits(p.units), "\"", rest);
      ScanLiteral(p.units, "\"" + rest);
      ScanQuote(rest, true);
      Associate("\"" + PrintUnits(FixUnits(p.units)), "\"", R.Scan(rest, false, false));
    } else {
      ScanUnits(p.units, rest, false);
    }
  }

  function FixPieces(pieces: seq<Piece>): seq<Piece> {
    seq(|pieces|, i requires 0 <= i < |pieces| => FixPiece(pieces[i]))
  }

  lemma {:induction false} ScanPieces(pieces: seq<Piece>, rest: string)
    requires forall p :: p in pieces ==> AllFit(p.units)
    ensures R.Scan(PrintPieces(pieces) + rest, false, false) == PrintPieces(FixPieces(pieces)) + R.Scan(rest, false, false)
    decreases |pieces|
  {
    hide R.Scan, AllFit, FixPiece, Piece.Print;
    if pieces == [] {
      assert PrintPieces(pieces) + rest == rest && FixPieces(pieces) == [];
      assert "" + R.Scan(rest, false, false) == R.Scan(rest, false, false);
    } else {
      var p, more := pieces[0], pieces[1..];
      assert p in pieces && forall q :: q in more ==> q in pieces;
      assert FixPieces(pieces)[1..] == FixPieces(more);
      Associate(p.Print(), PrintPieces(more), rest);
      ScanPiece(p, PrintPieces(more) + rest);
      ScanPieces(more, rest);
      Associate(FixPiece(p).Print(), PrintPieces(FixPieces(more)), R.Scan(rest, false, false));
    }
  }

  lemma {:induction false} ScanDangling(inString: bool, dangling: bool)
    ensures var end := if dangling then "\\" else ""; R.Scan(end, inString, false) == end
  {
    assert "\\"[1..] == "";
  }

  lemma {:induction false} ScanEnd(d: Document)
    requires d.Fits()
    ensures R.Scan(d.PrintEnd(), false, false) == Fix(d).PrintEnd()
  {
    hide R.Scan, AllFit, PrintUnits, FixUnits;
    var end := if d.dangling then "\\" else "";
    if d.open.Some? {
      ScanLiteral(d.open.value, end);
      ScanDangling(true, d.dangling);
    } else {
      ScanDangling(false, d.dangling);
      assert "" + end == end;
    }
  }

  /**
   What the scan does, exactly: inside every literal, closed or not, each raw newline, carriage
   return and tab that no backslash precedes becomes its escape, and nothing else changes.
   */
  lemma {:induction false} ScanFixesLiterals(d: Document)
    requires d.Fits()
    ensures R.Scan(d.Print(), false, false) == Fix(d).Print()
  {
    ScanPieces(d.pieces, d.PrintEnd());
    ScanEnd(d);
    hide R.Scan, AllFit, PrintPieces, FixPiece, Document.PrintEnd;
    assert Fix(d).pieces == FixPieces(d.pieces);
  }

  // ----- every text is such a document -----

  lemma {:induction false} TakeUnits(s: string) returns (units: seq<Unit>, rest: string)
    ensures AllFit(units) && s == PrintUnits(units) + rest
    ensures rest == "" || rest == "\\" || rest[0] == '\"'
  {
    if s == "" || s == "\\" || s[0] == '\"' {
      units, rest := [], s;
    } else {
      var u := if s[0] == '\\' then Pair(s[1]) else One(s[0]);
      var behind := if s[0] == '\\' then s[2..] else s[1..];
      assert s == u.Print() + behind;
      var more;
      more, rest := TakeUnits(behind);
      units := [u] + more;
      assert units[1..] == more;
      Associate(u.Print(), PrintUnits(more), rest);
    }
  }

  lemma {:induction false} EveryTextIsADocument(s: string) returns (d: Document)
    ensures d.Fits() && d.Print() == s
    decreases |s|
  {
    var units, rest := TakeUnits(s);
    var first := [Between(units)];
    OnePiece(Between(units));
    if rest == "" || rest == "\\" {
      d := Document(first, None, rest == "\\");
    } else {
      assert rest == "\"" + rest[1..];
      var inside, behind := TakeUnits(rest[1..]);
      assert rest == "\"" + PrintUnits(inside) + behind;
      if behind == "" || behind == "\\" {
        d := Document(first, Some(inside), behind == "\\");
      } else {
        assert behind == "\"" + behind[1..];
        Associate("\"" + PrintUnits(inside), "\"", behind[1..]);
        var tail := EveryTextIsADocument(behind[1..]);
        d := Document([Between(units), Literal(inside)] + tail.pieces, tail.open, tail.dangling);
        TwoPieces(Between(units), Literal(inside), tail.pieces, tail.PrintEnd());
        assert d.PrintEnd() == tail.PrintEnd();
      }
    }
  }

  lemma {:induction false} OnePiece(p: Piece)
    ensures PrintPieces([p]) == p.Print()
  {
    assert [p][1..] == [] && p.Print() + "" == p.Print();
  }

  lemma {:induction false} TwoPieces(p: Piece, q: Piece, more: seq<Piece>, end: string)
    ensures PrintPieces([p, q] + more) + end == p.Print() + (q.Print() + (PrintPieces(more) + end))
  {
    assert ([p, q] + more)[1..] == [q] + more && ([q] + more)[1..] == more;
  }

  // ----- what a reader of pieces gets -----

  /** A string's character, or an escape that stands for itself. */
  datatype Value = Character(c: char) | Escape(c: char)

  /** Raw control characters mean themselves; `\n`, `\r`, `\t`, `\"` and `\\` mean what JSON says. */
  function ValueOf(u: Unit): Value {
    match u
    case One(c) => Character(c)
    case Pair('n') => Character('\n')
    case Pair('r') => Character('\r')
    case Pair('t') => Character('\t')
    case Pair('\"') => Character('\"')
    case Pair('\\') => Character('\\')
    case Pair(c) => Escape(c)
  }

  function Contents(units: seq<Unit>): seq<Value> {
    seq(|units|, i requires 0 <= i < |units| => ValueOf(units[i]))
  }

  lemma {:induction false} FixKeepsContents(units: seq<Unit>)
    ensures Contents(FixUnits(units)) == Contents(units)
    ensures AllFit(units) ==> AllFit(FixUnits(units))
    ensures forall c :: c in "\n\r\t" ==> One(c) !in FixUnits(units)
  {}

  /**
   Every text, read in pieces: the repaired text is the same document, every literal in it has the
   contents it had, what is between literals is unchanged, and no literal holds a raw newline,
   carriage return or tab.
   */
  lemma {:induction false} RepairKeepsContents(s: string) returns (d: Document)
    ensures d.Fits() && d.Print() == s && Fix(d).Fits() && Fix(d).Print() == R.Scan(s, false, false)
    ensures |Fix(d).pieces| == |d.pieces| && Fix(d).dangling == d.dangling
    ensures forall i :: 0 <= i < |d.pieces| ==>
      if d.pieces[i].Between? then Fix(d).pieces[i] == d.pieces[i]
      else
        && Fix(d).pieces[i].Literal? && Contents(Fix(d).pieces[i].units) == Contents(d.pieces[i].units)
        && forall c :: c in "\n\r\t" ==> One(c) !in Fix(d).pieces[i].units
    ensures Fix(d).open.Some? == d.open.Some?
    ensures d.open.Some? ==>
      && Contents(Fix(d).open.value) == Contents(d.open.value)
      && forall c :: c in "\n\r\t" ==> One(c) !in Fix(d).open.value
  {
    d := EveryTextIsADocument(s);
    ScanFixesLiterals(d);
    hide R.Scan, FixUnits, Contents, AllFit, Document.Print;
    forall i | 0 <= i < |d.pieces|
      ensures AllFit(Fix(d).pieces[i].units)
      ensures if d.pieces[i].Between? then Fix(d).pieces[i] == d.pieces[i]
              else
                && Fix(d).pieces[i].Literal? && Contents(Fix(d).pieces[i].units) == Contents(d.pieces[i].units)
                && forall c :: c in "\n\r\t" ==> One(c) !in Fix(d).pieces[i].units
    {
      assert d.pieces[i] in d.pieces;
      FixKeepsContents(d.pieces[i].units);
    }
    if d.open.Some? {
      FixKeepsContents(d.open.value);
    }
  }
}
