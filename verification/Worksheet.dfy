/** The worksheet of the spreadsheet export: column letters, XML escaping, the generated rows, and a
    scanner that reads the rows back. */
module Worksheet {
  import opened Results
  import Decimal
  import Xml

  // ----- column letters

  predicate IsLetter(c: char) {
    'A' <= c <= 'Z'
  }

  predicate Letters(s: string) {
    forall i :: 0 <= i < |s| ==> IsLetter(s[i])
  }

  function Letter(k: nat): (c: char)
    requires k < 26
    ensures IsLetter(c) && c as int - 'A' as int == k
  {
    k as char + 'A'
  }

  function ColumnLetters(number: nat): (s: string)
    ensures Letters(s)
    ensures number > 0 ==> s != ""
  {
    if number == 0 then "" else ColumnLetters((number - 1) / 26) + [Letter((number - 1) % 26)]
  }

  /** `columnName`, for a zero-based index. */
  method ColumnName(index: nat) returns (column: string)
    ensures column == ColumnLetters(index + 1)
  {
    column := "";
    var cursor: nat := index + 1;
    while cursor > 0
      invariant ColumnLetters(index + 1) == ColumnLetters(cursor) + column
    {
      var remainder := (cursor - 1) % 26;
      column := [(65 + remainder) as char] + column;
      cursor := (cursor - 1) / 26;
    }
    assert ColumnLetters(0) + column == column;
  }

  /** Reads column letters back: A is 1, Z is 26, AA is 27. */
  function ColumnNumber(s: string): nat
    requires Letters(s)
  {
    if s == "" then 0 else 26 * ColumnNumber(s[..|s| - 1]) + (s[|s| - 1] as int - 'A' as int) + 1
  }

  lemma {:induction false} NumberOfLetters(number: nat)
    ensures ColumnNumber(ColumnLetters(number)) == number
  {
    if number > 0 {
      NumberOfLetters((number - 1) / 26);
      var s := ColumnLetters(number);
      assert s[..|s| - 1] == ColumnLetters((number - 1) / 26);
    }
  }

  /** Every letter string is the name of exactly one column. */
  lemma {:induction false} LettersOfNumber(s: string)
    requires Letters(s)
    ensures ColumnLetters(ColumnNumber(s)) == s
  {
    if s != "" {
      var init, last := s[..|s| - 1], s[|s| - 1] as int - 'A' as int;
      LettersOfNumber(init);
      assert (ColumnNumber(s) - 1) / 26 == ColumnNumber(init);
      assert Letter(last) == s[|s| - 1];
    }
  }

  // ----- escaping

  function ReplaceAll(value: string, c: char, to: string): string {
    if value == "" then "" else (if value[0] == c then to else [value[0]]) + ReplaceAll(value[1..], c, to)
  }

  /** `xmlEscape`: five replacements, one after the other. */
  function XmlEscape(value: string): string {
    var v1 := ReplaceAll(value, '&', "&amp;");
    var v2 := ReplaceAll(v1, '<', "&lt;");
    var v3 := ReplaceAll(v2, '>', "&gt;");
    var v4 := ReplaceAll(v3, '"', "&quot;");
    ReplaceAll(v4, '\'', "&apos;")
  }

  function Entity(c: char): string {
    match c
    case '&' => "&amp;"
    case '<' => "&lt;"
    case '>' => "&gt;"
    case '"' => "&quot;"
    case '\'' => "&apos;"
    case _ => [c]
  }

  function EscapeOnce(value: string): string {
    if value == "" then "" else Entity(value[0]) + EscapeOnce(value[1..])
  }

  lemma {:induction false} ReplaceConcat(a: string, b: string, c: char, to: string)
    ensures ReplaceAll(a + b, c, to) == ReplaceAll(a, c, to) + ReplaceAll(b, c, to)
  {
    if a == "" {
      assert a + b == b;
    } else {
      assert (a + b)[1..] == a[1..] + b;
      ReplaceConcat(a[1..], b, c, to);
    }
  }

  lemma {:induction false} ReplaceAbsent(a: string, c: char, to: string)
    requires c !in a
    ensures ReplaceAll(a, c, to) == a
  {
    if a != "" {
      ReplaceAbsent(a[1..], c, to);
    }
  }

  lemma EscapeConcat(a: string, b: string)
    ensures XmlEscape(a + b) == XmlEscape(a) + XmlEscape(b)
  {
    ReplaceConcat(a, b, '&', "&amp;");
    var a1, b1 := ReplaceAll(a, '&', "&amp;"), ReplaceAll(b, '&', "&amp;");
    ReplaceConcat(a1, b1, '<', "&lt;");
    var a2, b2 := ReplaceAll(a1, '<', "&lt;"), ReplaceAll(b1, '<', "&lt;");
    ReplaceConcat(a2, b2, '>', "&gt;");
    var a3, b3 := ReplaceAll(a2, '>', "&gt;"), ReplaceAll(b2, '>', "&gt;");
    ReplaceConcat(a3, b3, '"', "&quot;");
    var a4, b4 := ReplaceAll(a3, '"', "&quot;"), ReplaceAll(b3, '"', "&quot;");
    ReplaceConcat(a4, b4, '\'', "&apos;");
  }

  lemma ReplaceOne(x: char, c: char, to: string)
    ensures ReplaceAll([x], c, to) == if x == c then to else [x]
  {
  }

  /** Entities contain none of the characters replaced after the ampersand. */
  lemma EntityInert(e: string)
    requires e in {"&amp;", "&lt;", "&gt;", "&quot;", "&apos;"}
    ensures '<' !in e && '>' !in e && '"' !in e && '\'' !in e
  {
  }

  lemma EscapeChar(c: char)
    ensures XmlEscape([c]) == Entity(c)
  {
    hide ReplaceAll;
    var e := Entity(c);
    ReplaceOne(c, '&', "&amp;");
    ReplaceOne(c, '<', "&lt;");
    ReplaceOne(c, '>', "&gt;");
    ReplaceOne(c, '"', "&quot;");
    ReplaceOne(c, '\'', "&apos;");
    if c in {'&', '<', '>', '"', '\''} {
      EntityInert(e);
      ReplaceAbsent(e, '<', "&lt;");
      ReplaceAbsent(e, '>', "&gt;");
      ReplaceAbsent(e, '"', "&quot;");
      ReplaceAbsent(e, '\'', "&apos;");
    }
  }

  /** No replacement disturbs an entity inserted by an earlier one. */
  lemma {:induction false} EscapeIsOnePass(value: string)
    ensures XmlEscape(value) == EscapeOnce(value)
  {
    if value == "" {
      assert XmlEscape("") == "";
    } else {
      EscapeConcat([value[0]], value[1..]);
      assert [value[0]] + value[1..] == value;
      EscapeChar(value[0]);
      EscapeIsOnePass(value[1..]);
    }
  }

  /** Character data of a normalized document: entities are replaced, and anything that could be markup is
      refused. */
  function Unescape(text: string): Option<string>
    decreases |text|
  {
    if text == "" then Some("")
    else if text[0] == '<' || text[0] == '>' || text[0] == '"' || text[0] == '\'' then None
    else if text[0] != '&' then Push(text[0], Unescape(text[1..]))
    else if "&amp;" <= text then Push('&', Unescape(text[5..]))
    else if "&lt;" <= text then Push('<', Unescape(text[4..]))
    else if "&gt;" <= text then Push('>', Unescape(text[4..]))
    else if "&quot;" <= text then Push('"', Unescape(text[6..]))
    else if "&apos;" <= text then Push('\'', Unescape(text[6..]))
    else None
  }

  function Push(c: char, rest: Option<string>): Option<string> {
    if rest.Some? then Some([c] + rest.value) else None
  }

  lemma UnescapeEntity(c: char, rest: string)
    ensures Unescape(Entity(c) + rest) == Push(c, Unescape(rest))
  {
    var e := Entity(c);
    var text := e + rest;
    assert text[|e|..] == rest;
    assert text[0] == e[0];
    if c == '<' || c == '>' || c == '"' || c == '\'' || c == '&' {
      assert e <= text;
      assert text[1] == e[1] && text[2] == e[2];
    }
  }

  lemma {:induction false} UnescapeOnce(value: string)
    ensures Unescape(EscapeOnce(value)) == Some(value)
  {
    if value != "" {
      UnescapeEntity(value[0], EscapeOnce(value[1..]));
      UnescapeOnce(value[1..]);
      assert [value[0]] + value[1..] == value;
    }
  }

  lemma EntityClean(c: char)
    ensures var e := Entity(c); '<' !in e && '>' !in e && '"' !in e && '\'' !in e
  {
  }

  lemma {:induction false} NoMarkupOnce(value: string)
    ensures var e := EscapeOnce(value); '<' !in e && '>' !in e && '"' !in e && '\'' !in e
  {
    if value != "" {
      EntityClean(value[0]);
      hide Entity;
      NoMarkupOnce(value[1..]);
    }
  }

  /** Escaped text holds no markup character and unescapes to the original. */
  lemma EscapeRoundTrip(value: string)
    ensures Unescape(XmlEscape(value)) == Some(value)
    ensures var e := XmlEscape(value); '<' !in e && '>' !in e && '"' !in e && '\'' !in e
  {
    EscapeIsOnePass(value);
    UnescapeOnce(value);
    NoMarkupOnce(value);
  }

  // ----- generated rows

  const CELL_OPEN := "<c r=\""
  const CELL_TYPE := "\" t=\"inlineStr\"><is><t>"
  const CELL_CLOSE := "</t></is></c>"
  const ROW_OPEN := "<row r=\""
  const ROW_NUMBERED := "\">"
  const ROW_CLOSE := "</row>"

  function Reference(column: nat, row: nat): string {
    ColumnLetters(column + 1) + Decimal.Print(row + 1)
  }

  function CellXml(column: nat, row: nat, text: string): string {
    CELL_OPEN + Reference(column, row) + CELL_TYPE + XmlEscape(text) + CELL_CLOSE
  }

  /** The cells of a row from `column` on, joined. */
  function CellsXml(cells: seq<string>, column: nat, row: nat): string {
    if cells == [] then "" else CellXml(column, row, cells[0]) + CellsXml(cells[1..], column + 1, row)
  }

  function RowXml(cells: seq<string>, row: nat): string {
    ROW_OPEN + Decimal.Print(row + 1) + ROW_NUMBERED + CellsXml(cells, 0, row) + ROW_CLOSE
  }

  /** The `sheetRows` of `buildXlsxExport`, numbering from `row`. */
  function RowsXml(rows: seq<seq<string>>, row: nat): string {
    if rows == [] then "" else RowXml(rows[0], row) + RowsXml(rows[1..], row + 1)
  }

  /** The markup around references, numbers and texts: inline strings in cells, cells in rows. */
  lemma MarkupAsWritten(cells: seq<string>, column: nat, row: nat, text: string)
    ensures CellXml(column, row, text) ==
            "<c r=\"" + Reference(column, row) + "\" t=\"inlineStr\"><is><t>" + XmlEscape(text) + "</t></is></c>"
    ensures RowsXml([cells], row) ==
            "<row r=\"" + Decimal.Print(row + 1) + "\">" + CellsXml(cells, 0, row) + "</row>"
  {
    hide Reference, XmlEscape, CellsXml;
    assert [cells][1..] == [];
    assert RowsXml([], row + 1) == "";
  }

  // ----- the scanner

  /** A cell with the position its reference names, both counted from zero. */
  datatype Placed = Placed(column: nat, row: nat, text: string)

  /** A row with the number its own attribute gives, counted from zero. */
  datatype PlacedRow = PlacedRow(row: nat, cells: seq<Placed>)

  function Expect(input: string, literal: string): (rest: Option<string>)
    ensures rest.Some? ==> |input| == |literal| + |rest.value|
  {
    if literal <= input then Some(input[|literal|..]) else None
  }

  /** How many characters stand before the first `stop`. */
  function Before(input: string, stop: char): (n: nat)
    ensures n <= |input|
  {
    if input == "" || input[0] == stop then 0 else 1 + Before(input[1..], stop)
  }

  function LeadingLetters(s: string): (n: nat)
    ensures n <= |s| && Letters(s[..n])
  {
    if s == "" || !IsLetter(s[0]) then 0
    else
      assert s[..1 + LeadingLetters(s[1..])] == [s[0]] + s[1..][..LeadingLetters(s[1..])];
      1 + LeadingLetters(s[1..])
  }

  predicate AllDigits(s: string) {
    s != "" && forall i :: 0 <= i < |s| ==> Decimal.IsDigit(s[i])
  }

  function ReadNumber(s: string): Option<nat> {
    if AllDigits(s) && Decimal.Parse(s) > 0 then Some(Decimal.Parse(s) - 1) else None
  }

  function ReadReference(s: string): Option<(nat, nat)> {
    var n := LeadingLetters(s);
    if n == 0 || ColumnNumber(s[..n]) == 0 then None
    else
      match ReadNumber(s[n..])
      case None => None
      case Some(row) => Some((ColumnNumber(s[..n]) - 1, row))
  }

  /** One cell, after its opening `<c r="`. */
  function ReadCell(input: string): (r: Option<(Placed, string)>)
    ensures r.Some? ==> |r.value.1| < |input|
  {
    var n := Before(input, '"');
    match (ReadReference(input[..n]), Expect(input[n..], CELL_TYPE))
    case (Some(at), Some(body)) =>
      var m := Before(body, '<');
      (match (Unescape(body[..m]), Expect(body[m..], CELL_CLOSE))
       case (Some(text), Some(rest)) => Some((Placed(at.0, at.1, text), rest))
       case _ => None)
    case _ => None
  }

  function ReadCells(input: string): (r: Option<(seq<Placed>, string)>)
    ensures r.Some? ==> |r.value.1| <= |input|
    decreases |input|
  {
    match Expect(input, CELL_OPEN)
    case None => Some(([], input))
    case Some(body) =>
      match ReadCell(body)
      case None => None
      case Some((cell, rest)) =>
        match ReadCells(rest)
        case None => None
        case Some((cells, after)) => Some(([cell] + cells, after))
  }

  /** One row, after its opening `<row r="`. */
  function ReadRow(input: string): (r: Option<(PlacedRow, string)>)
    ensures r.Some? ==> |r.value.1| < |input|
  {
    var n := Before(input, '"');
    match (ReadNumber(input[..n]), Expect(input[n..], ROW_NUMBERED))
    case (Some(row), Some(body)) =>
      (match ReadCells(body)
       case None => None
       case Some((cells, after)) =>
         match Expect(after, ROW_CLOSE)
         case None => None
         case Some(rest) => Some((PlacedRow(row, cells), rest)))
    case _ => None
  }

  function ReadRows(input: string): Option<seq<PlacedRow>>
    decreases |input|
  {
    if input == "" then Some([])
    else
      match Expect(input, ROW_OPEN)
      case None => None
      case Some(body) =>
        match ReadRow(body)
        case None => None
        case Some((row, rest)) =>
          match ReadRows(rest)
          case None => None
          case Some(rows) => Some([row] + rows)
  }

  // ----- round trip

  lemma ExpectLiteral(literal: string, rest: string)
    ensures Expect(literal + rest, literal) == Some(rest)
  {
  }

  lemma {:induction false} BeforeStop(text: string, rest: string, stop: char)
    requires stop !in text && rest != "" && rest[0] == stop
    ensures Before(text + rest, stop) == |text|
    ensures (text + rest)[..|text|] == text && (text + rest)[|text|..] == rest
  {
    if text == "" {
      assert text + rest == rest;
    } else {
      assert (text + rest)[1..] == text[1..] + rest;
      BeforeStop(text[1..], rest, stop);
    }
  }

  lemma {:induction false} LettersThenDigits(a: string, b: string)
    requires Letters(a) && AllDigits(b)
    ensures LeadingLetters(a + b) == |a|
    ensures (a + b)[..|a|] == a && (a + b)[|a|..] == b
  {
    if a == "" {
      assert a + b == b;
    } else {
      assert (a + b)[1..] == a[1..] + b;
      LettersThenDigits(a[1..], b);
    }
  }

  /** Each reference decodes to its own column and row. */
  lemma ReferenceReads(column: nat, row: nat)
    ensures ReadReference(Reference(column, row)) == Some((column, row))
    ensures '"' !in Reference(column, row)
  {
    var a, b := ColumnLetters(column + 1), Decimal.Print(row + 1);
    LettersThenDigits(a, b);
    NumberOfLetters(column + 1);
    Decimal.ParsePrint(row + 1);
  }

  /** A cell behind its opening. */
  function CellBody(column: nat, row: nat, text: string, rest: string): string {
    Reference(column, row) + (CELL_TYPE + (XmlEscape(text) + (CELL_CLOSE + rest)))
  }

  lemma BodyReads(column: nat, row: nat, text: string, rest: string)
    ensures ReadCell(CellBody(column, row, text, rest)) == Some((Placed(column, row, text), rest))
  {
    hide Reference, XmlEscape, ReadReference, Unescape, Expect;
    var reference, escaped := Reference(column, row), XmlEscape(text);
    var closing := CELL_CLOSE + rest;
    var typed := CELL_TYPE + (escaped + closing);
    ReferenceReads(column, row);
    BeforeStop(reference, typed, '"');
    ExpectLiteral(CELL_TYPE, escaped + closing);
    EscapeRoundTrip(text);
    BeforeStop(escaped, closing, '<');
    ExpectLiteral(CELL_CLOSE, rest);
  }

  lemma CellScans(column: nat, row: nat, text: string, rest: string)
    ensures exists body ::
              && Expect(CellXml(column, row, text) + rest, CELL_OPEN) == Some(body)
              && ReadCell(body) == Some((Placed(column, row, text), rest))
  {
    hide Reference, XmlEscape, ReadCell, CELL_OPEN, CELL_TYPE, CELL_CLOSE, Expect;
    var body := CellBody(column, row, text, rest);
    assert CellXml(column, row, text) + rest == CELL_OPEN + body;
    ExpectLiteral(CELL_OPEN, body);
    BodyReads(column, row, text, rest);
  }

  function PlacedCells(cells: seq<string>, column: nat, row: nat): seq<Placed> {
    if cells == [] then [] else [Placed(column, row, cells[0])] + PlacedCells(cells[1..], column + 1, row)
  }

  function PlacedRows(rows: seq<seq<string>>, row: nat): seq<PlacedRow> {
    if rows == [] then [] else [PlacedRow(row, PlacedCells(rows[0], 0, row))] + PlacedRows(rows[1..], row + 1)
  }

  lemma {:induction false} CellsRead(cells: seq<string>, column: nat, row: nat, rest: string)
    ensures ReadCells(CellsXml(cells, column, row) + (ROW_CLOSE + rest)) ==
            Some((PlacedCells(cells, column, row), ROW_CLOSE + rest))
    decreases |cells|
  {
    var after := ROW_CLOSE + rest;
    if cells == [] {
      hide ReadCells, ReadCell;
      assert CellsXml(cells, column, row) + after == after;
      NoCellLeft(rest);
    } else {
      hide CellXml, CellsXml, ReadCells, ReadCell, ROW_CLOSE, CELL_OPEN, Expect;
      var tail := CellsXml(cells[1..], column + 1, row) + after;
      FirstCell(cells, column, row, after);
      CellScans(column, row, cells[0], tail);
      CellsRead(cells[1..], column + 1, row, rest);
      CellThenCells(CellXml(column, row, cells[0]) + tail, Placed(column, row, cells[0]), tail,
                    PlacedCells(cells[1..], column + 1, row), after);
    }
  }

  lemma FirstCell(cells: seq<string>, column: nat, row: nat, after: string)
    requires cells != []
    ensures CellsXml(cells, column, row) + after ==
            CellXml(column, row, cells[0]) + (CellsXml(cells[1..], column + 1, row) + after)
  {
    hide CellXml;
  }

  lemma NoCellLeft(rest: string)
    ensures ReadCells(ROW_CLOSE + rest) == Some(([], ROW_CLOSE + rest))
  {
    hide ReadCell;
    assert (ROW_CLOSE + rest)[1] != CELL_OPEN[1];
  }

  lemma CellThenCells(input: string, cell: Placed, tail: string, cells: seq<Placed>, after: string)
    requires exists body :: Expect(input, CELL_OPEN) == Some(body) && ReadCell(body) == Some((cell, tail))
    requires ReadCells(tail) == Some((cells, after))
    ensures ReadCells(input) == Some(([cell] + cells, after))
  {
    hide ReadCell, CELL_OPEN, Expect;
  }

  lemma RowReads(cells: seq<string>, row: nat, rest: string)
    ensures exists body ::
              && Expect(RowXml(cells, row) + rest, ROW_OPEN) == Some(body)
              && ReadRow(body) == Some((PlacedRow(row, PlacedCells(cells, 0, row)), rest))
  {
    hide CellsXml, ReadCells, PlacedCells, ROW_OPEN, Expect;
    var number := Decimal.Print(row + 1);
    var content := CellsXml(cells, 0, row) + (ROW_CLOSE + rest);
    var numbered := ROW_NUMBERED + content;
    var body := number + numbered;
    assert RowXml(cells, row) + rest == ROW_OPEN + body;
    ExpectLiteral(ROW_OPEN, body);
    BeforeStop(number, numbered, '"');
    Decimal.ParsePrint(row + 1);
    ExpectLiteral(ROW_NUMBERED, content);
    CellsRead(cells, 0, row, rest);
    ExpectLiteral(ROW_CLOSE, rest);
  }

  /** Scanning rows no reader has to normalize returns every text at its own row and column. */
  lemma {:induction false} RowsScan(rows: seq<seq<string>>, row: nat)
    ensures ReadRows(RowsXml(rows, row)) == Some(PlacedRows(rows, row))
    decreases |rows|
  {
    if rows != [] {
      hide RowXml, ReadRow, Expect;
      var tail := RowsXml(rows[1..], row + 1);
      RowReads(rows[0], row, tail);
      RowsScan(rows[1..], row + 1);
    }
  }

  lemma {:induction false} PlacedAt(rows: seq<seq<string>>, row: nat, i: nat, j: nat)
    requires i < |rows| && j < |rows[i]|
    ensures var placed := PlacedRows(rows, row);
            && |placed| == |rows| && |placed[i].cells| == |rows[i]|
            && placed[i].row == row + i
            && placed[i].cells[j] == Placed(j, row + i, rows[i][j])
    decreases |rows|
  {
    PlacedSizes(rows, row);
    if i == 0 {
      PlacedCellAt(rows[0], 0, row, j);
    } else {
      PlacedAt(rows[1..], row + 1, i - 1, j);
    }
  }

  lemma {:induction false} PlacedSizes(rows: seq<seq<string>>, row: nat)
    ensures |PlacedRows(rows, row)| == |rows|
    decreases |rows|
  {
    if rows != [] {
      PlacedSizes(rows[1..], row + 1);
    }
  }

  lemma {:induction false} PlacedCellAt(cells: seq<string>, column: nat, row: nat, j: nat)
    requires j < |cells|
    ensures var placed := PlacedCells(cells, column, row);
            |placed| == |cells| && placed[j] == Placed(column + j, row, cells[j])
    decreases |cells|
  {
    if |cells| > 1 {
      PlacedCellAt(cells[1..], column + 1, row, if j > 0 then j - 1 else 0);
    } else {
      assert PlacedCells(cells[1..], column + 1, row) == [];
    }
  }

  // ----- what an XML reader makes of it

  /** The rows as a reader of XML 1.0 takes them. */
  function ReadXml(input: string): Option<seq<PlacedRow>> {
    if Xml.AllChars(input) then ReadRows(Xml.NormalizeLineEnds(input)) else None
  }

  /** Texts that XML can carry at all. */
  predicate Carried(rows: seq<seq<string>>) {
    forall i :: 0 <= i < |rows| ==> CellsCarried(rows[i])
  }

  predicate CellsCarried(cells: seq<string>) {
    forall j :: 0 <= j < |cells| ==> Xml.AllChars(cells[j])
  }

  /** Texts that XML carries unchanged: no character it forbids, and no carriage return. */
  predicate Clean(rows: seq<seq<string>>) {
    forall i, j :: 0 <= i < |rows| && 0 <= j < |rows[i]| ==> Xml.AllChars(rows[i][j]) && '\r' !in rows[i][j]
  }

  function NormalizeCells(cells: seq<string>): (r: seq<string>)
    ensures |r| == |cells| && forall j :: 0 <= j < |cells| ==> r[j] == Xml.NormalizeLineEnds(cells[j])
  {
    if cells == [] then [] else [Xml.NormalizeLineEnds(cells[0])] + NormalizeCells(cells[1..])
  }

  function NormalizeAll(rows: seq<seq<string>>): (r: seq<seq<string>>)
    ensures |r| == |rows| && forall i :: 0 <= i < |rows| ==> r[i] == NormalizeCells(rows[i])
  {
    if rows == [] then [] else [NormalizeCells(rows[0])] + NormalizeAll(rows[1..])
  }

  lemma EntityStarts(c: char)
    ensures Entity(c) != "" && (Entity(c)[0] == '\n' <==> c == '\n')
    ensures c != '\r' ==> '\r' !in Entity(c)
    ensures Xml.AllChars(Entity(c)) <==> Xml.IsChar(c)
  {
    var e := Entity(c);
    if e == [c] {
      assert e[0] == c;
    } else {
      hide Xml.IsChar;
      EntityChars(e);
      assert Xml.IsChar(c) by { MarkupChar(c); }
    }
  }

  lemma EntityChars(e: string)
    requires e in {"&amp;", "&lt;", "&gt;", "&quot;", "&apos;"}
    ensures Xml.AllChars(e) && '\r' !in e
  {
  }

  lemma MarkupChar(c: char)
    requires c in {'&', '<', '>', '"', '\''}
    ensures Xml.IsChar(c)
  {
  }

  lemma EscapeCons(c: char, text: string)
    ensures EscapeOnce([c] + text) == Entity(c) + EscapeOnce(text)
  {
    assert ([c] + text)[1..] == text;
  }

  lemma PlainStep(c: char, rest: string)
    requires c != '\r'
    ensures Xml.NormalizeLineEnds(Entity(c) + rest) == Entity(c) + Xml.NormalizeLineEnds(rest)
  {
    EntityStarts(c);
    hide Entity;
    Xml.NothingToNormalize(Entity(c));
    LastOf(Entity(c));
    Xml.NormalizeConcat(Entity(c), rest);
  }

  lemma ReturnStep(rest: string)
    ensures Xml.NormalizeLineEnds("\r" + ("\n" + rest)) == "\n" + Xml.NormalizeLineEnds(rest)
    ensures (rest == "" || rest[0] != '\n') ==> Xml.NormalizeLineEnds("\r" + rest) == "\n" + Xml.NormalizeLineEnds(rest)
  {
    assert ("\r" + ("\n" + rest))[2..] == rest;
    assert ("\r" + rest)[1..] == rest;
  }

  lemma LineEndEntities()
    ensures Entity('\r') == "\r" && Entity('\n') == "\n"
  {
  }

  /** Escaping and normalizing commute. */
  lemma {:induction false} NormalizeEscaped(text: string)
    ensures Xml.NormalizeLineEnds(EscapeOnce(text)) == EscapeOnce(Xml.NormalizeLineEnds(text))
    decreases |text|
  {
    if text != "" {
      var c, tail := text[0], text[1..];
      assert text == [c] + tail;
      EscapeCons(c, tail);
      LineEndEntities();
      if c != '\r' {
        NormalizeEscaped(tail);
        PlainStep(c, EscapeOnce(tail));
        EscapeCons(c, Xml.NormalizeLineEnds(tail));
      } else if tail != "" && tail[0] == '\n' {
        assert tail == "\n" + text[2..];
        NormalizeEscaped(text[2..]);
        EscapeCons('\n', text[2..]);
        ReturnStep(EscapeOnce(text[2..]));
        EscapeCons('\n', Xml.NormalizeLineEnds(text[2..]));
      } else {
        NormalizeEscaped(tail);
        if tail != "" { EscapeStarts(tail); }
        ReturnStep(EscapeOnce(tail));
        EscapeCons('\n', Xml.NormalizeLineEnds(tail));
      }
      hide Entity, EscapeOnce;
    }
  }

  lemma EscapeStarts(text: string)
    requires text != ""
    ensures EscapeOnce(text) != "" && (EscapeOnce(text)[0] == '\n' <==> text[0] == '\n')
  {
    EntityStarts(text[0]);
    hide Entity;
  }

  lemma LastOf(text: string)
    requires text != ""
    ensures text[|text| - 1] in text
  {
  }

  lemma {:induction false} CharsEscaped(text: string)
    ensures Xml.AllChars(EscapeOnce(text)) <==> Xml.AllChars(text)
  {
    if text != "" {
      EntityStarts(text[0]);
      CharsEscaped(text[1..]);
      Xml.AllCharsConcat(Entity(text[0]), EscapeOnce(text[1..]));
      Xml.AllCharsConcat([text[0]], text[1..]);
      assert [text[0]] + text[1..] == text;
      assert Xml.AllChars([text[0]]) <==> Xml.IsChar(text[0]);
      hide Entity, Xml.IsChar, Xml.AllChars;
    }
  }

  /** Letters, digits and markup are plain characters. */
  predicate Plain(text: string) {
    Xml.AllChars(text) && '\r' !in text
  }

  lemma PlainConcat(a: string, b: string)
    requires Plain(a) && Plain(b)
    ensures Plain(a + b)
  {
    Xml.AllCharsConcat(a, b);
  }

  lemma ReferencePlain(column: nat, row: nat)
    ensures Plain(Reference(column, row)) && Plain(Decimal.Print(row + 1))
  {
    var letters, digits := ColumnLetters(column + 1), Decimal.Print(row + 1);
    forall i | 0 <= i < |letters|
      ensures Xml.IsChar(letters[i]) && letters[i] != '\r'
    {
      assert IsLetter(letters[i]);
    }
    forall i | 0 <= i < |digits|
      ensures Xml.IsChar(digits[i]) && digits[i] != '\r'
    {
      assert Decimal.IsDigit(digits[i]);
    }
    PlainConcat(letters, digits);
  }

  lemma MarkupPlain()
    ensures Plain(CELL_OPEN) && Plain(CELL_TYPE) && Plain(CELL_CLOSE) && Plain(ROW_OPEN) && Plain(ROW_NUMBERED)
            && Plain(ROW_CLOSE)
  {
  }

  function CellOpening(column: nat, row: nat): string {
    CELL_OPEN + Reference(column, row) + CELL_TYPE
  }

  lemma CellOpeningPlain(column: nat, row: nat)
    ensures Plain(CellOpening(column, row)) && Plain(CELL_CLOSE) && CELL_CLOSE[0] == '<'
  {
    MarkupPlain();
    ReferencePlain(column, row);
    hide Reference, Xml.AllChars, CELL_OPEN, CELL_TYPE;
    PlainConcat(CELL_OPEN, Reference(column, row));
    PlainConcat(CELL_OPEN + Reference(column, row), CELL_TYPE);
  }

  lemma CellIs(column: nat, row: nat, text: string)
    ensures CellXml(column, row, text) == CellOpening(column, row) + (EscapeOnce(text) + CELL_CLOSE)
  {
    EscapeIsOnePass(text);
    hide Reference, XmlEscape, EscapeOnce, CELL_OPEN, CELL_TYPE, CELL_CLOSE;
  }

  /** A cell is normalized by normalizing its text, and is made of characters exactly if its text is. */
  lemma CellNormalizes(column: nat, row: nat, text: string)
    ensures Xml.NormalizeLineEnds(CellXml(column, row, text)) == CellXml(column, row, Xml.NormalizeLineEnds(text))
    ensures Xml.AllChars(CellXml(column, row, text)) <==> Xml.AllChars(text)
  {
    var before, escaped := CellOpening(column, row), EscapeOnce(text);
    CellOpeningPlain(column, row);
    CellIs(column, row, text);
    CellIs(column, row, Xml.NormalizeLineEnds(text));
    NormalizeEscaped(text);
    CharsEscaped(text);
    hide CellXml, CellOpening, EscapeOnce, Xml.AllChars, Xml.NormalizeLineEnds, CELL_CLOSE;
    Xml.NormalizeInside(before, escaped, CELL_CLOSE);
    Xml.AllCharsConcat(escaped, CELL_CLOSE);
    Xml.AllCharsConcat(before, escaped + CELL_CLOSE);
  }

  /** A generated cell scans back to its position and its text with line ends normalized: to its text if and
      only if that holds no carriage return. */
  lemma CellReads(column: nat, row: nat, text: string, rest: string)
    ensures Xml.AllChars(CellXml(column, row, text)) <==> Xml.AllChars(text)
    ensures var read := Xml.NormalizeLineEnds(text);
            && (exists body ::
                  && Expect(Xml.NormalizeLineEnds(CellXml(column, row, text)) + rest, CELL_OPEN) == Some(body)
                  && ReadCell(body) == Some((Placed(column, row, read), rest)))
            && (read == text <==> '\r' !in text)
  {
    hide CellXml, ReadCell, Expect, CELL_OPEN;
    CellNormalizes(column, row, text);
    CellScans(column, row, Xml.NormalizeLineEnds(text), rest);
    Xml.NormalizedSame(text);
  }

  lemma {:induction false} CellsNormalize(cells: seq<string>, column: nat, row: nat)
    ensures Xml.NormalizeLineEnds(CellsXml(cells, column, row)) == CellsXml(NormalizeCells(cells), column, row)
    ensures Xml.AllChars(CellsXml(cells, column, row)) <==> CellsCarried(cells)
    ensures CellsXml(cells, column, row) != "" ==> CellsXml(cells, column, row)[0] == '<'
    decreases |cells|
  {
    if cells != [] {
      var first, others := CellXml(column, row, cells[0]), CellsXml(cells[1..], column + 1, row);
      CellNormalizes(column, row, cells[0]);
      CellsNormalize(cells[1..], column + 1, row);
      CellStarts(column, row, cells[0]);
      hide CellXml, Xml.AllChars, Xml.NormalizeLineEnds;
      Xml.NormalizeConcat(first, others);
      Xml.AllCharsConcat(first, others);
      assert NormalizeCells(cells)[1..] == NormalizeCells(cells[1..]);
      CellsCarriedSplit(cells);
      hide CellsCarried;
    }
  }

  lemma CellsCarriedSplit(cells: seq<string>)
    requires cells != []
    ensures CellsCarried(cells) <==> Xml.AllChars(cells[0]) && CellsCarried(cells[1..])
  {
    hide Xml.AllChars;
    assert forall j :: 1 <= j < |cells| ==> cells[j] == cells[1..][j - 1];
    if CellsCarried(cells) {
      forall j | 0 <= j < |cells[1..]|
        ensures Xml.AllChars(cells[1..][j])
      {
        assert cells[1..][j] == cells[j + 1];
      }
    }
  }

  lemma CellStarts(column: nat, row: nat, text: string)
    ensures CellXml(column, row, text) != "" && CellXml(column, row, text)[0] == '<'
  {
  }

  function RowOpening(row: nat): string {
    ROW_OPEN + Decimal.Print(row + 1) + ROW_NUMBERED
  }

  lemma OpeningPlain(row: nat)
    ensures Plain(RowOpening(row)) && RowOpening(row)[..1] == "<" && Plain(ROW_CLOSE) && ROW_CLOSE[0] == '<'
  {
    MarkupPlain();
    ReferencePlain(0, row);
    assert RowOpening(row)[0] == ROW_OPEN[0];
    hide Xml.AllChars;
    PlainConcat(ROW_OPEN, Decimal.Print(row + 1));
    PlainConcat(ROW_OPEN + Decimal.Print(row + 1), ROW_NUMBERED);
  }

  lemma RowIs(cells: seq<string>, row: nat)
    ensures RowXml(cells, row) == RowOpening(row) + (CellsXml(cells, 0, row) + ROW_CLOSE)
  {
    hide ROW_OPEN, ROW_NUMBERED, ROW_CLOSE, CellsXml;
  }

  lemma RowNormalizes(cells: seq<string>, row: nat)
    ensures Xml.NormalizeLineEnds(RowXml(cells, row)) == RowXml(NormalizeCells(cells), row)
    ensures Xml.AllChars(RowXml(cells, row)) <==> CellsCarried(cells)
    ensures RowXml(cells, row) != "" && RowXml(cells, row)[0] == '<'
  {
    var before, content := RowOpening(row), CellsXml(cells, 0, row);
    OpeningPlain(row);
    RowIs(cells, row);
    RowIs(NormalizeCells(cells), row);
    CellsNormalize(cells, 0, row);
    hide Xml.AllChars, RowXml, CellsXml, Xml.NormalizeLineEnds, ROW_CLOSE, RowOpening;
    Xml.NormalizeInside(before, content, ROW_CLOSE);
    Xml.AllCharsConcat(content, ROW_CLOSE);
    Xml.AllCharsConcat(before, content + ROW_CLOSE);
    assert before[0] == before[..1][0];
  }

  lemma {:induction false} RowsNormalize(rows: seq<seq<string>>, row: nat)
    ensures Xml.NormalizeLineEnds(RowsXml(rows, row)) == RowsXml(NormalizeAll(rows), row)
    ensures Xml.AllChars(RowsXml(rows, row)) <==> Carried(rows)
    ensures RowsXml(rows, row) != "" ==> RowsXml(rows, row)[0] == '<'
    decreases |rows|
  {
    if rows != [] {
      var first, others := RowXml(rows[0], row), RowsXml(rows[1..], row + 1);
      RowNormalizes(rows[0], row);
      RowsNormalize(rows[1..], row + 1);
      hide RowXml, Xml.AllChars, Xml.NormalizeLineEnds;
      Xml.NormalizeConcat(first, others);
      Xml.AllCharsConcat(first, others);
      assert NormalizeAll(rows)[1..] == NormalizeAll(rows[1..]);
      CarriedSplit(rows);
      hide Carried;
    }
  }

  lemma CarriedSplit(rows: seq<seq<string>>)
    requires rows != []
    ensures Carried(rows) <==> CellsCarried(rows[0]) && Carried(rows[1..])
  {
    hide CellsCarried;
    assert forall i :: 1 <= i < |rows| ==> rows[i] == rows[1..][i - 1];
    if Carried(rows) {
      forall i | 0 <= i < |rows[1..]|
        ensures CellsCarried(rows[1..][i])
      {
        assert rows[1..][i] == rows[i + 1];
      }
    }
  }

  /** Where the texts were placed tells the rows. */
  lemma PlacedInjective(a: seq<seq<string>>, b: seq<seq<string>>, row: nat)
    requires PlacedRows(a, row) == PlacedRows(b, row)
    ensures a == b
  {
    PlacedSizes(a, row);
    PlacedSizes(b, row);
    forall i | 0 <= i < |a|
      ensures a[i] == b[i]
    {
      PlacedRowAt(a, row, i);
      PlacedRowAt(b, row, i);
      forall j | 0 <= j < |a[i]|
        ensures a[i][j] == b[i][j]
      {
        PlacedAt(a, row, i, j);
        PlacedAt(b, row, i, j);
      }
    }
  }

  lemma {:induction false} PlacedRowAt(rows: seq<seq<string>>, row: nat, i: nat)
    requires i < |rows|
    ensures |PlacedRows(rows, row)| == |rows| && |PlacedRows(rows, row)[i].cells| == |rows[i]|
    decreases |rows|
  {
    PlacedSizes(rows, row);
    if i == 0 {
      PlacedCount(rows[0], 0, row);
    } else {
      PlacedRowAt(rows[1..], row + 1, i - 1);
    }
  }

  lemma {:induction false} PlacedCount(cells: seq<string>, column: nat, row: nat)
    ensures |PlacedCells(cells, column, row)| == |cells|
    decreases |cells|
  {
    if cells != [] {
      PlacedCount(cells[1..], column + 1, row);
    }
  }

  lemma CleanIsSame(rows: seq<seq<string>>)
    ensures Clean(rows) <==> Carried(rows) && NormalizeAll(rows) == rows
  {
    forall i, j | 0 <= i < |rows| && 0 <= j < |rows[i]|
      ensures Xml.NormalizeLineEnds(rows[i][j]) == rows[i][j] <==> '\r' !in rows[i][j]
    {
      Xml.NormalizedSame(rows[i][j]);
    }
    hide Xml.AllChars, Xml.NormalizeLineEnds;
    if NormalizeAll(rows) == rows {
      forall i, j | 0 <= i < |rows| && 0 <= j < |rows[i]|
        ensures '\r' !in rows[i][j]
      {
        assert NormalizeAll(rows)[i][j] == rows[i][j];
      }
    }
    if Clean(rows) {
      forall i | 0 <= i < |rows|
        ensures NormalizeAll(rows)[i] == rows[i]
      {
      }
    }
  }

  /** What a reader must get: nothing when a text holds a character XML forbids, and otherwise every text at its
      own row and column with its line ends normalized. */
  ghost predicate ReadsAs(rows: seq<seq<string>>, row: nat, read: Option<seq<PlacedRow>>) {
    && read == (if Carried(rows) then Some(PlacedRows(NormalizeAll(rows), row)) else None)
    && (read == Some(PlacedRows(rows, row)) <==> Clean(rows))
  }

  /** An XML reader gets the rows as they were if and only if no text holds a forbidden character or a carriage
      return; otherwise it gets nothing, or the texts with their line ends normalized. */
  lemma RoundTrip(rows: seq<seq<string>>, row: nat)
    ensures ReadsAs(rows, row, ReadXml(RowsXml(rows, row)))
  {
    RowsNormalize(rows, row);
    RowsScan(NormalizeAll(rows), row);
    CleanIsSame(rows);
    if PlacedRows(NormalizeAll(rows), row) == PlacedRows(rows, row) {
      PlacedInjective(NormalizeAll(rows), rows, row);
    }
    hide Carried, Clean, RowsXml, ReadRows, PlacedRows, Xml.AllChars, Xml.NormalizeLineEnds;
  }

  /** When no text holds a forbidden character, the j-th text of the i-th row is read back at its own column and
      row, unchanged if and only if it holds no carriage return. */
  lemma ReadInPlace(rows: seq<seq<string>>, row: nat, i: nat, j: nat)
    requires Carried(rows) && i < |rows| && j < |rows[i]|
    ensures var read := ReadXml(RowsXml(rows, row));
            && read.Some? && |read.value| == |rows| && |read.value[i].cells| == |rows[i]|
            && read.value[i].row == row + i
            && read.value[i].cells[j] == Placed(j, row + i, Xml.NormalizeLineEnds(rows[i][j]))
            && (read.value[i].cells[j].text == rows[i][j] <==> '\r' !in rows[i][j])
  {
    hide Carried, Clean, RowsXml, ReadXml, PlacedRows, Xml.AllChars, Xml.NormalizeLineEnds;
    RoundTrip(rows, row);
    PlacedAt(NormalizeAll(rows), row, i, j);
    Xml.NormalizedSame(rows[i][j]);
  }

  /** A line break of Windows comes back as a line feed. */
  lemma LineBreakLost(text: string)
    requires text == "a\r\nb"
    ensures ReadXml(RowsXml([[text]], 0)) == Some(PlacedRows([["a\nb"]], 0))
  {
    assert text[1..] == "\r\nb" && "\r\nb"[2..] == "b";
    Xml.NothingToNormalize("b");
    assert Xml.NormalizeLineEnds(text) == "a\nb";
    assert NormalizeAll([[text]])[0] == NormalizeCells([text]);
    assert NormalizeCells([text]) == ["a\nb"];
    assert NormalizeAll([[text]]) == [["a\nb"]];
    assert Xml.AllChars(text);
    hide RowsXml, ReadXml, PlacedRows, Xml.NormalizeLineEnds, Xml.AllChars;
    assert Carried([[text]]);
    RoundTrip([[text]], 0);
  }

  /** A control character makes the sheet unreadable. */
  lemma ControlRefused(text: string)
    requires text == ['\U{1}']
    ensures ReadXml(RowsXml([[text]], 0)) == None
  {
    assert !Xml.IsChar(text[0]) && !Xml.AllChars(text);
    assert [text][0] == text && !CellsCarried([text]);
    assert [[text]][0] == [text] && !Carried([[text]]);
    hide RowsXml, ReadXml, PlacedRows, Xml.NormalizeLineEnds, Xml.AllChars;
    RoundTrip([[text]], 0);
  }
}
