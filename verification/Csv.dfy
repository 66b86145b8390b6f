/** The comma-separated export, and a reader for section 2 of RFC 4180 that takes LF as well as CRLF
    for a line break. */
module Csv {
  import opened Results

  // ----- the export

  function Join(parts: seq<string>, separator: string): string {
    if parts == [] then ""
    else if |parts| == 1 then parts[0]
    else parts[0] + separator + Join(parts[1..], separator)
  }

  function DoubleQuotes(cell: string): string {
    if cell == "" then "" else (if cell[0] == '"' then "\"\"" else [cell[0]]) + DoubleQuotes(cell[1..])
  }

  function Cell(cell: string): string {
    "\"" + DoubleQuotes(cell) + "\""
  }

  function Cells(row: seq<string>): (r: seq<string>)
    ensures |r| == |row|
  {
    seq(|row|, i requires 0 <= i < |row| => Cell(row[i]))
  }

  function Row(row: seq<string>): string {
    Join(Cells(row), ",")
  }

  function Rows(rows: seq<seq<string>>): (r: seq<string>)
    ensures |r| == |rows|
  {
    seq(|rows|, i requires 0 <= i < |rows| => Row(rows[i]))
  }

  /** `buildCsvExport` */
  function Export(rows: seq<seq<string>>): string {
    Join(Rows(rows), "\n")
  }

  lemma {:induction false} JoinAppend(parts: seq<string>, part: string, separator: string)
    requires parts != []
    ensures Join(parts + [part], separator) == Join(parts, separator) + separator + part
  {
    var all := parts + [part];
    assert all[1..] == parts[1..] + [part];
    if |parts| > 1 {
      JoinAppend(parts[1..], part, separator);
      assert Join(all, separator) == parts[0] + separator + Join(all[1..], separator);
    } else {
      assert all[1..] == [part];
    }
  }

  /** Each cell is written between quotes, a comma before each but the first of its row, and a line feed alone
      before each row but the first; nothing ends the last one. */
  lemma ExportGrows(rows: seq<seq<string>>, row: seq<string>, cell: string)
    ensures Export([]) == "" && Export([[cell]]) == "\"" + DoubleQuotes(cell) + "\""
    ensures rows != [] ==> Export(rows + [row]) == Export(rows) + "\n" + Export([row])
    ensures row != [] ==> Export([row + [cell]]) == Export([row]) + "," + Export([[cell]])
  {
    hide DoubleQuotes;
    assert Rows([row]) == [Row(row)] && Rows([[cell]]) == [Row([cell])] && Cells([cell]) == [Cell(cell)];
    assert Rows([row + [cell]]) == [Row(row + [cell])];
    assert Rows(rows + [row]) == Rows(rows) + [Row(row)];
    assert Cells(row + [cell]) == Cells(row) + [Cell(cell)];
    if rows != [] {
      JoinAppend(Rows(rows), Row(row), "\n");
    }
    if row != [] {
      JoinAppend(Cells(row), Cell(cell), ",");
    }
  }

  // ----- the reader

  datatype Mode = FieldStart | Plain | Quoted | QuoteSeen

  function Prepend(record: seq<string>, rest: Option<seq<seq<string>>>): Option<seq<seq<string>>> {
    if rest.Some? then Some([record] + rest.value) else None
  }

  /** `field` and `record` hold what has been read of the current field and of the current record. */
  function Scan(input: string, mode: Mode, field: string, record: seq<string>): Option<seq<seq<string>>>
    decreases |input|
  {
    if input == "" then
      if mode.Quoted? then None
      else if mode.FieldStart? && record == [] then Some([])
      else Some([record + [field]])
    else
      var c, rest := input[0], input[1..];
      if mode.Quoted? then
        if c == '"' then Scan(rest, QuoteSeen, field, record) else Scan(rest, Quoted, field + [c], record)
      else if c == ',' then Scan(rest, FieldStart, "", record + [field])
      else if c == '\n' then Prepend(record + [field], Scan(rest, FieldStart, "", []))
      else if c == '\r' && rest != "" && rest[0] == '\n' then
        Prepend(record + [field], Scan(rest[1..], FieldStart, "", []))
      else if c == '"' then
        match mode
        case FieldStart => Scan(rest, Quoted, field, record)
        case QuoteSeen => Scan(rest, Quoted, field + "\"", record)
        case _ => None
      else if mode.QuoteSeen? then None
      else Scan(rest, Plain, field + [c], record)
  }

  function Read(text: string): Option<seq<seq<string>>> {
    Scan(text, FieldStart, "", [])
  }

  // ----- round trip

  lemma {:induction false} QuotedText(cell: string, rest: string, field: string, record: seq<string>)
    ensures Scan(DoubleQuotes(cell) + "\"" + rest, Quoted, field, record) == Scan(rest, QuoteSeen, field + cell, record)
    decreases |cell|
  {
    var tail := DoubleQuotes(cell) + "\"" + rest;
    if cell == "" {
      assert tail[1..] == rest;
      assert field + cell == field;
    } else {
      var shorter := DoubleQuotes(cell[1..]) + "\"" + rest;
      QuotedText(cell[1..], rest, field + [cell[0]], record);
      assert field + cell == field + [cell[0]] + cell[1..];
      if cell[0] == '"' {
        assert tail[1..] == "\"" + shorter;
        assert tail[1..][1..] == shorter;
      } else {
        assert tail[1..] == shorter;
      }
    }
  }

  lemma CellText(cell: string, rest: string, record: seq<string>)
    ensures Scan(Cell(cell) + rest, FieldStart, "", record) == Scan(rest, QuoteSeen, cell, record)
  {
    assert (Cell(cell) + rest)[1..] == DoubleQuotes(cell) + "\"" + rest;
    QuotedText(cell, rest, "", record);
    assert "" + cell == cell;
  }

  lemma {:induction false} RowText(row: seq<string>, rest: string, record: seq<string>)
    requires row != []
    ensures Scan(Row(row) + rest, FieldStart, "", record) ==
            Scan(rest, QuoteSeen, row[|row| - 1], record + row[..|row| - 1])
    decreases |row|
  {
    if |row| == 1 {
      assert Row(row) == Cell(row[0]);
      CellText(row[0], rest, record);
      assert record + row[..0] == record;
    } else {
      var tail := row[1..];
      assert Cells(row)[1..] == Cells(tail);
      var after := "," + (Row(tail) + rest);
      assert Row(row) + rest == Cell(row[0]) + after;
      CellText(row[0], after, record);
      assert after[1..] == Row(tail) + rest;
      RowText(tail, rest, record + [row[0]]);
      assert record + [row[0]] + tail[..|tail| - 1] == record + row[..|row| - 1];
    }
  }

  ghost predicate NoEmptyRow(rows: seq<seq<string>>) {
    forall i :: 0 <= i < |rows| ==> rows[i] != []
  }

  lemma {:induction false} ExportReads(rows: seq<seq<string>>)
    requires NoEmptyRow(rows)
    ensures Read(Export(rows)) == Some(rows)
  {
    if rows != [] {
      var row, tail := rows[0], rows[1..];
      assert row[..|row| - 1] + [row[|row| - 1]] == row;
      if tail == [] {
        assert Export(rows) == Row(row) + "";
        RowText(row, "", []);
        assert [] + row[..|row| - 1] == row[..|row| - 1];
        assert rows == [row];
      } else {
        assert Rows(rows)[1..] == Rows(tail);
        var after := "\n" + Export(tail);
        assert Export(rows) == Row(row) + after;
        RowText(row, after, []);
        assert [] + row[..|row| - 1] == row[..|row| - 1];
        assert after[1..] == Export(tail);
        ExportReads(tail);
        assert rows == [row] + tail;
      }
    }
  }

  /** No record comes back without a field. */
  lemma {:induction false} RecordsHaveFields(input: string, mode: Mode, field: string, record: seq<string>)
    ensures var r := Scan(input, mode, field, record); r.Some? ==> NoEmptyRow(r.value)
    decreases |input|
  {
    if input != "" {
      var c, rest := input[0], input[1..];
      if mode.Quoted? {
        RecordsHaveFields(rest, if c == '"' then QuoteSeen else Quoted, if c == '"' then field
          else field + [c], record);
      } else if c == ',' {
        RecordsHaveFields(rest, FieldStart, "", record + [field]);
      } else if c == '\n' {
        RecordsHaveFields(rest, FieldStart, "", []);
      } else if c == '\r' && rest != "" && rest[0] == '\n' {
        RecordsHaveFields(rest[1..], FieldStart, "", []);
      } else if c == '"' {
        RecordsHaveFields(rest, Quoted, field, record);
        RecordsHaveFields(rest, Quoted, field + "\"", record);
      } else {
        RecordsHaveFields(rest, Plain, field + [c], record);
      }
    }
  }

  /** The export can be read back unchanged exactly when no row is empty, whatever the cells hold. */
  lemma RoundTrip(rows: seq<seq<string>>)
    ensures Read(Export(rows)) == Some(rows) <==> NoEmptyRow(rows)
  {
    RecordsHaveFields(Export(rows), FieldStart, "", []);
    if NoEmptyRow(rows) {
      ExportReads(rows);
    }
  }
}
