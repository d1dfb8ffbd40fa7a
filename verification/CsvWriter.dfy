// Writing table rows as comma-separated text
// (blocks/data/src/catalog/census_acs.rs), and a reader that follows the
// quoting rules of section 2 of RFC 4180 with LF between records.
module CsvWriter {
  import opened Pipelines

  // ---- The writer ------------------------------------------------------------------

  predicate NeedsQuote(cell: string) {
    ',' in cell || '"' in cell || '\n' in cell
  }

  function EscapedChar(c: char): string {
    if c == '"' then ['"', '"'] else [c]
  }

  /** Every quote doubled. */
  function Escaped(cell: string): string {
    if cell == [] then []
    else
      var c := cell[|cell| - 1];
      Escaped(cell[..|cell| - 1]) + EscapedChar(c)
  }

  function CellText(cell: string): string {
    if NeedsQuote(cell) then ['"'] + Escaped(cell) + ['"'] else cell
  }

  function RowText(row: seq<string>): string {
    if row == [] then []
    else if |row| == 1 then CellText(row[0])
    else RowText(row[..|row| - 1]) + [','] + CellText(row[|row| - 1])
  }

  function TableText(rows: seq<seq<string>>): string {
    if rows == [] then []
    else if |rows| == 1 then RowText(rows[0])
    else TableText(rows[..|rows| - 1]) + ['\n'] + RowText(rows[|rows| - 1])
  }

  lemma EscapedNext(cell: string, k: nat)
    requires k < |cell|
    ensures Escaped(cell[..k + 1]) == Escaped(cell[..k]) + EscapedChar(cell[k])
  {
    assert cell[..k + 1][..k] == cell[..k];
  }

  method WriteEscaped(out0: string, cell: string) returns (out: string)
    ensures out == out0 + Escaped(cell)
  {
    out := out0;
    for k := 0 to |cell|
      invariant out == out0 + Escaped(cell[..k])
    {
      EscapedNext(cell, k);
      ghost var before := out;
      if cell[k] == '"' {
        out := out + ['"'];
      }
      out := out + [cell[k]];
      assert out == before + EscapedChar(cell[k]);
    }
    assert cell[..|cell|] == cell;
  }

  method WriteCell(out0: string, cell: string) returns (out: string)
    ensures out == out0 + CellText(cell)
  {
    var needsQuote := NeedsQuote(cell);
    if needsQuote {
      out := WriteEscaped(out0 + ['"'], cell);
      out := out + ['"'];
    } else {
      out := out0 + cell;
    }
  }

  method WriteRow(out0: string, row: seq<string>) returns (out: string)
    ensures out == out0 + RowText(row)
  {
    out := out0;
    for j := 0 to |row|
      invariant out == out0 + RowText(row[..j])
    {
      assert row[..j + 1][..j] == row[..j];
      if j > 0 {
        out := out + [','];
      }
      out := WriteCell(out, row[j]);
    }
    assert row[..|row|] == row;
  }

  method WriteTable(rows: seq<seq<string>>) returns (out: string)
    ensures out == TableText(rows)
    ensures Read(out) == Some(rows) <==> rows != [] && Filled(rows)
  {
    out := [];
    for i := 0 to |rows|
      invariant out == TableText(rows[..i])
    {
      assert rows[..i + 1][..i] == rows[..i];
      if i > 0 {
        out := out + ['\n'];
      }
      out := WriteRow(out, rows[i]);
    }
    assert rows[..|rows|] == rows;
    RoundTripIff(rows);
  }

  /** Every row has a cell. */
  ghost predicate Filled(rows: seq<seq<string>>) {
    forall i :: 0 <= i < |rows| ==> rows[i] != []
  }

  /** Only cells that hold a comma, a quote or a line feed are put in quotes. */
  lemma QuotedIffNeeded(cell: string)
    ensures (forall i :: 0 <= i < |cell| ==> cell[i] as int != 44 && cell[i] as int != 34 && cell[i] as int != 10) ==>
              CellText(cell) == cell
    ensures (exists i :: 0 <= i < |cell| && (cell[i] as int == 44 || cell[i] as int == 34 || cell[i] as int == 10)) ==>
              CellText(cell) == "\"" + Escaped(cell) + "\""
  {
    if i :| 0 <= i < |cell| && (cell[i] as int == 44 || cell[i] as int == 34 || cell[i] as int == 10) {
      assert cell[i] in cell;
    }
  }

  /** Inside, quotes are doubled and nothing else changes. */
  lemma QuotesDoubled(text: string, c: char)
    ensures Escaped("") == "" && Escaped(text + "\"") == Escaped(text) + "\"\""
    ensures c as int != 34 ==> Escaped(text + [c]) == Escaped(text) + [c]
  {
    assert (text + [c])[..|text|] == text && (text + "\"")[..|text|] == text;
  }

  /** Cells are joined by commas, and rows by line feeds; none ends the text. */
  lemma Joined(row: seq<string>, cell: string, rows: seq<seq<string>>, last: seq<string>)
    requires row != [] && rows != []
    ensures RowText(row + [cell]) == RowText(row) + "," + CellText(cell) && RowText([cell]) == CellText(cell)
    ensures TableText(rows + [last]) == TableText(rows) + "\n" + RowText(last) && TableText([last]) == RowText(last)
  {
    assert (row + [cell])[..|row|] == row && (rows + [last])[..|rows|] == rows;
  }

  // ---- The reader ------------------------------------------------------------------

  datatype Mode = Fresh | Plain | Quoted | Closed

  /** The records and fields completed so far, and the field being read. */
  datatype Reader =
    | Reading(rows: seq<seq<string>>, row: seq<string>, cell: string, mode: Mode)
    | Malformed

  function EndField(s: Reader): Reader
    requires s.Reading?
  {
    Reading(s.rows, s.row + [s.cell], [], Fresh)
  }

  function EndRecord(s: Reader): Reader
    requires s.Reading?
  {
    Reading(s.rows + [s.row + [s.cell]], [], [], Fresh)
  }

  function Step(s: Reader, c: char): Reader {
    if s.Malformed? then Malformed
    else if s.mode == Quoted then
      if c == '"' then s.(mode := Closed) else s.(cell := s.cell + [c])
    else if c == ',' then EndField(s)
    else if c == '\n' then EndRecord(s)
    else if c == '"' then
      match s.mode
      case Fresh => s.(mode := Quoted)
      case Closed => s.(cell := s.cell + ['"'], mode := Quoted)
      case _ => Malformed
    else if s.mode == Closed then Malformed
    else s.(cell := s.cell + [c], mode := Plain)
  }

  function ReadOn(s: Reader, text: string): Reader {
    if text == [] then s else Step(ReadOn(s, text[..|text| - 1]), text[|text| - 1])
  }

  const START: Reader := Reading([], [], [], Fresh)

  function Read(text: string): Option<seq<seq<string>>> {
    var s := ReadOn(START, text);
    if s.Malformed? || s.mode == Quoted then None else Some(EndRecord(s).rows)
  }

  // ---- Round trip --------------------------------------------------------------------

  lemma {:induction false} ReadOnConcat(s: Reader, a: string, b: string)
    ensures ReadOn(s, a + b) == ReadOn(ReadOn(s, a), b)
  {
    if b == [] {
      assert a + b == a;
    } else {
      ReadOnConcat(s, a, b[..|b| - 1]);
      assert (a + b)[..|a + b| - 1] == a + b[..|b| - 1];
    }
  }

  lemma ReadOnChar(s: Reader, a: string, c: char)
    ensures ReadOn(s, a + [c]) == Step(ReadOn(s, a), c)
  {
    assert (a + [c])[..|a|] == a;
  }

  lemma ReadsEscapedChar(s: Reader, text: string, c: char)
    requires ReadOn(s, text).Reading? && ReadOn(s, text).mode == Quoted
    ensures var t := ReadOn(s, text); ReadOn(s, text + EscapedChar(c)) == t.(cell := t.cell + [c])
  {
    ReadOnChar(s, text, c);
    if c == '"' {
      ReadOnChar(s, text + ['"'], '"');
      assert text + EscapedChar(c) == text + ['"'] + ['"'];
    }
  }

  lemma LastApart(a: string, b: string)
    requires b != []
    ensures a + b == (a + b[..|b| - 1]) + [b[|b| - 1]]
  {
  }

  lemma {:induction false} ReadsEscaped(s: Reader, cell: string)
    requires s.Reading? && s.mode == Quoted
    ensures ReadOn(s, Escaped(cell)) == s.(cell := s.cell + cell)
  {
    if cell == [] {
      assert s.cell + [] == s.cell;
    } else {
      var n := |cell| - 1;
      ReadsEscaped(s, cell[..n]);
      ReadsEscapedChar(s, Escaped(cell[..n]), cell[n]);
      LastApart(s.cell, cell);
    }
  }

  predicate Special(c: char) {
    c == ',' || c == '"' || c == '\n'
  }

  lemma {:induction false} ReadsPlain(s: Reader, cell: string)
    requires s.Reading? && s.mode == Fresh && s.cell == []
    requires forall i :: 0 <= i < |cell| ==> !Special(cell[i])
    ensures ReadOn(s, cell) == s.(cell := cell, mode := if cell == [] then Fresh else Plain)
  {
    if cell != [] {
      var n := |cell| - 1;
      ReadsPlain(s, cell[..n]);
      assert !Special(cell[n]);
      assert cell == cell[..n] + [cell[n]];
    }
  }

  /** Reading a written cell leaves exactly that cell, ready to be closed. */
  lemma ReadsCell(s: Reader, cell: string)
    requires s.Reading? && s.mode == Fresh && s.cell == []
    ensures var t := ReadOn(s, CellText(cell));
            t.Reading? && t.mode != Quoted && t.rows == s.rows && t.row == s.row && t.cell == cell
  {
    if NeedsQuote(cell) {
      ReadOnChar(s, [], '"');
      ReadOnConcat(s, ['"'], Escaped(cell));
      ReadsEscaped(s.(mode := Quoted), cell);
      ReadOnChar(s, ['"'] + Escaped(cell), '"');
      assert [] + ['"'] == ['"'];
    } else {
      forall i | 0 <= i < |cell| ensures !Special(cell[i]) { assert cell[i] in cell; }
      ReadsPlain(s, cell);
    }
  }

  /** Closing the open field would complete this row. */
  ghost predicate InRow(t: Reader, rows: seq<seq<string>>, row: seq<string>) {
    t.Reading? && t.mode != Quoted && t.rows == rows && EndField(t).row == row
  }

  lemma ReadsNextCell(s: Reader, front: string, rows: seq<seq<string>>, row: seq<string>, cell: string)
    requires InRow(ReadOn(s, front), rows, row)
    ensures InRow(ReadOn(s, front + [','] + CellText(cell)), rows, row + [cell])
  {
    ReadOnChar(s, front, ',');
    ReadOnConcat(s, front + [','], CellText(cell));
    ReadsCell(Reading(rows, row, [], Fresh), cell);
  }

  lemma {:induction false} ReadsRow(s: Reader, row: seq<string>)
    requires s.Reading? && s.mode == Fresh && s.cell == [] && s.row == [] && row != []
    ensures InRow(ReadOn(s, RowText(row)), s.rows, row)
  {
    var n := |row| - 1;
    if n == 0 {
      ReadsCell(s, row[0]);
    } else {
      ReadsRow(s, row[..n]);
      ReadsNextCell(s, RowText(row[..n]), s.rows, row[..n], row[n]);
      assert row == row[..n] + [row[n]];
    }
  }

  /** Closing the open record would give these rows. */
  ghost predicate Holds(t: Reader, rows: seq<seq<string>>) {
    t.Reading? && t.mode != Quoted && EndRecord(t).rows == rows
  }

  lemma ReadsNextRow(front: string, row: seq<string>, rows: seq<seq<string>>)
    requires row != [] && Holds(ReadOn(START, front), rows)
    ensures Holds(ReadOn(START, front + ['\n'] + RowText(row)), rows + [row])
  {
    ReadOnChar(START, front, '\n');
    ReadOnConcat(START, front + ['\n'], RowText(row));
    ReadsRow(Reading(rows, [], [], Fresh), row);
  }

  lemma ReadsOneMore(front: seq<seq<string>>, row: seq<string>)
    requires front != [] && row != [] && Holds(ReadOn(START, TableText(front)), front)
    ensures Holds(ReadOn(START, TableText(front + [row])), front + [row])
  {
    ReadsNextRow(TableText(front), row, front);
    assert (front + [row])[..|front|] == front;
  }

  lemma {:induction false} ReadsTable(rows: seq<seq<string>>)
    requires rows != [] && Filled(rows)
    ensures Holds(ReadOn(START, TableText(rows)), rows)
  {
    var n := |rows| - 1;
    if n == 0 {
      ReadsRow(START, rows[0]);
    } else {
      ReadsTable(rows[..n]);
      ReadsOneMore(rows[..n], rows[n]);
      assert rows == rows[..n] + [rows[n]];
    }
  }

  lemma {:induction false} RecordsHaveFields(text: string)
    ensures var s := ReadOn(START, text); s.Reading? ==> Filled(s.rows)
  {
    if text != [] {
      RecordsHaveFields(text[..|text| - 1]);
    }
  }

  /** A reader recovers exactly the rows that were written, whatever commas,
      quotes and line breaks the cells hold, if and only if there is a row and
      every row has a cell. */
  lemma RoundTripIff(rows: seq<seq<string>>)
    ensures Read(TableText(rows)) == Some(rows) <==> rows != [] && Filled(rows)
  {
    if rows != [] && Filled(rows) {
      ReadsTable(rows);
    }
    var s := ReadOn(START, TableText(rows));
    if s.Reading? {
      RecordsHaveFields(TableText(rows));
    }
  }

  /** No row, and a row without cells, are both read back as one empty cell. */
  lemma EmptyTablesReadAlike()
    ensures Read(TableText([])) == Some([[""]]) && Read(TableText([[]])) == Some([[""]])
  {
    assert TableText([[]]) == [] && ReadOn(START, []) == START;
    assert START.row + [START.cell] == [""];
    assert EndRecord(START).rows == [[""]];
  }
}
