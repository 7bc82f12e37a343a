/** The CSV printer, and the reader of RFC 4180, section 2, that undoes it. */
module Csv {
  import opened Options

  /** A cell: nothing, a string, or a number already written out. */
  datatype Cell = Absent | Str(text: string) | Number(rendered: string)

  // ---- The printer ----

  predicate StartsFormula(text: string) { text != "" && text[0] in {'=', '+', '-', '@', '\t', '\r'} }

  /** What a cell says once it can no longer be taken for a formula. */
  function Guarded(c: Cell): (shown: string)
    ensures c.Str? ==> shown == "" || shown[0] !in {'=', '+', '-', '@', '\t', '\r'}
  {
    match c
    case Absent => ""
    case Str(text) => if StartsFormula(text) then "'" + text else text
    case Number(rendered) => rendered
  }

  predicate IsSpecial(c: char) { c in {'"', ',', '\r', '\n'} }

  predicate NeedsQuotes(text: string) { exists i :: 0 <= i < |text| && IsSpecial(text[i]) }

  /** A string that no spreadsheet takes for a formula is shown as it is, and so is a
      number; and a cell without quotes, commas and line breaks stands bare. */
  lemma PlainStaysPlain(c: Cell)
    requires c.Str? ==> c.text == "" || c.text[0] !in {'=', '+', '-', '@', '\t', '\r'}
    ensures Guarded(c) == if c.Str? then c.text else if c.Number? then c.rendered else ""
    ensures (forall x <- Guarded(c) :: x !in {'"', ',', '\r', '\n'}) ==> CellText(c) == Guarded(c)
  {
    var text := Guarded(c);
    if NeedsQuotes(text) {
      var i :| 0 <= i < |text| && IsSpecial(text[i]);
      assert text[i] in text;
    }
  }

  function Doubled(text: string): string {
    if text == "" then ""
    else (if text[0] == '"' then "\"\"" else [text[0]]) + Doubled(text[1..])
  }

  function CellText(c: Cell): string {
    var text := Guarded(c);
    if NeedsQuotes(text) then "\"" + Doubled(text) + "\"" else text
  }

  function RowText(row: seq<Cell>): string {
    if row == [] then ""
    else if |row| == 1 then CellText(row[0])
    else CellText(row[0]) + "," + RowText(row[1..])
  }

  function RowsText(rows: seq<seq<Cell>>): string {
    if rows == [] then ""
    else if |rows| == 1 then RowText(rows[0])
    else RowText(rows[0]) + "\r\n" + RowsText(rows[1..])
  }

  function ToCsv(rows: seq<seq<Cell>>): string { RowsText(rows) + "\r\n" }

  // ---- The reader ----

  /** Where the reader is: at the start of a record that may not be there, at the
      start of a field, in a bare field, within quotes, after a quote that may have
      closed them, after a carriage return, or lost. */
  datatype Mode = Fresh | Start | Bare | Quoted | Closed | Return | Lost

  datatype Reader = Reader(records: seq<seq<string>>, record: seq<string>, field: string, mode: Mode)

  function EndField(r: Reader): Reader {
    Reader(r.records, r.record + [r.field], "", Start)
  }

  function EndRecord(r: Reader): Reader {
    Reader(r.records + [r.record + [r.field]], [], "", Fresh)
  }

  function Read(r: Reader, c: char): Reader {
    match r.mode
    case Quoted => if c == '"' then r.(mode := Closed) else r.(field := r.field + [c])
    case Return => if c == '\n' then EndRecord(r) else r.(mode := Lost)
    case Lost => r
    case _ =>
      if c == ',' then EndField(r)
      else if c == '\r' then r.(mode := Return)
      else if c == '"' then
        if r.mode == Closed then r.(field := r.field + ['"'], mode := Quoted)
        else if r.mode == Bare then r.(mode := Lost)
        else r.(mode := Quoted)
      else if c == '\n' || r.mode == Closed then r.(mode := Lost)
      else r.(field := r.field + [c], mode := Bare)
  }

  function ReadAll(r: Reader, s: string): Reader
    decreases s
  {
    if s == "" then r else ReadAll(Read(r, s[0]), s[1..])
  }

  /** The records of a whole file; the last one may lack its line break. */
  function ReadCsv(s: string): Option<seq<seq<string>>> {
    var r := ReadAll(Reader([], [], "", Start), s);
    match r.mode
    case Fresh => Some(r.records)
    case Quoted => None
    case Return => None
    case Lost => None
    case _ => Some(EndRecord(r).records)
  }

  // ---- One undoes the other ----

  lemma {:induction false} ReadJoin(r: Reader, a: string, b: string)
    ensures ReadAll(r, a + b) == ReadAll(ReadAll(r, a), b)
    decreases a
  {
    if a == "" {
      assert a + b == b;
    } else {
      assert (a + b)[1..] == a[1..] + b;
      ReadJoin(Read(r, a[0]), a[1..], b);
    }
  }

  lemma {:induction false} ReadsBare(r: Reader, text: string)
    requires r.mode in {Fresh, Start, Bare} && !NeedsQuotes(text)
    ensures ReadAll(r, text) == r.(field := r.field + text, mode := if text == "" then r.mode else Bare)
    decreases text
  {
    if text == "" {
      assert r.field + text == r.field;
    } else {
      assert !IsSpecial(text[0]);
      forall i | 0 <= i < |text[1..]| ensures !IsSpecial(text[1..][i]) {
        assert text[1..][i] == text[i + 1];
      }
      ReadsBare(Read(r, text[0]), text[1..]);
      assert r.field + [text[0]] + text[1..] == r.field + text;
    }
  }

  lemma ReadsQuotedOne(r: Reader, c: char)
    requires r.mode == Quoted
    ensures ReadAll(r, if c == '"' then "\"\"" else [c]) == r.(field := r.field + [c])
  {
    if c == '"' {
      assert "\"\""[1..] == "\"";
      assert ReadAll(Read(r, c), "\"") == Read(Read(r, c), c);
    } else {
      assert [c][1..] == "";
    }
  }

  lemma {:induction false} ReadsQuoted(r: Reader, text: string)
    requires r.mode == Quoted
    ensures ReadAll(r, Doubled(text)) == r.(field := r.field + text)
    decreases text
  {
    if text == "" {
      assert r.field + text == r.field;
    } else {
      var next := r.(field := r.field + [text[0]]);
      var head := if text[0] == '"' then "\"\"" else [text[0]];
      ReadsQuotedOne(r, text[0]);
      ReadJoin(r, head, Doubled(text[1..]));
      ReadsQuoted(next, text[1..]);
      assert r.field + [text[0]] + text[1..] == r.field + text;
    }
  }

  predicate AtField(r: Reader) { r.mode in {Fresh, Start} && r.field == "" }

  lemma ReadsQuotes(r: Reader, text: string)
    requires AtField(r)
    ensures ReadAll(r, "\"" + Doubled(text) + "\"") == r.(field := text, mode := Closed)
  {
    var open, inner := Read(r, '"'), Doubled(text);
    ReadsQuoted(open, text);
    assert "" + text == text;
    ReadJoin(open, inner, "\"");
    assert ("\"" + inner + "\"")[1..] == inner + "\"";
  }

  lemma ReadsCell(r: Reader, c: Cell)
    requires AtField(r)
    ensures var after := ReadAll(r, CellText(c));
      after.mode in {Fresh, Start, Bare, Closed} && after == r.(field := Guarded(c), mode := after.mode)
  {
    var text := Guarded(c);
    if NeedsQuotes(text) {
      ReadsQuotes(r, text);
    } else {
      ReadsBare(r, text);
      assert "" + text == text;
    }
  }

  lemma ReadsBreak(r: Reader)
    requires r.mode in {Fresh, Start, Bare, Closed}
    ensures ReadAll(r, "\r\n") == EndRecord(r)
  {
    assert "\r\n"[1..] == "\n";
    assert ReadAll(Read(r, '\r'), "\n") == Read(Read(r, '\r'), '\n');
  }

  /** The last cell of a row, and the line break after it. */
  lemma ReadsLastCell(r: Reader, c: Cell)
    requires AtField(r)
    ensures ReadAll(r, CellText(c) + "\r\n")
         == Reader(r.records + [r.record + [Guarded(c)]], [], "", Fresh)
  {
    ReadsCell(r, c);
    ReadJoin(r, CellText(c), "\r\n");
    ReadsBreak(ReadAll(r, CellText(c)));
  }

  lemma ReadsCellAndComma(r: Reader, c: Cell)
    requires AtField(r)
    ensures ReadAll(r, CellText(c) + ",") == Reader(r.records, r.record + [Guarded(c)], "", Start)
  {
    ReadsCell(r, c);
    ReadJoin(r, CellText(c), ",");
  }

  function GuardedRow(row: seq<Cell>): seq<string> {
    if row == [] then [] else [Guarded(row[0])] + GuardedRow(row[1..])
  }

  function GuardedRows(rows: seq<seq<Cell>>): seq<seq<string>> {
    if rows == [] then [] else [GuardedRow(rows[0])] + GuardedRows(rows[1..])
  }

  /** A row of no cells prints as one empty cell. */
  function Printed(row: seq<Cell>): seq<Cell> { if row == [] then [Absent] else row }

  function AllPrinted(rows: seq<seq<Cell>>): seq<seq<Cell>> {
    if rows == [] then [] else [Printed(rows[0])] + AllPrinted(rows[1..])
  }

  lemma ReadTwoParts(r: Reader, a: string, b: string, c: string, d: string)
    ensures ReadAll(r, a + b + c + d) == ReadAll(ReadAll(r, a + b), c + d)
  {
    assert a + b + c + d == (a + b) + (c + d);
    ReadJoin(r, a + b, c + d);
  }

  lemma {:induction false} ReadsRow(r: Reader, row: seq<Cell>)
    requires AtField(r) && row != []
    ensures ReadAll(r, RowText(row) + "\r\n")
         == Reader(r.records + [r.record + GuardedRow(row)], [], "", Fresh)
    decreases row
  {
    hide Read, ReadAll, CellText, Guarded;
    var c, rest := row[0], row[1..];
    if |row| == 1 {
      ReadsLastCell(r, c);
      assert GuardedRow(row) == [Guarded(c)];
    } else {
      ReadsCellAndComma(r, c);
      var next := Reader(r.records, r.record + [Guarded(c)], "", Start);
      ReadsRow(next, rest);
      ReadTwoParts(r, CellText(c), ",", RowText(rest), "\r\n");
      assert r.record + [Guarded(c)] + GuardedRow(rest) == r.record + GuardedRow(row);
    }
  }

  lemma ReadsPrinted(r: Reader, row: seq<Cell>)
    requires AtField(r) && r.record == []
    ensures ReadAll(r, RowText(row) + "\r\n") == Reader(r.records + [GuardedRow(Printed(row))], [], "", Fresh)
  {
    ReadsRow(r, Printed(row));
    assert RowText(Printed(row)) == RowText(row);
    assert [] + GuardedRow(Printed(row)) == GuardedRow(Printed(row));
  }

  lemma {:induction false} ReadsRows(r: Reader, rows: seq<seq<Cell>>)
    requires AtField(r) && r.record == [] && rows != []
    ensures ReadAll(r, ToCsv(rows)) == Reader(r.records + GuardedRows(AllPrinted(rows)), [], "", Fresh)
    decreases rows
  {
    hide Read, ReadAll, RowText, GuardedRow, Printed;
    var row, rest := rows[0], rows[1..];
    var shown := GuardedRow(Printed(row));
    ReadsPrinted(r, row);
    assert GuardedRows(AllPrinted(rows)) == [shown] + GuardedRows(AllPrinted(rest)) by {
      assert AllPrinted(rows)[1..] == AllPrinted(rest);
    }
    if |rows| == 1 {
      assert GuardedRows(AllPrinted(rest)) == [];
    } else {
      var next := Reader(r.records + [shown], [], "", Fresh);
      ReadsRows(next, rest);
      ReadTwoParts(r, RowText(row), "\r\n", RowsText(rest), "\r\n");
      assert r.records + [shown] + GuardedRows(AllPrinted(rest)) == r.records + GuardedRows(AllPrinted(rows));
    }
  }

  /** What any table reads back as: the guarded cells, with one empty cell standing
      for each row without cells, and for a table without rows. */
  lemma ReadsBack(rows: seq<seq<Cell>>)
    ensures ReadCsv(ToCsv(rows)) == Some(GuardedRows(AllPrinted(if rows == [] then [[]] else rows)))
  {
    var table := if rows == [] then [[]] else rows;
    assert ToCsv(table) == ToCsv(rows);
    ReadsRows(Reader([], [], "", Start), table);
    assert [] + GuardedRows(AllPrinted(table)) == GuardedRows(AllPrinted(table));
  }

  lemma {:induction false} PrintedIsItself(rows: seq<seq<Cell>>)
    ensures GuardedRows(AllPrinted(rows)) == GuardedRows(rows)
       <==> forall i :: 0 <= i < |rows| ==> rows[i] != []
  {
    if rows != [] {
      var rest := rows[1..];
      PrintedIsItself(rest);
      assert AllPrinted(rows)[1..] == AllPrinted(rest);
      var now, was := GuardedRows(AllPrinted(rows)), GuardedRows(rows);
      assert now[1..] == GuardedRows(AllPrinted(rest)) && was[1..] == GuardedRows(rest);
      assert now == was <==> now[0] == was[0] && now[1..] == was[1..];
      assert now[0] == was[0] <==> rows[0] != [];
      assert (forall i :: 0 <= i < |rows| ==> rows[i] != [])
        <==> rows[0] != [] && forall i :: 0 <= i < |rest| ==> rest[i] != [] by {
        forall i | 0 < i < |rows| ensures rows[i] == rest[i - 1] {}
      }
    }
  }

  /** Reading the file gives back exactly the guarded cells if and only if there is a
      row and every row has a cell. */
  lemma RoundTripIff(rows: seq<seq<Cell>>)
    ensures ReadCsv(ToCsv(rows)) == Some(GuardedRows(rows))
       <==> rows != [] && forall i :: 0 <= i < |rows| ==> rows[i] != []
  {
    ReadsBack(rows);
    PrintedIsItself(rows);
  }

  /** Two strings are told apart after guarding, unless one is the other's guarded form. */
  lemma GuardTellsApartIff(a: string, b: string)
    ensures Guarded(Str(a)) == Guarded(Str(b))
       <==> a == b || (StartsFormula(a) && b == "'" + a) || (StartsFormula(b) && a == "'" + b)
  {
    if StartsFormula(a) && StartsFormula(b) {
      assert ("'" + a)[1..] == a && ("'" + b)[1..] == b;
    }
  }
}
