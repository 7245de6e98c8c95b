/** The server's side of a CSV COPY: how COPY FROM of PostgreSQL 16 reads text whose escape is its quote and whose
    null is the empty unquoted field, into a table that has columns. */
module CsvServer {
  import opened Basics
  import opened Csv
  import CsvStreams

  // ----- records ------------------------------------------------------------------------

  datatype Ending = Lf | Cr | CrLf | EndOfText

  datatype Record = Record(line: string, ending: Ending, rest: string)

  predicate EndsLine(ch: char) { ch == '\n' || ch == '\r' }

  /** The text up to the first end of line outside quotes; every quote character switches. */
  function Cut(text: string, q: char, inQuotes: bool): (r: Record)
    ensures text != [] ==> |r.rest| < |text|
  {
    if text == [] then Record([], EndOfText, [])
    else
      var quoted := if text[0] == q then !inQuotes else inQuotes;
      if !quoted && text[0] == '\n' then Record([], Lf, text[1..])
      else if !quoted && text[0] == '\r' then
        if |text| > 1 && text[1] == '\n' then Record([], CrLf, text[2..]) else Record([], Cr, text[1..])
      else
        var r := Cut(text[1..], q, quoted);
        r.(line := [text[0]] + r.line)
  }

  /** The end-of-data marker, alone on its line. */
  predicate Marker(text: string) { |text| >= 3 && text[0] == '\\' && text[1] == '.' && EndsLine(text[2]) }

  // ----- fields ---------------------------------------------------------------------------

  /** An empty field that was not quoted is null. */
  function Field(text: string, quoted: bool): Option<string> {
    if text == [] && !quoted then None else Some(text)
  }

  /** The fields of a record; None for an unterminated quote. */
  function Fields(rest: string, d: char, q: char, current: string, quoted: bool, inQuotes: bool)
    : Option<seq<Option<string>>>
    decreases |rest|
  {
    if rest == [] then (if inQuotes then None else Some([Field(current, quoted)]))
    else if inQuotes then
      if rest[0] != q then Fields(rest[1..], d, q, current + [rest[0]], quoted, true)
      else if |rest| > 1 && rest[1] == q then Fields(rest[2..], d, q, current + [q], quoted, true)
      else Fields(rest[1..], d, q, current, quoted, false)
    else if rest[0] == d then
      var more := Fields(rest[1..], d, q, [], false, false);
      if more.None? then None else Some([Field(current, quoted)] + more.value)
    else if rest[0] == q then Fields(rest[1..], d, q, current, true, true)
    else Fields(rest[1..], d, q, current + [rest[0]], quoted, false)
  }

  type Table = seq<seq<Option<string>>>

  /** The rows of the text, all of whose lines must end alike; None is an error, which loads nothing. */
  function Load(text: string, d: char, q: char, style: Option<Ending>): Option<Table>
    decreases |text|
  {
    if text == [] then Some([])
    else if Marker(text) then
      (if style.Some? && (style == Some(Cr)) != (text[2] == '\r') then None else Some([]))
    else
      var r := Cut(text, q, false);
      if r.ending != EndOfText && style.Some? && style.value != r.ending then None
      else
        var fields := Fields(r.line, d, q, [], false, false);
        var more := Load(r.rest, d, q, Some(r.ending));
        if fields.None? || more.None? then None else Some([fields.value] + more.value)
  }

  /** COPY FROM; it refuses a delimiter that ends lines or is the quote. */
  function ServerReads(text: string, d: char, q: char): Option<Table> {
    if d == q || EndsLine(d) then None else Load(text, d, q, None)
  }

  // ----- what was written ---------------------------------------------------------------------

  /** Empty columns are nulls to the server. */
  function AsNulls(row: seq<string>): seq<Option<string>> {
    if row == [] then [] else [Field(row[0], false)] + AsNulls(row[1..])
  }

  function AllAsNulls(rows: seq<seq<string>>): Table {
    if rows == [] then [] else [AsNulls(rows[0])] + AllAsNulls(rows[1..])
  }

  predicate Settings(d: char, q: char) { d != q && !EndsLine(d) && !EndsLine(q) }

  /** Whether quotes are open behind `text`; None if a line ends in it. */
  function Scan(text: string, q: char, inQuotes: bool): Option<bool> {
    if text == [] then Some(inQuotes)
    else
      var quoted := if text[0] == q then !inQuotes else inQuotes;
      if !quoted && EndsLine(text[0]) then None else Scan(text[1..], q, quoted)
  }

  lemma {:induction false} ScanConcat(a: string, b: string, q: char, inQuotes: bool)
    requires Scan(a, q, inQuotes).Some?
    ensures Scan(a + b, q, inQuotes) == Scan(b, q, Scan(a, q, inQuotes).value)
  {
    if a == [] {
      assert a + b == b;
    } else {
      ScanConcat(a[1..], b, q, if a[0] == q then !inQuotes else inQuotes);
      assert (a + b)[1..] == a[1..] + b;
    }
  }

  /** A line that closes its quotes is cut where it ends. */
  lemma {:induction false} CutScanned(line: string, rest: string, q: char, inQuotes: bool)
    requires Scan(line, q, inQuotes) == Some(false) && !EndsLine(q)
    ensures Cut(line + ("\n" + rest), q, inQuotes) == Record(line, Lf, rest)
  {
    if line == [] {
      assert line + ("\n" + rest) == "\n" + rest && ("\n" + rest)[1..] == rest;
    } else {
      CutScanned(line[1..], rest, q, if line[0] == q then !inQuotes else inQuotes);
      assert (line + ("\n" + rest))[1..] == line[1..] + ("\n" + rest);
    }
  }

  lemma {:induction false} ScanPlain(col: string, q: char)
    requires q !in col && '\n' !in col && '\r' !in col
    ensures Scan(col, q, false) == Some(false)
  {
    if col != [] {
      ScanPlain(col[1..], q);
    }
  }

  lemma {:induction false} ScanDoubled(col: string, q: char)
    requires !EndsLine(q)
    ensures Scan(Doubled(col, q), q, true) == Some(true)
  {
    if col != [] {
      ScanDoubled(col[1..], q);
      var text, tail := Doubled(col, q), Doubled(col[1..], q);
      if col[0] == q {
        assert text[1..] == [q] + tail && text[1..][1..] == tail;
      }
    }
  }

  lemma ScanColumn(col: string, d: char, q: char)
    requires Settings(d, q)
    ensures Scan(RenderColumn(col, d, q), q, false) == Some(false)
  {
    if NeedsQuote(col, d, q) {
      ScanDoubled(col, q);
      ScanConcat(Doubled(col, q), [q], q, true);
      assert RenderColumn(col, d, q)[1..] == Doubled(col, q) + [q];
      assert Scan([q], q, true) == Some(false);
    } else {
      ScanPlain(col, q);
    }
  }

  lemma {:induction false} ScanRow(row: seq<string>, d: char, q: char)
    requires Settings(d, q)
    ensures Scan(RenderRow(row, d, q), q, false) == Some(false)
  {
    if row != [] {
      var first := RenderColumn(row[0], d, q);
      ScanColumn(row[0], d, q);
      if |row| > 1 {
        ScanRow(row[1..], d, q);
        ScanConcat(first, [d], q, false);
        ScanConcat(first + [d], RenderRow(row[1..], d, q), q, false);
        assert Scan([d], q, false) == Some(false);
      }
    }
  }

  // ----- the fields of a row -------------------------------------------------------------------

  lemma {:induction false} FieldsPlain(col: string, rest: string, d: char, q: char, current: string)
    requires d !in col && q !in col
    ensures Fields(col + rest, d, q, current, false, false) == Fields(rest, d, q, current + col, false, false)
  {
    if col == [] {
      assert col + rest == rest && current + col == current;
    } else {
      assert (col + rest)[1..] == col[1..] + rest;
      assert (current + [col[0]]) + col[1..] == current + col;
      FieldsPlain(col[1..], rest, d, q, current + [col[0]]);
    }
  }

  lemma {:induction false} FieldsQuoted(col: string, rest: string, d: char, q: char, current: string)
    requires rest == [] || rest[0] != q
    ensures Fields(Doubled(col, q) + [q] + rest, d, q, current, true, true)
         == Fields(rest, d, q, current + col, true, false)
    decreases |col|
  {
    var text := Doubled(col, q) + [q] + rest;
    if col == [] {
      assert text == [q] + rest && text[1..] == rest;
      assert current + col == current;
    } else {
      var tail := Doubled(col[1..], q) + [q] + rest;
      assert (current + [col[0]]) + col[1..] == current + col;
      if col[0] == q {
        assert text == [q, q] + tail && text[2..] == tail;
      } else {
        assert text == [col[0]] + tail && text[1..] == tail;
      }
      FieldsQuoted(col[1..], rest, d, q, current + [col[0]]);
    }
  }

  /** What the server takes a column for once it is behind it. */
  lemma FieldsColumn(col: string, rest: string, d: char, q: char)
    requires d != q && (rest == [] || rest[0] == d)
    ensures exists quoted: bool {:trigger Field(col, quoted)} ::
              && Field(col, quoted) == Field(col, false)
              && Fields(RenderColumn(col, d, q) + rest, d, q, [], false, false)
                 == Fields(rest, d, q, col, quoted, false)
  {
    assert [] + col == col;
    if NeedsQuote(col, d, q) {
      var inner := Doubled(col, q) + [q] + rest;
      assert RenderColumn(col, d, q) + rest == [q] + inner;
      assert ([q] + inner)[1..] == inner;
      FieldsQuoted(col, rest, d, q, []);
      assert Field(col, true) == Field(col, false);
    } else {
      FieldsPlain(col, rest, d, q, []);
      assert Field(col, false) == Field(col, false);
    }
  }

  lemma {:induction false} FieldsRow(row: seq<string>, d: char, q: char)
    requires row != [] && d != q
    ensures Fields(RenderRow(row, d, q), d, q, [], false, false) == Some(AsNulls(row))
  {
    var first := RenderColumn(row[0], d, q);
    if |row| == 1 {
      assert first + [] == first;
      FieldsColumn(row[0], [], d, q);
      assert AsNulls(row[1..]) == [];
      assert AsNulls(row) == [Field(row[0], false)];
    } else {
      var rest := [d] + RenderRow(row[1..], d, q);
      assert RenderRow(row, d, q) == first + rest;
      FieldsColumn(row[0], rest, d, q);
      assert rest[1..] == RenderRow(row[1..], d, q);
      FieldsRow(row[1..], d, q);
    }
  }

  // ----- the end-of-data marker ------------------------------------------------------------------

  /** The rows whose text begins with the marker: the marker itself where neither of its characters has to be quoted,
      the marker made by a delimiter, or by a quote in front of a column. */
  predicate EndsData(row: seq<string>, d: char, q: char) {
    || (row == ["\\."] && d !in {'\\', '.'} && q !in {'\\', '.'})
    || (row == ["\\", ""] && d == '.' && q != '\\')
    || (row == ["", "."] && d == '\\' && q != '.')
    || (row != [] && q == '\\' && |row[0]| >= 2 && row[0][0] == '.' && EndsLine(row[0][1]))
    || (|row| >= 2 && d == '\\' && q == '.' && row[0] == [] && row[1] != [] && EndsLine(row[1][0]))
  }

  /** How the text of a column begins. */
  lemma ColumnBegins(col: string, d: char, q: char)
    requires Settings(d, q)
    ensures var text := RenderColumn(col, d, q);
            if NeedsQuote(col, d, q) then
              && |text| >= 3 && text[0] == q && (text[1] == if col[0] == q then q else col[0])
              && (col[0] != q ==> text[2] == if |col| >= 2 then col[1] else q)
            else text == col
  {
    if NeedsQuote(col, d, q) {
      var doubled := Doubled(col, q);
      assert RenderColumn(col, d, q) == [q] + doubled + [q];
      if col[0] != q {
        assert doubled == [col[0]] + Doubled(col[1..], q);
      }
    }
  }

  /** What follows the first column of a row written. */
  function Behind(row: seq<string>, rest: string, d: char, q: char): string
    requires row != []
  {
    if |row| == 1 then "\n" + rest else [d] + Written(row[1..], rest, d, q)
  }

  /** A row written in front of other text. */
  function Written(row: seq<string>, rest: string, d: char, q: char): string { RenderRow(row, d, q) + ("\n" + rest) }

  lemma WrittenSplits(row: seq<string>, rest: string, d: char, q: char)
    requires row != []
    ensures Written(row, rest, d, q) == RenderColumn(row[0], d, q) + Behind(row, rest, d, q)
  {
    if |row| > 1 {
      var first, more := RenderColumn(row[0], d, q), RenderRow(row[1..], d, q);
      Assoc(first, [d], more);
      Assoc(first, [d] + more, "\n" + rest);
      Assoc([d], more, "\n" + rest);
    }
  }

  predicate Line2(text: string, a: char) { |text| >= 2 && text[0] == a && EndsLine(text[1]) }

  lemma MarkerSplits(first: string, behind: string)
    requires behind != []
    ensures Marker(first + behind) <==>
            if first == [] then behind[0] == '\\' && Line2(behind[1..], '.')
            else if |first| == 1 then first[0] == '\\' && Line2(behind, '.')
            else if |first| == 2 then first == "\\." && EndsLine(behind[0])
            else Marker(first)
    ensures Line2(first + behind, '.') <==>
            if first == [] then Line2(behind, '.')
            else if |first| == 1 then first[0] == '.' && EndsLine(behind[0])
            else Line2(first, '.')
  {
    if first == [] {
      assert first + behind == behind;
    }
  }

  lemma WrittenStartsLine(row: seq<string>, rest: string, d: char, q: char)
    requires Settings(d, q)
    ensures Written(row, rest, d, q) != []
    ensures EndsLine(Written(row, rest, d, q)[0]) <==> row == [] || row == [""]
  {
    if row != [] {
      WrittenSplits(row, rest, d, q);
      ColumnBegins(row[0], d, q);
    }
  }

  /** The rows whose text begins with a period that is alone on its line. */
  lemma PeriodIff(row: seq<string>, rest: string, d: char, q: char)
    requires Settings(d, q) && d != '.'
    ensures Line2(Written(row, rest, d, q), '.') <==>
            (row == ["."] && q != '.') || (row != [] && q == '.' && row[0] != [] && EndsLine(row[0][0]))
  {
    if row != [] {
      var first, behind := RenderColumn(row[0], d, q), Behind(row, rest, d, q);
      WrittenSplits(row, rest, d, q);
      ColumnBegins(row[0], d, q);
      MarkerSplits(first, behind);
      if NeedsQuote(row[0], d, q) {
        assert row == ["."] ==> q == '.';
        assert Line2(first, '.') <==> q == '.' && EndsLine(row[0][0]);
      } else if |first| >= 2 {
        assert !EndsLine(first[1]) && !EndsLine(row[0][0]);
      } else if |first| == 1 {
        assert !EndsLine(row[0][0]);
        assert row[0] == [row[0][0]];
        assert row == ["."] <==> |row| == 1 && row[0] == ".";
        assert row[0] == "." ==> q != '.';
      }
    }
  }

  lemma QuotedMarkerIff(row: seq<string>, rest: string, d: char, q: char)
    requires Settings(d, q) && row != [] && NeedsQuote(row[0], d, q)
    ensures Marker(Written(row, rest, d, q)) <==> EndsData(row, d, q)
  {
    var first, behind := RenderColumn(row[0], d, q), Behind(row, rest, d, q);
    WrittenSplits(row, rest, d, q);
    ColumnBegins(row[0], d, q);
    MarkerSplits(first, behind);
  }

  lemma PlainMarkerIff(row: seq<string>, rest: string, d: char, q: char)
    requires Settings(d, q) && row != [] && !NeedsQuote(row[0], d, q)
    ensures Marker(Written(row, rest, d, q)) <==> EndsData(row, d, q)
  {
    var col, behind := row[0], Behind(row, rest, d, q);
    WrittenSplits(row, rest, d, q);
    MarkerSplits(col, behind);
    if |col| >= 3 {
      assert !EndsLine(col[2]);
    } else if |col| == 2 {
      assert row == [col] + row[1..];
    } else if |row| > 1 {
      assert row == [col] + row[1..];
      assert behind[1..] == Written(row[1..], rest, d, q);
      if col == [] {
        if d == '\\' {
          PeriodIff(row[1..], rest, d, q);
        }
      } else {
        WrittenStartsLine(row[1..], rest, d, q);
        assert behind[1] == Written(row[1..], rest, d, q)[0];
        assert col[0] == '\\' ==> col == "\\";
        assert row[1..] == [""] <==> row == [col, ""];
      }
    }
  }

  lemma MarkerIff(row: seq<string>, rest: string, d: char, q: char)
    requires Settings(d, q)
    ensures Marker(Written(row, rest, d, q)) <==> EndsData(row, d, q)
  {
    if row == [] {
      assert Written(row, rest, d, q)[0] == '\n';
    } else if NeedsQuote(row[0], d, q) {
      QuotedMarkerIff(row, rest, d, q);
    } else {
      PlainMarkerIff(row, rest, d, q);
    }
  }

  // ----- what the server loads ---------------------------------------------------------------------

  /** What the server makes of a row: one null column of an empty one. */
  function RowRead(row: seq<string>): seq<Option<string>> { if row == [] then [None] else AsNulls(row) }

  function AllRead(rows: seq<seq<string>>): Table {
    if rows == [] then [] else [RowRead(rows[0])] + AllRead(rows[1..])
  }

  lemma FieldsRead(row: seq<string>, d: char, q: char)
    requires d != q
    ensures Fields(RenderRow(row, d, q), d, q, [], false, false) == Some(RowRead(row))
  {
    if row != [] {
      FieldsRow(row, d, q);
    }
  }

  /** One row written is one row loaded, unless its text is the marker. */
  lemma LoadsRow(row: seq<string>, rest: string, d: char, q: char, style: Option<Ending>)
    requires Settings(d, q) && style in {None, Some(Lf)} && !EndsData(row, d, q)
    ensures var more := Load(rest, d, q, Some(Lf));
            Load(Written(row, rest, d, q), d, q, style)
            == if more.None? then None else Some([RowRead(row)] + more.value)
  {
    MarkerIff(row, rest, d, q);
    WrittenStartsLine(row, rest, d, q);
    ScanRow(row, d, q);
    CutScanned(RenderRow(row, d, q), rest, q, false);
    FieldsRead(row, d, q);
  }

  predicate SomeEndsData(rows: seq<seq<string>>, d: char, q: char) {
    exists i | 0 <= i < |rows| :: EndsData(rows[i], d, q)
  }

  lemma RenderAllSplits(rows: seq<seq<string>>, d: char, q: char)
    requires rows != []
    ensures CsvStreams.RenderAll(rows, d, q) == Written(rows[0], CsvStreams.RenderAll(rows[1..], d, q), d, q)
  {
    Assoc(RenderRow(rows[0], d, q), "\n", CsvStreams.RenderAll(rows[1..], d, q));
  }

  /** Every row is loaded, or the marker in one of them ends the data before it. */
  lemma {:induction false} LoadsWritten(rows: seq<seq<string>>, d: char, q: char, style: Option<Ending>)
    requires Settings(d, q) && style in {None, Some(Lf)}
    ensures var loaded := Load(CsvStreams.RenderAll(rows, d, q), d, q, style);
            if SomeEndsData(rows, d, q) then loaded.None? || |loaded.value| < |rows|
            else loaded == Some(AllRead(rows))
  {
    if rows != [] {
      var rest := CsvStreams.RenderAll(rows[1..], d, q);
      RenderAllSplits(rows, d, q);
      assert rows == [rows[0]] + rows[1..];
      if EndsData(rows[0], d, q) {
        MarkerIff(rows[0], rest, d, q);
      } else {
        assert SomeEndsData(rows, d, q) <==> SomeEndsData(rows[1..], d, q);
        LoadsRow(rows[0], rest, d, q, style);
        LoadsWritten(rows[1..], d, q, Some(Lf));
      }
    }
  }

  lemma {:induction false} AllReadIff(rows: seq<seq<string>>)
    ensures AllRead(rows) == AllAsNulls(rows) <==> [] !in rows
    ensures |AllRead(rows)| == |AllAsNulls(rows)| == |rows|
  {
    if rows != [] {
      AllReadIff(rows[1..]);
      assert rows == [rows[0]] + rows[1..];
      assert AllRead(rows)[0] == RowRead(rows[0]) && AllRead(rows)[1..] == AllRead(rows[1..]);
      assert AllAsNulls(rows)[0] == AsNulls(rows[0]) && AllAsNulls(rows)[1..] == AllAsNulls(rows[1..]);
    }
  }

  /** The server loads of the rows written exactly these rows, column for column, line ends, quotes and delimiters in
      them included, and empty columns as nulls, if and only if the delimiter is not the quote and ends no line, no
      row is without columns, and the text of none begins with the marker. */
  lemma ServerReadsRowsIff(rows: seq<seq<string>>, d: char, q: char)
    requires !EndsLine(q)
    ensures ServerReads(CsvStreams.RenderAll(rows, d, q), d, q) == Some(AllAsNulls(rows))
            <==> d != q && !EndsLine(d) && [] !in rows && !SomeEndsData(rows, d, q)
  {
    if d != q && !EndsLine(d) {
      LoadsWritten(rows, d, q, None);
      AllReadIff(rows);
    }
  }

  /** Every column a value. */
  function Values(row: seq<string>): seq<Option<string>> {
    if row == [] then [] else [Some(row[0])] + Values(row[1..])
  }

  function AllValues(rows: seq<seq<string>>): Table {
    if rows == [] then [] else [Values(rows[0])] + AllValues(rows[1..])
  }

  lemma {:induction false} ValuesIff(row: seq<string>)
    ensures |Values(row)| == |AsNulls(row)| == |row|
    ensures AsNulls(row) == Values(row) <==> "" !in row
  {
    if row != [] {
      ValuesIff(row[1..]);
      assert row == [row[0]] + row[1..];
      assert AsNulls(row)[1..] == AsNulls(row[1..]) && Values(row)[1..] == Values(row[1..]);
      assert AsNulls(row)[0] == Values(row)[0] <==> row[0] != "";
    }
  }

  lemma {:induction false} AllValuesIff(rows: seq<seq<string>>)
    ensures |AllValues(rows)| == |AllRead(rows)| == |rows|
    ensures AllRead(rows) == AllValues(rows) <==> forall i | 0 <= i < |rows| :: rows[i] != [] && "" !in rows[i]
  {
    if rows != [] {
      var rest := rows[1..];
      AllValuesIff(rest);
      ValuesIff(rows[0]);
      assert rows == [rows[0]] + rest;
      assert AllRead(rows)[0] == RowRead(rows[0]) && AllRead(rows)[1..] == AllRead(rest);
      assert AllValues(rows)[0] == Values(rows[0]) && AllValues(rows)[1..] == AllValues(rest);
      assert RowRead(rows[0]) == Values(rows[0]) <==> rows[0] != [] && "" !in rows[0];
    }
  }

  /** Every column comes out as the value it was written as if and only if, besides, none is empty: this writer has no
      way to tell an empty value from a null. */
  lemma ServerReadsValuesIff(rows: seq<seq<string>>, d: char, q: char)
    requires !EndsLine(q)
    ensures ServerReads(CsvStreams.RenderAll(rows, d, q), d, q) == Some(AllValues(rows))
            <==> && d != q && !EndsLine(d) && !SomeEndsData(rows, d, q)
                 && forall i | 0 <= i < |rows| :: rows[i] != [] && "" !in rows[i]
  {
    AllValuesIff(rows);
    if d != q && !EndsLine(d) {
      LoadsWritten(rows, d, q, None);
    }
  }
}
