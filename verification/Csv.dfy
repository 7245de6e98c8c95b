/** CSV rows of COPY: the printer and the line parser. Text is a sequence of characters; `d` is the delimiter
    and `q` the quote character. */
module Csv {
  import opened Basics

  // ----- printer ----------------------------------------------------------------------

  predicate NeedsQuote(col: string, d: char, q: char) {
    d in col || q in col || '\n' in col || '\r' in col
  }

  function RenderColumn(col: string, d: char, q: char): string {
    if NeedsQuote(col, d, q) then [q] + Doubled(col, q) + [q] else col
  }

  function RenderRow(cols: seq<string>, d: char, q: char): string {
    if cols == [] then []
    else if |cols| == 1 then RenderColumn(cols[0], d, q)
    else RenderColumn(cols[0], d, q) + [d] + RenderRow(cols[1..], d, q)
  }

  /** What follows the columns already printed: each remaining column behind a delimiter. */
  function RenderMore(cols: seq<string>, d: char, q: char): string {
    if cols == [] then [] else [d] + RenderColumn(cols[0], d, q) + RenderMore(cols[1..], d, q)
  }

  lemma {:induction false} RenderRowSplits(cols: seq<string>, d: char, q: char)
    requires cols != []
    ensures RenderRow(cols, d, q) == RenderColumn(cols[0], d, q) + RenderMore(cols[1..], d, q)
  {
    if |cols| == 1 {
      assert RenderColumn(cols[0], d, q) + [] == RenderColumn(cols[0], d, q);
    } else {
      RenderRowSplits(cols[1..], d, q);
      assert cols[1..][1..] == cols[2..];
    }
  }

  lemma {:induction false} RenderMoreAppend(cols: seq<string>, col: string, d: char, q: char)
    ensures RenderMore(cols + [col], d, q) == RenderMore(cols, d, q) + [d] + RenderColumn(col, d, q)
  {
    if cols == [] {
      assert cols + [col] == [col] && [col][1..] == [];
    } else {
      RenderMoreAppend(cols[1..], col, d, q);
      assert (cols + [col])[1..] == cols[1..] + [col];
    }
  }

  lemma RenderRowAppend(cols: seq<string>, col: string, d: char, q: char)
    ensures RenderRow(cols + [col], d, q)
         == RenderRow(cols, d, q) + (if cols == [] then [] else [d]) + RenderColumn(col, d, q)
  {
    if cols == [] {
      assert cols + [col] == [col];
    } else {
      RenderRowSplits(cols, d, q);
      RenderRowSplits(cols + [col], d, q);
      RenderMoreAppend(cols[1..], col, d, q);
      assert (cols + [col])[1..] == cols[1..] + [col];
    }
  }

  /** The quoting loop of `write_csv_row`. */
  method Quoted(col: string, quote: char) returns (text: string)
    ensures text == [quote] + Doubled(col, quote) + [quote]
  {
    text := [quote];
    for j := 0 to |col|
      invariant text == [quote] + Doubled(col[..j], quote)
    {
      DoubledAppend(col[..j], col[j], quote);
      assert col[..j + 1] == col[..j] + [col[j]];
      if col[j] == quote {
        text := text + [quote];
      }
      text := text + [col[j]];
    }
    assert col[..|col|] == col;
    text := text + [quote];
  }

  /** `write_csv_row`: the line it sends. */
  method WriteCsvRow(columns: seq<string>, delimiter: char, quote: char) returns (line: string)
    ensures line == RenderRow(columns, delimiter, quote) + "\n"
  {
    line := [];
    for i := 0 to |columns|
      invariant line == RenderRow(columns[..i], delimiter, quote)
    {
      var col := columns[i];
      assert columns[..i + 1] == columns[..i] + [col];
      RenderRowAppend(columns[..i], col, delimiter, quote);
      if i > 0 {
        line := line + [delimiter];
      }
      var text := col;
      if NeedsQuote(col, delimiter, quote) {
        text := Quoted(col, quote);
      }
      line := line + text;
    }
    assert columns[..|columns|] == columns;
    line := line + "\n";
  }

  // ----- parser -----------------------------------------------------------------------

  /** The fields still to come, `current` being the field in progress. */
  function ParseFrom(rest: string, d: char, q: char, current: string, inQuotes: bool): seq<string>
    decreases |rest|
  {
    if rest == [] then [current]
    else if inQuotes then
      if rest[0] != q then ParseFrom(rest[1..], d, q, current + [rest[0]], true)
      else if |rest| > 1 && rest[1] == q then ParseFrom(rest[2..], d, q, current + [q], true)
      else ParseFrom(rest[1..], d, q, current, false)
    else if rest[0] == d then [current] + ParseFrom(rest[1..], d, q, [], false)
    else if rest[0] == q then ParseFrom(rest[1..], d, q, current, true)
    else ParseFrom(rest[1..], d, q, current + [rest[0]], false)
  }

  function Parse(line: string, d: char, q: char): seq<string> { ParseFrom(line, d, q, [], false) }

  method ParseCsvLine(line: string, delimiter: char, quote: char) returns (fields: seq<string>)
    ensures fields == Parse(line, delimiter, quote)
  {
    fields := [];
    var current: string := [];
    var inQuotes := false;
    var i := 0;
    while i < |line|
      invariant 0 <= i <= |line|
      invariant fields + ParseFrom(line[i..], delimiter, quote, current, inQuotes) == Parse(line, delimiter, quote)
    {
      var ch := line[i];
      assert line[i..][0] == ch && line[i..][1..] == line[i + 1..];
      i := i + 1;
      if inQuotes {
        if ch == quote {
          if i < |line| && line[i] == quote {
            assert line[i - 1..][2..] == line[i + 1..];
            i := i + 1;
            current := current + [quote];
          } else {
            inQuotes := false;
          }
        } else {
          current := current + [ch];
        }
      } else if ch == delimiter {
        fields := fields + [current];
        current := [];
      } else if ch == quote {
        inQuotes := true;
      } else {
        current := current + [ch];
      }
    }
    fields := fields + [current];
  }

  // ----- one row: round trip ------------------------------------------------------------

  lemma {:induction false} ParsePlain(col: string, rest: string, d: char, q: char, current: string)
    requires d !in col && q !in col
    ensures ParseFrom(col + rest, d, q, current, false) == ParseFrom(rest, d, q, current + col, false)
  {
    if col == [] {
      assert col + rest == rest && current + col == current;
    } else {
      assert (col + rest)[1..] == col[1..] + rest;
      assert (current + [col[0]]) + col[1..] == current + col;
      ParsePlain(col[1..], rest, d, q, current + [col[0]]);
    }
  }

  lemma {:induction false} ParseQuoted(col: string, rest: string, d: char, q: char, current: string)
    requires rest == [] || rest[0] != q
    ensures ParseFrom(Doubled(col, q) + [q] + rest, d, q, current, true) == ParseFrom(rest, d, q, current + col, false)
    decreases |col|
  {
    var text := Doubled(col, q) + [q] + rest;
    if col == [] {
      assert text == [q] + rest && text[1..] == rest;
      assert current + col == current;
    } else {
      var tail := Doubled(col[1..], q) + [q] + rest;
      assert (current + [col[0]]) + col[1..] == current + col;
      if col[0] == q {
        assert text == [q, q] + tail && text[2..] == tail;
      } else {
        assert text == [col[0]] + tail && text[1..] == tail;
      }
      ParseQuoted(col[1..], rest, d, q, current + [col[0]]);
    }
  }

  lemma ParseColumn(col: string, rest: string, d: char, q: char)
    requires d != q || !NeedsQuote(col, d, q)
    requires rest == [] || rest[0] == d
    ensures ParseFrom(RenderColumn(col, d, q) + rest, d, q, [], false) == ParseFrom(rest, d, q, col, false)
  {
    assert [] + col == col;
    if NeedsQuote(col, d, q) {
      var inner := Doubled(col, q) + [q] + rest;
      assert RenderColumn(col, d, q) + rest == [q] + inner;
      assert ([q] + inner)[1..] == inner;
      ParseQuoted(col, rest, d, q, []);
    } else {
      ParsePlain(col, rest, d, q, []);
    }
  }

  predicate Quotable(cols: seq<string>, d: char, q: char) {
    d != q || forall i | 0 <= i < |cols| :: !NeedsQuote(cols[i], d, q)
  }

  lemma {:induction false} ParseRendered(cols: seq<string>, d: char, q: char)
    requires cols != [] && Quotable(cols, d, q)
    ensures Parse(RenderRow(cols, d, q), d, q) == cols
  {
    var first := RenderColumn(cols[0], d, q);
    if |cols| == 1 {
      assert first + [] == first;
      ParseColumn(cols[0], [], d, q);
    } else {
      var rest := [d] + RenderRow(cols[1..], d, q);
      assert RenderRow(cols, d, q) == first + rest;
      ParseColumn(cols[0], rest, d, q);
      assert rest[1..] == RenderRow(cols[1..], d, q);
      ParseRendered(cols[1..], d, q);
      assert [cols[0]] + cols[1..] == cols;
    }
  }

  /** With equal delimiter and quote the parser never enters quotes: every such character separates. */
  lemma {:induction false} SeparatorsSeparate(rest: string, d: char, current: string)
    ensures |ParseFrom(rest, d, d, current, false)| == 1 + Count(rest, d)
    decreases |rest|
  {
    if rest != [] {
      SeparatorsSeparate(rest[1..], d, if rest[0] == d then [] else current + [rest[0]]);
    }
  }

  lemma {:induction false} SeparatorsOfRow(cols: seq<string>, d: char)
    requires cols != []
    ensures Count(RenderRow(cols, d, d), d) >= |cols| - 1
    ensures !Quotable(cols, d, d) ==> Count(RenderRow(cols, d, d), d) > |cols| - 1
  {
    var first := RenderColumn(cols[0], d, d);
    if NeedsQuote(cols[0], d, d) {
      assert first[1..] == Doubled(cols[0], d) + [d];
    }
    assert NeedsQuote(cols[0], d, d) ==> Count(first, d) >= 1;
    if |cols| > 1 {
      var rest := RenderRow(cols[1..], d, d);
      SeparatorsOfRow(cols[1..], d);
      CountConcat(first + [d], rest, d);
      CountConcat(first, [d], d);
      assert Count([d], d) == 1;
      assert cols == [cols[0]] + cols[1..];
    }
  }

  /** The round trip of one row, exactly: parsing inverts printing for every non-empty column list, embedded
      quotes, delimiters and newlines included, unless delimiter and quote coincide and some column had
      to be quoted. */
  lemma RowRoundTripIff(cols: seq<string>, d: char, q: char)
    ensures Parse(RenderRow(cols, d, q), d, q) == cols <==> cols != [] && Quotable(cols, d, q)
  {
    if cols != [] && Quotable(cols, d, q) {
      ParseRendered(cols, d, q);
    } else if cols != [] {
      SeparatorsOfRow(cols, d);
      SeparatorsSeparate(RenderRow(cols, d, d), d, []);
    }
  }
}
