/** A stream of CSV rows: lines cut from chunks of bytes as they arrive, and when what was written comes back. */
module CsvStreams {
  import opened Basics
  import opened Utf8
  import opened Csv

  // ----- lines --------------------------------------------------------------------------------

  predicate IsWhitespace(c: char) {
    || c in {' ', '\t', '\n', '\U{B}', '\U{C}', '\r', '\U{85}', '\U{A0}', '\U{1680}'}
    || '\U{2000}' <= c <= '\U{200A}'
    || c in {'\U{2028}', '\U{2029}', '\U{202F}', '\U{205F}', '\U{3000}'}
  }

  function TrimEnd(s: string): string {
    if s != [] && IsWhitespace(s[|s| - 1]) then TrimEnd(s[..|s| - 1]) else s
  }

  function NewlineFrom(s: string, i: nat): (k: nat)
    requires i <= |s|
    ensures i <= k <= |s| && (forall j | i <= j < k :: s[j] != '\n') && (k < |s| ==> s[k] == '\n')
    decreases |s| - i
  {
    if i == |s| || s[i] == '\n' then i else NewlineFrom(s, i + 1)
  }

  function NewlineAt(s: string): (k: nat)
    ensures k <= |s| && (forall i | 0 <= i < k :: s[i] != '\n') && (k < |s| ==> s[k] == '\n')
  {
    NewlineFrom(s, 0)
  }

  /** The rows delivered for the complete lines of `text`, and the unfinished line behind them. */
  function LineRows(text: string, d: char, q: char): (seq<seq<string>>, string)
    decreases |text|
  {
    var k := NewlineAt(text);
    if k == |text| then ([], text)
    else
      var (rows, rest) := LineRows(text[k + 1..], d, q);
      (if k == 0 then rows else [Parse(text[..k], d, q)] + rows, rest)
  }

  /** All rows delivered for a whole character stream. */
  function Delivered(text: string, d: char, q: char): seq<seq<string>> {
    var (rows, rest) := LineRows(text, d, q);
    var remaining := TrimEnd(rest);
    if remaining == [] then rows else rows + [Parse(remaining, d, q)]
  }

  lemma NewlineBehind(line: string, rest: string)
    requires '\n' !in line
    ensures NewlineAt(line + "\n" + rest) == |line|
  {
    var text := line + "\n" + rest;
    assert text[|line|] == '\n';
    assert forall i | 0 <= i < |line| :: text[i] == line[i];
  }

  /** `text` cut at its first newline: its row, if the line is not empty, in front of the others. */
  lemma LineRowsStep(line: string, text: string, d: char, q: char)
    requires '\n' !in line
    ensures LineRows(line + "\n" + text, d, q)
         == ((if line == [] then [] else [Parse(line, d, q)]) + LineRows(text, d, q).0, LineRows(text, d, q).1)
  {
    var whole := line + "\n" + text;
    NewlineBehind(line, text);
    assert whole[..|line|] == line && whole[|line| + 1..] == text;
    assert [] + LineRows(text, d, q).0 == LineRows(text, d, q).0;
  }

  lemma {:induction false} LineRowsAppend(a: string, b: string, d: char, q: char)
    ensures var (rows, rest) := LineRows(a, d, q);
            var (more, rest') := LineRows(rest + b, d, q);
            LineRows(a + b, d, q) == (rows + more, rest')
    decreases |a|
  {
    var k := NewlineAt(a);
    if k == |a| {
      assert [] + LineRows(a + b, d, q).0 == LineRows(a + b, d, q).0;
    } else {
      var line, tail := a[..k], a[k + 1..];
      assert a == line + "\n" + tail;
      assert a + b == line + "\n" + (tail + b);
      LineRowsStep(line, tail, d, q);
      LineRowsStep(line, tail + b, d, q);
      LineRowsAppend(tail, b, d, q);
      var first := if line == [] then [] else [Parse(line, d, q)];
      var (rows, rest) := LineRows(tail, d, q);
      Assoc(first, rows, LineRows(rest + b, d, q).0);
    }
  }

  // ----- reading chunks -------------------------------------------------------------------------

  /** The callback, as the outcome of its n-th call (from 0) on a row. */
  type Callback = (nat, seq<string>) -> bool

  predicate Accepted(accepts: Callback, start: nat, rows: seq<seq<string>>) {
    forall i | 0 <= i < |rows| :: accepts(start + i, rows[i])
  }

  /** The callback failed on the last of these rows, and on no other. */
  predicate Stopped(accepts: Callback, start: nat, rows: seq<seq<string>>) {
    && rows != [] && !accepts(start + |rows| - 1, rows[|rows| - 1])
    && Accepted(accepts, start, rows[..|rows| - 1])
  }

  lemma LineInFront(rows: seq<seq<string>>, line: string, rest: string, d: char, q: char)
    requires '\n' !in line
    ensures var buffer, after := line + "\n" + rest, if line == [] then rows else rows + [Parse(line, d, q)];
            && rows + LineRows(buffer, d, q).0 == after + LineRows(rest, d, q).0
            && LineRows(buffer, d, q).1 == LineRows(rest, d, q).1
  {
    LineRowsStep(line, rest, d, q);
    Assoc(rows, if line == [] then [] else [Parse(line, d, q)], LineRows(rest, d, q).0);
    assert rows + [] == rows;
  }

  /** `rows` are delivered already, and the rest of `all` is to come from `buffer`. */
  predicate Delivering(all: (seq<seq<string>>, string), rows: seq<seq<string>>, buffer: string, d: char, q: char) {
    var (later, last) := LineRows(buffer, d, q);
    rows + later == all.0 && last == all.1
  }

  /** The first line of the buffer is taken off. */
  lemma TakeLine(all: (seq<seq<string>>, string), rows: seq<seq<string>>, buffer: string, d: char, q: char)
    requires NewlineAt(buffer) < |buffer| && Delivering(all, rows, buffer, d, q)
    ensures var k := NewlineAt(buffer);
            Delivering(all, if k == 0 then rows else rows + [Parse(buffer[..k], d, q)], buffer[k + 1..], d, q)
  {
    var k := NewlineAt(buffer);
    assert buffer == buffer[..k] + "\n" + buffer[k + 1..];
    LineInFront(rows, buffer[..k], buffer[k + 1..], d, q);
  }

  lemma DeliveredSoFar(all: (seq<seq<string>>, string), rows: seq<seq<string>>, buffer: string, d: char, q: char)
    requires Delivering(all, rows, buffer, d, q)
    ensures rows <= all.0
  {
  }

  lemma NoLineLeft(all: (seq<seq<string>>, string), rows: seq<seq<string>>, buffer: string, d: char, q: char)
    requires NewlineAt(buffer) == |buffer| && Delivering(all, rows, buffer, d, q)
    ensures all == (rows, buffer)
  {
    assert rows + [] == rows;
  }

  lemma OneMoreCall(accepts: Callback, start: nat, rows: seq<seq<string>>, fields: seq<string>)
    requires Accepted(accepts, start, rows)
    ensures if accepts(start + |rows|, fields) then Accepted(accepts, start, rows + [fields])
            else Stopped(accepts, start, rows + [fields])
  {
    assert (rows + [fields])[..|rows|] == rows;
  }

  /** One line of it: an empty line is passed over. */
  method DeliverLine(
    line: string, delimiter: char, quote: char, accepts: Callback, start: nat, before: seq<seq<string>>)
    returns (ok: bool, rows: seq<seq<string>>)
    requires Accepted(accepts, start, before)
    ensures rows == if line == [] then before else before + [Parse(line, delimiter, quote)]
    ensures if ok then Accepted(accepts, start, rows) else Stopped(accepts, start, rows)
  {
    if line == [] {
      return true, before;
    }
    var fields := ParseCsvLine(line, delimiter, quote);
    OneMoreCall(accepts, start, before, fields);
    return accepts(start + |before|, fields), before + [fields];
  }

  /** The line loop of `for_each_csv_row`: deliver the complete lines of the buffer until the callback fails. */
  method DeliverLines(text: string, delimiter: char, quote: char, accepts: Callback, start: nat)
    returns (ok: bool, rows: seq<seq<string>>, buffer: string)
    ensures ok ==> (rows, buffer) == LineRows(text, delimiter, quote) && Accepted(accepts, start, rows)
    ensures !ok ==> rows <= LineRows(text, delimiter, quote).0 && Stopped(accepts, start, rows)
  {
    rows, buffer := [], text;
    var newline := NewlineAt(buffer);
    ghost var all := LineRows(text, delimiter, quote);
    assert [] + all.0 == all.0;
    while newline < |buffer|
      invariant newline == NewlineAt(buffer) && Accepted(accepts, start, rows)
      invariant Delivering(all, rows, buffer, delimiter, quote)
      decreases |buffer|
    {
      var line := buffer[..newline];
      TakeLine(all, rows, buffer, delimiter, quote);
      buffer := buffer[newline + 1..];
      newline := NewlineAt(buffer);
      ok, rows := DeliverLine(line, delimiter, quote, accepts, start, rows);
      if !ok {
        DeliveredSoFar(all, rows, buffer, delimiter, quote);
        return;
      }
    }
    NoLineLeft(all, rows, buffer, delimiter, quote);
    ok := true;
  }

  /** The chunk loop of `for_each_csv_row`. */
  method DeliverChunks(chunks: seq<Bytes>, delimiter: char, quote: char, accepts: Callback)
    returns (ok: bool, rows: seq<seq<string>>, buffer: string)
    ensures ok ==> (rows, buffer) == LineRows(LossyAll(chunks), delimiter, quote) && Accepted(accepts, 0, rows)
    ensures !ok ==> rows <= Delivered(LossyAll(chunks), delimiter, quote) && Stopped(accepts, 0, rows)
  {
    rows, buffer := [], [];
    for i := 0 to |chunks|
      invariant (rows, buffer) == LineRows(LossyAll(chunks[..i]), delimiter, quote)
      invariant Accepted(accepts, 0, rows)
    {
      NextChunk(chunks, i, rows, buffer, delimiter, quote);
      ghost var before := rows;
      var more;
      ok, more, buffer := DeliverLines(buffer + Lossy(chunks[i]), delimiter, quote, accepts, |rows|);
      rows := rows + more;
      if !ok {
        StoppedBehind(accepts, before, more);
        StayDelivered(chunks, i + 1, rows, delimiter, quote);
        return;
      }
      AcceptedBehind(accepts, before, more);
    }
    assert chunks[..|chunks|] == chunks;
    ok := true;
  }

  /** `for_each_csv_row`: the rows its callback sees are those of the text of the chunks, each decoded on its own,
      up to the first that the callback rejects. */
  method ForEachCsvRow(chunks: seq<Bytes>, delimiter: char, quote: char, accepts: Callback)
    returns (ok: bool, rows: seq<seq<string>>)
    ensures ok ==> rows == Delivered(LossyAll(chunks), delimiter, quote) && Accepted(accepts, 0, rows)
    ensures !ok ==> rows <= Delivered(LossyAll(chunks), delimiter, quote) && Stopped(accepts, 0, rows)
  {
    var buffer;
    ok, rows, buffer := DeliverChunks(chunks, delimiter, quote, accepts);
    if !ok {
      return;
    }
    var remaining := TrimEnd(buffer);
    if remaining != [] {
      var fields := ParseCsvLine(remaining, delimiter, quote);
      OneMoreCall(accepts, 0, rows, fields);
      ok := accepts(|rows|, fields);
      rows := rows + [fields];
    }
  }

  lemma NextChunk(chunks: seq<Bytes>, i: nat, rows: seq<seq<string>>, buffer: string, d: char, q: char)
    requires i < |chunks| && (rows, buffer) == LineRows(LossyAll(chunks[..i]), d, q)
    ensures var (more, rest) := LineRows(buffer + Lossy(chunks[i]), d, q);
            (rows + more, rest) == LineRows(LossyAll(chunks[..i + 1]), d, q)
  {
    LossyAllNext(chunks, i);
    LineRowsAppend(LossyAll(chunks[..i]), Lossy(chunks[i]), d, q);
  }

  lemma AcceptedBehind(accepts: Callback, before: seq<seq<string>>, more: seq<seq<string>>)
    requires Accepted(accepts, 0, before) && Accepted(accepts, |before|, more)
    ensures Accepted(accepts, 0, before + more)
  {
    forall i | 0 <= i < |before + more|
      ensures accepts(0 + i, (before + more)[i])
    {
      if i >= |before| {
        assert accepts(|before| + (i - |before|), more[i - |before|]);
      }
    }
  }

  lemma StoppedBehind(accepts: Callback, before: seq<seq<string>>, more: seq<seq<string>>)
    requires Accepted(accepts, 0, before) && Stopped(accepts, |before|, more)
    ensures Stopped(accepts, 0, before + more)
  {
    var rows := before + more;
    assert rows[..|rows| - 1] == before + more[..|more| - 1];
  }

  lemma LossyAllNext(chunks: seq<Bytes>, i: nat)
    requires i < |chunks|
    ensures LossyAll(chunks[..i + 1]) == LossyAll(chunks[..i]) + Lossy(chunks[i])
  {
    LossyAllSplits(chunks[..i + 1], i);
    assert chunks[..i + 1][..i] == chunks[..i] && chunks[..i + 1][i..] == [chunks[i]];
    assert LossyAll([chunks[i]][1..]) == [] && Lossy(chunks[i]) + [] == Lossy(chunks[i]);
  }

  lemma {:induction false} LossyAllSplits(chunks: seq<Bytes>, i: nat)
    requires i <= |chunks|
    ensures LossyAll(chunks) == LossyAll(chunks[..i]) + LossyAll(chunks[i..])
  {
    if i == 0 {
      assert chunks[0..] == chunks && [] + LossyAll(chunks) == LossyAll(chunks);
    } else {
      LossyAllSplits(chunks[1..], i - 1);
      assert chunks[..i][1..] == chunks[1..][..i - 1] && chunks[1..][i - 1..] == chunks[i..];
      Assoc(Lossy(chunks[0]), LossyAll(chunks[1..][..i - 1]), LossyAll(chunks[i..]));
    }
  }

  /** Lines once complete stay delivered, whatever chunks follow. */
  lemma StayDelivered(chunks: seq<Bytes>, i: nat, rows: seq<seq<string>>, d: char, q: char)
    requires i <= |chunks| && rows <= LineRows(LossyAll(chunks[..i]), d, q).0
    ensures rows <= Delivered(LossyAll(chunks), d, q)
  {
    LossyAllSplits(chunks, i);
    LineRowsAppend(LossyAll(chunks[..i]), LossyAll(chunks[i..]), d, q);
  }

  // ----- writing rows ---------------------------------------------------------------------------

  /** What writing the rows one after the other sends. */
  function RenderAll(rows: seq<seq<string>>, d: char, q: char): string {
    if rows == [] then [] else RenderRow(rows[0], d, q) + "\n" + RenderAll(rows[1..], d, q)
  }

  predicate SingleLine(row: seq<string>) { forall i | 0 <= i < |row| :: '\n' !in row[i] }

  lemma {:induction false} DoubledSingleLine(col: string, q: char)
    requires '\n' !in col && q != '\n'
    ensures '\n' !in Doubled(col, q)
  {
    if col != [] {
      DoubledSingleLine(col[1..], q);
    }
  }

  lemma {:induction false} RenderSingleLine(row: seq<string>, d: char, q: char)
    requires SingleLine(row) && d != '\n' && q != '\n'
    ensures '\n' !in RenderRow(row, d, q)
    ensures RenderRow(row, d, q) == [] <==> row == [] || row == [""]
  {
    if row != [] {
      DoubledSingleLine(row[0], q);
      RenderSingleLine(row[1..], d, q);
      assert row == [row[0]] + row[1..];
    }
  }

  lemma {:induction false} ParseSingleLine(rest: string, d: char, q: char, current: string, inQuotes: bool)
    requires '\n' !in rest && '\n' !in current
    ensures SingleLine(ParseFrom(rest, d, q, current, inQuotes))
    decreases |rest|
  {
    if rest != [] {
      if inQuotes {
        if rest[0] != q {
          ParseSingleLine(rest[1..], d, q, current + [rest[0]], true);
        } else if |rest| > 1 && rest[1] == q {
          ParseSingleLine(rest[2..], d, q, current + [q], true);
        } else {
          ParseSingleLine(rest[1..], d, q, current, false);
        }
      } else if rest[0] == d {
        ParseSingleLine(rest[1..], d, q, [], false);
      } else if rest[0] == q {
        ParseSingleLine(rest[1..], d, q, current, true);
      } else {
        ParseSingleLine(rest[1..], d, q, current + [rest[0]], false);
      }
    }
  }

  /** No field ever delivered holds a newline. */
  lemma {:induction false} LinesAreSingle(text: string, d: char, q: char)
    ensures var (rows, rest) := LineRows(text, d, q);
            '\n' !in rest && forall i | 0 <= i < |rows| :: SingleLine(rows[i])
    decreases |text|
  {
    var k := NewlineAt(text);
    if k < |text| {
      LinesAreSingle(text[k + 1..], d, q);
      ParseSingleLine(text[..k], d, q, [], false);
    }
  }

  lemma {:induction false} TrimShortens(s: string)
    ensures TrimEnd(s) <= s
  {
    if s != [] && IsWhitespace(s[|s| - 1]) {
      TrimShortens(s[..|s| - 1]);
    }
  }

  /** What is trimmed is all the whitespace at the end, and no more. */
  lemma {:induction false} TrimEndMeans(s: string)
    ensures var t := TrimEnd(s);
            && t <= s && (forall i | |t| <= i < |s| :: IsWhitespace(s[i]))
            && (t != [] ==> !IsWhitespace(t[|t| - 1]))
  {
    if s != [] && IsWhitespace(s[|s| - 1]) {
      TrimEndMeans(s[..|s| - 1]);
    }
  }

  /** Lines, each with its newline, and an unfinished one behind them. */
  function Joined(lines: seq<string>, last: string): string {
    if lines == [] then last else lines[0] + "\n" + Joined(lines[1..], last)
  }

  function ParsedLines(lines: seq<string>, d: char, q: char): seq<seq<string>> {
    if lines == [] then [] else (if lines[0] == [] then [] else [Parse(lines[0], d, q)]) + ParsedLines(lines[1..], d, q)
  }

  /** The rows delivered are those of the lines: one of each complete line that is not empty, as it stands, and one of
      the unfinished line at the end, without the whitespace it ends in and only if something else is left. */
  lemma {:induction false} DeliveredLines(lines: seq<string>, last: string, d: char, q: char)
    requires SingleLine(lines) && '\n' !in last
    ensures LineRows(Joined(lines, last), d, q) == (ParsedLines(lines, d, q), last)
    ensures Delivered(Joined(lines, last), d, q)
         == ParsedLines(lines, d, q) + if TrimEnd(last) == [] then [] else [Parse(TrimEnd(last), d, q)]
  {
    if lines != [] {
      DeliveredLines(lines[1..], last, d, q);
      LineRowsStep(lines[0], Joined(lines[1..], last), d, q);
    }
  }

  lemma DeliveredIsSingle(text: string, d: char, q: char)
    ensures forall i | 0 <= i < |Delivered(text, d, q)| :: SingleLine(Delivered(text, d, q)[i])
  {
    var rest := LineRows(text, d, q).1;
    LinesAreSingle(text, d, q);
    TrimShortens(rest);
    ParseSingleLine(TrimEnd(rest), d, q, [], false);
  }

  /** The rows delivered for the text of one written row. */
  function RowsOf(row: seq<string>, d: char, q: char): seq<seq<string>> {
    LineRows(RenderRow(row, d, q) + "\n", d, q).0
  }

  function AllRowsOf(rows: seq<seq<string>>, d: char, q: char): seq<seq<string>> {
    if rows == [] then [] else RowsOf(rows[0], d, q) + AllRowsOf(rows[1..], d, q)
  }

  lemma {:induction false} ClosedLines(text: string, d: char, q: char)
    ensures LineRows(text + "\n", d, q).1 == []
    decreases |text|
  {
    var k := NewlineAt(text);
    if k == |text| {
      LineRowsStep(text, [], d, q);
      assert text + "\n" + [] == text + "\n";
    } else {
      var line, tail := text[..k], text[k + 1..];
      assert text + "\n" == line + "\n" + (tail + "\n");
      LineRowsStep(line, tail + "\n", d, q);
      ClosedLines(tail, d, q);
    }
  }

  /** A written stream is delivered row by row. */
  lemma {:induction false} DeliveredByRow(rows: seq<seq<string>>, d: char, q: char)
    ensures LineRows(RenderAll(rows, d, q), d, q) == (AllRowsOf(rows, d, q), [])
    ensures Delivered(RenderAll(rows, d, q), d, q) == AllRowsOf(rows, d, q)
  {
    if rows != [] {
      var first, rest := RenderRow(rows[0], d, q) + "\n", RenderAll(rows[1..], d, q);
      DeliveredByRow(rows[1..], d, q);
      ClosedLines(RenderRow(rows[0], d, q), d, q);
      LineRowsAppend(first, rest, d, q);
      assert [] + rest == rest;
    }
    assert TrimEnd([]) == [];
  }

  // ----- which rows come back -------------------------------------------------------------------

  /** A row comes back: it is not empty, does not print as an empty line and holds no newline; and it survives
      its own delimiter and quote, which may themselves be the newline. */
  predicate Deliverable(row: seq<string>, d: char, q: char) {
    && row != [] && row != [""] && SingleLine(row)
    && if d == '\n' then |row| == 1
       else if q == '\n' then NoneQuoted(row, d, q) || (|row| == 1 && d !in row[0])
       else Quotable(row, d, q)
  }

  predicate NoneQuoted(row: seq<string>, d: char, q: char) {
    forall i | 0 <= i < |row| :: !NeedsQuote(row[i], d, q)
  }

  /** Rows that no written stream delivers. */
  predicate Void(row: seq<string>, d: char) { row == [] || row == [""] || (d == '\n' && |row| != 1) }

  /** What one written row comes to: itself alone if it is deliverable; otherwise nothing, and then it is a row
      never delivered at all, or something else first. And no row never delivered is among it. */
  predicate Judged(row: seq<string>, d: char, q: char) {
    var back := RowsOf(row, d, q);
    && (forall x | x in back :: !Void(x, d))
    && if Deliverable(row, d, q) then back == [row] else if back == [] then Void(row, d) else back[0] != row
  }

  /** Text without a newline is delivered as one row, or none when it is empty. */
  lemma OneLine(line: string, d: char, q: char)
    requires '\n' !in line
    ensures LineRows(line + "\n", d, q).0 == if line == [] then [] else [Parse(line, d, q)]
  {
    LineRowsStep(line, [], d, q);
    assert line + "\n" + [] == line + "\n";
  }

  // neither delimiter nor quote is the newline

  lemma JudgedOrdinary(row: seq<string>, d: char, q: char)
    requires SingleLine(row) && d != '\n' && q != '\n'
    ensures Judged(row, d, q)
  {
    var line := RenderRow(row, d, q);
    RenderSingleLine(row, d, q);
    OneLine(line, d, q);
    RowRoundTripIff(row, d, q);
    if line != [] && !Quotable(row, d, q) {
      SeparatorsOfRow(row, d);
      SeparatorsSeparate(line, d, []);
    }
  }

  // the delimiter is the newline

  function Singles(cols: seq<string>): seq<seq<string>> {
    if cols == [] then [] else (if cols[0] == [] then [] else [[cols[0]]]) + Singles(cols[1..])
  }

  lemma {:induction false} SinglesAreSingle(cols: seq<string>)
    ensures forall x | x in Singles(cols) :: |x| == 1 && x != [""]
  {
    if cols != [] {
      SinglesAreSingle(cols[1..]);
    }
  }

  lemma {:induction false} NothingToDouble(s: string, q: char)
    requires q !in s
    ensures Doubled(s, q) == s
  {
    if s != [] {
      NothingToDouble(s[1..], q);
    }
  }

  lemma ParseWhole(col: string, d: char, q: char)
    requires d !in col && q !in col
    ensures Parse(col, d, q) == [col]
  {
    ParsePlain(col, [], d, q, []);
    assert col + [] == col && [] + col == col;
  }

  lemma EmptyLine(text: string, d: char, q: char)
    ensures LineRows("\n" + text, d, q) == LineRows(text, d, q)
  {
    LineRowsStep([], text, d, q);
    assert [] + "\n" + text == "\n" + text;
    assert [] + LineRows(text, d, q).0 == LineRows(text, d, q).0;
  }

  /** A column quoted with newlines takes three lines. */
  lemma NewlineQuoted(col: string, text: string, d: char)
    requires '\n' !in col && d !in col && col != []
    ensures LineRows("\n" + (col + "\n" + ("\n" + text)), d, '\n').0 == [[col]] + LineRows(text, d, '\n').0
  {
    var q := '\n';
    EmptyLine(col + "\n" + ("\n" + text), d, q);
    LineRowsStep(col, "\n" + text, d, q);
    EmptyLine(text, d, q);
    ParseWhole(col, d, q);
  }

  lemma Regrouped(col: string, text: string)
    ensures (['\n'] + col + ['\n']) + "\n" + text == "\n" + (col + "\n" + ("\n" + text))
  {
  }

  lemma ColumnLines(col: string, text: string, q: char)
    requires '\n' !in col
    ensures LineRows(RenderColumn(col, '\n', q) + "\n" + text, '\n', q).0 == Singles([col]) + LineRows(text, '\n', q).0
  {
    assert Singles([col][1..]) == [];
    if q == '\n' && NeedsQuote(col, '\n', q) {
      NothingToDouble(col, q);
      Regrouped(col, text);
      NewlineQuoted(col, text, '\n');
    } else {
      ColumnLine(col, text, q);
    }
  }

  lemma ColumnLine(col: string, text: string, q: char)
    requires '\n' !in col && (q != '\n' || !NeedsQuote(col, '\n', q))
    ensures LineRows(RenderColumn(col, '\n', q) + "\n" + text, '\n', q).0
         == (if col == [] then [] else [[col]]) + LineRows(text, '\n', q).0
  {
    var line := RenderColumn(col, '\n', q);
    if q != '\n' {
      DoubledSingleLine(col, q);
    }
    LineRowsStep(line, text, '\n', q);
    ParseColumn(col, [], '\n', q);
    assert line + [] == line;
  }

  lemma SinglesCons(cols: seq<string>)
    requires cols != []
    ensures Singles([cols[0]]) + Singles(cols[1..]) == Singles(cols)
  {
    var first: seq<seq<string>> := if cols[0] == [] then [] else [[cols[0]]];
    assert [cols[0]][1..] == [] && first + [] == first;
  }

  lemma RenderedTail(first: string, rest: string)
    ensures (first + ['\n'] + rest) + "\n" == first + "\n" + (rest + "\n")
  {
  }

  lemma {:induction false} ColumnsAreLines(row: seq<string>, q: char)
    requires SingleLine(row) && row != []
    ensures RowsOf(row, '\n', q) == Singles(row)
  {
    var d := '\n';
    if |row| == 1 {
      ColumnLines(row[0], [], q);
      var text := RenderColumn(row[0], d, q) + "\n";
      assert text + [] == text && row == [row[0]];
      assert Singles(row) + [] == Singles(row);
    } else {
      var rest := RenderRow(row[1..], d, q) + "\n";
      RenderedTail(RenderColumn(row[0], d, q), RenderRow(row[1..], d, q));
      ColumnLines(row[0], rest, q);
      ColumnsAreLines(row[1..], q);
      SinglesCons(row);
    }
  }

  lemma JudgedNewlineDelimiter(row: seq<string>, q: char)
    requires SingleLine(row)
    ensures Judged(row, '\n', q)
  {
    if row == [] {
      OneLine([], '\n', q);
      assert [] + "\n" == "\n";
    } else {
      ColumnsAreLines(row, q);
      SinglesAreSingle(row);
      if |row| == 1 {
        assert row == [row[0]] && row[1..] == [];
      }
    }
  }

  // the quote is the newline

  lemma {:induction false} UnquotedSeparates(rest: string, d: char, q: char, current: string)
    requires q !in rest && d != q && d !in current
    ensures var fields := ParseFrom(rest, d, q, current, false);
            |fields| == 1 + Count(rest, d) && d !in fields[0]
    decreases |rest|
  {
    if rest != [] {
      UnquotedSeparates(rest[1..], d, q, if rest[0] == d then [] else current + [rest[0]]);
    }
  }

  lemma {:induction false} CountPositive(s: string, ch: char)
    ensures Count(s, ch) > 0 <==> ch in s
  {
    if s != [] {
      CountPositive(s[1..], ch);
      assert s == [s[0]] + s[1..];
    }
  }

  /** A line without quotes is never delivered as an empty row. */
  lemma LineIsNotVoid(line: string, d: char, q: char)
    requires line != [] && q !in line && d != q && d != '\n'
    ensures !Void(Parse(line, d, q), d)
    ensures d in line ==> |Parse(line, d, q)| > 1 && d !in Parse(line, d, q)[0]
    ensures d !in line ==> Parse(line, d, q) == [line]
  {
    UnquotedSeparates(line, d, q, []);
    CountPositive(line, d);
    if d !in line {
      ParseWhole(line, d, q);
    }
  }

  /** Nothing delivered from text without quotes but newlines is void. */
  lemma {:induction false} LinesAreNotVoid(text: string, d: char)
    requires d != '\n'
    ensures forall x | x in LineRows(text, d, '\n').0 :: !Void(x, d)
    decreases |text|
  {
    var k := NewlineAt(text);
    if k < |text| {
      LinesAreNotVoid(text[k + 1..], d);
      if k > 0 {
        LineIsNotVoid(text[..k], d, '\n');
      }
    }
  }

  function FirstQuoted(row: seq<string>, d: char, q: char): (j: nat)
    ensures j <= |row| && (forall i | 0 <= i < j :: !NeedsQuote(row[i], d, q))
    ensures j < |row| ==> NeedsQuote(row[j], d, q)
  {
    if row == [] || NeedsQuote(row[0], d, q) then 0 else 1 + FirstQuoted(row[1..], d, q)
  }

  lemma NoneQuotedRenders(row: seq<string>, d: char, q: char)
    requires SingleLine(row) && d != '\n' && q == '\n' && NoneQuoted(row, d, q)
    ensures '\n' !in RenderRow(row, d, q) && (RenderRow(row, d, q) == [] <==> row == [] || row == [""])
    ensures row != [] ==> Parse(RenderRow(row, d, q), d, q) == row
  {
    PlainSingleLine(row, d, q);
    if row != [] {
      ParseRendered(row, d, q);
    }
  }

  lemma {:induction false} PlainSingleLine(row: seq<string>, d: char, q: char)
    requires SingleLine(row) && d != '\n' && NoneQuoted(row, d, q)
    ensures '\n' !in RenderRow(row, d, q)
    ensures RenderRow(row, d, q) == [] <==> row == [] || row == [""]
  {
    if row != [] {
      PlainSingleLine(row[1..], d, q);
      assert row == [row[0]] + row[1..];
    }
  }

  /** A row with a column to quote prints its plain columns, each with a delimiter, up to the first newline. */
  lemma {:induction false} PrintsUpToQuote(row: seq<string>, j: nat, d: char, q: char) returns (rest: string)
    requires 0 < j < |row| && q == '\n' && NeedsQuote(row[j], d, q)
    ensures RenderRow(row, d, q) == RenderRow(row[..j] + [""], d, q) + "\n" + rest
    requires NoneQuoted(row[..j], d, q)
    decreases j
  {
    var plain := row[..j] + [""];
    assert plain[0] == row[0] && row[..j][0] == row[0];
    assert plain[1..] == row[1..][..j - 1] + [""];
    if j == 1 {
      var col := RenderColumn(row[1], d, q);
      assert col == "\n" + (Doubled(row[1], q) + [q]);
      RenderRowSplits(row[1..], d, q);
      rest := Doubled(row[1], q) + [q] + RenderMore(row[2..], d, q);
      assert row[1..][1..] == row[2..];
      assert plain[1..] == [""] && RenderRow([""], d, q) == [];
      assert RenderRow(row[1..], d, q) == "\n" + rest;
      var head := RenderColumn(row[0], d, q) + [d];
      assert RenderRow(plain, d, q) == head + [] == head;
    } else {
      assert row[1..][..j - 1] == row[..j][1..];
      rest := PrintsUpToQuote(row[1..], j - 1, d, q);
      var head := RenderColumn(row[0], d, q) + [d];
      var inner := RenderRow(row[1..][..j - 1] + [""], d, q);
      assert head + (inner + "\n" + rest) == (head + inner) + "\n" + rest;
    }
  }

  lemma QuotedFirstDiffers(row: seq<string>, d: char)
    requires SingleLine(row) && d != '\n' && row != [] && NeedsQuote(row[0], d, '\n')
    ensures var back := RowsOf(row, d, '\n');
            back != [] && back[0] == Parse(row[0], d, '\n') && (|row| == 1 && d !in row[0] ==> back == [row])
    ensures !(|row| == 1 && d !in row[0]) ==> RowsOf(row, d, '\n')[0] != row
  {
    var q, col := '\n', row[0];
    NothingToDouble(col, q);
    RenderRowSplits(row, d, q);
    var more := RenderMore(row[1..], d, q);
    assert RenderRow(row, d, q) + "\n" == "\n" + (col + "\n" + (more + "\n"));
    EmptyLine(col + "\n" + (more + "\n"), d, q);
    LineRowsStep(col, more + "\n", d, q);
    LineIsNotVoid(col, d, q);
    if |row| == 1 && d !in col {
      assert more == [] && [] + "\n" == "\n" && row == [col];
      OneLine([], d, q);
    }
  }

  lemma QuotedLaterDiffers(row: seq<string>, j: nat, d: char)
    requires SingleLine(row) && d != '\n' && 0 < j < |row|
    requires NoneQuoted(row[..j], d, '\n') && NeedsQuote(row[j], d, '\n')
    ensures var back := RowsOf(row, d, '\n'); back != [] && back[0] != row
  {
    var q := '\n';
    var plain := row[..j] + [""];
    var rest := PrintsUpToQuote(row, j, d, q);
    assert SingleLine(plain) && NoneQuoted(plain, d, q);
    NoneQuotedRenders(plain, d, q);
    var line := RenderRow(plain, d, q);
    assert RenderRow(row, d, q) + "\n" == line + "\n" + (rest + "\n");
    LineRowsStep(line, rest + "\n", d, q);
    assert plain[j] == [] && row[j] != [];
  }

  lemma JudgedNewlineQuote(row: seq<string>, d: char)
    requires SingleLine(row) && d != '\n'
    ensures Judged(row, d, '\n')
  {
    var q := '\n';
    LinesAreNotVoid(RenderRow(row, d, q) + "\n", d);
    var j := FirstQuoted(row, d, q);
    if j == |row| {
      assert row[..j] == row;
      NoneQuotedRenders(row, d, q);
      OneLine(RenderRow(row, d, q), d, q);
    } else if j == 0 {
      QuotedFirstDiffers(row, d);
    } else {
      QuotedLaterDiffers(row, j, d);
    }
  }

  lemma EveryRowJudged(row: seq<string>, d: char, q: char)
    requires SingleLine(row)
    ensures Judged(row, d, q)
  {
    if d == '\n' {
      JudgedNewlineDelimiter(row, q);
    } else if q == '\n' {
      JudgedNewlineQuote(row, d);
    } else {
      JudgedOrdinary(row, d, q);
    }
  }

  // ----- the stream -----------------------------------------------------------------------------

  predicate AllSingleLine(rows: seq<seq<string>>) { forall i | 0 <= i < |rows| :: SingleLine(rows[i]) }

  predicate AllDeliverable(rows: seq<seq<string>>, d: char, q: char) {
    forall i | 0 <= i < |rows| :: Deliverable(rows[i], d, q)
  }

  lemma {:induction false} NothingVoid(rows: seq<seq<string>>, d: char, q: char)
    requires AllSingleLine(rows)
    ensures forall x | x in AllRowsOf(rows, d, q) :: !Void(x, d)
  {
    if rows != [] {
      EveryRowJudged(rows[0], d, q);
      NothingVoid(rows[1..], d, q);
    }
  }

  lemma {:induction false} RowsComeBackIff(rows: seq<seq<string>>, d: char, q: char)
    requires AllSingleLine(rows)
    ensures AllRowsOf(rows, d, q) == rows <==> AllDeliverable(rows, d, q)
  {
    if rows != [] {
      var first, back, rest := rows[0], RowsOf(rows[0], d, q), AllRowsOf(rows[1..], d, q);
      EveryRowJudged(first, d, q);
      RowsComeBackIff(rows[1..], d, q);
      assert rows == [first] + rows[1..];
      if Deliverable(first, d, q) {
        assert ([first] + rest)[1..] == rest;
      } else if back == [] {
        assert back + rest == rest;
        NothingVoid(rows[1..], d, q);
        assert first in rows;
      } else {
        assert (back + rest)[0] == back[0];
      }
    }
  }

  /** The stream round trip, exactly, for every delimiter and quote: the rows written are delivered if and only if
      each of them is deliverable. */
  lemma StreamRoundTripIff(rows: seq<seq<string>>, d: char, q: char)
    ensures Delivered(RenderAll(rows, d, q), d, q) == rows <==> AllDeliverable(rows, d, q)
  {
    DeliveredByRow(rows, d, q);
    if AllSingleLine(rows) {
      RowsComeBackIff(rows, d, q);
    } else {
      DeliveredIsSingle(RenderAll(rows, d, q), d, q);
    }
  }

  // ----- the bytes ------------------------------------------------------------------------------

  function CountFields(fields: seq<string>, ch: char): nat {
    if fields == [] then 0 else Count(fields[0], ch) + CountFields(fields[1..], ch)
  }

  /** How many of `ch` the fields of a row stand for, counting the delimiters between them if it is the delimiter. */
  function Weight(fields: seq<string>, ch: char, d: char): nat {
    CountFields(fields, ch) + (if ch == d && fields != [] then |fields| - 1 else 0)
  }

  function CountRows(rows: seq<seq<string>>, ch: char, d: char): nat {
    if rows == [] then 0 else Weight(rows[0], ch, d) + CountRows(rows[1..], ch, d)
  }

  lemma {:induction false} CountRowsConcat(a: seq<seq<string>>, b: seq<seq<string>>, ch: char, d: char)
    ensures CountRows(a + b, ch, d) == CountRows(a, ch, d) + CountRows(b, ch, d)
  {
    if a == [] {
      assert a + b == b;
    } else {
      CountRowsConcat(a[1..], b, ch, d);
      assert (a + b)[1..] == a[1..] + b;
    }
  }

  /** Parsing keeps every character but the quote, delimiters as such or inside quotes. */
  lemma {:induction false} ParseKeeps(rest: string, d: char, q: char, current: string, inQuotes: bool, ch: char)
    requires ch != q
    ensures Weight(ParseFrom(rest, d, q, current, inQuotes), ch, d) == Count(current, ch) + Count(rest, ch)
    decreases |rest|, 1
  {
    if rest == [] {
      assert CountFields([current][1..], ch) == 0;
    } else if inQuotes && rest[0] == q && |rest| > 1 && rest[1] == q {
      CountOne(current, q, ch);
      ParseKeeps(rest[2..], d, q, current + [q], true, ch);
      assert rest[1..][1..] == rest[2..] && rest[1..][0] == q;
    } else if rest[0] == q {
      ParseKeepsMark(rest, d, q, current, inQuotes, ch);
    } else if !inQuotes && rest[0] == d {
      ParseKeepsMark(rest, d, q, current, inQuotes, ch);
    } else {
      CountOne(current, rest[0], ch);
      ParseKeeps(rest[1..], d, q, current + [rest[0]], inQuotes, ch);
    }
  }

  lemma CountOne(current: string, x: char, ch: char)
    ensures Count(current + [x], ch) == Count(current, ch) + (if x == ch then 1 else 0)
  {
    CountConcat(current, [x], ch);
    assert Count([x][1..], ch) == 0;
  }

  lemma {:induction false} ParseKeepsMark(rest: string, d: char, q: char, current: string, inQuotes: bool, ch: char)
    requires ch != q && rest != [] && (rest[0] == q || (!inQuotes && rest[0] == d))
    requires !(inQuotes && rest[0] == q && |rest| > 1 && rest[1] == q)
    ensures Weight(ParseFrom(rest, d, q, current, inQuotes), ch, d) == Count(current, ch) + Count(rest, ch)
    decreases |rest|, 0
  {
    if inQuotes {
      ParseKeeps(rest[1..], d, q, current, false, ch);
    } else if rest[0] == d {
      ParseKeeps(rest[1..], d, q, [], false, ch);
      var later := ParseFrom(rest[1..], d, q, [], false);
      assert ([current] + later)[1..] == later;
      ParseYields(rest[1..], d, q, [], false);
    } else {
      ParseKeeps(rest[1..], d, q, current, true, ch);
    }
  }

  lemma {:induction false} ParseYields(rest: string, d: char, q: char, current: string, inQuotes: bool)
    ensures ParseFrom(rest, d, q, current, inQuotes) != []
    decreases |rest|
  {
    if rest != [] {
      if inQuotes && rest[0] == q && |rest| > 1 && rest[1] == q {
        ParseYields(rest[2..], d, q, current + [q], true);
      } else if inQuotes && rest[0] == q {
        ParseYields(rest[1..], d, q, current, false);
      } else if inQuotes || (rest[0] != d && rest[0] != q) {
        ParseYields(rest[1..], d, q, current + [rest[0]], inQuotes);
      } else if rest[0] != d {
        ParseYields(rest[1..], d, q, current, true);
      }
    }
  }

  lemma {:induction false} LinesKeep(text: string, d: char, q: char, ch: char)
    requires ch != q && ch != '\n'
    ensures var (rows, rest) := LineRows(text, d, q); CountRows(rows, ch, d) + Count(rest, ch) == Count(text, ch)
    decreases |text|
  {
    var k := NewlineAt(text);
    if k < |text| {
      var line, tail := text[..k], text[k + 1..];
      LinesKeep(tail, d, q, ch);
      ParseKeeps(line, d, q, [], false, ch);
      assert text == line + "\n" + tail;
      CountLine(line, tail, ch);
      CountRowsConcat([Parse(line, d, q)], LineRows(tail, d, q).0, ch, d);
      assert CountRows([Parse(line, d, q)][1..], ch, d) == 0;
    }
  }

  lemma CountLine(line: string, tail: string, ch: char)
    requires ch != '\n'
    ensures Count(line + "\n" + tail, ch) == Count(line, ch) + Count(tail, ch)
  {
    CountConcat(line + "\n", tail, ch);
    CountConcat(line, "\n", ch);
    assert Count("\n"[1..], ch) == 0;
  }

  lemma {:induction false} TrimKeeps(s: string, ch: char)
    requires !IsWhitespace(ch)
    ensures Count(TrimEnd(s), ch) == Count(s, ch)
  {
    if s != [] && IsWhitespace(s[|s| - 1]) {
      var front, last := s[..|s| - 1], s[|s| - 1];
      TrimKeeps(front, ch);
      assert s == front + [last];
      CountConcat(front, [last], ch);
      assert Count([last][1..], ch) == 0;
    }
  }

  /** The rows delivered stand for as many replacement characters as the text holds. */
  lemma DeliveredKeeps(text: string, d: char, q: char)
    requires q != REPLACEMENT
    ensures CountRows(Delivered(text, d, q), REPLACEMENT, d) == Count(text, REPLACEMENT)
  {
    var (rows, rest) := LineRows(text, d, q);
    var remaining := TrimEnd(rest);
    LinesKeep(text, d, q, REPLACEMENT);
    TrimKeeps(rest, REPLACEMENT);
    ParseKeeps(remaining, d, q, [], false, REPLACEMENT);
    var last := [Parse(remaining, d, q)];
    CountRowsConcat(rows, last, REPLACEMENT, d);
    assert CountRows(last[1..], REPLACEMENT, d) == 0;
  }

  /** Chunking the bytes: aligned chunks deliver the rows of the whole stream; other chunks deliver other rows, unless
      the replacement character itself is the quote. */
  lemma ChunkedRowsIff(chunks: seq<Bytes>, d: char, q: char)
    ensures Aligned(chunks) ==> Delivered(LossyAll(chunks), d, q) == Delivered(Lossy(Concat(chunks)), d, q)
    ensures q != REPLACEMENT && !Aligned(chunks) ==>
              Delivered(LossyAll(chunks), d, q) != Delivered(Lossy(Concat(chunks)), d, q)
  {
    ChunksIff(chunks);
    if q != REPLACEMENT {
      DeliveredKeeps(LossyAll(chunks), d, q);
      DeliveredKeeps(Lossy(Concat(chunks)), d, q);
    }
  }

  lemma {:induction false} DoublingKeeps(s: string, q: char, ch: char)
    requires ch != q
    ensures Count(Doubled(s, q), ch) == Count(s, ch)
  {
    if s != [] {
      DoublingKeeps(s[1..], q, ch);
      var head := if s[0] == q then [q, q] else [s[0]];
      CountConcat(head, Doubled(s[1..], q), ch);
      assert head[1..] == (if s[0] == q then [q] else []) && [q][1..] == [];
    }
  }

  lemma ColumnKeeps(col: string, d: char, q: char, ch: char)
    requires ch != q
    ensures Count(RenderColumn(col, d, q), ch) == Count(col, ch)
  {
    DoublingKeeps(col, q, ch);
    CountOne([q] + Doubled(col, q), q, ch);
    CountConcat([q], Doubled(col, q), ch);
    assert Count([q][1..], ch) == 0;
  }

  lemma {:induction false} RowKeeps(row: seq<string>, d: char, q: char, ch: char)
    requires ch != q
    ensures Count(RenderRow(row, d, q), ch) == Weight(row, ch, d)
  {
    if row != [] {
      var first := RenderColumn(row[0], d, q);
      ColumnKeeps(row[0], d, q, ch);
      RowKeeps(row[1..], d, q, ch);
      if |row| > 1 {
        CountConcat(first + [d], RenderRow(row[1..], d, q), ch);
        CountOne(first, d, ch);
      }
    }
  }

  lemma {:induction false} WritingKeeps(rows: seq<seq<string>>, d: char, q: char, ch: char)
    requires ch != q && ch != '\n'
    ensures Count(RenderAll(rows, d, q), ch) == CountRows(rows, ch, d)
  {
    if rows != [] {
      RowKeeps(rows[0], d, q, ch);
      WritingKeeps(rows[1..], d, q, ch);
      CountLine(RenderRow(rows[0], d, q), RenderAll(rows[1..], d, q), ch);
    }
  }

  /** The round trip over bytes: rows written as UTF-8 and read back in aligned chunks are delivered if and only if
      each is deliverable; in chunks of which one ends inside a character they are not delivered, unless the
      replacement character itself is the quote. */
  lemma ByteRoundTripIff(rows: seq<seq<string>>, chunks: seq<Bytes>, d: char, q: char)
    requires Concat(chunks) == Encode(RenderAll(rows, d, q))
    ensures Aligned(chunks) ==> (Delivered(LossyAll(chunks), d, q) == rows <==> AllDeliverable(rows, d, q))
    ensures !Aligned(chunks) && q != REPLACEMENT ==> Delivered(LossyAll(chunks), d, q) != rows
  {
    LossyOfEncoded(RenderAll(rows, d, q));
    ChunksIff(chunks);
    StreamRoundTripIff(rows, d, q);
    if !Aligned(chunks) && q != REPLACEMENT {
      DeliveredKeeps(LossyAll(chunks), d, q);
      WritingKeeps(rows, d, q, REPLACEMENT);
    }
  }

  /** A concrete failing input: one letter of two bytes, written as a row and split between two chunks, does not come
      back. */
  lemma SplitLetter()
    ensures var chunks, rows := [[0xC3], [0xA9, 0x0A]], [["\U{E9}"]];
            && Concat(chunks) == Encode(RenderAll(rows, ',', '"'))
            && !Aligned(chunks) && Delivered(LossyAll(chunks), ',', '"') != rows
  {
    var chunks: seq<Bytes> := [[0xC3], [0xA9, 0x0A]];
    var rows := [["\U{E9}"]];
    var text := "\U{E9}\n";
    assert rows[1..] == [] && RenderRow(rows[0], ',', '"') == "\U{E9}";
    assert RenderAll(rows, ',', '"') == text + [] == text;
    assert text[1..] == "\n" && text[1..][1..] == [];
    assert Encode(text[1..][1..]) == [] && Encode(text[1..]) == [0x0A];
    assert chunks[1..] == [[0xA9, 0x0A]] && chunks[1..][1..] == [];
    assert Concat(chunks[1..][1..]) == [] && Concat(chunks[1..]) == [0xA9, 0x0A];
    var b: Bytes := [0xC3, 0xA9, 0x0A];
    assert Concat(chunks) == b;
    assert Fits(b[0], 1, b[1]) && Size(b) > 1;
    ByteRoundTripIff(rows, chunks, ',', '"');
  }

  /** With the replacement character as the quote, a misaligned split may go unnoticed: the quote is read twice instead
      of once, and opens and closes where it should only open. */
  lemma ReplacementQuoteHides(left: string, right: string, d: char)
    requires d !in left && d !in right && REPLACEMENT !in left && REPLACEMENT !in right && d != REPLACEMENT
    ensures Parse(left + [REPLACEMENT] + right, d, REPLACEMENT) == [left + right]
    ensures right != [] ==> Parse(left + [REPLACEMENT, REPLACEMENT] + right, d, REPLACEMENT) == [left + right]
  {
    var q := REPLACEMENT;
    assert left + [q] + right == left + ([q] + right) && left + [q, q] + right == left + ([q, q] + right);
    ParsePlain(left, [q] + right, d, q, []);
    ParsePlain(left, [q, q] + right, d, q, []);
    assert [] + left == left;
    assert ([q] + right)[1..] == right && ([q, q] + right)[1..] == [q] + right;
    ParseInQuotes(right, d, q, left);
    ParsePlain(right, [], d, q, left);
    assert right + [] == right;
  }

  lemma {:induction false} ParseInQuotes(rest: string, d: char, q: char, current: string)
    requires q !in rest
    ensures ParseFrom(rest, d, q, current, true) == [current + rest]
    decreases |rest|
  {
    if rest == [] {
      assert current + rest == current;
    } else {
      ParseInQuotes(rest[1..], d, q, current + [rest[0]]);
      assert (current + [rest[0]]) + rest[1..] == current + rest;
    }
  }
}
