/** The binary COPY format: what the writer emits, and the reader of the format as PostgreSQL defines it. */
module BinaryFormat {
  import opened Basics
  import opened Framing

  /** `None` is NULL, `Some([])` an empty value. */
  type Field = Option<seq<Byte>>
  type Tuple = seq<Field>

  const I16_LIMIT := 0x8000
  const I32_LIMIT := 0x8000_0000

  /** `as i16`: the low sixteen bits, read as two's complement. */
  function ToI16(n: int): (r: int)
    ensures -I16_LIMIT <= r < I16_LIMIT
    ensures 0 <= n < I16_LIMIT ==> r == n
  {
    var low := n % 0x1_0000;
    if low < I16_LIMIT then low else low - 0x1_0000
  }

  function ToI32(n: int): (r: int)
    ensures -I32_LIMIT <= r < I32_LIMIT
    ensures 0 <= n < I32_LIMIT ==> r == n
  {
    var low := n % U32_LIMIT;
    if low < I32_LIMIT then low else low - U32_LIMIT
  }

  function I16Bytes(n: int): (b: seq<Byte>)
    requires -I16_LIMIT <= n < I16_LIMIT
    ensures |b| == 2 && I16(b) == n
  {
    var low := n % 0x1_0000;
    [low / 256, low % 256]
  }

  function I16(b: seq<Byte>): int
    requires |b| == 2
  {
    ToI16(b[0] as int * 256 + b[1] as int)
  }

  function I32Bytes(n: int): (b: seq<Byte>)
    requires -I32_LIMIT <= n < I32_LIMIT
    ensures |b| == 4 && I32(b) == n
  {
    U32Bytes(n % U32_LIMIT)
  }

  function I32(b: seq<Byte>): int
    requires |b| == 4
  {
    ToI32(U32(b))
  }

  // ----- writer ---------------------------------------------------------------------------

  /** PGCOPY, newline, FF, carriage return, newline, NUL. */
  const SIGNATURE: seq<Byte> := [0x50, 0x47, 0x43, 0x4F, 0x50, 0x59, 0x0A, 0xFF, 0x0D, 0x0A, 0x00]

  const HEADER: seq<Byte> := SIGNATURE + I32Bytes(0) + I32Bytes(0)
  const TRAILER: seq<Byte> := I16Bytes(-1)

  function FieldBytes(f: Field): seq<Byte> {
    match f
    case Some(data) => I32Bytes(ToI32(|data|)) + data
    case None => I32Bytes(-1)
  }

  function FieldsBytes(t: Tuple): seq<Byte> {
    if t == [] then [] else FieldBytes(t[0]) + FieldsBytes(t[1..])
  }

  function RowBytes(t: Tuple): (b: seq<Byte>)
    ensures |b| >= 2
  {
    I16Bytes(ToI16(|t|)) + FieldsBytes(t)
  }

  function RowsBytes(rows: seq<Tuple>): seq<Byte> {
    if rows == [] then [] else RowBytes(rows[0]) + RowsBytes(rows[1..])
  }

  /** Everything sent for one COPY: header, rows, trailer. */
  function Document(rows: seq<Tuple>): seq<Byte> { HEADER + RowsBytes(rows) + TRAILER }

  lemma {:induction false} FieldsBytesAppend(t: Tuple, f: Field)
    ensures FieldsBytes(t + [f]) == FieldsBytes(t) + FieldBytes(f)
  {
    if t == [] {
      assert t + [f] == [f] && [f][1..] == [];
      assert FieldBytes(f) + [] == FieldBytes(f);
    } else {
      FieldsBytesAppend(t[1..], f);
      Assoc(FieldBytes(t[0]), FieldsBytes(t[1..]), FieldBytes(f));
      assert (t + [f])[1..] == t[1..] + [f];
    }
  }

  // ----- reader ---------------------------------------------------------------------------

  /** `count` fields at the front of `b`, and what follows them. */
  function ReadFields(b: seq<Byte>, count: nat): Option<(Tuple, seq<Byte>)>
    decreases count
  {
    if count == 0 then Some(([], b))
    else if |b| < 4 then None
    else
      var size := I32(b[..4]);
      if size < -1 || |b| - 4 < size then None
      else
        var field := if size == -1 then None else Some(b[4..4 + size]);
        var rest := if size == -1 then b[4..] else b[4 + size..];
        match ReadFields(rest, count - 1)
        case None => None
        case Some((fields, rest')) => Some(([field] + fields, rest'))
  }

  lemma {:induction false} ReadFieldsShape(b: seq<Byte>, count: nat)
    ensures var r := ReadFields(b, count);
            r.Some? ==> |r.value.0| == count && |r.value.1| <= |b| && SmallFields(r.value.0)
    decreases count
  {
    if count > 0 && |b| >= 4 {
      var size := I32(b[..4]);
      if -1 <= size <= |b| - 4 {
        var rest := if size == -1 then b[4..] else b[4 + size..];
        ReadFieldsShape(rest, count - 1);
      }
    }
  }

  /** Rows up to the end marker, behind which nothing may follow. */
  function ReadRows(b: seq<Byte>): Option<seq<Tuple>>
    decreases |b|
  {
    if |b| < 2 then None
    else
      var count := I16(b[..2]);
      if count == -1 then (if |b| == 2 then Some([]) else None)
      else if count < 0 then None
      else
        match ReadFields(b[2..], count)
        case None => None
        case Some((row, rest)) =>
          ReadFieldsShape(b[2..], count);
          match ReadRows(rest)
          case None => None
          case Some(rows) => Some([row] + rows)
  }

  function ReadDocument(b: seq<Byte>): Option<seq<Tuple>> {
    if |b| < 19 || b[..11] != SIGNATURE || I32(b[11..15]) != 0 then None
    else
      var extension := I32(b[15..19]);
      if extension < 0 || |b| - 19 < extension then None else ReadRows(b[19 + extension..])
  }

  // ----- round trip -----------------------------------------------------------------------

  predicate SmallFields(t: Tuple) { forall i | 0 <= i < |t| && t[i].Some? :: |t[i].value| < I32_LIMIT }

  predicate Storable(t: Tuple) { |t| < I16_LIMIT && SmallFields(t) }

  lemma FieldFront(f: Field, rest: seq<Byte>)
    requires f.Some? ==> |f.value| < I32_LIMIT
    ensures var b := FieldBytes(f) + rest;
            |b| >= 4 &&
            var size := I32(b[..4]);
            if f.Some? then size == |f.value| <= |b| - 4 && b[4..4 + size] == f.value && b[4 + size..] == rest
            else size == -1 && b[4..] == rest
  {
    match f
    case Some(data) =>
      Split3(I32Bytes(|data|), data, rest);
      var b := FieldBytes(f) + rest;
      assert b[4..4 + |data|] == b[4..][..|data|] && b[4 + |data|..] == b[4..][|data|..];
    case None => Split3(I32Bytes(-1), [], rest);
  }

  lemma FieldReads(f: Field, rest: seq<Byte>, count: nat)
    requires f.Some? ==> |f.value| < I32_LIMIT
    ensures ReadFields(FieldBytes(f) + rest, count + 1)
         == match ReadFields(rest, count)
            case None => None
            case Some((fields, rest')) => Some(([f] + fields, rest'))
  {
    FieldFront(f, rest);
  }

  lemma {:induction false} FieldsRoundTrip(t: Tuple, rest: seq<Byte>)
    requires SmallFields(t)
    ensures ReadFields(FieldsBytes(t) + rest, |t|) == Some((t, rest))
  {
    if t == [] {
      assert FieldsBytes(t) + rest == rest;
    } else {
      Assoc(FieldBytes(t[0]), FieldsBytes(t[1..]), rest);
      FieldReads(t[0], FieldsBytes(t[1..]) + rest, |t| - 1);
      FieldsRoundTrip(t[1..], rest);
      assert [t[0]] + t[1..] == t;
    }
  }

  lemma RowFront(t: Tuple, rest: seq<Byte>)
    requires |t| < I16_LIMIT
    ensures var b := RowBytes(t) + rest;
            I16(b[..2]) == |t| && b[2..] == FieldsBytes(t) + rest
  {
    Split3(I16Bytes(|t|), FieldsBytes(t), rest);
  }

  function InFront(row: Tuple, read: Option<seq<Tuple>>): Option<seq<Tuple>> {
    match read
    case None => None
    case Some(rows) => Some([row] + rows)
  }

  /** Reading on behind a row that was read. */
  lemma ReadOn(b: seq<Byte>, row: Tuple, rest: seq<Byte>)
    requires |b| >= 2 && I16(b[..2]) == |row| && ReadFields(b[2..], |row|) == Some((row, rest))
    ensures ReadRows(b) == InFront(row, ReadRows(rest))
  {
  }

  lemma RowReads(t: Tuple, rest: seq<Byte>)
    requires Storable(t)
    ensures ReadRows(RowBytes(t) + rest) == InFront(t, ReadRows(rest))
  {
    RowFront(t, rest);
    FieldsRoundTrip(t, rest);
    ReadOn(RowBytes(t) + rest, t, rest);
  }

  lemma {:induction false} RowsRoundTrip(rows: seq<Tuple>)
    requires forall i | 0 <= i < |rows| :: Storable(rows[i])
    ensures ReadRows(RowsBytes(rows) + TRAILER) == Some(rows)
  {
    if rows == [] {
      assert RowsBytes(rows) + TRAILER == TRAILER && TRAILER[..2] == I16Bytes(-1);
    } else {
      Assoc(RowBytes(rows[0]), RowsBytes(rows[1..]), TRAILER);
      RowReads(rows[0], RowsBytes(rows[1..]) + TRAILER);
      RowsRoundTrip(rows[1..]);
      assert [rows[0]] + rows[1..] == rows;
    }
  }

  lemma {:induction false} ReadRowsAreStorable(b: seq<Byte>)
    ensures ReadRows(b).Some? ==> forall i | 0 <= i < |ReadRows(b).value| :: Storable(ReadRows(b).value[i])
    decreases |b|
  {
    if |b| >= 2 && I16(b[..2]) >= 0 {
      var count := I16(b[..2]);
      var r := ReadFields(b[2..], count);
      ReadFieldsShape(b[2..], count);
      if r.Some? {
        ReadRowsAreStorable(r.value.1);
      }
    }
  }

  lemma HeaderIsSkipped(rest: seq<Byte>)
    ensures ReadDocument(HEADER + rest) == ReadRows(rest)
  {
    var b := HEADER + rest;
    assert b[..11] == SIGNATURE && b[11..15] == I32Bytes(0) && b[15..19] == I32Bytes(0);
    assert b[19..] == rest;
  }

  /** The round trip, exactly: the reader recovers the rows written, NULL and empty kept apart and no row
      taken for the trailer, if and only if no row has more than 32767 fields and no field reaches 2^31 bytes. */
  lemma DocumentRoundTripIff(rows: seq<Tuple>)
    ensures ReadDocument(Document(rows)) == Some(rows) <==> forall i | 0 <= i < |rows| :: Storable(rows[i])
  {
    HeaderIsSkipped(RowsBytes(rows) + TRAILER);
    Assoc(HEADER, RowsBytes(rows), TRAILER);
    ReadRowsAreStorable(RowsBytes(rows) + TRAILER);
    if forall i | 0 <= i < |rows| :: Storable(rows[i]) {
      RowsRoundTrip(rows);
    }
  }

  // ----- the width check --------------------------------------------------------------------

  /** The writer's check of a row against its column count, which compares the width wrapped to 16 bits. */
  predicate Accepts(columnCount: int, t: Tuple) { ToI16(|t|) == columnCount }

  predicate AllAccepted(columnCount: int, rows: seq<Tuple>) {
    forall i | 0 <= i < |rows| :: Accepts(columnCount, rows[i])
  }

  /** What the check is worth, exactly: of the rows that one writer lets through, with fields below 2^31 bytes, the
      document is read back if and only if every row really has the column count. */
  lemma WriterRoundTripIff(columnCount: int, rows: seq<Tuple>)
    requires AllAccepted(columnCount, rows) && forall i | 0 <= i < |rows| :: SmallFields(rows[i])
    ensures ReadDocument(Document(rows)) == Some(rows) <==> forall i | 0 <= i < |rows| :: |rows[i]| == columnCount
  {
    DocumentRoundTripIff(rows);
    forall i | 0 <= i < |rows|
      ensures Storable(rows[i]) <==> |rows[i]| == columnCount
    {
      assert Accepts(columnCount, rows[i]);
    }
  }

  lemma DocumentBody(rows: seq<Tuple>)
    ensures ReadDocument(Document(rows)) == ReadRows(RowsBytes(rows) + TRAILER)
  {
    HeaderIsSkipped(RowsBytes(rows) + TRAILER);
    Assoc(HEADER, RowsBytes(rows), TRAILER);
  }

  /** A negative column count, which no width has: its first row starts with the count itself, -1 being the end marker,
      and makes the document unreadable. */
  lemma NegativeCountUnreadable(columnCount: int, rows: seq<Tuple>)
    requires AllAccepted(columnCount, rows) && columnCount < 0 && rows != []
    ensures ReadDocument(Document(rows)) == None
  {
    DocumentBody(rows);
    var first, tail := rows[0], RowsBytes(rows[1..]) + TRAILER;
    Assoc(RowBytes(first), RowsBytes(rows[1..]), TRAILER);
    assert Accepts(columnCount, first);
    Split3(I16Bytes(columnCount), FieldsBytes(first), tail);
  }

  /** Behind readable rows, a row too wide by a multiple of 65536 is cut to its first columns, and its other fields are
      read as rows or make the document unreadable. */
  lemma WideRowIsCut(columnCount: int, before: seq<Tuple>, wide: Tuple, after: seq<Tuple>)
    requires AllAccepted(columnCount, before + ([wide] + after)) && 0 <= columnCount < |wide|
    requires (forall i | 0 <= i < |before| :: Storable(before[i])) && SmallFields(wide[..columnCount])
    ensures var read := ReadDocument(Document(before + ([wide] + after)));
            read == None || before + [wide[..columnCount]] <= read.value
  {
    assert (before + ([wide] + after))[|before|] == wide;
    assert Accepts(columnCount, wide);
    DocumentBody(before + ([wide] + after));
    WideRowCuts(before, wide, after, columnCount);
  }

  lemma {:induction false} FieldsSplit(t: Tuple, n: nat)
    requires n <= |t|
    ensures FieldsBytes(t) == FieldsBytes(t[..n]) + FieldsBytes(t[n..])
  {
    if n == 0 {
      assert t[0..] == t && [] + FieldsBytes(t) == FieldsBytes(t);
    } else {
      FieldsSplit(t[1..], n - 1);
      assert t[..n][1..] == t[1..][..n - 1] && t[1..][n - 1..] == t[n..];
      Assoc(FieldBytes(t[0]), FieldsBytes(t[1..][..n - 1]), FieldsBytes(t[n..]));
    }
  }

  lemma WideRowReads(wide: Tuple, n: nat, rest: seq<Byte>)
    requires n < |wide| && ToI16(|wide|) == n && SmallFields(wide[..n])
    ensures ReadRows(RowBytes(wide) + rest) == InFront(wide[..n], ReadRows(FieldsBytes(wide[n..]) + rest))
  {
    Split3(I16Bytes(n), FieldsBytes(wide), rest);
    FieldsSplit(wide, n);
    Assoc(FieldsBytes(wide[..n]), FieldsBytes(wide[n..]), rest);
    FieldsRoundTrip(wide[..n], FieldsBytes(wide[n..]) + rest);
    ReadOn(RowBytes(wide) + rest, wide[..n], FieldsBytes(wide[n..]) + rest);
  }

  predicate StartsWith(read: Option<seq<Tuple>>, rows: seq<Tuple>) { read == None || rows <= read.value }

  lemma {:induction false} WideRowCuts(before: seq<Tuple>, wide: Tuple, after: seq<Tuple>, n: nat)
    requires n < |wide| && ToI16(|wide|) == n && SmallFields(wide[..n])
    requires forall i | 0 <= i < |before| :: Storable(before[i])
    ensures StartsWith(ReadRows(RowsBytes(before + ([wide] + after)) + TRAILER), before + [wide[..n]])
    decreases |before|
  {
    var rows := before + ([wide] + after);
    var rest := RowsBytes(rows[1..]) + TRAILER;
    Assoc(RowBytes(rows[0]), RowsBytes(rows[1..]), TRAILER);
    if before == [] {
      WideRowReads(wide, n, rest);
    } else {
      assert rows[1..] == before[1..] + ([wide] + after);
      WideRowCuts(before[1..], wide, after, n);
      RowReads(before[0], rest);
      assert before == [before[0]] + before[1..];
      Assoc([before[0]], before[1..], [wide[..n]]);
    }
  }

  /** The bytes that the format prescribes: signature, no flags and no extension; the end marker; numbers with the most
      significant byte first; a null of length -1; every value behind its length. */
  lemma BytesAsPrescribed(data: seq<Byte>, t: Tuple)
    ensures HEADER == [0x50, 0x47, 0x43, 0x4F, 0x50, 0x59, 0x0A, 0xFF, 0x0D, 0x0A, 0, 0, 0, 0, 0, 0, 0, 0, 0]
    ensures TRAILER == [0xFF, 0xFF] && FieldBytes(None) == [0xFF, 0xFF, 0xFF, 0xFF]
    ensures var n := |data|;
            n < I32_LIMIT ==>
              FieldBytes(Some(data)) == [n / 0x100_0000, n / 0x1_0000 % 256, n / 256 % 256, n % 256] + data
    ensures |t| < I16_LIMIT ==> RowBytes(t) == [|t| / 256, |t| % 256] + FieldsBytes(t)
  {
  }

  // ----- runs of the writer -----------------------------------------------------------------

  datatype Writer = Writer(buf: seq<Byte>, headerWritten: bool)
  datatype Call = Header | WriteRow(values: Tuple) | Trailer

  const FRESH := Writer([], false)

  /** One call: the writer after it and the bytes it returns. */
  function Do(w: Writer, call: Call): (Writer, seq<Byte>) {
    match call
    case Header => if w.headerWritten then (w, []) else (Writer(HEADER, true), HEADER)
    case WriteRow(values) => (w.(buf := w.buf + RowBytes(values)), RowBytes(values))
    case Trailer => (w.(buf := w.buf + TRAILER), TRAILER)
  }

  /** A run: the final writer and everything its calls returned. */
  function Run(w: Writer, calls: seq<Call>): (Writer, seq<Byte>)
    decreases |calls|
  {
    if calls == [] then (w, [])
    else
      var (w', bytes) := Do(w, calls[0]);
      var (last, more) := Run(w', calls[1..]);
      (last, bytes + more)
  }

  lemma {:induction false} RunFrom(w: Writer, calls: seq<Call>)
    ensures var (last, sent) := Run(w, calls);
            last.buf == w.buf + sent
            <==> w.headerWritten || Header !in calls || (w.buf == [] && calls[0] == Header)
    decreases |calls|
  {
    if calls == [] {
      assert w.buf + [] == w.buf;
    } else {
      var (w', bytes) := Do(w, calls[0]);
      var (last, more) := Run(w', calls[1..]);
      RunFrom(w', calls[1..]);
      Assoc(w.buf, bytes, more);
      assert calls == [calls[0]] + calls[1..];
      if calls[0] == Header && !w.headerWritten && w.buf != [] {
        assert |last.buf| < |w.buf + (bytes + more)|;
      }
    }
  }

  /** The accumulated buffer is what the calls returned, piece by piece, exactly when the header, if it is
      written at all, is written first: a later first call of `header` throws the rows before it away. */
  lemma BufferIsWhatWasReturnedIff(calls: seq<Call>)
    ensures var (last, sent) := Run(FRESH, calls);
            last.buf == sent <==> Header !in calls || calls[0] == Header
  {
    RunFrom(FRESH, calls);
    assert [] + Run(FRESH, calls).1 == Run(FRESH, calls).1;
  }

  /** The calls of one COPY: header, the rows, trailer. */
  function CopyCalls(rows: seq<Tuple>): seq<Call> { [Header] + RowCalls(rows) }

  function RowCalls(rows: seq<Tuple>): seq<Call> {
    if rows == [] then [Trailer] else [WriteRow(rows[0])] + RowCalls(rows[1..])
  }

  lemma {:induction false} RowCallsSend(w: Writer, rows: seq<Tuple>)
    ensures Run(w, RowCalls(rows)).1 == RowsBytes(rows) + TRAILER
    decreases |rows|
  {
    if rows == [] {
      assert RowCalls(rows)[1..] == [];
      assert Run(Do(w, Trailer).0, []).1 == [];
      assert TRAILER + [] == TRAILER && [] + TRAILER == TRAILER;
    } else {
      var w' := Do(w, WriteRow(rows[0])).0;
      assert RowCalls(rows)[1..] == RowCalls(rows[1..]);
      RowCallsSend(w', rows[1..]);
    }
  }

  /** Header, rows and trailer written in that order return the document, and the buffer holds it. */
  lemma CopyCallsSendDocument(rows: seq<Tuple>)
    ensures Run(FRESH, CopyCalls(rows)).1 == Document(rows)
    ensures Run(FRESH, CopyCalls(rows)).0.buf == Document(rows)
  {
    assert CopyCalls(rows)[1..] == RowCalls(rows);
    RowCallsSend(Writer(HEADER, true), rows);
    BufferIsWhatWasReturnedIff(CopyCalls(rows));
  }
}

/** The writer as the program has it: one growing buffer, of which each call returns the new part. */
module BinaryCopy {
  import opened Basics
  import opened BinaryFormat

  class BinaryCopyWriter {
    var buf: seq<Byte>
    const columnCount: int
    var headerWritten: bool

    ghost function View(): Writer
      reads this
    {
      Writer(buf, headerWritten)
    }

    constructor (columnCount: int)
      requires -I16_LIMIT <= columnCount < I16_LIMIT
      ensures View() == FRESH && this.columnCount == columnCount
    {
      buf, headerWritten := [], false;
      this.columnCount := columnCount;
    }

    method Header() returns (bytes: seq<Byte>)
      modifies this
      ensures (View(), bytes) == Do(old(View()), Call.Header)
    {
      if headerWritten {
        return [];
      }
      buf := [];
      buf := buf + SIGNATURE;
      buf := buf + I32Bytes(0);
      buf := buf + I32Bytes(0);
      assert buf == HEADER;
      headerWritten := true;
      return buf;
    }

    /** The width check compares the wrapped width; the program panics when it fails. */
    method WriteRow(values: Tuple) returns (bytes: seq<Byte>)
      requires ToI16(|values|) == columnCount
      modifies this
      ensures (View(), bytes) == Do(old(View()), Call.WriteRow(values))
    {
      var start := |buf|;
      buf := buf + I16Bytes(columnCount);
      for i := 0 to |values|
        invariant headerWritten == old(headerWritten)
        invariant buf == old(buf) + I16Bytes(columnCount) + FieldsBytes(values[..i])
      {
        FieldsBytesAppend(values[..i], values[i]);
        Assoc(old(buf) + I16Bytes(columnCount), FieldsBytes(values[..i]), FieldBytes(values[i]));
        assert values[..i + 1] == values[..i] + [values[i]];
        match values[i] {
          case Some(data) =>
            Assoc(buf, I32Bytes(ToI32(|data|)), data);
            buf := buf + I32Bytes(ToI32(|data|));
            buf := buf + data;
          case None =>
            buf := buf + I32Bytes(-1);
        }
      }
      assert values[..|values|] == values;
      Assoc(old(buf), I16Bytes(columnCount), FieldsBytes(values));
      return buf[start..];
    }

    method Trailer() returns (bytes: seq<Byte>)
      modifies this
      ensures (View(), bytes) == Do(old(View()), Call.Trailer)
    {
      var start := |buf|;
      buf := buf + I16Bytes(-1);
      return buf[start..];
    }

    method Clear()
      modifies this
      ensures View() == FRESH
    {
      buf, headerWritten := [], false;
    }
  }
}
