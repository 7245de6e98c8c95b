/** What a response says, read off declaratively: the response is cut behind each CommandComplete or
    EmptyQueryResponse, and a statement's result is the rows of its piece under the description in it. The
    message loops are proved to return exactly this. */
module Reference {
  import opened Basics
  import opened Messages
  import opened Grammar
  import opened Engine
  import opened SyncDebt
  import opened Pipelining
  import opened Agreement
  import Cursors

  predicate Ends(m: BackendMessage) { m.CommandComplete? || m.EmptyQueryResponse? }

  predicate NoEnd(ms: seq<BackendMessage>) { forall i | 0 <= i < |ms| :: !Ends(ms[i]) }

  function FirstEnd(ms: seq<BackendMessage>): (k: nat)
    ensures k <= |ms| && (forall i | 0 <= i < k :: !Ends(ms[i])) && (k < |ms| ==> Ends(ms[k]))
  {
    if ms == [] || Ends(ms[0]) then 0 else 1 + FirstEnd(ms[1..])
  }

  function ColumnsOf(piece: seq<BackendMessage>): Columns { OrEmpty(DescribedBy(piece)) }

  function StatementResult(piece: seq<BackendMessage>, end: BackendMessage): QueryResult
    requires Ends(end)
  {
    if end.EmptyQueryResponse? then QueryResult([], "", [])
    else QueryResult(Cursors.RowsOf(ColumnsOf(piece), piece), end.tag, ColumnsOf(piece))
  }

  function StatementResults(ms: seq<BackendMessage>): seq<QueryResult>
    decreases |ms|
  {
    var k := FirstEnd(ms);
    if k == |ms| then [] else [StatementResult(ms[..k], ms[k])] + StatementResults(ms[k + 1..])
  }

  // ----- cutting ----------------------------------------------------------------------------

  lemma CutAt(piece: seq<BackendMessage>, end: BackendMessage, rest: seq<BackendMessage>)
    requires NoEnd(piece) && Ends(end)
    ensures StatementResults(piece + ([end] + rest)) == [StatementResult(piece, end)] + StatementResults(rest)
  {
    var ms := piece + ([end] + rest);
    assert ms[|piece|] == end;
    EndBehind(piece, [end] + rest);
    assert ms[..|piece|] == piece && ms[|piece| + 1..] == rest;
  }

  lemma {:induction false} EndBehind(piece: seq<BackendMessage>, ms: seq<BackendMessage>)
    requires NoEnd(piece)
    ensures FirstEnd(piece + ms) == |piece| + FirstEnd(ms)
  {
    if piece == [] {
      assert piece + ms == ms;
    } else {
      assert !Ends(piece[0]);
      assert (piece + ms)[1..] == piece[1..] + ms;
      EndBehind(piece[1..], ms);
    }
  }

  lemma {:induction false} DescribedBehindAsync(early: seq<BackendMessage>, ms: seq<BackendMessage>)
    requires AllAsync(early)
    ensures DescribedBy(early + ms) == DescribedBy(ms)
  {
    if early == [] {
      assert early + ms == ms;
    } else {
      DescribedBehindAsync(early[1..], ms);
      assert (early + ms)[1..] == early[1..] + ms;
    }
  }

  lemma SameBehindAsync(early: seq<BackendMessage>, piece: seq<BackendMessage>, end: BackendMessage)
    requires AllAsync(early) && Ends(end)
    ensures StatementResult(early + piece, end) == StatementResult(piece, end)
  {
    DescribedBehindAsync(early, piece);
    Cursors.RowsBehindAsync(ColumnsOf(piece), early, piece);
  }

  /** A sequence with an end in it, cut open there. */
  lemma Opened(ms: seq<BackendMessage>)
    returns (piece: seq<BackendMessage>, end: BackendMessage, rest: seq<BackendMessage>)
    requires FirstEnd(ms) < |ms|
    ensures NoEnd(piece) && Ends(end) && ms == piece + ([end] + rest) && |rest| < |ms|
    ensures StatementResults(ms) == [StatementResult(piece, end)] + StatementResults(rest)
  {
    var k := FirstEnd(ms);
    piece, end, rest := ms[..k], ms[k], ms[k + 1..];
  }

  /** Asynchronous messages in front of a response change nothing. */
  lemma BehindAsyncSame(early: seq<BackendMessage>, ms: seq<BackendMessage>)
    requires AllAsync(early)
    ensures StatementResults(early + ms) == StatementResults(ms)
  {
    AsyncNeverEnds(early);
    if FirstEnd(ms) == |ms| {
      assert ms[..|ms|] == ms;
      NothingToCut(early + ms);
    } else {
      var piece, end, rest := Opened(ms);
      Assoc(early, piece, [end] + rest);
      CutAt(early + piece, end, rest);
      SameBehindAsync(early, piece, end);
    }
  }

  lemma NothingToCut(ms: seq<BackendMessage>)
    requires NoEnd(ms)
    ensures StatementResults(ms) == []
  {
  }

  lemma {:induction false} AsyncNeverEnds(ms: seq<BackendMessage>)
    requires AllAsync(ms)
    ensures NoEnd(ms)
  {
    if ms != [] {
      AsyncNeverEnds(ms[1..]);
      assert ms == [ms[0]] + ms[1..];
    }
  }

  // ----- reading inside a piece -----------------------------------------------------------------

  /** A reader with these columns and rows has read `piece` of the current statement. */
  predicate Read(piece: seq<BackendMessage>, described: Option<Columns>, rows: seq<Row>) {
    && NoEnd(piece) && described == DescribedBy(piece) && rows == Cursors.RowsOf(OrEmpty(described), piece)
    && (described.None? ==> rows == [] && !HasRows(piece))
  }

  lemma {:induction false} DescribedAppend(ms: seq<BackendMessage>, m: BackendMessage)
    ensures DescribedBy(ms + [m]) == if m.RowDescription? then Some(m.columns) else DescribedBy(ms)
  {
    if ms == [] {
      assert ms + [m] == [m] && [m][1..] == [];
    } else {
      DescribedAppend(ms[1..], m);
      assert (ms + [m])[1..] == ms[1..] + [m];
    }
  }

  lemma {:induction false} RowsAppend(columns: Columns, ms: seq<BackendMessage>, m: BackendMessage)
    ensures Cursors.RowsOf(columns, ms + [m])
         == Cursors.RowsOf(columns, ms) + (if m.DataRow? then [Row(columns, m.values)] else [])
  {
    if ms == [] {
      assert ms + [m] == [m] && [m][1..] == [];
    } else {
      RowsAppend(columns, ms[1..], m);
      assert (ms + [m])[1..] == ms[1..] + [m];
      Assoc(if ms[0].DataRow? then [Row(columns, ms[0].values)] else [], Cursors.RowsOf(columns, ms[1..]),
            if m.DataRow? then [Row(columns, m.values)] else []);
    }
  }

  lemma {:induction false} NoRows(columns: Columns, ms: seq<BackendMessage>)
    requires !HasRows(ms)
    ensures Cursors.RowsOf(columns, ms) == []
  {
    if ms != [] {
      assert !ms[0].DataRow?;
      assert forall i | 0 <= i < |ms| - 1 :: ms[1..][i] == ms[i + 1];
      NoRows(columns, ms[1..]);
    }
  }

  lemma ReadMore(piece: seq<BackendMessage>, described: Option<Columns>, rows: seq<Row>, m: BackendMessage)
    requires Read(piece, described, rows) && !Ends(m)
    requires m.DataRow? ==> described.Some?
    requires m.RowDescription? ==> described.None?
    ensures if m.DataRow? then Read(piece + [m], described, rows + [Row(OrEmpty(described), m.values)])
            else if m.RowDescription? then Read(piece + [m], Some(m.columns), [])
            else Read(piece + [m], described, rows)
  {
    DescribedAppend(piece, m);
    var columns := if m.RowDescription? then m.columns else OrEmpty(described);
    RowsAppend(columns, piece, m);
    if m.RowDescription? {
      NoRows(columns, piece);
    }
    assert rows + [] == rows;
  }

  // ----- batch_execute ------------------------------------------------------------------------

  /** The batch reader's position: `piece` is what it has read of the current statement. */
  predicate BatchAt(g: Expect, piece: seq<BackendMessage>, b: Reader) {
    && b.Batch? && Read(piece, b.described, b.rows)
    && g in {SimpleStart, SimpleRows, SimpleCopy, SimpleNext, Settled}
    && (b.described.Some? <==> g == SimpleRows)
  }

  /** One message that does not end the statement. */
  lemma BatchMore(g: Expect, piece: seq<BackendMessage>, b: Reader, m: BackendMessage)
    requires BatchAt(g, piece, b) && !Ends(m) && Follow(g, m).Some? && !m.ErrorResponse? && !m.ReadyForQuery?
    ensures if IsAsync(m) then BatchAt(g, piece + [m], b)
            else BatchAt(Follow(g, m).value, piece + [m], StepReader(b, m)) && StepReader(b, m).results == b.results
  {
    ReadMore(piece, b.described, b.rows, m);
  }

  /** The message that does. */
  lemma BatchEnds(g: Expect, piece: seq<BackendMessage>, b: Reader, m: BackendMessage)
    requires BatchAt(g, piece, b) && Ends(m) && Follow(g, m).Some?
    ensures BatchAt(Follow(g, m).value, [], StepReader(b, m))
    ensures StepReader(b, m).results == b.results + [StatementResult(piece, m)]
  {
  }

  predicate Returns(r: Result<Reader>, results: seq<QueryResult>) {
    r.Ok? && r.value.Batch? && r.value.results == results
  }

  lemma BatchStops(piece: seq<BackendMessage>, b: Reader, c: Conn)
    requires b.Batch? && NoEnd(piece) && Conforms(SimpleNext, c.unread) && c.unread[0].ReadyForQuery?
    ensures Returns(Collect(b, c).0, b.results + StatementResults(piece + c.unread))
  {
    var rest := c.unread[1..];
    ConformingOwesOneReady(Settled, rest);
    AsyncNeverEnds(rest);
    assert c.unread == [c.unread[0]] + rest;
    NothingToCut(c.unread);
    NoEndBehind(piece, c.unread);
    NothingToCut(piece);
    assert b.results + [] == b.results;
  }

  lemma {:induction false} BatchReads(g: Expect, piece: seq<BackendMessage>, b: Reader, c: Conn)
    requires BatchAt(g, piece, b) && !g.Settled? && Conforms(g, c.unread) && FirstError(c.unread).None?
    ensures Returns(Collect(b, c).0, b.results + StatementResults(piece + c.unread))
    decreases |c.unread|, 1
  {
    var m := c.unread[0];
    if m.ReadyForQuery? {
      BatchStops(piece, b, c);
    } else if Ends(m) {
      BatchReadsEnd(g, piece, b, c);
    } else {
      BatchReadsMore(g, piece, b, c);
    }
  }

  lemma {:induction false} BatchReadsEnd(g: Expect, piece: seq<BackendMessage>, b: Reader, c: Conn)
    requires BatchAt(g, piece, b) && Conforms(g, c.unread) && FirstError(c.unread).None?
    requires c.unread != [] && Ends(c.unread[0])
    ensures Returns(Collect(b, c).0, b.results + StatementResults(piece + c.unread))
    decreases |c.unread|, 0
  {
    var m := c.unread[0];
    BatchEnds(g, piece, b, m);
    BatchReads(Follow(g, m).value, [], StepReader(b, m), Take(c));
    EndShifts(piece, c.unread, b.results);
  }

  lemma EndShifts(piece: seq<BackendMessage>, ms: seq<BackendMessage>, results: seq<QueryResult>)
    requires NoEnd(piece) && ms != [] && Ends(ms[0])
    ensures (results + [StatementResult(piece, ms[0])]) + StatementResults([] + ms[1..])
         == results + StatementResults(piece + ms)
  {
    assert ms == [ms[0]] + ms[1..] && [] + ms[1..] == ms[1..];
    CutAt(piece, ms[0], ms[1..]);
    Assoc(results, [StatementResult(piece, ms[0])], StatementResults(ms[1..]));
  }

  lemma {:induction false} BatchReadsMore(g: Expect, piece: seq<BackendMessage>, b: Reader, c: Conn)
    requires BatchAt(g, piece, b) && Conforms(g, c.unread) && FirstError(c.unread).None?
    requires c.unread != [] && !Ends(c.unread[0]) && !c.unread[0].ReadyForQuery? && !g.Settled?
    ensures Returns(Collect(b, c).0, b.results + StatementResults(piece + c.unread))
    decreases |c.unread|, 0
  {
    var m, rest := c.unread[0], c.unread[1..];
    BatchMore(g, piece, b, m);
    if IsAsync(m) {
      BatchReads(g, piece + [m], b, Absorb(Take(c), m));
    } else {
      BatchReads(Follow(g, m).value, piece + [m], StepReader(b, m), Take(c));
    }
    Moved(piece, c.unread);
  }

  lemma Moved(piece: seq<BackendMessage>, ms: seq<BackendMessage>)
    requires ms != []
    ensures (piece + [ms[0]]) + ms[1..] == piece + ms
  {
    assert ms == [ms[0]] + ms[1..];
  }

  /** `batch_execute` returns exactly one result per statement of an error-free response: its rows in order
      under its own columns, and its tag. */
  lemma BatchReturnsStatements(c: Conn, response: seq<BackendMessage>)
    requires Synchronised(Session(c, None, [])) && c.state == Idle
    requires Conforms(SimpleStart, response) && FirstError(response).None?
    ensures var r := Command(c, ActiveSimpleQuery, Batch([], None, []), response).0;
            r.Ok? && r.value.Batch? && r.value.results == StatementResults(response)
  {
    ConformsBehindAsync(SimpleStart, c.unread, response);
    BehindAsync(c.unread, response);
    BehindAsyncSame(c.unread, response);
    var sent := Send(c.(state := ActiveSimpleQuery), response);
    assert [] + sent.unread == sent.unread;
    BatchReads(SimpleStart, [], Batch([], None, []), sent);
    assert [] + StatementResults(response) == StatementResults(response);
  }

  /** `query` returns the first of them. */
  lemma QueryReturnsFirstStatement(c: Conn, response: seq<BackendMessage>)
    requires Synchronised(Session(c, None, [])) && c.state == Idle
    requires Conforms(SimpleStart, response) && FirstError(response).None?
    ensures StatementResults(response) != [] && Query(c, response).0 == Ok(StatementResults(response)[0])
  {
    QueryAgreesWithBatch(c, response);
    BatchReturnsStatements(c, response);
  }

  // ----- the extended protocol ----------------------------------------------------------------

  /** The extended reader's position inside the answer to one operation. */
  predicate ExtendedAt(g: Expect, piece: seq<BackendMessage>, e: Reader) {
    && e.Extended? && e.tag.None? && Read(piece, e.described, e.rows)
    && InSegment(g) && g != ExtendedDone(0)
    && (e.described.Some? <==> g == ExtendedRows(0))
  }

  lemma ExtendedMore(g: Expect, piece: seq<BackendMessage>, e: Reader, m: BackendMessage)
    requires ExtendedAt(g, piece, e) && !Ends(m) && Follow(g, m).Some? && !m.ErrorResponse? && !m.ReadyForQuery?
    ensures if IsAsync(m) then ExtendedAt(g, piece + [m], e)
            else ExtendedAt(Follow(g, m).value, piece + [m], StepReader(e, m))
  {
    ReadMore(piece, e.described, e.rows, m);
  }

  lemma {:induction false} DoneNeverEnds(seg: seq<BackendMessage>)
    requires Answers(ExtendedDone(0), seg)
    ensures NoEnd(seg)
    decreases |seg|
  {
    if seg != [] {
      DoneNeverEnds(seg[1..]);
      assert seg == [seg[0]] + seg[1..];
    }
  }

  lemma ExtendedEnds(g: Expect, piece: seq<BackendMessage>, e: Reader, m: BackendMessage)
    requires ExtendedAt(g, piece, e) && Ends(m) && Follow(g, m).Some?
    ensures Follow(g, m).value == ExtendedDone(0)
    ensures StepReader(e, m).Extended? && Extract(StepReader(e, m)) == StatementResult(piece, m)
  {
  }

  lemma ExtendedStops(g: Expect, piece: seq<BackendMessage>, e: Reader, seg: seq<BackendMessage>)
    requires ExtendedAt(g, piece, e) && Answers(g, seg) && seg != [] && Ends(seg[0])
    ensures Feed(e, seg).Extended? && StatementResults(piece + seg) == [Extract(Feed(e, seg))]
  {
    var m, rest := seg[0], seg[1..];
    ExtendedEnds(g, piece, e, m);
    NothingAfterDone(StepReader(e, m), rest);
    DoneNeverEnds(rest);
    NothingToCut(rest);
    assert seg == [m] + rest;
    CutAt(piece, m, rest);
  }

  lemma {:induction false} ExtendedReads(g: Expect, piece: seq<BackendMessage>, e: Reader, seg: seq<BackendMessage>)
    requires ExtendedAt(g, piece, e) && Answers(g, seg)
    ensures Feed(e, seg).Extended? && StatementResults(piece + seg) == [Extract(Feed(e, seg))]
    decreases |seg|
  {
    var m := seg[0];
    if Ends(m) {
      ExtendedStops(g, piece, e, seg);
    } else {
      ExtendedMore(g, piece, e, m);
      ExtendedReads(Follow(g, m).value, piece + [m], if IsAsync(m) then e else StepReader(e, m), seg[1..]);
      Moved(piece, seg);
    }
  }

  /** The sequential reference of a pipelined operation is what its segment says. */
  lemma SegmentSaysResult(seg: seq<BackendMessage>)
    requires Answers(ParseDue(0), seg)
    ensures Alone(seg).Extended? && StatementResults(seg) == [Extract(Alone(seg))]
  {
    ExtendedReads(ParseDue(0), [], Extended(None, [], None), seg);
    assert [] + seg == seg;
  }

  /** `query_params` returns exactly the rows, columns and tag of an error-free response. */
  lemma QueryParamsReturnsStatement(c: Conn, response: seq<BackendMessage>)
    requires Synchronised(Session(c, None, [])) && c.state == Idle
    requires Conforms(ParseDue(0), response) && FirstError(response).None?
    ensures var r := QueryExtended(c, response).0;
            r.Ok? && r.value.Extended? && StatementResults(response) == [Extract(r.value)]
  {
    ConformsBehindAsync(ParseDue(0), c.unread, response);
    BehindAsync(c.unread, response);
    BehindAsyncSame(c.unread, response);
    var sent := Send(c.(state := ActiveExtendedQuery), response);
    var segs, tail := SplitResponse(1, sent.unread);
    var seg := segs[0];
    assert segs[1..] == [] && seg + [] == seg;
    assert sent.unread[..|seg|] == seg && sent.unread[|seg|..] == tail;
    AnswersQuiet(ParseDue(0), seg);
    CollectOverQuiet(Extended(None, [], None), sent, |seg|);
    TailReads(Alone(seg), Skim(sent, |seg|));
    SegmentSaysResult(seg);
    TailSaysNothing(seg, tail);
  }

  /** What follows the last statement adds no result. */
  lemma TailSaysNothing(seg: seq<BackendMessage>, tail: seq<BackendMessage>)
    requires Conforms(ExtendedDone(0), tail) && FirstError(tail).None?
    ensures StatementResults(seg + tail) == StatementResults(seg)
  {
    TailNeverEnds(ExtendedDone(0), tail);
    NoEndBehind(seg, tail);
  }

  lemma {:induction false} NoEndBehind(ms: seq<BackendMessage>, tail: seq<BackendMessage>)
    requires NoEnd(tail)
    ensures StatementResults(ms + tail) == StatementResults(ms)
    decreases |ms|
  {
    if FirstEnd(ms) == |ms| {
      assert ms[..|ms|] == ms;
      NothingToCut(ms + tail);
    } else {
      var piece, end, rest := Opened(ms);
      Assoc(piece, [end] + rest, tail);
      Assoc([end], rest, tail);
      CutAt(piece, end, rest + tail);
      NoEndBehind(rest, tail);
    }
  }

  lemma {:induction false} TailNeverEnds(g: Expect, ms: seq<BackendMessage>)
    requires g in {ExtendedDone(0), Settled} && Conforms(g, ms) && FirstError(ms).None?
    ensures NoEnd(ms)
    decreases |ms|
  {
    if ms != [] {
      assert ms == [ms[0]] + ms[1..];
      if ms[0].ReadyForQuery? {
        ConformingOwesOneReady(Settled, ms[1..]);
        AsyncNeverEnds(ms[1..]);
      } else {
        TailNeverEnds(g, ms[1..]);
      }
    }
  }

  // ----- streams over the extended protocol -----------------------------------------------------

  /** A row stream's position inside the answer to one operation, `rows` having been handed out. */
  predicate StreamAt(g: Expect, piece: seq<BackendMessage>, s: Stream, rows: seq<Row>) {
    && Read(piece, DescribedBy(piece), rows)
    && match s.phase
       case WaitingForDescription =>
         DescribedBy(piece).None? && g in {BindDue(0), DescribeDue(0), ExtendedNoRows(0), ExtendedCopy(0)}
       case ReceivingRows =>
         && s.columns == DescribedBy(piece)
         && if s.columns.Some? then g == ExtendedRows(0) else g in {ExtendedNoRows(0), ExtendedCopy(0)}
       case _ => false
  }

  /** The rows drained and the tag reached are those of the one statement answered. */
  predicate Drained(out: (Result<(Stream, seq<Row>)>, Stream, Conn), results: seq<QueryResult>) {
    && out.0.Ok? && out.1.phase.Done?
    && |results| == 1 && results[0].rows == out.0.value.1 && results[0].tag == out.1.phase.tag
  }

  lemma StreamMore(g: Expect, piece: seq<BackendMessage>, s: Stream, rows: seq<Row>, m: BackendMessage)
    requires StreamAt(g, piece, s, rows) && !Ends(m) && Follow(g, m).Some? && !m.ErrorResponse? && !m.ReadyForQuery?
    ensures if IsAsync(m) then StreamAt(g, piece + [m], s, rows)
            else if s.phase.ReceivingRows? && m.DataRow?
            then StreamAt(Follow(g, m).value, piece + [m], s, rows + [Row(OrEmpty(s.columns), m.values)])
            else StreamAt(Follow(g, m).value, piece + [m], StepStream(s, m), rows)
  {
    ReadMore(piece, DescribedBy(piece), rows, m);
  }

  lemma {:induction false} DrainFinishes(s: Stream, c: Conn, rows: seq<Row>)
    requires s.phase.Finishing? && Conforms(ExtendedDone(0), c.unread) && FirstError(c.unread).None?
    ensures var (d, s', _) := Drain(s, c, rows);
            s' == s.(phase := Done(s.phase.tag)) && d == Ok((s', rows))
    decreases |c.unread|
  {
    var m := c.unread[0];
    DrainUnfolds(s, c, rows);
    if IsAsync(m) {
      DrainFinishes(s, Absorb(Take(c), m), rows);
    }
  }

  lemma DrainStops(g: Expect, piece: seq<BackendMessage>, s: Stream, rows: seq<Row>, c: Conn)
    requires StreamAt(g, piece, s, rows) && Conforms(g, c.unread) && FirstError(c.unread).None?
    requires c.unread != [] && Ends(c.unread[0]) && (s.phase.ReceivingRows? ==> !c.unread[0].EmptyQueryResponse?)
    ensures Drained(Drain(s, c, rows), StatementResults(piece + c.unread))
  {
    var m, rest := c.unread[0], c.unread[1..];
    DrainUnfolds(s, c, rows);
    DrainFinishes(StepStream(s, m), Take(c), rows);
    TailNeverEnds(ExtendedDone(0), rest);
    NothingToCut(rest);
    assert c.unread == [m] + rest;
    CutAt(piece, m, rest);
  }

  lemma {:induction false} DrainReads(g: Expect, piece: seq<BackendMessage>, s: Stream, rows: seq<Row>, c: Conn)
    requires StreamAt(g, piece, s, rows) && Conforms(g, c.unread) && FirstError(c.unread).None?
    requires s.phase.ReceivingRows? ==> EmptyQueryResponse !in c.unread
    ensures Drained(Drain(s, c, rows), StatementResults(piece + c.unread))
    decreases |c.unread|, 1
  {
    var m := c.unread[0];
    if Ends(m) {
      DrainStops(g, piece, s, rows, c);
    } else {
      DrainReadsMore(g, piece, s, rows, c);
    }
  }

  lemma {:induction false} DrainReadsMore(g: Expect, piece: seq<BackendMessage>, s: Stream, rows: seq<Row>, c: Conn)
    requires StreamAt(g, piece, s, rows) && Conforms(g, c.unread) && FirstError(c.unread).None?
    requires s.phase.ReceivingRows? ==> EmptyQueryResponse !in c.unread
    requires c.unread != [] && !Ends(c.unread[0])
    ensures Drained(Drain(s, c, rows), StatementResults(piece + c.unread))
    decreases |c.unread|, 0
  {
    var m, rest := c.unread[0], c.unread[1..];
    DrainUnfolds(s, c, rows);
    StreamMore(g, piece, s, rows, m);
    Moved(piece, c.unread);
    if IsAsync(m) {
      DrainReads(g, piece + [m], s, rows, Absorb(Take(c), m));
    } else if s.phase.ReceivingRows? && m.DataRow? {
      DrainReads(Follow(g, m).value, piece + [m], s, rows + [Row(OrEmpty(s.columns), m.values)], Take(c));
    } else {
      if m.RowDescription? {
        NoEmptyOnceDone(ExtendedRows(0), rest);
      }
      DrainReads(Follow(g, m).value, piece + [m], StepStream(s, m), rows, Take(c));
    }
  }

  /** What a stream opened on a synchronised connection finds to read. */
  lemma StreamOpens(g: Expect, c: Conn, response: seq<BackendMessage>)
    requires Synchronised(Session(c, None, [])) && Conforms(g, response) && FirstError(response).None?
    ensures var (started, c1) := OpenStream(c, response);
            && started.Ok? && Conforms(g, c1.unread) && FirstError(c1.unread).None?
            && StatementResults(c1.unread) == StatementResults(response)
            && (EmptyQueryResponse in c1.unread <==> EmptyQueryResponse in response)
  {
    RecoverSettles(c);
    var early := Recover(c).1.unread;
    ConformsBehindAsync(g, early, response);
    BehindAsync(early, response);
    BehindAsyncSame(early, response);
    AsyncNeverEnds(early);
  }

  /** A drained `query_prepared_stream` yields exactly the rows of an error-free response and ends in its tag. */
  lemma PreparedStreamYieldsStatement(c: Conn, columns: Columns, response: seq<BackendMessage>)
    requires Synchronised(Session(c, None, []))
    requires Conforms(BindDue(0), response) && FirstError(response).None?
    ensures var (started, c1) := OpenStream(c, response);
            && started.Ok?
            && Drained(Drain(Stream(WaitingForDescription, Some(columns)), c1, []), StatementResults(response))
  {
    StreamOpens(BindDue(0), c, response);
    var c1 := OpenStream(c, response).1;
    assert [] + c1.unread == c1.unread;
    DrainReads(BindDue(0), [], Stream(WaitingForDescription, Some(columns)), [], c1);
  }

  /** The preamble of `query_params_stream` stops in a position that the drained stream takes up. */
  lemma {:induction false} PreambleReads(g: Expect, piece: seq<BackendMessage>, c: Conn)
    returns (g': Expect, piece': seq<BackendMessage>)
    requires g in {ParseDue(0), BindDue(0), DescribeDue(0)}
    requires NoEnd(piece) && DescribedBy(piece).None? && !HasRows(piece)
    requires Conforms(g, c.unread) && FirstError(c.unread).None? && EmptyQueryResponse !in c.unread
    ensures var (started, c') := Preamble(c);
            && started.Ok? && StreamAt(g', piece', started.value, []) && piece' + c'.unread == piece + c.unread
            && Conforms(g', c'.unread) && FirstError(c'.unread).None? && EmptyQueryResponse !in c'.unread
    decreases |c.unread|
  {
    var m := c.unread[0];
    NoRows([], piece);
    ReadMore(piece, None, [], m);
    Moved(piece, c.unread);
    assert c.unread == [m] + c.unread[1..];
    if IsAsync(m) {
      g', piece' := PreambleReads(g, piece + [m], Absorb(Take(c), m));
    } else if m.RowDescription? || m.NoData? {
      g', piece' := Follow(g, m).value, piece + [m];
    } else {
      g', piece' := PreambleReads(Follow(g, m).value, piece + [m], Take(c));
    }
  }

  lemma PreambleDrains(c: Conn)
    requires Conforms(ParseDue(0), c.unread) && FirstError(c.unread).None? && EmptyQueryResponse !in c.unread
    ensures Preamble(c).0.Ok?
    ensures Drained(Drain(Preamble(c).0.value, Preamble(c).1, []), StatementResults(c.unread))
  {
    var g, piece := PreambleReads(ParseDue(0), [], c);
    assert [] + c.unread == c.unread;
    DrainReads(g, piece, Preamble(c).0.value, [], Preamble(c).1);
  }

  lemma EmptyNeverDrains(c: Conn)
    requires Conforms(ParseDue(0), c.unread) && FirstError(c.unread).None? && EmptyQueryResponse in c.unread
    requires c.state == Streaming
    ensures Preamble(c).0.Ok? ==> Drain(Preamble(c).0.value, Preamble(c).1, []).0.Err?
  {
    PreambleHandsOver(ParseDue(0), c);
    var (started, c') := Preamble(c);
    if started.Ok? {
      if Conforms(ExtendedRows(0), c'.unread) {
        NoEmptyOnceDone(ExtendedRows(0), c'.unread);
      }
      RowsEndIff(ExtendedNoRows(0), c'.unread);
      ConformingNoRows(c'.unread);
      BlindNextStrands(started.value, c');
    }
  }

  /** So does a drained `query_params_stream`, exactly when the server does not answer EmptyQueryResponse, that
      is for non-empty SQL. */
  lemma ParamsStreamYieldsStatementIff(c: Conn, response: seq<BackendMessage>)
    requires Synchronised(Session(c, None, []))
    requires Conforms(ParseDue(0), response) && FirstError(response).None?
    ensures var (started, c1) := OpenParamsStream(c, response);
            started.Ok? && Drained(Drain(started.value, c1, []), StatementResults(response))
            <==> EmptyQueryResponse !in response
  {
    StreamOpens(ParseDue(0), c, response);
    var c1 := OpenStream(c, response).1;
    if EmptyQueryResponse !in response {
      PreambleDrains(c1);
    } else {
      EmptyNeverDrains(c1);
    }
  }
}
