/** Different readers of the same response agree, and one of them has a blind spot. */
module Agreement {
  import opened Basics
  import opened Messages
  import opened Grammar
  import opened Engine
  import opened SyncDebt

  // ----- draining a stream, one message at a time ---------------------------------

  /** The state a reader runs in does not show in what resynchronisation leaves behind. */
  lemma {:induction false} ReadUntilReadyForgetsState(c: Conn, a: ConnectionState, b: ConnectionState)
    requires OneReady(c.unread)
    ensures ReadUntilReady(c.(state := a)) == ReadUntilReady(c.(state := b))
    decreases |c.unread|
  {
    var m := c.unread[0];
    if IsAsync(m) {
      ReadUntilReadyForgetsState(Absorb(Take(c), m), a, b);
    } else if !m.ReadyForQuery? {
      ReadUntilReadyForgetsState(Take(c), a, b);
    }
  }

  /** How the row stream and the batch reader stand to each other inside a response. */
  predicate Alike(g: Expect, s: Stream, rows: seq<Row>, b: Reader) {
    && b.Batch?
    && (match s.phase
        case WaitingForDescription =>
          g in {SimpleStart, SimpleCopy} && s.columns.None? && rows == [] && b == Batch([], None, [])
        case ReceivingRows =>
          g == SimpleRows && s.columns.Some? && b == Batch([], s.columns, rows)
        case Finishing(tag) =>
          && g in {SimpleRows, SimpleCopy, SimpleNext}
          && b.results != [] && b.results[0] == QueryResult(rows, tag, OrEmpty(s.columns))
        case _ => false)
  }

  predicate EndAlike(d: Result<(Stream, seq<Row>)>, s: Stream, c1: Conn, r: Result<Reader>, c2: Conn) {
    && c1 == c2 && IsDone(s)
    && (match r
        case Ok(b) =>
          && b.Batch? && b.results != [] && d.Ok? && s.phase.Done?
          && b.results[0] == QueryResult(d.value.1, s.phase.tag, OrEmpty(s.columns))
        case Err(failure) => d == Err(failure) && failure.Server?)
  }

  predicate EndsAlike(drained: (Result<(Stream, seq<Row>)>, Stream, Conn), collected: (Result<Reader>, Conn)) {
    EndAlike(drained.0, drained.1, drained.2, collected.0, collected.1)
  }

  lemma StepAlike(g: Expect, s: Stream, rows: seq<Row>, b: Reader, m: BackendMessage)
    requires Alike(g, s, rows, b) && Follow(g, m).Some?
    requires !IsAsync(m) && !m.ErrorResponse? && !m.ReadyForQuery?
    ensures if s.phase.ReceivingRows? && m.DataRow?
            then Alike(Follow(g, m).value, s, rows + [Row(OrEmpty(s.columns), m.values)], StepReader(b, m))
            else Alike(Follow(g, m).value, StepStream(s, m), rows, StepReader(b, m))
  {
  }

  /** Draining is insensitive to where the rows are handed over: it is a fold over messages. */
  lemma DrainUnfolds(s: Stream, c: Conn, rows: seq<Row>)
    requires !IsDone(s) && c.unread != []
    ensures var m := c.unread[0];
            && (IsAsync(m) ==> Drain(s, c, rows) == Drain(s, Absorb(Take(c), m), rows))
            && (!IsAsync(m) && !m.ErrorResponse? && !m.ReadyForQuery? ==>
                  Drain(s, c, rows) == if s.phase.ReceivingRows? && m.DataRow?
                                       then Drain(s, Take(c), rows + [Row(OrEmpty(s.columns), m.values)])
                                       else Drain(StepStream(s, m), Take(c), rows))
  {
  }

  lemma ErrorsAlike(g: Expect, s: Stream, rows: seq<Row>, b: Reader, c: Conn)
    requires Alike(g, s, rows, b) && Conforms(g, c.unread) && c.unread != [] && c.unread[0].ErrorResponse?
    ensures EndsAlike(Drain(s, c.(state := Streaming), rows), Collect(b, c.(state := ActiveSimpleQuery)))
  {
    ConformingOwesOneReady(AfterError, c.unread[1..]);
    ReadUntilReadySettles(Take(c.(state := Streaming)));
    ReadUntilReadyForgetsState(Take(c), Streaming, ActiveSimpleQuery);
  }

  /** Both readers, run from `Alike` positions, end alike. */
  lemma {:induction false} ReadersStayAlike(g: Expect, s: Stream, rows: seq<Row>, b: Reader, c: Conn)
    requires Alike(g, s, rows, b) && Conforms(g, c.unread)
    ensures EndsAlike(Drain(s, c.(state := Streaming), rows), Collect(b, c.(state := ActiveSimpleQuery)))
    decreases |c.unread|
  {
    var m := c.unread[0];
    var next := Follow(g, m).value;
    DrainUnfolds(s, c.(state := Streaming), rows);
    if IsAsync(m) {
      ReadersStayAlike(g, s, rows, b, Absorb(Take(c), m));
    } else if m.ErrorResponse? {
      ErrorsAlike(g, s, rows, b, c);
    } else if !m.ReadyForQuery? {
      StepAlike(g, s, rows, b, m);
      if s.phase.ReceivingRows? && m.DataRow? {
        ReadersStayAlike(next, s, rows + [Row(OrEmpty(s.columns), m.values)], StepReader(b, m), Take(c));
      } else {
        ReadersStayAlike(next, StepStream(s, m), rows, StepReader(b, m), Take(c));
      }
    }
  }

  /** `query` and `batch_execute` agree: on every conforming simple-query response, `query` returns Ok(r)
      exactly when `batch_execute` returns Ok with first element r, both report the server's first error
      otherwise, and both leave the same connection. */
  lemma QueryAgreesWithBatch(c: Conn, response: seq<BackendMessage>)
    requires Synchronised(Session(c, None, [])) && c.state == Idle
    requires Conforms(SimpleStart, response)
    ensures var (q, c1) := Query(c, response);
            var (b, c2) := Command(c, ActiveSimpleQuery, Batch([], None, []), response);
            && c1 == c2 && c1.state == Idle
            && (match b
                case Ok(reader) => reader.Batch? && reader.results != [] && q == Ok(reader.results[0])
                case Err(failure) =>
                  q == Err(failure) && FirstError(response).Some? && failure == Server(FirstError(response).value))
  {
    ConformsBehindAsync(SimpleStart, c.unread, response);
    var sent := Send(c, response);
    ReadersStayAlike(SimpleStart, Stream(WaitingForDescription, None), [], Batch([], None, []), sent);
    ConformingOwesOneReady(SimpleStart, sent.unread);
    CollectSettles(Batch([], None, []), sent.(state := ActiveSimpleQuery));
    BehindAsync(c.unread, response);
  }

  // ----- the blind spot of query_params_stream --------------------------------------

  /** `query_params_stream` followed by draining the stream comes to rest. */
  predicate ParamsStreamSettles(c: Conn, response: seq<BackendMessage>) { Rests(OpenParamsStream(c, response)) }

  /** No error but the server's, everything drained, and Idle. */
  predicate Rests(out: (Result<Stream>, Conn)) {
    match out.0
    case Err(failure) => failure.Server? && out.1.state == Idle
    case Ok(s) => var (_, s', c) := Drain(s, out.1, []); IsDone(s') && c.state == Idle
  }

  lemma {:induction false} NoEmptyOnceDone(g: Expect, ms: seq<BackendMessage>)
    requires Conforms(g, ms) && g in {ExtendedRows(0), ExtendedCopy(0), ExtendedDone(0), AfterError, Settled}
    ensures EmptyQueryResponse !in ms
    decreases |ms|
  {
    if ms != [] {
      assert ms == [ms[0]] + ms[1..];
      NoEmptyOnceDone(Follow(g, ms[0]).value, ms[1..]);
    }
  }

  /** Behind NoData, rows end properly exactly when no EmptyQueryResponse comes, or an error behind it. */
  lemma {:induction false} RowsEndIff(g: Expect, ms: seq<BackendMessage>)
    requires Conforms(g, ms) && g in {ExtendedNoRows(0), ExtendedDone(0)}
    ensures RowsEnd(ms) <==> (g == ExtendedNoRows(0) && EmptyQueryResponse !in ms) || FirstError(ms).Some?
    decreases |ms|
  {
    var m, rest := ms[0], ms[1..];
    var next := Follow(g, m).value;
    assert ms == [m] + rest;
    if m.ErrorResponse? {
      ConformingOwesOneReady(next, rest);
    } else if m.CommandComplete? {
      ConformingOwesOneReady(next, rest);
      NoEmptyOnceDone(next, rest);
    } else if m.CopyOutResponse? {
      ConformingRowsEnd(next, rest);
      NoEmptyOnceDone(next, rest);
    } else if !m.ReadyForQuery? {
      RowsEndIff(next, rest);
    }
  }

  lemma HandedOverSettlesIff(s: Stream, c: Conn)
    requires s.phase == ReceivingRows && c.state == Streaming
    requires Conforms(ExtendedRows(0), c.unread) || Conforms(ExtendedNoRows(0), c.unread)
    ensures Rests((Ok(s), c)) <==> EmptyQueryResponse !in c.unread || FirstError(c.unread).Some?
  {
    if Conforms(ExtendedRows(0), c.unread) {
      NoEmptyOnceDone(ExtendedRows(0), c.unread);
      ConformingRowsEnd(ExtendedRows(0), c.unread);
    } else {
      RowsEndIff(ExtendedNoRows(0), c.unread);
      ConformingNoRows(c.unread);
    }
    if RowsEnd(c.unread) {
      DrainFits(s, c, []);
    } else {
      BlindNextStrands(s, c);
    }
  }

  lemma PreambleSettlesIff(c: Conn)
    requires Conforms(ParseDue(0), c.unread) && c.state == Streaming
    ensures Rests(Preamble(c)) <==> EmptyQueryResponse !in c.unread || FirstError(c.unread).Some?
  {
    PreambleHandsOver(ParseDue(0), c);
    var (started, c') := Preamble(c);
    if started.Ok? {
      HandedOverSettlesIff(started.value, c');
    }
  }

  /** The stream over a parameterised query comes to rest exactly when the server did not answer with
      EmptyQueryResponse, that is for non-empty SQL, or reported an error. */
  lemma ParamsStreamSettlesIff(c: Conn, response: seq<BackendMessage>)
    requires Synchronised(Session(c, None, [])) && c.state == Idle
    requires Conforms(ParseDue(0), response)
    ensures ParamsStreamSettles(c, response) <==> EmptyQueryResponse !in response || FirstError(response).Some?
  {
    ConformsBehindAsync(ParseDue(0), c.unread, response);
    BehindAsync(c.unread, response);
    var c1 := Send(c.(state := Streaming), response);
    assert EmptyQueryResponse in c1.unread <==> EmptyQueryResponse in response;
    PreambleSettlesIff(c1);
  }

  /** A concrete witness: an empty parameterised query is answered correctly and leaves the connection
      in Streaming with nothing owed. */
  lemma EmptyParamsStreamHangs(c: Conn)
    requires Synchronised(Session(c, None, [])) && c.state == Idle && c.unread == []
    ensures var response := [ParseComplete, BindComplete, NoData, EmptyQueryResponse, ReadyForQuery('I')];
            Conforms(ParseDue(0), response) && !ParamsStreamSettles(c, response)
  {
    var response := [ParseComplete, BindComplete, NoData, EmptyQueryResponse, ReadyForQuery('I')];
    assert response[1..] == [BindComplete, NoData, EmptyQueryResponse, ReadyForQuery('I')];
    assert response[1..][1..] == [NoData, EmptyQueryResponse, ReadyForQuery('I')];
    assert response[1..][1..][1..] == [EmptyQueryResponse, ReadyForQuery('I')];
    assert response[1..][1..][1..][1..] == [ReadyForQuery('I')];
    assert response[1..][1..][1..][1..][1..] == [];
    assert response[3] == EmptyQueryResponse;
    ParamsStreamSettlesIff(c, response);
  }
}
