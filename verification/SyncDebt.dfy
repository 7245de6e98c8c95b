/** Whole-run safety of the protocol engine. A session is a connection, at most one
    row stream borrowing it, and the notifications handed to the caller so far. In every
    run against conforming servers exactly one ReadyForQuery is owed when the connection
    is not Idle and none when it is, with one exception that is told apart exactly. */
module SyncDebt {
  import opened Basics
  import opened Messages
  import opened Grammar
  import opened Engine

  // ----- what each reader leaves behind ----------------------------------------

  lemma {:induction false} ReadUntilReadySettles(c: Conn)
    requires OneReady(c.unread)
    ensures var (ready, c') := ReadUntilReady(c);
            && ready && c'.state == Idle && c'.needsRecovery == c.needsRecovery
            && c'.unread == AfterReady(c.unread) && AllAsync(c'.unread)
    decreases |c.unread|
  {
    var m := c.unread[0];
    if IsAsync(m) {
      ReadUntilReadySettles(Absorb(Take(c), m));
    } else if !m.ReadyForQuery? {
      ReadUntilReadySettles(Take(c));
    }
  }

  /** What a collecting reader of `ms` comes to: it stops exactly at the ReadyForQuery it is owed, and fails
      exactly when the server reported an error, with the first error reported. */
  predicate Settles(ms: seq<BackendMessage>, recovering: bool, out: (Result<Reader>, Conn)) {
    var (result, c) := out;
    && c.state == Idle && c.needsRecovery == recovering
    && c.unread == AfterReady(ms) && AllAsync(c.unread)
    && match FirstError(ms)
       case Some(error) => result == Err(Server(error))
       case None => result.Ok?
  }

  lemma {:induction false} CollectSettles(r: Reader, c: Conn)
    requires OneReady(c.unread)
    ensures Settles(c.unread, c.needsRecovery, Collect(r, c))
    decreases |c.unread|
  {
    var m := c.unread[0];
    if IsAsync(m) {
      CollectSettles(r, Absorb(Take(c), m));
    } else if m.ErrorResponse? {
      ReadUntilReadySettles(Take(c));
    } else if !m.ReadyForQuery? {
      CollectSettles(StepReader(r, m), Take(c));
    }
  }

  /** What a row stream in a given phase needs of the unread messages. */
  predicate Fits(s: Stream, c: Conn) {
    match s.phase
    case WaitingForDescription => c.state == Streaming && Described(c.unread)
    case ReceivingRows => c.state == Streaming && (RowsEnd(c.unread) || EmptyEnd(c.unread))
    case Finishing(_) => c.state == Streaming && OneReady(c.unread)
    case Done(_) => c.state == Idle && AllAsync(c.unread)
    case Error => c.state == Idle && AllAsync(c.unread)
  }

  /** In the row phase `next` ignores EmptyQueryResponse and ReadyForQuery. Only a parameterised stream over
      empty SQL gets there, and only if the server reports no error behind. */
  predicate Blind(s: Stream, c: Conn) { s.phase.ReceivingRows? && !RowsEnd(c.unread) }

  lemma {:induction false} BlindNextStrands(s: Stream, c: Conn)
    requires s.phase.ReceivingRows? && !RowsEnd(c.unread)
    requires EmptyEnd(c.unread) || Skippable(c.unread) || AllAsync(c.unread)
    ensures var (item, s', c') := StreamNext(s, c);
            && item == Fault(UnexpectedEof) && s' == s && c'.unread == []
            && c'.state == c.state && c'.needsRecovery == c.needsRecovery
    decreases |c.unread|
  {
    if c.unread != [] {
      var m := c.unread[0];
      NeedsOneReady(c.unread[1..]);
      if IsAsync(m) {
        BlindNextStrands(s, Absorb(Take(c), m));
      } else {
        BlindNextStrands(s, Take(c));
      }
    }
  }

  lemma {:induction false} StreamNextFits(s: Stream, c: Conn)
    requires Fits(s, c) && !Blind(s, c)
    ensures var (item, s', c') := StreamNext(s, c);
            && Fits(s', c') && !Blind(s', c') && c'.needsRecovery == c.needsRecovery
            && (item.End? ==> IsDone(s'))
            && (item.Fault? ==> item.failure.Server? && s'.phase == Error)
    decreases |c.unread|
  {
    if !IsDone(s) {
      NeedsOneReady(c.unread);
      var m := c.unread[0];
      if IsAsync(m) {
        StreamNextFits(s, Absorb(Take(c), m));
      } else if m.ErrorResponse? {
        ReadUntilReadySettles(Take(c));
      } else if !(s.phase.ReceivingRows? && m.DataRow?) && !(s.phase.Finishing? && m.ReadyForQuery?) {
        StreamNextFits(StepStream(s, m), Take(c));
      }
    }
  }

  lemma {:induction false} DrainFits(s: Stream, c: Conn, rows: seq<Row>)
    requires Fits(s, c) && !Blind(s, c)
    ensures var (result, s', c') := Drain(s, c, rows);
            && Fits(s', c') && IsDone(s') && c'.needsRecovery == c.needsRecovery
            && (result.Err? ==> result.failure.Server?)
    decreases |c.unread|
  {
    var (item, s', c') := StreamNext(s, c);
    StreamNextFits(s, c);
    if item.Yield? {
      DrainFits(s', c', rows + [item.row]);
    }
  }

  lemma {:induction false} WaitCycleSettles(c: Conn)
    requires OneReady(c.unread)
    ensures var (result, c') := WaitCycle(c);
            && result.Ok? && c'.state == Idle && c'.needsRecovery == c.needsRecovery && AllAsync(c'.unread)
    decreases |c.unread|
  {
    var m := c.unread[0];
    if m.NotificationResponse? {
      ReadUntilReadySettles(Take(c));
    } else if m.ParameterStatus? {
      WaitCycleSettles(Absorb(Take(c), m));
    } else if !m.ReadyForQuery? {
      WaitCycleSettles(Take(c));
    }
  }

  lemma {:induction false} ReadNextNotificationSettles(c: Conn, deadline: bool)
    requires AllAsync(c.unread) && c.state == Idle
    ensures var (result, c') := ReadNextNotification(c, deadline);
            && c'.state == Idle && c'.needsRecovery == c.needsRecovery && AllAsync(c'.unread)
            && (result.Err? ==> result.failure == UnexpectedEof && c'.unread == [])
    decreases |c.unread|
  {
    if c.unread != [] {
      var m := c.unread[0];
      if m.ParameterStatus? {
        ReadNextNotificationSettles(Absorb(Take(c), m), deadline);
      } else if m.NoticeResponse? {
        ReadNextNotificationSettles(Take(c), deadline);
      }
    }
  }

  /** A stream in the middle of the response that `ms` begins, or the server's error, reported and settled. */
  predicate HandedOver(ms: seq<BackendMessage>, recovering: bool, out: (Result<Stream>, Conn)) {
    var (result, c) := out;
    && c.needsRecovery == recovering
    && match result
       case Ok(s) =>
         && s.phase == ReceivingRows && c.state == Streaming
         && (EmptyQueryResponse in c.unread <==> EmptyQueryResponse in ms)
         && FirstError(c.unread) == FirstError(ms)
         && (Conforms(ExtendedRows(0), c.unread) || Conforms(ExtendedNoRows(0), c.unread))
       case Err(failure) =>
         && FirstError(ms).Some? && failure == Server(FirstError(ms).value)
         && c.state == Idle && AllAsync(c.unread)
  }

  lemma HandedOverBehind(m: BackendMessage, ms: seq<BackendMessage>, recovering: bool, out: (Result<Stream>, Conn))
    requires HandedOver(ms, recovering, out) && !m.ErrorResponse? && !m.ReadyForQuery? && !m.EmptyQueryResponse?
    ensures HandedOver([m] + ms, recovering, out)
  {
    assert ([m] + ms)[1..] == ms;
  }

  /** The preamble of `query_params_stream` hands over a stream in the middle of the response, or has
      already reported the server's error and settled. */
  lemma {:induction false} PreambleHandsOver(g: Expect, c: Conn)
    requires g in {ParseDue(0), BindDue(0), DescribeDue(0)}
    requires Conforms(g, c.unread) && c.state == Streaming
    ensures HandedOver(c.unread, c.needsRecovery, Preamble(c))
    decreases |c.unread|
  {
    var m, rest := c.unread[0], c.unread[1..];
    var next := Follow(g, m).value;
    if m.ErrorResponse? {
      ConformingOwesOneReady(next, rest);
      ReadUntilReadySettles(Take(c));
    } else {
      assert c.unread == [m] + rest;
      if IsAsync(m) {
        PreambleHandsOver(g, Absorb(Take(c), m));
      } else if !m.RowDescription? && !m.NoData? {
        PreambleHandsOver(next, Take(c));
      }
      HandedOverBehind(m, rest, c.needsRecovery, Preamble(c));
    }
  }

  // ----- runs --------------------------------------------------------------------

  datatype Session = Session(conn: Conn, stream: Option<Stream>, handed: seq<Notification>)

  /** Commands whose whole response is collected by one reading loop. `CloseNamed` closes a statement or a
      portal; opening and closing a cursor also run BEGIN and COMMIT, which are queries. */
  datatype CollectedCommand =
    | BatchExecute | QueryParams | QueryPrepared | Prepare
    | Pipeline(ops: seq<PipelineOp>)
    | OpenPortal | FetchPortal(columns: Columns) | CloseNamed

  function ActiveOf(cmd: CollectedCommand): ConnectionState {
    if cmd.BatchExecute? then ActiveSimpleQuery else ActiveExtendedQuery
  }

  function ReaderOf(cmd: CollectedCommand): Reader {
    match cmd
    case BatchExecute => Batch([], None, [])
    case QueryParams => Extended(None, [], None)
    case QueryPrepared => Extended(None, [], None)
    case Prepare => Preparing([], [])
    case Pipeline(ops) => Pipelined(ops, [], 0, None, [])
    case OpenPortal => Preparing([], [])
    case FetchPortal(columns) => Fetching(columns, [], None)
    case CloseNamed => Discarding
  }

  function AnswerTo(cmd: CollectedCommand): Expect {
    match cmd
    case BatchExecute => SimpleStart
    case QueryParams => ParseDue(0)
    case QueryPrepared => BindDue(0)
    case Prepare => StatementDue
    case Pipeline(ops) => PipelineStart(|ops|)
    case OpenPortal => PortalDue
    case FetchPortal(_) => FetchStart
    case CloseNamed => CloseDue
  }

  function Issue(c: Conn, cmd: CollectedCommand, response: seq<BackendMessage>): Conn {
    if cmd.QueryParams? || cmd.QueryPrepared? then QueryExtended(c, response).1
    else Command(c, ActiveOf(cmd), ReaderOf(cmd), response).1
  }

  /** Calls of the public interface, with the response the server gives to each command written. */
  datatype Action =
    | OpenSimple(response: seq<BackendMessage>)
    | OpenPrepared(columns: Columns, response: seq<BackendMessage>)
    | OpenParams(response: seq<BackendMessage>)
    | Next
    | DropRows
    | RunQuery(response: seq<BackendMessage>)
    | Collected(command: CollectedCommand, response: seq<BackendMessage>)
    | DropActiveCursor
    | Reconnect(replacement: Conn, startup: Startup)
    | RecoverNow
    | TakeNotifications
    | WaitByQuery(zeroTimeout: bool, response: seq<BackendMessage>)
    | WaitByReading(zeroTimeout: bool, deadline: bool)
    | Deliver(late: seq<BackendMessage>)

  /** The server conforms: each response follows the grammar of its command, and between commands it
      sends asynchronous messages only. A replacement connection has run whole commands only since it started
      up, keeping parameters and status as any connection does, and nothing was handed out from its queue. */
  predicate Legal(a: Action) {
    match a
    case OpenSimple(response) => Conforms(SimpleStart, response)
    case OpenPrepared(_, response) => Conforms(BindDue(0), response)
    case OpenParams(response) => Conforms(ParseDue(0), response)
    case RunQuery(response) => Conforms(SimpleStart, response)
    case Collected(command, response) => Conforms(AnswerTo(command), response)
    case WaitByQuery(_, response) => Conforms(SimpleStart, response)
    case Reconnect(r, startup) =>
      && r.state == Idle && !r.needsRecovery && AllAsync(r.unread)
      && r.queue == Notifications(r.read) && r.params == Parameters(startup.params, r.read)
      && r.status == StatusAfter(startup.status, r.read)
    case Deliver(late) => AllAsync(late)
    case _ => true
  }

  /** A stream borrows the connection: while it lives, only `next` and drop can be called. A cursor stream can be
      dropped only between its fetches, when the connection is Idle. */
  predicate Enabled(s: Session, a: Action) {
    && (a.Deliver? || (s.stream.Some? <==> a.Next? || a.DropRows?))
    && (a.DropActiveCursor? ==> s.conn.state == Idle)
  }

  function Handed(result: Result<Option<Notification>>): seq<Notification> {
    if result.Ok? && result.value.Some? then [result.value.value] else []
  }

  function Exec(s: Session, a: Action): Session
    requires Enabled(s, a)
  {
    var c := s.conn;
    match a
    case OpenSimple(response) =>
      var (started, c') := OpenStream(c, response);
      s.(conn := c', stream := if started.Ok? then Some(Stream(WaitingForDescription, None)) else None)
    case OpenPrepared(columns, response) =>
      var (started, c') := OpenStream(c, response);
      s.(conn := c', stream := if started.Ok? then Some(Stream(WaitingForDescription, Some(columns))) else None)
    case OpenParams(response) =>
      var (started, c') := OpenParamsStream(c, response);
      s.(conn := c', stream := if started.Ok? then Some(started.value) else None)
    case Next =>
      var (_, stream, c') := StreamNext(s.stream.value, c);
      s.(conn := c', stream := Some(stream))
    case DropRows => s.(conn := DropStream(s.stream.value, c), stream := None)
    case RunQuery(response) => s.(conn := Query(c, response).1)
    case Collected(command, response) => s.(conn := Issue(c, command, response))
    case DropActiveCursor => s.(conn := c.(needsRecovery := true))
    case Reconnect(replacement, _) => s.(conn := TakeOver(c, replacement))
    case RecoverNow => s.(conn := Recover(c).1)
    case TakeNotifications =>
      var (taken, c') := DrainNotifications(c);
      s.(conn := c', handed := s.handed + taken)
    case WaitByQuery(zeroTimeout, response) =>
      var (result, c') := WaitForNotification(c, zeroTimeout, response);
      s.(conn := c', handed := s.handed + Handed(result))
    case WaitByReading(zeroTimeout, deadline) =>
      var (result, c') := AwaitNotification(c, zeroTimeout, deadline);
      s.(conn := c', handed := s.handed + Handed(result))
    case Deliver(late) => s.(conn := c.(unread := c.unread + late))
  }

  /** The connection at the moment a command is written, if the action writes one. */
  function WritesFrom(s: Session, a: Action): Option<Conn>
    requires Enabled(s, a)
  {
    var c := s.conn;
    match a
    case OpenSimple(_) => WritesStream(c)
    case OpenPrepared(_, _) => WritesStream(c)
    case OpenParams(_) => WritesStream(c)
    case RunQuery(_) => WritesStream(c)
    case Collected(command, _) => if TransitionAllowed(c.state, ActiveOf(command)) then Some(c) else None
    case WaitByQuery(zero, _) =>
      if c.queue == [] && !zero && TransitionAllowed(c.state, ActiveSimpleQuery) then Some(c) else None
    case _ => None
  }

  function WritesStream(c: Conn): Option<Conn> {
    var (recovered, c') := Recover(c);
    if recovered && TransitionAllowed(c'.state, Streaming) then Some(c') else None
  }

  predicate Allowed(s: Session, run: seq<Action>)
    decreases |run|
  {
    run == [] || (Enabled(s, run[0]) && Legal(run[0]) && Allowed(Exec(s, run[0]), run[1..]))
  }

  function Execute(s: Session, run: seq<Action>): Session
    requires Allowed(s, run)
    decreases |run|
  {
    if run == [] then s else Execute(Exec(s, run[0]), run[1..])
  }

  /** The inductive invariant: what is owed, phase by phase. */
  predicate Synchronised(s: Session) {
    match s.stream
    case Some(stream) => !s.conn.needsRecovery && Fits(stream, s.conn)
    case None =>
      if s.conn.needsRecovery then s.conn.state == Streaming && OneReady(s.conn.unread)
      else s.conn.state == Idle && AllAsync(s.conn.unread)
  }

  /** A row stream was asked for a row when it was blind: its ReadyForQuery is gone, and the connection stays in
      Streaming, also after the stream is dropped. */
  predicate Stranded(s: Session) {
    && s.conn.state == Streaming && AllAsync(s.conn.unread)
    && match s.stream
       case Some(stream) => !s.conn.needsRecovery && stream.phase.ReceivingRows?
       case None => s.conn.needsRecovery
  }

  /** An active cursor stream was dropped: recovery is asked for, and nothing is owed. */
  predicate Misled(s: Session) {
    s.stream.None? && s.conn.needsRecovery && s.conn.state == Idle && AllAsync(s.conn.unread)
  }

  predicate Coherent(s: Session) { Synchronised(s) || Stranded(s) || Misled(s) }

  function Debt(s: Session): nat { ReadyCount(s.conn.unread) }

  lemma RecoverSettles(c: Conn)
    requires Synchronised(Session(c, None, []))
    ensures var (ready, c') := Recover(c);
            ready && c'.state == Idle && !c'.needsRecovery && AllAsync(c'.unread)
    ensures c.needsRecovery ==> Recover(c).1.unread == AfterReady(c.unread)
  {
    if c.needsRecovery {
      ReadUntilReadySettles(c);
    }
  }

  lemma OpenStreamFits(c: Conn, response: seq<BackendMessage>)
    requires Synchronised(Session(c, None, [])) && Described(response)
    ensures var (started, c') := OpenStream(c, response);
            started.Ok? && !c'.needsRecovery && c'.state == Streaming && Described(c'.unread)
  {
    RecoverSettles(c);
    BehindAsync(Recover(c).1.unread, response);
  }

  lemma CommandSettles(c: Conn, active: ConnectionState, r: Reader, response: seq<BackendMessage>)
    requires c.state in {Idle, Streaming} && (c.state == Idle ==> AllAsync(c.unread)) && OneReady(response)
    requires active in {ActiveSimpleQuery, ActiveExtendedQuery}
    ensures var (result, c') := Command(c, active, r, response);
            && (result == Err(InvalidState) <==> c.state != Idle)
            && if c.state == Idle then c'.state == Idle && c'.needsRecovery == c.needsRecovery && AllAsync(c'.unread)
               else c' == c
  {
    if c.state == Idle {
      BehindAsync(c.unread, response);
      CollectSettles(r, Send(c.(state := active), response));
    }
  }

  lemma OpenParamsFits(c: Conn, response: seq<BackendMessage>)
    requires Synchronised(Session(c, None, [])) && Conforms(ParseDue(0), response)
    ensures var (started, c') := OpenParamsStream(c, response);
            && !c'.needsRecovery
            && (match started
                case Ok(s) => Fits(s, c')
                case Err(failure) => c'.state == Idle && AllAsync(c'.unread))
  {
    RecoverSettles(c);
    var c1 := Recover(c).1;
    ConformsBehindAsync(ParseDue(0), c1.unread, response);
    var c2 := Send(c1.(state := Streaming), response);
    PreambleHandsOver(ParseDue(0), c2);
    var (started, c3) := Preamble(c2);
    if started.Ok? {
      if Conforms(ExtendedRows(0), c3.unread) {
        ConformingRowsEnd(ExtendedRows(0), c3.unread);
      } else {
        ConformingNoRows(c3.unread);
      }
    }
  }

  lemma {:induction false} ConformsBehindAsync(g: Expect, early: seq<BackendMessage>, ms: seq<BackendMessage>)
    requires AllAsync(early)
    ensures Conforms(g, early + ms) == Conforms(g, ms)
  {
    if early == [] {
      assert early + ms == ms;
    } else {
      ConformsBehindAsync(g, early[1..], ms);
      assert (early + ms)[1..] == early[1..] + ms;
    }
  }

  /** An action keeps the invariant, and if it writes a command, nothing but asynchronous messages is unread. */
  predicate Steps(s: Session, a: Action)
    requires Enabled(s, a)
  {
    && Synchronised(Exec(s, a))
    && (WritesFrom(s, a).Some? ==> WritesFrom(s, a).value.state == Idle && AllAsync(WritesFrom(s, a).value.unread))
  }

  lemma StreamStep(s: Session, a: Action)
    requires Synchronised(s) && Enabled(s, a) && Legal(a)
    requires a.OpenSimple? || a.OpenPrepared? || a.OpenParams? || a.Next? || a.DropRows? || a.RunQuery?
    requires a.Next? ==> !Blind(s.stream.value, s.conn)
    ensures Steps(s, a)
  {
    var c := s.conn;
    if s.stream.None? {
      RecoverSettles(c);
    }
    match a
    case OpenSimple(response) =>
      ConformingDescribed(SimpleStart, response);
      OpenStreamFits(c, response);
    case OpenPrepared(_, response) =>
      ConformingDescribed(BindDue(0), response);
      OpenStreamFits(c, response);
    case OpenParams(response) => OpenParamsFits(c, response);
    case Next => StreamNextFits(s.stream.value, c);
    case DropRows => NeedsOneReady(c.unread);
    case RunQuery(response) =>
      ConformingDescribed(SimpleStart, response);
      OpenStreamFits(c, response);
      DrainFits(Stream(WaitingForDescription, None), OpenStream(c, response).1, []);
  }

  lemma CommandStep(s: Session, a: Action)
    requires Synchronised(s) && Enabled(s, a) && Legal(a) && a.Collected?
    ensures Steps(s, a)
  {
    ConformingOwesOneReady(AnswerTo(a.command), a.response);
    CommandSettles(s.conn, ActiveOf(a.command), ReaderOf(a.command), a.response);
  }

  lemma WaitSettles(c: Conn, zero: bool, response: seq<BackendMessage>)
    requires c.state == Idle ==> AllAsync(c.unread)
    requires Conforms(SimpleStart, response)
    ensures var c' := WaitForNotification(c, zero, response).1;
            && c'.state == c.state && c'.needsRecovery == c.needsRecovery
            && if c.state == Idle then AllAsync(c'.unread) else c'.unread == c.unread
  {
    if c.queue == [] && !zero && c.state == Idle {
      ConformingOwesOneReady(SimpleStart, response);
      BehindAsync(c.unread, response);
      WaitCycleSettles(Send(c.(state := ActiveSimpleQuery), response));
    }
  }

  lemma NotificationStep(s: Session, a: Action)
    requires Synchronised(s) && Enabled(s, a) && Legal(a)
    requires a.Reconnect? || a.RecoverNow? || a.TakeNotifications? || a.WaitByQuery? || a.WaitByReading? || a.Deliver?
    ensures Steps(s, a)
  {
    var c := s.conn;
    match a
    case Reconnect(_, _) =>
    case RecoverNow => RecoverSettles(c);
    case TakeNotifications =>
    case WaitByQuery(zero, response) => WaitSettles(c, zero, response);
    case WaitByReading(zero, deadline) =>
      if !c.needsRecovery {
        ReadNextNotificationSettles(c, deadline);
      }
    case Deliver(late) => LateAsync(c.unread, late);
  }

  lemma StepSynchronised(s: Session, a: Action)
    requires Synchronised(s) && Enabled(s, a) && Legal(a)
    requires (a.Next? ==> !Blind(s.stream.value, s.conn)) && !a.DropActiveCursor?
    ensures Steps(s, a)
  {
    if a.OpenSimple? || a.OpenPrepared? || a.OpenParams? || a.Next? || a.DropRows? || a.RunQuery? {
      StreamStep(s, a);
    } else if a.Collected? {
      CommandStep(s, a);
    } else {
      NotificationStep(s, a);
    }
  }

  /** Calling `next` keeps the invariant exactly when the stream is not blind. */
  lemma NextSynchronisedIff(s: Session)
    requires Synchronised(s) && s.stream.Some?
    ensures var (_, stream, c) := StreamNext(s.stream.value, s.conn);
            Synchronised(s.(conn := c, stream := Some(stream))) <==> !Blind(s.stream.value, s.conn)
  {
    if Blind(s.stream.value, s.conn) {
      BlindNextStrands(s.stream.value, s.conn);
    } else {
      StreamNextFits(s.stream.value, s.conn);
    }
  }

  // ----- every call at every point --------------------------------------------------------

  lemma {:induction false} NothingToReach(c: Conn)
    requires AllAsync(c.unread)
    ensures var (ready, c') := ReadUntilReady(c);
            !ready && c'.unread == [] && c'.state == c.state && c'.needsRecovery == c.needsRecovery
    decreases |c.unread|
  {
    if c.unread != [] {
      NothingToReach(Absorb(Take(c), c.unread[0]));
    }
  }

  /** Where recovery is asked for and nothing is owed, nothing that recovers first gets anywhere. */
  lemma HopelessStep(s: Session, a: Action)
    requires s.stream.None? && s.conn.needsRecovery && AllAsync(s.conn.unread) && Enabled(s, a)
    requires a.OpenSimple? || a.OpenPrepared? || a.OpenParams? || a.RunQuery? || a.RecoverNow?
    ensures var t := Exec(s, a);
            && t.stream.None? && t.conn.unread == [] && t.conn.needsRecovery && t.conn.state == s.conn.state
            && WritesFrom(s, a).None?
  {
    NothingToReach(s.conn);
  }

  lemma StrandedStep(s: Session, a: Action)
    requires Stranded(s) && Enabled(s, a) && Legal(a) && !a.Reconnect?
    ensures Stranded(Exec(s, a)) && WritesFrom(s, a).None?
  {
    var c := s.conn;
    if a.Next? {
      NeedsOneReady(c.unread);
      BlindNextStrands(s.stream.value, c);
    } else if a.OpenSimple? || a.OpenPrepared? || a.OpenParams? || a.RunQuery? || a.RecoverNow? {
      HopelessStep(s, a);
    }
  }

  lemma MisledStep(s: Session, a: Action)
    requires Misled(s) && Enabled(s, a) && Legal(a) && !a.Reconnect?
    ensures Misled(Exec(s, a)) && (WritesFrom(s, a).Some? ==> WritesFrom(s, a).value == s.conn)
  {
    var c := s.conn;
    if a.OpenSimple? || a.OpenPrepared? || a.OpenParams? || a.RunQuery? || a.RecoverNow? {
      HopelessStep(s, a);
    } else if a.Collected? {
      ConformingOwesOneReady(AnswerTo(a.command), a.response);
      CommandSettles(c, ActiveOf(a.command), ReaderOf(a.command), a.response);
    } else if a.WaitByQuery? {
      WaitSettles(c, a.zeroTimeout, a.response);
    } else if a.WaitByReading? {
      ReadNextNotificationSettles(c, a.deadline);
    }
  }

  lemma Apart(s: Session)
    ensures Synchronised(s) ==> !Stranded(s) && !Misled(s)
  {
    NeedsOneReady(s.conn.unread);
  }

  /** What any call does at any point of any run: the session stays coherent; a command is written only from Idle with
      nothing but asynchronous messages unread; it becomes stranded exactly by `next` on a blind stream, misled
      exactly by dropping an active cursor, and is either no longer exactly after a reconnect. */
  predicate Advances(s: Session, a: Action)
    requires Enabled(s, a)
  {
    var t := Exec(s, a);
    && Coherent(t)
    && (WritesFrom(s, a).Some? ==> WritesFrom(s, a).value.state == Idle && AllAsync(WritesFrom(s, a).value.unread))
    && (Stranded(t) <==> (Stranded(s) && !a.Reconnect?) || (a.Next? && Blind(s.stream.value, s.conn)))
    && (Misled(t) <==> (Misled(s) && !a.Reconnect?) || a.DropActiveCursor?)
  }

  lemma StepAdvances(s: Session, a: Action)
    requires Coherent(s) && Enabled(s, a) && Legal(a)
    ensures Advances(s, a)
  {
    NeedsOneReady(s.conn.unread);
    if a.Reconnect? {
      Apart(Exec(s, a));
    } else if Stranded(s) {
      StrandedStep(s, a);
    } else if Misled(s) {
      MisledStep(s, a);
    } else if a.Next? && Blind(s.stream.value, s.conn) {
      BlindNextStrands(s.stream.value, s.conn);
    } else if !a.DropActiveCursor? {
      StepSynchronised(s, a);
      Apart(Exec(s, a));
    }
  }

  /** Sync-debt safety: in every run of every call, the number of ReadyForQuery messages owed is 0 when the
      connection is Idle and 1 otherwise, unless the session is stranded, when it is 0; and whatever is called
      next writes no command while an earlier response is unread, stranded or not. */
  lemma {:induction false} SyncDebtSafety(s: Session, run: seq<Action>)
    requires Coherent(s) && Allowed(s, run)
    ensures var t := Execute(s, run);
            && Coherent(t)
            && Debt(t) == (if t.conn.state == Idle || Stranded(t) then 0 else 1)
            && forall a :: Enabled(t, a) && Legal(a) && WritesFrom(t, a).Some? ==>
                 ReadyCount(WritesFrom(t, a).value.unread) == 0
    decreases |run|
  {
    if run == [] {
      NeedsOneReady(s.conn.unread);
      Apart(s);
      forall a | Enabled(s, a) && Legal(a) && WritesFrom(s, a).Some?
        ensures ReadyCount(WritesFrom(s, a).value.unread) == 0
      {
        StepAdvances(s, a);
        NeedsOneReady(WritesFrom(s, a).value.unread);
      }
    } else {
      StepAdvances(s, run[0]);
      SyncDebtSafety(Exec(s, run[0]), run[1..]);
    }
  }

  predicate Stuck(s: Session) { Stranded(s) || Misled(s) }

  /** A run gets stuck, and stays so until a reconnect, exactly by one of the two calls; and `recover`, when it is
      called for, then fails for good, while otherwise it always succeeds. */
  lemma RecoverFailsIff(s: Session)
    requires Coherent(s) && s.stream.None?
    ensures !Recover(s.conn).0 <==> Stuck(s)
  {
    if Stuck(s) {
      NothingToReach(s.conn);
    } else {
      RecoverSettles(s.conn);
    }
    Apart(s);
  }
}
