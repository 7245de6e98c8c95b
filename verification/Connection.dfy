/** The connection, its row streams and its cursors as objects: message loops over mutable fields, each
    proved to compute the corresponding function of Engine or Cursors. The transport is the list of
    messages still to be read (Framing.dfy proves that the byte layer delivers such a list); the server's
    answer to a command is a parameter of the method that writes the command. */
module Connections {
  import opened Basics
  import opened Messages
  import opened Engine
  import opened Cursors

  class Connection {
    var state: ConnectionState
    var needsRecovery: bool
    var transactionStatus: TransactionStatus
    var inTransaction: bool
    var notificationQueue: seq<Notification>
    var serverParams: map<string, string>
    var unread: seq<BackendMessage>
    ghost var read: seq<BackendMessage>

    ghost function Value(): Conn
      reads this
    {
      Conn(state, needsRecovery, transactionStatus, inTransaction, notificationQueue, serverParams, read, unread)
    }

    constructor ()
      ensures Value() == Conn(Idle, false, NoTransaction, false, [], map[], [], [])
    {
      state, needsRecovery, transactionStatus, inTransaction := Idle, false, NoTransaction, false;
      notificationQueue, serverParams, unread, read := [], map[], [], [];
    }

    method ReadMessage() returns (m: Option<BackendMessage>)
      modifies this
      ensures old(unread) == [] ==> m == None && Value() == old(Value())
      ensures old(unread) != [] ==> m == Some(old(unread)[0]) && Value() == Take(old(Value()))
    {
      if unread == [] {
        return None;
      }
      m := Some(unread[0]);
      read := read + [unread[0]];
      unread := unread[1..];
    }

    method Write(response: seq<BackendMessage>)
      modifies this
      ensures Value() == Send(old(Value()), response)
    {
      unread := unread + response;
    }

    method HandleAsyncMessage(m: BackendMessage) returns (handled: bool)
      modifies this
      ensures handled == IsAsync(m)
      ensures Value() == if handled then Absorb(old(Value()), m) else old(Value())
      ensures handled <==> m.NotificationResponse? || m.NoticeResponse? || m.ParameterStatus?
      ensures notificationQueue == old(notificationQueue) + if m.NotificationResponse? then [m.notification] else []
      ensures serverParams == if m.ParameterStatus? then old(serverParams)[m.name := m.value] else old(serverParams)
    {
      match m
      case NotificationResponse(n) =>
        notificationQueue := notificationQueue + [n];
        handled := true;
      case NoticeResponse(_) =>
        handled := true;
      case ParameterStatus(name, value) =>
        serverParams := serverParams[name := value];
        handled := true;
      case _ =>
        handled := false;
    }

    method ReadUntilReady() returns (ready: bool)
      modifies this
      ensures (ready, Value()) == Engine.ReadUntilReady(old(Value()))
    {
      while true
        invariant Engine.ReadUntilReady(old(Value())) == Engine.ReadUntilReady(Value())
        decreases |unread|
      {
        var msg := ReadMessage();
        if msg.None? {
          return false;
        }
        var m := msg.value;
        if m.ReadyForQuery? {
          transactionStatus := StatusOf(m.status);
          inTransaction := transactionStatus != NoTransaction;
          state := Idle;
          return true;
        }
        var _ := HandleAsyncMessage(m);
      }
    }

    method Fail(error: ServerError) returns (failure: Failure)
      modifies this
      ensures (failure, Value()) == FailWith(old(Value()), error)
    {
      var ready := ReadUntilReady();
      failure := if ready then Server(error) else UnexpectedEof;
    }

    method Transition(to: ConnectionState) returns (ok: bool)
      modifies this
      ensures ok == TransitionAllowed(old(state), to)
      ensures var busy := {ActiveSimpleQuery, ActiveExtendedQuery, CopyIn, CopyOut, Streaming};
              ok <==>
                || to == Closed
                || (old(state) == Idle && (to in busy || to == Closing))
                || (old(state) in busy && to == Idle)
      ensures Value() == if ok then old(Value()).(state := to) else old(Value())
    {
      match (state, to) {
        case (_, Closed) => ok := true;
        case (Idle, ActiveSimpleQuery) => ok := true;
        case (Idle, ActiveExtendedQuery) => ok := true;
        case (Idle, CopyIn) => ok := true;
        case (Idle, CopyOut) => ok := true;
        case (Idle, Streaming) => ok := true;
        case (ActiveSimpleQuery, Idle) => ok := true;
        case (ActiveExtendedQuery, Idle) => ok := true;
        case (CopyIn, Idle) => ok := true;
        case (CopyOut, Idle) => ok := true;
        case (Streaming, Idle) => ok := true;
        case (Idle, Closing) => ok := true;
        case _ => ok := false;
      }
      if ok {
        state := to;
      }
    }

    method Recover() returns (recovered: bool)
      modifies this
      ensures (recovered, Value()) == Engine.Recover(old(Value()))
    {
      recovered := true;
      if needsRecovery {
        recovered := ReadUntilReady();
        if recovered {
          needsRecovery := false;
        }
      }
    }

    method BecomeReady(status: char)
      modifies this
      ensures Value() == Ready(old(Value()), status)
      ensures state == Idle
      ensures transactionStatus == if status == 'T' then InTransaction
                                   else if status == 'E' then FailedTransaction
                                   else NoTransaction
    {
      transactionStatus := StatusOf(status);
      state := Idle;
    }

    method BatchExecute(response: seq<BackendMessage>) returns (r: Result<seq<QueryResult>>)
      modifies this
      ensures var (result, c) := Command(old(Value()), ActiveSimpleQuery, Batch([], None, []), response);
              && Value() == c
              && r == if result.Ok? then Ok(result.value.results) else Err(result.failure)
    {
      var ok := Transition(ActiveSimpleQuery);
      if !ok {
        return Err(InvalidState);
      }
      Write(response);
      ghost var start := Value();
      var results: seq<QueryResult>, currentColumns: Option<Columns>, currentRows: seq<Row> := [], None, [];
      while true
        invariant Collect(Batch([], None, []), start) == Collect(Batch(results, currentColumns, currentRows), Value())
        decreases |unread|
      {
        var msg := ReadMessage();
        if msg.None? {
          return Err(UnexpectedEof);
        }
        var m := msg.value;
        var handled := HandleAsyncMessage(m);
        if handled {
          continue;
        }
        ghost var before := Batch(results, currentColumns, currentRows);
        match m {
          case RowDescription(columns) =>
            currentColumns, currentRows := Some(columns), [];
          case DataRow(values) =>
            currentRows := currentRows + [Row(OrEmpty(currentColumns), values)];
          case CommandComplete(tag) =>
            results := results + [QueryResult(currentRows, tag, OrEmpty(currentColumns))];
            currentRows, currentColumns := [], None;
          case EmptyQueryResponse =>
            results := results + [QueryResult([], "", [])];
          case ErrorResponse(error) =>
            var failure := Fail(error);
            return Err(failure);
          case ReadyForQuery(status) =>
            BecomeReady(status);
            return Ok(results);
          case _ =>
        }
        assert Batch(results, currentColumns, currentRows) == StepReader(before, m);
      }
    }

    method ReadExtendedQueryResult() returns (r: Result<QueryResult>)
      modifies this
      ensures var (result, c) := Collect(Extended(None, [], None), old(Value()));
              && Value() == (if result.Ok? then c.(state := old(state)) else c)
              && r == if result.Ok? then Ok(Extract(result.value)) else Err(result.failure)
    {
      var described: Option<Columns>, rows: seq<Row>, tag: Option<string> := None, [], None;
      while true
        invariant Collect(Extended(None, [], None), old(Value())) == Collect(Extended(described, rows, tag), Value())
        invariant state == old(state)
        decreases |unread|
      {
        var msg := ReadMessage();
        if msg.None? {
          return Err(UnexpectedEof);
        }
        var m := msg.value;
        var handled := HandleAsyncMessage(m);
        if handled {
          continue;
        }
        ghost var before := Extended(described, rows, tag);
        match m {
          case RowDescription(columns) =>
            described := Some(columns);
          case DataRow(values) =>
            if described.None? {
              described := Some(Synthetic(|values|));
            }
            rows := rows + [Row(described.value, values)];
          case CommandComplete(t) =>
            tag := Some(t);
          case EmptyQueryResponse =>
            tag := Some("");
          case ErrorResponse(error) =>
            var failure := Fail(error);
            return Err(failure);
          case ReadyForQuery(status) =>
            transactionStatus := StatusOf(status);
            return Ok(QueryResult(rows, if tag.Some? then tag.value else "", OrEmpty(described)));
          case _ =>
        }
        assert Extended(described, rows, tag) == StepReader(before, m);
      }
    }

    /** `query_params` after its parameters were encoded; `query_prepared` reads the same way. */
    method QueryParams(response: seq<BackendMessage>) returns (r: Result<QueryResult>)
      modifies this
      ensures var (result, c) := QueryExtended(old(Value()), response);
              && Value() == c
              && r == if result.Ok? then Ok(Extract(result.value)) else Err(result.failure)
    {
      var ok := Transition(ActiveExtendedQuery);
      if !ok {
        return Err(InvalidState);
      }
      Write(response);
      r := ReadExtendedQueryResult();
      state := Idle;
    }

    /** The reading loop of `prepare`, which `query_cursor` shares. */
    method ReadShape() returns (r: Result<(seq<int>, Columns)>)
      modifies this
      ensures var (result, c) := Collect(Preparing([], []), old(Value()));
              && Value() == c
              && r == if result.Ok? then Ok((result.value.oids, result.value.columns)) else Err(result.failure)
    {
      var oids: seq<int>, columns: Columns := [], [];
      while true
        invariant Collect(Preparing([], []), old(Value())) == Collect(Preparing(oids, columns), Value())
        decreases |unread|
      {
        var msg := ReadMessage();
        if msg.None? {
          return Err(UnexpectedEof);
        }
        var m := msg.value;
        var handled := HandleAsyncMessage(m);
        if handled {
          continue;
        }
        ghost var before := Preparing(oids, columns);
        match m {
          case ParameterDescription(more) =>
            oids := oids + more;
          case RowDescription(cs) =>
            columns := cs;
          case ReadyForQuery(status) =>
            BecomeReady(status);
            return Ok((oids, columns));
          case ErrorResponse(error) =>
            var failure := Fail(error);
            return Err(failure);
          case _ =>
        }
        assert Preparing(oids, columns) == StepReader(before, m);
      }
    }

    method Prepare(response: seq<BackendMessage>) returns (r: Result<(seq<int>, Columns)>)
      modifies this
      ensures var (result, c) := Command(old(Value()), ActiveExtendedQuery, Preparing([], []), response);
              && Value() == c
              && r == if result.Ok? then Ok((result.value.oids, result.value.columns)) else Err(result.failure)
    {
      var ok := Transition(ActiveExtendedQuery);
      if !ok {
        return Err(InvalidState);
      }
      Write(response);
      r := ReadShape();
    }

    /** `query_cursor`: a BEGIN of its own when no transaction is open, then the portal. */
    method OpenCursor(begun: seq<BackendMessage>, response: seq<BackendMessage>) returns (r: Result<Columns>)
      modifies this
      ensures var (result, c) := Engine.OpenCursor(old(Value()), begun, response);
              r == result && Value() == c
    {
      if transactionStatus == NoTransaction {
        var begin := Query(begun);
        if begin.Err? {
          return Err(begin.failure);
        }
      }
      var ok := Transition(ActiveExtendedQuery);
      if !ok {
        return Err(InvalidState);
      }
      Write(response);
      var shape := ReadShape();
      r := if shape.Ok? then Ok(shape.value.1) else Err(shape.failure);
    }

    /** `close_statement`; closing a portal reads the same way. */
    method CloseStatement(response: seq<BackendMessage>) returns (r: Result<()>)
      modifies this
      ensures var (result, c) := Command(old(Value()), ActiveExtendedQuery, Discarding, response);
              && Value() == c
              && r == if result.Ok? then Ok(()) else Err(result.failure)
    {
      var ok := Transition(ActiveExtendedQuery);
      if !ok {
        return Err(InvalidState);
      }
      Write(response);
      ghost var start := Value();
      while true
        invariant Collect(Discarding, start) == Collect(Discarding, Value())
        decreases |unread|
      {
        var msg := ReadMessage();
        if msg.None? {
          return Err(UnexpectedEof);
        }
        var m := msg.value;
        var handled := HandleAsyncMessage(m);
        if handled {
          continue;
        }
        match m
        case ReadyForQuery(status) =>
          BecomeReady(status);
          return Ok(());
        case ErrorResponse(error) =>
          var failure := Fail(error);
          return Err(failure);
        case _ =>
      }
    }

    /** `Cursor::close`. */
    method CloseCursor(ownsTransaction: bool, closed: seq<BackendMessage>, committed: seq<BackendMessage>)
      returns (r: Result<()>)
      modifies this
      ensures (r, Value()) == Engine.CloseCursor(old(Value()), ownsTransaction, closed, committed)
    {
      r := CloseStatement(closed);
      if r.Ok? && ownsTransaction {
        var commit := Query(committed);
        r := if commit.Ok? then Ok(()) else Err(commit.failure);
      }
    }

    /** `reset`; of the tracked session it has only the transaction flag. */
    method Reset(rolledBack: seq<BackendMessage>, discarded: seq<BackendMessage>) returns (r: Result<()>)
      modifies this
      ensures (r, Value()) == Engine.Reset(old(Value()), rolledBack, discarded)
    {
      if transactionStatus == FailedTransaction || transactionStatus == InTransaction {
        var rollback := Query(rolledBack);
        if rollback.Err? {
          return Err(rollback.failure);
        }
      }
      var discard := Query(discarded);
      if discard.Err? {
        return Err(discard.failure);
      }
      inTransaction := false;
      r := Ok(());
    }

    /** The end of `reconnect`, once the replacement is complete. */
    method TakeOver(replacement: Connection)
      requires replacement != this
      modifies this
      ensures Value() == Engine.TakeOver(old(Value()), replacement.Value())
      ensures unread == replacement.unread && serverParams == replacement.serverParams
      ensures state == replacement.state && transactionStatus == replacement.transactionStatus
      ensures notificationQueue == [] && !needsRecovery && inTransaction == old(inTransaction)
    {
      unread, read, serverParams := replacement.unread, replacement.read, replacement.serverParams;
      transactionStatus, state := replacement.transactionStatus, replacement.state;
      notificationQueue, needsRecovery := [], false;
    }

    /** The arms of the loop in `Pipeline::finish` that attribute a message to the current operation. */
    static method Attribute(
      ops: seq<PipelineOp>, m: BackendMessage, results: seq<PipelineResult>, currentOp: nat,
      currentColumns: Option<Columns>, currentRows: seq<Row>)
      returns (results': seq<PipelineResult>, currentOp': nat, currentColumns': Option<Columns>, currentRows': seq<Row>)
      ensures Pipelined(ops, results', currentOp', currentColumns', currentRows')
           == StepReader(Pipelined(ops, results, currentOp, currentColumns, currentRows), m)
    {
      results', currentOp', currentColumns', currentRows' := results, currentOp, currentColumns, currentRows;
      match m
      case RowDescription(columns) =>
        currentColumns' := Some(columns);
      case DataRow(values) =>
        currentRows' := currentRows + [Row(OrEmpty(currentColumns), values)];
      case CommandComplete(tag) =>
        if currentOp < |ops| {
          match ops[currentOp]
          case QueryOp =>
            results' := results + [Queried(QueryResult(currentRows, tag, OrEmpty(currentColumns)))];
            currentRows', currentColumns' := [], None;
          case ExecuteOp =>
            results' := results + [Executed(tag)];
        }
        currentOp' := currentOp + 1;
      case EmptyQueryResponse =>
        if currentOp < |ops| {
          match ops[currentOp]
          case QueryOp => results' := results + [Queried(QueryResult([], "", []))];
          case ExecuteOp => results' := results + [Executed("")];
        }
        currentOp' := currentOp + 1;
      case _ =>
    }

    /** The loop of `Pipeline::finish`. */
    method ReadPipelineResults(ops: seq<PipelineOp>) returns (r: Result<seq<PipelineResult>>)
      modifies this
      ensures var (result, c) := Collect(Pipelined(ops, [], 0, None, []), old(Value()));
              && Value() == c
              && r == if result.Ok? then Ok(result.value.pipelineResults) else Err(result.failure)
    {
      var results: seq<PipelineResult>, currentOp: nat := [], 0;
      var currentColumns: Option<Columns>, currentRows: seq<Row> := None, [];
      while true
        invariant Collect(Pipelined(ops, [], 0, None, []), old(Value()))
               == Collect(Pipelined(ops, results, currentOp, currentColumns, currentRows), Value())
        decreases |unread|
      {
        var msg := ReadMessage();
        if msg.None? {
          return Err(UnexpectedEof);
        }
        var m := msg.value;
        var handled := HandleAsyncMessage(m);
        if handled {
          continue;
        }
        match m
        case ErrorResponse(error) =>
          var failure := Fail(error);
          return Err(failure);
        case ReadyForQuery(status) =>
          BecomeReady(status);
          return Ok(results);
        case _ =>
          results, currentOp, currentColumns, currentRows :=
            Attribute(ops, m, results, currentOp, currentColumns, currentRows);
      }
    }

    /** `Pipeline::finish`. */
    method FinishPipeline(ops: seq<PipelineOp>, response: seq<BackendMessage>) returns (r: Result<seq<PipelineResult>>)
      modifies this
      ensures var (result, c) := Command(old(Value()), ActiveExtendedQuery, Pipelined(ops, [], 0, None, []), response);
              && Value() == c
              && r == if result.Ok? then Ok(result.value.pipelineResults) else Err(result.failure)
    {
      var ok := Transition(ActiveExtendedQuery);
      if !ok {
        return Err(InvalidState);
      }
      Write(response);
      r := ReadPipelineResults(ops);
    }

    // ----- opening streams -------------------------------------------------------

    method StartStreaming(response: seq<BackendMessage>) returns (started: Result<()>)
      modifies this
      ensures (started, Value()) == OpenStream(old(Value()), response)
    {
      if needsRecovery {
        var recovered := Recover();
        if !recovered {
          return Err(UnexpectedEof);
        }
      }
      var ok := Transition(Streaming);
      if !ok {
        return Err(InvalidState);
      }
      Write(response);
      started := Ok(());
    }

    method QueryStream(response: seq<BackendMessage>) returns (started: Result<()>, stream: RowStream)
      modifies this
      ensures (started, Value()) == OpenStream(old(Value()), response)
      ensures fresh(stream) && stream.conn == this && stream.Value() == Stream(WaitingForDescription, None)
    {
      started := StartStreaming(response);
      stream := new RowStream(this, Stream(WaitingForDescription, None));
    }

    /** The loop of `query_params_stream` up to the message that says whether rows follow. */
    method ReadPreamble() returns (r: Result<Option<Columns>>)
      modifies this
      ensures var (result, c) := Preamble(old(Value()));
              && Value() == c
              && (match result
                  case Ok(s) => s == Stream(ReceivingRows, s.columns) && r == Ok(s.columns)
                  case Err(failure) => r == Err(failure))
    {
      while true
        invariant Preamble(old(Value())) == Preamble(Value())
        decreases |unread|
      {
        var msg := ReadMessage();
        if msg.None? {
          return Err(UnexpectedEof);
        }
        var m := msg.value;
        var handled := HandleAsyncMessage(m);
        if handled {
          continue;
        }
        match m
        case RowDescription(columns) => return Ok(Some(columns));
        case NoData => return Ok(None);
        case CommandComplete(_) => return Ok(None);
        case EmptyQueryResponse => return Ok(None);
        case ReadyForQuery(status) =>
          transactionStatus := StatusOf(status);
          return Ok(None);
        case ErrorResponse(error) =>
          var failure := Fail(error);
          return Err(failure);
        case _ =>
      }
    }

    /** `query_params_stream` after its parameters were encoded. */
    method QueryParamsStream(response: seq<BackendMessage>) returns (started: Result<()>, stream: RowStream)
      modifies this
      ensures fresh(stream) && stream.conn == this
      ensures var (result, c) := OpenParamsStream(old(Value()), response);
              && Value() == c
              && (match result
                  case Ok(s) => started == Ok(()) && stream.Value() == s
                  case Err(failure) => started == Err(failure))
    {
      stream := new RowStream(this, Stream(ReceivingRows, None));
      started := StartStreaming(response);
      if started.Err? {
        return;
      }
      var described := ReadPreamble();
      if described.Err? {
        started := Err(described.failure);
        return;
      }
      stream.columns := described.value;
    }

    /** `query`: a simple stream, drained and dropped. */
    method Query(response: seq<BackendMessage>) returns (r: Result<QueryResult>)
      modifies this
      ensures (r, Value()) == Engine.Query(old(Value()), response)
    {
      var started, stream := QueryStream(response);
      if started.Err? {
        return Err(started.failure);
      }
      ghost var start := Value();
      var rows: seq<Row> := [];
      while true
        invariant stream.conn == this && fresh(stream)
        invariant Drain(Stream(WaitingForDescription, None), start, []) == Drain(stream.Value(), Value(), rows)
        decreases |unread|
      {
        var item := stream.Next();
        match item
        case Yield(row) =>
          rows := rows + [row];
        case End => break;
        case Fault(failure) =>
          stream.Drop();
          return Err(failure);
      }
      var tag := if stream.phase.Done? then stream.phase.tag else "";
      r := Ok(QueryResult(rows, tag, OrEmpty(stream.columns)));
      stream.Drop();
    }

    // ----- notifications -----------------------------------------------------------

    method Notifications() returns (taken: seq<Notification>)
      modifies this
      ensures (taken, Value()) == DrainNotifications(old(Value()))
      ensures taken == old(notificationQueue) && notificationQueue == []
    {
      taken, notificationQueue := notificationQueue, [];
    }

    method PopNotification() returns (n: Option<Notification>)
      modifies this
      ensures old(notificationQueue) == [] ==> n == None && Value() == old(Value())
      ensures old(notificationQueue) != [] ==>
                && n == Some(old(notificationQueue)[0])
                && Value() == old(Value()).(queue := old(notificationQueue)[1..])
    {
      n := None;
      if notificationQueue != [] {
        n, notificationQueue := Some(notificationQueue[0]), notificationQueue[1..];
      }
    }

    /** The reading half of `wait_for_notification` by an empty query. */
    method ReadWaitCycle() returns (r: Result<Option<Notification>>)
      modifies this
      ensures (r, Value()) == WaitCycle(old(Value()))
    {
      while true
        invariant WaitCycle(old(Value())) == WaitCycle(Value())
        decreases |unread|
      {
        var msg := ReadMessage();
        if msg.None? {
          return Err(UnexpectedEof);
        }
        var m := msg.value;
        match m
        case NotificationResponse(n) =>
          var ready := ReadUntilReady();
          return if ready then Ok(Some(n)) else Err(UnexpectedEof);
        case ReadyForQuery(status) =>
          BecomeReady(status);
          var left := PopNotification();
          return Ok(left);
        case ParameterStatus(name, value) =>
          serverParams := serverParams[name := value];
          assert notificationQueue + [] == notificationQueue;
        case _ =>
      }
    }

    method WaitForNotification(zeroTimeout: bool, response: seq<BackendMessage>)
      returns (r: Result<Option<Notification>>)
      modifies this
      ensures (r, Value()) == Engine.WaitForNotification(old(Value()), zeroTimeout, response)
    {
      var queued := PopNotification();
      if queued.Some? || zeroTimeout {
        return Ok(queued);
      }
      var ok := Transition(ActiveSimpleQuery);
      if !ok {
        return Err(InvalidState);
      }
      Write(response);
      r := ReadWaitCycle();
    }

    method AwaitNotification(zeroTimeout: bool, deadline: bool) returns (r: Result<Option<Notification>>)
      modifies this
      ensures (r, Value()) == Engine.AwaitNotification(old(Value()), zeroTimeout, deadline)
    {
      var queued := PopNotification();
      if queued.Some? || zeroTimeout {
        return Ok(queued);
      }
      if state != Idle {
        return Err(InvalidState);
      }
      ghost var start := Value();
      while true
        invariant ReadNextNotification(start, deadline) == ReadNextNotification(Value(), deadline)
        decreases |unread|
      {
        var msg := ReadMessage();
        if msg.None? {
          return if deadline then Ok(None) else Err(UnexpectedEof);
        }
        var m := msg.value;
        match m
        case NotificationResponse(n) =>
          return Ok(Some(n));
        case NoticeResponse(_) =>
        case ParameterStatus(name, value) =>
          serverParams := serverParams[name := value];
          assert notificationQueue + [] == notificationQueue;
        case ReadyForQuery(status) =>
          BecomeReady(status);
        case EmptyQueryResponse =>
        case _ =>
          return Err(InvalidState);
      }
    }
  }

  class RowStream {
    const conn: Connection
    var phase: Phase
    var columns: Option<Columns>

    ghost function Value(): Stream
      reads this
    {
      Stream(phase, columns)
    }

    constructor (conn: Connection, s: Stream)
      ensures this.conn == conn && Value() == s
    {
      this.conn, phase, columns := conn, s.phase, s.columns;
    }

    method Next() returns (item: Item)
      modifies this, conn
      ensures (item, Value(), conn.Value()) == StreamNext(old(Value()), old(conn.Value()))
    {
      while true
        invariant StreamNext(old(Value()), old(conn.Value())) == StreamNext(Value(), conn.Value())
        decreases |conn.unread|
      {
        if phase.Done? || phase.Error? {
          return End;
        }
        var msg := conn.ReadMessage();
        if msg.None? {
          return Fault(UnexpectedEof);
        }
        var m := msg.value;
        var handled := conn.HandleAsyncMessage(m);
        if handled {
          continue;
        }
        if m.ErrorResponse? {
          var failure := conn.Fail(m.error);
          if failure.Server? {
            phase := Error;
          }
          return Fault(failure);
        }
        match phase
        case WaitingForDescription =>
          match m {
            case RowDescription(cs) =>
              columns, phase := Some(cs), ReceivingRows;
            case CommandComplete(tag) =>
              phase := Finishing(tag);
            case EmptyQueryResponse =>
              phase := Finishing("");
            case _ =>
          }
        case ReceivingRows =>
          match m {
            case DataRow(values) =>
              return Yield(Row(OrEmpty(columns), values));
            case CommandComplete(tag) =>
              phase := Finishing(tag);
            case _ =>
          }
        case Finishing(tag) =>
          if m.ReadyForQuery? {
            conn.BecomeReady(m.status);
            phase := Done(tag);
            return End;
          }
      }
    }

    method Drop()
      modifies conn
      ensures conn.Value() == DropStream(Value(), old(conn.Value()))
    {
      if !(phase.Done? || phase.Error?) {
        conn.needsRecovery := true;
      }
    }
  }

  /** `CursorStream`, with the server's future answers to its Execute/Sync pairs in `portal`. */
  class CursorRows {
    const conn: Connection
    var phase: CursorPhase
    var columns: Columns
    var buffered: seq<Row>
    var portal: seq<seq<BackendMessage>>

    ghost function Value(): CursorStream
      reads this
    {
      CursorStream(phase, columns, buffered)
    }

    constructor (conn: Connection, columns: Columns, portal: seq<seq<BackendMessage>>)
      ensures this.conn == conn && Value() == CursorStream(Active, columns, []) && this.portal == portal
    {
      this.conn, phase, this.columns, buffered, this.portal := conn, Active, columns, [], portal;
    }

    /** The reading loop of `Cursor::fetch_next` and `CursorStream::next`. */
    method ReadBatch() returns (r: Result<(seq<Row>, Option<string>)>)
      modifies this`columns, conn
      ensures var (result, c) := Collect(Fetching(old(columns), [], None), old(conn.Value()));
              && conn.Value() == c
              && (match result
                  case Ok(reader) => r == Ok((reader.rows, reader.tag)) && columns == reader.columns
                  case Err(failure) => r == Err(failure) && columns == SeenColumns(old(columns), old(conn.unread)))
    {
      var tag: Option<string>, rows: seq<Row> := None, [];
      while true
        invariant Collect(Fetching(old(columns), [], None), old(conn.Value()))
               == Collect(Fetching(columns, rows, tag), conn.Value())
        invariant SeenColumns(old(columns), old(conn.unread)) == SeenColumns(columns, conn.unread)
        decreases |conn.unread|
      {
        var msg := conn.ReadMessage();
        if msg.None? {
          return Err(UnexpectedEof);
        }
        var m := msg.value;
        var handled := conn.HandleAsyncMessage(m);
        if handled {
          continue;
        }
        ghost var before := Fetching(columns, rows, tag);
        match m {
          case RowDescription(cs) =>
            columns := cs;
          case DataRow(values) =>
            rows := rows + [Row(columns, values)];
          case CommandComplete(t) =>
            tag := Some(t);
          case ReadyForQuery(status) =>
            conn.BecomeReady(status);
            return Ok((rows, tag));
          case ErrorResponse(error) =>
            var failure := conn.Fail(error);
            return Err(failure);
          case _ =>
        }
        assert Fetching(columns, rows, tag) == StepReader(before, m);
      }
    }

    /** `Cursor::fetch_next` past its `done` check; the batch and whether the command completed. */
    method FetchBatch() returns (r: Result<(seq<Row>, Option<string>)>)
      modifies this`columns, this`portal, conn
      ensures var (result, c) := Fetch(old(columns), old(conn.Value()), Answer(old(portal)));
              && conn.Value() == c
              && (match result
                  case Ok(reader) => r == Ok((reader.rows, reader.tag)) && columns == reader.columns
                  case Err(failure) => r == Err(failure))
      ensures if TransitionAllowed(old(conn.state), ActiveExtendedQuery)
              then portal == Rest(old(portal))
                   && (r.Err? ==> columns == SeenColumns(old(columns), old(conn.unread) + Answer(old(portal))))
              else portal == old(portal) && columns == old(columns)
    {
      var ok := conn.Transition(ActiveExtendedQuery);
      if !ok {
        return Err(InvalidState);
      }
      conn.Write(Answer(portal));
      portal := Rest(portal);
      r := ReadBatch();
    }

    method PopRow() returns (item: Item)
      modifies this
      ensures (item, Value()) == Pop(old(Value())) && portal == old(portal)
    {
      var n := |buffered|;
      if n == 0 {
        return End;
      }
      item := Yield(buffered[n - 1]);
      buffered := buffered[..n - 1];
    }

    method Next() returns (item: Item)
      modifies this, conn
      ensures var (item', cs, c, portal') := CursorNext(old(Value()), old(conn.Value()), old(portal));
              item == item' && conn.Value() == c && portal == portal' && Value() == cs
    {
      while true
        invariant CursorNext(old(Value()), old(conn.Value()), old(portal)) == CursorNext(Value(), conn.Value(), portal)
        decreases |portal|, |conn.unread|
      {
        if !phase.Active? || buffered != [] {
          item := PopRow();
          return;
        }
        var batch := FetchBatch();
        if batch.Err? {
          if batch.failure.Server? {
            phase := Broken;
          }
          return Fault(batch.failure);
        }
        var (rows, tag) := batch.value;
        if tag.Some? {
          phase := Exhausted(tag.value);
        }
        if rows == [] && phase.Active? {
          continue;
        }
        buffered := Reverse(rows);
        item := PopRow();
        return;
      }
    }

    method Drop()
      modifies conn
      ensures conn.Value() == DropCursor(Value(), old(conn.Value()))
    {
      if phase.Active? {
        conn.needsRecovery := true;
      }
    }
  }
}
