/** What one call on a connection does, as functions of the connection's value.
    `read` is the history of messages taken off the wire and `unread` is what the
    server has sent but no reader has taken yet; sending a command makes the
    server's whole response appear at the end of `unread`. The class in
    Connection.dfy is proved equal to these functions. */
module Engine {
  import opened Basics
  import opened Messages

  datatype ConnectionState =
    | Disconnected | Connecting | StartingUp | Authenticating
    | Idle | ActiveSimpleQuery | ActiveExtendedQuery
    | CopyIn | CopyOut | Streaming | Closing | Closed

  datatype Conn = Conn(
    state: ConnectionState,
    needsRecovery: bool,
    status: TransactionStatus,
    inTransaction: bool,
    queue: seq<Notification>,
    params: map<string, string>,
    read: seq<BackendMessage>,
    unread: seq<BackendMessage>)

  datatype Failure = Server(error: ServerError) | UnexpectedEof | InvalidState

  datatype Result<+T> = Ok(value: T) | Err(failure: Failure)

  // ----- single messages --------------------------------------------------

  function Take(c: Conn): (r: Conn)
    requires c.unread != []
  {
    c.(read := c.read + [c.unread[0]], unread := c.unread[1..])
  }

  /** `handle_async_message` on an asynchronous message. */
  function Absorb(c: Conn, m: BackendMessage): Conn {
    c.(queue := c.queue + NotificationsOf(m), params := ParametersAfter(c.params, m))
  }

  function Ready(c: Conn, status: char): Conn {
    c.(status := StatusOf(status), state := Idle)
  }

  predicate TransitionAllowed(from: ConnectionState, to: ConnectionState) {
    || to == Closed
    || (from == Idle && to in {ActiveSimpleQuery, ActiveExtendedQuery, CopyIn, CopyOut, Streaming, Closing})
    || (to == Idle && from in {ActiveSimpleQuery, ActiveExtendedQuery, CopyIn, CopyOut, Streaming})
  }

  function Send(c: Conn, response: seq<BackendMessage>): Conn {
    c.(unread := c.unread + response)
  }

  // ----- resynchronisation ------------------------------------------------

  /** `read_until_ready`: true when ReadyForQuery was reached. */
  function ReadUntilReady(c: Conn): (out: (bool, Conn))
    ensures |out.1.unread| <= |c.unread|
    decreases |c.unread|
  {
    if c.unread == [] then (false, c)
    else
      var m := c.unread[0];
      if m.ReadyForQuery? then
        (true, Ready(Take(c), m.status).(inTransaction := StatusOf(m.status) != NoTransaction))
      else if IsAsync(m) then ReadUntilReady(Absorb(Take(c), m))
      else ReadUntilReady(Take(c))
  }

  /** The tail of every reader after an ErrorResponse. */
  function FailWith(c: Conn, error: ServerError): (Failure, Conn) {
    var (ready, c') := ReadUntilReady(c);
    if ready then (Server(error), c') else (UnexpectedEof, c')
  }

  function Recover(c: Conn): (bool, Conn) {
    if c.needsRecovery then
      var (ready, c') := ReadUntilReady(c);
      (ready, if ready then c'.(needsRecovery := false) else c')
    else (true, c)
  }

  /** The end of `reconnect`: the replacement's transport, parameters, state and status are taken over, both
      queues of notifications are dropped, and the tracked session stays. */
  function TakeOver(c: Conn, replacement: Conn): Conn {
    replacement.(queue := [], needsRecovery := false, inTransaction := c.inTransaction)
  }

  // ----- readers that collect until ReadyForQuery --------------------------

  datatype PipelineOp = QueryOp | ExecuteOp
  datatype PipelineResult = Queried(result: QueryResult) | Executed(tag: string)

  /** The local variables of a reading loop. */
  datatype Reader =
    | Batch(results: seq<QueryResult>, described: Option<Columns>, rows: seq<Row>)
    | Extended(described: Option<Columns>, rows: seq<Row>, tag: Option<string>)
    | Pipelined(ops: seq<PipelineOp>, pipelineResults: seq<PipelineResult>, current: nat,
                described: Option<Columns>, rows: seq<Row>)
    | Preparing(oids: seq<int>, columns: Columns)
    | Fetching(columns: Columns, rows: seq<Row>, tag: Option<string>)
    | Discarding

  function OrEmpty(columns: Option<Columns>): Columns {
    if columns.Some? then columns.value else []
  }

  function Digits(n: nat): string {
    if n < 10 then [('0' as int + n) as char] else Digits(n / 10) + Digits(n % 10)
  }

  /** Column metadata invented when rows arrive without a RowDescription. */
  function Synthetic(width: nat): Columns {
    seq(width, i requires 0 <= i < width => FieldDescription("col" + Digits(i), 0, 0, 0, -1, -1, 1))
  }

  /** One loop iteration on a message that is neither asynchronous, an error nor ReadyForQuery. */
  function StepReader(r: Reader, m: BackendMessage): Reader {
    match r
    case Batch(results, described, rows) => (
      match m
      case RowDescription(columns) => Batch(results, Some(columns), [])
      case DataRow(values) => Batch(results, described, rows + [Row(OrEmpty(described), values)])
      case CommandComplete(tag) => Batch(results + [QueryResult(rows, tag, OrEmpty(described))], None, [])
      case EmptyQueryResponse => Batch(results + [QueryResult([], "", [])], described, rows)
      case _ => r
    )
    case Extended(described, rows, tag) => (
      match m
      case RowDescription(columns) => Extended(Some(columns), rows, tag)
      case DataRow(values) =>
        var columns := if described.Some? then described.value else Synthetic(|values|);
        Extended(Some(columns), rows + [Row(columns, values)], tag)
      case CommandComplete(t) => Extended(described, rows, Some(t))
      case EmptyQueryResponse => Extended(described, rows, Some(""))
      case _ => r
    )
    case Pipelined(ops, results, current, described, rows) => (
      match m
      case RowDescription(columns) => Pipelined(ops, results, current, Some(columns), rows)
      case DataRow(values) => Pipelined(ops, results, current, described, rows + [Row(OrEmpty(described), values)])
      case CommandComplete(tag) =>
        if current < |ops| && ops[current] == QueryOp then
          Pipelined(ops, results + [Queried(QueryResult(rows, tag, OrEmpty(described)))], current + 1, None, [])
        else if current < |ops| then
          Pipelined(ops, results + [Executed(tag)], current + 1, described, rows)
        else Pipelined(ops, results, current + 1, described, rows)
      case EmptyQueryResponse =>
        if current < |ops| && ops[current] == QueryOp then
          Pipelined(ops, results + [Queried(QueryResult([], "", []))], current + 1, described, rows)
        else if current < |ops| then
          Pipelined(ops, results + [Executed("")], current + 1, described, rows)
        else Pipelined(ops, results, current + 1, described, rows)
      case _ => r
    )
    case Preparing(oids, columns) => (
      match m
      case ParameterDescription(more) => Preparing(oids + more, columns)
      case RowDescription(cs) => Preparing(oids, cs)
      case _ => r
    )
    case Fetching(columns, rows, tag) => (
      match m
      case RowDescription(cs) => Fetching(cs, rows, tag)
      case DataRow(values) => Fetching(columns, rows + [Row(columns, values)], tag)
      case CommandComplete(t) => Fetching(columns, rows, Some(t))
      case _ => r
    )
    case Discarding => r
  }

  predicate SameLoop(r: Reader, r': Reader) {
    match r
    case Batch(_, _, _) => r'.Batch?
    case Extended(_, _, _) => r'.Extended?
    case Pipelined(_, _, _, _, _) => r'.Pipelined?
    case Preparing(_, _) => r'.Preparing?
    case Fetching(_, _, _) => r'.Fetching?
    case Discarding => r'.Discarding?
  }

  /** The loop shared by `batch_execute`, `read_extended_query_result`, `Pipeline::finish`,
      `prepare`, `fetch_next`, `close_statement` and the opening and closing of portals. */
  function Collect(r: Reader, c: Conn): (out: (Result<Reader>, Conn))
    ensures |out.1.unread| <= |c.unread|
    ensures out.0.Ok? ==> |out.1.unread| < |c.unread| && SameLoop(r, out.0.value)
    decreases |c.unread|
  {
    if c.unread == [] then (Err(UnexpectedEof), c)
    else
      var m := c.unread[0];
      if IsAsync(m) then Collect(r, Absorb(Take(c), m))
      else if m.ErrorResponse? then
        var (failure, c') := FailWith(Take(c), m.error);
        (Err(failure), c')
      else if m.ReadyForQuery? then (Ok(r), Ready(Take(c), m.status))
      else Collect(StepReader(r, m), Take(c))
  }

  function Extract(r: Reader): (q: QueryResult)
    requires r.Extended?
  {
    QueryResult(r.rows, if r.tag.Some? then r.tag.value else "", OrEmpty(r.described))
  }

  /** Write a command and collect its response: the transition is checked first. */
  function Command(c: Conn, active: ConnectionState, r: Reader, response: seq<BackendMessage>): (Result<Reader>, Conn) {
    if !TransitionAllowed(c.state, active) then (Err(InvalidState), c)
    else Collect(r, Send(c.(state := active), response))
  }

  /** `query_params` and `query_prepared` put the connection back to Idle whatever the reader returned. */
  function QueryExtended(c: Conn, response: seq<BackendMessage>): (Result<Reader>, Conn) {
    if !TransitionAllowed(c.state, ActiveExtendedQuery) then (Err(InvalidState), c)
    else
      var (result, c') := Command(c, ActiveExtendedQuery, Extended(None, [], None), response);
      (result, c'.(state := Idle))
  }

  // ----- row streams ---------------------------------------------------------

  datatype Phase =
    | WaitingForDescription
    | ReceivingRows
    | Finishing(tag: string)
    | Done(tag: string)
    | Error

  datatype Stream = Stream(phase: Phase, columns: Option<Columns>)

  datatype Item = Yield(row: Row) | End | Fault(failure: Failure)

  predicate IsDone(s: Stream) { s.phase.Done? || s.phase.Error? }

  /** What `next` does with one synchronous message that is not an error and ends neither a row
      nor the stream: the phase and columns it moves to. */
  function StepStream(s: Stream, m: BackendMessage): Stream {
    match s.phase
    case WaitingForDescription => (
      match m
      case RowDescription(columns) => Stream(ReceivingRows, Some(columns))
      case CommandComplete(tag) => s.(phase := Finishing(tag))
      case EmptyQueryResponse => s.(phase := Finishing(""))
      case _ => s
    )
    case ReceivingRows => if m.CommandComplete? then s.(phase := Finishing(m.tag)) else s
    case _ => s
  }

  /** `RowStream::next`. */
  function StreamNext(s: Stream, c: Conn): (out: (Item, Stream, Conn))
    ensures |out.2.unread| <= |c.unread|
    ensures out.0.Yield? ==> |out.2.unread| < |c.unread|
    decreases |c.unread|
  {
    if IsDone(s) then (End, s, c)
    else if c.unread == [] then (Fault(UnexpectedEof), s, c)
    else
      var m := c.unread[0];
      if IsAsync(m) then StreamNext(s, Absorb(Take(c), m))
      else if m.ErrorResponse? then
        var (failure, c') := FailWith(Take(c), m.error);
        (Fault(failure), if failure.Server? then s.(phase := Error) else s, c')
      else if s.phase.ReceivingRows? && m.DataRow? then
        (Yield(Row(OrEmpty(s.columns), m.values)), s, Take(c))
      else if s.phase.Finishing? && m.ReadyForQuery? then
        (End, s.(phase := Done(s.phase.tag)), Ready(Take(c), m.status))
      else StreamNext(StepStream(s, m), Take(c))
  }

  /** `Drop for RowStream`. */
  function DropStream(s: Stream, c: Conn): Conn {
    if IsDone(s) then c else c.(needsRecovery := true)
  }

  /** `query_stream` and `query_prepared_stream` up to the moment the stream exists. */
  function OpenStream(c: Conn, response: seq<BackendMessage>): (Result<()>, Conn) {
    var (recovered, c1) := Recover(c);
    if !recovered then (Err(UnexpectedEof), c1)
    else if !TransitionAllowed(c1.state, Streaming) then (Err(InvalidState), c1)
    else (Ok(()), Send(c1.(state := Streaming), response))
  }

  /** The preamble loop of `query_params_stream`. */
  function Preamble(c: Conn): (Result<Stream>, Conn)
    decreases |c.unread|
  {
    if c.unread == [] then (Err(UnexpectedEof), c)
    else
      var m := c.unread[0];
      if IsAsync(m) then Preamble(Absorb(Take(c), m))
      else if m.RowDescription? then (Ok(Stream(ReceivingRows, Some(m.columns))), Take(c))
      else if m.NoData? || m.CommandComplete? || m.EmptyQueryResponse? then
        (Ok(Stream(ReceivingRows, None)), Take(c))
      else if m.ReadyForQuery? then
        (Ok(Stream(ReceivingRows, None)), Take(c).(status := StatusOf(m.status)))
      else if m.ErrorResponse? then
        var (failure, c') := FailWith(Take(c), m.error);
        (Err(failure), c')
      else Preamble(Take(c))
  }

  function OpenParamsStream(c: Conn, response: seq<BackendMessage>): (Result<Stream>, Conn) {
    var (started, c1) := OpenStream(c, response);
    if started.Err? then (Err(started.failure), c1) else Preamble(c1)
  }

  /** `next` until it stops yielding rows, collecting them. */
  function Drain(s: Stream, c: Conn, rows: seq<Row>): (Result<(Stream, seq<Row>)>, Stream, Conn)
    decreases |c.unread|
  {
    var (item, s', c') := StreamNext(s, c);
    match item
    case Yield(row) => Drain(s', c', rows + [row])
    case End => (Ok((s', rows)), s', c')
    case Fault(failure) => (Err(failure), s', c')
  }

  /** `query`: open a simple stream, drain it, and let it drop. */
  function Query(c: Conn, response: seq<BackendMessage>): (Result<QueryResult>, Conn) {
    var (started, c1) := OpenStream(c, response);
    if started.Err? then (Err(started.failure), c1)
    else
      var (drained, s, c2) := Drain(Stream(WaitingForDescription, None), c1, []);
      var c3 := DropStream(s, c2);
      if drained.Err? then (Err(drained.failure), c3)
      else (Ok(QueryResult(drained.value.1, if s.phase.Done? then s.phase.tag else "", OrEmpty(s.columns))), c3)
  }

  /** `query_cursor` up to the open portal. */
  function OpenCursor(c: Conn, begun: seq<BackendMessage>, response: seq<BackendMessage>): (Result<Columns>, Conn) {
    var (begin, c1) := if c.status == NoTransaction then Query(c, begun) else (Ok(QueryResult([], "", [])), c);
    if begin.Err? then (Err(begin.failure), c1)
    else
      var (shape, c2) := Command(c1, ActiveExtendedQuery, Preparing([], []), response);
      (if shape.Ok? then Ok(shape.value.columns) else Err(shape.failure), c2)
  }

  /** `Cursor::close`: the portal, then a COMMIT if the cursor began the transaction. */
  function CloseCursor(c: Conn, owns: bool, closed: seq<BackendMessage>, committed: seq<BackendMessage>)
    : (Result<()>, Conn)
  {
    var (close, c1) := Command(c, ActiveExtendedQuery, Discarding, closed);
    if close.Err? then (Err(close.failure), c1)
    else if !owns then (Ok(()), c1)
    else
      var (commit, c2) := Query(c1, committed);
      (if commit.Ok? then Ok(()) else Err(commit.failure), c2)
  }

  /** `reset`: a ROLLBACK if a transaction is open, failed or not, then DISCARD ALL. */
  function Reset(c: Conn, rolledBack: seq<BackendMessage>, discarded: seq<BackendMessage>): (Result<()>, Conn) {
    var (rollback, c1) :=
      if c.status == FailedTransaction || c.status == InTransaction then Query(c, rolledBack)
      else (Ok(QueryResult([], "", [])), c);
    if rollback.Err? then (Err(rollback.failure), c1)
    else
      var (discard, c2) := Query(c1, discarded);
      if discard.Err? then (Err(discard.failure), c2) else (Ok(()), c2.(inTransaction := false))
  }

  // ----- notifications --------------------------------------------------------

  function DrainNotifications(c: Conn): (seq<Notification>, Conn) {
    (c.queue, c.(queue := []))
  }

  /** The reading loop of `wait_for_notification` on targets without a timeout race. */
  function WaitCycle(c: Conn): (Result<Option<Notification>>, Conn)
    decreases |c.unread|
  {
    if c.unread == [] then (Err(UnexpectedEof), c)
    else
      var m := c.unread[0];
      match m
      case NotificationResponse(n) =>
        var (ready, c') := ReadUntilReady(Take(c));
        (if ready then Ok(Some(n)) else Err(UnexpectedEof), c')
      case ReadyForQuery(status) =>
        var c' := Ready(Take(c), status);
        if c'.queue == [] then (Ok(None), c') else (Ok(Some(c'.queue[0])), c'.(queue := c'.queue[1..]))
      case ParameterStatus(_, _) => WaitCycle(Absorb(Take(c), m))
      case _ => WaitCycle(Take(c))
  }

  function WaitForNotification(c: Conn, zeroTimeout: bool, response: seq<BackendMessage>)
    : (Result<Option<Notification>>, Conn)
  {
    if c.queue != [] then (Ok(Some(c.queue[0])), c.(queue := c.queue[1..]))
    else if zeroTimeout then (Ok(None), c)
    else if !TransitionAllowed(c.state, ActiveSimpleQuery) then (Err(InvalidState), c)
    else WaitCycle(Send(c.(state := ActiveSimpleQuery), response))
  }

  /** `read_next_notification_blocking`; `deadline` says whether a timeout bounds the wait, in which
      case everything in `unread` arrived before it struck. */
  function ReadNextNotification(c: Conn, deadline: bool): (Result<Option<Notification>>, Conn)
    decreases |c.unread|
  {
    if c.unread == [] then (if deadline then Ok(None) else Err(UnexpectedEof), c)
    else
      var m := c.unread[0];
      match m
      case NotificationResponse(n) => (Ok(Some(n)), Take(c))
      case ReadyForQuery(status) => ReadNextNotification(Ready(Take(c), status), deadline)
      case ParameterStatus(_, _) => ReadNextNotification(Absorb(Take(c), m), deadline)
      case NoticeResponse(_) => ReadNextNotification(Take(c), deadline)
      case EmptyQueryResponse => ReadNextNotification(Take(c), deadline)
      case _ => (Err(InvalidState), Take(c))
  }

  /** `wait_for_notification` on native builds with a runtime timeout. */
  function AwaitNotification(c: Conn, zeroTimeout: bool, deadline: bool): (Result<Option<Notification>>, Conn) {
    if c.queue != [] then (Ok(Some(c.queue[0])), c.(queue := c.queue[1..]))
    else if zeroTimeout then (Ok(None), c)
    else if c.state != Idle then (Err(InvalidState), c)
    else ReadNextNotification(c, deadline)
  }
}
