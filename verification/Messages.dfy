/** The vocabulary of the wire protocol: backend messages taken as already
    decoded values, and what a reader may do with the three kinds of message
    that a server can interleave anywhere in a response. */
module Messages {

  import opened Basics

  datatype FieldDescription = FieldDescription(
    name: string, tableOid: int, columnId: int, typeOid: int,
    typeSize: int, typeModifier: int, format: int)

  type Columns = seq<FieldDescription>
  type Values = seq<Option<seq<Byte>>>

  datatype Row = Row(columns: Columns, values: Values)
  datatype QueryResult = QueryResult(rows: seq<Row>, tag: string, columns: Columns)
  datatype ServerError = ServerError(code: string, message: string)
  datatype Notification = Notification(processId: int, channel: string, payload: string)

  datatype BackendMessage =
    | RowDescription(columns: Columns)
    | DataRow(values: Values)
    | CommandComplete(tag: string)
    | EmptyQueryResponse
    | ErrorResponse(error: ServerError)
    | ReadyForQuery(status: char)
    | ParseComplete
    | BindComplete
    | CloseComplete
    | NoData
    | ParameterDescription(oids: seq<int>)
    | PortalSuspended
    | CopyOutResponse
    | CopyData(data: seq<Byte>)
    | CopyDone
    | NotificationResponse(notification: Notification)
    | NoticeResponse(text: string)
    | ParameterStatus(name: string, value: string)

  datatype TransactionStatus = NoTransaction | InTransaction | FailedTransaction

  /** `TransactionStatus::from_u8(..).unwrap_or(Idle)`. */
  function StatusOf(status: char): TransactionStatus {
    if status == 'T' then InTransaction
    else if status == 'E' then FailedTransaction
    else NoTransaction
  }

  /** Messages that `handle_async_message` consumes on behalf of every reader. */
  predicate IsAsync(m: BackendMessage) {
    m.NotificationResponse? || m.NoticeResponse? || m.ParameterStatus?
  }

  predicate AllAsync(ms: seq<BackendMessage>) {
    forall i | 0 <= i < |ms| :: IsAsync(ms[i])
  }

  /** The notifications of a message sequence, in order. */
  function Notifications(ms: seq<BackendMessage>): seq<Notification> {
    if ms == [] then []
    else Notifications(ms[..|ms| - 1]) + NotificationsOf(ms[|ms| - 1])
  }

  function NotificationsOf(m: BackendMessage): seq<Notification> {
    if m.NotificationResponse? then [m.notification] else []
  }

  /** The parameter table after a message sequence: the last writer of a name wins. */
  function Parameters(initial: map<string, string>, ms: seq<BackendMessage>): map<string, string> {
    if ms == [] then initial
    else ParametersAfter(Parameters(initial, ms[..|ms| - 1]), ms[|ms| - 1])
  }

  function ParametersAfter(params: map<string, string>, m: BackendMessage): map<string, string> {
    if m.ParameterStatus? then params[m.name := m.value] else params
  }

  /** How many responses are still owed: the number of unread ReadyForQuery messages. */
  function ReadyCount(ms: seq<BackendMessage>): nat {
    if ms == [] then 0 else (if ms[0].ReadyForQuery? then 1 else 0) + ReadyCount(ms[1..])
  }

  // ----- the transaction status reported ------------------------------------------------------

  /** The status that the last ReadyForQuery of a sequence reports, or the one at its start. */
  function StatusAfter(start: TransactionStatus, ms: seq<BackendMessage>): TransactionStatus {
    if ms == [] then start
    else
      var m := ms[|ms| - 1];
      if !m.ReadyForQuery? then StatusAfter(start, ms[..|ms| - 1])
      else if m.status == 'T' then InTransaction
      else if m.status == 'E' then FailedTransaction
      else NoTransaction
  }

  /** The status before the last ReadyForQuery of a sequence. */
  function PreviousStatus(start: TransactionStatus, ms: seq<BackendMessage>): TransactionStatus {
    if ms == [] then start
    else if ms[|ms| - 1].ReadyForQuery? then StatusAfter(start, ms[..|ms| - 1])
    else PreviousStatus(start, ms[..|ms| - 1])
  }

  /** What a connection has just started up with. */
  datatype Startup = Startup(params: map<string, string>, status: TransactionStatus)

  // ----- what the folds mean ------------------------------------------------------------------

  lemma {:induction false} NotificationsConcat(a: seq<BackendMessage>, b: seq<BackendMessage>)
    ensures Notifications(a + b) == Notifications(a) + Notifications(b)
    decreases |b|
  {
    if b == [] {
      assert a + b == a;
    } else {
      var n := |b| - 1;
      NotificationsConcat(a, b[..n]);
      assert (a + b)[..|a + b| - 1] == a + b[..n];
      Assoc(Notifications(a), Notifications(b[..n]), NotificationsOf(b[n]));
    }
  }

  /** The notifications of a sequence are those of its NotificationResponses, one each, where they stand, and no
      others. */
  lemma NotificationsAreResponses(a: seq<BackendMessage>, m: BackendMessage, b: seq<BackendMessage>)
    ensures m.NotificationResponse? ==>
              Notifications(a + ([m] + b)) == Notifications(a) + ([m.notification] + Notifications(b))
    ensures !m.NotificationResponse? ==> Notifications(a + ([m] + b)) == Notifications(a) + Notifications(b)
  {
    NotificationsConcat(a, [m] + b);
    NotificationsConcat([m], b);
    assert Notifications([m][..0]) == [];
    assert Notifications([m]) == if m.NotificationResponse? then [m.notification] else [];
    assert [] + Notifications(b) == Notifications(b);
  }

  /** `i` is the last message of `ms` that reports parameter `name`. */
  predicate LastReport(ms: seq<BackendMessage>, i: nat, name: string) {
    && i < |ms| && ms[i].ParameterStatus? && ms[i].name == name
    && forall j | i < j < |ms| && ms[j].ParameterStatus? :: ms[j].name != name
  }

  /** The parameter table after a sequence: of each parameter the value reported last, or what was there before. */
  lemma {:induction false} ParametersAreLastReports(
    initial: map<string, string>, ms: seq<BackendMessage>, name: string, i: nat)
    ensures LastReport(ms, i, name) ==>
              name in Parameters(initial, ms) && Parameters(initial, ms)[name] == ms[i].value
    ensures (forall j | 0 <= j < |ms| && ms[j].ParameterStatus? :: ms[j].name != name) ==>
              && (name in Parameters(initial, ms) <==> name in initial)
              && (name in initial ==> Parameters(initial, ms)[name] == initial[name])
  {
    if ms != [] {
      var n := |ms| - 1;
      ParametersAreLastReports(initial, ms[..n], name, i);
      if LastReport(ms, i, name) && i < n {
        assert LastReport(ms[..n], i, name);
      }
    }
  }
}
