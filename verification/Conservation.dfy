/** Conservation over whole runs: what was handed out, followed by what is still queued, is what came
    off the wire, in order and each once; and what came off the wire, followed by what is unread, is
    what the server sent. */
module Conservation {
  import opened Basics
  import opened Messages
  import opened Grammar
  import opened Engine
  import opened SyncDebt
  import opened Statuses

  /** Notifications handed to callers, the parameter table at the start, and everything sent so far. */
  datatype Account = Account(handed: seq<Notification>, initial: map<string, string>, sent: seq<BackendMessage>)

  predicate Accounted(a: Account, c: Conn) {
    && a.handed + c.queue == Notifications(c.read)
    && c.params == Parameters(a.initial, c.read)
    && c.read + c.unread == a.sent
  }

  function Hand(a: Account, result: Result<Option<Notification>>): Account {
    if result.Ok? && result.value.Some? then a.(handed := a.handed + [result.value.value]) else a
  }

  lemma HandIs(a: Account, result: Result<Option<Notification>>)
    ensures Hand(a, result) == a.(handed := a.handed + Handed(result))
  {
    assert a.handed + [] == a.handed;
  }

  /** An asynchronous message is read and handled. */
  lemma AbsorbAccounts(a: Account, c: Conn)
    requires Accounted(a, c) && c.unread != []
    ensures Accounted(a, Absorb(Take(c), c.unread[0]))
  {
    var m := c.unread[0];
    TakenAppends(c);
    Assoc(a.handed, c.queue, NotificationsOf(m));
    Assoc(c.read, [m], c.unread[1..]);
  }

  /** A message that carries neither a notification nor a parameter is read. */
  lemma SkipAccounts(a: Account, c: Conn)
    requires Accounted(a, c) && c.unread != []
    requires !c.unread[0].NotificationResponse? && !c.unread[0].ParameterStatus?
    ensures Accounted(a, Take(c))
  {
    TakenAppends(c);
    Assoc(c.read, [c.unread[0]], c.unread[1..]);
    assert Notifications(c.read) + [] == Notifications(c.read);
  }

  /** A notification is read and handed over directly. */
  lemma HandAccounts(a: Account, c: Conn)
    requires Accounted(a, c) && c.unread != [] && c.unread[0].NotificationResponse? && c.queue == []
    ensures Accounted(a.(handed := a.handed + [c.unread[0].notification]), Take(c))
  {
    TakenAppends(c);
    Assoc(c.read, [c.unread[0]], c.unread[1..]);
    assert a.handed + [] == a.handed;
    assert (a.handed + [c.unread[0].notification]) + [] == a.handed + [c.unread[0].notification];
  }

  lemma TakenAppends(c: Conn)
    requires c.unread != []
    ensures var m := c.unread[0];
            && c.unread == [m] + c.unread[1..]
            && Notifications(c.read + [m]) == Notifications(c.read) + NotificationsOf(m)
            && forall p: map<string, string> :: Parameters(p, c.read + [m]) == ParametersAfter(Parameters(p, c.read), m)
  {
    var read := c.read + [c.unread[0]];
    assert read[..|read| - 1] == c.read;
  }

  lemma {:induction false} ReadUntilReadyAccounts(a: Account, c: Conn)
    requires Accounted(a, c)
    ensures Accounted(a, ReadUntilReady(c).1)
    decreases |c.unread|
  {
    if c.unread != [] {
      var m := c.unread[0];
      if IsAsync(m) {
        AbsorbAccounts(a, c);
        ReadUntilReadyAccounts(a, Absorb(Take(c), m));
      } else {
        SkipAccounts(a, c);
        if !m.ReadyForQuery? {
          ReadUntilReadyAccounts(a, Take(c));
        }
      }
    }
  }

  lemma {:induction false} CollectAccounts(a: Account, r: Reader, c: Conn)
    requires Accounted(a, c)
    ensures Accounted(a, Collect(r, c).1)
    decreases |c.unread|
  {
    if c.unread != [] {
      var m := c.unread[0];
      if IsAsync(m) {
        AbsorbAccounts(a, c);
        CollectAccounts(a, r, Absorb(Take(c), m));
      } else {
        SkipAccounts(a, c);
        if m.ErrorResponse? {
          ReadUntilReadyAccounts(a, Take(c));
        } else if !m.ReadyForQuery? {
          CollectAccounts(a, StepReader(r, m), Take(c));
        }
      }
    }
  }

  lemma {:induction false} StreamNextAccounts(a: Account, s: Stream, c: Conn)
    requires Accounted(a, c)
    ensures Accounted(a, StreamNext(s, c).2)
    decreases |c.unread|
  {
    if !IsDone(s) && c.unread != [] {
      var m := c.unread[0];
      if IsAsync(m) {
        AbsorbAccounts(a, c);
        StreamNextAccounts(a, s, Absorb(Take(c), m));
      } else {
        SkipAccounts(a, c);
        if m.ErrorResponse? {
          ReadUntilReadyAccounts(a, Take(c));
        } else if !(s.phase.ReceivingRows? && m.DataRow?) && !(s.phase.Finishing? && m.ReadyForQuery?) {
          StreamNextAccounts(a, StepStream(s, m), Take(c));
        }
      }
    }
  }

  lemma {:induction false} DrainAccounts(a: Account, s: Stream, c: Conn, rows: seq<Row>)
    requires Accounted(a, c)
    ensures Accounted(a, Drain(s, c, rows).2)
    decreases |c.unread|
  {
    var (item, s', c') := StreamNext(s, c);
    StreamNextAccounts(a, s, c);
    if item.Yield? {
      DrainAccounts(a, s', c', rows + [item.row]);
    }
  }

  lemma {:induction false} PreambleAccounts(a: Account, c: Conn)
    requires Accounted(a, c)
    ensures Accounted(a, Preamble(c).1)
    decreases |c.unread|
  {
    if c.unread != [] {
      var m := c.unread[0];
      if IsAsync(m) {
        AbsorbAccounts(a, c);
        PreambleAccounts(a, Absorb(Take(c), m));
      } else {
        SkipAccounts(a, c);
        if m.ErrorResponse? {
          ReadUntilReadyAccounts(a, Take(c));
        } else if !(m.RowDescription? || m.NoData? || m.CommandComplete? || m.EmptyQueryResponse? || m.ReadyForQuery?) {
          PreambleAccounts(a, Take(c));
        }
      }
    }
  }

  predicate HandsOver(a: Account, out: (Result<Option<Notification>>, Conn)) { Accounted(Hand(a, out.0), out.1) }

  lemma WaitHandsOver(a: Account, c: Conn)
    requires Accounted(a, c) && c.queue == [] && c.unread != [] && c.unread[0].NotificationResponse?
    requires WaitCycle(c).0.Ok?
    ensures HandsOver(a, WaitCycle(c))
  {
    var b := a.(handed := a.handed + [c.unread[0].notification]);
    HandAccounts(a, c);
    ReadUntilReadyAccounts(b, Take(c));
    assert Hand(a, WaitCycle(c).0) == b;
  }

  lemma WaitEndsEmpty(a: Account, c: Conn)
    requires Accounted(a, c) && c.queue == [] && c.unread != [] && c.unread[0].ReadyForQuery?
    ensures HandsOver(a, WaitCycle(c))
  {
    SkipAccounts(a, c);
    assert WaitCycle(c) == (Ok(None), Ready(Take(c), c.unread[0].status));
  }

  /** What waiting goes on with after a message it does not stop at. */
  function WaitedOn(c: Conn): (next: Conn)
    requires c.unread != []
    ensures next.unread == c.unread[1..]
  {
    if c.unread[0].ParameterStatus? then Absorb(Take(c), c.unread[0]) else Take(c)
  }

  lemma WaitedOnAccounts(a: Account, c: Conn)
    requires Accounted(a, c) && c.queue == [] && c.unread != []
    requires !c.unread[0].NotificationResponse? && !c.unread[0].ReadyForQuery?
    ensures Accounted(a, WaitedOn(c)) && WaitedOn(c).queue == [] && WaitCycle(c) == WaitCycle(WaitedOn(c))
  {
    if c.unread[0].ParameterStatus? {
      AbsorbAccounts(a, c);
    } else {
      SkipAccounts(a, c);
    }
  }

  /** Waiting by an empty query hands over exactly the notification it removes from the account. */
  lemma {:induction false} WaitCycleAccounts(a: Account, c: Conn)
    requires Accounted(a, c) && c.queue == [] && WaitCycle(c).0.Ok?
    ensures HandsOver(a, WaitCycle(c))
    decreases |c.unread|
  {
    if c.unread[0].NotificationResponse? {
      WaitHandsOver(a, c);
    } else if c.unread[0].ReadyForQuery? {
      WaitEndsEmpty(a, c);
    } else {
      WaitedOnAccounts(a, c);
      WaitCycleAccounts(a, WaitedOn(c));
    }
  }

  lemma LostNotification(a: Account, c: Conn)
    requires Accounted(a, c) && c.queue == [] && c.unread != [] && c.unread[0].NotificationResponse?
    ensures !Accounted(a, ReadUntilReady(Take(c)).1)
  {
    var b := a.(handed := a.handed + [c.unread[0].notification]);
    HandAccounts(a, c);
    ReadUntilReadyAccounts(b, Take(c));
    var c' := ReadUntilReady(Take(c)).1;
    assert |b.handed + c'.queue| > |a.handed + c'.queue|;
  }

  predicate Silent(ms: seq<BackendMessage>) {
    ms == [] || (!ms[0].NotificationResponse? && Silent(ms[1..]))
  }

  /** Waiting fails exactly when the stream ends before a ReadyForQuery. */
  lemma {:induction false} WaitCycleFailsIff(c: Conn)
    ensures WaitCycle(c).0.Err? <==> ReadyCount(c.unread) == 0
    decreases |c.unread|
  {
    if c.unread != [] {
      var m := c.unread[0];
      if m.NotificationResponse? {
        ReadyIsReachedIff(Take(c));
      } else if !m.ReadyForQuery? {
        WaitCycleFailsIff(if m.ParameterStatus? then Absorb(Take(c), m) else Take(c));
      }
    }
  }

  lemma {:induction false} ReadyIsReachedIff(c: Conn)
    ensures ReadUntilReady(c).0 <==> ReadyCount(c.unread) > 0
    decreases |c.unread|
  {
    if c.unread != [] && !c.unread[0].ReadyForQuery? {
      var m := c.unread[0];
      ReadyIsReachedIff(if IsAsync(m) then Absorb(Take(c), m) else Take(c));
    }
  }

  /** The one leak, exactly: when the stream ends before a ReadyForQuery, the account still balances after the
      failing wait if and only if no notification was among the messages left to read. The first one read
      is neither handed over nor queued. */
  lemma {:induction false} WaitCycleLeak(a: Account, c: Conn)
    requires Accounted(a, c) && c.queue == [] && ReadyCount(c.unread) == 0
    ensures WaitCycle(c).0.Err?
    ensures Accounted(a, WaitCycle(c).1) <==> Silent(c.unread)
    decreases |c.unread|
  {
    WaitCycleFailsIff(c);
    if c.unread != [] {
      if c.unread[0].NotificationResponse? {
        LostNotification(a, c);
      } else {
        WaitedOnAccounts(a, c);
        WaitCycleLeak(a, WaitedOn(c));
      }
    }
  }

  /** A notification is all that arrives before the stream ends: it is lost. */
  lemma NotificationIsLost(a: Account, c: Conn, n: Notification)
    requires Accounted(a, c) && c.queue == [] && c.unread == [NotificationResponse(n)]
    ensures WaitCycle(c).0 == Err(UnexpectedEof) && WaitCycle(c).1.queue == []
    ensures Notifications(WaitCycle(c).1.read) == a.handed + [n]
  {
    HandAccounts(a, c);
    assert (a.handed + [n]) + [] == a.handed + [n];
    assert Take(c).unread == [];
  }

  /** What `read_next_notification_blocking` goes on with after a message it does not stop at. */
  function PassedOver(c: Conn): (next: Option<Conn>)
    requires c.unread != []
    ensures next.Some? ==> |next.value.unread| < |c.unread|
  {
    match c.unread[0]
    case ReadyForQuery(status) => Some(Ready(Take(c), status))
    case ParameterStatus(_, _) => Some(Absorb(Take(c), c.unread[0]))
    case NoticeResponse(_) => Some(Take(c))
    case EmptyQueryResponse => Some(Take(c))
    case _ => None
  }

  lemma PassedOverAccounts(a: Account, c: Conn)
    requires Accounted(a, c) && c.queue == [] && c.unread != [] && PassedOver(c).Some?
    ensures Accounted(a, PassedOver(c).value) && PassedOver(c).value.queue == []
  {
    if c.unread[0].ParameterStatus? {
      AbsorbAccounts(a, c);
    } else {
      SkipAccounts(a, c);
    }
  }

  lemma StoppingAccounts(a: Account, c: Conn, deadline: bool)
    requires Accounted(a, c) && c.queue == [] && (c.unread != [] ==> PassedOver(c).None?)
    ensures HandsOver(a, ReadNextNotification(c, deadline))
  {
    if c.unread == [] {
      assert Hand(a, ReadNextNotification(c, deadline).0) == a;
    } else if c.unread[0].NotificationResponse? {
      HandAccounts(a, c);
    } else {
      SkipAccounts(a, c);
    }
  }

  lemma {:induction false} ReadNextNotificationAccounts(a: Account, c: Conn, deadline: bool)
    requires Accounted(a, c) && c.queue == []
    ensures HandsOver(a, ReadNextNotification(c, deadline))
    decreases |c.unread|
  {
    if c.unread == [] || PassedOver(c).None? {
      StoppingAccounts(a, c, deadline);
    } else {
      var next := PassedOver(c).value;
      PassedOverAccounts(a, c);
      ReadNextNotificationAccounts(a, next, deadline);
      assert ReadNextNotification(c, deadline) == ReadNextNotification(next, deadline);
    }
  }

  /** What an action makes servers send; with a replacement comes everything sent on it so far. */
  function SentBy(s: Session, a: Action): seq<BackendMessage>
    requires Enabled(s, a)
  {
    if a.Deliver? then a.late
    else if a.Reconnect? then a.replacement.read + a.replacement.unread
    else if WritesFrom(s, a).None? then []
    else
      match a
      case OpenSimple(response) => response
      case OpenPrepared(_, response) => response
      case OpenParams(response) => response
      case RunQuery(response) => response
      case Collected(_, response) => response
      case WaitByQuery(_, response) => response
      case _ => []
  }

  lemma SendAccounts(a: Account, c: Conn, state: ConnectionState, response: seq<BackendMessage>)
    requires Accounted(a, c)
    ensures Accounted(a.(sent := a.sent + response), Send(c.(state := state), response))
  {
    assert c.read + (c.unread + response) == a.sent + response;
  }

  lemma CommandAccounts(a: Account, c: Conn, active: ConnectionState, r: Reader, response: seq<BackendMessage>)
    requires Accounted(a, c)
    ensures Accounted(if TransitionAllowed(c.state, active) then a.(sent := a.sent + response) else a,
                      Command(c, active, r, response).1)
  {
    if TransitionAllowed(c.state, active) {
      SendAccounts(a, c, active, response);
      CollectAccounts(a.(sent := a.sent + response), r, Send(c.(state := active), response));
    }
  }

  lemma OpenStreamAccounts(a: Account, c: Conn, response: seq<BackendMessage>)
    requires Accounted(a, c)
    ensures Accounted(if WritesStream(c).Some? then a.(sent := a.sent + response) else a, OpenStream(c, response).1)
  {
    ReadUntilReadyAccounts(a, c);
    SendAccounts(a, Recover(c).1, Streaming, response);
  }

  lemma OpenParamsAccounts(a: Account, c: Conn, response: seq<BackendMessage>)
    requires Accounted(a, c)
    ensures Accounted(if WritesStream(c).Some? then a.(sent := a.sent + response) else a,
                      OpenParamsStream(c, response).1)
  {
    OpenStreamAccounts(a, c, response);
    if WritesStream(c).Some? {
      PreambleAccounts(a.(sent := a.sent + response), OpenStream(c, response).1);
    }
  }

  lemma QueryAccounts(a: Account, c: Conn, response: seq<BackendMessage>)
    requires Accounted(a, c)
    ensures Accounted(if WritesStream(c).Some? then a.(sent := a.sent + response) else a, Query(c, response).1)
  {
    OpenStreamAccounts(a, c, response);
    if WritesStream(c).Some? {
      DrainAccounts(a.(sent := a.sent + response), Stream(WaitingForDescription, None), OpenStream(c, response).1, []);
    }
  }

  lemma PopAccounts(a: Account, c: Conn)
    requires Accounted(a, c) && c.queue != []
    ensures Accounted(a.(handed := a.handed + [c.queue[0]]), c.(queue := c.queue[1..]))
    ensures Accounted(a.(handed := a.handed + c.queue), c.(queue := []))
  {
    assert (a.handed + [c.queue[0]]) + c.queue[1..] == a.handed + c.queue;
    assert (a.handed + c.queue) + [] == a.handed + c.queue;
  }

  lemma WaitAccounts(a: Account, c: Conn, zero: bool, response: seq<BackendMessage>)
    requires Accounted(a, c) && (c.state == Idle ==> AllAsync(c.unread)) && Conforms(SimpleStart, response)
    ensures var (result, c') := WaitForNotification(c, zero, response);
            var writes := c.queue == [] && !zero && TransitionAllowed(c.state, ActiveSimpleQuery);
            Accounted(Hand(if writes then a.(sent := a.sent + response) else a, result), c')
  {
    if c.queue != [] {
      PopAccounts(a, c);
    } else if !zero && TransitionAllowed(c.state, ActiveSimpleQuery) {
      var c1 := Send(c.(state := ActiveSimpleQuery), response);
      ConformingOwesOneReady(SimpleStart, response);
      BehindAsync(c.unread, response);
      WaitCycleSettles(c1);
      SendAccounts(a, c, ActiveSimpleQuery, response);
      WaitCycleAccounts(a.(sent := a.sent + response), c1);
    }
  }

  lemma AwaitAccounts(a: Account, c: Conn, zero: bool, deadline: bool)
    requires Accounted(a, c)
    ensures var (result, c') := AwaitNotification(c, zero, deadline); Accounted(Hand(a, result), c')
  {
    if c.queue != [] {
      PopAccounts(a, c);
    } else {
      ReadNextNotificationAccounts(a, c, deadline);
    }
  }

  lemma StreamStepAccounts(p: map<string, string>, sent: seq<BackendMessage>, s: Session, a: Action)
    requires a.OpenSimple? || a.OpenPrepared? || a.OpenParams? || a.Next? || a.DropRows? || a.RunQuery?
    requires Coherent(s) && Enabled(s, a) && Legal(a)
    requires Accounted(Account(s.handed, p, sent), s.conn)
    ensures var t := Exec(s, a); Accounted(Account(t.handed, p, sent + SentBy(s, a)), t.conn)
  {
    var c := s.conn;
    var account := Account(s.handed, p, sent);
    assert sent + [] == sent;
    match a
    case OpenSimple(response) => OpenStreamAccounts(account, c, response);
    case OpenPrepared(_, response) => OpenStreamAccounts(account, c, response);
    case OpenParams(response) => OpenParamsAccounts(account, c, response);
    case Next => StreamNextAccounts(account, s.stream.value, c);
    case DropRows =>
    case RunQuery(response) => QueryAccounts(account, c, response);
  }

  lemma CommandStepAccounts(p: map<string, string>, sent: seq<BackendMessage>, s: Session, a: Action)
    requires Coherent(s) && Enabled(s, a) && Legal(a) && a.Collected?
    requires Accounted(Account(s.handed, p, sent), s.conn)
    ensures var t := Exec(s, a); Accounted(Account(t.handed, p, sent + SentBy(s, a)), t.conn)
  {
    assert sent + [] == sent;
    CommandAccounts(Account(s.handed, p, sent), s.conn, ActiveOf(a.command), ReaderOf(a.command), a.response);
  }

  lemma NotificationStepAccounts(p: map<string, string>, sent: seq<BackendMessage>, s: Session, a: Action)
    requires a.RecoverNow? || a.TakeNotifications? || a.WaitByQuery? || a.WaitByReading? || a.Deliver? ||
             a.DropActiveCursor?
    requires Coherent(s) && Enabled(s, a) && Legal(a)
    requires Accounted(Account(s.handed, p, sent), s.conn)
    ensures var t := Exec(s, a); Accounted(Account(t.handed, p, sent + SentBy(s, a)), t.conn)
  {
    var c, h := s.conn, s.handed;
    var account := Account(h, p, sent);
    assert h + [] == h && sent + [] == sent;
    match a
    case DropActiveCursor =>
    case RecoverNow => ReadUntilReadyAccounts(account, c);
    case TakeNotifications => assert (h + c.queue) + [] == h + c.queue;
    case WaitByQuery(zero, response) =>
      WaitAccounts(account, c, zero, response);
      HandIs(account.(sent := sent + SentBy(s, a)), WaitForNotification(c, zero, response).0);
    case WaitByReading(zero, deadline) =>
      AwaitAccounts(account, c, zero, deadline);
      HandIs(account, AwaitNotification(c, zero, deadline).0);
    case Deliver(late) => Assoc(c.read, c.unread, late);
  }

  lemma StepAccounts(p: map<string, string>, sent: seq<BackendMessage>, s: Session, a: Action)
    requires Coherent(s) && Enabled(s, a) && Legal(a) && !a.Reconnect?
    requires Accounted(Account(s.handed, p, sent), s.conn)
    ensures var t := Exec(s, a); Accounted(Account(t.handed, p, sent + SentBy(s, a)), t.conn)
  {
    if a.OpenSimple? || a.OpenPrepared? || a.OpenParams? || a.Next? || a.DropRows? || a.RunQuery? {
      StreamStepAccounts(p, sent, s, a);
    } else if a.Collected? {
      CommandStepAccounts(p, sent, s, a);
    } else {
      NotificationStepAccounts(p, sent, s, a);
    }
  }

  /** Everything servers send over a run. */
  function Sent(s: Session, run: seq<Action>): seq<BackendMessage>
    requires Allowed(s, run)
    decreases |run|
  {
    if run == [] then [] else SentBy(s, run[0]) + Sent(Exec(s, run[0]), run[1..])
  }

  // ----- the current connection -----------------------------------------------------------------

  /** The account of the connection in use: the notifications queued while it was set up, which are dropped when it
      is taken over; how many had been handed out before; what it started up with; all sent on it. */
  datatype Epoch = Epoch(
    setup: seq<Notification>, since: nat, startup: Startup, sent: seq<BackendMessage>)

  predicate InEpoch(e: Epoch, s: Session) {
    && e.since <= |s.handed|
    && Accounted(Account(e.setup + s.handed[e.since..], e.startup.params, e.sent), s.conn)
    && StatusHolds(e.startup.status, s)
  }

  function EpochNext(e: Epoch, s: Session, a: Action): Epoch
    requires Enabled(s, a)
  {
    match a
    case Reconnect(r, startup) => Epoch(r.queue, |s.handed|, startup, r.read + r.unread)
    case _ => e.(sent := e.sent + SentBy(s, a))
  }

  function EpochAfter(e: Epoch, s: Session, run: seq<Action>): Epoch
    requires Allowed(s, run)
    decreases |run|
  {
    if run == [] then e else EpochAfter(EpochNext(e, s, run[0]), Exec(s, run[0]), run[1..])
  }

  /** What a call hands out. */
  function Given(s: Session, a: Action): seq<Notification>
    requires Enabled(s, a)
  {
    match a
    case TakeNotifications => s.conn.queue
    case WaitByQuery(zero, response) => Handed(WaitForNotification(s.conn, zero, response).0)
    case WaitByReading(zero, deadline) => Handed(AwaitNotification(s.conn, zero, deadline).0)
    case _ => []
  }

  lemma ExecHands(s: Session, a: Action, h: seq<Notification>)
    requires Enabled(s, a)
    ensures Exec(s, a).handed == s.handed + Given(s, a)
    ensures Exec(s.(handed := h), a).handed == h + Given(s, a) && Exec(s.(handed := h), a).conn == Exec(s, a).conn
    ensures SentBy(s.(handed := h), a) == SentBy(s, a)
  {
    assert s.handed + [] == s.handed && h + [] == h;
  }

  lemma StepKeepsEpoch(e: Epoch, s: Session, a: Action)
    requires Coherent(s) && Enabled(s, a) && Legal(a) && InEpoch(e, s)
    ensures InEpoch(EpochNext(e, s, a), Exec(s, a))
  {
    var t, h := Exec(s, a), e.setup + s.handed[e.since..];
    ExecHands(s, a, h);
    StepStatus(e.startup.status, s, a);
    if a.Reconnect? {
      assert t.handed[|s.handed|..] == [] && a.replacement.queue + [] == a.replacement.queue;
    } else {
      StepAccounts(e.startup.params, e.sent, s.(handed := h), a);
      assert t.handed[e.since..] == s.handed[e.since..] + Given(s, a);
      Assoc(e.setup, s.handed[e.since..], Given(s, a));
    }
  }

  lemma {:induction false} RunKeepsEpoch(e: Epoch, s: Session, run: seq<Action>)
    requires Coherent(s) && Allowed(s, run) && InEpoch(e, s)
    ensures InEpoch(EpochAfter(e, s, run), Execute(s, run))
    decreases |run|
  {
    if run != [] {
      StepAdvances(s, run[0]);
      StepKeepsEpoch(e, s, run[0]);
      RunKeepsEpoch(EpochNext(e, s, run[0]), Exec(s, run[0]), run[1..]);
    }
  }

  // ----- all connections together ---------------------------------------------------------------

  /** Notifications handed out, queued, or still to be read. */
  function Kept(s: Session): seq<Notification> { s.handed + s.conn.queue + Notifications(s.conn.unread) }

  /** What a reconnect drops: the old queue, what the old connection still had to read, and what was queued while the
      replacement was set up. */
  function DroppedBy(s: Session, a: Action): seq<Notification> {
    if a.Reconnect? then s.conn.queue + Notifications(s.conn.unread) + a.replacement.queue else []
  }

  function Dropped(s: Session, run: seq<Action>): seq<Notification>
    requires Allowed(s, run)
    decreases |run|
  {
    if run == [] then [] else DroppedBy(s, run[0]) + Dropped(Exec(s, run[0]), run[1..])
  }

  /** On one connection the account determines what is kept. */
  lemma AccountedKeeps(h: seq<Notification>, p: map<string, string>, sent: seq<BackendMessage>, c: Conn)
    requires Accounted(Account(h, p, sent), c)
    ensures h + (c.queue + Notifications(c.unread)) == Notifications(sent)
  {
    NotificationsConcat(c.read, c.unread);
    Assoc(h, c.queue, Notifications(c.unread));
  }

  lemma SameBehind<T>(h: seq<T>, a: seq<T>, b: seq<T>)
    requires h + a == h + b
    ensures a == b
  {
    assert a == (h + a)[|h|..] && b == (h + b)[|h|..];
  }

  /** A call other than a reconnect keeps every notification, in order, and adds those it made servers send. */
  lemma StepKeeps(e: Epoch, s: Session, a: Action)
    requires Coherent(s) && Enabled(s, a) && Legal(a) && InEpoch(e, s) && !a.Reconnect?
    ensures Kept(Exec(s, a)) == Kept(s) + Notifications(SentBy(s, a))
  {
    var t, h := Exec(s, a), e.setup + s.handed[e.since..];
    var given, more := Given(s, a), Notifications(SentBy(s, a));
    var before, after := s.conn.queue + Notifications(s.conn.unread), t.conn.queue + Notifications(t.conn.unread);
    ExecHands(s, a, h);
    StepAccounts(e.startup.params, e.sent, s.(handed := h), a);
    AccountedKeeps(h, e.startup.params, e.sent, s.conn);
    AccountedKeeps(h + given, e.startup.params, e.sent + SentBy(s, a), t.conn);
    NotificationsConcat(e.sent, SentBy(s, a));
    Assoc(h, given, after);
    Assoc(h, before, more);
    SameBehind(h, given + after, before + more);
    Regroup(s, t, given, before, after, more);
  }

  lemma Regroup(
    s: Session, t: Session, given: seq<Notification>,
    before: seq<Notification>, after: seq<Notification>, more: seq<Notification>)
    requires t.handed == s.handed + given && given + after == before + more
    requires before == s.conn.queue + Notifications(s.conn.unread)
    requires after == t.conn.queue + Notifications(t.conn.unread)
    ensures Kept(t) == Kept(s) + more
  {
    Assoc(t.handed, t.conn.queue, Notifications(t.conn.unread));
    Assoc(s.handed, s.conn.queue, Notifications(s.conn.unread));
    Assoc(s.handed, given, after);
    Assoc(s.handed, before, more);
  }

  /** A reconnect loses nothing if and only if the old queue is empty, no notification is left to read on the old
      connection, and none was queued while the replacement was set up; what it loses is exactly these. */
  lemma ReconnectLossIff(s: Session, a: Action)
    requires a.Reconnect? && Enabled(s, a) && Legal(a)
    ensures multiset(Kept(Exec(s, a))) + multiset(DroppedBy(s, a))
         == multiset(Kept(s)) + multiset(Notifications(SentBy(s, a)))
    ensures Kept(Exec(s, a)) == Kept(s) + Notifications(SentBy(s, a))
            <==> s.conn.queue == [] && Silent(s.conn.unread) && a.replacement.queue == []
  {
    var r := a.replacement;
    NotificationsConcat(r.read, r.unread);
    SilentIff(s.conn.unread);
    assert s.handed + [] == s.handed;
    Exchange(s.handed, s.conn.queue, Notifications(s.conn.unread), r.queue, Notifications(r.unread));
  }

  lemma Exchange<T>(h: seq<T>, q: seq<T>, u: seq<T>, setup: seq<T>, rest: seq<T>)
    ensures multiset(h + rest) + multiset(q + u + setup) == multiset(h + q + u) + multiset(setup + rest)
    ensures h + rest == (h + q + u) + (setup + rest) <==> q == [] && u == [] && setup == []
  {
    if q == [] && u == [] && setup == [] {
      assert h + q + u == h && setup + rest == rest;
    } else {
      assert |(h + q + u) + (setup + rest)| > |h + rest|;
    }
  }

  lemma {:induction false} SilentIff(ms: seq<BackendMessage>)
    ensures Silent(ms) <==> Notifications(ms) == []
  {
    if ms != [] {
      SilentIff(ms[1..]);
      assert ms == [ms[0]] + ms[1..];
      NotificationsConcat([ms[0]], ms[1..]);
      assert [ms[0]][..0] == [] && [] + NotificationsOf(ms[0]) == NotificationsOf(ms[0]);
    }
  }

  /** What was handed out, what is queued or unread and what reconnects dropped is together everything there was and
      everything sent, each once. */
  lemma {:induction false} RunConserves(e: Epoch, s: Session, run: seq<Action>)
    requires Coherent(s) && Allowed(s, run) && InEpoch(e, s)
    ensures multiset(Kept(Execute(s, run))) + multiset(Dropped(s, run))
         == multiset(Kept(s)) + multiset(Notifications(Sent(s, run)))
    decreases |run|
  {
    if run != [] {
      var t := Exec(s, run[0]);
      StepAdvances(s, run[0]);
      StepKeepsEpoch(e, s, run[0]);
      if run[0].Reconnect? {
        ReconnectLossIff(s, run[0]);
      } else {
        StepKeeps(e, s, run[0]);
      }
      RunConserves(EpochNext(e, s, run[0]), t, run[1..]);
      NotificationsConcat(SentBy(s, run[0]), Sent(t, run[1..]));
      Chained(Kept(s), Kept(t), Kept(Execute(s, run)), DroppedBy(s, run[0]), Dropped(t, run[1..]),
              Notifications(SentBy(s, run[0])), Notifications(Sent(t, run[1..])));
    }
  }

  lemma Chained<T>(k0: seq<T>, k1: seq<T>, k2: seq<T>, d0: seq<T>, d1: seq<T>, n0: seq<T>, n1: seq<T>)
    requires multiset(k1) + multiset(d0) == multiset(k0) + multiset(n0)
    requires multiset(k2) + multiset(d1) == multiset(k1) + multiset(n1)
    ensures multiset(k2) + multiset(d0 + d1) == multiset(k0) + multiset(n0 + n1)
  {
    var m0, m1, m2, x0, x1, y0, y1 :=
      multiset(k0), multiset(k1), multiset(k2), multiset(d0), multiset(d1), multiset(n0), multiset(n1);
    assert m2 + (x0 + x1) == (m2 + x1) + x0 == (m1 + y1) + x0 == (m1 + x0) + y1 == (m0 + y0) + y1 == m0 + (y0 + y1);
  }

  /** Conservation, over every run of every call, reconnects included. On the connection in use, the notifications
      dropped while it was set up, those handed out since and those queued are the NotificationResponses read, in
      order, each once, error-drain and recovery paths included; the parameter table is the last-writer fold; the
      transaction status is that of the last ReadyForQuery read, which only a stranded session has skipped; the
      messages read followed by those unread are all sent on it. And over all connections together, what was
      handed out, what is queued or unread and what reconnects dropped is everything sent, each once. */
  lemma NotificationConservation(e: Epoch, s: Session, run: seq<Action>)
    requires Coherent(s) && Allowed(s, run) && InEpoch(e, s)
    ensures var t, e' := Execute(s, run), EpochAfter(e, s, run);
            && e'.since <= |t.handed|
            && (e'.setup + t.handed[e'.since..]) + t.conn.queue == Notifications(t.conn.read)
            && t.conn.params == Parameters(e'.startup.params, t.conn.read)
            && t.conn.status == (if Stranded(t) then PreviousStatus(e'.startup.status, t.conn.read)
                                 else StatusAfter(e'.startup.status, t.conn.read))
            && t.conn.read + t.conn.unread == e'.sent
    ensures multiset(Kept(Execute(s, run))) + multiset(Dropped(s, run))
         == multiset(Kept(s)) + multiset(Notifications(Sent(s, run)))
  {
    RunKeepsEpoch(e, s, run);
    RunConserves(e, s, run);
  }

  lemma {:induction false} RunInOrder(e: Epoch, s: Session, run: seq<Action>)
    requires Coherent(s) && Allowed(s, run) && InEpoch(e, s) && Dropped(s, run) == []
    ensures Kept(Execute(s, run)) == Kept(s) + Notifications(Sent(s, run))
    decreases |run|
  {
    if run == [] {
      assert Kept(s) + [] == Kept(s);
    } else {
      var t := Exec(s, run[0]);
      StepAdvances(s, run[0]);
      StepKeepsEpoch(e, s, run[0]);
      StepInOrder(e, s, run[0]);
      RunInOrder(EpochNext(e, s, run[0]), t, run[1..]);
      NotificationsConcat(SentBy(s, run[0]), Sent(t, run[1..]));
      Assoc(Kept(s), Notifications(SentBy(s, run[0])), Notifications(Sent(t, run[1..])));
    }
  }

  /** A run keeps all notifications in order if and only if none of its reconnects drops any. */
  lemma NothingLostIff(e: Epoch, s: Session, run: seq<Action>)
    requires Coherent(s) && Allowed(s, run) && InEpoch(e, s)
    ensures Kept(Execute(s, run)) == Kept(s) + Notifications(Sent(s, run)) <==> Dropped(s, run) == []
  {
    if Dropped(s, run) == [] {
      RunInOrder(e, s, run);
    } else {
      RunConserves(e, s, run);
      NothingOver(Kept(Execute(s, run)), Dropped(s, run), Kept(s), Notifications(Sent(s, run)));
    }
  }

  lemma NothingOver<T>(kept: seq<T>, dropped: seq<T>, before: seq<T>, sent: seq<T>)
    requires multiset(kept) + multiset(dropped) == multiset(before) + multiset(sent)
    ensures |kept| + |dropped| == |before + sent|
  {
    assert |multiset(kept) + multiset(dropped)| == |kept| + |dropped|;
    assert |multiset(before) + multiset(sent)| == |before| + |sent|;
  }

  lemma StepInOrder(e: Epoch, s: Session, a: Action)
    requires Coherent(s) && Enabled(s, a) && Legal(a) && InEpoch(e, s) && DroppedBy(s, a) == []
    ensures Kept(Exec(s, a)) == Kept(s) + Notifications(SentBy(s, a))
  {
    if a.Reconnect? {
      ReconnectLossIff(s, a);
      SilentIff(s.conn.unread);
      assert |s.conn.queue| + |Notifications(s.conn.unread)| + |a.replacement.queue| == |DroppedBy(s, a)|;
    } else {
      StepKeeps(e, s, a);
    }
  }

  /** A failing input: both queues are empty, and the one notification not yet read on the old connection is gone. */
  lemma UnreadIsLost(s: Session, a: Action, n: Notification)
    requires s.stream.None? && s.handed == s.conn.queue == [] && s.conn.unread == [NotificationResponse(n)]
    requires a.Reconnect? && Legal(a) && a.replacement.read == a.replacement.unread == []
    ensures Enabled(s, a) && n in Notifications(s.conn.unread) && Kept(Exec(s, a)) == []
  {
    assert s.conn.unread[..0] == [];
    assert Notifications(s.conn.unread) == [] + [n];
  }
}
