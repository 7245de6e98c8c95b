/** The transaction status a connection keeps, against the letters of the ReadyForQuery messages it has read. */
module Statuses {
  import opened Basics
  import opened Messages
  import opened Grammar
  import opened Engine
  import opened SyncDebt

  /** `i` is the last ReadyForQuery of `ms`. */
  predicate LastReady(ms: seq<BackendMessage>, i: nat) {
    i < |ms| && ms[i].ReadyForQuery? && forall j | i < j < |ms| :: !ms[j].ReadyForQuery?
  }

  /** The fold means the letter read last: T is inside a transaction, E inside a failed one, any other none. */
  lemma {:induction false} StatusIsLastLetter(start: TransactionStatus, ms: seq<BackendMessage>, i: nat)
    ensures LastReady(ms, i) ==>
              && (StatusAfter(start, ms) == InTransaction <==> ms[i].status == 'T')
              && (StatusAfter(start, ms) == FailedTransaction <==> ms[i].status == 'E')
    ensures (forall j | 0 <= j < |ms| :: !ms[j].ReadyForQuery?) ==> StatusAfter(start, ms) == start
  {
    if ms != [] {
      var n := |ms| - 1;
      StatusIsLastLetter(start, ms[..n], i);
      if LastReady(ms, i) && i < n {
        assert LastReady(ms[..n], i);
      }
    }
  }

  predicate Current(start: TransactionStatus, c: Conn) { c.status == StatusAfter(start, c.read) }

  /** The last ReadyForQuery read was skipped. */
  predicate Behind(start: TransactionStatus, c: Conn) { c.status == PreviousStatus(start, c.read) }

  lemma TakeStatus(start: TransactionStatus, c: Conn)
    requires c.unread != []
    ensures var m := c.unread[0];
            && (!m.ReadyForQuery? && Current(start, c) ==>
                  Current(start, Take(c)) && Current(start, Absorb(Take(c), m)))
            && (!m.ReadyForQuery? && Behind(start, c) ==> Behind(start, Take(c)) && Behind(start, Absorb(Take(c), m)))
            && (m.ReadyForQuery? ==> Current(start, Ready(Take(c), m.status)))
            && (m.ReadyForQuery? && Current(start, c) ==> Behind(start, Take(c)))
  {
    var read := c.read + [c.unread[0]];
    assert read[..|read| - 1] == c.read;
  }

  /** Inside a transaction, failed or not. */
  predicate Inside(status: TransactionStatus) { status == InTransaction || status == FailedTransaction }

  /** Resynchronising keeps the status current, and is where the tracked session learns of it. */
  lemma {:induction false} ReadUntilReadyStatus(start: TransactionStatus, c: Conn)
    requires Current(start, c)
    ensures var (ready, c') := ReadUntilReady(c);
            && Current(start, c')
            && (if ready then c'.inTransaction <==> Inside(c'.status) else c'.inTransaction == c.inTransaction)
    decreases |c.unread|
  {
    if c.unread != [] {
      var m := c.unread[0];
      TakeStatus(start, c);
      if IsAsync(m) {
        ReadUntilReadyStatus(start, Absorb(Take(c), m));
      } else if !m.ReadyForQuery? {
        ReadUntilReadyStatus(start, Take(c));
      }
    }
  }

  /** A collected command leaves the status current; the tracked session learns of it exactly when the server
      reported an error. */
  lemma {:induction false} CollectStatus(start: TransactionStatus, r: Reader, c: Conn)
    requires Current(start, c)
    ensures var (result, c') := Collect(r, c);
            && Current(start, c')
            && (result.Ok? ==> c'.inTransaction == c.inTransaction)
            && (result.Err? && result.failure.Server? ==> (c'.inTransaction <==> Inside(c'.status)))
    decreases |c.unread|
  {
    if c.unread != [] {
      var m := c.unread[0];
      TakeStatus(start, c);
      if IsAsync(m) {
        CollectStatus(start, r, Absorb(Take(c), m));
      } else if m.ErrorResponse? {
        ReadUntilReadyStatus(start, Take(c));
      } else if !m.ReadyForQuery? {
        CollectStatus(start, StepReader(r, m), Take(c));
      }
    }
  }

  /** `next` returns at its first unread message. */
  predicate StopsAt(s: Stream, m: BackendMessage) {
    m.ErrorResponse? || (s.phase.ReceivingRows? && m.DataRow?) || (s.phase.Finishing? && m.ReadyForQuery?)
  }

  lemma StreamStopsStatus(start: TransactionStatus, s: Stream, c: Conn)
    requires Current(start, c) && c.unread != [] && !IsDone(s) && StopsAt(s, c.unread[0])
    ensures Current(start, StreamNext(s, c).2)
  {
    TakeStatus(start, c);
    if c.unread[0].ErrorResponse? {
      ReadUntilReadyStatus(start, Take(c));
    }
  }

  /** What it goes on with otherwise. */
  function Onward(s: Stream, c: Conn): (Stream, Conn)
    requires c.unread != []
  {
    var m := c.unread[0];
    if IsAsync(m) then (s, Absorb(Take(c), m)) else (StepStream(s, m), Take(c))
  }

  lemma StreamGoesOn(start: TransactionStatus, s: Stream, c: Conn)
    requires Current(start, c) && Fits(s, c) && !Blind(s, c) && !IsDone(s) && c.unread != [] && !StopsAt(s, c.unread[0])
    ensures var (s', c') := Onward(s, c);
            && StreamNext(s, c) == StreamNext(s', c') && |c'.unread| < |c.unread|
            && Fits(s', c') && !Blind(s', c') && Current(start, c')
  {
    NeedsOneReady(c.unread);
    TakeStatus(start, c);
  }

  lemma {:induction false} StreamNextStatus(start: TransactionStatus, s: Stream, c: Conn)
    requires Current(start, c) && Fits(s, c) && !Blind(s, c)
    ensures Current(start, StreamNext(s, c).2)
    decreases |c.unread|
  {
    if !IsDone(s) {
      NeedsOneReady(c.unread);
      if StopsAt(s, c.unread[0]) {
        StreamStopsStatus(start, s, c);
      } else {
        var (s', c') := Onward(s, c);
        StreamGoesOn(start, s, c);
        StreamNextStatus(start, s', c');
      }
    }
  }

  lemma {:induction false} DrainStatus(start: TransactionStatus, s: Stream, c: Conn, rows: seq<Row>)
    requires Current(start, c) && Fits(s, c) && !Blind(s, c)
    ensures Current(start, Drain(s, c, rows).2)
    decreases |c.unread|
  {
    var (item, s', c') := StreamNext(s, c);
    StreamNextStatus(start, s, c);
    StreamNextFits(s, c);
    if item.Yield? {
      DrainStatus(start, s', c', rows + [item.row]);
    }
  }

  /** On a blind stream `next` skips the ReadyForQuery, and the status with it. */
  lemma {:induction false} BlindNextStatus(start: TransactionStatus, s: Stream, c: Conn)
    requires s.phase.ReceivingRows? && !RowsEnd(c.unread)
    requires if AllAsync(c.unread) then Behind(start, c)
             else Current(start, c) && (EmptyEnd(c.unread) || Skippable(c.unread))
    ensures Behind(start, StreamNext(s, c).2)
    decreases |c.unread|
  {
    if c.unread != [] {
      var m := c.unread[0];
      TakeStatus(start, c);
      NeedsOneReady(c.unread);
      NeedsOneReady(c.unread[1..]);
      if IsAsync(m) {
        BlindNextStatus(start, s, Absorb(Take(c), m));
      } else {
        BlindNextStatus(start, s, Take(c));
      }
    }
  }

  lemma {:induction false} PreambleStatus(start: TransactionStatus, c: Conn)
    requires Current(start, c)
    ensures Current(start, Preamble(c).1)
    decreases |c.unread|
  {
    if c.unread != [] {
      var m := c.unread[0];
      TakeStatus(start, c);
      if IsAsync(m) {
        PreambleStatus(start, Absorb(Take(c), m));
      } else if m.ErrorResponse? {
        ReadUntilReadyStatus(start, Take(c));
      } else if !(m.RowDescription? || m.NoData? || m.CommandComplete? || m.EmptyQueryResponse? || m.ReadyForQuery?) {
        PreambleStatus(start, Take(c));
      }
    }
  }

  lemma {:induction false} WaitCycleStatus(start: TransactionStatus, c: Conn)
    requires Current(start, c)
    ensures Current(start, WaitCycle(c).1)
    decreases |c.unread|
  {
    if c.unread != [] {
      var m := c.unread[0];
      TakeStatus(start, c);
      if m.NotificationResponse? {
        ReadUntilReadyStatus(start, Take(c));
      } else if m.ParameterStatus? {
        WaitCycleStatus(start, Absorb(Take(c), m));
      } else if !m.ReadyForQuery? {
        WaitCycleStatus(start, Take(c));
      }
    }
  }

  lemma {:induction false} ReadNextNotificationStatus(start: TransactionStatus, c: Conn, deadline: bool)
    requires Current(start, c)
    ensures Current(start, ReadNextNotification(c, deadline).1)
    decreases |c.unread|
  {
    if c.unread != [] {
      var m := c.unread[0];
      TakeStatus(start, c);
      if m.ReadyForQuery? {
        ReadNextNotificationStatus(start, Ready(Take(c), m.status), deadline);
      } else if m.ParameterStatus? {
        ReadNextNotificationStatus(start, Absorb(Take(c), m), deadline);
      } else if m.NoticeResponse? || m.EmptyQueryResponse? {
        ReadNextNotificationStatus(start, Take(c), deadline);
      }
    }
  }

  // ----- over runs ------------------------------------------------------------------------------

  /** The status of a session is current, except in a stranded one, which is one ReadyForQuery behind. */
  predicate StatusHolds(start: TransactionStatus, s: Session) {
    if Stranded(s) then Behind(start, s.conn) else Current(start, s.conn)
  }

  lemma RecoverStatus(start: TransactionStatus, c: Conn)
    requires Current(start, c)
    ensures Current(start, Recover(c).1)
    ensures c.needsRecovery && Recover(c).0 ==> (Recover(c).1.inTransaction <==> Inside(Recover(c).1.status))
  {
    ReadUntilReadyStatus(start, c);
  }

  lemma StreamStepStatus(start: TransactionStatus, s: Session, a: Action)
    requires Synchronised(s) && Enabled(s, a) && Legal(a) && Current(start, s.conn)
    requires a.OpenSimple? || a.OpenPrepared? || a.OpenParams? || a.RunQuery?
    ensures Current(start, Exec(s, a).conn)
  {
    var c, response := s.conn, a.response;
    RecoverSettles(c);
    RecoverStatus(start, c);
    if a.OpenParams? {
      PreambleStatus(start, OpenStream(c, response).1);
    } else if a.RunQuery? {
      ConformingDescribed(SimpleStart, response);
      OpenStreamFits(c, response);
      DrainStatus(start, Stream(WaitingForDescription, None), OpenStream(c, response).1, []);
    }
  }

  lemma OtherStepStatus(start: TransactionStatus, s: Session, a: Action)
    requires Enabled(s, a) && Current(start, s.conn)
    requires a.Collected? || a.RecoverNow? || a.TakeNotifications? || a.WaitByQuery? || a.WaitByReading? ||
             a.Deliver? || a.DropActiveCursor? || a.DropRows?
    ensures Current(start, Exec(s, a).conn)
  {
    var c := s.conn;
    match a
    case Collected(cmd, response) =>
      CollectStatus(start, ReaderOf(cmd), Send(c.(state := ActiveOf(cmd)), response));
    case RecoverNow => RecoverStatus(start, c);
    case WaitByQuery(_, response) => WaitCycleStatus(start, Send(c.(state := ActiveSimpleQuery), response));
    case WaitByReading(_, deadline) => ReadNextNotificationStatus(start, c, deadline);
    case _ =>
  }

  /** Where nothing but asynchronous messages is left to read, the status stays as far behind as it is. */
  lemma {:induction false} NothingReachedStatus(start: TransactionStatus, c: Conn)
    requires AllAsync(c.unread)
    ensures var c' := ReadUntilReady(c).1;
            (Behind(start, c) ==> Behind(start, c')) && (Current(start, c) ==> Current(start, c'))
    decreases |c.unread|
  {
    if c.unread != [] {
      TakeStatus(start, c);
      NothingReachedStatus(start, Absorb(Take(c), c.unread[0]));
    }
  }

  lemma StuckStepStatus(start: TransactionStatus, s: Session, a: Action)
    requires Stuck(s) && Enabled(s, a) && Legal(a) && !a.Reconnect? && StatusHolds(start, s)
    ensures if Stranded(s) then Behind(start, Exec(s, a).conn) else Current(start, Exec(s, a).conn)
  {
    var c := s.conn;
    Apart(s);
    if a.Next? {
      NeedsOneReady(c.unread);
      BlindNextStatus(start, s.stream.value, c);
    } else if a.OpenSimple? || a.OpenPrepared? || a.OpenParams? || a.RunQuery? || a.RecoverNow? {
      NothingToReach(c);
      NothingReachedStatus(start, c);
    } else if Misled(s) {
      OtherStepStatus(start, s, a);
    }
  }

  /** Every call keeps the status as it should be; a reconnect starts over from the replacement's. */
  lemma StepStatus(start: TransactionStatus, s: Session, a: Action)
    requires Coherent(s) && Enabled(s, a) && Legal(a) && StatusHolds(start, s)
    ensures StatusHolds(if a.Reconnect? then a.startup.status else start, Exec(s, a))
  {
    StepAdvances(s, a);
    Apart(s);
    if Stuck(s) && !a.Reconnect? {
      StuckStepStatus(start, s, a);
    } else if a.Next? {
      NeedsOneReady(s.conn.unread);
      if Blind(s.stream.value, s.conn) {
        BlindNextStatus(start, s.stream.value, s.conn);
      } else {
        StreamNextStatus(start, s.stream.value, s.conn);
      }
    } else if a.OpenSimple? || a.OpenPrepared? || a.OpenParams? || a.RunQuery? {
      StreamStepStatus(start, s, a);
    } else if !a.Reconnect? {
      OtherStepStatus(start, s, a);
    }
  }
}
