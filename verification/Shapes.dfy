/** What `prepare` and `query_cursor` hand back of the server's answer, and the transaction that a cursor begins and
    commits and `reset` rolls back. */
module Shapes {
  import opened Basics
  import opened Messages
  import opened Grammar
  import opened Engine
  import opened SyncDebt
  import opened Statuses
  import opened Conservation
  import Agreement

  // ----- the shape of a statement ---------------------------------------------------------------

  /** The answer names these parameter types and no others. */
  ghost predicate SaysParameters(ms: seq<BackendMessage>, oids: seq<int>) {
    ParameterDescription(oids) in ms && forall other :: ParameterDescription(other) in ms ==> other == oids
  }

  /** The answer describes these columns and no others, or says that no rows come. */
  ghost predicate SaysColumns(ms: seq<BackendMessage>, columns: Columns) {
    if NoData in ms then columns == [] && forall other :: RowDescription(other) !in ms
    else RowDescription(columns) in ms && forall other :: RowDescription(other) in ms ==> other == columns
  }

  /** The answer says no more of the shape. */
  predicate ShapeSaid(ms: seq<BackendMessage>) {
    forall i | 0 <= i < |ms| :: !ms[i].ParameterDescription? && !ms[i].RowDescription? && !ms[i].NoData?
  }

  lemma {:induction false} NothingMoreSaid(g: Expect, r: Reader, c: Conn)
    requires g == SyncDue && Conforms(g, c.unread) && FirstError(c.unread).None?
    requires r.Preparing?
    ensures Collect(r, c).0 == Ok(r) && ShapeSaid(c.unread)
    decreases |c.unread|
  {
    var m, rest := c.unread[0], c.unread[1..];
    assert c.unread == [m] + rest;
    if IsAsync(m) {
      NothingMoreSaid(g, r, Absorb(Take(c), m));
    } else {
      ConformingOwesOneReady(Settled, rest);
    }
  }

  ghost predicate ColumnsRead(ms: seq<BackendMessage>, oids: seq<int>, result: Result<Reader>) {
    && result.Ok? && result.value.Preparing? && result.value.oids == oids
    && SaysColumns(ms, result.value.columns)
    && forall other :: ParameterDescription(other) !in ms
  }

  lemma ColumnsReadBehind(m: BackendMessage, ms: seq<BackendMessage>, oids: seq<int>, result: Result<Reader>)
    requires ColumnsRead(ms, oids, result) && !m.ParameterDescription? && !m.RowDescription? && !m.NoData?
    ensures ColumnsRead([m] + ms, oids, result)
  {
  }

  /** The RowDescription itself, or NoData, is read. */
  lemma ColumnsStopAt(r: Reader, c: Conn)
    requires Conforms(ShapeDue, c.unread) && FirstError(c.unread).None? && !IsAsync(c.unread[0])
    requires r.Preparing? && r.columns == []
    ensures ColumnsRead(c.unread, r.oids, Collect(r, c).0)
  {
    var m, rest := c.unread[0], c.unread[1..];
    assert c.unread == [m] + rest;
    NothingMoreSaid(SyncDue, StepReader(r, m), Take(c));
  }

  /** Behind ParseComplete and BindComplete: the columns are read. */
  lemma {:induction false} ColumnsAreRead(g: Expect, r: Reader, c: Conn)
    requires g in {ShapeDue, PortalDue, PortalBindDue} && Conforms(g, c.unread) && FirstError(c.unread).None?
    requires r.Preparing? && r.columns == []
    ensures ColumnsRead(c.unread, r.oids, Collect(r, c).0)
    decreases |c.unread|
  {
    var m, rest := c.unread[0], c.unread[1..];
    if g.ShapeDue? && !IsAsync(m) {
      ColumnsStopAt(r, c);
    } else {
      var next := if IsAsync(m) then Absorb(Take(c), m) else Take(c);
      ColumnsAreRead(Follow(g, m).value, r, next);
      ColumnsReadBehind(m, rest, r.oids, Collect(r, next).0);
      assert c.unread == [m] + rest;
    }
  }

  ghost predicate ShapeRead(ms: seq<BackendMessage>, result: Result<Reader>) {
    && result.Ok? && result.value.Preparing?
    && SaysParameters(ms, result.value.oids) && SaysColumns(ms, result.value.columns)
  }

  lemma ShapeReadBehind(m: BackendMessage, ms: seq<BackendMessage>, result: Result<Reader>)
    requires ShapeRead(ms, result) && !m.ParameterDescription? && !m.RowDescription? && !m.NoData?
    ensures ShapeRead([m] + ms, result)
  {
  }

  /** The ParameterDescription itself is read. */
  lemma ParametersStopAt(c: Conn)
    requires Conforms(ParametersDue, c.unread) && FirstError(c.unread).None? && !IsAsync(c.unread[0])
    ensures ShapeRead(c.unread, Collect(Preparing([], []), c).0)
  {
    var m, rest := c.unread[0], c.unread[1..];
    assert c.unread == [m] + rest;
    assert [] + m.oids == m.oids;
    ColumnsAreRead(ShapeDue, Preparing(m.oids, []), Take(c));
    assert Collect(Preparing([], []), c) == Collect(Preparing(m.oids, []), Take(c));
  }

  lemma {:induction false} ParametersAreRead(g: Expect, c: Conn)
    requires g in {StatementDue, ParametersDue} && Conforms(g, c.unread) && FirstError(c.unread).None?
    ensures ShapeRead(c.unread, Collect(Preparing([], []), c).0)
    decreases |c.unread|
  {
    var m, rest := c.unread[0], c.unread[1..];
    if g.ParametersDue? && !IsAsync(m) {
      ParametersStopAt(c);
    } else {
      var next := if IsAsync(m) then Absorb(Take(c), m) else Take(c);
      ParametersAreRead(Follow(g, m).value, next);
      ShapeReadBehind(m, rest, Collect(Preparing([], []), next).0);
      assert c.unread == [m] + rest;
    }
  }

  lemma SaysBehindAsync(early: seq<BackendMessage>, ms: seq<BackendMessage>, oids: seq<int>, columns: Columns)
    requires AllAsync(early)
    ensures SaysParameters(early + ms, oids) <==> SaysParameters(ms, oids)
    ensures SaysColumns(early + ms, columns) <==> SaysColumns(ms, columns)
  {
    assert forall other :: ParameterDescription(other) in early + ms <==> ParameterDescription(other) in ms;
    assert forall other :: RowDescription(other) in early + ms <==> RowDescription(other) in ms;
    assert NoData in early + ms <==> NoData in ms;
  }

  /** `prepare` returns the parameter types and the columns that the answer names, or the error it reports. */
  lemma PrepareReturnsShape(c: Conn, response: seq<BackendMessage>)
    requires c.state == Idle && AllAsync(c.unread) && Conforms(StatementDue, response)
    ensures var r := Command(c, ActiveExtendedQuery, Preparing([], []), response).0;
            match FirstError(response)
            case Some(error) => r == Err(Server(error))
            case None =>
              && r.Ok? && r.value.Preparing?
              && SaysParameters(response, r.value.oids) && SaysColumns(response, r.value.columns)
  {
    var sent := Send(c.(state := ActiveExtendedQuery), response);
    ConformsBehindAsync(StatementDue, c.unread, response);
    BehindAsync(c.unread, response);
    if FirstError(response).None? {
      ParametersAreRead(StatementDue, sent);
      var r := Collect(Preparing([], []), sent).0.value;
      SaysBehindAsync(c.unread, response, r.oids, r.columns);
    } else {
      ConformingOwesOneReady(StatementDue, sent.unread);
      CollectSettles(Preparing([], []), sent);
    }
  }

  /** The portal of a cursor, once its transaction is open. */
  lemma PortalReturnsShape(c: Conn, response: seq<BackendMessage>)
    requires c.state == Idle && AllAsync(c.unread) && Conforms(PortalDue, response)
    ensures var r := Command(c, ActiveExtendedQuery, Preparing([], []), response).0;
            match FirstError(response)
            case Some(error) => r == Err(Server(error))
            case None => r.Ok? && r.value.Preparing? && SaysColumns(response, r.value.columns)
  {
    var sent := Send(c.(state := ActiveExtendedQuery), response);
    ConformsBehindAsync(PortalDue, c.unread, response);
    BehindAsync(c.unread, response);
    if FirstError(response).None? {
      ColumnsAreRead(PortalDue, Preparing([], []), sent);
      SaysBehindAsync(c.unread, response, [], Collect(Preparing([], []), sent).0.value.columns);
    } else {
      ConformingOwesOneReady(PortalDue, sent.unread);
      CollectSettles(Preparing([], []), sent);
    }
  }

  // ----- commands around a transaction ----------------------------------------------------------

  /** A query run by another operation: what is sent, the status it leaves, and its error. */
  predicate QueryRun(
    start: TransactionStatus, a: Account, response: seq<BackendMessage>, out: (Result<QueryResult>, Conn))
  {
    var (result, c) := out;
    && Accounted(a.(sent := a.sent + response), c) && Current(start, c) && Rested(c)
    && match FirstError(response)
       case Some(error) => result == Err(Server(error))
       case None => result.Ok?
  }

  predicate Rested(c: Conn) { c.state == Idle && !c.needsRecovery && AllAsync(c.unread) }

  lemma QueryRecovers(c: Conn, response: seq<BackendMessage>)
    requires Synchronised(Session(c, None, []))
    ensures Rested(Recover(c).1) && Query(c, response) == Query(Recover(c).1, response)
  {
    RecoverSettles(c);
  }

  lemma QueryRuns(start: TransactionStatus, a: Account, c: Conn, response: seq<BackendMessage>)
    requires Synchronised(Session(c, None, [])) && Conforms(SimpleStart, response)
    requires Current(start, c) && Accounted(a, c)
    ensures QueryRun(start, a, response, Query(c, response))
  {
    var s, action := Session(c, None, []), RunQuery(response);
    StepSynchronised(s, action);
    StreamStepStatus(start, s, action);
    QueryAccounts(a, c, response);
    QueryRecovers(c, response);
    var ready := Recover(c).1;
    ConformingOwesOneReady(SimpleStart, response);
    BehindAsync(ready.unread, response);
    CollectSettles(Batch([], None, []), Send(ready.(state := ActiveSimpleQuery), response));
    Agreement.QueryAgreesWithBatch(ready, response);
  }

  /** The messages sent for two commands, the second only if the first was without error. */
  function Both(first: seq<BackendMessage>, second: seq<BackendMessage>): seq<BackendMessage> {
    if FirstError(first).Some? then first else first + second
  }

  predicate OkUnless(error: Option<ServerError>, result: Result<()>) {
    match error
    case Some(e) => result == Err(Server(e))
    case None => result == Ok(())
  }

  /** `reset` rolls back exactly if the ReadyForQuery read last left a transaction open, by T or by E, and then
      discards everything; it stops at the first error and returns it. */
  lemma ResetRollsBackIff(
    start: TransactionStatus, a: Account, c: Conn, rolledBack: seq<BackendMessage>, discarded: seq<BackendMessage>)
    requires Synchronised(Session(c, None, [])) && Current(start, c) && Accounted(a, c)
    requires Conforms(SimpleStart, rolledBack) && Conforms(SimpleStart, discarded)
    ensures var (result, c') := Reset(c, rolledBack, discarded);
            var sent := if Inside(StatusAfter(start, c.read)) then Both(rolledBack, discarded) else discarded;
            && Accounted(a.(sent := a.sent + sent), c') && Current(start, c') && Rested(c')
            && OkUnless(if Inside(StatusAfter(start, c.read)) && FirstError(rolledBack).Some?
                        then FirstError(rolledBack) else FirstError(discarded), result)
            && (result.Ok? ==> !c'.inTransaction)
  {
    if Inside(c.status) {
      QueryRuns(start, a, c, rolledBack);
      if FirstError(rolledBack).None? {
        QueryRuns(start, a.(sent := a.sent + rolledBack), Query(c, rolledBack).1, discarded);
        Assoc(a.sent, rolledBack, discarded);
      }
    } else {
      QueryRuns(start, a, c, discarded);
    }
  }

  // ----- the transaction of a cursor ------------------------------------------------------------

  predicate Refused(outside: bool, begun: seq<BackendMessage>) { outside && FirstError(begun).Some? }

  /** What opening the portal comes to, on a connection at rest. */
  lemma PortalOpens(start: TransactionStatus, a: Account, c: Conn, response: seq<BackendMessage>)
    requires Rested(c) && Current(start, c) && Accounted(a, c) && Conforms(PortalDue, response)
    ensures var (shape, c') := Command(c, ActiveExtendedQuery, Preparing([], []), response);
            && Accounted(a.(sent := a.sent + response), c') && Current(start, c') && Rested(c')
            && match FirstError(response)
               case Some(error) => shape == Err(Server(error))
               case None => shape.Ok? && shape.value.Preparing? && SaysColumns(response, shape.value.columns)
  {
    PortalReturnsShape(c, response);
    CommandAccounts(a, c, ActiveExtendedQuery, Preparing([], []), response);
    ConformingOwesOneReady(PortalDue, response);
    CommandSettles(c, ActiveExtendedQuery, Preparing([], []), response);
    CollectStatus(start, Preparing([], []), Send(c.(state := ActiveExtendedQuery), response));
  }

  /** A cursor opens with the columns its portal's answer names, in a transaction: its own, begun exactly when none
      is open by the letter last read, or the one that is. An error of the server, of the BEGIN or of the portal,
      is returned, and behind a refused BEGIN nothing more is sent. Only a BEGIN recovers first: inside a
      transaction, a connection left in mid-stream refuses. */
  lemma OpenCursorReturnsShape(
    start: TransactionStatus, a: Account, c: Conn, begun: seq<BackendMessage>, response: seq<BackendMessage>)
    requires Synchronised(Session(c, None, [])) && Current(start, c) && Accounted(a, c)
    requires Conforms(SimpleStart, begun) && Conforms(PortalDue, response)
    ensures var (result, c') := OpenCursor(c, begun, response);
            var outside := StatusAfter(start, c.read) == NoTransaction;
            if !outside && c.state != Idle then result == Err(InvalidState) && c' == c
            else
              && Accounted(a.(sent := a.sent + if outside then Both(begun, response) else response), c')
              && Current(start, c') && Rested(c')
              && (if Refused(outside, begun) then result == Err(Server(FirstError(begun).value))
                  else match FirstError(response)
                       case Some(error) => result == Err(Server(error))
                       case None => result.Ok? && SaysColumns(response, result.value))
  {
    if c.status == NoTransaction {
      QueryRuns(start, a, c, begun);
      if FirstError(begun).None? {
        PortalOpens(start, a.(sent := a.sent + begun), Query(c, begun).1, response);
        Assoc(a.sent, begun, response);
      }
    } else if c.state == Idle {
      PortalOpens(start, a, c, response);
    }
  }

  /** Closing a cursor commits exactly the transaction it began, once the portal is closed without error. */
  lemma CloseCursorCommitsIff(
    start: TransactionStatus, a: Account, c: Conn, owns: bool,
    closed: seq<BackendMessage>, committed: seq<BackendMessage>)
    requires Rested(c) && Current(start, c) && Accounted(a, c)
    requires Conforms(CloseDue, closed) && Conforms(SimpleStart, committed)
    ensures var (result, c') := CloseCursor(c, owns, closed, committed);
            && Accounted(a.(sent := a.sent + if owns then Both(closed, committed) else closed), c')
            && Current(start, c') && Rested(c')
            && OkUnless(if FirstError(closed).Some? || !owns then FirstError(closed) else FirstError(committed), result)
  {
    var sent := Send(c.(state := ActiveExtendedQuery), closed);
    ConformingOwesOneReady(CloseDue, closed);
    BehindAsync(c.unread, closed);
    CollectSettles(Discarding, sent);
    CommandAccounts(a, c, ActiveExtendedQuery, Discarding, closed);
    CollectStatus(start, Discarding, sent);
    if owns && FirstError(closed).None? {
      QueryRuns(start, a.(sent := a.sent + closed), Collect(Discarding, sent).1, committed);
      Assoc(a.sent, closed, committed);
    }
  }
}
