/** What waiting for a notification hands out: the first one that is there. */
module Waits {
  import opened Basics
  import opened Messages
  import opened Grammar
  import opened Engine
  import opened SyncDebt
  import opened Conservation

  /** The messages up to and including the first ReadyForQuery. */
  function UpToReady(ms: seq<BackendMessage>): seq<BackendMessage> {
    if ms == [] then [] else if ms[0].ReadyForQuery? then [ms[0]] else [ms[0]] + UpToReady(ms[1..])
  }

  lemma {:induction false} UpToReadyBehindAsync(early: seq<BackendMessage>, ms: seq<BackendMessage>)
    requires AllAsync(early)
    ensures UpToReady(early + ms) == early + UpToReady(ms)
  {
    if early == [] {
      assert early + ms == ms && [] + UpToReady(ms) == UpToReady(ms);
    } else {
      UpToReadyBehindAsync(early[1..], ms);
      assert (early + ms)[1..] == early[1..] + ms;
      assert early == [early[0]] + early[1..];
    }
  }

  lemma NotificationsFirst(m: BackendMessage, ms: seq<BackendMessage>)
    ensures Notifications([m] + ms) == NotificationsOf(m) + Notifications(ms)
  {
    NotificationsConcat([m], ms);
    assert [m][..0] == [] && [] + NotificationsOf(m) == NotificationsOf(m);
  }

  function First(ns: seq<Notification>): Option<Notification> { if ns == [] then None else Some(ns[0]) }

  function ReadsOf(ahead: seq<Notification>, deadline: bool): Result<Option<Notification>> {
    if ahead != [] then Ok(Some(ahead[0])) else if deadline then Ok(None) else Err(UnexpectedEof)
  }

  lemma ReadNextGoesOn(c: Conn, deadline: bool)
    requires c.unread != [] && PassedOver(c).Some?
    ensures ReadNextNotification(c, deadline) == ReadNextNotification(PassedOver(c).value, deadline)
    ensures PassedOver(c).value.unread == c.unread[1..]
  {
  }

  lemma {:induction false} ReadNextHandsFirst(c: Conn, deadline: bool)
    requires AllAsync(c.unread)
    ensures ReadNextNotification(c, deadline).0 == ReadsOf(Notifications(c.unread), deadline)
    decreases |c.unread|
  {
    if c.unread != [] {
      var m, rest := c.unread[0], c.unread[1..];
      assert c.unread == [m] + rest;
      NotificationsFirst(m, rest);
      if !m.NotificationResponse? {
        assert [] + Notifications(rest) == Notifications(rest);
        ReadNextGoesOn(c, deadline);
        ReadNextHandsFirst(PassedOver(c).value, deadline);
      }
    }
  }

  lemma WaitCycleStops(c: Conn)
    requires OneReady(c.unread) && c.queue == [] && (c.unread[0].NotificationResponse? || c.unread[0].ReadyForQuery?)
    ensures WaitCycle(c).0 == Ok(First(NotificationsOf(c.unread[0])))
  {
    if c.unread[0].NotificationResponse? {
      ReadUntilReadySettles(Take(c));
    }
  }

  lemma WaitCycleGoesOn(c: Conn)
    requires c.unread != [] && !c.unread[0].NotificationResponse? && !c.unread[0].ReadyForQuery?
    ensures WaitCycle(c) == WaitCycle(WaitedOn(c)) && (c.queue == [] ==> WaitedOn(c).queue == [])
  {
  }

  lemma {:induction false} WaitCycleHandsFirst(c: Conn)
    requires OneReady(c.unread) && c.queue == []
    ensures WaitCycle(c).0 == Ok(First(Notifications(UpToReady(c.unread))))
    decreases |c.unread|
  {
    var m, rest := c.unread[0], c.unread[1..];
    var more := if m.ReadyForQuery? then [] else UpToReady(rest);
    assert UpToReady(c.unread) == [m] + more;
    NotificationsFirst(m, more);
    if m.NotificationResponse? || m.ReadyForQuery? {
      WaitCycleStops(c);
    } else {
      WaitCycleGoesOn(c);
      WaitCycleHandsFirst(WaitedOn(c));
    }
  }

  predicate Waits(a: Action) { a.WaitByQuery? || a.WaitByReading? }

  function WaitResult(c: Conn, a: Action): Result<Option<Notification>>
    requires Waits(a)
  {
    if a.WaitByQuery? then WaitForNotification(c, a.zeroTimeout, a.response).0
    else AwaitNotification(c, a.zeroTimeout, a.deadline).0
  }

  /** The notifications within reach of a wait, oldest first: those queued; unless it is not to wait, those left to
      read; and those that come with the answer to its empty query. */
  function WithinReach(c: Conn, a: Action): seq<Notification>
    requires Waits(a)
  {
    if a.zeroTimeout || c.state != Idle then c.queue
    else c.queue + Notifications(c.unread + if a.WaitByQuery? then UpToReady(a.response) else [])
  }

  lemma WaitByQueryHandsFirst(c: Conn, response: seq<BackendMessage>)
    requires c.state == Idle && AllAsync(c.unread) && c.queue == [] && Conforms(SimpleStart, response)
    ensures WaitForNotification(c, false, response).0 == Ok(First(Notifications(c.unread + UpToReady(response))))
  {
    ConformingOwesOneReady(SimpleStart, response);
    BehindAsync(c.unread, response);
    UpToReadyBehindAsync(c.unread, response);
    WaitCycleHandsFirst(Send(c.(state := ActiveSimpleQuery), response));
  }

  /** A wait, at any point of any run, hands out the first notification within its reach, and none if and only if
      there is none. With none there it returns nothing, except that it refuses to read outside Idle, and that the
      end of the stream is an error where no deadline comes first. */
  lemma WaitHandsOutFirst(s: Session, a: Action)
    requires Coherent(s) && Enabled(s, a) && Legal(a) && Waits(a)
    ensures var within := WithinReach(s.conn, a);
            if within != [] then WaitResult(s.conn, a) == Ok(Some(within[0])) && Given(s, a) == [within[0]]
            else
              && Given(s, a) == []
              && WaitResult(s.conn, a) ==
                   if a.zeroTimeout then Ok(None)
                   else if s.conn.state != Idle then Err(InvalidState)
                   else if a.WaitByQuery? || a.deadline then Ok(None)
                   else Err(UnexpectedEof)
  {
    var c := s.conn;
    if c.queue == [] && !a.zeroTimeout && c.state == Idle {
      NeedsOneReady(c.unread);
      assert AllAsync(c.unread);
      var ahead := c.unread + if a.WaitByQuery? then UpToReady(a.response) else [];
      assert [] + Notifications(ahead) == Notifications(ahead);
      if a.WaitByQuery? {
        WaitByQueryHandsFirst(c, a.response);
      } else {
        assert c.unread + [] == c.unread;
        ReadNextHandsFirst(c, a.deadline);
      }
    }
  }

  /** Outside the grammar: a message that has no place between commands ends a wait by reading in an error. */
  lemma {:induction false} StrayMessageFails(k: nat, c: Conn, deadline: bool)
    requires k < |c.unread| && forall i | 0 <= i < k :: IsAsync(c.unread[i]) && !c.unread[i].NotificationResponse?
    requires var stray := c.unread[k]; !IsAsync(stray) && !stray.ReadyForQuery? && !stray.EmptyQueryResponse?
    ensures ReadNextNotification(c, deadline).0 == Err(InvalidState)
    decreases k
  {
    if k > 0 {
      assert IsAsync(c.unread[0]);
      ReadNextGoesOn(c, deadline);
      StrayMessageFails(k - 1, PassedOver(c).value, deadline);
    }
  }
}
