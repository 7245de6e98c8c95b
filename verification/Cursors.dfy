/** Cursors: rows fetched from a portal in batches. `portal` lists the server's responses to the
    successive Execute/Sync pairs that a cursor writes. */
module Cursors {
  import opened Basics
  import opened Messages
  import opened Grammar
  import opened Engine
  import opened SyncDebt

  datatype CursorPhase = Active | Exhausted(tag: string) | Broken

  /** `buffered` is the current batch in reverse, so that the next row is popped off its end. */
  datatype CursorStream = CursorStream(phase: CursorPhase, columns: Columns, buffered: seq<Row>)

  function Reverse<T>(s: seq<T>): (r: seq<T>)
    ensures |r| == |s|
  {
    if s == [] then [] else Reverse(s[1..]) + [s[0]]
  }

  predicate CursorIsDone(cs: CursorStream) { !cs.phase.Active? }

  function Pop(cs: CursorStream): (Item, CursorStream) {
    var n := |cs.buffered|;
    if n == 0 then (End, cs) else (Yield(cs.buffered[n - 1]), cs.(buffered := cs.buffered[..n - 1]))
  }

  function Answer(portal: seq<seq<BackendMessage>>): seq<BackendMessage> {
    if portal == [] then [] else portal[0]
  }

  function Rest(portal: seq<seq<BackendMessage>>): seq<seq<BackendMessage>> {
    if portal == [] then [] else portal[1..]
  }

  /** One Execute/Sync round trip: `Cursor::fetch_next` without its `done` check. */
  function Fetch(columns: Columns, c: Conn, response: seq<BackendMessage>): (Result<Reader>, Conn) {
    Command(c, ActiveExtendedQuery, Fetching(columns, [], None), response)
  }

  /** The columns a cursor is left with by a fetch that fails: descriptions take effect as they arrive. */
  function SeenColumns(columns: Columns, ms: seq<BackendMessage>): Columns
    decreases |ms|
  {
    if ms == [] || ms[0].ErrorResponse? || ms[0].ReadyForQuery? then columns
    else SeenColumns(if ms[0].RowDescription? then ms[0].columns else columns, ms[1..])
  }

  /** `CursorStream::next`. */
  function CursorNext(cs: CursorStream, c: Conn, portal: seq<seq<BackendMessage>>)
    : (Item, CursorStream, Conn, seq<seq<BackendMessage>>)
    decreases |portal|, |c.unread|
  {
    if CursorIsDone(cs) || cs.buffered != [] then
      var (item, cs') := Pop(cs);
      (item, cs', c, portal)
    else if !TransitionAllowed(c.state, ActiveExtendedQuery) then (Fault(InvalidState), cs, c, portal)
    else
      var (result, c') := Fetch(cs.columns, c, Answer(portal));
      match result
      case Err(failure) =>
        var cs' := cs.(columns := SeenColumns(cs.columns, c.unread + Answer(portal)));
        (Fault(failure), if failure.Server? then cs'.(phase := Broken) else cs', c', Rest(portal))
      case Ok(reader) =>
        var phase := if reader.tag.Some? then Exhausted(reader.tag.value) else Active;
        if reader.rows == [] && phase.Active? then
          CursorNext(CursorStream(phase, reader.columns, []), c', Rest(portal))
        else
          var (item, cs') := Pop(CursorStream(phase, reader.columns, Reverse(reader.rows)));
          (item, cs', c', Rest(portal))
  }

  // ----- what the portal holds ------------------------------------------------------

  function RowsOf(columns: Columns, ms: seq<BackendMessage>): seq<Row> {
    if ms == [] then []
    else (if ms[0].DataRow? then [Row(columns, ms[0].values)] else []) + RowsOf(columns, ms[1..])
  }

  predicate Completes(ms: seq<BackendMessage>) {
    exists i | 0 <= i < |ms| :: ms[i].CommandComplete?
  }

  /** Every response follows the grammar without an error, and some response completes the command. */
  predicate Good(portal: seq<seq<BackendMessage>>) {
    && portal != []
    && Conforms(FetchStart, portal[0]) && FirstError(portal[0]).None?
    && (Completes(portal[0]) || Good(portal[1..]))
  }

  /** The rows of the portal, batch by batch, up to and including the completing batch. */
  function PortalRows(columns: Columns, portal: seq<seq<BackendMessage>>): seq<Row> {
    if portal == [] then []
    else RowsOf(columns, portal[0]) + (if Completes(portal[0]) then [] else PortalRows(columns, portal[1..]))
  }

  /** What reading one batch from `c` must come to, `rows` and `tag` having been read already. */
  predicate BatchRead(columns: Columns, rows: seq<Row>, tag: Option<string>, c: Conn, out: (Result<Reader>, Conn)) {
    var (result, c') := out;
    && c'.state == Idle && c'.needsRecovery == c.needsRecovery && AllAsync(c'.unread)
    && result.Ok? && result.value.Fetching? && result.value.columns == columns
    && result.value.rows == rows + RowsOf(columns, c.unread)
    && (result.value.tag.Some? <==> tag.Some? || Completes(c.unread))
  }

  lemma BatchEnd(columns: Columns, rows: seq<Row>, tag: Option<string>, c: Conn)
    requires c.unread != [] && c.unread[0].ReadyForQuery? && AllAsync(c.unread[1..])
    ensures BatchRead(columns, rows, tag, c, Collect(Fetching(columns, rows, tag), c))
  {
    AsyncHoldsNoRows(columns, c.unread[1..]);
    assert c.unread == [c.unread[0]] + c.unread[1..];
    assert rows + [] == rows;
  }

  lemma {:induction false} FetchCollects(g: Expect, columns: Columns, rows: seq<Row>, tag: Option<string>, c: Conn)
    requires g in {FetchStart, FetchRows, FetchDone} && Conforms(g, c.unread) && FirstError(c.unread).None?
    ensures BatchRead(columns, rows, tag, c, Collect(Fetching(columns, rows, tag), c))
    decreases |c.unread|
  {
    var m, rest := c.unread[0], c.unread[1..];
    if m.ReadyForQuery? {
      ConformingOwesOneReady(Settled, rest);
      BatchEnd(columns, rows, tag, c);
    } else {
      RowsOfFirst(columns, c.unread);
      if IsAsync(m) {
        FetchCollects(g, columns, rows, tag, Absorb(Take(c), m));
      } else {
        var r := StepReader(Fetching(columns, rows, tag), m);
        FetchCollects(Follow(g, m).value, columns, r.rows, r.tag, Take(c));
        if m.DataRow? {
          Assoc(rows, [Row(columns, m.values)], RowsOf(columns, rest));
        }
      }
    }
  }

  lemma RowsOfFirst(columns: Columns, ms: seq<BackendMessage>)
    requires ms != []
    ensures Completes(ms) <==> ms[0].CommandComplete? || Completes(ms[1..])
    ensures !ms[0].DataRow? ==> RowsOf(columns, ms) == RowsOf(columns, ms[1..])
  {
    assert ms == [ms[0]] + ms[1..];
    assert [] + RowsOf(columns, ms[1..]) == RowsOf(columns, ms[1..]);
  }

  lemma {:induction false} AsyncHoldsNoRows(columns: Columns, ms: seq<BackendMessage>)
    requires AllAsync(ms)
    ensures RowsOf(columns, ms) == [] && !Completes(ms)
  {
    if ms != [] {
      AsyncHoldsNoRows(columns, ms[1..]);
    }
  }

  lemma {:induction false} RowsBehindAsync(columns: Columns, early: seq<BackendMessage>, ms: seq<BackendMessage>)
    requires AllAsync(early)
    ensures RowsOf(columns, early + ms) == RowsOf(columns, ms) && (Completes(early + ms) <==> Completes(ms))
  {
    if early == [] {
      assert early + ms == ms;
    } else {
      RowsBehindAsync(columns, early[1..], ms);
      assert (early + ms)[1..] == early[1..] + ms;
      assert early + ms == [early[0]] + (early[1..] + ms);
    }
  }

  /** One batch: exactly the rows of the response, the connection Idle again. */
  lemma FetchBatch(columns: Columns, c: Conn, response: seq<BackendMessage>)
    requires c.state == Idle && AllAsync(c.unread)
    requires Conforms(FetchStart, response) && FirstError(response).None?
    ensures var (result, c') := Fetch(columns, c, response);
            && c'.state == Idle && c'.needsRecovery == c.needsRecovery && AllAsync(c'.unread)
            && result.Ok? && result.value.Fetching? && result.value.columns == columns
            && result.value.rows == RowsOf(columns, response)
            && (result.value.tag.Some? <==> Completes(response))
  {
    ConformsBehindAsync(FetchStart, c.unread, response);
    BehindAsync(c.unread, response);
    RowsBehindAsync(columns, c.unread, response);
    FetchCollects(FetchStart, columns, [], None, Send(c.(state := ActiveExtendedQuery), response));
    assert [] + RowsOf(columns, response) == RowsOf(columns, response);
  }

  // ----- batching is invisible --------------------------------------------------------

  /** The rows a cursor stream has still to deliver. */
  function Remaining(cs: CursorStream, portal: seq<seq<BackendMessage>>): seq<Row> {
    Reverse(cs.buffered) + (if cs.phase.Active? then PortalRows(cs.columns, portal) else [])
  }

  predicate Healthy(cs: CursorStream, c: Conn, portal: seq<seq<BackendMessage>>) {
    && c.state == Idle && AllAsync(c.unread) && !cs.phase.Broken?
    && (cs.phase.Active? ==> Good(portal))
  }

  lemma {:induction false} ReverseLast<T>(s: seq<T>, x: T)
    ensures Reverse(s + [x]) == [x] + Reverse(s)
  {
    if s == [] {
      assert s + [x] == [x] && [x][1..] == [];
    } else {
      ReverseLast(s[1..], x);
      assert (s + [x])[1..] == s[1..] + [x];
    }
  }

  lemma {:induction false} ReverseReverse<T>(s: seq<T>)
    ensures Reverse(Reverse(s)) == s
  {
    if s != [] {
      ReverseReverse(s[1..]);
      ReverseLast(Reverse(s[1..]), s[0]);
      assert [s[0]] + s[1..] == s;
    }
  }

  lemma PopYields(cs: CursorStream, more: seq<Row>)
    requires cs.buffered != []
    ensures var (item, cs') := Pop(cs);
            var all := Reverse(cs.buffered) + more;
            item == Yield(all[0]) && Reverse(cs'.buffered) + more == all[1..]
  {
    var n := |cs.buffered|;
    var s, x := cs.buffered[..n - 1], cs.buffered[n - 1];
    assert s + [x] == cs.buffered;
    ReverseLast(s, x);
    assert ([x] + Reverse(s)) + more == [x] + (Reverse(s) + more);
  }

  /** `next` yields the first remaining row, or nothing when there is none, and stays so. */
  predicate YieldsNext(
    remaining: seq<Row>, c: Conn, out: (Item, CursorStream, Conn, seq<seq<BackendMessage>>))
  {
    var (item, cs', c', portal') := out;
    && Healthy(cs', c', portal') && c'.needsRecovery == c.needsRecovery
    && (if remaining == [] then item == End && CursorIsDone(cs') && Remaining(cs', portal') == []
        else item == Yield(remaining[0]) && Remaining(cs', portal') == remaining[1..])
  }

  /** The cursor once a batch has arrived. */
  function Filled(reader: Reader): CursorStream
    requires reader.Fetching?
  {
    CursorStream(if reader.tag.Some? then Exhausted(reader.tag.value) else Active, reader.columns, Reverse(reader.rows))
  }

  lemma FilledRemaining(reader: Reader, portal: seq<seq<BackendMessage>>)
    requires reader.Fetching?
    ensures Remaining(Filled(reader), portal)
         == reader.rows + (if reader.tag.None? then PortalRows(reader.columns, portal) else [])
  {
    ReverseReverse(reader.rows);
  }

  lemma FilledYields(reader: Reader, c: Conn, portal: seq<seq<BackendMessage>>)
    requires reader.Fetching? && (reader.rows != [] || reader.tag.Some?)
    requires Healthy(Filled(reader), c, portal)
    ensures var (item, cs') := Pop(Filled(reader));
            YieldsNext(Remaining(Filled(reader), portal), c, (item, cs', c, portal))
  {
    var cs := Filled(reader);
    assert Reverse<Row>([]) == [];
    if reader.rows != [] {
      PopYields(cs, if cs.phase.Active? then PortalRows(cs.columns, portal) else []);
    }
  }

  lemma {:induction false} CursorNextYields(cs: CursorStream, c: Conn, portal: seq<seq<BackendMessage>>)
    requires Healthy(cs, c, portal)
    ensures YieldsNext(Remaining(cs, portal), c, CursorNext(cs, c, portal))
    decreases |portal|
  {
    assert Reverse<Row>([]) == [];
    if cs.buffered != [] {
      PopYields(cs, if cs.phase.Active? then PortalRows(cs.columns, portal) else []);
    } else if cs.phase.Active? {
      var rest := portal[1..];
      FetchBatch(cs.columns, c, portal[0]);
      var (result, c') := Fetch(cs.columns, c, portal[0]);
      FilledRemaining(result.value, rest);
      assert Remaining(Filled(result.value), rest) == Remaining(cs, portal);
      if result.value.rows == [] && result.value.tag.None? {
        CursorNextYields(Filled(result.value), c', rest);
      } else {
        FilledYields(result.value, c', rest);
      }
    }
  }

  /** What the first n calls of `next` return. */
  function Pull(cs: CursorStream, c: Conn, portal: seq<seq<BackendMessage>>, n: nat): (items: seq<Item>)
    ensures |items| == n
    decreases n
  {
    if n == 0 then []
    else
      var (item, cs', c', portal') := CursorNext(cs, c, portal);
      [item] + Pull(cs', c', portal', n - 1)
  }

  /** Batching is invisible: however the rows are split into batches, repeated `next` yields precisely
      the rows of the portal in order and then None forever. */
  lemma {:induction false} BatchingIsInvisible(cs: CursorStream, c: Conn, portal: seq<seq<BackendMessage>>, n: nat)
    requires Healthy(cs, c, portal)
    ensures var rows := Remaining(cs, portal);
            forall i | 0 <= i < n :: Pull(cs, c, portal, n)[i] == if i < |rows| then Yield(rows[i]) else End
    decreases n
  {
    if n > 0 {
      var (item, cs', c', portal') := CursorNext(cs, c, portal);
      CursorNextYields(cs, c, portal);
      BatchingIsInvisible(cs', c', portal', n - 1);
    }
  }

  // ----- when the rows end ----------------------------------------------------------------------

  predicate AllFetch(portal: seq<seq<BackendMessage>>) {
    forall i | 0 <= i < |portal| :: Conforms(FetchStart, portal[i]) && FirstError(portal[i]).None?
  }

  predicate SomeCompletes(portal: seq<seq<BackendMessage>>) {
    exists i | 0 <= i < |portal| :: Completes(portal[i])
  }

  lemma {:induction false} CompletingIsGood(portal: seq<seq<BackendMessage>>)
    requires AllFetch(portal) && SomeCompletes(portal)
    ensures Good(portal)
  {
    if !Completes(portal[0]) {
      assert portal == [portal[0]] + portal[1..];
      CompletingIsGood(portal[1..]);
    }
  }

  /** Every n calls of `next` yield these rows in order and then None. */
  ghost predicate YieldsThenEnds(cs: CursorStream, c: Conn, portal: seq<seq<BackendMessage>>, rows: seq<Row>) {
    forall n: nat :: YieldsFirst(rows, Pull(cs, c, portal, n))
  }

  predicate YieldsFirst(rows: seq<Row>, items: seq<Item>) {
    forall i | 0 <= i < |items| :: items[i] == if i < |rows| then Yield(rows[i]) else End
  }

  lemma {:induction false} CollectOnAsync(r: Reader, c: Conn)
    requires AllAsync(c.unread)
    ensures Collect(r, c).0 == Err(UnexpectedEof)
    decreases |c.unread|
  {
    if c.unread != [] {
      CollectOnAsync(r, Absorb(Take(c), c.unread[0]));
    }
  }

  predicate Unending(cs: CursorStream, c: Conn, portal: seq<seq<BackendMessage>>) {
    c.state == Idle && AllAsync(c.unread) && cs.phase.Active? && AllFetch(portal) && !SomeCompletes(portal)
  }

  lemma UnendingRest(cs: CursorStream, c: Conn, portal: seq<seq<BackendMessage>>)
    requires Unending(cs, c, portal) && portal != []
    ensures !Completes(portal[0]) && AllFetch(portal[1..]) && !SomeCompletes(portal[1..])
  {
    assert portal == [portal[0]] + portal[1..];
  }

  /** While no answer completes, `next` yields the rows there are; the call behind the last row uses up every
      answer and still waits for one more. */
  lemma {:induction false} UnendingNext(cs: CursorStream, c: Conn, portal: seq<seq<BackendMessage>>)
    requires Unending(cs, c, portal)
    ensures var (item, cs', c', portal') := CursorNext(cs, c, portal);
            var remaining := Remaining(cs, portal);
            if remaining == [] then item == Fault(UnexpectedEof) && portal' == []
            else item == Yield(remaining[0]) && Unending(cs', c', portal') && Remaining(cs', portal') == remaining[1..]
    decreases |portal|
  {
    assert Reverse<Row>([]) == [];
    if cs.buffered != [] {
      PopYields(cs, PortalRows(cs.columns, portal));
    } else if portal == [] {
      CollectOnAsync(Fetching(cs.columns, [], None), Send(c.(state := ActiveExtendedQuery), []));
    } else {
      var response, rest := portal[0], portal[1..];
      UnendingRest(cs, c, portal);
      FetchBatch(cs.columns, c, response);
      var (result, c') := Fetch(cs.columns, c, response);
      var rows := result.value.rows;
      assert Remaining(cs, portal) == rows + PortalRows(cs.columns, rest);
      if rows == [] {
        UnendingNext(CursorStream(Active, cs.columns, []), c', rest);
      } else {
        var filled := CursorStream(Active, cs.columns, Reverse(rows));
        ReverseReverse(rows);
        PopYields(filled, PortalRows(cs.columns, rest));
      }
    }
  }

  lemma PullNext(cs: CursorStream, c: Conn, portal: seq<seq<BackendMessage>>, n: nat)
    ensures var (item, cs', c', portal') := CursorNext(cs, c, portal);
            Pull(cs, c, portal, n + 1)[n] == if n == 0 then item else Pull(cs', c', portal', n)[n - 1]
  {
  }

  lemma {:induction false} UnendingPull(cs: CursorStream, c: Conn, portal: seq<seq<BackendMessage>>)
    requires Unending(cs, c, portal)
    ensures var k := |Remaining(cs, portal)|; Pull(cs, c, portal, k + 1)[k] == Fault(UnexpectedEof)
    decreases |Remaining(cs, portal)|
  {
    UnendingNext(cs, c, portal);
    PullNext(cs, c, portal, |Remaining(cs, portal)|);
    if Remaining(cs, portal) != [] {
      var (_, cs', c', portal') := CursorNext(cs, c, portal);
      UnendingPull(cs', c', portal');
    }
  }

  /** Batching is invisible, exactly: repeated `next` yields the rows of all batches in order and then None
      forever if and only if some answer completes the command. */
  lemma BatchingIsInvisibleIff(columns: Columns, c: Conn, portal: seq<seq<BackendMessage>>)
    requires c.state == Idle && AllAsync(c.unread) && AllFetch(portal)
    ensures YieldsThenEnds(CursorStream(Active, columns, []), c, portal, PortalRows(columns, portal))
            <==> SomeCompletes(portal)
  {
    var cs := CursorStream(Active, columns, []);
    var rows := PortalRows(columns, portal);
    assert Remaining(cs, portal) == rows by { assert Reverse<Row>([]) == []; }
    if SomeCompletes(portal) {
      CompletingIsGood(portal);
      forall n: nat
        ensures YieldsFirst(rows, Pull(cs, c, portal, n))
      {
        BatchingIsInvisible(cs, c, portal, n);
      }
    } else {
      UnendingPull(cs, c, portal);
      assert !YieldsFirst(rows, Pull(cs, c, portal, |rows| + 1));
    }
  }

  /** A batch ends in one of three ways. */
  lemma {:induction false} BatchEndsOneWay(g: Expect, ms: seq<BackendMessage>)
    requires g in {FetchStart, FetchRows, FetchDone, Settled} && Conforms(g, ms) && FirstError(ms).None?
    ensures g in {FetchDone, Settled} ==> !Completes(ms) && PortalSuspended !in ms && EmptyQueryResponse !in ms
    ensures g in {FetchStart, FetchRows} ==>
              (Completes(ms) <==> PortalSuspended !in ms && EmptyQueryResponse !in ms)
    decreases |ms|
  {
    if ms != [] {
      var m, rest := ms[0], ms[1..];
      assert ms == [m] + rest;
      assert Completes(ms) <==> m.CommandComplete? || Completes(rest);
      if m.ReadyForQuery? {
        ConformingOwesOneReady(Settled, rest);
        AsyncHoldsNoRows([], rest);
      } else {
        BatchEndsOneWay(Follow(g, m).value, rest);
      }
    }
  }

  /** The portal ran to its end: every answer but the last suspends it, and the last does not. */
  predicate RanToEnd(portal: seq<seq<BackendMessage>>) {
    && portal != [] && AllFetch(portal)
    && forall i | 0 <= i < |portal| :: PortalSuspended in portal[i] <==> i < |portal| - 1
  }

  /** In the server's terms: on a portal that ran to its end, the rows come and then None exactly when its
      last answer is not EmptyQueryResponse, that is for non-empty SQL. */
  lemma EmptyPortalIff(columns: Columns, c: Conn, portal: seq<seq<BackendMessage>>)
    requires c.state == Idle && AllAsync(c.unread) && RanToEnd(portal)
    ensures YieldsThenEnds(CursorStream(Active, columns, []), c, portal, PortalRows(columns, portal))
            <==> EmptyQueryResponse !in portal[|portal| - 1]
  {
    BatchingIsInvisibleIff(columns, c, portal);
    forall i | 0 <= i < |portal|
      ensures Completes(portal[i]) <==> i == |portal| - 1 && EmptyQueryResponse !in portal[i]
    {
      BatchEndsOneWay(FetchStart, portal[i]);
    }
    assert Completes(portal[|portal| - 1]) <==> EmptyQueryResponse !in portal[|portal| - 1];
  }

  /** The failing input: however often the server, in the cursor's transaction, answers an empty portal, `next`
      asks again. */
  lemma EmptyPortalNeverReturns(columns: Columns, c: Conn, portal: seq<seq<BackendMessage>>)
    requires c.state == Idle && AllAsync(c.unread)
    requires forall i | 0 <= i < |portal| :: portal[i] == [EmptyQueryResponse, ReadyForQuery('T')]
    ensures AllFetch(portal)
    ensures var (item, _, _, portal') := CursorNext(CursorStream(Active, columns, []), c, portal);
            item == Fault(UnexpectedEof) && portal' == []
  {
    var answer := [EmptyQueryResponse, ReadyForQuery('T')];
    assert answer[1..] == [ReadyForQuery('T')] && answer[1..][1..] == [];
    assert Conforms(FetchStart, answer) && FirstError(answer).None?;
    BatchEndsOneWay(FetchStart, answer);
    assert answer[0] == EmptyQueryResponse;
    NoPortalRows(columns, portal);
    assert Reverse<Row>([]) == [];
    UnendingNext(CursorStream(Active, columns, []), c, portal);
  }

  lemma {:induction false} NoPortalRows(columns: Columns, portal: seq<seq<BackendMessage>>)
    requires forall i | 0 <= i < |portal| :: portal[i] == [EmptyQueryResponse, ReadyForQuery('T')]
    ensures PortalRows(columns, portal) == []
  {
    if portal != [] {
      var answer := [EmptyQueryResponse, ReadyForQuery('T')];
      assert answer[1..] == [ReadyForQuery('T')] && answer[1..][1..] == [];
      assert RowsOf(columns, answer[1..][1..]) == [] && RowsOf(columns, answer[1..]) == [];
      NoPortalRows(columns, portal[1..]);
    }
  }

  /** `Cursor::fetch_next` until the cursor is done, as the concatenation of its batches. */
  function FetchAll(columns: Columns, c: Conn, portal: seq<seq<BackendMessage>>): (seq<Row>, Conn)
    decreases |portal|
  {
    if portal == [] then ([], c)
    else
      var (result, c') := Fetch(columns, c, portal[0]);
      if result.Err? then ([], c')
      else if result.value.tag.Some? then (result.value.rows, c')
      else
        var (more, c'') := FetchAll(result.value.columns, c', portal[1..]);
        (result.value.rows + more, c'')
  }

  /** The batches concatenate to the rows that the cursor stream yields one by one. */
  lemma {:induction false} BatchesConcatenate(columns: Columns, c: Conn, portal: seq<seq<BackendMessage>>)
    requires c.state == Idle && AllAsync(c.unread) && Good(portal)
    ensures FetchAll(columns, c, portal).0 == Remaining(CursorStream(Active, columns, []), portal)
    ensures FetchAll(columns, c, portal).1.state == Idle
    decreases |portal|
  {
    FetchBatch(columns, c, portal[0]);
    assert Reverse<Row>([]) == [];
    if !Completes(portal[0]) {
      BatchesConcatenate(columns, Fetch(columns, c, portal[0]).1, portal[1..]);
    }
  }

  // ----- errors, and the tag ------------------------------------------------------------------------

  /** A cursor that is done, with nothing buffered, ends on every call. */
  lemma {:induction false} EndedStays(cs: CursorStream, c: Conn, portal: seq<seq<BackendMessage>>, n: nat)
    requires CursorIsDone(cs) && cs.buffered == []
    ensures forall i | 0 <= i < n :: Pull(cs, c, portal, n)[i] == End
    decreases n
  {
    if n > 0 {
      EndedStays(cs, c, portal, n - 1);
    }
  }

  /** An answer in which the server reports an error: `next` returns the first one reported, once, whatever rows came
      before it, resynchronises, and ends for good. */
  lemma ErrorEndsCursor(cs: CursorStream, c: Conn, portal: seq<seq<BackendMessage>>, n: nat)
    requires cs.phase.Active? && cs.buffered == [] && c.state == Idle && AllAsync(c.unread)
    requires portal != [] && Conforms(FetchStart, portal[0]) && FirstError(portal[0]).Some?
    ensures var (item, cs', c', portal') := CursorNext(cs, c, portal);
            && item == Fault(Server(FirstError(portal[0]).value)) && portal' == portal[1..]
            && c'.state == Idle && AllAsync(c'.unread) && CursorIsDone(cs')
            && forall i | 0 <= i < n :: Pull(cs', c', portal', n)[i] == End
  {
    var sent := Send(c.(state := ActiveExtendedQuery), portal[0]);
    ConformingOwesOneReady(FetchStart, portal[0]);
    BehindAsync(c.unread, portal[0]);
    CollectSettles(Fetching(cs.columns, [], None), sent);
    var (_, cs', c', portal') := CursorNext(cs, c, portal);
    EndedStays(cs', c', portal', n);
  }

  /** The tag that a fetch reads is the one in the answer. */
  lemma {:induction false} FetchReadsTag(g: Expect, r: Reader, c: Conn, tag: string)
    requires g in {FetchStart, FetchRows} && Conforms(g, c.unread) && FirstError(c.unread).None?
    requires r.Fetching? && CommandComplete(tag) in c.unread
    ensures var result := Collect(r, c).0; result.Ok? && result.value.Fetching? && result.value.tag == Some(tag)
    decreases |c.unread|
  {
    var m, rest := c.unread[0], c.unread[1..];
    assert c.unread == [m] + rest;
    if IsAsync(m) {
      FetchReadsTag(g, r, Absorb(Take(c), m), tag);
    } else if m.DataRow? {
      FetchReadsTag(Follow(g, m).value, StepReader(r, m), Take(c), tag);
    } else {
      NoTagOnceDone(FetchDone, rest);
      DoneKeepsReader(StepReader(r, m), Take(c));
    }
  }

  lemma {:induction false} NoTagOnceDone(g: Expect, ms: seq<BackendMessage>)
    requires g in {FetchDone, Settled} && Conforms(g, ms) && FirstError(ms).None?
    ensures forall tag :: CommandComplete(tag) !in ms
    decreases |ms|
  {
    if ms != [] {
      assert ms == [ms[0]] + ms[1..];
      if ms[0].ReadyForQuery? {
        ConformingOwesOneReady(Settled, ms[1..]);
      } else {
        NoTagOnceDone(g, ms[1..]);
      }
    }
  }

  lemma {:induction false} DoneKeepsReader(r: Reader, c: Conn)
    requires Conforms(FetchDone, c.unread) && FirstError(c.unread).None?
    ensures Collect(r, c).0 == Ok(r)
    decreases |c.unread|
  {
    if IsAsync(c.unread[0]) {
      DoneKeepsReader(r, Absorb(Take(c), c.unread[0]));
    }
  }

  /** A cursor whose answer completes the command is exhausted with the tag of that answer. */
  lemma CompletingExhausts(cs: CursorStream, c: Conn, portal: seq<seq<BackendMessage>>, tag: string)
    requires cs.phase.Active? && cs.buffered == [] && c.state == Idle && AllAsync(c.unread)
    requires portal != [] && Conforms(FetchStart, portal[0]) && FirstError(portal[0]).None?
    requires CommandComplete(tag) in portal[0]
    ensures CursorNext(cs, c, portal).1.phase == Exhausted(tag)
  {
    var sent := Send(c.(state := ActiveExtendedQuery), portal[0]);
    ConformsBehindAsync(FetchStart, c.unread, portal[0]);
    BehindAsync(c.unread, portal[0]);
    FetchReadsTag(FetchStart, Fetching(cs.columns, [], None), sent, tag);
  }

  // ----- dropping -----------------------------------------------------------------------------------

  /** `Drop for CursorStream`. */
  function DropCursor(cs: CursorStream, c: Conn): Conn {
    if CursorIsDone(cs) then c else c.(needsRecovery := true)
  }

  /** A cursor stream never owes a ReadyForQuery between calls, so dropping it leaves the connection
      synchronised exactly when it is done; an early drop asks for a recovery that finds nothing to read. */
  lemma CursorDropSynchronisedIff(cs: CursorStream, c: Conn)
    requires c.state == Idle && AllAsync(c.unread) && !c.needsRecovery
    ensures Synchronised(Session(DropCursor(cs, c), None, [])) <==> CursorIsDone(cs)
    ensures !CursorIsDone(cs) ==> !Recover(DropCursor(cs, c)).0
  {
    if !CursorIsDone(cs) {
      NothingToRecover(DropCursor(cs, c));
    }
  }

  lemma {:induction false} NothingToRecover(c: Conn)
    requires AllAsync(c.unread)
    ensures !ReadUntilReady(c).0
    decreases |c.unread|
  {
    if c.unread != [] {
      NothingToRecover(Absorb(Take(c), c.unread[0]));
    }
  }
}
