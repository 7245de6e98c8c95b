/** The server's side of the conversation: which message sequences answer which
    command (section 55.2, Message Flow, of the PostgreSQL 16 documentation),
    as an automaton over messages in which asynchronous messages are accepted
    everywhere and change nothing. */
module Grammar {
  import opened Basics
  import opened Messages

  /** `left` is the number of pipelined operations still to be answered after the current one. */
  datatype Expect =
    | SimpleStart | SimpleRows | SimpleCopy | SimpleNext
    | ParseDue(left: nat) | BindDue(left: nat) | DescribeDue(left: nat)
    | ExtendedRows(left: nat) | ExtendedNoRows(left: nat) | ExtendedCopy(left: nat) | ExtendedDone(left: nat)
    | StatementDue | ParametersDue | ShapeDue
    | PortalDue | PortalBindDue | CloseDue | SyncDue
    | FetchStart | FetchRows | FetchDone
    | AfterError
    | Settled

  /** The answer to a pipeline of n operations followed by one Sync. */
  function PipelineStart(n: nat): Expect {
    if n == 0 then ExtendedDone(0) else ParseDue(n - 1)
  }

  /** What may follow message `m`; None when the server may not send `m` here. */
  function Follow(g: Expect, m: BackendMessage): Option<Expect> {
    if IsAsync(m) then Some(g)
    else if m.ErrorResponse? then (if g.Settled? || g.AfterError? then None else Some(AfterError))
    else
      match g
      case SimpleStart => FollowStatement(m)
      case SimpleNext => if m.ReadyForQuery? then Some(Settled) else FollowStatement(m)
      case SimpleRows =>
        if m.DataRow? then Some(g) else if m.CommandComplete? then Some(SimpleNext) else None
      case SimpleCopy =>
        if m.CopyData? || m.CopyDone? then Some(g) else if m.CommandComplete? then Some(SimpleNext) else None
      case ParseDue(n) => if m.ParseComplete? then Some(BindDue(n)) else None
      case BindDue(n) => if m.BindComplete? then Some(DescribeDue(n)) else None
      case DescribeDue(n) =>
        if m.RowDescription? then Some(ExtendedRows(n)) else if m.NoData? then Some(ExtendedNoRows(n)) else None
      case ExtendedRows(n) =>
        if m.DataRow? then Some(g) else if m.CommandComplete? then Some(ExtendedDone(n)) else None
      case ExtendedNoRows(n) =>
        if m.CommandComplete? || m.EmptyQueryResponse? then Some(ExtendedDone(n))
        else if m.CopyOutResponse? then Some(ExtendedCopy(n)) else None
      case ExtendedCopy(n) =>
        if m.CopyData? || m.CopyDone? then Some(g) else if m.CommandComplete? then Some(ExtendedDone(n)) else None
      case ExtendedDone(n) =>
        if n == 0 then (if m.ReadyForQuery? then Some(Settled) else None)
        else if m.ParseComplete? then Some(BindDue(n - 1)) else None
      case StatementDue => if m.ParseComplete? then Some(ParametersDue) else None
      case ParametersDue => if m.ParameterDescription? then Some(ShapeDue) else None
      case ShapeDue => if m.RowDescription? || m.NoData? then Some(SyncDue) else None
      case PortalDue => if m.ParseComplete? then Some(PortalBindDue) else None
      case PortalBindDue => if m.BindComplete? then Some(ShapeDue) else None
      case CloseDue => if m.CloseComplete? then Some(SyncDue) else None
      case SyncDue => if m.ReadyForQuery? then Some(Settled) else None
      case FetchStart =>
        if m.DataRow? then Some(FetchRows)
        else if m.CommandComplete? || m.PortalSuspended? || m.EmptyQueryResponse? then Some(FetchDone) else None
      case FetchRows =>
        if m.DataRow? then Some(g) else if m.CommandComplete? || m.PortalSuspended? then Some(FetchDone) else None
      case FetchDone => if m.ReadyForQuery? then Some(Settled) else None
      case AfterError => if m.ReadyForQuery? then Some(Settled) else None
      case Settled => None
  }

  function FollowStatement(m: BackendMessage): Option<Expect> {
    if m.RowDescription? then Some(SimpleRows)
    else if m.CopyOutResponse? then Some(SimpleCopy)
    else if m.CommandComplete? || m.EmptyQueryResponse? then Some(SimpleNext)
    else None
  }

  /** `ms` is a whole answer for a server from which `g` is expected. */
  predicate Conforms(g: Expect, ms: seq<BackendMessage>)
    decreases |ms|
  {
    if ms == [] then g.Settled?
    else Follow(g, ms[0]).Some? && Conforms(Follow(g, ms[0]).value, ms[1..])
  }

  // ----- what the readers rely on -------------------------------------------

  /** Exactly one ReadyForQuery is owed, and nothing but asynchronous messages follows it. */
  predicate OneReady(ms: seq<BackendMessage>) {
    ms != [] && if ms[0].ReadyForQuery? then AllAsync(ms[1..]) else OneReady(ms[1..])
  }

  /** As OneReady, and a CommandComplete or an error comes first. */
  predicate RowsEnd(ms: seq<BackendMessage>) {
    && ms != []
    && if ms[0].CommandComplete? || ms[0].ErrorResponse? then OneReady(ms[1..])
       else !ms[0].ReadyForQuery? && RowsEnd(ms[1..])
  }

  /** As OneReady, and nothing but asynchronous messages comes before the ReadyForQuery or an error. */
  predicate Skippable(ms: seq<BackendMessage>) {
    && ms != []
    && if ms[0].ReadyForQuery? then AllAsync(ms[1..])
       else if ms[0].ErrorResponse? then OneReady(ms[1..])
       else IsAsync(ms[0]) && Skippable(ms[1..])
  }

  /** As OneReady, and an EmptyQueryResponse comes first. */
  predicate EmptyEnd(ms: seq<BackendMessage>) {
    && ms != []
    && if ms[0].EmptyQueryResponse? then Skippable(ms[1..]) else IsAsync(ms[0]) && EmptyEnd(ms[1..])
  }

  /** As OneReady, and some statement is described or completed first. */
  predicate Described(ms: seq<BackendMessage>) {
    && ms != []
    && if ms[0].RowDescription? then RowsEnd(ms[1..])
       else if ms[0].CommandComplete? || ms[0].EmptyQueryResponse? || ms[0].ErrorResponse? then OneReady(ms[1..])
       else !ms[0].ReadyForQuery? && Described(ms[1..])
  }

  /** What is left after the first ReadyForQuery. */
  function AfterReady(ms: seq<BackendMessage>): seq<BackendMessage> {
    if ms == [] then [] else if ms[0].ReadyForQuery? then ms[1..] else AfterReady(ms[1..])
  }

  /** The first ErrorResponse sent before ReadyForQuery. */
  function FirstError(ms: seq<BackendMessage>): Option<ServerError> {
    if ms == [] || ms[0].ReadyForQuery? then None
    else if ms[0].ErrorResponse? then Some(ms[0].error)
    else FirstError(ms[1..])
  }

  lemma {:induction false} ConformingOwesOneReady(g: Expect, ms: seq<BackendMessage>)
    requires Conforms(g, ms)
    ensures if g.Settled? then AllAsync(ms) else OneReady(ms)
    decreases |ms|
  {
    if ms != [] {
      ConformingOwesOneReady(Follow(g, ms[0]).value, ms[1..]);
    }
  }

  lemma {:induction false} ConformingRowsEnd(g: Expect, ms: seq<BackendMessage>)
    requires Conforms(g, ms)
    requires g in {SimpleRows, ExtendedRows(0), ExtendedCopy(0)} ||
             (g == ExtendedNoRows(0) && EmptyQueryResponse !in ms)
    ensures RowsEnd(ms)
    decreases |ms|
  {
    var next := Follow(g, ms[0]).value;
    if ms[0].CommandComplete? || ms[0].ErrorResponse? {
      ConformingOwesOneReady(next, ms[1..]);
    } else {
      ConformingRowsEnd(next, ms[1..]);
    }
  }

  lemma {:induction false} ConformingSkippable(ms: seq<BackendMessage>)
    requires Conforms(ExtendedDone(0), ms)
    ensures Skippable(ms)
    decreases |ms|
  {
    var next := Follow(ExtendedDone(0), ms[0]).value;
    if IsAsync(ms[0]) {
      ConformingSkippable(ms[1..]);
    } else {
      ConformingOwesOneReady(next, ms[1..]);
    }
  }

  lemma {:induction false} ConformingNoRows(ms: seq<BackendMessage>)
    requires Conforms(ExtendedNoRows(0), ms)
    ensures RowsEnd(ms) || EmptyEnd(ms)
    decreases |ms|
  {
    var next := Follow(ExtendedNoRows(0), ms[0]).value;
    if IsAsync(ms[0]) {
      ConformingNoRows(ms[1..]);
    } else if ms[0].EmptyQueryResponse? {
      ConformingSkippable(ms[1..]);
    } else if ms[0].CopyOutResponse? {
      ConformingRowsEnd(next, ms[1..]);
    } else {
      ConformingOwesOneReady(next, ms[1..]);
    }
  }

  lemma {:induction false} ConformingDescribed(g: Expect, ms: seq<BackendMessage>)
    requires Conforms(g, ms)
    requires g in {SimpleStart, SimpleCopy, ParseDue(0), BindDue(0), DescribeDue(0), ExtendedNoRows(0), ExtendedCopy(0)}
    ensures Described(ms)
    decreases |ms|
  {
    var next := Follow(g, ms[0]).value;
    if ms[0].RowDescription? {
      ConformingRowsEnd(next, ms[1..]);
    } else if ms[0].CommandComplete? || ms[0].EmptyQueryResponse? || ms[0].ErrorResponse? {
      ConformingOwesOneReady(next, ms[1..]);
    } else {
      ConformingDescribed(next, ms[1..]);
    }
  }

  /** The readers' needs are nested: each implies that exactly one ReadyForQuery is owed. */
  lemma {:induction false} NeedsOneReady(ms: seq<BackendMessage>)
    ensures Described(ms) || RowsEnd(ms) || Skippable(ms) || EmptyEnd(ms) ==> OneReady(ms)
    ensures OneReady(ms) ==> ReadyCount(ms) == 1
    ensures AllAsync(ms) ==> ReadyCount(ms) == 0
    decreases |ms|
  {
    if ms != [] {
      NeedsOneReady(ms[1..]);
    }
  }

  /** Asynchronous messages arriving late do not disturb what is owed. */
  lemma {:induction false} LateAsync(ms: seq<BackendMessage>, late: seq<BackendMessage>)
    requires AllAsync(late)
    ensures OneReady(ms) ==> OneReady(ms + late)
    ensures RowsEnd(ms) ==> RowsEnd(ms + late)
    ensures Described(ms) ==> Described(ms + late)
    ensures Skippable(ms) ==> Skippable(ms + late)
    ensures EmptyEnd(ms) ==> EmptyEnd(ms + late)
    decreases |ms|
  {
    if ms != [] {
      LateAsync(ms[1..], late);
      assert (ms + late)[1..] == ms[1..] + late;
    }
  }

  /** A response written behind leftover asynchronous messages is still owed as a whole. */
  lemma {:induction false} BehindAsync(early: seq<BackendMessage>, ms: seq<BackendMessage>)
    requires AllAsync(early)
    ensures OneReady(ms) ==> OneReady(early + ms)
    ensures RowsEnd(ms) ==> RowsEnd(early + ms)
    ensures Described(ms) ==> Described(early + ms)
    ensures AfterReady(early + ms) == AfterReady(ms)
    ensures FirstError(early + ms) == FirstError(ms)
  {
    if early == [] {
      assert early + ms == ms;
    } else {
      BehindAsync(early[1..], ms);
      assert (early + ms)[1..] == early[1..] + ms;
    }
  }
}
