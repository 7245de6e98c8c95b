# A verified model of wasi-pg-client

wasi-pg-client is a client for version 3 of the PostgreSQL wire protocol. This project models the parts of it that
hold state machines and refinements, and proves what they promise, for all inputs and over whole runs.
`dafny verify dfyconfig.toml` checks everything.

- **Protocol engine** (`Messages`, `Grammar`, `Engine`, `SyncDebt`, `Conservation`, `Agreement`, `Pipelining`,
  `Cursors`, `Reference`, `Statuses`, `Waits`, `Shapes`, `Connection`). `Grammar` is the server: an automaton
  accepting the responses of section 55.2 (Message Flow) of the PostgreSQL 16 documentation, asynchronous messages
  interleaved anywhere. `Engine` gives each reader as a function of the connection, whose `unread` messages are what
  the server still owes. `Connection.dfy` holds the imperative form, the classes `Connection`, `RowStream` and
  `CursorRows`, each method proved to compute its `Engine` function. The theorems are about all runs
  (`SyncDebt.SyncDebtSafety`, `Conservation.NotificationConservation`), about pairs of readers
  (`Agreement.QueryAgreesWithBatch`), about readers against what a response says (`Reference.BatchReturnsStatements`
  and its siblings), about pipelining against sequential execution (`Pipelining.PipelineRefinesSequential`), about
  batching (`Cursors.BatchingIsInvisible`), and about what the other calls hand out: the transaction status
  (`Statuses.StepStatus`), notifications waited for (`Waits.WaitHandsOutFirst`), and the shapes and transactions of
  `prepare`, cursors and `reset` (`Shapes`).
- **Connection pool** (`PoolRegions`, `PoolLedger`, `Pool`). Each lock region is one atomic step; a ledger records
  what the lock does not cover: guards, connections being pinged or reset, creations in flight. The invariants hold
  over every interleaving. `Pool.dfy` has the regions as methods of `PoolInner` and the serial `acquire`.
- **Bytes to messages** (`Framing`). The compacting, growing read buffer and the incremental framer deliver exactly
  the frames of the byte stream under any pattern of partial reads.
- **Statement cache** (`StatementCaches`). Map and recency queue against the abstract LRU stack, and the statements
  themselves conserved.
- **COPY formats** (`Csv`, `CsvServer`, `CsvStreams`, `Utf8`, `BinaryCopy`). Round trips, with the exact conditions
  under which they hold. `CsvServer` is the server's reading of CSV, after the description of COPY in the PostgreSQL
  16 documentation.
- **Reconnecting** (`SqlText`, `SessionReplay`, `Retry`). Replay of tracked session state, down to the SQL text sent
  and how the server reads it; backoff and retry loops.

Input and output, the clock and the server appear as parameters: a command takes the response the server gives, a read
may return any non-empty prefix of what is pending, expiry, ping and statement outcomes are oracles.

Where a promise does not hold of the code, the code is modelled as it is, the exact condition is proved, and a failing
input is given where one is not plain:

- streams over empty SQL and dropped cursors: `SyncDebt.NextSynchronisedIff`, `SyncDebt.RecoverFailsIff`,
  `Cursors.CursorDropSynchronisedIff`, `Agreement.ParamsStreamSettlesIff` (`Agreement.EmptyParamsStreamHangs`),
  `Cursors.BatchingIsInvisibleIff` (`Cursors.EmptyPortalNeverReturns`);
- lost notifications: `Conservation.WaitCycleLeak` (`Conservation.NotificationIsLost`), `Conservation.NothingLostIff`
  and `Conservation.ReconnectLossIff` (`Conservation.UnreadIsLost`);
- pipelines: `Pipelining.FinishOnSegments` (`Pipelining.LeakingResponse`);
- the pool bound: `PoolLedger.BoundBrokenIff` (`PoolLedger.HealthChecksBreakTheBound`);
- the statement cache: `LruStack.StatementsAreConserved` (`LruStack.ReinsertLoses`);
- COPY: `Csv.RowRoundTripIff`, `CsvServer.ServerReadsRowsIff` and `CsvServer.ServerReadsValuesIff`,
  `CsvStreams.StreamRoundTripIff`, `CsvStreams.ByteRoundTripIff` (`CsvStreams.SplitLetter`),
  `BinaryFormat.DocumentRoundTripIff` and `BinaryFormat.WriterRoundTripIff` (`BinaryFormat.WideRowIsCut`,
  `BinaryFormat.NegativeCountUnreadable`), `BinaryFormat.BufferIsWhatWasReturnedIff`;
- replay and backoff: `SessionReplay.ReplaySafety` (`SessionReplay.BackslashDisagrees`,
  `SessionReplay.TwoSpellingsDisagree`, `SessionReplay.OrderDecides`), `Backoff.NeverOverflowsIff`.

Where code and comments disagree, the code is followed: the binary COPY signature is 11 bytes, not the 15 its comment
says (copy/binary.rs:6, 60); `write_row` panics when the widths differ modulo 65536, not whenever they differ
(copy/binary.rs:84); `write_csv_row` says that it cannot represent nulls (copy/mod.rs:188-190), yet the server reads
each empty column it writes as one (`CsvServer.ServerReadsValuesIff`); the delay is capped only after a multiplication
that can overflow (reconnect/retry.rs:122-128).

## Model

| member | source | states |
|---|---|---|
| `Connections.Connection.HandleAsyncMessage` | crates/pg-client/src/connection.rs:889-933 | consumes exactly the three asynchronous kinds: a notification goes to the back of the queue, a parameter report overwrites its entry, nothing else changes |
| `Connections.Connection.ReadUntilReady` | crates/pg-client/src/connection.rs:829-875 | the whole new connection: stops at the first ReadyForQuery, having queued or recorded every asynchronous message on the way; false when the stream ends first |
| `Connections.Connection.Transition` | crates/pg-client/src/connection.rs:937-964 | succeeds for exactly the permitted pairs of states, and otherwise changes nothing |
| `Connections.Connection.Recover` | crates/pg-client/src/connection.rs:406-412 | clears `needs_recovery` only after resynchronising; does nothing when recovery is not needed |
| `Connections.Connection.BatchExecute` | crates/pg-client/src/query/mod.rs:188-251 | the loop computes the message fold `Collect` over the batch reader, result and connection alike, error and end-of-stream paths included |
| `Connections.Connection.ReadExtendedQueryResult` | crates/pg-client/src/query/params.rs:436-505 | the loop computes the fold over the extended reader; it leaves `state` to its caller on success |
| `Connections.Connection.QueryParams` | crates/pg-client/src/query/params.rs:108-175 | the extended command as a whole: refused without effect when the transition is, otherwise result and connection of the fold, Idle afterwards |
| `Connections.Connection.Prepare` | crates/pg-client/src/query/prepared.rs:79-164 | parameter type identifiers and columns collected up to ReadyForQuery; result and connection are those of the fold |
| `Connections.Connection.ReadShape` | crates/pg-client/src/query/prepared.rs:115-156 | the loop shared with `query_cursor` computes the fold over the describing reader |
| `Connections.Connection.OpenCursor` | crates/pg-client/src/query/cursor.rs:510-616 | a BEGIN of its own only when no transaction is open, whose failure ends it; then the portal, as one function of connection and responses |
| `Connections.Connection.CloseStatement` | crates/pg-client/src/query/prepared.rs:168-212 | the response is discarded up to ReadyForQuery, or the server's error returned resynchronised |
| `Connections.Connection.TakeOver` | crates/pg-client/src/connection.rs:493-501 | transport, parameters, state and transaction status come from the replacement, both notification queues are dropped, the tracked session stays |
| `Connections.Connection.Attribute` | crates/pg-client/src/query/pipeline.rs:183-233 | one message attributed to the current operation: result, operation index, and leftover rows and columns |
| `Connections.Connection.ReadPipelineResults` | crates/pg-client/src/query/pipeline.rs:172-250 | the attribution loop computes the fold over the pipeline reader |
| `Connections.Connection.FinishPipeline` | crates/pg-client/src/query/pipeline.rs:107-251 | result and connection of a whole pipeline |
| `Connections.Connection.StartStreaming` | crates/pg-client/src/query/mod.rs:281-293 | recover if needed, then enter Streaming and write; an error leaves what the failing step left |
| `Connections.Connection.QueryStream` | crates/pg-client/src/query/mod.rs:275-296 | the connection is opened for streaming and the stream starts waiting for a description |
| `Connections.Connection.ReadPreamble` | crates/pg-client/src/query/params.rs:297-345 | the preamble loop stops at exactly the message kinds that end it and reports server errors eagerly, resynchronised |
| `Connections.Connection.QueryParamsStream` | crates/pg-client/src/query/params.rs:211-348 | the stream starts in the row phase with the described columns, or the error is returned and no response is owed |
| `Connections.Connection.Query` | crates/pg-client/src/query/mod.rs:136-145 | opening, draining and dropping a simple stream, as one function of connection and response |
| `Connections.Connection.Notifications` | crates/pg-client/src/notification.rs:129-131 | hands out the whole queue in order and empties it |
| `Connections.Connection.ReadWaitCycle` | crates/pg-client/src/notification.rs:246-286 | the reading loop of the empty-query wait: the first notification is handed over after resynchronisation, later ones are queued |
| `Connections.Connection.WaitForNotification` | crates/pg-client/src/notification.rs:197-288 | queue first, zero timeout next, otherwise one empty-query cycle (targets without a runtime timeout) |
| `Connections.Connection.AwaitNotification` | crates/pg-client/src/notification.rs:134-226 | the native variant: queue first, zero timeout, Idle check, then reading until a notification, the deadline or an unexpected message |
| `Connections.RowStream.Next` | crates/pg-client/src/query/stream.rs:129-327 | one call of `next`: item, stream phase and connection are those of the specification, through all five phases |
| `Connections.RowStream.Drop` | crates/pg-client/src/query/stream.rs:363-373 | a stream dropped before it is done marks the connection for recovery, a finished one leaves it alone |
| `Connections.CursorRows.ReadBatch` | crates/pg-client/src/query/cursor.rs:78-119 | one batch read up to ReadyForQuery |
| `Connections.CursorRows.FetchBatch` | crates/pg-client/src/query/cursor.rs:47-120 | one Execute/Sync round trip; nothing is written when the transition is refused |
| `Connections.CursorRows.Next` | crates/pg-client/src/query/cursor.rs:264-379 | one call of `CursorStream::next`, refetching through empty batches: item, cursor, connection and answers left, faults included |
| `Connections.CursorRows.Drop` | crates/pg-client/src/query/cursor.rs:487-493 | a cursor stream dropped before it is done marks the connection for recovery |
| `Grammar.ConformingOwesOneReady` | crates/pg-client/src/query/stream.rs:129-327 | every conforming response, from any position, still owes exactly one ReadyForQuery and only asynchronous messages behind it |
| `SyncDebt.ReadUntilReadySettles` | crates/pg-client/src/connection.rs:829-875 | resynchronisation stops exactly behind the ReadyForQuery owed and leaves the connection Idle |
| `SyncDebt.CollectSettles` | crates/pg-client/src/query/pipeline.rs:234-245 | a collecting reader fails exactly when the server reported an error, with the first one, and in both cases stops exactly at the single ReadyForQuery, Idle |
| `SyncDebt.StreamNextFits` | crates/pg-client/src/query/stream.rs:129-327 | `next` keeps what its phase needs of the unread messages; it ends only when done and faults only with a server error |
| `SyncDebt.NextSynchronisedIff` | crates/pg-client/src/query/stream.rs:198-252 | calling `next` keeps the synchronisation invariant if and only if the stream is not blind, that is not in its row phase with an EmptyQueryResponse ahead and no error behind it |
| `SyncDebt.WaitCycleSettles` | crates/pg-client/src/notification.rs:228-287 | the empty-query wait always succeeds and consumes its own response |
| `SyncDebt.ReadNextNotificationSettles` | crates/pg-client/src/notification.rs:134-176 | waiting without a query keeps the connection Idle and owing nothing |
| `SyncDebt.PreambleHandsOver` | crates/pg-client/src/query/params.rs:297-345 | the preamble hands over a stream inside the response, or returns the first server error resynchronised |
| `SyncDebt.RecoverSettles` | crates/pg-client/src/connection.rs:406-412 | `recover` after a dropped stream stops exactly at the owed ReadyForQuery and loses no message behind it |
| `SyncDebt.CommandSettles` | crates/pg-client/src/query/mod.rs:188-251 | a collected command is refused, without effect, exactly when the connection is not Idle, and otherwise ends Idle with nothing owed |
| `SyncDebt.StepAdvances` | crates/pg-client/src/connection.rs:937-964 | any call at any point: the session stays coherent; a command is written only from Idle with nothing but asynchronous messages unread; it becomes stranded exactly by `next` on a blind stream, misled exactly by dropping an active cursor, and is either no longer exactly after a reconnect |
| `SyncDebt.RecoverFailsIff` | crates/pg-client/src/connection.rs:406-412 | at any point of any run, `recover` fails if and only if the session is stranded or misled |
| `SyncDebt.SyncDebtSafety` | crates/pg-client/src/connection.rs:829-875 | in every run of every call, streams and cursors dropped at any point, blind streams asked for rows, reconnects: the number of ReadyForQuery owed is 0 when Idle and 1 otherwise, or 0 when stranded; and no call ever writes a command while an earlier response is unread |
| `Conservation.CollectAccounts` | crates/pg-client/src/connection.rs:876-933 | collecting readers, their error-drain paths included, keep the account of notifications, parameters and messages |
| `Conservation.StreamNextAccounts` | crates/pg-client/src/query/stream.rs:164-188 | so does `next` of a row stream |
| `Conservation.WaitCycleAccounts` | crates/pg-client/src/notification.rs:246-286 | the wait hands over exactly the notification it takes off the account |
| `Conservation.WaitCycleFailsIff` | crates/pg-client/src/notification.rs:246-286 | the wait fails if and only if no ReadyForQuery is left to read |
| `Conservation.WaitCycleLeak` | crates/pg-client/src/notification.rs:257-260 | on such a stream the account balances after the failing wait if and only if no notification was left to read: the first one read is lost |
| `Conservation.NotificationIsLost` | crates/pg-client/src/notification.rs:257-260 | a concrete failing input: one notification and the end of the stream |
| `Conservation.NotificationConservation` | crates/pg-client/src/notification.rs:129-288 | over every run, reconnects included: on the connection in use, notifications dropped at its setup, handed out since and queued are the NotificationResponses read, in order, each once; the parameter table is the last-writer fold; the transaction status is that of the last ReadyForQuery read, or in a stranded session of the one before it; and over all connections, handed out, queued, unread and dropped together are everything sent, each once |
| `Conservation.NothingLostIff` | crates/pg-client/src/connection.rs:462-501 | over every run, all notifications are kept, in order, if and only if no reconnect drops any |
| `Conservation.ReconnectLossIff` | crates/pg-client/src/connection.rs:493-501 | a reconnect loses exactly the old queue, the notifications not yet read on the old connection and those queued while the replacement was set up, and so nothing if and only if all three are empty |
| `Conservation.UnreadIsLost` | crates/pg-client/src/connection.rs:493-501 | a concrete failing input: both queues empty, one notification unread on the old connection |
| `Connections.Connection.BecomeReady` | crates/pg-client/src/query/mod.rs:240-245 | Idle, with the status of the letter: T in a transaction, E in a failed one, anything else none |
| `Connections.Connection.Reset` | crates/pg-client/src/connection.rs:379-390 | a ROLLBACK first if a transaction is open, then DISCARD ALL; result and connection as specified |
| `Connections.Connection.CloseCursor` | crates/pg-client/src/query/cursor.rs:128-187 | the portal is closed, then a COMMIT sent if the cursor began the transaction; result and connection as specified |
| `Messages.ParametersAreLastReports` | crates/pg-client/src/connection.rs:923-930 | of each parameter the table holds the value reported last, or what was there at the start |
| `Messages.NotificationsAreResponses` | crates/pg-client/src/connection.rs:889-908 | the notifications of a message sequence are those of its NotificationResponses, one each, where they stand |
| `Statuses.StatusIsLastLetter` | crates/pg-client/src/connection.rs:833-838 | after any messages the status is in a transaction if and only if the last ReadyForQuery said T, failed if and only if it said E, and that at the start if there was none |
| `Statuses.ReadUntilReadyStatus` | crates/pg-client/src/connection.rs:829-841 | resynchronising keeps the status that of the last ReadyForQuery read, and sets the session's transaction flag exactly by it |
| `Statuses.CollectStatus` | crates/pg-client/src/query/mod.rs:200-251 | so does every collected command; the session's flag follows it exactly when the server reported an error |
| `Statuses.StreamNextStatus` | crates/pg-client/src/query/stream.rs:253-290 | so does `next` of a stream that is not blind |
| `Statuses.BlindNextStatus` | crates/pg-client/src/query/stream.rs:198-252 | on a blind stream `next` skips the ReadyForQuery, and the status stays one behind |
| `Statuses.StepStatus` | crates/pg-client/src/connection.rs:829-875 | every call at any point keeps the status that of the last ReadyForQuery read, but one behind in a stranded session; a reconnect starts over from what the replacement started up with |
| `Waits.WaitHandsOutFirst` | crates/pg-client/src/notification.rs:197-288 | at any point of any run a wait hands out the first notification within its reach (queued; unless it is not to wait, unread; and in the answer to its empty query up to ReadyForQuery), and none if and only if there is none; with none, its result is fixed case by case |
| `Waits.StrayMessageFails` | crates/pg-client/src/notification.rs:134-176 | a message that has no place between commands ends a wait by reading in an error |
| `Shapes.PrepareReturnsShape` | crates/pg-client/src/query/prepared.rs:115-163 | `prepare` returns exactly the parameter type identifiers and the columns that the answer names, no columns for NoData, or the first error reported |
| `Shapes.OpenCursorReturnsShape` | crates/pg-client/src/query/cursor.rs:516-616 | a BEGIN is sent exactly when the last ReadyForQuery read left no transaction open, the portal unless it was refused; the cursor has exactly the columns the portal's answer names; the first error is returned; the connection is Idle with its status current |
| `Shapes.CloseCursorCommitsIff` | crates/pg-client/src/query/cursor.rs:128-187 | closing a cursor sends a COMMIT exactly if it began the transaction and the portal closed without error |
| `Shapes.ResetRollsBackIff` | crates/pg-client/src/connection.rs:379-390 | `reset` sends a ROLLBACK exactly if the last ReadyForQuery read left a transaction open, failed or not, stops at the first error, and otherwise clears the transaction flag |
| `Agreement.ReadersStayAlike` | crates/pg-client/src/query/stream.rs:136-324 | row stream and batch reader, started alike at any point of a response, end alike and with the same connection |
| `Agreement.QueryAgreesWithBatch` | crates/pg-client/src/query/mod.rs:136-251 | `query` returns Ok(r) exactly when `batch_execute` returns Ok with first element r; otherwise both return the server's first error; both leave the same Idle connection |
| `Agreement.ParamsStreamSettlesIff` | crates/pg-client/src/query/stream.rs:198-252 | a parameterised stream, drained, comes to rest if and only if the server did not answer EmptyQueryResponse or reported an error |
| `Agreement.EmptyParamsStreamHangs` | crates/pg-client/src/query/stream.rs:198-252 | a concrete conforming answer to empty SQL after which the stream is stuck in Streaming with nothing owed |
| `Reference.BatchReturnsStatements` | crates/pg-client/src/query/mod.rs:188-251 | the results are those read off the response declaratively: one per statement, its rows in order under its own columns, and its tag |
| `Reference.QueryReturnsFirstStatement` | crates/pg-client/src/query/mod.rs:136-145 | `query` returns the first of these |
| `Reference.QueryParamsReturnsStatement` | crates/pg-client/src/query/params.rs:436-505 | `query_params` returns exactly the one result the response says |
| `Reference.PreparedStreamYieldsStatement` | crates/pg-client/src/query/mod.rs:300-368 | a drained `query_prepared_stream`, opened on an Idle or recovering connection, yields exactly the rows of the response and ends in its tag |
| `Reference.ParamsStreamYieldsStatementIff` | crates/pg-client/src/query/params.rs:211-345 | a drained `query_params_stream` yields exactly the rows and tag of an error-free response if and only if the server did not answer EmptyQueryResponse |
| `Reference.SegmentSaysResult` | crates/pg-client/src/query/params.rs:436-505 | the sequential result of a pipeline segment is the one read off that segment declaratively |
| `Pipelining.SplitResponse` | crates/pg-client/src/query/pipeline.rs:107-170 | every conforming error-free response is one segment per operation, then the ReadyForQuery part |
| `Pipelining.SegmentsConform` | crates/pg-client/src/query/pipeline.rs:107-170 | the converse: any segments and a tail make a conforming error-free response |
| `Pipelining.SequentialResult` | crates/pg-client/src/query/params.rs:436-505 | the sequential reference: what `read_extended_query_result` returns on a segment alone |
| `Pipelining.SegmentEffect` | crates/pg-client/src/query/pipeline.rs:183-233 | inside a segment the pipeline reader and the sequential reader move together |
| `Pipelining.PipelineRefinesSequential` | crates/pg-client/src/query/pipeline.rs:107-251 | one result per operation in order, and each equals the sequential one if and only if that operation takes no rows or columns sent to an earlier one |
| `Pipelining.NoDataNeverLeaks` | crates/pg-client/src/query/pipeline.rs:211-213 | nothing leaks when every Execute operation is answered with NoData |
| `Pipelining.FinishOnSegments` | crates/pg-client/src/query/pipeline.rs:172-250 | the same for any given segments: what `finish` returns for operation i is the sequential result on segment i if and only if nothing leaks into it |
| `Pipelining.ExecuteWithRowsLeaks` | crates/pg-client/src/query/pipeline.rs:211-213 | what `finish` returns for a completing Query right behind an Execute that was sent rows is never the sequential result |
| `Pipelining.LeakingResponse` | crates/pg-client/src/query/pipeline.rs:211-213 | a concrete failing input: an Execute and a Query, one row each; the response conforms, and `finish` returns a wrong result for the Query |
| `Cursors.CompletingExhausts` | crates/pg-client/src/query/cursor.rs:318-345 | an answer that completes the command leaves the cursor exhausted with the tag of that answer |
| `Cursors.ErrorEndsCursor` | crates/pg-client/src/query/cursor.rs:264-379 | the first error that an answer reports is returned once, resynchronised, and every later call ends |
| `Cursors.FetchBatch` | crates/pg-client/src/query/cursor.rs:47-120 | a batch is exactly the rows of its response, tagged exactly when the command completed, Idle again |
| `Cursors.CursorNextYields` | crates/pg-client/src/query/cursor.rs:264-379 | `next` yields the first row not yet delivered, or None forever once there is none |
| `Cursors.BatchingIsInvisible` | crates/pg-client/src/query/cursor.rs:264-379 | for every split into batches, n calls of `next` yield the portal's rows in order, then None |
| `Cursors.BatchingIsInvisibleIff` | crates/pg-client/src/query/cursor.rs:264-379 | the rows of all batches and then None forever if and only if some answer completes the command |
| `Cursors.EmptyPortalIff` | crates/pg-client/src/query/cursor.rs:349-363 | on a portal that ran to its end, if and only if its last answer is not EmptyQueryResponse, that is for non-empty SQL |
| `Cursors.EmptyPortalNeverReturns` | crates/pg-client/src/query/cursor.rs:349-363 | the failing input: however many times an empty portal is answered in the cursor's transaction, `next` uses up every answer and asks again |
| `Cursors.BatchesConcatenate` | crates/pg-client/src/query/cursor.rs:47-120 | the concatenated batches of `fetch_next` are those same rows |
| `Cursors.CursorDropSynchronisedIff` | crates/pg-client/src/query/cursor.rs:487-493 | dropping a cursor stream leaves the connection synchronised if and only if it is done; after an early drop `recover` cannot succeed |
| `Pools.PoolInner.Decide` | crates/pg-client/src/pool/core.rs:284-310 | the deciding region: closed, expired front, health check, claim, reservation or exhaustion, in that order |
| `Pools.PoolInner.Maintain` | crates/pg-client/src/pool/core.rs:938-961 | splits `idle` into kept and expired, order preserved in both |
| `Pools.PoolInner.Release` | crates/pg-client/src/pool/core.rs:735-815 | a whole release, refill included: back of `idle` with its creation time kept if the pool is open and the connection idle, reset and young enough; otherwise discarded, and replaced below `min_idle`, `max_size` not consulted |
| `Pools.PoolInner.Acquire` | crates/pg-client/src/pool/core.rs:276-438 | terminates (each round removes an idle connection) and returns the first idle connection, in order, that is unexpired and answers when tested; those before it are discarded, those after it kept; a new one only if none qualifies and there is room; always tested when resilient |
| `Pools.PoolInner.DropGuard` | crates/pg-client/src/pool/guard.rs:145-208 | the connection goes to the back of `idle` exactly if it is idle and the pool open; otherwise `idle` is left alone |
| `PoolLedger.GuardDropPlaces` | crates/pg-client/src/pool/guard.rs:145-208 | dropping a guard puts its connection at the back of `idle` and retires nothing if the connection is idle and the pool open, and otherwise retires exactly it and leaves `idle` alone |
| `PoolLedger.BusyNeverReturns` | crates/pg-client/src/pool/guard.rs:152-174 | in every interleaving, a connection whose guard was dropped in the middle of a command is retired once and never idle, held or in transit again |
| `PoolLedger.IdleWasPutBack` | crates/pg-client/src/pool/guard.rs:186-192 | in every interleaving, whatever is idle was so from the start or was put back by a finished release, a refill or the drop of a guard whose connection was idle |
| `Pools.AcquireTakesFirstFit` | crates/pg-client/src/pool/core.rs:276-438 | an acquire hands out the first idle connection within both age limits that answers if tested, or finds none such, empties `idle` and is refused exactly when there is no room |
| `Pools.MaintenanceSplits` | crates/pg-client/src/pool/core.rs:701-713 | maintenance keeps exactly the connections within both age limits, where they stand, and closes the others in order |
| `Pools.PoolInner.ReserveMinIdle` | crates/pg-client/src/pool/core.rs:829-840 | a refill is reserved exactly in an open pool whose idle and pending connections are short of `min_idle` |
| `Pools.PoolInner.CreatedForIdle` | crates/pg-client/src/pool/core.rs:842-866 | the new connection goes to the back of `idle` exactly if the pool is open and still short of idle connections |
| `Pools.FirstUsable` | crates/pg-client/src/pool/core.rs:291-300 | the position found is usable and none before it is |
| `Pools.ReleasedComesLast` | crates/pg-client/src/pool/core.rs:806-814 | after a release the next acquire chooses as it would have before, and takes the released connection only if there was none to choose |
| `PoolLedger.StepPlaces` | crates/pg-client/src/pool/core.rs:735-868 | every lock region moves connections between places and makes none but those it counts |
| `PoolLedger.LedgerHolds` | crates/pg-client/src/pool/core.rs:276-868 | in every interleaving: counters equal guards and creations in flight; each connection is in exactly one place with its creation time; total_created = idle + active + in transit + retired + detached |
| `PoolLedger.NothingSaturates` | crates/pg-client/src/pool/core.rs:735-741 | no saturating subtraction ever meets zero, whatever is scheduled |
| `PoolLedger.BoundBrokenIff` | crates/pg-client/src/pool/core.rs:338-352 | a step breaks idle + active + pending <= max_size if and only if the pool is full and the step brings a connection back from transit or reserves for `min_idle` |
| `PoolLedger.BoundWithoutTransit` | crates/pg-client/src/pool/core.rs:292-309 | without health checks, explicit releases and refills the bound holds in every interleaving |
| `PoolLedger.CensusBound` | crates/pg-client/src/pool/core.rs:292-309 | in every interleaving, all connections and creations, transit included, exceed max_size by at most the most ever in transit at once plus the refills of `maintain_min_idle` |
| `PoolLedger.SerialBound` | crates/pg-client/src/pool/core.rs:77-79 | run one at a time, all operations together keep the bound at every point |
| `PoolLedger.HealthChecksBreakTheBound` | crates/pg-client/src/pool/core.rs:330-343 | a concrete schedule of two tasks over a pool of one that ends with two active connections |
| `PoolLedger.ClosedPoolShrinks` | crates/pg-client/src/pool/core.rs:890-900 | once closed, idle + active + in transit never increases, and nothing becomes homebound |
| `PoolLedger.OnlyReleasesInFlightReturn` | crates/pg-client/src/pool/core.rs:806-814 | after `close`, a connection found in `idle` belongs to a release that had already passed its closed check |
| `Framing.FrameAsPrescribed` | crates/pg-client/src/auth/mod.rs:119-141 | a tag, a length of four bytes with the most significant first that counts itself, and the body, are one frame |
| `Framing.FramesOfEncoded` | crates/pg-client/src/auth/mod.rs:119-141 | cutting inverts encoding, whatever incomplete bytes follow |
| `Transport.BufferedTransport.CompactRead` | crates/pg-client/src/transport/buffered.rs:67-74 | moves the unconsumed bytes to the front in place without changing them |
| `Transport.BufferedTransport.EnsureReadCapacity` | crates/pg-client/src/transport/buffered.rs:76-82 | grows by doubling or to fit, keeping the bytes |
| `Transport.BufferedTransport.Read` | crates/pg-client/src/transport/buffered.rs:99-132 | bytes returned followed by bytes pending are the bytes pending before; empty only at end of stream; the buffer never exceeds twice 8192 beyond its initial size |
| `Transport.BufferedTransport.ReadExact` | crates/pg-client/src/transport/buffered.rs:156-187 | returns exactly n bytes of the stream if it has them, and fails otherwise having consumed what there was; buffer bounded by 2n |
| `Transport.BufferedTransport.FlushWrite` | crates/pg-client/src/transport/buffered.rs:85-91 | everything written by callers is with the peer |
| `Transport.BufferedTransport.Write` | crates/pg-client/src/transport/buffered.rs:134-154 | peer bytes followed by buffered bytes are all bytes written; fewer than 8192 stay buffered; nothing is sent below the threshold |
| `Transport.Codec.TryExtend` | crates/pg-client/src/protocol/buffer.rs:57-67 | extends exactly when the total stays within the limit |
| `Transport.Codec.NextMessage` | crates/pg-client/src/protocol/buffer.rs:69-77 | over the limit first, then the frame at the front, or no change |
| `Transport.Codec.ReadMessage` | crates/pg-client/src/auth/mod.rs:119-141 | for every pattern of partial reads, the next frame of buffered followed by pending bytes; the limit is reported only if what comes next needs more than it (frame size + 4095) |
| `Transport.Codec.ReadAll` | crates/pg-client/src/auth/mod.rs:119-141 | all messages are exactly the frames of the byte stream in order; never a limit error when every frame is at most limit - 4095 bytes |
| `StatementCaches.StatementCache.Get` | crates/pg-client/src/query/cache.rs:52-61 | a hit moves the statement to the front; a miss changes nothing |
| `StatementCaches.StatementCache.Insert` | crates/pg-client/src/query/cache.rs:68-85 | evicts the least recent entry exactly when full and the statement is new |
| `StatementCaches.StatementCache.Remove` | crates/pg-client/src/query/cache.rs:90-93 | removes from map and queue |
| `StatementCaches.StatementCache.Clear` | crates/pg-client/src/query/cache.rs:99-102 | empties both and hands back every statement once, in no particular order |
| `LruStack.OperationsStayConsistent` | crates/pg-client/src/query/cache.rs:52-102 | after any operation the queue has no duplicates, holds exactly the map's keys, and fits max(capacity, 1) |
| `LruStack.OrderIsRecency` | crates/pg-client/src/query/cache.rs:52-93 | after every trace of get-then-insert-on-miss the queue is the first max(capacity, 1) entries of the unbounded recency list |
| `LruStack.StackInclusion` | crates/pg-client/src/query/cache.rs:52-93 | a smaller cache is always a prefix of a larger one, so each of its hits is a hit in the larger |
| `LruStack.InsertEvicts` | crates/pg-client/src/query/cache.rs:68-85 | exactly when the cache is full and the key new, the statement used least recently is handed back and gone; the statement inserted is found, and all others are as before |
| `LruStack.StatementsAreConserved` | crates/pg-client/src/query/cache.rs:52-102 | over every run, each statement inserted is cached, was handed back, or was overwritten by an insert under its key, each time once: nothing else is lost to the caller |
| `LruStack.ReinsertLoses` | crates/pg-client/src/query/cache.rs:72-85 | a concrete failing input: of two statements inserted under one key the first is neither cached nor handed back |
| `Csv.WriteCsvRow` | crates/pg-client/src/copy/mod.rs:192-222 | the line sent is the specified rendering of the columns |
| `Csv.ParseCsvLine` | crates/pg-client/src/copy/mod.rs:43-74 | the flag-driven loop computes the specified recursive parse |
| `Csv.RowRoundTripIff` | crates/pg-client/src/copy/mod.rs:43-222 | parsing a rendered row gives the row back if and only if it is non-empty and, should delimiter and quote coincide, no column needs quoting; embedded quotes, delimiters and newlines included |
| `CsvServer.ServerReadsRowsIff` | crates/pg-client/src/copy/mod.rs:192-222 | the server reads the rows written as exactly these rows, line ends, quotes and delimiters in columns included, empty columns as nulls, if and only if the delimiter is not the quote and ends no line, no row is without columns and none prints as the end-of-data marker |
| `CsvServer.ServerReadsValuesIff` | crates/pg-client/src/copy/mod.rs:183-191 | every column comes out as the value written if and only if, besides, none is empty |
| `CsvServer.MarkerIff` | crates/pg-client/src/copy/mod.rs:192-222 | which rows print as the end-of-data marker, in terms of their columns, delimiter and quote |
| `CsvStreams.DeliveredLines` | crates/pg-client/src/copy/mod.rs:549-576 | one row of each complete line that is not empty, as it stands, and one of an unfinished last line without the whitespace it ends in, if anything else is left |
| `CsvStreams.ForEachCsvRow` | crates/pg-client/src/copy/mod.rs:540-576 | the rows the callback sees are those of the text of the chunks, each decoded on its own, up to the first that it rejects |
| `CsvStreams.LineRowsAppend` | crates/pg-client/src/copy/mod.rs:550-566 | lines delivered do not depend on where the text is split |
| `CsvStreams.StreamRoundTripIff` | crates/pg-client/src/copy/mod.rs:192-576 | for every delimiter and quote, the newline included, written rows are delivered exactly if and only if each is non-empty, does not print as an empty line, holds no newline and survives its delimiter and quote |
| `Utf8.LossyOfEncoded` | crates/pg-client/src/copy/mod.rs:221-221 | decoding all the bytes of a text gives the text |
| `Utf8.ChunksIff` | crates/pg-client/src/copy/mod.rs:551-551 | chunks decoded one by one give the text of the whole stream if and only if none ends inside a character or ill-formed piece; otherwise more replacement characters |
| `CsvStreams.ChunkedRowsIff` | crates/pg-client/src/copy/mod.rs:549-576 | aligned chunks deliver the rows of the whole stream, and others deliver other rows, unless the replacement character is the quote |
| `CsvStreams.ByteRoundTripIff` | crates/pg-client/src/copy/mod.rs:192-576 | rows written and read back as bytes: under aligned chunks delivered if and only if each is deliverable; under others never, unless the replacement character is the quote |
| `CsvStreams.SplitLetter` | crates/pg-client/src/copy/mod.rs:551-551 | a concrete failing input: a two-byte letter written as a row and split between two chunks does not come back |
| `CsvStreams.ReplacementQuoteHides` | crates/pg-client/src/copy/mod.rs:43-74 | with the replacement character as the quote, one and two of it parse alike, so that a split can go unnoticed |
| `BinaryCopy.BinaryCopyWriter.Header` | crates/pg-client/src/copy/binary.rs:63-76 | written once, from an emptied buffer; nothing on later calls |
| `BinaryCopy.BinaryCopyWriter.WriteRow` | crates/pg-client/src/copy/binary.rs:85-106 | appends and returns the specified row bytes; the width is compared after wrapping to 16 bits |
| `BinaryCopy.BinaryCopyWriter.Trailer` | crates/pg-client/src/copy/binary.rs:112-116 | appends and returns the end marker |
| `BinaryCopy.BinaryCopyWriter.Clear` | crates/pg-client/src/copy/binary.rs:129-132 | back to a fresh writer, header included |
| `BinaryFormat.BytesAsPrescribed` | crates/pg-client/src/copy/binary.rs:63-116 | the bytes of header, trailer, nulls, lengths and counts, written out |
| `BinaryFormat.DocumentRoundTripIff` | crates/pg-client/src/copy/binary.rs:63-116 | a reader of the format recovers exactly the rows, NULL distinct from empty, if and only if every row has at most 32767 fields of less than 2^31 bytes |
| `BinaryFormat.WriterRoundTripIff` | crates/pg-client/src/copy/binary.rs:85-91 | of rows that one writer's width check lets through, with fields below 2^31 bytes, the document is read back if and only if every row really has the column count |
| `BinaryFormat.WideRowIsCut` | crates/pg-client/src/copy/binary.rs:85-91 | behind readable rows, a row too wide by a multiple of 65536 passes the check and is read as its first columns, what follows being misread |
| `BinaryFormat.NegativeCountUnreadable` | crates/pg-client/src/copy/binary.rs:41-47 | a writer of negative column count, -1 being the end marker, makes the document unreadable with its first row |
| `BinaryFormat.BufferIsWhatWasReturnedIff` | crates/pg-client/src/copy/binary.rs:63-76 | the accumulated buffer is the concatenation of what the calls returned if and only if the header, when written, is written first |
| `BinaryFormat.CopyCallsSendDocument` | crates/pg-client/src/copy/binary.rs:63-125 | header, rows and trailer in that order return, and leave in the buffer, the whole document |
| `Sessions.SessionState.Clear` | crates/pg-client/src/reconnect/session.rs:177-183 | forgets all tracked state but the initialisation SQL; reconnecting is then safe |
| `Sessions.Client.Listen` | crates/pg-client/src/notification.rs:74-81 | tracked exactly when the server executed it |
| `Sessions.Client.Unlisten` | crates/pg-client/src/notification.rs:87-92 | untracked exactly when the server executed it |
| `Sessions.Client.UnlistenAll` | crates/pg-client/src/notification.rs:98-102 | all channels forgotten exactly when the server did |
| `Sessions.Client.SetParam` | crates/pg-client/src/connection.rs:232-237 | the value is tracked as given, and stored as the server reads the escaped literal, exactly when the server executed it |
| `Sessions.Client.Reset` | crates/pg-client/src/connection.rs:379-388 | tracked state is cleared exactly when DISCARD ALL succeeded |
| `Sessions.Client.RebuildChannels` | crates/pg-client/src/connection.rs:549-564 | in any order, the channels whose LISTEN succeeds are added and nothing else changes |
| `Sessions.Client.RebuildParams` | crates/pg-client/src/connection.rs:566-582 | the server ends as after setting the parameters one by one in some order, failures passed over |
| `Sessions.Client.RebuildSession` | crates/pg-client/src/connection.rs:534-585 | channels, then parameters, on top of what the initialisation SQL left |
| `Sessions.Client.Reconnect` | crates/pg-client/src/connection.rs:462-514 | a replacement is taken over exactly when connected and past the initialisation SQL; the tracked session is unchanged in every case |
| `SessionReplay.ReplaySafety` | crates/pg-client/src/connection.rs:462-584 | over every run with breaks, failed statements and failed reconnects, whenever a session is live the tracked channels are the server's, and the tracked parameters hold if and only if none is tracked under two spellings with different values and every value with a backslash was read with standard_conforming_strings off |
| `SessionReplay.TwoSpellingsDisagree` | crates/pg-client/src/connection.rs:206-237 | setting one parameter under two spellings does break the second half |
| `SessionReplay.BackslashDisagrees` | crates/pg-client/src/connection.rs:202-212 | a concrete failing input: one `set_param` of a value with a backslash, on a server with its default setting |
| `SessionReplay.OrderDecides` | crates/pg-client/src/connection.rs:566-582 | where the replay itself sets standard_conforming_strings, its order decides whether a backslash survives |
| `SessionReplay.ReplayOverridesInit` | crates/pg-client/src/connection.rs:487-491 | replayed parameters win over the initialisation SQL and hold the tracked value if and only if it has no backslash or was read with standard_conforming_strings off; names not replayed keep theirs |
| `SessionReplay.ApplyFollowsSql` | crates/pg-client/src/connection.rs:206-220 | what the model does to the server is what the server reads in the SQL text built for SET, LISTEN and UNLISTEN |
| `SqlText.LiteralReadsBackIff` | crates/pg-client/src/connection.rs:202-212 | the escaped literal reads back as the value, nothing escaping from the quotes, if and only if standard_conforming_strings is off or the value has no backslash |
| `SqlText.SetSqlMeans` | crates/pg-client/src/connection.rs:206-212 | the SET text names the key as given, quotes included, and stores the value as read |
| `SqlText.ListenSqlMeans` | crates/pg-client/src/connection.rs:214-220 | the LISTEN and UNLISTEN texts name the channel as given, whatever characters it holds |
| `SessionReplay.ReconnectChannelsIff` | crates/pg-client/src/connection.rs:534-564 | after one reconnect the channels agree if and only if the initialisation SQL listens on nothing untracked and every other tracked channel is replayed successfully |
| `Backoff.Delay` | crates/pg-client/src/reconnect/retry.rs:125-129 | None exactly where the multiplication overflows; otherwise the lesser of the product and the maximum |
| `Backoff.DelayMonotone` | crates/pg-client/src/reconnect/config.rs:160-164 | delays never decrease with the attempt, and an attempt that does not overflow vouches for all before it |
| `Backoff.DelayDoubles` | crates/pg-client/src/reconnect/retry.rs:125-129 | the first delay is the initial one, each later one up to the 32nd twice the one before, both capped; the 33rd takes the saturated multiplier, and from it on they are constant |
| `Backoff.NeverOverflowsIff` | crates/pg-client/src/reconnect/retry.rs:125-129 | no attempt panics if and only if the initial delay survives the multiplier 2^32 - 1, whatever the maximum delay |
| `Backoff.TotalSleep` | crates/pg-client/src/reconnect/retry.rs:98-120 | total sleep is at most the number of sleeps times the maximum, and at most initial * (2^sleeps - 1) |
| `Retries.Retry` | crates/pg-client/src/reconnect/retry.rs:91-120 | calls the operation exactly min(first success, max(1, max_attempts)) times, sleeps the specified delays between, and returns the last call's result |
| `Retries.ResilientConnection.WithRetry` | crates/pg-client/src/connection.rs:602-727 | never more calls than the cap; every call but the last was retriable, with its reconnect successful where one was needed; the result is the operation's own; the callback sees exactly the breaking attempts that may be retried; afterwards the connection is dead exactly if an attempt broke it and no reconnect may follow or none succeeded, and otherwise alive if it was before or has been reconnected; the transaction flag is that of the last attempt |

## Left out

- TCP, WASI and Tokio transports, TLS, authentication and startup: foreign I/O, library calls and one-branch checks.
- Decoding of message bodies: messages are values; only tag and length framing is modelled. A body that fails to decode is not an outcome.
- Connections.Connection.Prepare: yields type identifiers, not the types a table maps them to, and no statement name, which is a counter.
- Transport errors in mid-response other than the end of the stream, and cancellation of a future at an await: the program promises nothing there. In particular a reservation leaked by cancellation is not a pool step.
- Notices are consumed without their callback; tracing and statistics are absent.
- The COPY sub-protocol as connection states, the synchronous recovery when a COPY is dropped, and COPY FROM STDIN as a query, which leaves the server waiting for data the reader never sends. COPY TO STDOUT as a query, simple or extended, is part of the grammar.
- Parameter encoding: `query_params`, `query_params_stream`, `query_prepared`, `query_prepared_stream`, `query_cursor` and `query_cursor_stream` are modelled from the point where encoding has succeeded; an encoding error, which each returns after its transition, is not a run step.
- A reconnect that fails, which leaves a connection without a transport, is not a step of `SyncDebt` runs; Sessions.Client.Reconnect has it.
- Transactions and savepoints beyond the status kept, the BEGIN and COMMIT of a cursor and the ROLLBACK of `reset`. `session_state.in_transaction` follows the status only where the program has it do so: at resynchronisation, after a successful `with_retry`, at `reset`.
- CsvServer.ServerReadsRowsIff: the escape is the quote and the null string empty, the server's defaults; a quote that is itself an end of line, and a table without columns, are not covered.
- Pool wake-ups, waiting and timeouts (`notify_waiters`, `wait_for_pool_event`), hooks and statistics: liveness depends on the runtime. A step may be scheduled whether or not a task's earlier decision called for it, which allows more interleavings than the program has.
- Pools.PoolInner.Acquire: an exhausted pool refuses at once, since without interference waiting for `acquire_timeout` ends in the same refusal; a given connection's expiry is checked at one moment, as one call does.
- `for_each_row` (the text format), `write_csv_row_with_null`, `to_sql_options`: easy neighbours of what is modelled.
- SessionReplay.ReplaySafety: statements run outside transactions, and a failed statement has no effect on the server; a parameter keeps the text of its literal as read, without the server's normalisation of values; channel names are compared as given, without the truncation of long identifiers.
- Sessions.Client.Reset: outside a transaction; the ROLLBACK sent first inside one is in Connections.Connection.Reset, which in turn has of the tracked session only the transaction flag.
- Sessions.Client.Reconnect: covers what the server holds and what is tracked; what becomes of the connection's own queue, flags and state is Connections.Connection.TakeOver.
- Tracking of prepared statements and temporary tables has no counterpart on the modelled server, since replay leaves both alone.
- Retries.ResilientConnection.WithRetry: the reconnect is an oracle here, and Sessions.Client.Reconnect is its model; error classification is a parameter.
- Sharing of column metadata by reference counting: values are copied.
- Configuration builders, environment parsing, type codecs, SQLSTATE tables: easy members.
