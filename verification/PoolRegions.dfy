/** The pool's lock regions: each function is what one critical section does to `PoolInner`. */
module PoolRegions {
  import opened Basics

  /** Durations and instants are integers on one clock. */
  datatype Config = Config(
    minIdle: nat, maxSize: nat,
    maxLifetime: Option<int>, idleTimeout: Option<int>,
    testOnAcquire: bool)
  {
    predicate Validated() { maxSize > 0 && minIdle <= maxSize }
  }

  /** A connection as the pool knows it: its identity and when it was created. */
  datatype Acquired = Acquired(id: nat, createdAt: int)

  datatype Pooled = Pooled(connection: Acquired, lastUsedAt: int, acquireCount: nat)

  datatype Inner = Inner(
    config: Config, idle: seq<Pooled>, active: nat, pending: nat, totalCreated: nat, closed: bool)
  {
    function Total(): nat { |idle| + active + pending }
  }

  datatype Decision = DiscardExpired | NeedsHealthCheck | Claim | CreateNew | Exhausted | PoolClosed

  function SaturatingPred(n: nat): nat { if n == 0 then 0 else n - 1 }

  predicate Over(limit: Option<int>, elapsed: int) { limit.Some? && elapsed > limit.value }

  predicate IsExpired(p: Pooled, config: Config, now: int) {
    Over(config.maxLifetime, now - p.connection.createdAt) || Over(config.idleTimeout, now - p.lastUsedAt)
  }

  /** The deciding region of `acquire`, `acquire_with_timeout` and `acquire_resilient`. */
  function Decide(inner: Inner, resilient: bool, now: int): (Decision, Inner) {
    if inner.closed then (PoolClosed, inner)
    else if inner.idle != [] then
      (if IsExpired(inner.idle[0], inner.config, now) then DiscardExpired
       else if resilient || inner.config.testOnAcquire then NeedsHealthCheck
       else Claim, inner)
    else if inner.Total() < inner.config.maxSize then (CreateNew, inner.(pending := inner.pending + 1))
    else (Exhausted, inner)
  }

  function PopFront(inner: Inner): (Option<Pooled>, Inner) {
    if inner.idle == [] then (None, inner) else (Some(inner.idle[0]), inner.(idle := inner.idle[1..]))
  }

  /** The region after a successful ping: `closed` is not looked at again. */
  function ClaimPinged(inner: Inner): Inner { inner.(active := inner.active + 1) }

  function ClaimReady(inner: Inner): (Option<Pooled>, Inner) {
    var (front, inner') := PopFront(inner);
    (front, if front.Some? then ClaimPinged(inner') else inner')
  }

  /** A connection made for `acquire` arrives; false when the pool was closed meanwhile. */
  function CreatedForAcquire(inner: Inner): (bool, Inner) {
    var inner' := inner.(pending := SaturatingPred(inner.pending));
    if inner.closed then (false, inner')
    else (true, inner'.(active := inner.active + 1, totalCreated := inner.totalCreated + 1))
  }

  function CreateFailed(inner: Inner): Inner { inner.(pending := SaturatingPred(inner.pending)) }

  /** Step 1 of `release_with_metadata`: true when the pool is open and the release goes on. */
  function ReleaseStart(inner: Inner): (bool, Inner) {
    (!inner.closed, inner.(active := SaturatingPred(inner.active)))
  }

  function PushIdle(inner: Inner, a: Acquired, now: int): Inner {
    inner.(idle := inner.idle + [Pooled(a, now, 0)])
  }

  /** The first region of `maintain_min_idle`: true when a creation was reserved. */
  function ReserveMinIdle(inner: Inner): (bool, Inner) {
    if inner.closed || |inner.idle| + inner.pending >= inner.config.minIdle then (false, inner)
    else (true, inner.(pending := inner.pending + 1))
  }

  /** The second: true when the new connection was put into `idle`. */
  function CreatedForIdle(inner: Inner, a: Acquired, now: int): (bool, Inner) {
    var inner' := CreateFailed(inner);
    if inner.closed || |inner.idle| >= inner.config.minIdle then (false, inner')
    else (true, PushIdle(inner', a, now).(totalCreated := inner.totalCreated + 1))
  }

  /** `Drop for PoolGuard`: true when the connection went back to `idle`. */
  function DropGuard(inner: Inner, a: Acquired, connectionIdle: bool, now: int): (bool, Inner) {
    var inner' := inner.(active := SaturatingPred(inner.active));
    if !connectionIdle || inner.closed then (false, inner') else (true, PushIdle(inner', a, now))
  }

  function Detach(inner: Inner): Inner { inner.(active := SaturatingPred(inner.active)) }

  function Close(inner: Inner): Inner { inner.(closed := true, idle := []) }

  function Kept(idle: seq<Pooled>, config: Config, now: int): seq<Pooled> {
    if idle == [] then []
    else (if IsExpired(idle[0], config, now) then [] else [idle[0]]) + Kept(idle[1..], config, now)
  }

  function Expired(idle: seq<Pooled>, config: Config, now: int): seq<Pooled> {
    if idle == [] then []
    else (if IsExpired(idle[0], config, now) then [idle[0]] else []) + Expired(idle[1..], config, now)
  }

  function Maintain(inner: Inner, now: int): Inner { inner.(idle := Kept(inner.idle, inner.config, now)) }
}
