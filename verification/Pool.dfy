/** `PoolInner` as an object whose methods are the lock regions, and `acquire` run without interference. */
module Pools {
  import opened Basics
  import opened PoolRegions

  /** What the world outside the lock answers during one call: the time at which the expiry of a given
      connection is checked, whether it answers a ping, and the connection a creation produces. */
  datatype Oracle = Oracle(checkedAt: Acquired -> int, answers: Acquired -> bool, created: Option<Acquired>)

  datatype Outcome =
    | Reused(connection: Acquired)
    | Created(connection: Acquired)
    | RefusedClosed
    | CreationFailed
    | RefusedExhausted

  predicate Usable(p: Pooled, config: Config, tested: bool, oracle: Oracle) {
    && !IsExpired(p, config, oracle.checkedAt(p.connection))
    && (tested ==> oracle.answers(p.connection))
  }

  /** The position of the first usable idle connection, or the length when there is none. */
  function FirstUsable(idle: seq<Pooled>, config: Config, tested: bool, oracle: Oracle): (k: nat)
    ensures k <= |idle|
    ensures forall j | 0 <= j < k :: !Usable(idle[j], config, tested, oracle)
    ensures k < |idle| ==> Usable(idle[k], config, tested, oracle)
  {
    if idle == [] || Usable(idle[0], config, tested, oracle) then 0
    else 1 + FirstUsable(idle[1..], config, tested, oracle)
  }

  /** `acquire` with nobody interfering: the first usable connection in FIFO order, everything before it
      discarded and everything after it kept; a new one only if none is usable and there is room. */
  function SerialAcquire(inner: Inner, resilient: bool, oracle: Oracle): (Outcome, Inner) {
    var k := FirstUsable(inner.idle, inner.config, resilient || inner.config.testOnAcquire, oracle);
    if inner.closed then (RefusedClosed, inner)
    else if k < |inner.idle| then
      (Reused(inner.idle[k].connection), inner.(idle := inner.idle[k + 1..], active := inner.active + 1))
    else if inner.active + inner.pending >= inner.config.maxSize then (RefusedExhausted, inner.(idle := []))
    else if oracle.created.None? then (CreationFailed, inner.(idle := []))
    else
      (Created(oracle.created.value),
       inner.(idle := [], active := inner.active + 1, totalCreated := inner.totalCreated + 1))
  }

  /** Dropping an unusable front connection does not change what a serial acquire comes to. */
  lemma UnusableFrontIsSkipped(inner: Inner, resilient: bool, oracle: Oracle)
    requires inner.idle != [] && !inner.closed
    requires !Usable(inner.idle[0], inner.config, resilient || inner.config.testOnAcquire, oracle)
    ensures SerialAcquire(PopFront(inner).1, resilient, oracle) == SerialAcquire(inner, resilient, oracle)
  {
    var tested := resilient || inner.config.testOnAcquire;
    var k := FirstUsable(inner.idle[1..], inner.config, tested, oracle);
    assert FirstUsable(inner.idle, inner.config, tested, oracle) == k + 1;
    if k < |inner.idle| - 1 {
      assert inner.idle[1..][k + 1..] == inner.idle[k + 2..];
    }
  }

  /** What a serial acquire comes to when its first decision already settles it. */
  lemma FrontSettles(inner: Inner, resilient: bool, oracle: Oracle)
    requires !inner.closed
    requires inner.idle != [] ==> Usable(inner.idle[0], inner.config, resilient || inner.config.testOnAcquire, oracle)
    ensures SerialAcquire(inner, resilient, oracle) ==
            if inner.idle != [] then
              (Reused(inner.idle[0].connection), inner.(idle := inner.idle[1..], active := inner.active + 1))
            else if inner.Total() >= inner.config.maxSize then (RefusedExhausted, inner)
            else if oracle.created.None? then (CreationFailed, inner)
            else (Created(oracle.created.value),
                  inner.(active := inner.active + 1, totalCreated := inner.totalCreated + 1))
  {
  }

  /** What a release meets: whether the connection is idle, whether its reset succeeds, the times at which its age is
      checked and at which it is put back, and what a replacement for it comes to. */
  datatype ReleaseOracle = ReleaseOracle(
    connectionIdle: bool, resets: bool, checkedAt: int, now: int, replacement: Option<Acquired>)

  predicate Returnable(config: Config, a: Acquired, oracle: ReleaseOracle) {
    oracle.connectionIdle && oracle.resets && !Over(config.maxLifetime, oracle.checkedAt - a.createdAt)
  }

  /** A release with nobody interfering: the connection goes to the back of `idle` if the pool is open and the
      connection idle, reset and young enough; otherwise it is discarded, and in an open pool short of idle
      connections replaced. */
  function SerialRelease(inner: Inner, a: Acquired, oracle: ReleaseOracle): (bool, Inner) {
    var left := inner.(active := SaturatingPred(inner.active));
    if inner.closed then (false, left)
    else if Returnable(inner.config, a, oracle) then
      (true, left.(idle := inner.idle + [Pooled(a, oracle.now, 0)]))
    else if |inner.idle| + inner.pending < inner.config.minIdle && oracle.replacement.Some? then
      (false, left.(idle := inner.idle + [Pooled(oracle.replacement.value, oracle.now, 0)],
                    totalCreated := inner.totalCreated + 1))
    else (false, left)
  }

  lemma {:induction false} FirstUsableAppend(idle: seq<Pooled>, p: Pooled, config: Config, tested: bool, oracle: Oracle)
    ensures FirstUsable(idle + [p], config, tested, oracle)
         == var k := FirstUsable(idle, config, tested, oracle);
            if k < |idle| then k else if Usable(p, config, tested, oracle) then |idle| else |idle| + 1
  {
    if idle == [] {
      assert idle + [p] == [p] && [p][1..] == [];
    } else {
      FirstUsableAppend(idle[1..], p, config, tested, oracle);
      assert (idle + [p])[1..] == idle[1..] + [p];
    }
  }

  /** The choice over `idle` with one connection behind it. */
  lemma AcquireBehind(inner: Inner, p: Pooled, resilient: bool, oracle: Oracle)
    requires !inner.closed
    ensures var tested := resilient || inner.config.testOnAcquire;
            var k := FirstUsable(inner.idle, inner.config, tested, oracle);
            var (outcome, after) := SerialAcquire(inner.(idle := inner.idle + [p]), resilient, oracle);
            if k < |inner.idle| then
              outcome == Reused(inner.idle[k].connection) && after.idle == inner.idle[k + 1..] + [p]
            else if Usable(p, inner.config, tested, oracle) then outcome == Reused(p.connection) && after.idle == []
            else !outcome.Reused?
  {
    var tested := resilient || inner.config.testOnAcquire;
    var k := FirstUsable(inner.idle, inner.config, tested, oracle);
    FirstUsableAppend(inner.idle, p, inner.config, tested, oracle);
    if k < |inner.idle| {
      assert (inner.idle + [p])[k + 1..] == inner.idle[k + 1..] + [p];
    }
  }

  /** A connection released comes last: the next acquire makes the choice it would have made before, and takes the
      released connection, leaving `idle` empty, only if there was none to choose. */
  lemma ReleasedComesLast(inner: Inner, a: Acquired, release: ReleaseOracle, resilient: bool, oracle: Oracle)
    requires SerialRelease(inner, a, release).0
    ensures var tested := resilient || inner.config.testOnAcquire;
            var k := FirstUsable(inner.idle, inner.config, tested, oracle);
            var (outcome, after) := SerialAcquire(SerialRelease(inner, a, release).1, resilient, oracle);
            if k < |inner.idle| then
              && outcome == SerialAcquire(inner, resilient, oracle).0 == Reused(inner.idle[k].connection)
              && after.idle == inner.idle[k + 1..] + [Pooled(a, release.now, 0)]
            else if Usable(Pooled(a, release.now, 0), inner.config, tested, oracle) then
              outcome == Reused(a) && after.idle == []
            else !outcome.Reused?
  {
    AcquireBehind(inner.(active := SaturatingPred(inner.active)), Pooled(a, release.now, 0), resilient, oracle);
  }

  class PoolInner {
    const config: Config
    var idle: seq<Pooled>
    var activeCount: nat
    var pendingCount: nat
    var totalCreated: nat
    var closed: bool

    ghost function Value(): Inner
      reads this
    {
      Inner(config, idle, activeCount, pendingCount, totalCreated, closed)
    }

    /** `Pool::new`: one idle connection for each pre-warming attempt that succeeded. */
    constructor (config: Config, warmed: seq<Acquired>, now: int)
      requires config.Validated() && |warmed| <= config.minIdle
      ensures Value() == Inner(config, seq(|warmed|, i requires 0 <= i < |warmed| => Pooled(warmed[i], now, 0)),
                               0, 0, |warmed|, false)
    {
      this.config := config;
      idle := seq(|warmed|, i requires 0 <= i < |warmed| => Pooled(warmed[i], now, 0));
      activeCount, pendingCount, totalCreated, closed := 0, 0, |warmed|, false;
    }

    method Decide(resilient: bool, now: int) returns (decision: Decision)
      modifies this
      ensures (decision, Value()) == PoolRegions.Decide(old(Value()), resilient, now)
      ensures decision == PoolClosed <==> old(closed)
      ensures decision == CreateNew <==> !closed && idle == [] && old(activeCount + pendingCount) < config.maxSize
      ensures decision in {DiscardExpired, NeedsHealthCheck, Claim} <==> !closed && idle != []
      ensures decision == DiscardExpired <==> !closed && idle != [] && !Young(idle[0], config, now)
      ensures decision == Claim ==> !resilient && !config.testOnAcquire
    {
      if closed {
        return PoolClosed;
      }
      if idle != [] {
        if IsExpired(idle[0], config, now) {
          decision := DiscardExpired;
        } else if resilient || config.testOnAcquire {
          decision := NeedsHealthCheck;
        } else {
          decision := Claim;
        }
      } else if |idle| + activeCount + pendingCount < config.maxSize {
        pendingCount := pendingCount + 1;
        decision := CreateNew;
      } else {
        decision := Exhausted;
      }
    }

    method PopFront() returns (front: Option<Pooled>)
      modifies this
      ensures (front, Value()) == PoolRegions.PopFront(old(Value()))
    {
      front := None;
      if idle != [] {
        front, idle := Some(idle[0]), idle[1..];
      }
    }

    method ClaimPinged()
      modifies this
      ensures Value() == PoolRegions.ClaimPinged(old(Value()))
    {
      activeCount := activeCount + 1;
    }

    method ClaimReady() returns (front: Option<Pooled>)
      modifies this
      ensures (front, Value()) == PoolRegions.ClaimReady(old(Value()))
    {
      front := PopFront();
      if front.Some? {
        activeCount := activeCount + 1;
      }
    }

    method CreatedForAcquire() returns (accepted: bool)
      modifies this
      ensures (accepted, Value()) == PoolRegions.CreatedForAcquire(old(Value()))
      ensures accepted <==> !closed
    {
      pendingCount := SaturatingPred(pendingCount);
      accepted := !closed;
      if accepted {
        activeCount := activeCount + 1;
        totalCreated := totalCreated + 1;
      }
    }

    method CreateFailed()
      modifies this
      ensures Value() == PoolRegions.CreateFailed(old(Value()))
    {
      pendingCount := SaturatingPred(pendingCount);
    }

    method ReleaseStart() returns (open: bool)
      modifies this
      ensures (open, Value()) == PoolRegions.ReleaseStart(old(Value()))
      ensures open <==> !closed
    {
      activeCount := SaturatingPred(activeCount);
      open := !closed;
    }

    method ReleaseReturn(a: Acquired, now: int)
      modifies this
      ensures Value() == PushIdle(old(Value()), a, now)
    {
      idle := idle + [Pooled(a, now, 0)];
    }

    method ReserveMinIdle() returns (reserved: bool)
      modifies this
      ensures (reserved, Value()) == PoolRegions.ReserveMinIdle(old(Value()))
      ensures reserved <==> !closed && |idle| + old(pendingCount) < config.minIdle
    {
      if closed || |idle| + pendingCount >= config.minIdle {
        return false;
      }
      pendingCount := pendingCount + 1;
      reserved := true;
    }

    method CreatedForIdle(a: Acquired, now: int) returns (kept: bool)
      modifies this
      ensures (kept, Value()) == PoolRegions.CreatedForIdle(old(Value()), a, now)
      ensures kept <==> !closed && |old(idle)| < config.minIdle
      ensures idle == if kept then old(idle) + [Pooled(a, now, 0)] else old(idle)
    {
      pendingCount := SaturatingPred(pendingCount);
      if closed || |idle| >= config.minIdle {
        return false;
      }
      idle := idle + [Pooled(a, now, 0)];
      totalCreated := totalCreated + 1;
      kept := true;
    }

    method DropGuard(a: Acquired, connectionIdle: bool, now: int) returns (kept: bool)
      modifies this
      ensures (kept, Value()) == PoolRegions.DropGuard(old(Value()), a, connectionIdle, now)
      ensures kept <==> connectionIdle && !old(closed)
      ensures idle == if kept then old(idle) + [Pooled(a, now, 0)] else old(idle)
    {
      activeCount := SaturatingPred(activeCount);
      if !connectionIdle {
        return false;
      }
      if closed {
        return false;
      }
      idle := idle + [Pooled(a, now, 0)];
      kept := true;
    }

    method Detach()
      modifies this
      ensures Value() == PoolRegions.Detach(old(Value()))
    {
      activeCount := SaturatingPred(activeCount);
    }

    method Close() returns (drained: seq<Pooled>)
      modifies this
      ensures drained == old(idle) && Value() == PoolRegions.Close(old(Value()))
      ensures closed && idle == [] && activeCount == old(activeCount) && pendingCount == old(pendingCount)
    {
      closed := true;
      drained, idle := idle, [];
    }

    method Maintain(now: int) returns (discarded: seq<Pooled>)
      modifies this
      ensures discarded == Expired(old(idle), config, now)
      ensures Value() == PoolRegions.Maintain(old(Value()), now)
    {
      var all, keep := idle, [];
      discarded := [];
      for i := 0 to |all|
        invariant keep + Kept(all[i..], config, now) == Kept(all, config, now)
        invariant discarded + Expired(all[i..], config, now) == Expired(all, config, now)
        invariant all == old(idle) && Value() == old(Value())
      {
        assert all[i..][0] == all[i] && all[i..][1..] == all[i + 1..];
        Assoc(keep, [all[i]], Kept(all[i + 1..], config, now));
        Assoc(discarded, [all[i]], Expired(all[i + 1..], config, now));
        if IsExpired(all[i], config, now) {
          discarded := discarded + [all[i]];
        } else {
          keep := keep + [all[i]];
        }
      }
      idle := keep;
    }

    /** `release_with_metadata`, the lock regions following one another without interference. */
    method Release(a: Acquired, oracle: ReleaseOracle) returns (kept: bool)
      modifies this
      ensures (kept, Value()) == SerialRelease(old(Value()), a, oracle)
      ensures kept <==>
                && !old(closed) && oracle.connectionIdle && oracle.resets
                && (config.maxLifetime.Some? ==> oracle.checkedAt - a.createdAt <= config.maxLifetime.value)
    {
      var open := ReleaseStart();
      if !open {
        return false;
      }
      if Returnable(config, a, oracle) {
        ReleaseReturn(a, oracle.now);
        return true;
      }
      var reserved := ReserveMinIdle();
      if reserved {
        if oracle.replacement.Some? {
          var _ := CreatedForIdle(oracle.replacement.value, oracle.now);
        } else {
          CreateFailed();
        }
      }
      kept := false;
    }

    /** `acquire` (and, with `resilient`, `acquire_resilient`) from decision to decision, the lock regions
        following one another without interference. Terminates because each round that does not return
        removes an idle connection. */
    method Acquire(resilient: bool, oracle: Oracle) returns (outcome: Outcome)
      modifies this
      ensures (outcome, Value()) == SerialAcquire(old(Value()), resilient, oracle)
    {
      while true
        invariant SerialAcquire(Value(), resilient, oracle) == SerialAcquire(old(Value()), resilient, oracle)
        decreases |idle|
      {
        ghost var now := Value();
        if !closed {
          if idle != [] && !Usable(idle[0], config, resilient || config.testOnAcquire, oracle) {
            UnusableFrontIsSkipped(now, resilient, oracle);
          } else {
            FrontSettles(now, resilient, oracle);
          }
        }
        var decision := Decide(resilient, if idle != [] then oracle.checkedAt(idle[0].connection) else 0);
        match decision
        case PoolClosed =>
          return RefusedClosed;
        case DiscardExpired =>
          var _ := PopFront();
        case NeedsHealthCheck =>
          var front := PopFront();
          if oracle.answers(front.value.connection) {
            ClaimPinged();
            return Reused(front.value.connection);
          }
        case Claim =>
          var front := ClaimReady();
          return Reused(front.value.connection);
        case CreateNew =>
          if oracle.created.None? {
            CreateFailed();
            return CreationFailed;
          }
          var _ := CreatedForAcquire();
          return Created(oracle.created.value);
        case Exhausted =>
          return RefusedExhausted;
      }
    }
  }

  /** Within both age limits of the configuration. */
  predicate Young(p: Pooled, config: Config, now: int) {
    && (config.maxLifetime.Some? ==> now - p.connection.createdAt <= config.maxLifetime.value)
    && (config.idleTimeout.Some? ==> now - p.lastUsedAt <= config.idleTimeout.value)
  }

  /** Young when it is looked at and, if it is tested, answering. */
  predicate Fit(p: Pooled, config: Config, tested: bool, oracle: Oracle) {
    Young(p, config, oracle.checkedAt(p.connection)) && (tested ==> oracle.answers(p.connection))
  }

  /** An acquire from an open pool hands out a fit connection if there is one, the first, with only unfit ones before
      it discarded; otherwise nothing stays idle, and it makes one exactly if there is room. */
  lemma AcquireTakesFirstFit(inner: Inner, resilient: bool, oracle: Oracle)
    requires !inner.closed
    ensures var (outcome, after) := SerialAcquire(inner, resilient, oracle);
            var tested := resilient || inner.config.testOnAcquire;
            match outcome
            case Reused(a) =>
              exists k | 0 <= k < |inner.idle| ::
                && a == inner.idle[k].connection && after.idle == inner.idle[k + 1..]
                && Fit(inner.idle[k], inner.config, tested, oracle)
                && forall j | 0 <= j < k :: !Fit(inner.idle[j], inner.config, tested, oracle)
            case _ =>
              && after.idle == []
              && (forall j | 0 <= j < |inner.idle| :: !Fit(inner.idle[j], inner.config, tested, oracle))
              && (outcome == RefusedExhausted <==> inner.active + inner.pending >= inner.config.maxSize)
  {
  }

  lemma {:induction false} KeptConcat(a: seq<Pooled>, b: seq<Pooled>, config: Config, now: int)
    ensures Kept(a + b, config, now) == Kept(a, config, now) + Kept(b, config, now)
    ensures Expired(a + b, config, now) == Expired(a, config, now) + Expired(b, config, now)
  {
    if a == [] {
      assert a + b == b;
      assert [] + Kept(b, config, now) == Kept(b, config, now);
      assert [] + Expired(b, config, now) == Expired(b, config, now);
    } else {
      var rest, expired := a[1..], IsExpired(a[0], config, now);
      KeptConcat(rest, b, config, now);
      assert (a + b)[1..] == rest + b;
      Assoc(if expired then [] else [a[0]], Kept(rest, config, now), Kept(b, config, now));
      Assoc(if expired then [a[0]] else [], Expired(rest, config, now), Expired(b, config, now));
    }
  }

  /** Maintenance keeps the young connections where they stand and closes the others, in order. */
  lemma MaintenanceSplits(before: seq<Pooled>, p: Pooled, after: seq<Pooled>, config: Config, now: int)
    ensures Kept(before + ([p] + after), config, now)
         == Kept(before, config, now) + ((if Young(p, config, now) then [p] else []) + Kept(after, config, now))
    ensures Expired(before + ([p] + after), config, now)
         == Expired(before, config, now) + ((if Young(p, config, now) then [] else [p]) + Expired(after, config, now))
  {
    KeptConcat(before, [p] + after, config, now);
    KeptConcat([p], after, config, now);
    assert [p][1..] == [];
  }

  /** `acquire_resilient` chooses as `acquire` does with `test_on_acquire` switched on. */
  lemma ResilientIsTestedAcquire(inner: Inner, oracle: Oracle)
    ensures var tested := inner.(config := inner.config.(testOnAcquire := true));
            && SerialAcquire(tested, false, oracle).0 == SerialAcquire(inner, true, oracle).0
            && SerialAcquire(tested, false, oracle).1.(config := inner.config) == SerialAcquire(inner, true, oracle).1
  {
    FirstUsableIgnoresFlag(inner.idle, inner.config, oracle);
  }

  lemma {:induction false} FirstUsableIgnoresFlag(idle: seq<Pooled>, config: Config, oracle: Oracle)
    ensures FirstUsable(idle, config.(testOnAcquire := true), true, oracle) == FirstUsable(idle, config, true, oracle)
  {
    if idle != [] {
      FirstUsableIgnoresFlag(idle[1..], config, oracle);
    }
  }
}
