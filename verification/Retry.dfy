/** Exponential backoff and the two retry loops. Durations are whole nanoseconds. */
module Backoff {
  import opened Basics

  const U32_MAX: nat := 0xFFFF_FFFF
  const DURATION_MAX: nat := 0x1_0000_0000_0000_0000 * 1_000_000_000 - 1

  function Pow2(n: nat): (p: nat)
    ensures p >= 1
  {
    if n == 0 then 1 else 2 * Pow2(n - 1)
  }

  function Min(a: nat, b: nat): nat { if a <= b then a else b }

  /** `2u32.saturating_pow(attempt.saturating_sub(1))`. */
  function Multiplier(attempt: nat): (m: nat)
    ensures m >= 1
  {
    Min(Pow2(if attempt == 0 then 0 else attempt - 1), U32_MAX)
  }

  datatype Policy = Policy(maxAttempts: nat, initialDelay: nat, maxDelay: nat)
  {
    predicate Valid() { maxAttempts <= U32_MAX && initialDelay <= DURATION_MAX && maxDelay <= DURATION_MAX }

    /** The number of calls allowed: the first is always made. */
    function Cap(): (n: nat)
      ensures n >= 1
    {
      if maxAttempts == 0 then 1 else maxAttempts
    }
  }

  /** `delay_for_attempt`; None where multiplying the duration overflows, which panics: the cap comes only after
      the multiplication. */
  function Delay(p: Policy, attempt: nat): (r: Option<nat>)
    ensures r.None? <==> p.initialDelay * Multiplier(attempt) > DURATION_MAX
    ensures r.Some? ==> r.value <= p.maxDelay && r.value <= p.initialDelay * Multiplier(attempt)
    ensures r.Some? ==> r.value == p.maxDelay || r.value == p.initialDelay * Multiplier(attempt)
  {
    var delay := p.initialDelay * Multiplier(attempt);
    if delay > DURATION_MAX then None else Some(Min(delay, p.maxDelay))
  }

  lemma {:induction false} Pow2Monotone(a: nat, b: nat)
    requires a <= b
    ensures Pow2(a) <= Pow2(b)
    decreases b
  {
    if a < b {
      Pow2Monotone(a, b - 1);
    }
  }

  lemma ScaleMonotone(x: nat, a: nat, b: nat)
    requires a <= b
    ensures x * a <= x * b
  {
  }

  /** Delays grow with the attempt, and so does the danger of overflow. */
  lemma DelayMonotone(p: Policy, a: nat, b: nat)
    requires a <= b && Delay(p, b).Some?
    ensures Delay(p, a).Some? && Delay(p, a).value <= Delay(p, b).value
  {
    Pow2Monotone(if a == 0 then 0 else a - 1, if b == 0 then 0 else b - 1);
    ScaleMonotone(p.initialDelay, Multiplier(a), Multiplier(b));
  }

  /** The first delay is the initial one and each later one twice the one before, both capped at the maximum, up to
      the 32nd; the 33rd falls one initial delay short of that, where the multiplier saturates, and from it on
      they stay the same. */
  lemma DelayDoubles(p: Policy, a: nat)
    requires a >= 1 && Delay(p, a + 1).Some?
    ensures Delay(p, 1) == Some(Min(p.initialDelay, p.maxDelay))
    ensures Delay(p, a).Some?
    ensures a < 32 ==> Delay(p, a + 1).value == Min(2 * Delay(p, a).value, p.maxDelay)
    ensures a == 32 ==> Delay(p, a + 1).value == Min(p.initialDelay * U32_MAX, p.maxDelay)
    ensures a >= 33 ==> Delay(p, a + 1) == Delay(p, a)
  {
    DelayMonotone(p, 1, a + 1);
    DelayMonotone(p, a, a + 1);
    assert Multiplier(1) == 1;
    MultiplierDoubles(a);
    Twice(p.initialDelay, Multiplier(a));
  }

  lemma Twice(x: nat, m: nat)
    ensures x * (2 * m) == 2 * (x * m)
  {
  }

  lemma MultiplierDoubles(a: nat)
    requires a >= 1
    ensures a < 32 ==> Multiplier(a + 1) == 2 * Multiplier(a)
    ensures a == 32 ==> Multiplier(a + 1) == U32_MAX == 2 * Multiplier(a) - 1
    ensures a >= 33 ==> Multiplier(a + 1) == Multiplier(a)
  {
    Pow2At32();
    if a < 32 {
      Pow2Monotone(a, 31);
    } else {
      Pow2Monotone(32, a);
      if a >= 33 {
        Pow2Monotone(32, a - 1);
      }
    }
  }

  /** A policy never panics, at any attempt, exactly when its initial delay survives the largest multiplier. */
  lemma NeverOverflowsIff(p: Policy)
    ensures (forall a: nat :: Delay(p, a).Some?) <==> p.initialDelay * U32_MAX <= DURATION_MAX
  {
    if p.initialDelay * U32_MAX <= DURATION_MAX {
      forall a: nat
        ensures Delay(p, a).Some?
      {
        ScaleMonotone(p.initialDelay, Multiplier(a), U32_MAX);
      }
    } else {
      Pow2At32();
      assert Multiplier(33) == U32_MAX;
      assert Delay(p, 33).None?;
    }
  }

  lemma Pow2At32()
    ensures Pow2(32) == U32_MAX + 1
  {
    assert Pow2(8) == 256;
    Pow2Sum(8, 8);
    Pow2Sum(16, 16);
  }

  lemma {:induction false} Pow2Sum(a: nat, b: nat)
    ensures Pow2(a + b) == Pow2(a) * Pow2(b)
    decreases b
  {
    if b > 0 {
      Pow2Sum(a, b - 1);
      assert Pow2(a) * (2 * Pow2(b - 1)) == 2 * (Pow2(a) * Pow2(b - 1));
    }
  }

  // ----- time slept ---------------------------------------------------------------------------

  function Sum(s: seq<nat>): nat { if s == [] then 0 else Sum(s[..|s| - 1]) + s[|s| - 1] }

  /** The sleeps before the calls 2 to |s| + 1. */
  predicate Sleeps(p: Policy, s: seq<nat>) {
    forall i | 0 <= i < |s| :: Delay(p, i + 1) == Some(s[i])
  }

  lemma Doubling(x: nat, m: nat)
    ensures x * (m - 1) + x * m == x * (2 * m - 1)
  {
  }

  lemma OneMore(n: nat, x: nat)
    ensures n * x + x == (n + 1) * x
  {
  }

  /** Total time slept: bounded by the cap for each sleep, and by the geometric sum of the uncapped ones. */
  lemma {:induction false} TotalSleep(p: Policy, s: seq<nat>)
    requires Sleeps(p, s)
    ensures Sum(s) <= |s| * p.maxDelay
    ensures Sum(s) <= p.initialDelay * (Pow2(|s|) - 1)
  {
    if s != [] {
      var n := |s|;
      var before, last := s[..n - 1], s[n - 1];
      TotalSleep(p, before);
      assert Delay(p, n - 1 + 1) == Some(last);
      ScaleMonotone(p.initialDelay, Multiplier(n), Pow2(n - 1));
      Doubling(p.initialDelay, Pow2(n - 1));
      OneMore(n - 1, p.maxDelay);
    }
  }
}

module Retries {
  import opened Basics
  import opened Backoff

  datatype Outcome<+T, +E> = Ok(value: T) | Err(error: E)

  /** `RetryPolicy::retry`. `operation(i)` is what the i-th call gives. The calls made are the least number
      that ends in success or reaches the cap; None stands for the panic of an overflowing delay. */
  method Retry<T, E>(policy: Policy, operation: nat -> Outcome<T, E>)
    returns (result: Option<Outcome<T, E>>, calls: nat, slept: seq<nat>)
    requires policy.Valid()
    ensures 1 <= calls <= policy.Cap() <= U32_MAX
    ensures forall i | 1 <= i < calls :: operation(i).Err?
    ensures |slept| == calls - 1 && Sleeps(policy, slept)
    ensures result.Some? ==>
              result.value == operation(calls) && (operation(calls).Ok? || calls == policy.Cap())
    ensures result.None? <==> operation(calls).Err? && calls < policy.Cap() && Delay(policy, calls).None?
  {
    calls, slept := 0, [];
    while true
      invariant 0 <= calls < policy.Cap() && |slept| == calls && Sleeps(policy, slept)
      invariant forall i | 1 <= i <= calls :: operation(i).Err?
      decreases policy.Cap() - calls
    {
      calls := calls + 1;
      var outcome := operation(calls);
      if outcome.Ok? || calls >= policy.maxAttempts {
        return Some(outcome), calls, slept;
      }
      var delay := Delay(policy, calls);
      if delay.None? {
        return None, calls, slept;
      }
      slept := slept + [delay.value];
    }
  }

  // ----- with_retry -----------------------------------------------------------------------------

  datatype ErrorClass = Permanent | Transient | Broken

  /** One call of the operation: its result, whether the server then reports a transaction, and whether
      the tracked session is marked as inside one. */
  datatype Attempt<+T, +E> = Attempt(result: Outcome<T, E>, statusInTransaction: bool, trackedInTransaction: bool)

  datatype ReconnectConfig = ReconnectConfig(enabled: bool, allowMidTransaction: bool, backoff: Policy)
  {
    function Cap(): (n: nat)
      ensures n >= 1
    {
      if enabled then backoff.Cap() else 1
    }
  }

  predicate Breaks<T, E>(a: Attempt<T, E>, classify: E -> ErrorClass) {
    a.result.Err? && classify(a.result.error).Broken?
  }

  /** Whether a reconnect may be tried after a broken attempt. */
  predicate MayReconnect<T, E>(config: ReconnectConfig, a: Attempt<T, E>) {
    config.enabled && (config.allowMidTransaction || !a.trackedInTransaction)
  }

  /** Whether the program goes on to a backoff after this attempt, attempts permitting. */
  predicate WantsRetry<T, E>(config: ReconnectConfig, a: Attempt<T, E>, classify: E -> ErrorClass) {
    a.result.Err? &&
    match classify(a.result.error)
    case Permanent => false
    case Transient => true
    case Broken => MayReconnect(config, a)
  }

  /** Whether the i-th attempt is followed by another one, attempts permitting. */
  predicate Retried<T, E>(
    config: ReconnectConfig, operation: nat -> Attempt<T, E>, classify: E -> ErrorClass,
    reconnects: nat -> bool, i: nat)
  {
    WantsRetry(config, operation(i), classify) && (classify(operation(i).result.error).Broken? ==> reconnects(i))
  }

  /** The attempts up to the n-th that the before-reconnect callback is called with. */
  function Announced<T, E>(
    config: ReconnectConfig, operation: nat -> Attempt<T, E>, classify: E -> ErrorClass, n: nat): seq<nat>
  {
    if n == 0 then []
    else
      var a := operation(n);
      Announced(config, operation, classify, n - 1) +
      (if WantsRetry(config, a, classify) && classify(a.result.error).Broken? && n < config.Cap() then [n] else [])
  }

  class ResilientConnection {
    var alive: bool
    var inTransaction: bool

    constructor ()
      ensures alive && !inTransaction
    {
      alive, inTransaction := true, false;
    }

    /** `with_retry`. The operation is called until the first attempt that is not retried, never more than the
        cap, and the result is that of the last call itself: an error of the reconnect is never returned.
        The callback is announced every attempt that broke the connection and may be followed by a reconnect.
        Success leaves the connection alive with the server's transaction status; an attempt that broke it
        and may not be, or is not, followed by a reconnect leaves it broken; otherwise it is alive if it was
        or has been reconnected since. */
    method WithRetry<T, E>(
      config: ReconnectConfig, operation: nat -> Attempt<T, E>, classify: E -> ErrorClass, reconnects: nat -> bool)
      returns (result: Option<Outcome<T, E>>, calls: nat, slept: seq<nat>, announced: seq<nat>)
      requires config.backoff.Valid()
      modifies this
      ensures 1 <= calls <= config.Cap()
      ensures forall i | 1 <= i < calls :: Retried(config, operation, classify, reconnects, i)
      ensures |slept| <= calls && Sleeps(config.backoff, slept)
      ensures result.Some? ==>
                && result.value == operation(calls).result
                && (!Retried(config, operation, classify, reconnects, calls) || calls == config.Cap())
      ensures result.None?
              <==> && WantsRetry(config, operation(calls), classify)
                   && calls < config.Cap() && Delay(config.backoff, calls).None?
      ensures announced == Announced(config, operation, classify, calls)
      ensures inTransaction == if operation(calls).result.Ok? then operation(calls).statusInTransaction
                               else operation(calls).trackedInTransaction
      ensures alive ==
              if result.Some? && result.value.Ok? then true
              else if result.Some? && classify(result.value.error).Broken? &&
                      (calls < config.Cap() || !MayReconnect(config, operation(calls))) then false
              else old(alive) || exists i | 1 <= i < calls :: Breaks(operation(i), classify)
    {
      var maxAttempts := config.Cap();
      calls, slept, announced := 0, [], [];
      while true
        invariant 0 <= calls < maxAttempts && |slept| == calls && Sleeps(config.backoff, slept)
        invariant announced == Announced(config, operation, classify, calls)
        invariant forall i | 1 <= i <= calls :: Retried(config, operation, classify, reconnects, i)
        invariant alive <==> old(alive) || exists i | 1 <= i <= calls :: Breaks(operation(i), classify)
        decreases maxAttempts - calls
      {
        calls := calls + 1;
        var attempt := operation(calls);
        inTransaction := attempt.trackedInTransaction;
        if attempt.result.Ok? {
          alive, inTransaction := true, attempt.statusInTransaction;
          return Some(attempt.result), calls, slept, announced;
        }
        var class_ := classify(attempt.result.error);
        if class_.Permanent? {
          return Some(attempt.result), calls, slept, announced;
        }
        if class_.Broken? && !config.enabled {
          alive := false;
          return Some(attempt.result), calls, slept, announced;
        }
        if class_.Broken? && !config.allowMidTransaction && inTransaction {
          alive := false;
          return Some(attempt.result), calls, slept, announced;
        }
        if calls >= maxAttempts {
          return Some(attempt.result), calls, slept, announced;
        }
        if class_.Broken? {
          announced := announced + [calls];
        }
        var delay := Delay(config.backoff, calls);
        if delay.None? {
          return None, calls, slept, announced;
        }
        slept := slept + [delay.value];
        if class_.Broken? {
          alive := false;
          if !reconnects(calls) {
            return Some(attempt.result), calls, slept, announced;
          }
          alive := true;
        }
      }
    }
  }
}
