/** The pool as a concurrent protocol. Every lock region is one atomic step and tasks may be interrupted
    between any two of them. Next to `PoolInner` the ledger records what the lock does not cover: live
    guards, connections being pinged or reset, creations in flight, and connections gone for good. */
module PoolLedger {
  import opened Basics
  import opened PoolRegions

  type Bag = multiset<Acquired>

  datatype World = World(
    inner: Inner,
    guards: Bag,      // connections held by live guards
    pinging: Bag,     // popped for a health check
    returning: Bag,   // released, past the closed check, not yet back in idle
    retired: Bag,     // closed
    detached: Bag,    // handed over to the caller for good
    creating: nat,    // creations in flight on behalf of acquire
    filling: nat,     // creations in flight on behalf of maintain_min_idle
    born: Bag)        // every connection the pool ever counted

  datatype Step =
    | DecideStep(resilient: bool, now: int)
    | DiscardPop
    | PingPop
    | PingOk(a: Acquired)
    | PingFail(a: Acquired)
    | ReadyClaim
    | CreateOk(a: Acquired)
    | CreateErr
    | ReleaseBegin(a: Acquired)
    | ReleaseDiscard(a: Acquired)
    | ReleaseReturn(a: Acquired, now: int)
    | MinIdleReserve
    | MinIdleCreated(a: Acquired, now: int)
    | MinIdleFailed
    | GuardDrop(a: Acquired, connectionIdle: bool, now: int)
    | GuardDetach(a: Acquired)
    | CloseStep
    | MaintainStep(now: int)

  function Contents(idle: seq<Pooled>): Bag {
    if idle == [] then multiset{} else Add(Contents(idle[1..]), idle[0].connection)
  }

  predicate Fresh(w: World, a: Acquired) { forall b :: b in w.born ==> b.id != a.id }

  predicate Enabled(w: World, step: Step) {
    match step
    case PingOk(a) => a in w.pinging
    case PingFail(a) => a in w.pinging
    case CreateOk(a) => w.creating > 0 && Fresh(w, a)
    case CreateErr => w.creating > 0
    case ReleaseBegin(a) => a in w.guards
    case ReleaseDiscard(a) => a in w.returning
    case ReleaseReturn(a, _) => a in w.returning
    case MinIdleCreated(a, _) => w.filling > 0 && Fresh(w, a)
    case MinIdleFailed => w.filling > 0
    case GuardDrop(a, _, _) => a in w.guards
    case GuardDetach(a) => a in w.guards
    case _ => true
  }

  function Add(bag: Bag, a: Acquired): Bag { bag[a := bag[a] + 1] }

  function Remove(bag: Bag, a: Acquired): Bag
    requires a in bag
  {
    bag[a := bag[a] - 1]
  }

  function Next(w: World, step: Step): World
    requires Enabled(w, step)
  {
    match step
    case DecideStep(resilient, now) =>
      var (decision, inner) := Decide(w.inner, resilient, now);
      w.(inner := inner, creating := if decision == CreateNew then w.creating + 1 else w.creating)
    case DiscardPop =>
      var (front, inner) := PopFront(w.inner);
      if front.None? then w else w.(inner := inner, retired := Add(w.retired, front.value.connection))
    case PingPop =>
      var (front, inner) := PopFront(w.inner);
      if front.None? then w else w.(inner := inner, pinging := Add(w.pinging, front.value.connection))
    case PingOk(a) =>
      w.(inner := ClaimPinged(w.inner), pinging := Remove(w.pinging, a), guards := Add(w.guards, a))
    case PingFail(a) => w.(pinging := Remove(w.pinging, a), retired := Add(w.retired, a))
    case ReadyClaim =>
      var (front, inner) := ClaimReady(w.inner);
      if front.None? then w else w.(inner := inner, guards := Add(w.guards, front.value.connection))
    case CreateOk(a) =>
      var (accepted, inner) := CreatedForAcquire(w.inner);
      var w' := w.(inner := inner, creating := w.creating - 1);
      if accepted then w'.(guards := Add(w.guards, a), born := Add(w.born, a)) else w'
    case CreateErr => w.(inner := CreateFailed(w.inner), creating := w.creating - 1)
    case ReleaseBegin(a) =>
      var (open, inner) := ReleaseStart(w.inner);
      var w' := w.(inner := inner, guards := Remove(w.guards, a));
      if open then w'.(returning := Add(w.returning, a)) else w'.(retired := Add(w.retired, a))
    case ReleaseDiscard(a) => w.(returning := Remove(w.returning, a), retired := Add(w.retired, a))
    case ReleaseReturn(a, now) => w.(inner := PushIdle(w.inner, a, now), returning := Remove(w.returning, a))
    case MinIdleReserve =>
      var (reserved, inner) := ReserveMinIdle(w.inner);
      w.(inner := inner, filling := if reserved then w.filling + 1 else w.filling)
    case MinIdleCreated(a, now) =>
      var (kept, inner) := CreatedForIdle(w.inner, a, now);
      w.(inner := inner, filling := w.filling - 1, born := if kept then Add(w.born, a) else w.born)
    case MinIdleFailed => w.(inner := CreateFailed(w.inner), filling := w.filling - 1)
    case GuardDrop(a, connectionIdle, now) =>
      var (kept, inner) := DropGuard(w.inner, a, connectionIdle, now);
      w.(inner := inner, guards := Remove(w.guards, a),
         retired := if kept then w.retired else Add(w.retired, a))
    case GuardDetach(a) =>
      w.(inner := Detach(w.inner), guards := Remove(w.guards, a), detached := Add(w.detached, a))
    case CloseStep => w.(inner := Close(w.inner), retired := w.retired + Contents(w.inner.idle))
    case MaintainStep(now) =>
      w.(inner := Maintain(w.inner, now),
         retired := w.retired + Contents(Expired(w.inner.idle, w.inner.config, now)))
  }

  // ----- the ledger invariant -------------------------------------------------------

  /** In how many places the ledger finds this connection. */
  function Occurrences(w: World, a: Acquired): nat {
    Contents(w.inner.idle)[a] + w.guards[a] + w.pinging[a] + w.returning[a] + w.retired[a] + w.detached[a]
  }

  /** idle + active + in transit + retired + detached. */
  function Size(w: World): nat {
    |w.inner.idle| + |w.guards| + |w.pinging| + |w.returning| + |w.retired| + |w.detached|
  }

  predicate Counters(w: World) {
    w.inner.active == |w.guards| && w.inner.pending == w.creating + w.filling
  }

  ghost predicate Placed(w: World) { forall a :: Occurrences(w, a) == w.born[a] }

  /** No connection id is counted twice. */
  predicate Unique(bag: Bag) {
    && (forall a | a in bag :: bag[a] == 1)
    && (forall a, b | a in bag && b in bag :: a.id == b.id ==> a == b)
  }

  ghost predicate Balanced(w: World) {
    Counters(w) && w.inner.totalCreated == Size(w) && Placed(w) && Unique(w.born)
  }

  lemma {:induction false} ContentsAppend(idle: seq<Pooled>, p: Pooled)
    ensures Contents(idle + [p]) == Add(Contents(idle), p.connection)
  {
    if idle == [] {
      assert idle + [p] == [p] && [p][1..] == [];
    } else {
      ContentsAppend(idle[1..], p);
      assert (idle + [p])[1..] == idle[1..] + [p];
    }
  }

  lemma {:induction false} ContentsSize(idle: seq<Pooled>)
    ensures |Contents(idle)| == |idle|
  {
    if idle != [] {
      ContentsSize(idle[1..]);
    }
  }

  lemma ContentsCons(p: Pooled, idle: seq<Pooled>)
    ensures Contents([p] + idle) == Add(Contents(idle), p.connection)
  {
    assert ([p] + idle)[1..] == idle;
  }

  /** Maintenance splits `idle` into what it keeps and what it closes. */
  lemma {:induction false} MaintenancePartitions(idle: seq<Pooled>, config: Config, now: int, a: Acquired)
    ensures Contents(Kept(idle, config, now))[a] + Contents(Expired(idle, config, now))[a] == Contents(idle)[a]
    ensures |Kept(idle, config, now)| + |Expired(idle, config, now)| == |idle|
  {
    if idle != [] {
      var kept, gone := Kept(idle[1..], config, now), Expired(idle[1..], config, now);
      MaintenancePartitions(idle[1..], config, now, a);
      ContentsCons(idle[0], kept);
      ContentsCons(idle[0], gone);
      assert [] + kept == kept && [] + gone == gone;
    }
  }

  lemma StepCounters(w: World, step: Step)
    requires Counters(w) && Enabled(w, step)
    ensures Counters(Next(w, step))
    ensures step.ReleaseBegin? || step.GuardDrop? || step.GuardDetach? ==> w.inner.active > 0
    ensures step.CreateOk? || step.CreateErr? || step.MinIdleCreated? || step.MinIdleFailed? ==> w.inner.pending > 0
  {
  }

  /** A step changes the number of connections on the books by what it adds to `total_created`. */
  lemma StepSize(w: World, step: Step)
    requires Enabled(w, step)
    ensures Size(Next(w, step)) - Size(w) == Next(w, step).inner.totalCreated - w.inner.totalCreated
  {
    match step
    case CloseStep => ContentsSize(w.inner.idle);
    case MaintainStep(now) =>
      MaintenancePartitions(w.inner.idle, w.inner.config, now, Acquired(0, 0));
      ContentsSize(Expired(w.inner.idle, w.inner.config, now));
    case _ =>
  }

  /** Steps that put a connection at the back of `idle`. */
  lemma ReturnPlaces(w: World, step: Step, a: Acquired)
    requires Enabled(w, step) && (step.ReleaseReturn? || step.MinIdleCreated? || step.GuardDrop?)
    ensures Occurrences(Next(w, step), a) - Occurrences(w, a) == Next(w, step).born[a] - w.born[a]
  {
    var p := Pooled(step.a, step.now, 0);
    ContentsAppend(w.inner.idle, p);
    assert Next(w, step).inner.idle in {w.inner.idle, w.inner.idle + [p]};
  }

  /** Steps that take a connection from the front of `idle`. */
  lemma FrontPlaces(w: World, step: Step, a: Acquired)
    requires step.DiscardPop? || step.PingPop? || step.ReadyClaim?
    ensures Occurrences(Next(w, step), a) - Occurrences(w, a) == Next(w, step).born[a] - w.born[a]
  {
  }

  /** Steps that leave `idle` alone, and closing, which empties it. */
  lemma MovePlaces(w: World, step: Step, a: Acquired)
    requires Enabled(w, step) && !step.ReleaseReturn? && !step.MinIdleCreated? && !step.GuardDrop?
    requires !step.DiscardPop? && !step.PingPop? && !step.ReadyClaim? && !step.MaintainStep?
    ensures Occurrences(Next(w, step), a) - Occurrences(w, a) == Next(w, step).born[a] - w.born[a]
  {
  }

  /** A step moves connections between places; it makes or loses none but those it registers in `born`. */
  lemma StepPlaces(w: World, step: Step, a: Acquired)
    requires Enabled(w, step)
    ensures Occurrences(Next(w, step), a) - Occurrences(w, a) == Next(w, step).born[a] - w.born[a]
  {
    if step.ReleaseReturn? || step.MinIdleCreated? || step.GuardDrop? {
      ReturnPlaces(w, step, a);
    } else if step.MaintainStep? {
      MaintenancePartitions(w.inner.idle, w.inner.config, step.now, a);
    } else if step.DiscardPop? || step.PingPop? || step.ReadyClaim? {
      FrontPlaces(w, step, a);
    } else {
      MovePlaces(w, step, a);
    }
  }

  lemma StepBalances(w: World, step: Step)
    requires Balanced(w) && Enabled(w, step)
    ensures Balanced(Next(w, step))
  {
    StepCounters(w, step);
    StepSize(w, step);
    forall a
      ensures Occurrences(Next(w, step), a) == Next(w, step).born[a]
    {
      StepPlaces(w, step, a);
    }
  }

  /** After `Pool::new`: some of the min_idle connections were made. */
  predicate Initial(w: World) {
    && w.inner.config.Validated() && |w.inner.idle| <= w.inner.config.minIdle
    && w.inner.active == w.inner.pending == 0 && w.inner.totalCreated == |w.inner.idle| && !w.inner.closed
    && w == World(w.inner, multiset{}, multiset{}, multiset{}, multiset{}, multiset{}, 0, 0, Contents(w.inner.idle))
    && Unique(w.born)
  }

  predicate Schedule(w: World, run: seq<Step>)
    decreases |run|
  {
    run == [] || (Enabled(w, run[0]) && Schedule(Next(w, run[0]), run[1..]))
  }

  function Run(w: World, run: seq<Step>): World
    requires Schedule(w, run)
    decreases |run|
  {
    if run == [] then w else Run(Next(w, run[0]), run[1..])
  }

  lemma {:induction false} RunBalances(w: World, run: seq<Step>)
    requires Balanced(w) && Schedule(w, run)
    ensures Balanced(Run(w, run))
    decreases |run|
  {
    if run != [] {
      StepBalances(w, run[0]);
      RunBalances(Next(w, run[0]), run[1..]);
    }
  }

  lemma InitialBalanced(w: World)
    requires Initial(w)
    ensures Balanced(w)
  {
  }

  /** The pool ledger, over every interleaving of lock regions: `active_count` is the number of live
      guards, `pending_count` the number of creations in flight; every connection ever counted is in
      exactly one place, once, with the creation time it was born with; and
      total_created = idle + active + in transit + retired + detached. */
  lemma LedgerHolds(w: World, run: seq<Step>)
    requires Initial(w) && Schedule(w, run)
    ensures var t := Run(w, run);
            && t.inner.active == |t.guards| && t.inner.pending == t.creating + t.filling
            && t.inner.totalCreated
               == |t.inner.idle| + t.inner.active + |t.pinging| + |t.returning| + |t.retired| + |t.detached|
            && (forall a | a in t.born :: Occurrences(t, a) == 1)
            && (forall a, b | Occurrences(t, a) > 0 && Occurrences(t, b) > 0 :: a.id == b.id ==> a == b)
  {
    InitialBalanced(w);
    RunBalances(w, run);
  }

  /** No saturating subtraction ever saturates: whatever step is taken after whatever schedule, the
      counter it decrements is positive. */
  lemma NothingSaturates(w: World, run: seq<Step>, step: Step)
    requires Initial(w) && Schedule(w, run) && Enabled(Run(w, run), step)
    ensures var t := Run(w, run);
            && (step.ReleaseBegin? || step.GuardDrop? || step.GuardDetach? ==> t.inner.active > 0)
            && (step.CreateOk? || step.CreateErr? || step.MinIdleCreated? || step.MinIdleFailed? ==>
                  t.inner.pending > 0)
  {
    InitialBalanced(w);
    RunBalances(w, run);
    StepCounters(Run(w, run), step);
  }

  // ----- the size bound ----------------------------------------------------------------

  predicate Bounded(w: World) { w.inner.Total() <= w.inner.config.maxSize }

  /** Exactly which steps can push idle + active + pending over max_size: those that bring a connection
      back from transit, and the reservation of `maintain_min_idle`, and only from a full pool. */
  lemma BoundBrokenIff(w: World, step: Step)
    requires Counters(w) && Enabled(w, step) && Bounded(w)
    ensures !Bounded(Next(w, step)) <==>
              && w.inner.Total() == w.inner.config.maxSize
              && (step.PingOk? || step.ReleaseReturn? || (step.MinIdleReserve? && ReserveMinIdle(w.inner).0))
  {
    StepCounters(w, step);
    if step.MaintainStep? {
      MaintenancePartitions(w.inner.idle, w.inner.config, step.now, Acquired(0, 0));
    }
  }

  /** `acquire` without health checks, guards returned by Drop or `detach`. */
  predicate NoTransit(step: Step) {
    !step.PingPop? && !step.PingOk? && !step.ReleaseBegin? && !step.ReleaseReturn? && !step.MinIdleReserve?
  }

  /** Without transit the bound holds in every interleaving. */
  lemma {:induction false} BoundWithoutTransit(w: World, run: seq<Step>)
    requires Counters(w) && Bounded(w) && Schedule(w, run)
    requires forall i | 0 <= i < |run| :: NoTransit(run[i])
    ensures Bounded(Run(w, run))
    decreases |run|
  {
    if run != [] {
      BoundBrokenIff(w, run[0]);
      StepCounters(w, run[0]);
      BoundWithoutTransit(Next(w, run[0]), run[1..]);
    }
  }

  function Transit(w: World): nat { |w.pinging| + |w.returning| }

  /** Connections and creations together, transit included. */
  function Census(w: World): nat { w.inner.Total() + Transit(w) }

  function Max(a: nat, b: nat): nat { if a < b then b else a }

  /** The most connections that are in transit at once. */
  function PeakTransit(w: World, run: seq<Step>): nat
    requires Schedule(w, run)
    decreases |run|
  {
    if run == [] then Transit(w) else Max(Transit(w), PeakTransit(Next(w, run[0]), run[1..]))
  }

  predicate Refills(w: World, step: Step) { step.MinIdleReserve? && ReserveMinIdle(w.inner).0 }

  /** How often `maintain_min_idle` reserves a creation. */
  function RefillCount(w: World, run: seq<Step>): nat
    requires Schedule(w, run)
    decreases |run|
  {
    if run == [] then 0 else (if Refills(w, run[0]) then 1 else 0) + RefillCount(Next(w, run[0]), run[1..])
  }

  /** Only two steps add to the census: a reservation of `acquire`, which leaves it at most max_size plus what is in
      transit, and one of `maintain_min_idle`. */
  lemma CensusStep(w: World, step: Step)
    requires Counters(w) && Enabled(w, step)
    ensures Refills(w, step) ==> Census(Next(w, step)) == Census(w) + 1
    ensures !Refills(w, step) ==>
              Census(Next(w, step)) <= Census(w) || Census(Next(w, step)) <= w.inner.config.maxSize + Transit(w)
    ensures Next(w, step).inner.config == w.inner.config
  {
    StepCounters(w, step);
    if step.MaintainStep? {
      MaintenancePartitions(w.inner.idle, w.inner.config, step.now, Acquired(0, 0));
    }
  }

  lemma {:induction false} CensusWithin(w: World, run: seq<Step>, excess: nat)
    requires Counters(w) && Census(w) <= w.inner.config.maxSize + excess && Schedule(w, run)
    ensures Census(Run(w, run)) <= w.inner.config.maxSize + Max(excess, PeakTransit(w, run)) + RefillCount(w, run)
    decreases |run|
  {
    if run != [] {
      CensusStep(w, run[0]);
      StepCounters(w, run[0]);
      CensusWithin(Next(w, run[0]), run[1..], if Refills(w, run[0]) then excess + 1 else Max(excess, Transit(w)));
    }
  }

  /** The census over every interleaving: started within the bound, idle + active + pending and all that is in transit
      never exceed max_size by more than the most connections ever in transit at once and the refills of
      `maintain_min_idle` together. */
  lemma CensusBound(w: World, run: seq<Step>)
    requires Initial(w) && Schedule(w, run)
    ensures Census(Run(w, run)) <= w.inner.config.maxSize + PeakTransit(w, run) + RefillCount(w, run)
  {
    CensusWithin(w, run, 0);
  }

  /** What a serial caller is in the middle of: operations run one at a time to completion. */
  datatype Phase = Between | Pinging | Creating | Releasing | Discarded | Filling

  function SerialNext(w: World, phase: Phase, step: Step): Option<Phase> {
    match phase
    case Between => (
      match step
      case DecideStep(resilient, now) =>
        Some(if Decide(w.inner, resilient, now).0 == CreateNew then Creating else Between)
      case PingPop => Some(if w.inner.idle == [] then Between else Pinging)
      case ReleaseBegin(_) => Some(if w.inner.closed then Between else Releasing)
      case DiscardPop => Some(Between)
      case ReadyClaim => Some(Between)
      case GuardDrop(_, _, _) => Some(Between)
      case GuardDetach(_) => Some(Between)
      case CloseStep => Some(Between)
      case MaintainStep(_) => Some(Between)
      case _ => None
    )
    case Pinging => if step.PingOk? || step.PingFail? then Some(Between) else None
    case Creating => if step.CreateOk? || step.CreateErr? then Some(Between) else None
    case Releasing =>
      if step.ReleaseReturn? then Some(Between) else if step.ReleaseDiscard? then Some(Discarded) else None
    case Discarded =>
      if step.MinIdleReserve? then Some(if ReserveMinIdle(w.inner).0 then Filling else Between) else None
    case Filling => if step.MinIdleCreated? || step.MinIdleFailed? then Some(Between) else None
  }

  predicate Serial(w: World, phase: Phase, run: seq<Step>)
    decreases |run|
  {
    || run == []
    || (&& Enabled(w, run[0]) && SerialNext(w, phase, run[0]).Some?
        && Serial(Next(w, run[0]), SerialNext(w, phase, run[0]).value, run[1..]))
  }

  /** In a serial run at most one connection is in transit, and its slot stays free. */
  predicate SerialBounded(w: World, phase: Phase) {
    && Census(w) + (if phase == Discarded then 1 else 0) <= w.inner.config.maxSize
    && |w.pinging| <= (if phase == Pinging then 1 else 0)
    && |w.returning| <= (if phase == Releasing then 1 else 0)
  }

  lemma SerialStepBounded(w: World, phase: Phase, step: Step)
    requires Counters(w) && Enabled(w, step) && SerialNext(w, phase, step).Some? && SerialBounded(w, phase)
    ensures SerialBounded(Next(w, step), SerialNext(w, phase, step).value)
  {
    StepCounters(w, step);
    if phase == Between {
      BetweenStepBounded(w, step);
    }
  }

  /** An operation starts, or runs in one region. */
  lemma BetweenStepBounded(w: World, step: Step)
    requires Counters(w) && Enabled(w, step) && SerialNext(w, Between, step).Some? && SerialBounded(w, Between)
    ensures SerialBounded(Next(w, step), SerialNext(w, Between, step).value)
  {
    match step
    case MaintainStep(now) => MaintenancePartitions(w.inner.idle, w.inner.config, now, Acquired(0, 0));
    case _ =>
  }

  /** Serially the bound holds at every point of every run of all operations. */
  lemma {:induction false} SerialBound(w: World, phase: Phase, run: seq<Step>)
    requires Counters(w) && SerialBounded(w, phase) && Serial(w, phase, run)
    ensures Schedule(w, run) && Bounded(Run(w, run))
    decreases |run|
  {
    if run != [] {
      SerialStepBounded(w, phase, run[0]);
      StepCounters(w, run[0]);
      SerialBound(Next(w, run[0]), SerialNext(w, phase, run[0]).value, run[1..]);
    }
  }

  lemma Prepend(w: World, step: Step, run: seq<Step>)
    requires Enabled(w, step) && Schedule(Next(w, step), run)
    ensures Schedule(w, [step] + run) && Run(w, [step] + run) == Run(Next(w, step), run)
  {
    assert ([step] + run)[1..] == run;
  }

  /** The bound is not an invariant of concurrent runs with health checks: two tasks and a pool of one. */
  lemma HealthChecksBreakTheBound(w: World, a: Acquired, b: Acquired)
    requires Counters(w) && !w.inner.closed && w.inner.config.maxSize == 1
    requires w.inner.idle == [Pooled(a, 0, 0)] && w.inner.Total() == 1
    requires Fresh(w, b)
    ensures var run := [PingPop] + ([DecideStep(true, 0)] + ([CreateOk(b)] + ([PingOk(a)] + [])));
            Schedule(w, run) && Run(w, run).inner.active == 2
  {
    var w1 := Next(w, PingPop);
    var w2 := Next(w1, DecideStep(true, 0));
    var w3 := Next(w2, CreateOk(b));
    Prepend(w3, PingOk(a), []);
    Prepend(w2, CreateOk(b), [PingOk(a)] + []);
    Prepend(w1, DecideStep(true, 0), [CreateOk(b)] + ([PingOk(a)] + []));
    Prepend(w, PingPop, [DecideStep(true, 0)] + ([CreateOk(b)] + ([PingOk(a)] + [])));
  }

  // ----- a closed pool only shrinks ------------------------------------------------------

  function Live(w: World): nat { |w.inner.idle| + w.inner.active + |w.pinging| + |w.returning| }

  /** Connections in `idle`, or on their way back to it. */
  function Homebound(w: World, a: Acquired): nat { Contents(w.inner.idle)[a] + w.returning[a] }

  lemma ClosedStepLive(w: World, step: Step)
    requires Counters(w) && Enabled(w, step) && w.inner.closed
    ensures Next(w, step).inner.closed && Live(Next(w, step)) <= Live(w)
  {
    StepCounters(w, step);
    match step
    case MaintainStep(now) => MaintenancePartitions(w.inner.idle, w.inner.config, now, Acquired(0, 0));
    case _ =>
  }

  lemma ClosedStepHomebound(w: World, step: Step, a: Acquired)
    requires Enabled(w, step) && w.inner.closed
    ensures Homebound(Next(w, step), a) <= Homebound(w, a)
  {
    match step
    case ReleaseReturn(x, now) => ContentsAppend(w.inner.idle, Pooled(x, now, 0));
    case MaintainStep(now) => MaintenancePartitions(w.inner.idle, w.inner.config, now, a);
    case _ =>
  }

  /** A closed pool only shrinks: idle + active + in transit never increases in any interleaving, and a
      connection found in `idle` later was there at the start or belongs to a release that had already
      passed its closed check. */
  lemma {:induction false} ClosedPoolShrinks(w: World, run: seq<Step>, a: Acquired)
    requires Counters(w) && w.inner.closed && Schedule(w, run)
    ensures var t := Run(w, run);
            t.inner.closed && Live(t) <= Live(w) && Homebound(t, a) <= Homebound(w, a)
    decreases |run|
  {
    if run != [] {
      ClosedStepLive(w, run[0]);
      ClosedStepHomebound(w, run[0], a);
      StepCounters(w, run[0]);
      ClosedPoolShrinks(Next(w, run[0]), run[1..], a);
    }
  }

  /** After `close`, a connection can be in `idle` only if its release was in flight at that moment. */
  lemma OnlyReleasesInFlightReturn(w: World, run: seq<Step>, i: nat)
    requires Counters(w) && Schedule(w, [CloseStep] + run)
    requires i < |Run(w, [CloseStep] + run).inner.idle|
    ensures Run(w, [CloseStep] + run).inner.idle[i].connection in w.returning
  {
    var closed := Next(w, CloseStep);
    assert ([CloseStep] + run)[1..] == run;
    StepCounters(w, CloseStep);
    var idle := Run(closed, run).inner.idle;
    ClosedPoolShrinks(closed, run, idle[i].connection);
    ContentsHolds(idle, i);
  }

  lemma {:induction false} ContentsHolds(idle: seq<Pooled>, i: nat)
    requires i < |idle|
    ensures Contents(idle)[idle[i].connection] > 0
  {
    if i > 0 {
      ContentsHolds(idle[1..], i - 1);
    }
  }

  // ----- what comes back to idle ----------------------------------------------------------

  /** Dropping a guard puts its connection at the back of `idle`, and closes nothing, if the connection is idle and
      the pool open; otherwise it closes this one connection and leaves `idle` alone. */
  lemma GuardDropPlaces(w: World, a: Acquired, connectionIdle: bool, now: int)
    requires a in w.guards
    ensures var t := Next(w, GuardDrop(a, connectionIdle, now));
            && t.guards == w.guards[a := w.guards[a] - 1] && t.inner.active == SaturatingPred(w.inner.active)
            && (if connectionIdle && !w.inner.closed
                then t.inner.idle == w.inner.idle + [Pooled(a, now, 0)] && t.retired == w.retired
                else t.inner.idle == w.inner.idle && t.retired == w.retired[a := w.retired[a] + 1])
  {
  }

  /** A guard of `a` was dropped while its connection was in the middle of a command. */
  predicate DroppedBusy(run: seq<Step>, a: Acquired) {
    exists i | 0 <= i < |run| :: run[i].GuardDrop? && run[i].a == a && !run[i].connectionIdle
  }

  /** What is closed stays closed. */
  lemma {:induction false} RetiredForGood(w: World, run: seq<Step>, a: Acquired)
    requires Schedule(w, run)
    ensures Run(w, run).retired[a] >= w.retired[a]
    decreases |run|
  {
    if run != [] {
      RetiredForGood(Next(w, run[0]), run[1..], a);
    }
  }

  lemma {:induction false} BusyIsRetired(w: World, run: seq<Step>, a: Acquired)
    requires Schedule(w, run) && DroppedBusy(run, a)
    ensures Run(w, run).retired[a] > 0
    decreases |run|
  {
    if run[0].GuardDrop? && run[0].a == a && !run[0].connectionIdle {
      GuardDropPlaces(w, a, false, run[0].now);
      RetiredForGood(Next(w, run[0]), run[1..], a);
    } else {
      assert run == [run[0]] + run[1..];
      BusyIsRetired(Next(w, run[0]), run[1..], a);
    }
  }

  /** A connection whose guard was dropped in the middle of a command is closed, once, and in every interleaving at
      every later moment neither idle nor on its way there, nor held by anyone. */
  lemma BusyNeverReturns(w: World, run: seq<Step>, a: Acquired)
    requires Initial(w) && Schedule(w, run) && DroppedBusy(run, a)
    ensures var t := Run(w, run);
            && t.retired[a] == 1 && t.detached[a] == 0 && Contents(t.inner.idle)[a] == 0
            && t.guards[a] == 0 && t.pinging[a] == 0 && t.returning[a] == 0
            && forall i | 0 <= i < |t.inner.idle| :: t.inner.idle[i].connection.id != a.id
  {
    var t := Run(w, run);
    BusyIsRetired(w, run, a);
    InitialBalanced(w);
    RunBalances(w, run);
    assert Occurrences(t, a) == t.born[a];
    assert a in t.born;
    forall i | 0 <= i < |t.inner.idle|
      ensures t.inner.idle[i].connection.id != a.id
    {
      var b := t.inner.idle[i].connection;
      ContentsHolds(t.inner.idle, i);
      assert Occurrences(t, b) == t.born[b];
    }
  }

  /** The steps that put an idle connection where it is: a finished release, a refill, or the drop of a guard whose
      connection was idle. */
  predicate PutBack(run: seq<Step>, p: Pooled) {
    || ReleaseReturn(p.connection, p.lastUsedAt) in run
    || MinIdleCreated(p.connection, p.lastUsedAt) in run
    || GuardDrop(p.connection, true, p.lastUsedAt) in run
  }

  lemma {:induction false} KeptIsPart(idle: seq<Pooled>, config: Config, now: int, p: Pooled)
    requires p in Kept(idle, config, now)
    ensures p in idle
  {
    if p != idle[0] {
      KeptIsPart(idle[1..], config, now, p);
    }
  }

  /** Whatever is idle was so from the start, or was put back by one of these steps and never acquired since. */
  lemma {:induction false} IdleWasPutBack(w: World, run: seq<Step>, p: Pooled)
    requires Schedule(w, run) && p in Run(w, run).inner.idle
    ensures p in w.inner.idle || (PutBack(run, p) && p.acquireCount == 0)
    decreases |run|
  {
    if run != [] {
      var step, next := run[0], Next(w, run[0]);
      assert run == [step] + run[1..];
      IdleWasPutBack(next, run[1..], p);
      if p in next.inner.idle && step.MaintainStep? {
        KeptIsPart(w.inner.idle, w.inner.config, step.now, p);
      }
    }
  }
}
