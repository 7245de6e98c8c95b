/** The statement cache: a map and a recency queue that must agree, against the abstract LRU stack. */
module LruStack {
  import opened Basics

  datatype Statement = Statement(sql: string, name: string)

  datatype Cache = Cache(entries: map<string, Statement>, order: seq<string>, capacity: nat)

  /** `retain(|s| s != sql)`. */
  function Without(order: seq<string>, sql: string): (r: seq<string>)
    ensures |r| <= |order|
    ensures forall s :: s in r <==> s in order && s != sql
  {
    if order == [] then []
    else if order[0] == sql then Without(order[1..], sql)
    else [order[0]] + Without(order[1..], sql)
  }

  function Get(c: Cache, sql: string): (Option<Statement>, Cache) {
    if sql in c.entries then (Some(c.entries[sql]), c.(order := [sql] + Without(c.order, sql)))
    else (None, c)
  }

  function Insert(c: Cache, stmt: Statement): (Option<Statement>, Cache) {
    var order := Without(c.order, stmt.sql);
    var evicts := |c.entries| >= c.capacity && stmt.sql !in c.entries && order != [];
    var kept := if evicts then order[..|order| - 1] else order;
    var entries := if evicts then c.entries - {order[|order| - 1]} else c.entries;
    (if evicts && order[|order| - 1] in c.entries then Some(c.entries[order[|order| - 1]]) else None,
     Cache(entries[stmt.sql := stmt], [stmt.sql] + kept, c.capacity))
  }

  function Remove(c: Cache, sql: string): (Option<Statement>, Cache) {
    (if sql in c.entries then Some(c.entries[sql]) else None,
     Cache(c.entries - {sql}, Without(c.order, sql), c.capacity))
  }

  function Clear(c: Cache): Cache { Cache(map[], [], c.capacity) }

  // ----- the map and the queue agree -------------------------------------------------------

  predicate NoDuplicates(s: seq<string>) {
    s == [] || (s[0] !in s[1..] && NoDuplicates(s[1..]))
  }

  /** A cache of capacity 0 still holds the statement inserted last. */
  function Slots(capacity: nat): nat { if capacity == 0 then 1 else capacity }

  ghost predicate Consistent(c: Cache) {
    && NoDuplicates(c.order)
    && (forall s :: s in c.order <==> s in c.entries)
    && (forall s | s in c.entries :: c.entries[s].sql == s)
    && |c.order| <= Slots(c.capacity)
  }

  lemma {:induction false} DistinctCount(s: seq<string>, keys: set<string>)
    requires NoDuplicates(s) && forall x :: x in s <==> x in keys
    ensures |keys| == |s|
  {
    if s == [] {
      assert keys == {};
    } else {
      assert s == [s[0]] + s[1..];
      DistinctCount(s[1..], keys - {s[0]});
    }
  }

  lemma {:induction false} WithoutProperties(order: seq<string>, sql: string)
    requires NoDuplicates(order)
    ensures NoDuplicates(Without(order, sql))
    ensures |Without(order, sql)| == |order| - (if sql in order then 1 else 0)
    ensures sql !in order ==> Without(order, sql) == order
  {
    if order != [] {
      WithoutProperties(order[1..], sql);
      assert order == [order[0]] + order[1..];
      var rest := Without(order[1..], sql);
      assert ([order[0]] + rest)[1..] == rest;
    }
  }

  lemma {:induction false} DropLast(s: seq<string>)
    requires NoDuplicates(s) && s != []
    ensures NoDuplicates(s[..|s| - 1]) && s[|s| - 1] !in s[..|s| - 1]
  {
    if |s| > 1 {
      DropLast(s[1..]);
      assert s[..|s| - 1][1..] == s[1..][..|s| - 2];
      assert s[..|s| - 1] == [s[0]] + s[1..][..|s| - 2];
    }
  }

  lemma EntriesAreCounted(c: Cache)
    requires Consistent(c)
    ensures |c.entries| == |c.order|
  {
    DistinctCount(c.order, c.entries.Keys);
  }

  lemma Fronted(s: seq<string>, x: string)
    requires NoDuplicates(s) && x !in s
    ensures NoDuplicates([x] + s)
  {
    assert ([x] + s)[1..] == s;
  }

  lemma EvictConsistent(c: Cache, stmt: Statement)
    requires Consistent(c) && stmt.sql !in c.entries && c.order != []
    ensures var n := |c.order| - 1;
            Consistent(Cache((c.entries - {c.order[n]})[stmt.sql := stmt], [stmt.sql] + c.order[..n], c.capacity))
  {
    var n := |c.order| - 1;
    var front, oldest := c.order[..n], c.order[n];
    DropLast(c.order);
    assert c.order == front + [oldest];
    Fronted(front, stmt.sql);
    var entries := (c.entries - {oldest})[stmt.sql := stmt];
    forall s
      ensures s in [stmt.sql] + front <==> s in entries
    {
      assert s in c.order <==> s in front || s == oldest;
    }
  }

  lemma InsertConsistent(c: Cache, stmt: Statement)
    requires Consistent(c)
    ensures Consistent(Insert(c, stmt).1)
  {
    WithoutProperties(c.order, stmt.sql);
    EntriesAreCounted(c);
    if |c.entries| >= c.capacity && stmt.sql !in c.entries && c.order != [] {
      EvictConsistent(c, stmt);
    } else {
      Fronted(Without(c.order, stmt.sql), stmt.sql);
    }
  }

  /** Every operation keeps map and queue in step and within capacity, on any cache, in any order. */
  lemma OperationsStayConsistent(c: Cache, stmt: Statement, sql: string)
    requires Consistent(c)
    ensures Consistent(Get(c, sql).1) && Consistent(Insert(c, stmt).1)
    ensures Consistent(Remove(c, sql).1) && Consistent(Clear(c))
  {
    WithoutProperties(c.order, sql);
    Fronted(Without(c.order, sql), sql);
    InsertConsistent(c, stmt);
  }

  // ----- statements handed back -----------------------------------------------------------------

  /** Inserting under a new key into a full cache evicts the statement used least recently, which is handed back;
      any other insert evicts nothing. The statement inserted is then the one found under its key. */
  lemma InsertEvicts(c: Cache, stmt: Statement)
    requires Consistent(c)
    ensures var (evicted, c') := Insert(c, stmt);
            var full := stmt.sql !in c.entries && c.order != [] && |c.order| >= c.capacity;
            && Get(c', stmt.sql) == (Some(stmt), c')
            && (if full then
                  var oldest := c.order[|c.order| - 1];
                  && evicted == Some(c.entries[oldest])
                  && c'.entries == (map s | s in c.entries && s != oldest :: c.entries[s])[stmt.sql := stmt]
                else evicted == None && c'.entries == c.entries[stmt.sql := stmt])
  {
    EntriesAreCounted(c);
    WithoutProperties(c.order, stmt.sql);
    if stmt.sql !in c.order {
      WithoutAbsent(c.order, stmt.sql);
    }
    WithoutAbsent(Insert(c, stmt).1.order[1..], stmt.sql);
  }

  datatype Step = GetStep(sql: string) | InsertStep(stmt: Statement) | RemoveStep(sql: string) | ClearStep

  function After(c: Cache, step: Step): Cache {
    match step
    case GetStep(sql) => Get(c, sql).1
    case InsertStep(stmt) => Insert(c, stmt).1
    case RemoveStep(sql) => Remove(c, sql).1
    case ClearStep => Clear(c)
  }

  function AfterAll(c: Cache, run: seq<Step>): Cache {
    if run == [] then c else After(AfterAll(c, run[..|run| - 1]), run[|run| - 1])
  }

  predicate Holds(c: Cache, st: Statement) { st.sql in c.entries && c.entries[st.sql] == st }

  function One(b: bool): nat { if b then 1 else 0 }

  /** Whether the caller gets this statement back, to close it on the server. */
  predicate HandsBack(c: Cache, step: Step, st: Statement) {
    match step
    case GetStep(_) => false
    case InsertStep(stmt) => Insert(c, stmt).0 == Some(st)
    case RemoveStep(sql) => Remove(c, sql).0 == Some(st)
    case ClearStep => Holds(c, st)
  }

  /** Inserted under a key that is there already: what was there is not handed back. */
  predicate Overwrites(c: Cache, step: Step, st: Statement) {
    step.InsertStep? && step.stmt.sql == st.sql && Holds(c, st)
  }

  function HandedBack(c: Cache, run: seq<Step>, st: Statement): nat {
    if run == [] then 0
    else
      var before := run[..|run| - 1];
      HandedBack(c, before, st) + One(HandsBack(AfterAll(c, before), run[|run| - 1], st))
  }

  function Overwritten(c: Cache, run: seq<Step>, st: Statement): nat {
    if run == [] then 0
    else
      var before := run[..|run| - 1];
      Overwritten(c, before, st) + One(Overwrites(AfterAll(c, before), run[|run| - 1], st))
  }

  function Inserted(run: seq<Step>, st: Statement): nat {
    if run == [] then 0 else Inserted(run[..|run| - 1], st) + One(run[|run| - 1] == InsertStep(st))
  }

  lemma StepConserves(c: Cache, step: Step, st: Statement)
    requires Consistent(c)
    ensures Consistent(After(c, step))
    ensures One(Holds(After(c, step), st)) + One(HandsBack(c, step, st)) + One(Overwrites(c, step, st))
         == One(Holds(c, st)) + One(step == InsertStep(st))
  {
    match step
    case GetStep(sql) => OperationsStayConsistent(c, Statement("", ""), sql);
    case InsertStep(stmt) =>
      InsertConsistent(c, stmt);
      InsertEvicts(c, stmt);
    case RemoveStep(sql) => OperationsStayConsistent(c, Statement("", ""), sql);
    case ClearStep =>
  }

  /** Over every run, every statement put into the cache is still in it, was handed back, or was overwritten, each
      time once. So a statement is lost to its caller exactly as often as it is overwritten. */
  lemma {:induction false} StatementsAreConserved(capacity: nat, run: seq<Step>, st: Statement)
    ensures var c := Cache(map[], [], capacity);
            && Consistent(AfterAll(c, run))
            && One(Holds(AfterAll(c, run), st)) + HandedBack(c, run, st) + Overwritten(c, run, st) == Inserted(run, st)
  {
    if run != [] {
      var before := run[..|run| - 1];
      StatementsAreConserved(capacity, before, st);
      StepConserves(AfterAll(Cache(map[], [], capacity), before), run[|run| - 1], st);
    }
  }

  /** A failing input: two statements prepared for one text, inserted one after the other; the first is neither cached
      nor handed back. */
  lemma ReinsertLoses(capacity: nat, first: Statement, second: Statement)
    requires first.sql == second.sql && first != second
    ensures var c, run := Cache(map[], [], capacity), [InsertStep(first), InsertStep(second)];
            !Holds(AfterAll(c, run), first) && HandedBack(c, run, first) == 0
  {
    var c, run := Cache(map[], [], capacity), [InsertStep(first), InsertStep(second)];
    assert run[..1] == [InsertStep(first)] && run[..1][..0] == [];
    assert [first.sql] + [] == [first.sql] && map[][first.sql := first] == map[first.sql := first];
    assert Insert(c, first).0 == None && Insert(c, first).1.entries == map[first.sql := first];
    assert AfterAll(c, run[..1]) == Insert(c, first).1;
    assert HandedBack(c, run[..1], first) == 0;
  }

  // ----- the LRU stack ----------------------------------------------------------------------

  /** The unbounded recency list. */
  function Touch(recency: seq<string>, sql: string): seq<string> { [sql] + Without(recency, sql) }

  function Prefix(s: seq<string>, k: nat): seq<string> { if |s| <= k then s else s[..k] }

  /** `get`, then `insert` on a miss: how the connection uses the cache. */
  function Access(c: Cache, stmt: Statement): Cache {
    var (hit, c') := Get(c, stmt.sql);
    if hit.Some? then c' else Insert(c, stmt).1
  }

  function AccessAll(c: Cache, trace: seq<Statement>): Cache {
    if trace == [] then c else Access(AccessAll(c, trace[..|trace| - 1]), trace[|trace| - 1])
  }

  function Recency(trace: seq<Statement>): seq<string> {
    if trace == [] then [] else Touch(Recency(trace[..|trace| - 1]), trace[|trace| - 1].sql)
  }

  lemma {:induction false} RemovedInside(r: seq<string>, k: nat, x: string)
    requires NoDuplicates(r) && k <= |r| && x in r[..k]
    ensures |Without(r, x)| == |r| - 1 && Without(r[..k], x) == Without(r, x)[..k - 1]
  {
    WithoutProperties(r, x);
    var t := r[1..];
    assert r == [r[0]] + t;
    assert r[..k] == [r[0]] + t[..k - 1] && r[..k][1..] == t[..k - 1];
    WithoutProperties(t, x);
    if r[0] == x {
      assert x !in t[..k - 1];
      WithoutAbsent(t[..k - 1], x);
    } else {
      RemovedInside(t, k - 1, x);
    }
  }

  lemma {:induction false} WithoutAbsent(s: seq<string>, x: string)
    requires x !in s
    ensures Without(s, x) == s
  {
    if s != [] {
      WithoutAbsent(s[1..], x);
    }
  }

  lemma {:induction false} RemovedBeyond(r: seq<string>, k: nat, x: string)
    requires 0 < k <= |r| && x !in r[..k]
    ensures k - 1 <= |Without(r, x)| && Without(r, x)[..k - 1] == r[..k - 1]
  {
    var t := r[1..];
    assert r[..k] == [r[0]] + t[..k - 1];
    if k > 1 {
      RemovedBeyond(t, k - 1, x);
      assert r[..k - 1] == [r[0]] + t[..k - 2];
    }
  }

  lemma HitPrefix(r: seq<string>, k: nat, x: string)
    requires NoDuplicates(r) && x in Prefix(r, k)
    ensures [x] + Without(Prefix(r, k), x) == Prefix(Touch(r, x), k)
  {
    if |r| > k {
      RemovedInside(r, k, x);
    } else {
      WithoutProperties(r, x);
    }
  }

  lemma MissPrefix(r: seq<string>, k: nat, x: string)
    requires NoDuplicates(r) && x !in Prefix(r, k) && k > 0
    ensures var p := Prefix(r, k); Prefix(Touch(r, x), k) == [x] + (if |p| == k then p[..k - 1] else p)
  {
    var others := Without(r, x);
    assert Touch(r, x) == [x] + others;
    if |r| >= k {
      assert Prefix(r, k) == r[..k];
      RemovedBeyond(r, k, x);
      assert r[..k][..k - 1] == r[..k - 1];
      assert ([x] + others)[..k] == [x] + others[..k - 1];
    } else {
      WithoutProperties(r, x);
    }
  }

  lemma AccessTouches(c: Cache, recency: seq<string>, stmt: Statement)
    requires Consistent(c) && NoDuplicates(recency) && c.order == Prefix(recency, Slots(c.capacity))
    ensures Consistent(Access(c, stmt)) && NoDuplicates(Touch(recency, stmt.sql))
    ensures Access(c, stmt).order == Prefix(Touch(recency, stmt.sql), Slots(c.capacity))
    ensures Access(c, stmt).capacity == c.capacity
  {
    var x, k := stmt.sql, Slots(c.capacity);
    OperationsStayConsistent(c, stmt, x);
    WithoutProperties(recency, x);
    Fronted(Without(recency, x), x);
    if x in c.entries {
      HitPrefix(recency, k, x);
    } else {
      MissPrefix(recency, k, x);
      WithoutAbsent(c.order, x);
      EntriesAreCounted(c);
    }
  }

  /** The queue is the front of the recency list, after every trace of accesses. */
  lemma {:induction false} OrderIsRecency(capacity: nat, trace: seq<Statement>)
    ensures var c := AccessAll(Cache(map[], [], capacity), trace);
            && Consistent(c) && NoDuplicates(Recency(trace)) && c.capacity == capacity
            && c.order == Prefix(Recency(trace), Slots(capacity))
    decreases |trace|
  {
    if trace != [] {
      var front := trace[..|trace| - 1];
      OrderIsRecency(capacity, front);
      AccessTouches(AccessAll(Cache(map[], [], capacity), front), Recency(front), trace[|trace| - 1]);
    }
  }

  /** The LRU stack property: after any trace a smaller cache is a prefix of a larger one, so every hit in
      the smaller is a hit in the larger. */
  lemma StackInclusion(small: nat, large: nat, trace: seq<Statement>, sql: string)
    requires small <= large
    ensures var a := AccessAll(Cache(map[], [], small), trace);
            var b := AccessAll(Cache(map[], [], large), trace);
            && a.order <= b.order
            && (Get(a, sql).0.Some? ==> Get(b, sql).0.Some?)
  {
    OrderIsRecency(small, trace);
    OrderIsRecency(large, trace);
    var a, b := AccessAll(Cache(map[], [], small), trace), AccessAll(Cache(map[], [], large), trace);
    assert a.order <= b.order;
    if sql in a.entries {
      assert sql in a.order;
      assert sql in b.order;
    }
  }
}

/** The cache itself, each operation proved to be the one specified. */
module StatementCaches {
  import opened Basics
  import opened LruStack

  class StatementCache {
    const capacity: nat
    var cache: map<string, Statement>
    var order: seq<string>

    ghost function Value(): Cache
      reads this
    {
      Cache(cache, order, capacity)
    }

    constructor (capacity: nat)
      ensures Value() == Cache(map[], [], capacity)
    {
      this.capacity, cache, order := capacity, map[], [];
    }

    method Get(sql: string) returns (r: Option<Statement>)
      modifies this
      ensures (r, Value()) == LruStack.Get(old(Value()), sql)
    {
      if sql !in cache {
        return None;
      }
      order := Without(order, sql);
      order := [sql] + order;
      r := Some(cache[sql]);
    }

    method Insert(stmt: Statement) returns (evicted: Option<Statement>)
      modifies this
      ensures (evicted, Value()) == LruStack.Insert(old(Value()), stmt)
    {
      var sql := stmt.sql;
      order := Without(order, sql);
      evicted := None;
      if |cache| >= capacity && sql !in cache && order != [] {
        var oldest := order[|order| - 1];
        order := order[..|order| - 1];
        if oldest in cache {
          evicted := Some(cache[oldest]);
        }
        cache := cache - {oldest};
      }
      order := [sql] + order;
      cache := cache[sql := stmt];
    }

    method Remove(sql: string) returns (removed: Option<Statement>)
      modifies this
      ensures (removed, Value()) == LruStack.Remove(old(Value()), sql)
    {
      order := Without(order, sql);
      removed := if sql in cache then Some(cache[sql]) else None;
      cache := cache - {sql};
    }

    /** The statements handed back come in no particular order. */
    method Clear() returns (evicted: seq<Statement>)
      modifies this
      ensures Value() == LruStack.Clear(old(Value()))
      ensures |evicted| == |old(cache)|
      ensures forall s :: s in evicted <==> s in old(cache).Values
    {
      order := [];
      evicted := [];
      while cache != map[]
        invariant order == [] && cache.Items <= old(cache).Items
        invariant |evicted| + |cache| == |old(cache)|
        invariant forall s | s in evicted :: s in old(cache).Values
        invariant forall k | k in old(cache) :: k in cache || old(cache)[k] in evicted
        decreases |cache|
      {
        var key :| key in cache;
        assert (key, cache[key]) in cache.Items;
        evicted := evicted + [cache[key]];
        cache := cache - {key};
      }
    }
  }
}
