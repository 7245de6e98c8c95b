/** Pipelining against sequential execution: `Pipeline::finish` attributes one response stream to many
    operations. Each operation's share of the stream is a segment, and the reference for its result is
    what `read_extended_query_result` makes of that segment alone. */
module Pipelining {
  import opened Basics
  import opened Messages
  import opened Grammar
  import opened Engine

  /** `seg` is the whole error-free answer to one operation, from `g` on. */
  predicate Answers(g: Expect, seg: seq<BackendMessage>)
    decreases |seg|
  {
    if seg == [] then g == ExtendedDone(0)
    else
      && Follow(g, seg[0]).Some? && !seg[0].ErrorResponse? && !seg[0].ReadyForQuery?
      && Answers(Follow(g, seg[0]).value, seg[1..])
  }

  predicate AllAnswer(segs: seq<seq<BackendMessage>>) {
    forall i | 0 <= i < |segs| :: Answers(ParseDue(0), segs[i])
  }

  function Flatten(segs: seq<seq<BackendMessage>>): seq<BackendMessage> {
    if segs == [] then [] else segs[0] + Flatten(segs[1..])
  }

  // ----- every conforming error-free response is a list of segments -----------------

  function Sole(g: Expect): Expect {
    match g
    case ParseDue(_) => ParseDue(0)
    case BindDue(_) => BindDue(0)
    case DescribeDue(_) => DescribeDue(0)
    case ExtendedRows(_) => ExtendedRows(0)
    case ExtendedNoRows(_) => ExtendedNoRows(0)
    case ExtendedCopy(_) => ExtendedCopy(0)
    case ExtendedDone(_) => ExtendedDone(0)
    case _ => g
  }

  /** The grammar is inside the answer to an operation with n more behind it. */
  predicate Within(g: Expect, n: nat) {
    || g in {ParseDue(n), BindDue(n), DescribeDue(n)}
    || g in {ExtendedRows(n), ExtendedNoRows(n), ExtendedCopy(n), ExtendedDone(n)}
  }

  /** The first k messages end the answer under way. */
  predicate CutsAt(g: Expect, ms: seq<BackendMessage>, n: nat, k: nat) {
    && k < |ms| && Answers(Sole(g), ms[..k])
    && Conforms(ExtendedDone(n), ms[k..]) && FirstError(ms[k..]).None? && !IsAsync(ms[k])
  }

  lemma {:induction false} CutSegment(g: Expect, ms: seq<BackendMessage>, n: nat) returns (k: nat)
    requires Within(g, n) && Conforms(g, ms) && FirstError(ms).None?
    ensures CutsAt(g, ms, n, k)
    decreases |ms|
  {
    var m := ms[0];
    if g.ExtendedDone? && !IsAsync(m) {
      k := 0;
    } else {
      var rest := CutSegment(Follow(g, m).value, ms[1..], n);
      k := rest + 1;
      CutLater(g, ms, n, rest);
    }
  }

  /** Inside an answer the number of answers behind it makes no difference. */
  lemma SoleFollows(g: Expect, m: BackendMessage, n: nat)
    requires Within(g, n) && Follow(g, m).Some? && Within(Follow(g, m).value, n) && !m.ErrorResponse?
    ensures Follow(Sole(g), m) == Some(Sole(Follow(g, m).value))
  {
  }

  lemma CutLater(g: Expect, ms: seq<BackendMessage>, n: nat, k: nat)
    requires Within(g, n) && Conforms(g, ms) && FirstError(ms).None? && ms != []
    requires !ms[0].ReadyForQuery? && Within(Follow(g, ms[0]).value, n) && CutsAt(Follow(g, ms[0]).value, ms[1..], n, k)
    ensures CutsAt(g, ms, n, k + 1)
  {
    SoleFollows(g, ms[0], n);
    assert ms[..k + 1][1..] == ms[1..][..k] && ms[k + 1..] == ms[1..][k..];
  }

  lemma {:induction false} SplitResponse(n: nat, ms: seq<BackendMessage>)
    returns (segs: seq<seq<BackendMessage>>, tail: seq<BackendMessage>)
    requires Conforms(PipelineStart(n), ms) && FirstError(ms).None?
    ensures |segs| == n && AllAnswer(segs) && ms == Flatten(segs) + tail
    ensures Conforms(ExtendedDone(0), tail) && FirstError(tail).None?
  {
    if n == 0 {
      segs, tail := [], ms;
    } else {
      var k := CutSegment(ParseDue(n - 1), ms, n - 1);
      var first, rest := ms[..k], ms[k..];
      if n > 1 {
        assert Conforms(ParseDue(n - 2), rest);
      }
      var more, t := SplitResponse(n - 1, rest);
      segs, tail := [first] + more, t;
      assert segs[1..] == more && segs[0] == first;
      assert ms == first + rest;
      Assoc(first, Flatten(more), tail);
    }
  }

  // ----- readers over error-free stretches --------------------------------------------

  predicate Quiet(ms: seq<BackendMessage>) {
    forall i | 0 <= i < |ms| :: !ms[i].ErrorResponse? && !ms[i].ReadyForQuery?
  }

  function Feed(r: Reader, ms: seq<BackendMessage>): Reader
    decreases |ms|
  {
    if ms == [] then r else Feed(if IsAsync(ms[0]) then r else StepReader(r, ms[0]), ms[1..])
  }

  function Skim(c: Conn, n: nat): Conn
    requires n <= |c.unread|
    decreases n
  {
    if n == 0 then c else Skim(if IsAsync(c.unread[0]) then Absorb(Take(c), c.unread[0]) else Take(c), n - 1)
  }

  lemma {:induction false} CollectOverQuiet(r: Reader, c: Conn, n: nat)
    requires n <= |c.unread| && Quiet(c.unread[..n])
    ensures Skim(c, n).unread == c.unread[n..]
    ensures Collect(r, c) == Collect(Feed(r, c.unread[..n]), Skim(c, n))
    decreases n
  {
    if n > 0 {
      var m := c.unread[0];
      assert c.unread[..n][0] == m;
      assert c.unread[..n][1..] == c.unread[1..][..n - 1];
      CollectOverQuiet(if IsAsync(m) then r else StepReader(r, m),
                       if IsAsync(m) then Absorb(Take(c), m) else Take(c), n - 1);
    }
  }

  lemma {:induction false} AnswersQuiet(g: Expect, seg: seq<BackendMessage>)
    requires Answers(g, seg)
    ensures Quiet(seg)
    decreases |seg|
  {
    if seg != [] {
      AnswersQuiet(Follow(g, seg[0]).value, seg[1..]);
    }
  }

  // ----- the sequential reference -------------------------------------------------------

  function Alone(seg: seq<BackendMessage>): Reader { Feed(Extended(None, [], None), seg) }

  /** Read on its own, a segment followed by ReadyForQuery yields the result of `Alone`. */
  lemma SequentialResult(seg: seq<BackendMessage>, status: char, c: Conn)
    requires Answers(ParseDue(0), seg) && c.unread == seg + [ReadyForQuery(status)]
    ensures Collect(Extended(None, [], None), c).0 == Ok(Alone(seg))
  {
    AnswersQuiet(ParseDue(0), seg);
    assert c.unread[..|seg|] == seg && c.unread[|seg|..] == [ReadyForQuery(status)];
    CollectOverQuiet(Extended(None, [], None), c, |seg|);
  }

  function Sequential(op: PipelineOp, seg: seq<BackendMessage>): PipelineResult
    requires Alone(seg).Extended?
  {
    var q := Extract(Alone(seg));
    if op == QueryOp then Queried(q) else Executed(q.tag)
  }

  // ----- one segment through the pipeline reader ------------------------------------------

  /** The pipeline reader after one more operation, whose segment read alone leaves `e`. */
  function After(p: Reader, e: Reader, empty: bool): Reader
    requires p.Pipelined? && p.current < |p.ops| && e.Extended? && e.tag.Some?
  {
    var described := if e.described.Some? then e.described else p.described;
    var rows := p.rows + e.rows;
    if p.ops[p.current] == ExecuteOp then
      Pipelined(p.ops, p.pipelineResults + [Executed(e.tag.value)], p.current + 1, described, rows)
    else if empty then
      Pipelined(p.ops, p.pipelineResults + [Queried(QueryResult([], "", []))], p.current + 1, p.described, p.rows)
    else
      Pipelined(p.ops, p.pipelineResults + [Queried(QueryResult(rows, e.tag.value, OrEmpty(described)))],
                p.current + 1, None, [])
  }

  /** Positions of the two readers inside a segment; `p` is the pipeline reader at its start. */
  predicate Abreast(g: Expect, p: Reader, q: Reader, e: Reader) {
    && p.Pipelined? && p.current < |p.ops| && e.Extended? && e.tag.None?
    && match g
       case ExtendedRows(n) =>
         && n == 0 && e.described.Some?
         && q == Pipelined(p.ops, p.pipelineResults, p.current, e.described, p.rows + e.rows)
       case _ =>
         && g in {ParseDue(0), BindDue(0), DescribeDue(0), ExtendedNoRows(0), ExtendedCopy(0)}
         && e == Extended(None, [], None) && q == p
  }

  lemma {:induction false} NothingAfterDone(r: Reader, seg: seq<BackendMessage>)
    requires Answers(ExtendedDone(0), seg)
    ensures Feed(r, seg) == r && EmptyQueryResponse !in seg
    decreases |seg|
  {
    if seg != [] {
      NothingAfterDone(r, seg[1..]);
      assert seg == [seg[0]] + seg[1..];
    }
  }

  lemma {:induction false} SegmentEffect(g: Expect, seg: seq<BackendMessage>, p: Reader, q: Reader, e: Reader)
    requires Abreast(g, p, q, e) && Answers(g, seg)
    ensures Feed(e, seg).Extended? && Feed(e, seg).tag.Some?
    ensures EmptyQueryResponse in seg ==> Feed(e, seg) == Extended(None, [], Some(""))
    ensures Feed(q, seg) == After(p, Feed(e, seg), EmptyQueryResponse in seg)
    decreases |seg|
  {
    var m := seg[0];
    var next := Follow(g, m).value;
    assert seg == [m] + seg[1..];
    assert p.rows + [] == p.rows;
    if IsAsync(m) {
      SegmentEffect(g, seg[1..], p, q, e);
    } else if m.CommandComplete? || m.EmptyQueryResponse? {
      NothingAfterDone(StepReader(q, m), seg[1..]);
      NothingAfterDone(StepReader(e, m), seg[1..]);
    } else {
      if m.DataRow? {
        var row := Row(e.described.value, m.values);
        assert (p.rows + e.rows) + [row] == p.rows + (e.rows + [row]);
      }
      SegmentEffect(next, seg[1..], p, StepReader(q, m), StepReader(e, m));
    }
  }

  // ----- the whole pipeline -----------------------------------------------------------------

  /** The pipeline reader before segment `i`. */
  function Before(ops: seq<PipelineOp>, segs: seq<seq<BackendMessage>>, i: nat): Reader
    requires i <= |segs|
  {
    if i == 0 then Pipelined(ops, [], 0, None, []) else Feed(Before(ops, segs, i - 1), segs[i - 1])
  }

  // ----- what an operation finds left over --------------------------------------------------

  predicate HasRows(seg: seq<BackendMessage>) { exists i | 0 <= i < |seg| :: seg[i].DataRow? }

  function DescribedBy(seg: seq<BackendMessage>): Option<Columns> {
    if seg == [] then None
    else
      var later := DescribedBy(seg[1..]);
      if later.Some? then later else if seg[0].RowDescription? then Some(seg[0].columns) else None
  }

  /** A Query operation that completes takes everything accumulated; no other operation does. */
  predicate Takes(op: PipelineOp, seg: seq<BackendMessage>) { op == QueryOp && EmptyQueryResponse !in seg }

  /** Rows were sent since the last operation that took them. */
  predicate RowsWaiting(ops: seq<PipelineOp>, segs: seq<seq<BackendMessage>>, i: nat)
    requires i <= |ops| == |segs|
  {
    i > 0 && !Takes(ops[i - 1], segs[i - 1]) && (RowsWaiting(ops, segs, i - 1) || HasRows(segs[i - 1]))
  }

  /** The last description sent since then. */
  function ColumnsWaiting(ops: seq<PipelineOp>, segs: seq<seq<BackendMessage>>, i: nat): Option<Columns>
    requires i <= |ops| == |segs|
  {
    if i == 0 || Takes(ops[i - 1], segs[i - 1]) then None
    else if DescribedBy(segs[i - 1]).Some? then DescribedBy(segs[i - 1])
    else ColumnsWaiting(ops, segs, i - 1)
  }

  /** Operation `i` takes nothing that was sent to an operation before it. */
  predicate NoLeak(ops: seq<PipelineOp>, segs: seq<seq<BackendMessage>>, i: nat)
    requires i < |ops| == |segs|
  {
    Takes(ops[i], segs[i]) ==>
      && !RowsWaiting(ops, segs, i)
      && (DescribedBy(segs[i]).Some? || OrEmpty(ColumnsWaiting(ops, segs, i)) == [])
  }

  predicate InSegment(g: Expect) {
    || g in {ParseDue(0), BindDue(0), DescribeDue(0)}
    || g in {ExtendedNoRows(0), ExtendedCopy(0), ExtendedRows(0), ExtendedDone(0)}
  }

  lemma {:induction false} SegmentShape(g: Expect, seg: seq<BackendMessage>, e: Reader)
    requires Answers(g, seg) && e.Extended?
    requires InSegment(g)
    requires g == ExtendedRows(0) ==> e.described.Some?
    ensures var r := Feed(e, seg);
            && r.Extended? && (r.rows == [] <==> e.rows == [] && !HasRows(seg))
            && r.described == (if DescribedBy(seg).Some? then DescribedBy(seg) else e.described)
    decreases |seg|
  {
    if seg != [] {
      var m := seg[0];
      assert seg == [m] + seg[1..];
      assert HasRows(seg) <==> m.DataRow? || HasRows(seg[1..]);
      SegmentShape(Follow(g, m).value, seg[1..], if IsAsync(m) then e else StepReader(e, m));
    }
  }

  predicate Exact(ops: seq<PipelineOp>, segs: seq<seq<BackendMessage>>, i: nat, result: PipelineResult)
    requires i < |ops| == |segs|
  {
    Alone(segs[i]).Extended? && (result == Sequential(ops[i], segs[i]) <==> NoLeak(ops, segs, i))
  }

  /** One segment through the pipeline reader and on its own. */
  lemma SegmentTaken(p: Reader, seg: seq<BackendMessage>)
    requires Answers(ParseDue(0), seg) && p.Pipelined? && p.current < |p.ops|
    ensures var e := Alone(seg);
            && e.Extended? && e.tag.Some? && (e.rows == [] <==> !HasRows(seg)) && e.described == DescribedBy(seg)
            && (EmptyQueryResponse in seg ==> e == Extended(None, [], Some("")))
            && Feed(p, seg) == After(p, e, EmptyQueryResponse in seg)
  {
    SegmentEffect(ParseDue(0), seg, p, p, Extended(None, [], None));
    SegmentShape(ParseDue(0), seg, Extended(None, [], None));
  }

  /** What is left over is what the segments before sent and no operation took. */
  lemma {:induction false} LeftOver(ops: seq<PipelineOp>, segs: seq<seq<BackendMessage>>, i: nat)
    requires i <= |segs| == |ops| && AllAnswer(segs)
    ensures var p := Before(ops, segs, i);
            && p.Pipelined? && p.ops == ops && p.current == i && |p.pipelineResults| == i
            && (p.rows == [] <==> !RowsWaiting(ops, segs, i)) && p.described == ColumnsWaiting(ops, segs, i)
  {
    if i > 0 {
      LeftOver(ops, segs, i - 1);
      SegmentTaken(Before(ops, segs, i - 1), segs[i - 1]);
    }
  }

  /** One operation's result is the sequential one exactly when nothing leaked into it. */
  lemma LastResult(ops: seq<PipelineOp>, segs: seq<seq<BackendMessage>>, i: nat)
    requires i < |segs| == |ops| && AllAnswer(segs)
    ensures var p, q := Before(ops, segs, i), Before(ops, segs, i + 1);
            && p.Pipelined? && q.Pipelined? && |q.pipelineResults| == i + 1 && |p.pipelineResults| == i
            && q.pipelineResults[..i] == p.pipelineResults && Exact(ops, segs, i, q.pipelineResults[i])
  {
    LeftOver(ops, segs, i);
    LeftOver(ops, segs, i + 1);
    var p, e := Before(ops, segs, i), Alone(segs[i]);
    SegmentTaken(p, segs[i]);
    if p.rows + e.rows == e.rows {
      assert |p.rows| == 0;
    }
    assert [] + e.rows == e.rows;
  }

  lemma {:induction false} BeforeExact(ops: seq<PipelineOp>, segs: seq<seq<BackendMessage>>, i: nat)
    requires i <= |segs| == |ops| && AllAnswer(segs)
    ensures var p := Before(ops, segs, i);
            && p.Pipelined? && |p.pipelineResults| == i
            && forall j | 0 <= j < i :: Exact(ops, segs, j, p.pipelineResults[j])
  {
    if i > 0 {
      BeforeExact(ops, segs, i - 1);
      LastResult(ops, segs, i - 1);
      var p, q := Before(ops, segs, i - 1), Before(ops, segs, i);
      forall j | 0 <= j < i
        ensures Exact(ops, segs, j, q.pipelineResults[j])
      {
        if j < i - 1 {
          assert q.pipelineResults[j] == q.pipelineResults[..i - 1][j];
        }
      }
    }
  }

  lemma {:induction false} CollectSegments(ops: seq<PipelineOp>, segs: seq<seq<BackendMessage>>,
                                           tail: seq<BackendMessage>, i: nat, c: Conn)
    requires i <= |segs| == |ops| && AllAnswer(segs) && c.unread == Flatten(segs[i..]) + tail
    requires Conforms(ExtendedDone(0), tail) && FirstError(tail).None?
    ensures Collect(Before(ops, segs, i), c).0 == Ok(Before(ops, segs, |segs|))
    decreases |segs| - i
  {
    if i == |segs| {
      assert c.unread == tail;
      TailReads(Before(ops, segs, i), c);
    } else {
      var n := |segs[i]|;
      AnswersQuiet(ParseDue(0), segs[i]);
      assert segs[i..][1..] == segs[i + 1..];
      assert c.unread[..n] == segs[i] && c.unread[n..] == Flatten(segs[i + 1..]) + tail;
      CollectOverQuiet(Before(ops, segs, i), c, n);
      CollectSegments(ops, segs, tail, i + 1, Skim(c, n));
    }
  }

  lemma {:induction false} TailReads(r: Reader, c: Conn)
    requires Conforms(ExtendedDone(0), c.unread) && FirstError(c.unread).None?
    ensures Collect(r, c).0 == Ok(r)
    decreases |c.unread|
  {
    var m := c.unread[0];
    if IsAsync(m) {
      TailReads(r, Absorb(Take(c), m));
    }
  }

  /** What `finish` returns for a response made of these segments, or [] when it fails. */
  function FinishResults(ops: seq<PipelineOp>, c: Conn): seq<PipelineResult> {
    var r := Collect(Pipelined(ops, [], 0, None, []), c).0;
    if r.Ok? && r.value.Pipelined? then r.value.pipelineResults else []
  }

  /** On the response made of any given segments, `finish` returns one result per operation in order, and the
      result of operation i is the one sequential execution gives on segment i exactly when nothing leaks. */
  lemma FinishOnSegments(ops: seq<PipelineOp>, segs: seq<seq<BackendMessage>>, tail: seq<BackendMessage>, c: Conn)
    requires |segs| == |ops| && AllAnswer(segs) && c.unread == Flatten(segs) + tail
    requires Conforms(ExtendedDone(0), tail) && FirstError(tail).None?
    ensures Collect(Pipelined(ops, [], 0, None, []), c).0.Ok? && |FinishResults(ops, c)| == |ops|
    ensures forall i | 0 <= i < |ops| :: Exact(ops, segs, i, FinishResults(ops, c)[i])
  {
    assert segs[0..] == segs;
    CollectSegments(ops, segs, tail, 0, c);
    BeforeExact(ops, segs, |segs|);
  }

  /** Pipelining refines sequential execution. Every conforming error-free response splits into one
      segment per operation, `finish` returns one result per operation in order, and the result of
      operation i is the one sequential execution gives on segment i exactly when no rows or columns
      are left over from Execute operations before it. */
  lemma PipelineRefinesSequential(ops: seq<PipelineOp>, c: Conn)
    returns (segs: seq<seq<BackendMessage>>, tail: seq<BackendMessage>)
    requires Conforms(PipelineStart(|ops|), c.unread) && FirstError(c.unread).None?
    ensures |segs| == |ops| && AllAnswer(segs) && c.unread == Flatten(segs) + tail
    ensures Conforms(ExtendedDone(0), tail) && FirstError(tail).None?
    ensures Collect(Pipelined(ops, [], 0, None, []), c).0.Ok? && |FinishResults(ops, c)| == |ops|
    ensures forall i | 0 <= i < |ops| :: Exact(ops, segs, i, FinishResults(ops, c)[i])
  {
    segs, tail := SplitResponse(|ops|, c.unread);
    FinishOnSegments(ops, segs, tail, c);
  }

  // ----- segments make a conforming response -------------------------------------------------

  function More(g: Expect, n: nat): Expect {
    match g
    case ParseDue(_) => ParseDue(n)
    case BindDue(_) => BindDue(n)
    case DescribeDue(_) => DescribeDue(n)
    case ExtendedRows(_) => ExtendedRows(n)
    case ExtendedNoRows(_) => ExtendedNoRows(n)
    case ExtendedCopy(_) => ExtendedCopy(n)
    case ExtendedDone(_) => ExtendedDone(n)
    case _ => g
  }

  lemma {:induction false} SegmentConforms(g: Expect, seg: seq<BackendMessage>, rest: seq<BackendMessage>, n: nat)
    requires InSegment(g) && Answers(g, seg) && Conforms(ExtendedDone(n), rest) && FirstError(rest).None?
    ensures Conforms(More(g, n), seg + rest) && FirstError(seg + rest).None?
    decreases |seg|
  {
    if seg == [] {
      assert seg + rest == rest;
    } else {
      SegmentConforms(Follow(g, seg[0]).value, seg[1..], rest, n);
      assert (seg + rest)[1..] == seg[1..] + rest;
    }
  }

  /** The converse of SplitResponse: any segments, and a tail, make a conforming error-free response. */
  lemma {:induction false} SegmentsConform(segs: seq<seq<BackendMessage>>, tail: seq<BackendMessage>)
    requires AllAnswer(segs) && Conforms(ExtendedDone(0), tail) && FirstError(tail).None?
    ensures Conforms(PipelineStart(|segs|), Flatten(segs) + tail) && FirstError(Flatten(segs) + tail).None?
  {
    if segs == [] {
      assert Flatten(segs) + tail == tail;
    } else {
      var rest := Flatten(segs[1..]) + tail;
      SegmentsConform(segs[1..], tail);
      Assoc(segs[0], Flatten(segs[1..]), tail);
      NextSegmentFollows(|segs| - 1, rest);
      SegmentConforms(ParseDue(0), segs[0], rest, |segs| - 1);
    }
  }

  lemma {:induction false} NextSegmentFollows(n: nat, ms: seq<BackendMessage>)
    requires Conforms(PipelineStart(n), ms)
    ensures Conforms(ExtendedDone(n), ms)
    decreases |ms|
  {
    if n > 0 && ms != [] && IsAsync(ms[0]) {
      NextSegmentFollows(n, ms[1..]);
    }
  }

  /** Nothing leaks when every Execute operation is a statement that returns no rows (NoData). */
  lemma {:induction false} NoDataNeverLeaks(ops: seq<PipelineOp>, segs: seq<seq<BackendMessage>>, i: nat)
    requires i <= |segs| == |ops| && AllAnswer(segs)
    requires forall j | 0 <= j < |ops| :: ops[j] == ExecuteOp ==> NoData in segs[j]
    ensures !RowsWaiting(ops, segs, i) && ColumnsWaiting(ops, segs, i).None?
    ensures i < |ops| ==> NoLeak(ops, segs, i)
  {
    if i > 0 {
      NoDataNeverLeaks(ops, segs, i - 1);
      if NoData in segs[i - 1] || EmptyQueryResponse in segs[i - 1] {
        NoDataSendsNothing(ParseDue(0), segs[i - 1]);
      }
    }
  }

  lemma {:induction false} NoDataSendsNothing(g: Expect, seg: seq<BackendMessage>)
    requires Answers(g, seg)
    requires InSegment(g)
    ensures g in {ExtendedNoRows(0), ExtendedCopy(0), ExtendedDone(0), ExtendedRows(0)} ==> NoData !in seg
    ensures g in {ExtendedCopy(0), ExtendedDone(0), ExtendedRows(0)} ==> EmptyQueryResponse !in seg
    ensures NoData in seg || EmptyQueryResponse in seg || g in {ExtendedNoRows(0), ExtendedCopy(0), ExtendedDone(0)} ==>
              !HasRows(seg) && DescribedBy(seg).None?
    decreases |seg|
  {
    if seg != [] {
      var m := seg[0];
      assert seg == [m] + seg[1..];
      NoDataSendsNothing(Follow(g, m).value, seg[1..]);
    }
  }

  /** Without that proviso it fails: whenever an Execute operation is sent rows and the next operation is a
      completing Query, what `finish` returns for the Query is not the sequential result. */
  lemma ExecuteWithRowsLeaks(
    ops: seq<PipelineOp>, segs: seq<seq<BackendMessage>>, tail: seq<BackendMessage>, c: Conn, i: nat)
    requires 0 < i < |ops| == |segs| && AllAnswer(segs) && c.unread == Flatten(segs) + tail
    requires Conforms(ExtendedDone(0), tail) && FirstError(tail).None?
    requires ops[i - 1] == ExecuteOp && HasRows(segs[i - 1]) && Takes(ops[i], segs[i])
    ensures |FinishResults(ops, c)| == |ops| && Alone(segs[i]).Extended?
    ensures FinishResults(ops, c)[i] != Sequential(ops[i], segs[i])
  {
    FinishOnSegments(ops, segs, tail, c);
    assert RowsWaiting(ops, segs, i);
    assert Exact(ops, segs, i, FinishResults(ops, c)[i]);
  }

  /** The answer to a statement that returns one row. */
  function OneRowSegment(columns: Columns, values: Values): seq<BackendMessage> {
    [ParseComplete] + ([BindComplete] +
      ([RowDescription(columns)] + ([DataRow(values)] + [CommandComplete("SELECT 1")])))
  }

  lemma OneRowAnswers(columns: Columns, values: Values)
    ensures Answers(ParseDue(0), OneRowSegment(columns, values)) && HasRows(OneRowSegment(columns, values))
    ensures EmptyQueryResponse !in OneRowSegment(columns, values)
  {
    var done := [CommandComplete("SELECT 1")];
    var rows := [DataRow(values)] + done;
    var described := [RowDescription(columns)] + rows;
    assert done[1..] == [] && Answers(ExtendedDone(0), []);
    AnswersCons(ExtendedRows(0), DataRow(values), done);
    AnswersCons(DescribeDue(0), RowDescription(columns), rows);
    AnswersCons(BindDue(0), BindComplete, described);
    AnswersCons(ParseDue(0), ParseComplete, [BindComplete] + described);
    assert OneRowSegment(columns, values)[3].DataRow?;
  }

  /** A concrete failing input: an Execute and a Query operation, each answered with one row. The response
      conforms, and `finish` returns for the Query something other than what its own segment says. */
  lemma LeakingResponse(c: Conn, columns: Columns, values: Values)
    requires var segs := [OneRowSegment(columns, values), OneRowSegment(columns, values)];
             c.unread == Flatten(segs) + [ReadyForQuery('I')]
    ensures Conforms(PipelineStart(2), c.unread) && FirstError(c.unread).None?
    ensures var ops, seg := [ExecuteOp, QueryOp], OneRowSegment(columns, values);
            && |FinishResults(ops, c)| == 2 && Alone(seg).Extended?
            && FinishResults(ops, c)[1] != Sequential(QueryOp, seg)
  {
    var seg, tail := OneRowSegment(columns, values), [ReadyForQuery('I')];
    var segs := [seg, seg];
    OneRowAnswers(columns, values);
    assert tail[1..] == [] && Conforms(Settled, []);
    SegmentsConform(segs, tail);
    ExecuteWithRowsLeaks([ExecuteOp, QueryOp], segs, tail, c, 1);
  }

  lemma AnswersCons(g: Expect, m: BackendMessage, seg: seq<BackendMessage>)
    requires Follow(g, m).Some? && !m.ErrorResponse? && !m.ReadyForQuery? && Answers(Follow(g, m).value, seg)
    ensures Answers(g, [m] + seg)
  {
    assert ([m] + seg)[1..] == seg;
  }
}
