/** The audit subscriber's shared buffer: any number of handlers, the flush ticker and closing
    callers interleave one critical section at a time. */
module AuditBuffer {
  import opened Ids

  const MAX_BATCH: nat := 4000
  const PARAMS_PER_ROW: nat := 13
  const MAX_PARAMS: nat := 65535

  function BatchSize(configured: int): (n: nat)
    ensures 1 <= n <= MAX_BATCH
    ensures 1 <= configured <= MAX_BATCH ==> n == configured
  {
    if configured < 1 then 1 else if configured > MAX_BATCH then MAX_BATCH else configured
  }

  datatype Handler = Idle | Owes            // Owes: saw a full buffer, has not flushed yet
  datatype Ticker = Running | Exited
  datatype Closer = Calling | Signalled | Marked | Returned

  /** accepted is history: every row ever buffered, in order. */
  datatype State<Row> = State(
    buf: seq<Row>, closed: bool, handlers: seq<Handler>, ticker: Ticker, closers: seq<Closer>, stopped: bool,
    batches: seq<seq<Row>>, accepted: seq<Row>)

  datatype Act<Row> =
    | Deliver(h: nat, row: Row) | HandlerFlush(h: nat)
    | TickerFlush | TickerExit
    | Signal(c: nat) | MarkClosed(c: nat) | CloseFlush(c: nat)

  /** Swap the buffer out; an empty one is not written. */
  function Flush<Row>(s: State<Row>): State<Row> {
    s.(buf := [], batches := if s.buf == [] then s.batches else s.batches + [s.buf])
  }

  function Step<Row>(s: State<Row>, size: nat, a: Act<Row>): State<Row> {
    match a
    case Deliver(h, row) =>
      if h >= |s.handlers| || s.handlers[h] != Idle || s.closed then s
      else
        var buf := s.buf + [row];
        s.(buf := buf, accepted := s.accepted + [row],
           handlers := s.handlers[h := if |buf| >= size then Owes else Idle])
    case HandlerFlush(h) =>
      if h >= |s.handlers| || s.handlers[h] != Owes then s else Flush(s).(handlers := s.handlers[h := Idle])
    case TickerFlush => if s.ticker == Running then Flush(s) else s
    case TickerExit => if s.stopped then s.(ticker := Exited) else s
    case Signal(c) =>
      if c < |s.closers| && s.closers[c] == Calling
      then s.(stopped := true, closers := s.closers[c := Signalled]) else s
    case MarkClosed(c) =>
      if c < |s.closers| && s.closers[c] == Signalled && s.ticker == Exited
      then s.(closed := true, closers := s.closers[c := Marked]) else s
    case CloseFlush(c) =>
      if c < |s.closers| && s.closers[c] == Marked then Flush(s).(closers := s.closers[c := Returned]) else s
  }

  /** k handlers and n callers of Close, nothing buffered yet. */
  function Start<Row>(k: nat, n: nat): State<Row> {
    State([], false, seq(k, _ => Idle), Running, seq(n, _ => Calling), false, [], [])
  }

  function Run<Row>(s: State<Row>, size: nat, acts: seq<Act<Row>>): State<Row> {
    if acts == [] then s else Step(Run(s, size, acts[..|acts|-1]), size, acts[|acts|-1])
  }

  function Concat<Row>(bs: seq<seq<Row>>): seq<Row> {
    if bs == [] then [] else Concat(bs[..|bs|-1]) + bs[|bs|-1]
  }

  // ----- conservation -----------------------------------------------------

  predicate Conserves<Row(==)>(s: State<Row>) { Concat(s.batches) + s.buf == s.accepted }

  lemma FlushConserves<Row>(s: State<Row>)
    requires Conserves(s)
    ensures Conserves(Flush(s))
  {
    if s.buf != [] {
      assert (s.batches + [s.buf])[..|s.batches|] == s.batches;
    }
  }

  lemma StepConserves<Row>(s: State<Row>, size: nat, a: Act<Row>)
    requires Conserves(s)
    ensures Conserves(Step(s, size, a))
  {
    var after := Step(s, size, a);
    if a.Deliver? {
      if after.accepted != s.accepted {
        assert Concat(s.batches) + (s.buf + [a.row]) == (Concat(s.batches) + s.buf) + [a.row];
      }
    } else {
      FlushConserves(s);
    }
  }

  lemma {:induction false} RunConserves<Row>(k: nat, n: nat, size: nat, acts: seq<Act<Row>>)
    ensures Conserves(Run(Start(k, n), size, acts))
  {
    if acts == [] {
    } else {
      RunConserves(k, n, size, acts[..|acts|-1]);
      StepConserves(Run(Start(k, n), size, acts[..|acts|-1]), size, acts[|acts|-1]);
    }
  }

  lemma {:induction false} BatchInside<Row>(bs: seq<seq<Row>>, i: nat, x: nat) returns (at: nat)
    requires i < |bs| && x < |bs[i]|
    ensures at < |Concat(bs)| && Concat(bs)[at] == bs[i][x]
    ensures i < |bs|-1 ==> at < |Concat(bs[..|bs|-1])|
    ensures i == |bs|-1 ==> at >= |Concat(bs[..|bs|-1])|
  {
    if i == |bs|-1 {
      at := |Concat(bs[..|bs|-1])| + x;
    } else {
      at := BatchInside(bs[..|bs|-1], i, x);
    }
  }

  lemma {:induction false} DistinctBatches<Row>(bs: seq<seq<Row>>, i: nat, j: nat, x: nat, y: nat)
    requires Distinct(Concat(bs)) && i < j < |bs| && x < |bs[i]| && y < |bs[j]|
    ensures bs[i][x] != bs[j][y]
  {
    if j == |bs|-1 {
      var p := BatchInside(bs, i, x);
      var q := BatchInside(bs, j, y);
    } else {
      var r := bs[..|bs|-1];
      forall a, b | 0 <= a < b < |Concat(r)| ensures Concat(r)[a] != Concat(r)[b] {
        assert Concat(bs)[a] == Concat(r)[a] && Concat(bs)[b] == Concat(r)[b];
      }
      DistinctBatches(r, i, j, x, y);
    }
  }

  /** In every interleaving the swapped batches in swap order, followed by the buffer, are exactly
      the accepted rows in order. */
  lemma BatchesAreTheAcceptedRows<Row>(k: nat, n: nat, size: nat, acts: seq<Act<Row>>)
    ensures var s := Run(Start<Row>(k, n), size, acts); Concat(s.batches) + s.buf == s.accepted
  {
    RunConserves(k, n, size, acts);
  }

  /** No row of batch i is a row of a later batch j. */
  ghost predicate NothingShared<Row>(bs: seq<seq<Row>>, i: nat, j: nat)
    requires i < |bs| && j < |bs|
  {
    forall x, y :: 0 <= x < |bs[i]| && 0 <= y < |bs[j]| ==> bs[i][x] != bs[j][y]
  }

  /** Rows that are accepted once are written at most once: when no two accepted rows are equal, no
      row sits in two batches. */
  lemma NoRowInTwoBatches<Row>(k: nat, n: nat, size: nat, acts: seq<Act<Row>>)
    requires Distinct(Run(Start<Row>(k, n), size, acts).accepted)
    ensures var bs := Run(Start<Row>(k, n), size, acts).batches;
      forall i: nat, j: nat :: i < j < |bs| ==> NothingShared(bs, i, j)
  {
    var s := Run(Start(k, n), size, acts);
    RunConserves(k, n, size, acts);
    forall a, b | 0 <= a < b < |Concat(s.batches)| ensures Concat(s.batches)[a] != Concat(s.batches)[b] {
      assert s.accepted[a] == Concat(s.batches)[a] && s.accepted[b] == Concat(s.batches)[b];
    }
    forall i: nat, j: nat, x, y | i < j < |s.batches| && 0 <= x < |s.batches[i]| && 0 <= y < |s.batches[j]|
      ensures s.batches[i][x] != s.batches[j][y]
    {
      DistinctBatches(s.batches, i, j, x, y);
    }
  }

  // ----- batch size -------------------------------------------------------

  function Owing(hs: seq<Handler>): nat {
    if hs == [] then 0 else Owing(hs[..|hs|-1]) + (if hs[|hs|-1] == Owes then 1 else 0)
  }

  lemma {:induction false} OwingUpdate(hs: seq<Handler>, h: nat, v: Handler)
    requires h < |hs|
    ensures Owing(hs[h := v]) == Owing(hs) - (if hs[h] == Owes then 1 else 0) + (if v == Owes then 1 else 0)
    ensures hs[h] == Idle ==> Owing(hs) < |hs|
  {
    var before := hs[..|hs|-1];
    if h < |hs|-1 {
      OwingUpdate(before, h, v);
      assert hs[h := v][..|hs|-1] == before[h := v];
    } else {
      OwingAtMost(before);
      assert hs[h := v][..|hs|-1] == before;
    }
  }

  lemma {:induction false} OwingAtMost(hs: seq<Handler>)
    ensures Owing(hs) <= |hs|
  {
    if hs == [] {
    } else {
      OwingAtMost(hs[..|hs|-1]);
    }
  }

  lemma {:induction false} OwingNone(k: nat)
    ensures Owing(seq(k, _ => Idle)) == 0
  {
    if k == 0 {
    } else {
      OwingNone(k-1);
      assert seq(k, _ => Idle)[..k-1] == seq(k-1, _ => Idle);
    }
  }

  ghost predicate Bounded<Row>(s: State<Row>, size: nat, k: nat) {
    && |s.handlers| == k
    && |s.buf| <= size - 1 + Owing(s.handlers)
    && forall i :: 0 <= i < |s.batches| ==> 1 <= |s.batches[i]| <= size - 1 + k
  }

  lemma StepBounded<Row>(s: State<Row>, size: nat, k: nat, a: Act<Row>)
    requires size >= 1 && Bounded(s, size, k)
    ensures Bounded(Step(s, size, a), size, k)
  {
    OwingAtMost(s.handlers);
    match a
    case Deliver(h, row) => if h < k { OwingUpdate(s.handlers, h, Owes); OwingUpdate(s.handlers, h, Idle); }
    case HandlerFlush(h) => if h < k { OwingUpdate(s.handlers, h, Idle); }
    case _ =>
  }

  lemma {:induction false} RunBounded<Row>(k: nat, n: nat, size: nat, acts: seq<Act<Row>>)
    requires size >= 1
    ensures Bounded(Run(Start(k, n), size, acts), size, k)
  {
    if acts == [] {
      OwingNone(k);
    } else {
      RunBounded(k, n, size, acts[..|acts|-1]);
      StepBounded(Run(Start(k, n), size, acts[..|acts|-1]), size, k, acts[|acts|-1]);
    }
  }

  /** With a single consumer no batch exceeds the batch size, and every batch fits one statement. */
  lemma SingleConsumerBatchFits<Row>(n: nat, configured: int, acts: seq<Act<Row>>, i: nat)
    requires i < |Run(Start<Row>(1, n), BatchSize(configured), acts).batches|
    ensures 1 <= |Run(Start<Row>(1, n), BatchSize(configured), acts).batches[i]| <= BatchSize(configured)
    ensures PARAMS_PER_ROW * |Run(Start<Row>(1, n), BatchSize(configured), acts).batches[i]| <= MAX_PARAMS
  {
    RunBounded(1, n, BatchSize(configured), acts);
  }

  /** k concurrent handlers overshoot by at most k - 1 rows. */
  lemma ConcurrentBatchOvershoot<Row>(k: nat, n: nat, size: nat, acts: seq<Act<Row>>, i: nat)
    requires size >= 1 && i < |Run(Start<Row>(k, n), size, acts).batches|
    ensures 1 <= |Run(Start<Row>(k, n), size, acts).batches[i]| <= size + k - 1
  {
    RunBounded(k, n, size, acts);
  }

  // ----- closing ----------------------------------------------------------

  ghost predicate ClosingOrder<Row>(s: State<Row>) {
    && (forall c :: 0 <= c < |s.closers| && (s.closers[c] == Marked || s.closers[c] == Returned) ==> s.closed)
    && (forall c :: 0 <= c < |s.closers| && s.closers[c] == Returned ==> s.buf == [])
  }

  lemma StepClosing<Row>(s: State<Row>, size: nat, a: Act<Row>)
    requires ClosingOrder(s)
    ensures ClosingOrder(Step(s, size, a))
  {
  }

  lemma {:induction false} RunClosing<Row>(k: nat, n: nat, size: nat, acts: seq<Act<Row>>)
    ensures ClosingOrder(Run(Start(k, n), size, acts))
  {
    if acts == [] {
    } else {
      RunClosing(k, n, size, acts[..|acts|-1]);
      StepClosing(Run(Start(k, n), size, acts[..|acts|-1]), size, acts[|acts|-1]);
    }
  }

  ghost predicate Settled<Row>(s: State<Row>, after: State<Row>) {
    after.closed && after.buf == [] && after.batches == s.batches && after.accepted == s.accepted
  }

  lemma ClosedStepStays<Row>(s: State<Row>, now: State<Row>, size: nat, a: Act<Row>)
    requires Settled(s, now)
    ensures Settled(s, Step(now, size, a))
  {
  }

  lemma {:induction false} ClosedAndEmptyStays<Row>(s: State<Row>, size: nat, acts: seq<Act<Row>>)
    requires s.closed && s.buf == []
    ensures Settled(s, Run(s, size, acts))
  {
    if acts == [] {
    } else {
      ClosedAndEmptyStays(s, size, acts[..|acts|-1]);
      ClosedStepStays(s, Run(s, size, acts[..|acts|-1]), size, acts[|acts|-1]);
    }
  }

  /** Once some call of Close has returned, every accepted row is in a batch and the buffer stays
      empty forever: nothing is accepted, nothing more is written. */
  lemma NothingAfterClose<Row>(k: nat, n: nat, size: nat, history: seq<Act<Row>>, acts: seq<Act<Row>>, c: nat)
    requires c < |Run(Start<Row>(k, n), size, history).closers| &&
      Run(Start<Row>(k, n), size, history).closers[c] == Returned
    ensures var s := Run(Start<Row>(k, n), size, history);
      var after := Run(s, size, acts);
      after.buf == [] && after.batches == s.batches && Concat(after.batches) == s.accepted == after.accepted
  {
    var s := Run(Start<Row>(k, n), size, history);
    RunClosing(k, n, size, history);
    RunConserves(k, n, size, history);
    ClosedAndEmptyStays(s, size, acts);
    assert Concat(s.batches) + [] == Concat(s.batches);
  }

  // ----- the subscriber ---------------------------------------------------

  /** One goroutine's view: the calls of a single consumer, run to completion. */
  class Subscriber<Row(==)> {
    const batchSize: nat
    var buf: seq<Row>
    var closed: bool
    var written: seq<seq<Row>>

    ghost predicate Valid()
      reads this
    {
      1 <= batchSize <= MAX_BATCH && |buf| < batchSize && (closed ==> buf == [])
      && forall i :: 0 <= i < |written| ==> 1 <= |written[i]| <= batchSize
    }

    function Contents(): seq<Row>
      reads this
    {
      Concat(written) + buf
    }

    constructor (configured: int)
      ensures Valid() && Contents() == [] && !closed && batchSize == BatchSize(configured)
    {
      batchSize := if configured < 1 then 1 else if configured > MAX_BATCH then MAX_BATCH else configured;
      buf, closed, written := [], false, [];
    }

    method Drain()
      requires |buf| <= batchSize && forall i :: 0 <= i < |written| ==> 1 <= |written[i]| <= batchSize
      modifies this`buf, this`written
      ensures buf == [] && Contents() == old(Contents())
      ensures forall i :: 0 <= i < |written| ==> 1 <= |written[i]| <= batchSize
    {
      var batch := buf;
      buf := [];
      if |batch| == 0 { return; }
      assert (written + [batch])[..|written|] == written;
      written := written + [batch];
    }

    method Handle(row: Row)
      requires Valid()
      modifies this`buf, this`written
      ensures Valid()
      ensures Contents() == if closed then old(Contents()) else old(Contents()) + [row]
    {
      if closed { return; }
      buf := buf + [row];
      assert Contents() == old(Contents()) + [row];
      if |buf| >= batchSize { Drain(); }
    }

    method Close()
      requires Valid()
      modifies this
      ensures Valid() && closed && Contents() == old(Contents()) == Concat(written)
    {
      closed := true;
      Drain();
    }
  }

  // ----- what each step does ----------------------------------------------

  /** A delivered row is buffered and accepted by an idle handler exactly before the buffer is closed; the
      handler owes a flush exactly when its own row filled the batch. */
  lemma DeliverOutcome<Row>(s: State<Row>, size: nat, h: nat, row: Row)
    requires h < |s.handlers| && s.handlers[h] == Idle
    ensures Step(s, size, Deliver(h, row)) ==
      if s.closed then s
      else State(s.buf + [row], false, s.handlers[h := if |s.buf| + 1 >= size then Owes else Idle], s.ticker,
                 s.closers, s.stopped, s.batches, s.accepted + [row])
  {
  }

  /** From before to after the buffer was handed over, as one batch unless it was empty. */
  predicate HandedOver<Row(==)>(before: State<Row>, after: State<Row>) {
    && after.buf == [] && after.batches == (if before.buf == [] then before.batches else before.batches + [before.buf])
    && after.accepted == before.accepted && after.closed == before.closed && after.stopped == before.stopped
    && after.ticker == before.ticker
  }

  /** Who hands the buffer over: a handler that owes it, the running ticker, and Close once it has marked
      the buffer closed. */
  lemma FlushOutcome<Row>(s: State<Row>, size: nat, i: nat)
    ensures i < |s.handlers| && s.handlers[i] == Owes ==>
      var k := Step(s, size, HandlerFlush(i));
      HandedOver(s, k) && k.handlers == s.handlers[i := Idle] && k.closers == s.closers
    ensures s.ticker == Running ==>
      var k := Step(s, size, TickerFlush);
      HandedOver(s, k) && k.handlers == s.handlers && k.closers == s.closers
    ensures i < |s.closers| && s.closers[i] == Marked ==>
      var k := Step(s, size, CloseFlush(i));
      HandedOver(s, k) && k.handlers == s.handlers && k.closers == s.closers[i := Returned]
  {
  }

  /** Close first asks the ticker to stop, waits until it has, then closes the buffer; each of its steps
      is taken once, in this order. */
  lemma CloseOutcome<Row>(s: State<Row>, size: nat, c: nat)
    ensures Step(s, size, Signal(c)) ==
      if c < |s.closers| && s.closers[c] == Calling
      then s.(stopped := true, closers := s.closers[c := Signalled]) else s
    ensures Step(s, size, TickerExit) == if s.stopped then s.(ticker := Exited) else s
    ensures Step(s, size, MarkClosed(c)) ==
      if c < |s.closers| && s.closers[c] == Signalled && s.ticker == Exited
      then s.(closed := true, closers := s.closers[c := Marked]) else s
  {
  }

  /** Nothing is buffered, closed or stopped at the start. */
  lemma StartOutcome<Row>(k: nat, n: nat)
    ensures var s := Start<Row>(k, n);
      && s.buf == [] && s.batches == [] && s.accepted == [] && !s.closed && !s.stopped && s.ticker == Running
      && |s.handlers| == k && |s.closers| == n
      && (forall h :: 0 <= h < k ==> s.handlers[h] == Idle) && forall c :: 0 <= c < n ==> s.closers[c] == Calling
  {
  }

  /** The configured batch size is clamped to between one and four thousand rows of thirteen parameters,
      which one statement can carry. */
  lemma BatchSizes(configured: int)
    ensures BatchSize(configured) == if configured < 1 then 1 else if configured > 4000 then 4000 else configured
    ensures BatchSize(configured) * 13 <= 65535
  {
  }
}
