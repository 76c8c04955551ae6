/** Runs from the empty ledger on which one further call breaks the chain of debts. */
module ChainExamples {
  import opened Options
  import opened Ids
  import opened InvoiceCalculator
  import opened Ledgers
  import opened InvoiceLines
  import opened LedgerInvariants
  import opened LedgerSteps
  import opened PeriodClose
  import opened Reconciliation
  import opened CarryRuns
  import opened DebtChain
  import opened ChainRuns
  import opened BillingExamples

  /** One further call on a chained ledger that does not keep the chain. */
  lemma Unchains(ops: seq<Op>, op: Op)
    requires Chained(Run(EMPTY, ops)) && !KeepsChain(Run(EMPTY, ops), op)
    ensures !Chained(Run(EMPTY, ops + [op]))
  {
    RunKeeps(EMPTY, ops);
    RunSnoc(EMPTY, ops, op);
    StepChainsIff(Run(EMPTY, ops), op);
  }

  // ----- a superseded bill changes ----------------------------------------

  /** The lesson of month 0 is billed and month 1 is closed after it. */
  function TwoClosedOps(): seq<Op> { BilledOps() + [OpEnsurePeriod(1)] + [OpClose(1, false)] }

  lemma TwoClosed(l: Ledger)
    requires l == Run(EMPTY, TwoClosedOps())
    ensures Sound(l) && |l.invoices| > 0 && l.invoices[0] == BILL && Superseded(l, 0)
  {
    RunSnoc(EMPTY, BilledOps(), OpEnsurePeriod(1));
    RunSnoc(EMPTY, BilledOps() + [OpEnsurePeriod(1)], OpClose(1, false));
    BilledIsReached();
    FirstDebt(1);
    assert Frozen(BILLED.invoices[0], l.invoices[0]);
    FindUnique(l.invoices, 0);
    assert IsClosed(l, 1);
  }

  lemma LateCallsBreak(l: Ledger)
    requires |l.invoices| > 0 && l.invoices[0] == BILL && Superseded(l, 0)
    ensures !KeepsChain(l, OpAdjust(0, -50)) && !KeepsChain(l, OpVoid(0))
  {
  }

  /** The bill is lowered, or voided, after the next month opened with it. */
  lemma LateChangesExample()
    ensures Chained(Run(EMPTY, TwoClosedOps()))
    ensures !Chained(Run(EMPTY, TwoClosedOps() + [OpAdjust(0, -50)]))
    ensures !Chained(Run(EMPTY, TwoClosedOps() + [OpVoid(0)]))
  {
    TwoClosed(Run(EMPTY, TwoClosedOps()));
    LateCallsBreak(Run(EMPTY, TwoClosedOps()));
    Unchains(TwoClosedOps(), OpAdjust(0, -50));
    Unchains(TwoClosedOps(), OpVoid(0));
  }

  // ----- months closed out of order ---------------------------------------

  function TaughtOps(): seq<Op> { [OpEnsurePeriod(0), OpEnroll(PUPIL), OpAddSession(0), OpConfirm(0, PRESENT, 0)] }

  /** Month 1 is closed while month 0 is still open. */
  function SkippedOps(): seq<Op> { TaughtOps() + [OpEnsurePeriod(1)] + [OpClose(1, false)] }

  lemma RunFour(l: Ledger, a: Op, b: Op, c: Op, d: Op)
    ensures Run(l, [a, b, c, d]) == Step(Step(Step(Step(l, a), b), c), d)
  {
    RunSnoc(l, [], a);
    RunSnoc(l, [a], b);
    RunSnoc(l, [a, b], c);
    RunSnoc(l, [a, b, c], d);
    assert [] + [a] == [a] && [a] + [b] == [a, b] && [a, b] + [c] == [a, b, c] && [a, b, c] + [d] == [a, b, c, d];
  }

  lemma TaughtIsReached()
    ensures Run(EMPTY, TaughtOps()) == TAUGHT && Sound(TAUGHT)
  {
    ReachUntaught(EMPTY);
    ReachTaught();
    RunFour(EMPTY, OpEnsurePeriod(0), OpEnroll(PUPIL), OpAddSession(0), OpConfirm(0, PRESENT, 0));
    RunKeeps(EMPTY, TaughtOps());
  }

  /** The ledger still teaches the lesson of month 0 and has billed nothing of it. */
  ghost predicate Unbilled(l: Ledger) {
    && l.enrollments == [PUPIL] && l.sessions == [Session(0, PRESENT)]
    && IsOpen(l, 0) && forall st: StudentId :: Find(l.invoices, 0, st).None?
  }

  lemma NextEnrollments(l: Ledger, m: Month)
    requires Inv(l) && m !in l.periods
    ensures NextClosed(l, m).enrollments == l.enrollments
  {
    NextIs(l, m);
    DraftAllTouchesOnlyInvoices(Ready(l, m), m, ComputePeriod(Ready(l, m), m));
  }

  lemma StillUnbilled(l: Ledger, k: Ledger)
    requires Sound(l) && Unbilled(l) && l.periods == map[0 := Open] && k == NextClosed(l, 1)
    ensures Sound(k) && Unbilled(k) && IsClosed(k, 1)
  {
    NextKeepsSound(l, 1);
    NextTables(l, 1);
    NextEnrollments(l, 1);
    forall st: StudentId | true ensures Find(k.invoices, 0, st).None? { NextRow(l, 1, 0, st); }
  }

  lemma UnbilledTally(l: Ledger)
    requires Unbilled(l)
    ensures TallyAttendance(l, 0) == TallyAttendance(TAUGHT, 0)
  {
  }

  lemma NothingBeforeTheFirst(l: Ledger)
    ensures PreviousClosed(l, 0) == None
  {
    assert ClosedBefore(l, 0) == {};
  }

  lemma UnbilledComputes(l: Ledger)
    requires Unbilled(l)
    ensures ComputePeriod(l, 0) == [Computed(0, [LESSON], 0, 100, 0, 100)]
  {
    TaughtComputes();
    UnbilledTally(l);
    NothingBeforeTheFirst(l);
    NothingBeforeTheFirst(TAUGHT);
    assert AdjustmentsByStudent(l, 0) == map[] == AdjustmentsByStudent(TAUGHT, 0);
    assert OpeningBalances(l, 0) == OpeningBalances(TAUGHT, 0);
  }

  lemma DebtMoves(l: Ledger, ci: Computed)
    requires ComputePeriod(l, 0) == [ci] && ci.totalDue == 100 && ci.opening == 0
    ensures !DebtUnmoved(l, 0)
  {
    assert ComputePeriod(l, 0)[0] == ci;
  }

  lemma SkippedMonth(l: Ledger)
    requires l == Run(EMPTY, SkippedOps())
    ensures Sound(l) && Unbilled(l) && IsClosed(l, 1)
  {
    RunSnoc(EMPTY, TaughtOps(), OpEnsurePeriod(1));
    RunSnoc(EMPTY, TaughtOps() + [OpEnsurePeriod(1)], OpClose(1, false));
    TaughtIsReached();
    StillUnbilled(TAUGHT, l);
  }

  lemma ClosingMovesDebt(l: Ledger, ci: Computed)
    requires ClosePeriod(l, 0, false).Ok? && IsClosed(l, 1)
    requires ComputePeriod(l, 0) == [ci] && ci.totalDue == 100 && ci.opening == 0
    ensures !KeepsChain(l, OpClose(0, false))
  {
    DebtMoves(l, ci);
  }

  lemma OutOfOrderBreaks(l: Ledger)
    requires Sound(l) && Unbilled(l) && IsClosed(l, 1) && ClosePeriod(l, 0, false).Ok?
    ensures !KeepsChain(l, OpClose(0, false))
  {
    UnbilledComputes(l);
    ClosingMovesDebt(l, Computed(0, [LESSON], 0, 100, 0, 100));
  }

  /** Month 0 is closed after month 1, which opened without its lesson. */
  lemma OutOfOrderExample()
    ensures Chained(Run(EMPTY, SkippedOps()))
    ensures !Chained(Run(EMPTY, SkippedOps() + [OpClose(0, false)]))
  {
    SkippedMonth(Run(EMPTY, SkippedOps()));
    ReachableCloseSucceedsIff(SkippedOps(), 0, false);
    OutOfOrderBreaks(Run(EMPTY, SkippedOps()));
    Unchains(SkippedOps(), OpClose(0, false));
  }

  // ----- a carry on a superseded month ------------------------------------

  lemma {:induction false} NoLessons(ss: seq<Session>, lines: seq<Line>, m: Month)
    requires ss == [Session(0, PRESENT)] && m > 0
    ensures LiveCharge(ss, lines, 0, m) == 0
  {
    var n := |lines|;
    if n == 0 {
    } else {
      NoLessons(ss, lines[..n-1], m);
      assert ss[..0] == [] && BillableCount(ss, 0, lines[n-1].enrollment, m) == 0;
    }
  }

  /** The lesson of month 0 is billed and the student owes 100 on month m, the last closed one. */
  ghost predicate InDebt(l: Ledger, m: Month) {
    && Sound(l) && IsClosed(l, m) && IsLatestClosed(l, m) && l.adjustments == [] && l.sessions == [Session(0, PRESENT)]
    && RowOf(l, 0, 0) == Some(BILL)
    && RowOf(l, m, 0).Some? && RowOf(l, m, 0).value.status == Issued
    && RowOf(l, m, 0).value.totalDue == 100 && RowOf(l, m, 0).value.paid == 0
  }

  lemma BilledInDebt()
    ensures InDebt(BILLED, 0)
  {
    BilledIsReached();
    BilledIsChained();
  }

  lemma NextOpening(l: Ledger, m: Month, next: Month, k: Ledger)
    requires InDebt(l, m) && next > m && next !in l.periods && k == NextClosed(l, next)
    requires Sound(k) && k.periods == l.periods[next := Closed]
    ensures Opening(k, next, 0) == 100
  {
    NextRow(l, next, m, 0);
    LatestIsPrevious(l, m, next, k);
    OwedByRow(k, m, 0);
    assert Opening(k, next, 0) == PreviouslyOwed(k, next, 0);
  }

  lemma LatestIsPrevious(l: Ledger, m: Month, next: Month, k: Ledger)
    requires IsClosed(l, m) && IsLatestClosed(l, m) && next > m && k.periods == l.periods[next := Closed]
    ensures IsClosed(k, next) && PreviousClosed(k, next) == Some(m)
  {
    var before := ClosedBefore(k, next);
    assert m in before;
    assert Max(before) in before;
    assert IsClosed(l, Max(before));
  }

  lemma NextCharge(l: Ledger, next: Month, k: Ledger, id: InvoiceId)
    requires Inv(l) && next > 0 && next !in l.periods && k == NextClosed(l, next)
    requires k.sessions == [Session(0, PRESENT)] && id < |k.invoices| && k.invoices[id].month == next
    requires k.invoices[id].student == 0
    ensures k.invoices[id].charge == 0
  {
    NextIs(l, next);
    ClosedRowSettles(Ready(l, next), next, false, id);
    NoLessons(k.sessions, k.invoices[id].lines, next);
  }

  lemma DueIsOpening(k: Ledger, id: InvoiceId)
    requires Inv(k) && id < |k.invoices| && k.invoices[id].charge == 0 && k.adjustments == []
    ensures k.invoices[id].totalDue == k.invoices[id].opening
  {
    assert InvoiceOk(k, id);
  }

  lemma NextRowOwes(l: Ledger, m: Month, next: Month, k: Ledger)
    requires InDebt(l, m) && next > m && next !in l.periods && k == NextClosed(l, next)
    requires Sound(k) && k.periods == l.periods[next := Closed] && k.adjustments == [] && k.sessions == l.sessions
    ensures RowOf(k, next, 0).Some? && RowOf(k, next, 0).value.status == Issued
    ensures RowOf(k, next, 0).value.totalDue == 100 && RowOf(k, next, 0).value.paid == 0
  {
    NextOpening(l, m, next, k);
    var id := Find(k.invoices, next, 0).value;
    NextCharge(l, next, k, id);
    DueIsOpening(k, id);
    NextRowIsIssued(l, next, id);
  }

  lemma RollFrame(l: Ledger, m: Month, next: Month, k: Ledger)
    requires InDebt(l, m) && next > m && next !in l.periods && k == NextClosed(l, next)
    ensures Sound(k) && k.periods == l.periods[next := Closed] && k.adjustments == [] && k.sessions == l.sessions
    ensures RowOf(k, 0, 0) == Some(BILL) && RowOf(k, m, 0) == RowOf(l, m, 0)
  {
    NextKeepsSound(l, next);
    NextTables(l, next);
    NextRow(l, next, 0, 0);
    NextRow(l, next, m, 0);
  }

  /** The debt is carried into the next month by closing it. */
  lemma DebtRolls(l: Ledger, m: Month, next: Month, k: Ledger)
    requires InDebt(l, m) && next > m && next !in l.periods && k == NextClosed(l, next)
    ensures InDebt(k, next) && k.periods == l.periods[next := Closed] && RowOf(k, m, 0) == RowOf(l, m, 0)
  {
    RollFrame(l, m, next, k);
    NextRowOwes(l, m, next, k);
    forall q: Month | IsClosed(k, q) ensures q <= next { assert q != next ==> IsClosed(l, q); }
  }

  function NextOps(ops: seq<Op>, m: Month): seq<Op> { ops + [OpEnsurePeriod(m)] + [OpClose(m, false)] }

  lemma RunNext(ops: seq<Op>, m: Month)
    ensures Run(EMPTY, NextOps(ops, m)) == NextClosed(Run(EMPTY, ops), m)
  {
    RunSnoc(EMPTY, ops, OpEnsurePeriod(m));
    RunSnoc(EMPTY, ops + [OpEnsurePeriod(m)], OpClose(m, false));
  }

  /** Months 0 to 3 are closed; month 0 then turns out to have had a second lesson. */
  function SecondLessonOps(): seq<Op> {
    NextOps(NextOps(NextOps(BilledOps(), 1), 2), 3) + [OpAddSession(0)] + [OpCommit(1, PRESENT)]
  }

  ghost predicate FourClosed(l: Ledger) {
    && Sound(l) && l.adjustments == []
    && l.periods == map[0 := Closed, 1 := Closed, 2 := Closed, 3 := Closed]
    && RowOf(l, 0, 0) == Some(BILL)
    && RowOf(l, 2, 0).Some? && RowOf(l, 2, 0).value.status == Issued
    && RowOf(l, 2, 0).value.totalDue == 100 && RowOf(l, 2, 0).value.paid == 0
  }

  lemma FourMonths(l: Ledger)
    requires l == Run(EMPTY, NextOps(NextOps(NextOps(BilledOps(), 1), 2), 3))
    ensures FourClosed(l) && l.sessions == [Session(0, PRESENT)]
  {
    BilledIsReached();
    BilledInDebt();
    RunNext(BilledOps(), 1);
    RunNext(NextOps(BilledOps(), 1), 2);
    RunNext(NextOps(NextOps(BilledOps(), 1), 2), 3);
    var k1 := NextClosed(BILLED, 1);
    ThreeRolls(BILLED, k1, NextClosed(k1, 2), NextClosed(NextClosed(k1, 2), 3));
  }

  lemma ThreeRolls(l: Ledger, k1: Ledger, k2: Ledger, k3: Ledger)
    requires InDebt(l, 0) && l.periods == map[0 := Closed]
    requires k1 == NextClosed(l, 1) && k2 == NextClosed(k1, 2) && k3 == NextClosed(k2, 3)
    ensures FourClosed(k3) && k3.sessions == [Session(0, PRESENT)]
  {
    DebtRolls(l, 0, 1, k1);
    DebtRolls(k1, 1, 2, k2);
    DebtRolls(k2, 2, 3, k3);
  }

  lemma TaughtTwice(l: Ledger, k: Ledger)
    requires FourClosed(l) && l.sessions == [Session(0, PRESENT)]
    requires k == Step(Step(l, OpAddSession(0)), OpCommit(1, PRESENT))
    ensures FourClosed(k) && k.sessions == [Session(0, PRESENT), Session(0, PRESENT)]
  {
    assert SheetFits(l, l.sessions[0].sheet);
    StepKeepsSound(l, OpAddSession(0));
    StepKeepsSound(Step(l, OpAddSession(0)), OpCommit(1, PRESENT));
  }

  lemma LandsOnMonthTwo(l: Ledger)
    requires l.periods == map[0 := Closed, 1 := Closed, 2 := Closed, 3 := Closed]
    ensures ResolveTarget(l, 0, 0) == (l, 2) && Superseded(l, 2)
  {
    assert OpenAfter(l, 0) == {};
    assert IsClosed(l, 3);
  }

  lemma CarryShows(l: Ledger)
    requires FourClosed(l) && l.sessions == [Session(0, PRESENT), Session(0, PRESENT)]
    ensures OwedAfterVisit(l, 1, 0, 0, {0}) == 200 && Owed(l, 2, 0) == 100
  {
    LandsOnMonthTwo(l);
    SecondLessonDelta(l, Find(l.invoices, 0, 0).value);
    OwedByRow(l, 2, 0);
    assert PRESENT[0].enrollment == 0;
  }

  lemma CarryBreaks(l: Ledger)
    requires FourClosed(l) && l.sessions == [Session(0, PRESENT), Session(0, PRESENT)]
    ensures !KeepsChain(l, OpReconcile(1, 0, {0}))
  {
    CarryShows(l);
    LandsOnMonthTwo(l);
    assert 0 in l.sessions[1].sheet;
  }

  /** The carry of the second lesson lands on month 2, which month 3 already opened with. */
  lemma SupersededCarryExample()
    ensures Chained(Run(EMPTY, SecondLessonOps()))
    ensures !Chained(Run(EMPTY, SecondLessonOps() + [OpReconcile(1, 0, {0})]))
  {
    var before := NextOps(NextOps(NextOps(BilledOps(), 1), 2), 3);
    FourMonths(Run(EMPTY, before));
    RunSnoc(EMPTY, before, OpAddSession(0));
    RunSnoc(EMPTY, before + [OpAddSession(0)], OpCommit(1, PRESENT));
    TaughtTwice(Run(EMPTY, before), Run(EMPTY, SecondLessonOps()));
    CarryBreaks(Run(EMPTY, SecondLessonOps()));
    Unchains(SecondLessonOps(), OpReconcile(1, 0, {0}));
  }
}
