/** Runs from the empty ledger on which a closed month, or the debt carried out of it, stops
    adding up. */
module BillingExamples {
  import opened Options
  import opened Ids
  import opened InvoiceCalculator
  import opened Ledgers
  import opened InvoiceLines
  import opened LedgerInvariants
  import opened LedgerSteps
  import opened PeriodClose
  import opened Reconciliation
  import opened CarryRuns
  import opened DebtChain
  import opened InvoiceStatuses

  const PUPIL := Enrollment(0, "", 0, 100)
  const PRESENT: map<StudentId, Mark> := map[0 := Mark(0, false)]

  /** One student, one attended session of month 0. */
  const TAUGHT := Ledger(map[0 := Open], [PUPIL], [Session(0, PRESENT)], [], [])
  const LESSON := Line(0, "", 100, 1, 0, 100)
  const BILL := Invoice(0, 0, 0, 100, 0, 100, 0, Issued, [LESSON])
  const BILLED := Ledger(map[0 := Closed], [PUPIL], [Session(0, PRESENT)], [BILL], [])

  function BilledOps(): seq<Op> {
    [OpEnsurePeriod(0), OpEnroll(PUPIL), OpAddSession(0), OpConfirm(0, PRESENT, 0), OpClose(0, false)]
  }

  lemma RunSnoc(l: Ledger, before: seq<Op>, op: Op)
    ensures Run(l, before + [op]) == Step(Run(l, before), op)
  {
    assert (before + [op])[..|before|] == before;
  }

  lemma RunFive(l: Ledger, a: Op, b: Op, c: Op, d: Op, e: Op)
    ensures Run(l, [a, b, c, d, e]) == Step(Step(Step(Step(Step(l, a), b), c), d), e)
  {
    RunSnoc(l, [], a);
    RunSnoc(l, [a], b);
    RunSnoc(l, [a, b], c);
    RunSnoc(l, [a, b, c], d);
    RunSnoc(l, [a, b, c, d], e);
    assert [] + [a] == [a] && [a] + [b] == [a, b] && [a, b] + [c] == [a, b, c];
    assert [a, b, c] + [d] == [a, b, c, d] && [a, b, c, d] + [e] == [a, b, c, d, e];
  }

  const UNTAUGHT := Ledger(map[0 := Open], [PUPIL], [Session(0, map[])], [], [])

  lemma ReachUntaught(l: Ledger)
    requires l == EMPTY
    ensures Step(Step(Step(l, OpEnsurePeriod(0)), OpEnroll(PUPIL)), OpAddSession(0)) == UNTAUGHT
  {
  }

  /** While the month is not closed a confirmation only sets the sheet. */
  lemma ConfirmWhileOpen(l: Ledger, sid: SessionId, sheet: map<StudentId, Mark>, today: Month)
    requires sid < |l.sessions| && SheetFits(l, sheet) && !IsClosed(l, l.sessions[sid].month)
    ensures Step(l, OpConfirm(sid, sheet, today)) == SetSheet(l, sid, sheet)
  {
  }

  lemma ReachTaught()
    ensures Step(UNTAUGHT, OpConfirm(0, PRESENT, 0)) == TAUGHT
  {
    ConfirmWhileOpen(UNTAUGHT, 0, PRESENT, 0);
  }

  lemma TaughtTally()
    ensures TallyAttendance(TAUGHT, 0) == [Tally(0, 0, "", 0, 100, 1, 0)]
  {
    var ss := TAUGHT.sessions;
    assert BillableCount(ss[..0], 0, 0, 0) == 0 && AbsentCount(ss[..0], 0, 0, 0) == 0;
    assert BillableCount(ss, 0, 0, 0) == 1 && AbsentCount(ss, 0, 0, 0) == 0;
    assert TalliesUpTo(TAUGHT.enrollments, ss, 0, 0) == [];
  }

  lemma TaughtComputes()
    ensures ComputePeriod(TAUGHT, 0) == [Computed(0, [LESSON], 0, 100, 0, 100)]
  {
    TaughtTally();
    var t := Tally(0, 0, "", 0, 100, 1, 0);
    assert PreviousClosed(TAUGHT, 0) == None;
    assert AdjustmentsByStudent(TAUGHT, 0) == map[];
    OneTally(t, ComputePeriod(TAUGHT, 0));
    OneInvoice(t);
  }

  lemma OneStudent(t: Tally)
    ensures BillingOrder([t], map[], map[]) == [t.student] && TalliesOf([t], t.student) == [t]
  {
    assert [t][..0] == [];
    assert StudentsInOrder([t][..0]) == [];
    assert StudentsInOrder([t]) == [t.student];
    assert Extras([t], map[], map[]) == {};
  }

  lemma OneLine(t: Tally)
    ensures LinesOf(StableSort([t])) == [LineOf(t)] && SumAmounts([LineOf(t)]) == t.billable * t.unitPrice
  {
    assert [t][..0] == [] && [LineOf(t)][..0] == [];
    assert StableSort([t][..0]) == [];
    assert StableSort([t]) == [t];
  }

  lemma OneInvoice(t: Tally)
    ensures InvoiceFor([t], map[], map[], t.student) ==
      Computed(t.student, [LineOf(t)], 0, t.billable * t.unitPrice, 0, t.billable * t.unitPrice)
  {
    OneStudent(t);
    OneLine(t);
  }

  lemma OneTally(t: Tally, out: seq<Computed>)
    requires out == ComputeAll([t], map[], map[])
    ensures out == [InvoiceFor([t], map[], map[], t.student)]
  {
    OneStudent(t);
  }

  lemma OneRedraft(line: Line)
    ensures Redraft([], [line]) == [line]
  {
    assert [line][..0] == [];
    assert UpsertLines([], [line][..0]) == [];
    assert UpsertLine([], line) == [line];
    assert line in [line];
    assert line.enrollment in EnrollmentsOf([line]);
  }

  lemma TaughtDrafts()
    ensures DraftAll(TAUGHT, 0, [Computed(0, [LESSON], 0, 100, 0, 100)])
      == TAUGHT.(invoices := [BILL.(status := InvoiceStatus.Draft)])
  {
    var cs := [Computed(0, [LESSON], 0, 100, 0, 100)];
    OneRedraft(LESSON);
    assert DraftAll(TAUGHT, 0, cs[..0]) == TAUGHT;
    assert Find(TAUGHT.invoices, 0, 0).None?;
  }

  /** Closing a month whose computation is one invoice of a student without a row. */
  lemma CloseOne(l: Ledger, m: Month, ci: Computed, drafted: Ledger)
    requires IsOpen(l, m) && ComputePeriod(l, m) == [ci] && Find(l.invoices, m, ci.student).None?
    requires drafted == DraftAll(l, m, [ci])
    ensures ClosePeriod(l, m, false).Ok?
    ensures ClosePeriod(l, m, false).value.0 ==
      drafted.(invoices := SettleAll(drafted.invoices, m), periods := drafted.periods[m := Closed])
  {
  }

  lemma BilledIs(drafted: Ledger)
    requires drafted == TAUGHT.(invoices := [BILL.(status := InvoiceStatus.Draft)])
    ensures drafted.(invoices := SettleAll(drafted.invoices, 0), periods := drafted.periods[0 := Closed]) == BILLED
  {
    SettlesToBill(drafted.invoices);
  }

  lemma ClosesToBilled(l: Ledger, drafted: Ledger, ci: Computed)
    requires l == TAUGHT && ComputePeriod(l, 0) == [ci] && ci.student == 0 && drafted == DraftAll(l, 0, [ci])
    requires drafted == TAUGHT.(invoices := [BILL.(status := InvoiceStatus.Draft)])
    ensures ClosePeriod(l, 0, false).Ok? && ClosePeriod(l, 0, false).value.0 == BILLED
  {
    CloseOne(l, 0, ci, drafted);
    BilledIs(drafted);
  }

  lemma TaughtCloses()
    ensures ClosePeriod(TAUGHT, 0, false).Ok? && ClosePeriod(TAUGHT, 0, false).value.0 == BILLED
  {
    TaughtComputes();
    TaughtDrafts();
    ClosesToBilled(TAUGHT, DraftAll(TAUGHT, 0, [Computed(0, [LESSON], 0, 100, 0, 100)]),
      Computed(0, [LESSON], 0, 100, 0, 100));
  }

  lemma SettlesToBill(invs: seq<Invoice>)
    requires invs == [BILL.(status := InvoiceStatus.Draft)]
    ensures SettleAll(invs, 0) == [BILL]
  {
  }

  lemma BilledIsSettled()
    ensures Settled(BILLED, 0)
  {
    var ss, lines := BILLED.sessions, [LESSON];
    assert ss[..0] == [] && lines[..0] == [];
    assert BillableCount(ss, 0, 0, 0) == 1;
    assert LiveCharge(ss, lines, 0, 0) == 100;
  }

  lemma StepClosesWith(l: Ledger, m: Month, r: Result<(Ledger, int)>)
    requires r == ClosePeriod(l, m, false)
    ensures Step(l, OpClose(m, false)) == AfterClose(r, l)
  {
  }

  lemma StepIsClose(l: Ledger, m: Month)
    requires ClosePeriod(l, m, false).Ok?
    ensures Step(l, OpClose(m, false)) == ClosePeriod(l, m, false).value.0
  {
    StepClosesWith(l, m, ClosePeriod(l, m, false));
  }

  lemma RunTo(l: Ledger, a: Op, b: Op, c: Op, d: Op, e: Op, l3: Ledger, l4: Ledger, l5: Ledger)
    requires Step(Step(Step(l, a), b), c) == l3 && Step(l3, d) == l4 && Step(l4, e) == l5
    ensures Run(l, [a, b, c, d, e]) == l5
  {
    RunFive(l, a, b, c, d, e);
  }

  /** Five calls bill the lesson; the closed month adds up. */
  lemma BilledIsReached()
    ensures Run(EMPTY, BilledOps()) == BILLED && Inv(BILLED) && AllSettled(BILLED) && IsClosed(BILLED, 0)
  {
    ReachUntaught(EMPTY);
    ReachTaught();
    TaughtCloses();
    StepIsClose(TAUGHT, 0);
    RunTo(EMPTY, OpEnsurePeriod(0), OpEnroll(PUPIL), OpAddSession(0), OpConfirm(0, PRESENT, 0), OpClose(0, false),
      UNTAUGHT, TAUGHT, BILLED);
    RunKeeps(EMPTY, BilledOps());
    BilledIsSettled();
  }

  // ----- the edits that break it ------------------------------------------

  /** One further call on a settled ledger that does not keep row i. */
  lemma Breaks(ops: seq<Op>, op: Op, i: nat)
    requires AllSettled(Run(EMPTY, ops)) && i < |Run(EMPTY, ops).invoices|
    requires IsClosed(Run(EMPTY, ops), Run(EMPTY, ops).invoices[i].month) && Collectable(Run(EMPTY, ops).invoices[i])
    requires !KeepsRow(Run(EMPTY, ops), op, i)
    ensures !AllSettled(Run(EMPTY, ops + [op]))
  {
    RunKeeps(EMPTY, ops);
    RunSnoc(EMPTY, ops, op);
    StepSettlesIff(Run(EMPTY, ops), op);
  }

  lemma LessonPrice()
    ensures RecordPrice(Session(0, PRESENT), [LESSON], 0, 0) == 100 && LineIndex([LESSON], 1).None?
  {
    assert [LESSON][..0] == [];
    assert LineIndex([LESSON], 0) == Some(0);
  }

  /** The student is taken off the sheet of the closed month: the bill still charges the lesson. */
  lemma DroppedStudentExample()
    ensures AllSettled(Run(EMPTY, BilledOps()))
    ensures !AllSettled(Run(EMPTY, BilledOps() + [OpConfirm(0, map[], 0)]))
  {
    BilledIsReached();
    LessonPrice();
    Breaks(BilledOps(), OpConfirm(0, map[], 0), 0);
  }

  /** The lesson is confirmed again under an enrollment the bill has no line for. */
  lemma OtherEnrollmentExample()
    ensures AllSettled(Run(EMPTY, BilledOps() + [OpEnroll(Enrollment(0, "", 0, 50))]))
    ensures !AllSettled(Run(EMPTY, BilledOps() + [OpEnroll(Enrollment(0, "", 0, 50))] +
      [OpConfirm(0, map[0 := Mark(1, false)], 0)]))
  {
    var enroll := OpEnroll(Enrollment(0, "", 0, 50));
    BilledIsReached();
    RunSnoc(EMPTY, BilledOps(), enroll);
    StepSettlesIff(BILLED, enroll);
    LessonPrice();
    var l := Run(EMPTY, BilledOps() + [enroll]);
    assert SheetFits(l, map[0 := Mark(1, false)]);
    Breaks(BilledOps() + [enroll], OpConfirm(0, map[0 := Mark(1, false)], 0), 0);
  }

  function ExtraLesson(): seq<Op> { BilledOps() + [OpAddSession(0)] }

  lemma ExtraLessonIsReached()
    ensures Run(EMPTY, ExtraLesson()) == BILLED.(sessions := [Session(0, PRESENT), Session(0, map[])])
    ensures AllSettled(Run(EMPTY, ExtraLesson()))
  {
    BilledIsReached();
    RunSnoc(EMPTY, BilledOps(), OpAddSession(0));
    StepSettlesIff(BILLED, OpAddSession(0));
  }

  /** The sheet of another lesson is committed and its reconciliation fails: the month stops adding
      up. */
  lemma FailedReconciliationExample()
    ensures !AllSettled(Run(EMPTY, ExtraLesson() + [OpCommit(1, PRESENT)]))
  {
    ExtraLessonIsReached();
    LessonPrice();
    var l := Run(EMPTY, ExtraLesson());
    assert SheetFits(l, PRESENT);
    Breaks(ExtraLesson(), OpCommit(1, PRESENT), 0);
  }

  /** A later reconciliation of the session makes up for it. */
  lemma LaterReconciliationExample()
    ensures var l := Run(EMPTY, ExtraLesson() + [OpCommit(1, PRESENT)] + [OpReconcile(1, 0, {0})]);
      |l.invoices| > 0 && Settled(l, 0)
  {
    var ops := ExtraLesson() + [OpCommit(1, PRESENT)];
    ExtraLessonIsReached();
    RunSnoc(EMPTY, ExtraLesson(), OpCommit(1, PRESENT));
    assert SheetFits(Run(EMPTY, ExtraLesson()), PRESENT);
    RunKeeps(EMPTY, ops);
    RunSnoc(EMPTY, ops, OpReconcile(1, 0, {0}));
    assert LineIndex([LESSON], 0).Some?;
    ReconciliationCatchesUp(Run(EMPTY, ops), 1, 0, {0}, 0);
  }

  // ----- a late payment ---------------------------------------------------

  lemma BilledIsChained()
    ensures Chained(BILLED) && VoidsAreEmpty(BILLED)
  {
    forall p, st | IsClosed(BILLED, p) ensures Opening(BILLED, p, st) == PreviouslyOwed(BILLED, p, st) {
      assert p == 0;
      assert PreviousClosed(BILLED, 0) == None;
    }
  }

  /** The next month is opened and closed. */
  function NextClosed(l: Ledger, m: Month): Ledger { Step(Step(l, OpEnsurePeriod(m)), OpClose(m, false)) }

  ghost predicate Sound(l: Ledger) { Inv(l) && Chained(l) && VoidsAreEmpty(l) }

  lemma StepKeepsSound(l: Ledger, op: Op)
    requires Sound(l) && Orderly(l, op)
    ensures Sound(Step(l, op)) && Evolves(l, Step(l, op))
  {
    StepKeeps(l, op);
    StepChains(l, op);
  }

  function Ready(l: Ledger, m: Month): Ledger { l.(periods := l.periods[m := Open]) }

  lemma ReadyIs(l: Ledger, m: Month)
    requires Inv(l) && m !in l.periods
    ensures Step(l, OpEnsurePeriod(m)) == Ready(l, m) && Inv(Ready(l, m))
  {
    StepKeeps(l, OpEnsurePeriod(m));
  }

  lemma ReadyCanClose(l: Ledger, m: Month)
    requires Inv(l) && m !in l.periods
    ensures ClosePeriod(Ready(l, m), m, false).Ok?
  {
    forall i | 0 <= i < |l.invoices| ensures l.invoices[i].month in l.periods { assert InvoiceOk(l, i); }
    CloseSucceedsIff(Ready(l, m), m, false);
  }

  lemma NextIs(l: Ledger, m: Month)
    requires Inv(l) && m !in l.periods
    ensures Inv(Ready(l, m)) && ClosePeriod(Ready(l, m), m, false).Ok?
    ensures NextClosed(l, m) == ClosePeriod(Ready(l, m), m, false).value.0
  {
    ReadyIs(l, m);
    ReadyCanClose(l, m);
    StepIsClose(Ready(l, m), m);
  }

  lemma CloseTables(l: Ledger, m: Month)
    requires ClosePeriod(l, m, false).Ok?
    ensures var k := ClosePeriod(l, m, false).value.0;
      k.sessions == l.sessions && k.adjustments == l.adjustments && k.periods == l.periods[m := Closed]
  {
    DraftAllTouchesOnlyInvoices(l, m, ComputePeriod(l, m));
  }

  lemma NextTables(l: Ledger, m: Month)
    requires Inv(l) && m !in l.periods
    ensures var k := NextClosed(l, m);
      k.sessions == l.sessions && k.adjustments == l.adjustments && k.periods == l.periods[m := Closed]
  {
    NextIs(l, m);
    CloseTables(Ready(l, m), m);
    assert Ready(l, m).periods[m := Closed] == l.periods[m := Closed];
  }

  lemma NextRow(l: Ledger, m: Month, q: Month, st: StudentId)
    requires Inv(l) && m !in l.periods && q != m
    ensures RowOf(NextClosed(l, m), q, st) == RowOf(l, q, st)
  {
    NextIs(l, m);
    ClosedOtherRows(Ready(l, m), m, false, q, st);
  }

  lemma NextKeepsSound(l: Ledger, m: Month)
    requires Sound(l) && m !in l.periods && forall q: Month :: IsClosed(l, q) ==> q < m
    ensures Sound(NextClosed(l, m)) && Evolves(l, NextClosed(l, m))
  {
    var ready := Step(l, OpEnsurePeriod(m));
    StepKeepsSound(l, OpEnsurePeriod(m));
    assert forall q: Month :: IsClosed(ready, q) <==> IsClosed(l, q);
    StepKeepsSound(ready, OpClose(m, false));
    EvolvesTrans(l, ready, NextClosed(l, m));
  }

  /** The lesson is not paid before a later month closes: that month opens with the debt. */
  lemma FirstDebt(m: Month)
    requires m > 0
    ensures var l := NextClosed(BILLED, m);
      && Sound(l) && Evolves(BILLED, l) && l.sessions == BILLED.sessions && l.periods == map[0 := Closed, m := Closed]
      && l.adjustments == []
      && PreviousClosed(l, m) == Some(0) && RowOf(l, 0, 0) == Some(BILL) && Opening(l, m, 0) == 100
  {
    BilledIsReached();
    BilledIsChained();
    NextKeepsSound(BILLED, m);
    NextTables(BILLED, m);
    NextRow(BILLED, m, 0, 0);
    var l := NextClosed(BILLED, m);
    assert RowOf(l, 0, 0) == RowOf(BILLED, 0, 0) == Some(BILL);
    assert ClosedBefore(l, m) == {0};
    OwedByRow(l, 0, 0);
    assert Opening(l, m, 0) == PreviouslyOwed(l, m, 0);
  }

  /** The month is paid in full after the next one closed: nothing is outstanding on it any more,
      yet the next month still opens with the whole debt. */
  lemma LatePaymentExample()
    ensures var l := Run(EMPTY, BilledOps() + [OpEnsurePeriod(1)] + [OpClose(1, false)] + [OpSetPaid(0, 100)]);
      Opening(l, 1, 0) == 100 && PreviouslyOwed(l, 1, 0) == 0
  {
    RunSnoc(EMPTY, BilledOps(), OpEnsurePeriod(1));
    RunSnoc(EMPTY, BilledOps() + [OpEnsurePeriod(1)], OpClose(1, false));
    RunSnoc(EMPTY, BilledOps() + [OpEnsurePeriod(1)] + [OpClose(1, false)], OpSetPaid(0, 100));
    BilledIsReached();
    FirstDebt(1);
    var l := NextClosed(BILLED, 1);
    PaidLate(l);
  }

  lemma PaidLate(l: Ledger)
    requires Sound(l) && Evolves(BILLED, l) && IsClosed(l, 1)
    requires PreviousClosed(l, 1) == Some(0) && RowOf(l, 0, 0) == Some(BILL) && Opening(l, 1, 0) == 100
    ensures var k := Step(l, OpSetPaid(0, 100)); Opening(k, 1, 0) == 100 && PreviouslyOwed(k, 1, 0) == 0
  {
    assert Frozen(BILLED.invoices[0], l.invoices[0]);
    FindUnique(l.invoices, 0);
    var k := Step(l, OpSetPaid(0, 100));
    RowAfterReplace(l, 0, k.invoices[0], 0, 0);
    RowAfterReplace(l, 0, k.invoices[0], 1, 0);
    PreviousSame(l, k, 1);
    OwedByRow(k, 0, 0);
  }

  // ----- a lowered due ----------------------------------------------------

  const HALF_PAID := BILLED.(invoices := [BILL.(paid := 50, status := PartiallyPaid)])

  /** Payments of 30 and of 20. */
  function HalfPaidOps(): seq<Op> { BilledOps() + [OpSetPaid(0, 30)] + [OpSetPaid(0, 50)] }

  lemma PayOnBill(l: Ledger, paid: nat, more: nat)
    requires l == BILLED.(invoices := [BILL.(paid := paid, status := PaymentStatus(paid, 100))])
    requires paid < more < 100 && Sound(l)
    ensures Step(l, OpSetPaid(0, more)) == BILLED.(invoices := [BILL.(paid := more, status := PartiallyPaid)])
    ensures Sound(Step(l, OpSetPaid(0, more)))
  {
    assert IsLatestClosed(l, 0);
    StepKeepsSound(l, OpSetPaid(0, more));
  }

  lemma HalfPaid()
    ensures Run(EMPTY, HalfPaidOps()) == HALF_PAID && Sound(HALF_PAID)
  {
    BilledIsReached();
    BilledIsChained();
    RunSnoc(EMPTY, BilledOps(), OpSetPaid(0, 30));
    RunSnoc(EMPTY, BilledOps() + [OpSetPaid(0, 30)], OpSetPaid(0, 50));
    PayOnBill(BILLED, 0, 30);
    PayOnBill(Step(BILLED, OpSetPaid(0, 30)), 30, 50);
  }

  /** The half-paid bill after an adjustment. */
  function Lowered(amount: int): Ledger {
    var due := 100 + amount;
    HALF_PAID.(
      adjustments := [Adjustment(0, amount, None)],
      invoices := [BILL.(paid := 50, adjustments := amount, totalDue := due,
                         status := if 50 < due then PartiallyPaid else Paid)])
  }

  lemma LowerDue(amount: int)
    requires amount != 0
    ensures Run(EMPTY, HalfPaidOps() + [OpAdjust(0, amount)]) == Lowered(amount)
    ensures Sound(Lowered(amount))
  {
    HalfPaid();
    RunSnoc(EMPTY, HalfPaidOps(), OpAdjust(0, amount));
    AdjustmentSumSnoc([], Adjustment(0, amount, None), 0);
    assert [] + [Adjustment(0, amount, None)] == [Adjustment(0, amount, None)];
    assert Step(HALF_PAID, OpAdjust(0, amount)) == Lowered(amount);
    assert IsLatestClosed(HALF_PAID, 0);
    StepKeepsSound(HALF_PAID, OpAdjust(0, amount));
  }

  /** Half of the bill is paid, then an adjustment lowers the due below that: nothing is owed, and the
      credit of 30 is in no later opening. */
  lemma CreditExample()
    ensures var l := Run(EMPTY, HalfPaidOps() + [OpAdjust(0, -80)]);
      Net(l, 0, 0) == -30 && Owed(l, 0, 0) == 0 && Opening(NextClosed(l, 1), 1, 0) == 0
  {
    LowerDue(-80);
    Credit(Lowered(-80));
  }

  lemma Credit(l: Ledger)
    requires l == Lowered(-80) && Sound(l)
    ensures Net(l, 0, 0) == -30 && Owed(l, 0, 0) == 0 && Opening(NextClosed(l, 1), 1, 0) == 0
  {
    assert RowOf(l, 0, 0) == Some(l.invoices[0]);
    OwedByRow(l, 0, 0);
    NextKeepsSound(l, 1);
    NextTables(l, 1);
    NextRow(l, 1, 0, 0);
    var k := NextClosed(l, 1);
    assert ClosedBefore(k, 1) == {0};
    OwedByRow(k, 0, 0);
    assert Opening(k, 1, 0) == PreviouslyOwed(k, 1, 0);
  }

  /** An adjustment lowers the due to nothing, then one of the two payments is reversed: the row is
      partially paid although billing derives paid. */
  lemma OvertakenExample()
    ensures AllDerived(Run(EMPTY, HalfPaidOps() + [OpAdjust(0, -100)]))
    ensures var l := Run(EMPTY, HalfPaidOps() + [OpAdjust(0, -100)] + [OpSetPaid(0, 30)]);
      |l.invoices| > 0 && l.invoices[0].paid == 30 && l.invoices[0].totalDue == 0
      && l.invoices[0].status == PartiallyPaid && !Derived(l.invoices[0])
  {
    LowerDue(-100);
    RunSnoc(EMPTY, HalfPaidOps() + [OpAdjust(0, -100)], OpSetPaid(0, 30));
    ReversedAfterLowering(Lowered(-100));
  }

  lemma ReversedAfterLowering(l: Ledger)
    requires l == Lowered(-100)
    ensures AllDerived(l) && Step(l, OpSetPaid(0, 30)) ==
      l.(invoices := [l.invoices[0].(paid := 30, status := PartiallyPaid)])
  {
  }

  // ----- a carry that is owed nowhere -------------------------------------

  lemma NextRowStatus(l: Ledger, m: Month, id: InvoiceId)
    requires Inv(l) && m !in l.periods
    requires id < |NextClosed(l, m).invoices| && NextClosed(l, m).invoices[id].month == m
    ensures NextClosed(l, m).invoices[id].status in {Issued, Void}
  {
    NextIs(l, m);
    CloseLeavesNoOtherRow(Ready(l, m), m, false, id);
  }

  lemma OpeningKeepsAlive(k: Ledger, id: InvoiceId)
    requires Inv(k) && VoidsAreEmpty(k) && id < |k.invoices|
    requires k.invoices[id].opening != 0 && k.invoices[id].status in {Issued, Void}
    ensures k.invoices[id].status == Issued && k.invoices[id].paid == 0
  {
    assert InvoiceOk(k, id) && VoidIsEmpty(k.invoices[id]);
  }

  lemma NextRowIsIssued(l: Ledger, m: Month, id: InvoiceId)
    requires Sound(l) && m !in l.periods && forall q: Month :: IsClosed(l, q) ==> q < m
    requires id < |NextClosed(l, m).invoices| && NextClosed(l, m).invoices[id].month == m
    requires NextClosed(l, m).invoices[id].opening != 0
    ensures NextClosed(l, m).invoices[id].status == Issued && NextClosed(l, m).invoices[id].paid == 0
  {
    NextRowStatus(l, m, id);
    NextKeepsSound(l, m);
    OpeningKeepsAlive(NextClosed(l, m), id);
  }

  lemma VoidRow(l: Ledger, id: InvoiceId)
    requires Inv(l) && id < |l.invoices| && l.invoices[id].status == Issued && l.invoices[id].paid == 0
    ensures var k := Step(l, OpVoid(id));
      && Inv(k) && Evolves(l, k)
      && k == l.(invoices := l.invoices[id := l.invoices[id].(status := Void)])
      && forall q: Month, st: StudentId :: RowOf(k, q, st) ==
           if q == l.invoices[id].month && st == l.invoices[id].student
           then Some(l.invoices[id].(status := Void)) else RowOf(l, q, st)
  {
    StepKeeps(l, OpVoid(id));
    forall q: Month, st: StudentId | true
      ensures RowOf(Step(l, OpVoid(id)), q, st) ==
        if q == l.invoices[id].month && st == l.invoices[id].student
        then Some(l.invoices[id].(status := Void)) else RowOf(l, q, st)
    {
      RowAfterReplace(l, id, l.invoices[id].(status := Void), q, st);
    }
  }

  /** A later month closes with the debt as opening, and its bill is voided. */
  lemma VoidTheDebt(l: Ledger) returns (id: InvoiceId)
    requires l == NextClosed(BILLED, 2)
    ensures var k := Step(l, OpVoid(id));
      && Inv(k) && Evolves(l, k) && k.sessions == BILLED.sessions && k.adjustments == [] && k.periods == l.periods
      && RowOf(k, 0, 0) == Some(BILL)
      && RowOf(k, 2, 0).Some? && RowOf(k, 2, 0).value.status == Void
  {
    FirstDebt(2);
    BilledIsReached();
    BilledIsChained();
    id := Find(l.invoices, 2, 0).value;
    NextRowIsIssued(BILLED, 2, id);
    VoidRow(l, id);
  }

  /** Ledgers in which months 0, 1 and 2 are closed, the lesson of month 0 is billed, and the
      student's bill of month 2 is void. */
  ghost predicate DeadEnd(l: Ledger) {
    && l.adjustments == [] && l.periods == map[0 := Closed, 2 := Closed, 1 := Closed]
    && RowOf(l, 0, 0) == Some(BILL)
    && RowOf(l, 2, 0).Some? && RowOf(l, 2, 0).value.status == Void
  }

  lemma DeadEndIsReached() returns (ops: seq<Op>)
    ensures DeadEnd(Run(EMPTY, ops)) && Inv(Run(EMPTY, ops)) && Run(EMPTY, ops).sessions == BILLED.sessions
  {
    var ops2 := BilledOps() + [OpEnsurePeriod(2)] + [OpClose(2, false)];
    RunSnoc(EMPTY, BilledOps(), OpEnsurePeriod(2));
    RunSnoc(EMPTY, BilledOps() + [OpEnsurePeriod(2)], OpClose(2, false));
    BilledIsReached();
    FirstDebt(2);
    var id := VoidTheDebt(Run(EMPTY, ops2));
    RunSnoc(EMPTY, ops2, OpVoid(id));
    var k := Run(EMPTY, ops2 + [OpVoid(id)]);
    ops := ops2 + [OpVoid(id)] + [OpEnsurePeriod(1)] + [OpClose(1, false)];
    RunSnoc(EMPTY, ops2 + [OpVoid(id)], OpEnsurePeriod(1));
    RunSnoc(EMPTY, ops2 + [OpVoid(id)] + [OpEnsurePeriod(1)], OpClose(1, false));
    NextTables(k, 1);
    NextRow(k, 1, 0, 0);
    NextRow(k, 1, 2, 0);
    StepKeeps(k, OpEnsurePeriod(1));
    StepKeeps(Step(k, OpEnsurePeriod(1)), OpClose(1, false));
  }

  lemma MoreLessons(l: Ledger)
    requires l.sessions == [Session(0, PRESENT), Session(0, PRESENT)]
    ensures LiveCharge(l.sessions, [LESSON], 0, 0) == 200
  {
    var ss, lines := l.sessions, [LESSON];
    assert lines[..0] == [] && ss[..1] == [Session(0, PRESENT)] && ss[..1][..0] == [];
    assert BillableCount(ss[..1], 0, 0, 0) == 1;
    assert BillableCount(ss, 0, 0, 0) == 2;
  }

  lemma DeadEndTarget(l: Ledger)
    requires l.periods == map[0 := Closed, 2 := Closed, 1 := Closed]
    ensures ResolveTarget(l, 0, 0) == (l, 2)
  {
    assert OpenAfter(l, 0) == {};
  }

  lemma SecondLessonDelta(l: Ledger, id: InvoiceId)
    requires l.sessions == [Session(0, PRESENT), Session(0, PRESENT)] && l.adjustments == []
    requires id < |l.invoices| && l.invoices[id] == BILL
    ensures Delta(l, id, 0, {0}) == 100 && Carried(l, 0, 0) == 0
  {
    MoreLessons(l);
    assert LineIndex([LESSON], 0).Some?;
  }

  /** A posting on a void row is owed nowhere. */
  lemma PostOnVoid(l: Ledger, id: InvoiceId, d: int, sid: SessionId, q: Month)
    requires UniqueInvoices(l.invoices) && id < |l.invoices| && l.invoices[id].status == Void
    ensures Owed(PostAdjustment(l, id, d, Some(sid)), q, l.invoices[id].student) == Owed(l, q, l.invoices[id].student)
  {
    var k, st := PostAdjustment(l, id, d, Some(sid)), l.invoices[id].student;
    RowAfterReplace(l, id, k.invoices[id], q, st);
    FindUnique(l.invoices, id);
    OwedByRow(l, q, st);
    OwedByRow(k, q, st);
  }

  lemma PostOnVoidAnywhere(l: Ledger, id: InvoiceId, k: Ledger)
    requires UniqueInvoices(l.invoices) && id < |l.invoices| && l.invoices[id].status == Void
    requires l.invoices[id].student == 0 && k == PostAdjustment(l, id, 100, Some(1))
    ensures forall q: Month :: Owed(k, q, 0) == Owed(l, q, 0)
  {
    forall q: Month | true ensures Owed(k, q, 0) == Owed(l, q, 0) { PostOnVoid(l, id, 100, 1, q); }
  }

  lemma CarryIsPosted(l: Ledger, id: InvoiceId)
    requires Inv(l) && l.sessions == [Session(0, PRESENT), Session(0, PRESENT)] && DeadEnd(l)
    requires Find(l.invoices, 2, 0) == Some(id)
    ensures ReconcileStudent(l, 1, 0, 0, {0}) == PostAdjustment(l, id, 100, Some(1))
    ensures Carried(l, 0, 0) == 0 && Carried(ReconcileStudent(l, 1, 0, 0, {0}), 0, 0) == 100
  {
    SecondLessonDelta(l, Find(l.invoices, 0, 0).value);
    DeadEndTarget(l);
    assert PRESENT[0].enrollment == 0;
    CarriedAfterStudent(l, 1, 0, 0, {0}, 0, 0);
  }

  /** From l to k a carry of 100 out of month 0 is posted, and the student owes no more anywhere. */
  ghost predicate CarriedForNothing(l: Ledger, k: Ledger) {
    && Carried(l, 0, 0) == 0 && Carried(k, 0, 0) == 100
    && forall q: Month :: Owed(k, q, 0) == Owed(l, q, 0)
  }

  /** A second lesson of the closed month is reconciled: its carry lands on the void bill of month
      2, counts as carried from then on, and is owed in no month. */
  lemma CarryOnClosedMonth(l: Ledger, k: Ledger)
    requires Inv(l) && l.sessions == [Session(0, PRESENT), Session(0, PRESENT)] && DeadEnd(l)
    requires k == ReconcileStudent(l, 1, 0, 0, {0})
    ensures CarriedForNothing(l, k)
  {
    var id := Find(l.invoices, 2, 0).value;
    CarryIsPosted(l, id);
    PostOnVoidAnywhere(l, id, k);
  }

  lemma SecondLesson(l: Ledger)
    requires Inv(l) && l.sessions == BILLED.sessions && DeadEnd(l)
    ensures var k := Step(Step(l, OpAddSession(0)), OpCommit(1, PRESENT));
      Inv(k) && k.sessions == [Session(0, PRESENT), Session(0, PRESENT)] && DeadEnd(k)
  {
    assert SheetFits(l, l.sessions[0].sheet);
    StepKeeps(l, OpAddSession(0));
    StepKeeps(Step(l, OpAddSession(0)), OpCommit(1, PRESENT));
  }

  /** Such a ledger is reached from the empty one. */
  lemma CarryOnClosedMonthExample() returns (ops: seq<Op>)
    ensures CarriedForNothing(Run(EMPTY, ops), Run(EMPTY, ops + [OpReconcile(1, 0, {0})]))
  {
    var before := DeadEndIsReached();
    ops := before + [OpAddSession(0)] + [OpCommit(1, PRESENT)];
    RunSnoc(EMPTY, before, OpAddSession(0));
    RunSnoc(EMPTY, before + [OpAddSession(0)], OpCommit(1, PRESENT));
    RunSnoc(EMPTY, ops, OpReconcile(1, 0, {0}));
    SecondLesson(Run(EMPTY, before));
    DeadEndCarry(Run(EMPTY, ops), Run(EMPTY, ops + [OpReconcile(1, 0, {0})]));
  }

  lemma StepIsVisit(l: Ledger, sid: SessionId, roster: set<EnrollmentId>)
    requires sid < |l.sessions| && l.sessions[sid] == Session(0, PRESENT) && IsClosed(l, 0)
    ensures Step(l, OpReconcile(sid, 0, roster)) == ReconcileStudent(l, sid, 0, 0, roster)
  {
    OneStudentSheet(l, sid, roster);
  }

  lemma DeadEndCarry(l: Ledger, k: Ledger)
    requires Inv(l) && l.sessions == [Session(0, PRESENT), Session(0, PRESENT)] && DeadEnd(l)
    requires k == Step(l, OpReconcile(1, 0, {0}))
    ensures CarriedForNothing(l, k)
  {
    StepIsVisit(l, 1, {0});
    CarryOnClosedMonth(l, k);
  }

  lemma FirstTwo(ids: seq<nat>)
    requires Ascending(ids) && |ids| > 1
    ensures ids[0] < ids[1]
  {
  }

  lemma OnlyZero(ids: seq<nat>)
    requires Ascending(ids) && forall x :: x in ids <==> x == 0
    ensures ids == [0]
  {
    assert 0 in ids;
    forall i | 0 <= i < |ids| ensures ids[i] == 0 { assert ids[i] in ids; }
    if |ids| > 1 { FirstTwo(ids); }
  }

  lemma OneStudentSheet(l: Ledger, sid: SessionId, roster: set<EnrollmentId>)
    requires sid < |l.sessions| && l.sessions[sid] == Session(0, PRESENT) && IsClosed(l, 0)
    ensures ReconcileSession(l, sid, 0, roster) == ReconcileStudent(l, sid, 0, 0, roster)
  {
    OnlyZero(SortedIds(l.sessions[sid].sheet.Keys));
    VisitOne(l, sid, 0, 0, roster);
  }

  lemma VisitOne(l: Ledger, sid: SessionId, st: StudentId, today: Month, roster: set<EnrollmentId>)
    requires sid < |l.sessions| && st in l.sessions[sid].sheet
    ensures ReconcileAll(l, sid, [st], today, roster) == ReconcileStudent(l, sid, st, today, roster)
  {
    assert [st][..0] == [];
    assert ReconcileAll(l, sid, [st][..0], today, roster) == l;
  }
}
