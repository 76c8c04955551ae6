/** Billing and payments derive an invoice's status by two rules; when the stored statuses stay the
    ones billing derives. */
module InvoiceStatuses {
  import opened Options
  import opened Ids
  import opened InvoiceCalculator
  import opened Ledgers
  import opened LedgerInvariants
  import opened LedgerSteps
  import opened PeriodClose
  import opened Reconciliation
  import opened CarryRuns

  /** The two rules agree on a billed row exactly when nothing is paid or something is due. */
  lemma RulesAgreeIff(current: InvoiceStatus, paid: nat, totalDue: int)
    requires current != Draft && current != Void
    ensures PaymentStatus(paid, totalDue) == DeriveStatus(current, paid, totalDue) <==> paid == 0 || totalDue > 0
  {
  }

  /** A payment leaves its row with the status billing derives exactly when it leaves nothing paid or
      something is due. */
  lemma PaymentLeavesDerivedIff(l: Ledger, id: InvoiceId, paid: nat)
    requires SetPaid(l, id, paid).Ok?
    ensures Derived(SetPaid(l, id, paid).value.invoices[id]) <==> paid == 0 || l.invoices[id].totalDue > 0
  {
    RulesAgreeIff(PaymentStatus(paid, l.invoices[id].totalDue), paid, l.invoices[id].totalDue);
  }

  ghost predicate AllDerived(l: Ledger) {
    forall i :: 0 <= i < |l.invoices| ==> Derived(l.invoices[i])
  }

  /** Read off the ledger before the call. */
  predicate KeepsDerived(l: Ledger, op: Op) {
    op.OpSetPaid? && SetPaid(l, op.id, op.paidAmount).Ok? ==> op.paidAmount == 0 || l.invoices[op.id].totalDue > 0
  }

  /** Every row of k is one of l's, is not billed, or is issued with nothing paid. */
  ghost predicate RowsOldOrUnpaid(l: Ledger, k: Ledger) {
    forall i :: 0 <= i < |k.invoices| ==>
      (i < |l.invoices| && k.invoices[i] == l.invoices[i]) || k.invoices[i].status in {Draft, Void}
      || (k.invoices[i].status == Issued && k.invoices[i].paid == 0)
  }

  lemma OldOrUnpaidDerived(l: Ledger, k: Ledger)
    requires AllDerived(l) && RowsOldOrUnpaid(l, k)
    ensures AllDerived(k)
  {
  }

  lemma DraftDerived(l: Ledger, m: Month)
    requires Inv(l) && AllDerived(l) && DraftPeriod(l, m).Ok?
    ensures AllDerived(DraftPeriod(l, m).value)
  {
    var k := DraftPeriod(l, m).value;
    DraftComputedKeeps(l, m);
    DraftAllTouchesOnlyInvoices(l, m, ComputePeriod(l, m));
    forall i | 0 <= i < |k.invoices|
      ensures (i < |l.invoices| && k.invoices[i] == l.invoices[i]) || k.invoices[i].status == Draft
    {
      assert InvoiceOk(k, i);
      if k.invoices[i].month != m { OtherMonthDrafted(l, m, ComputePeriod(l, m), i); }
    }
    OldOrUnpaidDerived(l, k);
  }

  lemma CloseDerived(l: Ledger, m: Month, unconfirmed: bool)
    requires Inv(l) && AllDerived(l) && ClosePeriod(l, m, unconfirmed).Ok?
    ensures AllDerived(ClosePeriod(l, m, unconfirmed).value.0)
  {
    var k := ClosePeriod(l, m, unconfirmed).value.0;
    var drafted := DraftAll(l, m, ComputePeriod(l, m));
    DraftComputedKeeps(l, m);
    DraftAllTouchesOnlyInvoices(l, m, ComputePeriod(l, m));
    forall i | 0 <= i < |k.invoices|
      ensures (i < |l.invoices| && k.invoices[i] == l.invoices[i]) || k.invoices[i].status == Void
        || (k.invoices[i].status == Issued && k.invoices[i].paid == 0)
    {
      assert InvoiceOk(drafted, i);
      if k.invoices[i].month == m {
        CloseLeavesNoOtherRow(l, m, unconfirmed, i);
      } else {
        OtherMonthRow(l, m, unconfirmed, i);
      }
    }
    OldOrUnpaidDerived(l, k);
  }

  lemma PostDerived(l: Ledger, id: InvoiceId, amount: int, source: Option<SessionId>)
    requires AllDerived(l) && id < |l.invoices|
    ensures AllDerived(PostAdjustment(l, id, amount, source))
  {
  }

  lemma StudentDerived(l: Ledger, sid: SessionId, st: StudentId, today: Month, roster: set<EnrollmentId>)
    requires AllDerived(l) && sid < |l.sessions| && st in l.sessions[sid].sheet
    ensures AllDerived(ReconcileStudent(l, sid, st, today, roster))
  {
    var m := l.sessions[sid].month;
    if ReconcileStudent(l, sid, st, today, roster) != l {
      var (l1, id) := EnsureTarget(l, m, today, st);
      ResolveTouchesPeriodsOnly(l, m, today);
      assert AllDerived(l1);
      var d := Delta(l, Find(l.invoices, m, st).value, l.sessions[sid].sheet[st].enrollment, roster);
      PostDerived(l1, id, d, Some(sid));
    }
  }

  lemma {:induction false} AllStudentsDerived(l: Ledger, sid: SessionId, students: seq<StudentId>, today: Month,
      roster: set<EnrollmentId>)
    requires AllDerived(l) && sid < |l.sessions| && forall st :: st in students ==> st in l.sessions[sid].sheet
    ensures AllDerived(ReconcileAll(l, sid, students, today, roster))
  {
    var n := |students|;
    if n == 0 {
    } else {
      AllStudentsDerived(l, sid, students[..n-1], today, roster);
      StudentDerived(ReconcileAll(l, sid, students[..n-1], today, roster), sid, students[n-1], today, roster);
    }
  }

  lemma ReconcileDerived(l: Ledger, sid: SessionId, today: Month, roster: set<EnrollmentId>)
    requires AllDerived(l)
    ensures AllDerived(ReconcileSession(l, sid, today, roster))
  {
    if sid < |l.sessions| && IsClosed(l, l.sessions[sid].month) {
      AllStudentsDerived(l, sid, SortedIds(l.sessions[sid].sheet.Keys), today, roster);
    }
  }

  lemma PaidDerivedIff(l: Ledger, id: InvoiceId, paid: nat)
    requires AllDerived(l) && SetPaid(l, id, paid).Ok?
    ensures AllDerived(SetPaid(l, id, paid).value) <==> paid == 0 || l.invoices[id].totalDue > 0
  {
    var k := SetPaid(l, id, paid).value;
    PaymentLeavesDerivedIff(l, id, paid);
    if Derived(k.invoices[id]) {
      forall i | 0 <= i < |k.invoices| ensures Derived(k.invoices[i]) {
        if i != id { assert k.invoices[i] == l.invoices[i]; }
      }
    }
  }

  /** Any call on a ledger whose statuses are the derived ones leaves them derived unless it is a
      payment that leaves something paid on a row with nothing due. */
  lemma StepDerivedIff(l: Ledger, op: Op)
    requires Inv(l) && AllDerived(l)
    ensures AllDerived(Step(l, op)) <==> KeepsDerived(l, op)
  {
    match op
    case OpSetPaid(id, paid) => if SetPaid(l, id, paid).Ok? { PaidDerivedIff(l, id, paid); }
    case OpDraft(m) => if DraftPeriod(l, m).Ok? { DraftDerived(l, m); }
    case OpClose(m, unconfirmed) => if ClosePeriod(l, m, unconfirmed).Ok? { CloseDerived(l, m, unconfirmed); }
    case OpAdjust(id, amount) => if AddAdjustment(l, id, amount).Ok? { PostDerived(l, id, amount, None); }
    case OpReconcile(sid, today, roster) => ReconcileDerived(l, sid, today, roster);
    case OpConfirm(sid, sheet, today) =>
      if Confirm(l, sid, sheet, today).Ok? { ReconcileDerived(SetSheet(l, sid, sheet), sid, today, RosterOf(sheet)); }
    case _ => OldOrUnpaidDerived(l, Step(l, op));
  }

  ghost predicate DerivedThroughout(ops: seq<Op>) {
    AllDerived(Run(EMPTY, ops)) && (ops == [] || DerivedThroughout(ops[..|ops|-1]))
  }

  ghost predicate DerivedRun(ops: seq<Op>) {
    ops == [] || (DerivedRun(ops[..|ops|-1]) && KeepsDerived(Run(EMPTY, ops[..|ops|-1]), ops[|ops|-1]))
  }

  /** Over every run the statuses are the ones billing derives, at every moment, exactly when no
      payment leaves something paid on a row with nothing due. */
  lemma {:induction false} StatusesDerivedIff(ops: seq<Op>)
    ensures DerivedThroughout(ops) <==> DerivedRun(ops)
  {
    if ops == [] {
    } else {
      var before := ops[..|ops|-1];
      StatusesDerivedIff(before);
      if DerivedThroughout(before) {
        RunKeeps(EMPTY, before);
        StepDerivedIff(Run(EMPTY, before), ops[|ops|-1]);
      }
    }
  }
}
