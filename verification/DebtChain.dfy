/** Debt carried through the chain of closed months is never lost and never invented. */
module DebtChain {
  import opened Options
  import opened Ids
  import opened InvoiceCalculator
  import opened Ledgers
  import opened LedgerInvariants
  import opened LedgerSteps
  import opened PeriodClose
  import opened Reconciliation
  import opened CarryRuns

  function Opening(l: Ledger, p: Month, st: StudentId): int {
    match RowOf(l, p, st) case Some(inv) => inv.opening case None => 0
  }

  /** What the student still owes on the closed month before p. */
  function PreviouslyOwed(l: Ledger, p: Month, st: StudentId): int {
    match PreviousClosed(l, p) case Some(q) => Owed(l, q, st) case None => 0
  }

  ghost predicate Chained(l: Ledger) {
    forall p, st :: IsClosed(l, p) ==> Opening(l, p, st) == PreviouslyOwed(l, p, st)
  }

  ghost predicate VoidIsEmpty(inv: Invoice) {
    inv.status == Void ==> inv.opening == 0 && inv.charge == 0 && inv.adjustments == 0 && inv.paid == 0
  }

  /** Without voiding, the only void rows are the empty ones Close voids. */
  ghost predicate VoidsAreEmpty(l: Ledger) {
    forall i :: 0 <= i < |l.invoices| ==> VoidIsEmpty(l.invoices[i])
  }

  ghost predicate IsLatestClosed(l: Ledger, m: Month) {
    forall q: Month :: IsClosed(l, q) ==> q <= m
  }

  ghost predicate CarryLandsOpen(l: Ledger, p: Month, today: Month) {
    OpenAfter(l, p) != {} || !IsClosed(l, Candidate(p, today)) || !IsClosed(l, Candidate(p, today) + 1)
  }

  /** Months are closed in calendar order, money moves only on the latest closed month or on
      open ones, nothing closed is voided, and carries find an open month. */
  ghost predicate Orderly(l: Ledger, op: Op) {
    match op
    case OpClose(m, _) => forall q: Month :: IsClosed(l, q) ==> q < m
    case OpSetPaid(id, _) => id < |l.invoices| ==> IsLatestClosed(l, l.invoices[id].month)
    case OpAdjust(id, _) =>
      id < |l.invoices| && IsClosed(l, l.invoices[id].month) ==> IsLatestClosed(l, l.invoices[id].month)
    case OpVoid(id) => id >= |l.invoices|
    case OpConfirm(sid, _, today) =>
      sid < |l.sessions| && IsClosed(l, l.sessions[sid].month) ==> CarryLandsOpen(l, l.sessions[sid].month, today)
    case OpReconcile(sid, today, _) =>
      sid < |l.sessions| && IsClosed(l, l.sessions[sid].month) ==> CarryLandsOpen(l, l.sessions[sid].month, today)
    case _ => true
  }

  // ----- frames -----------------------------------------------------------

  lemma PreviousSame(l: Ledger, k: Ledger, p: Month)
    requires forall q: Month :: q < p ==> (IsClosed(k, q) <==> IsClosed(l, q))
    ensures PreviousClosed(k, p) == PreviousClosed(l, p)
  {
    assert ClosedBefore(k, p) == ClosedBefore(l, p);
  }

  lemma PreviousIsClosed(l: Ledger, p: Month)
    ensures match PreviousClosed(l, p) { case Some(q) => IsClosed(l, q) && q < p case None => true }
  {
  }

  /** Same closed months, same openings, and same debts on all but the latest closed month. */
  lemma ChainFrame(l: Ledger, k: Ledger)
    requires Chained(l)
    requires forall q :: IsClosed(k, q) <==> IsClosed(l, q)
    requires forall p, st :: IsClosed(l, p) ==> Opening(k, p, st) == Opening(l, p, st)
    requires forall q, st :: IsClosed(l, q) && !IsLatestClosed(l, q) ==> Owed(k, q, st) == Owed(l, q, st)
    ensures Chained(k)
  {
    forall p, st | IsClosed(k, p) ensures Opening(k, p, st) == PreviouslyOwed(k, p, st) {
      PreviousSame(l, k, p);
      PreviousIsClosed(l, p);
      assert Opening(l, p, st) == PreviouslyOwed(l, p, st);
    }
  }

  lemma OwedByRow(l: Ledger, q: Month, st: StudentId)
    ensures Owed(l, q, st) == match RowOf(l, q, st) {
      case Some(inv) => if inv.status == Void then 0 else Outstanding(inv)
      case None => 0 }
  {
  }

  lemma ChainFrameRows(l: Ledger, k: Ledger)
    requires Chained(l)
    requires forall q :: IsClosed(k, q) <==> IsClosed(l, q)
    requires forall p, st :: IsClosed(l, p) ==> RowOf(k, p, st) == RowOf(l, p, st)
    ensures Chained(k)
  {
    forall q, st | IsClosed(l, q) ensures Owed(k, q, st) == Owed(l, q, st) && Opening(k, q, st) == Opening(l, q, st) {
      assert RowOf(k, q, st) == RowOf(l, q, st);
      OwedByRow(l, q, st);
      OwedByRow(k, q, st);
    }
    ChainFrame(l, k);
  }

  lemma RowAfterReplace(l: Ledger, id: nat, inv: Invoice, p: Month, st: StudentId)
    requires UniqueInvoices(l.invoices) && id < |l.invoices|
    requires inv.month == l.invoices[id].month && inv.student == l.invoices[id].student
    ensures RowOf(l.(invoices := l.invoices[id := inv]), p, st) ==
      if p == inv.month && st == inv.student then Some(inv) else RowOf(l, p, st)
  {
    FindReplace(l.invoices, id, inv, p, st);
    FindUnique(l.invoices, id);
  }

  /** One row of the latest closed month, or of a month not closed, changes but keeps its opening. */
  lemma ChainAfterReplace(l: Ledger, id: nat, inv: Invoice, k: Ledger)
    requires Chained(l) && UniqueInvoices(l.invoices) && id < |l.invoices|
    requires inv.month == l.invoices[id].month && inv.student == l.invoices[id].student &&
      inv.opening == l.invoices[id].opening
    requires !IsClosed(l, inv.month) || IsLatestClosed(l, inv.month)
    requires k.invoices == l.invoices[id := inv] && k.periods == l.periods
    ensures Chained(k)
  {
    forall p, st | IsClosed(l, p) ensures Opening(k, p, st) == Opening(l, p, st) {
      RowAfterReplace(l, id, inv, p, st);
      FindUnique(l.invoices, id);
    }
    forall q, st | IsClosed(l, q) && !IsLatestClosed(l, q) ensures Owed(k, q, st) == Owed(l, q, st) {
      RowAfterReplace(l, id, inv, q, st);
      OwedByRow(l, q, st);
      OwedByRow(k, q, st);
    }
    ChainFrame(l, k);
  }

  // ----- closing ----------------------------------------------------------

  /** The computed opening is exactly the debt left on the previous closed month, and a
      student who is not computed owed nothing there. */
  lemma ComputedOpening(l: Ledger, m: Month, st: StudentId)
    requires UniqueInvoices(l.invoices)
    ensures OrZero(OpeningBalances(l, m), st) == PreviouslyOwed(l, m, st)
    ensures !Computes(ComputePeriod(l, m), st) ==> PreviouslyOwed(l, m, st) == 0
  {
    match PreviousClosed(l, m)
    case None =>
    case Some(q) =>
      DebtorsByRow(l, q, st);
      OwedByRow(l, q, st);
      if PreviouslyOwed(l, m, st) != 0 {
        assert st in OpeningBalances(l, m);
        OpeningIsComputed(l, m, st);
      }
  }

  lemma OpeningIsComputed(l: Ledger, m: Month, st: StudentId)
    requires st in OpeningBalances(l, m)
    ensures Computes(ComputePeriod(l, m), st)
  {
    var ts, op, adj := TallyAttendance(l, m), OpeningBalances(l, m), AdjustmentsByStudent(l, m);
    var order := BillingOrder(ts, op, adj);
    BillingOrderMembers(ts, op, adj, st);
    var j :| 0 <= j < |order| && order[j] == st;
    assert ComputePeriod(l, m)[j].student == st;
  }

  lemma ClosedOpening(l: Ledger, m: Month, unconfirmed: bool, st: StudentId)
    requires Inv(l) && ClosePeriod(l, m, unconfirmed).Ok?
    ensures Opening(ClosePeriod(l, m, unconfirmed).value.0, m, st) == PreviouslyOwed(l, m, st)
  {
    var cs := ComputePeriod(l, m);
    var k := ClosePeriod(l, m, unconfirmed).value.0;
    ComputedOpening(l, m, st);
    if Computes(cs, st) {
      var j :| 0 <= j < |cs| && cs[j].student == st;
      CloseWritesPreview(l, m, unconfirmed, j);
    } else if RowOf(k, m, st).Some? {
      CloseLeavesNoOtherRow(l, m, unconfirmed, Find(k.invoices, m, st).value);
      assert false;
    }
  }

  lemma ClosedOtherRows(l: Ledger, m: Month, unconfirmed: bool, q: Month, st: StudentId)
    requires Inv(l) && ClosePeriod(l, m, unconfirmed).Ok? && q != m
    ensures RowOf(ClosePeriod(l, m, unconfirmed).value.0, q, st) == RowOf(l, q, st)
  {
    var cs := ComputePeriod(l, m);
    DraftAllOthers(l, m, cs, q, st);
    SettledRow(DraftAll(l, m, cs), ClosePeriod(l, m, unconfirmed).value.0, m, q, st);
  }

  lemma CloseChains(l: Ledger, m: Month, unconfirmed: bool)
    requires Inv(l) && Chained(l) && ClosePeriod(l, m, unconfirmed).Ok?
    requires forall q: Month :: IsClosed(l, q) ==> q < m
    ensures Chained(ClosePeriod(l, m, unconfirmed).value.0)
  {
    var k := ClosePeriod(l, m, unconfirmed).value.0;
    CloseCarries(l, m, unconfirmed);
    forall p, st | IsClosed(k, p) ensures Opening(k, p, st) == PreviouslyOwed(k, p, st) {
      PreviousSame(l, k, p);
      PreviousIsClosed(l, p);
      match PreviousClosed(l, p) {
        case Some(q) =>
          ClosedOtherRows(l, m, unconfirmed, q, st);
          OwedByRow(l, q, st);
          OwedByRow(k, q, st);
        case None =>
      }
      if p == m {
        ClosedOpening(l, m, unconfirmed, st);
      } else {
        ClosedOtherRows(l, m, unconfirmed, p, st);
        assert Opening(l, p, st) == PreviouslyOwed(l, p, st);
      }
    }
  }

  lemma DraftedRowIsDraft(l: Ledger, m: Month, i: nat)
    requires Inv(l) && IsOpen(l, m)
    requires i < |DraftAll(l, m, ComputePeriod(l, m)).invoices|
    requires DraftAll(l, m, ComputePeriod(l, m)).invoices[i].month == m
    ensures DraftAll(l, m, ComputePeriod(l, m)).invoices[i].status == Draft
    ensures DraftAll(l, m, ComputePeriod(l, m)).invoices[i].paid == 0
  {
    DraftComputedKeeps(l, m);
    DraftAllTouchesOnlyInvoices(l, m, ComputePeriod(l, m));
    assert InvoiceOk(DraftAll(l, m, ComputePeriod(l, m)), i);
  }

  lemma CloseVoidsEmpty(l: Ledger, m: Month, unconfirmed: bool)
    requires Inv(l) && VoidsAreEmpty(l) && ClosePeriod(l, m, unconfirmed).Ok?
    ensures VoidsAreEmpty(ClosePeriod(l, m, unconfirmed).value.0)
  {
    var k := ClosePeriod(l, m, unconfirmed).value.0;
    forall i | 0 <= i < |k.invoices| ensures VoidIsEmpty(k.invoices[i]) {
      if k.invoices[i].month == m { DraftedRowIsDraft(l, m, i); } else { OtherMonthRow(l, m, unconfirmed, i); }
    }
  }

  // ----- drafting ---------------------------------------------------------

  lemma DraftChains(l: Ledger, m: Month)
    requires Inv(l) && Chained(l) && VoidsAreEmpty(l) && DraftPeriod(l, m).Ok?
    ensures Chained(DraftPeriod(l, m).value) && VoidsAreEmpty(DraftPeriod(l, m).value)
  {
    var cs := ComputePeriod(l, m);
    var k := DraftAll(l, m, cs);
    DraftComputedKeeps(l, m);
    DraftAllTouchesOnlyInvoices(l, m, cs);
    forall p, st | IsClosed(l, p) ensures RowOf(k, p, st) == RowOf(l, p, st) { DraftAllOthers(l, m, cs, p, st); }
    ChainFrameRows(l, k);
    forall i | 0 <= i < |k.invoices| ensures VoidIsEmpty(k.invoices[i]) {
      assert InvoiceOk(k, i);
      if k.invoices[i].month != m { OtherMonthDrafted(l, m, cs, i); }
    }
  }

  // ----- reconciling ------------------------------------------------------

  /** Closed months, closed rows and void rows all stay as they are. */
  ghost predicate ClosedKept(l: Ledger, k: Ledger) {
    && (forall q :: IsClosed(k, q) <==> IsClosed(l, q))
    && (forall q :: IsOpen(l, q) ==> IsOpen(k, q))
    && (forall p, st :: IsClosed(l, p) ==> RowOf(k, p, st) == RowOf(l, p, st))
    && (VoidsAreEmpty(l) ==> VoidsAreEmpty(k))
  }

  lemma TargetStaysClosed(l: Ledger, p: Month, today: Month)
    ensures forall q :: IsClosed(ResolveTarget(l, p, today).0, q) <==> IsClosed(l, q)
    ensures forall q :: IsOpen(l, q) ==> IsOpen(ResolveTarget(l, p, today).0, q)
    ensures ResolveTarget(l, p, today).0 == l.(periods := ResolveTarget(l, p, today).0.periods)
  {
  }

  lemma TargetIsOpen(l: Ledger, p: Month, today: Month, st: StudentId)
    requires Inv(l) && CarryLandsOpen(l, p, today)
    ensures var (k, id) := EnsureTarget(l, p, today, st); Inv(k) && IsOpen(k, k.invoices[id].month)
  {
    TargetOpenIff(l, p, today);
    EnsureTargetKeeps(l, p, today, st);
    EnsureTargetShape(l, p, today, st);
  }

  lemma TargetRows(l: Ledger, p: Month, today: Month, st: StudentId)
    requires CarryLandsOpen(l, p, today)
    ensures ClosedKept(l, EnsureTarget(l, p, today, st).0)
  {
    var (l1, target) := ResolveTarget(l, p, today);
    TargetStaysClosed(l, p, today);
    TargetOpenIff(l, p, today);
    forall q, x | IsClosed(l, q) ensures RowOf(EnsureTarget(l, p, today, st).0, q, x) == RowOf(l, q, x) {
      FindAppend(l.invoices, BlankInvoice(target, st), q, x);
    }
  }

  /** Replacing a row of an open month by a non-void one with the same key. */
  lemma OpenRowClosedKept(l: Ledger, id: InvoiceId, k: Ledger)
    requires UniqueInvoices(l.invoices) && id < |l.invoices| && IsOpen(l, l.invoices[id].month)
    requires |k.invoices| == |l.invoices| && k.invoices == l.invoices[id := k.invoices[id]] && k.periods == l.periods
    requires k.invoices[id].month == l.invoices[id].month && k.invoices[id].student == l.invoices[id].student
    requires k.invoices[id].status != Void
    ensures ClosedKept(l, k)
  {
    forall q, x | IsClosed(l, q) ensures RowOf(k, q, x) == RowOf(l, q, x) {
      RowAfterReplace(l, id, k.invoices[id], q, x);
    }
  }

  lemma ReconcileStudentClosedKept(l: Ledger, sid: SessionId, st: StudentId, today: Month, roster: set<EnrollmentId>)
    requires Inv(l) && sid < |l.sessions| && st in l.sessions[sid].sheet && IsClosed(l, l.sessions[sid].month)
    requires CarryLandsOpen(l, l.sessions[sid].month, today)
    ensures ClosedKept(l, ReconcileStudent(l, sid, st, today, roster))
  {
    var m := l.sessions[sid].month;
    var k := ReconcileStudent(l, sid, st, today, roster);
    if k != l {
      var (l1, id) := EnsureTarget(l, m, today, st);
      TargetRows(l, m, today, st);
      TargetIsOpen(l, m, today, st);
      assert InvoiceOk(l1, id);
      OpenRowClosedKept(l1, id, k);
      ClosedKeptTrans(l, l1, k);
    }
  }

  lemma LandsOpenKept(l: Ledger, k: Ledger, p: Month, today: Month)
    requires ClosedKept(l, k) && CarryLandsOpen(l, p, today)
    ensures CarryLandsOpen(k, p, today)
  {
    if OpenAfter(l, p) != {} {
      var q :| q in OpenAfter(l, p);
      assert q in OpenAfter(k, p);
    }
  }

  lemma ClosedKeptTrans(a: Ledger, b: Ledger, c: Ledger)
    requires ClosedKept(a, b) && ClosedKept(b, c)
    ensures ClosedKept(a, c)
  {
    forall p, st | IsClosed(a, p) ensures RowOf(c, p, st) == RowOf(a, p, st) {
      assert RowOf(b, p, st) == RowOf(a, p, st);
    }
  }

  lemma {:induction false} ReconcileAllClosedKept(l: Ledger, sid: SessionId, students: seq<StudentId>,
      today: Month, roster: set<EnrollmentId>)
    requires Inv(l) && sid < |l.sessions| && IsClosed(l, l.sessions[sid].month)
    requires CarryLandsOpen(l, l.sessions[sid].month, today)
    requires forall st :: st in students ==> st in l.sessions[sid].sheet
    ensures ClosedKept(l, ReconcileAll(l, sid, students, today, roster))
  {
    var n := |students|;
    if n == 0 {
    } else {
      var before := ReconcileAll(l, sid, students[..n-1], today, roster);
      ReconcileAllClosedKept(l, sid, students[..n-1], today, roster);
      ReconcileAllKeeps(l, sid, students[..n-1], today, roster);
      LandsOpenKept(l, before, l.sessions[sid].month, today);
      ReconcileStudentClosedKept(before, sid, students[n-1], today, roster);
      ClosedKeptTrans(l, before, ReconcileAll(l, sid, students, today, roster));
    }
  }

  lemma ReconcileChains(l: Ledger, sid: SessionId, today: Month, roster: set<EnrollmentId>)
    requires Inv(l) && Chained(l) && VoidsAreEmpty(l)
    requires sid < |l.sessions| && IsClosed(l, l.sessions[sid].month) ==>
      CarryLandsOpen(l, l.sessions[sid].month, today)
    ensures Chained(ReconcileSession(l, sid, today, roster)) && VoidsAreEmpty(ReconcileSession(l, sid, today, roster))
  {
    if sid < |l.sessions| && IsClosed(l, l.sessions[sid].month) {
      ReconcileAllClosedKept(l, sid, SortedIds(l.sessions[sid].sheet.Keys), today, roster);
      ChainFrameRows(l, ReconcileSession(l, sid, today, roster));
    }
  }

  // ----- runs -------------------------------------------------------------

  lemma NotLatestNotTouched(l: Ledger, id: InvoiceId, inv: Invoice, k: Ledger)
    requires Inv(l) && Chained(l) && VoidsAreEmpty(l) && id < |l.invoices|
    requires inv.month == l.invoices[id].month && inv.student == l.invoices[id].student &&
      inv.opening == l.invoices[id].opening
    requires inv.status != Void
    requires !IsClosed(l, inv.month) || IsLatestClosed(l, inv.month)
    requires k.invoices == l.invoices[id := inv] && k.periods == l.periods
    ensures Chained(k) && VoidsAreEmpty(k)
  {
    ChainAfterReplace(l, id, inv, k);
  }

  lemma StepChains(l: Ledger, op: Op)
    requires Inv(l) && Chained(l) && VoidsAreEmpty(l) && Orderly(l, op)
    ensures Chained(Step(l, op)) && VoidsAreEmpty(Step(l, op))
  {
    var k := Step(l, op);
    match op
    case OpClose(m, unconfirmed) =>
      if ClosePeriod(l, m, unconfirmed).Ok? { CloseChains(l, m, unconfirmed); CloseVoidsEmpty(l, m, unconfirmed); }
    case OpDraft(m) => if DraftPeriod(l, m).Ok? { DraftChains(l, m); }
    case OpCommit(sid, sheet) => ChainFrameRows(l, k);
    case OpReconcile(sid, today, roster) => ReconcileChains(l, sid, today, roster);
    case OpConfirm(sid, sheet, today) =>
      if Confirm(l, sid, sheet, today).Ok? {
        var l1 := SetSheet(l, sid, sheet);
        SetSheetKeeps(l, sid, sheet);
        ChainFrameRows(l, l1);
        assert OpenAfter(l1, l.sessions[sid].month) == OpenAfter(l, l.sessions[sid].month);
        ReconcileChains(l1, sid, today, RosterOf(sheet));
      }
    case OpAdjust(id, amount) =>
      if AddAdjustment(l, id, amount).Ok? { NotLatestNotTouched(l, id, k.invoices[id], k); }
    case OpSetPaid(id, paid) =>
      if SetPaid(l, id, paid).Ok? { NotLatestNotTouched(l, id, k.invoices[id], k); }
    case OpVoid(id) =>
    case OpEnsurePeriod(m) => ChainFrameRows(l, k);
    case OpEnroll(_) => ChainFrameRows(l, k);
    case OpReprice(_, _) => ChainFrameRows(l, k);
    case OpAddSession(_) => ChainFrameRows(l, k);
  }

  ghost predicate OrderlyRun(ops: seq<Op>) {
    var n := |ops|;
    n == 0 || (OrderlyRun(ops[..n-1]) && Orderly(Run(EMPTY, ops[..n-1]), ops[n-1]))
  }

  lemma {:induction false} OrderlyRunsChain(ops: seq<Op>)
    requires OrderlyRun(ops)
    ensures Inv(Run(EMPTY, ops)) && Chained(Run(EMPTY, ops)) && VoidsAreEmpty(Run(EMPTY, ops))
  {
    var n := |ops|;
    if n == 0 {
    } else {
      OrderlyRunsChain(ops[..n-1]);
      StepKeeps(Run(EMPTY, ops[..n-1]), ops[n-1]);
      StepChains(Run(EMPTY, ops[..n-1]), ops[n-1]);
    }
  }

  // ----- the closed form --------------------------------------------------

  /** New charges and adjustments of the month less what was paid on it. */
  function Net(l: Ledger, p: Month, st: StudentId): int {
    match RowOf(l, p, st) case Some(inv) => inv.charge + inv.adjustments - inv.paid case None => 0
  }

  function NonNegative(x: int): int { if x < 0 then 0 else x }

  lemma DebtRecurrence(l: Ledger, p: Month, st: StudentId)
    requires Inv(l) && Chained(l) && VoidsAreEmpty(l) && IsClosed(l, p)
    ensures Owed(l, p, st) == NonNegative(PreviouslyOwed(l, p, st) + Net(l, p, st))
  {
    assert Opening(l, p, st) == PreviouslyOwed(l, p, st);
    match Find(l.invoices, p, st)
    case Some(i) => assert InvoiceOk(l, i);
    case None =>
  }

  /** The student's debt after each amount in turn, never below zero. */
  function Debt(xs: seq<int>): int {
    var n := |xs|;
    if n == 0 then 0 else NonNegative(Debt(xs[..n-1]) + xs[n-1])
  }

  function SumFrom(xs: seq<int>, k: nat): int
    requires k <= |xs|
  {
    var n := |xs|;
    if k == n then 0 else SumFrom(xs[..n-1], k) + xs[n-1]
  }

  /** The running debt is the largest of zero and all suffix sums. */
  lemma {:induction false} DebtIsLargestSuffix(xs: seq<int>)
    ensures forall k :: 0 <= k <= |xs| ==> SumFrom(xs, k) <= Debt(xs)
    ensures exists k :: 0 <= k <= |xs| && SumFrom(xs, k) == Debt(xs)
  {
    var n := |xs|;
    if n == 0 {
      assert SumFrom(xs, 0) == Debt(xs);
    } else {
      DebtIsLargestSuffix(xs[..n-1]);
      var k :| 0 <= k <= n - 1 && SumFrom(xs[..n-1], k) == Debt(xs[..n-1]);
      assert SumFrom(xs, k) == SumFrom(xs[..n-1], k) + xs[n-1];
      assert SumFrom(xs, n) == 0;
      forall j | 0 <= j <= n ensures SumFrom(xs, j) <= Debt(xs) {
        if j < n { assert SumFrom(xs[..n-1], j) <= Debt(xs[..n-1]); }
      }
      assert SumFrom(xs, k) == Debt(xs) || SumFrom(xs, n) == Debt(xs);
    }
  }

  function ClosedMonths(l: Ledger): seq<Month> {
    SortedIds(set q | q in l.periods.Keys && IsClosed(l, q))
  }

  function Nets(l: Ledger, months: seq<Month>, st: StudentId): (r: seq<int>)
    ensures |r| == |months|
  {
    seq(|months|, i requires 0 <= i < |months| => Net(l, months[i], st))
  }

  lemma PreviousInOrder(l: Ledger, j: nat)
    requires j < |ClosedMonths(l)|
    ensures IsClosed(l, ClosedMonths(l)[j])
    ensures PreviousClosed(l, ClosedMonths(l)[j]) == if j == 0 then None else Some(ClosedMonths(l)[j-1])
  {
    var months := ClosedMonths(l);
    assert forall i :: 0 <= i < |months| ==> months[i] in months;
    var p := months[j];
    forall q | q in ClosedBefore(l, p) ensures j > 0 && q <= months[j-1] {
      assert q in months;
      var i :| 0 <= i < |months| && months[i] == q;
    }
    if j > 0 { assert months[j-1] in ClosedBefore(l, p); }
  }

  lemma {:induction false} DebtOfClosedMonths(l: Ledger, st: StudentId, j: nat)
    requires Inv(l) && Chained(l) && VoidsAreEmpty(l) && j < |ClosedMonths(l)|
    ensures Owed(l, ClosedMonths(l)[j], st) == Debt(Nets(l, ClosedMonths(l)[..j+1], st))
  {
    var months := ClosedMonths(l);
    var xs := Nets(l, months[..j+1], st);
    PreviousInOrder(l, j);
    DebtRecurrence(l, months[j], st);
    assert xs[..j] == Nets(l, months[..j], st);
    if j == 0 {
    } else {
      DebtOfClosedMonths(l, st, j - 1);
    }
  }

  /** After any orderly run, what a student owes on a closed month is zero or the largest
      suffix sum of (charge + adjustments - paid) over the closed months up to it. */
  lemma DebtIsConserved(ops: seq<Op>, st: StudentId, j: nat)
    requires OrderlyRun(ops) && j < |ClosedMonths(Run(EMPTY, ops))|
    ensures var l := Run(EMPTY, ops);
      var xs := Nets(l, ClosedMonths(l)[..j+1], st);
      && (forall k :: 0 <= k <= |xs| ==> SumFrom(xs, k) <= Owed(l, ClosedMonths(l)[j], st))
      && (exists k :: 0 <= k <= |xs| && SumFrom(xs, k) == Owed(l, ClosedMonths(l)[j], st))
  {
    OrderlyRunsChain(ops);
    var l := Run(EMPTY, ops);
    DebtOfClosedMonths(l, st, j);
    DebtIsLargestSuffix(Nets(l, ClosedMonths(l)[..j+1], st));
  }

  /** A debtor has a live invoice in the next closed month, attendance or not, and it opens
      with exactly the debt left behind. */
  lemma DebtorIsAlwaysBilled(ops: seq<Op>, p: Month, st: StudentId)
    requires OrderlyRun(ops) && IsClosed(Run(EMPTY, ops), p)
    requires PreviouslyOwed(Run(EMPTY, ops), p, st) > 0
    ensures Billed(Run(EMPTY, ops), p, st)
    ensures Opening(Run(EMPTY, ops), p, st) == PreviouslyOwed(Run(EMPTY, ops), p, st)
  {
    OrderlyRunsChain(ops);
    var l := Run(EMPTY, ops);
    assert Opening(l, p, st) == PreviouslyOwed(l, p, st);
  }

  /** A payment recorded on a month after the next one was closed comes too late for that month's
      opening: the chain stays intact exactly when the paid amount does not change, or the month
      was fully paid before and stays so. */
  lemma LatePaymentKeepsDebtIff(l: Ledger, id: nat, paid: nat, p: Month)
    requires Inv(l) && Chained(l) && SetPaid(l, id, paid).Ok?
    requires IsClosed(l, p) && PreviousClosed(l, p) == Some(l.invoices[id].month)
    ensures var k := SetPaid(l, id, paid).value;
      var st := l.invoices[id].student;
      Opening(k, p, st) == PreviouslyOwed(k, p, st) <==>
        paid == l.invoices[id].paid ||
          (paid >= l.invoices[id].totalDue && l.invoices[id].paid >= l.invoices[id].totalDue)
  {
    var k := SetPaid(l, id, paid).value;
    var q, st := l.invoices[id].month, l.invoices[id].student;
    PreviousIsClosed(l, p);
    PreviousSame(l, k, p);
    RowAfterReplace(l, id, k.invoices[id], q, st);
    RowAfterReplace(l, id, k.invoices[id], p, st);
    FindUnique(l.invoices, id);
    OwedByRow(l, q, st);
    OwedByRow(k, q, st);
    assert Opening(l, p, st) == PreviouslyOwed(l, p, st);
  }
}
