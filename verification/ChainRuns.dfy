/** The chain of debts over any run: exactly which calls leave every closed month opening with what
    the closed month before it is owed. */
module ChainRuns {
  import opened Options
  import opened Ids
  import opened InvoiceCalculator
  import opened Ledgers
  import opened LedgerInvariants
  import opened LedgerSteps
  import opened PeriodClose
  import opened Reconciliation
  import opened CarryRuns
  import opened DebtChain

  /** The month is closed and a later one is closed too: its debt is already some opening. */
  ghost predicate Superseded(l: Ledger, q: Month) { IsClosed(l, q) && !IsLatestClosed(l, q) }

  lemma NextClosedAfter(l: Ledger, q: Month) returns (p: Month)
    requires Superseded(l, q)
    ensures IsClosed(l, p) && PreviousClosed(l, p) == Some(q)
  {
    var later := set k | k in l.periods.Keys && IsClosed(l, k) && q < k;
    var r: Month :| IsClosed(l, r) && r > q;
    assert r in later;
    p := Min(later);
    assert q in ClosedBefore(l, p);
    forall k | k in ClosedBefore(l, p) ensures k <= q {
      assert k > q ==> k in later;
    }
  }

  ghost predicate SameOpenings(l: Ledger, k: Ledger) {
    && (forall q: Month :: IsClosed(k, q) <==> IsClosed(l, q))
    && forall p: Month, st: StudentId :: IsClosed(l, p) ==> Opening(k, p, st) == Opening(l, p, st)
  }

  /** Nobody's debt on a superseded month changes. */
  ghost predicate DebtsKept(l: Ledger, k: Ledger) {
    forall q: Month, st: StudentId :: Superseded(l, q) ==> Owed(k, q, st) == Owed(l, q, st)
  }

  lemma PreviousSuperseded(l: Ledger, p: Month)
    requires IsClosed(l, p) && PreviousClosed(l, p).Some?
    ensures Superseded(l, PreviousClosed(l, p).value)
  {
    PreviousIsClosed(l, p);
  }

  lemma ChainedIff(l: Ledger, k: Ledger)
    requires Chained(l) && SameOpenings(l, k)
    ensures Chained(k) <==> DebtsKept(l, k)
  {
    if DebtsKept(l, k) {
      forall p, st | IsClosed(k, p) ensures Opening(k, p, st) == PreviouslyOwed(k, p, st) {
        PreviousSame(l, k, p);
        if PreviousClosed(l, p).Some? { PreviousSuperseded(l, p); }
        assert Opening(l, p, st) == PreviouslyOwed(l, p, st);
      }
    }
    if Chained(k) {
      forall q: Month, st: StudentId | Superseded(l, q) ensures Owed(k, q, st) == Owed(l, q, st) {
        var p := NextClosedAfter(l, q);
        PreviousSame(l, k, p);
        assert Opening(l, p, st) == PreviouslyOwed(l, p, st) && Opening(k, p, st) == PreviouslyOwed(k, p, st);
      }
    }
  }

  // ----- one row ----------------------------------------------------------

  /** One row keeps its key and opening: the chain stays exactly when its month is not superseded or
      the row owes what it owed. */
  lemma ReplacedRowIff(l: Ledger, id: nat, inv: Invoice, k: Ledger)
    requires Chained(l) && UniqueInvoices(l.invoices) && id < |l.invoices|
    requires inv.month == l.invoices[id].month && inv.student == l.invoices[id].student
    requires inv.opening == l.invoices[id].opening
    requires k.invoices == l.invoices[id := inv] && k.periods == l.periods
    ensures Chained(k) <==>
      (Superseded(l, inv.month) ==> OwedOnRow(inv) == OwedOnRow(l.invoices[id]))
  {
    FindUnique(l.invoices, id);
    forall p: Month, st: StudentId | true
      ensures RowOf(k, p, st) == if p == inv.month && st == inv.student then Some(inv) else RowOf(l, p, st)
    {
      RowAfterReplace(l, id, inv, p, st);
    }
    assert SameOpenings(l, k);
    ChainedIff(l, k);
    OwedByRow(k, inv.month, inv.student);
    OwedByRow(l, inv.month, inv.student);
    forall q: Month, st: StudentId | !(q == inv.month && st == inv.student) ensures Owed(k, q, st) == Owed(l, q, st) {
      OwedByRow(k, q, st);
      OwedByRow(l, q, st);
    }
  }

  function OwedOnRow(inv: Invoice): int { if inv.status == Void then 0 else Outstanding(inv) }

  lemma PaidIff(l: Ledger, id: InvoiceId, paid: nat)
    requires Inv(l) && Chained(l) && SetPaid(l, id, paid).Ok?
    ensures Chained(SetPaid(l, id, paid).value) <==> KeepsChain(l, OpSetPaid(id, paid))
  {
    var k := SetPaid(l, id, paid).value;
    ReplacedRowIff(l, id, k.invoices[id], k);
  }

  lemma AdjustIff(l: Ledger, id: InvoiceId, amount: int)
    requires Inv(l) && Chained(l) && AddAdjustment(l, id, amount).Ok?
    ensures Chained(AddAdjustment(l, id, amount).value) <==> KeepsChain(l, OpAdjust(id, amount))
  {
    var k := AddAdjustment(l, id, amount).value;
    assert InvoiceOk(l, id);
    AdjustmentSumSnoc(l.adjustments, Adjustment(id, amount, None), id);
    ReplacedRowIff(l, id, k.invoices[id], k);
  }

  lemma VoidIff(l: Ledger, id: InvoiceId)
    requires Inv(l) && Chained(l) && VoidInvoice(l, id).Ok?
    ensures Chained(VoidInvoice(l, id).value) <==> KeepsChain(l, OpVoid(id))
  {
    var k := VoidInvoice(l, id).value;
    ReplacedRowIff(l, id, k.invoices[id], k);
  }

  // ----- closing ----------------------------------------------------------

  lemma OwedAfterClose(l: Ledger, m: Month, unconfirmed: bool, j: nat)
    requires Inv(l) && ClosePeriod(l, m, unconfirmed).Ok? && j < |ComputePeriod(l, m)|
    ensures var ci := ComputePeriod(l, m)[j];
      && Owed(ClosePeriod(l, m, unconfirmed).value.0, m, ci.student) == NonNegative(ci.totalDue)
      && PreviouslyOwed(l, m, ci.student) == ci.opening
  {
    var ci, k := ComputePeriod(l, m)[j], ClosePeriod(l, m, unconfirmed).value.0;
    CloseWritesPreview(l, m, unconfirmed, j);
    OwedByRow(k, m, ci.student);
    var i := Find(k.invoices, m, ci.student).value;
    DraftedRowIsDraft(l, m, i);
    ComputedOpening(l, m, ci.student);
  }

  lemma UnbilledAfterClose(l: Ledger, m: Month, unconfirmed: bool, st: StudentId)
    requires Inv(l) && ClosePeriod(l, m, unconfirmed).Ok? && !Computes(ComputePeriod(l, m), st)
    ensures Owed(ClosePeriod(l, m, unconfirmed).value.0, m, st) == 0 == PreviouslyOwed(l, m, st)
  {
    var k := ClosePeriod(l, m, unconfirmed).value.0;
    ComputedOpening(l, m, st);
    OwedByRow(k, m, st);
    if Find(k.invoices, m, st).Some? { CloseLeavesNoOtherRow(l, m, unconfirmed, Find(k.invoices, m, st).value); }
  }

  /** The month's computation leaves every student owing what they owed before. */
  predicate DebtUnmoved(l: Ledger, m: Month) {
    forall j :: 0 <= j < |ComputePeriod(l, m)| ==>
      NonNegative(ComputePeriod(l, m)[j].totalDue) == ComputePeriod(l, m)[j].opening
  }

  ghost predicate SameDebtAfterClose(l: Ledger, m: Month, k: Ledger) {
    forall st: StudentId :: Owed(k, m, st) == PreviouslyOwed(l, m, st)
  }

  lemma DebtUnmovedIff(l: Ledger, m: Month, unconfirmed: bool)
    requires Inv(l) && ClosePeriod(l, m, unconfirmed).Ok?
    ensures DebtUnmoved(l, m) <==> SameDebtAfterClose(l, m, ClosePeriod(l, m, unconfirmed).value.0)
  {
    var cs, k := ComputePeriod(l, m), ClosePeriod(l, m, unconfirmed).value.0;
    if DebtUnmoved(l, m) {
      forall st: StudentId | true ensures Owed(k, m, st) == PreviouslyOwed(l, m, st) {
        if Computes(cs, st) {
          var j :| 0 <= j < |cs| && cs[j].student == st;
          OwedAfterClose(l, m, unconfirmed, j);
        } else {
          UnbilledAfterClose(l, m, unconfirmed, st);
        }
      }
    }
    if SameDebtAfterClose(l, m, k) {
      forall j | 0 <= j < |cs| ensures NonNegative(cs[j].totalDue) == cs[j].opening {
        OwedAfterClose(l, m, unconfirmed, j);
      }
    }
  }

  ghost predicate ClosedLater(l: Ledger, m: Month) { exists q: Month :: IsClosed(l, q) && q > m }

  /** The first closed month after m has m before it once m is closed, and had the month before m. */
  lemma SuccessorOf(l: Ledger, m: Month, k: Ledger) returns (p: Month)
    requires ClosedLater(l, m) && !IsClosed(l, m)
    requires forall q: Month :: IsClosed(k, q) <==> IsClosed(l, q) || q == m
    ensures IsClosed(l, p) && p > m && PreviousClosed(k, p) == Some(m) && PreviousClosed(l, p) == PreviousClosed(l, m)
  {
    var later: Month :| IsClosed(l, later) && later > m;
    assert IsClosed(k, later);
    p := NextClosedAfter(k, m);
    PreviousIsClosed(k, p);
    OtherPredecessor(l, m, k, p);
  }

  lemma OtherPredecessor(l: Ledger, m: Month, k: Ledger, p: Month)
    requires !IsClosed(l, m) && forall q: Month :: IsClosed(k, q) <==> IsClosed(l, q) || q == m
    ensures PreviousClosed(k, p) == Some(m) ==> PreviousClosed(l, p) == PreviousClosed(l, m)
    ensures PreviousClosed(k, p) != Some(m) ==> PreviousClosed(k, p) == PreviousClosed(l, p)
  {
    if PreviousClosed(k, p) == Some(m) {
      assert ClosedBefore(l, p) == ClosedBefore(l, m) by {
        forall q: Month | q in ClosedBefore(l, p) ensures q < m { assert q in ClosedBefore(k, p); }
      }
    } else if m < p {
      assert m in ClosedBefore(k, p);
      assert Max(ClosedBefore(k, p)) in ClosedBefore(l, p);
      assert ClosedBefore(k, p) == ClosedBefore(l, p) + {m};
    } else {
      assert ClosedBefore(k, p) == ClosedBefore(l, p);
    }
  }

  lemma CloseKeepsOthers(l: Ledger, m: Month, unconfirmed: bool, q: Month, st: StudentId)
    requires Inv(l) && ClosePeriod(l, m, unconfirmed).Ok? && q != m
    ensures var k := ClosePeriod(l, m, unconfirmed).value.0;
      Owed(k, q, st) == Owed(l, q, st) && Opening(k, q, st) == Opening(l, q, st)
  {
    ClosedOtherRows(l, m, unconfirmed, q, st);
    OwedByRow(l, q, st);
    OwedByRow(ClosePeriod(l, m, unconfirmed).value.0, q, st);
  }

  lemma ChainLinkAfterClose(l: Ledger, m: Month, unconfirmed: bool, p: Month, st: StudentId)
    requires Inv(l) && Chained(l) && ClosePeriod(l, m, unconfirmed).Ok?
    requires p == m || IsClosed(l, p)
    ensures var k := ClosePeriod(l, m, unconfirmed).value.0;
      Opening(k, p, st) == PreviouslyOwed(k, p, st) <==>
        (PreviousClosed(k, p) == Some(m) ==> Owed(k, m, st) == PreviouslyOwed(l, m, st))
  {
    var k := ClosePeriod(l, m, unconfirmed).value.0;
    CloseCarries(l, m, unconfirmed);
    OtherPredecessor(l, m, k, p);
    PreviousIsClosed(k, p);
    PreviousIsClosed(l, m);
    if PreviousClosed(k, p).Some? && PreviousClosed(k, p).value != m {
      CloseKeepsOthers(l, m, unconfirmed, PreviousClosed(k, p).value, st);
    }
    if p == m {
      ClosedOpening(l, m, unconfirmed, st);
    } else {
      CloseKeepsOthers(l, m, unconfirmed, p, st);
      assert Opening(l, p, st) == PreviouslyOwed(l, p, st);
    }
  }

  lemma ChainedCloseUnmoved(l: Ledger, m: Month, unconfirmed: bool)
    requires Inv(l) && Chained(l) && ClosePeriod(l, m, unconfirmed).Ok? && ClosedLater(l, m)
    requires Chained(ClosePeriod(l, m, unconfirmed).value.0)
    ensures SameDebtAfterClose(l, m, ClosePeriod(l, m, unconfirmed).value.0)
  {
    var k := ClosePeriod(l, m, unconfirmed).value.0;
    CloseCarries(l, m, unconfirmed);
    var p := SuccessorOf(l, m, k);
    forall st: StudentId | true ensures Owed(k, m, st) == PreviouslyOwed(l, m, st) {
      ChainLinkAfterClose(l, m, unconfirmed, p, st);
      assert Opening(k, p, st) == PreviouslyOwed(k, p, st);
    }
  }

  lemma UnmovedCloseChained(l: Ledger, m: Month, unconfirmed: bool)
    requires Inv(l) && Chained(l) && ClosePeriod(l, m, unconfirmed).Ok?
    requires ClosedLater(l, m) ==> SameDebtAfterClose(l, m, ClosePeriod(l, m, unconfirmed).value.0)
    ensures Chained(ClosePeriod(l, m, unconfirmed).value.0)
  {
    var k := ClosePeriod(l, m, unconfirmed).value.0;
    CloseCarries(l, m, unconfirmed);
    forall p, st | IsClosed(k, p) ensures Opening(k, p, st) == PreviouslyOwed(k, p, st) {
      ChainLinkAfterClose(l, m, unconfirmed, p, st);
      PreviousIsClosed(k, p);
    }
  }

  lemma CloseIff(l: Ledger, m: Month, unconfirmed: bool)
    requires Inv(l) && Chained(l) && ClosePeriod(l, m, unconfirmed).Ok?
    ensures Chained(ClosePeriod(l, m, unconfirmed).value.0) <==> (ClosedLater(l, m) ==> DebtUnmoved(l, m))
  {
    DebtUnmovedIff(l, m, unconfirmed);
    if Chained(ClosePeriod(l, m, unconfirmed).value.0) {
      if ClosedLater(l, m) { ChainedCloseUnmoved(l, m, unconfirmed); }
    }
    if ClosedLater(l, m) ==> DebtUnmoved(l, m) { UnmovedCloseChained(l, m, unconfirmed); }
  }

  // ----- carries ----------------------------------------------------------

  lemma TargetByPeriods(l: Ledger, k: Ledger, p: Month, today: Month)
    requires k.periods == l.periods
    ensures ResolveTarget(k, p, today).1 == ResolveTarget(l, p, today).1
    ensures ResolveTarget(k, p, today).0.periods == ResolveTarget(l, p, today).0.periods
  {
    assert OpenAfter(k, p) == OpenAfter(l, p);
  }

  lemma EnsuredRows(l: Ledger, p: Month, today: Month, x: StudentId, q: Month, st: StudentId)
    ensures var (l1, id) := EnsureTarget(l, p, today, x);
      && Opening(l1, q, st) == Opening(l, q, st)
      && (st != x || q != ResolveTarget(l, p, today).1 ==> RowOf(l1, q, st) == RowOf(l, q, st))
  {
    ResolveTouchesPeriodsOnly(l, p, today);
    FindAppend(l.invoices, BlankInvoice(ResolveTarget(l, p, today).1, x), q, st);
  }

  lemma PostedRows(l: Ledger, id: InvoiceId, d: int, source: Option<SessionId>, q: Month, st: StudentId)
    requires UniqueInvoices(l.invoices) && id < |l.invoices|
    ensures var k := PostAdjustment(l, id, d, source);
      && Opening(k, q, st) == Opening(l, q, st)
      && (st != l.invoices[id].student || q != l.invoices[id].month ==> RowOf(k, q, st) == RowOf(l, q, st))
  {
    RowAfterReplace(l, id, PostAdjustment(l, id, d, source).invoices[id], q, st);
    FindUnique(l.invoices, id);
  }

  /** A visit touches the row of its own student in the target month only, and no opening. */
  lemma VisitRows(l: Ledger, sid: SessionId, x: StudentId, today: Month, roster: set<EnrollmentId>, q: Month,
      st: StudentId)
    requires Inv(l) && sid < |l.sessions| && x in l.sessions[sid].sheet && IsClosed(l, l.sessions[sid].month)
    ensures var k := ReconcileStudent(l, sid, x, today, roster);
      && Opening(k, q, st) == Opening(l, q, st)
      && (st != x || q != ResolveTarget(l, l.sessions[sid].month, today).1 ==> RowOf(k, q, st) == RowOf(l, q, st))
  {
    var m := l.sessions[sid].month;
    if ReconcileStudent(l, sid, x, today, roster) != l {
      var (l1, id) := EnsureTarget(l, m, today, x);
      var d := Delta(l, Find(l.invoices, m, x).value, l.sessions[sid].sheet[x].enrollment, roster);
      EnsureTargetKeeps(l, m, today, x);
      EnsureTargetShape(l, m, today, x);
      EnsuredRows(l, m, today, x, q, st);
      PostedRows(l1, id, d, Some(sid), q, st);
    }
  }

  /** What the student owes on the target month after the visit. */
  function OwedAfterVisit(l: Ledger, sid: SessionId, st: StudentId, today: Month, roster: set<EnrollmentId>): int
    requires sid < |l.sessions| && st in l.sessions[sid].sheet
  {
    var m := l.sessions[sid].month;
    var target := ResolveTarget(l, m, today).1;
    if !Billed(l, m, st) || LandsOnVoid(l, m, today, st) then Owed(l, target, st)
    else
      var d := Delta(l, Find(l.invoices, m, st).value, l.sessions[sid].sheet[st].enrollment, roster);
      NonNegative(DueBefore(l, target, st) + d)
  }

  lemma VisitOwed(l: Ledger, sid: SessionId, x: StudentId, today: Month, roster: set<EnrollmentId>)
    requires Inv(l) && sid < |l.sessions| && x in l.sessions[sid].sheet && IsClosed(l, l.sessions[sid].month)
    ensures Owed(ReconcileStudent(l, sid, x, today, roster), ResolveTarget(l, l.sessions[sid].month, today).1, x) ==
      OwedAfterVisit(l, sid, x, today, roster)
  {
    var m := l.sessions[sid].month;
    if Billed(l, m, x) && Delta(l, Find(l.invoices, m, x).value, l.sessions[sid].sheet[x].enrollment, roster) != 0 {
      CarryReachesDebt(l, sid, x, today, roster);
    }
  }

  lemma VisitKeepsPeriods(l: Ledger, sid: SessionId, x: StudentId, today: Month, roster: set<EnrollmentId>)
    requires sid < |l.sessions| && x in l.sessions[sid].sheet
    requires IsClosed(l, ResolveTarget(l, l.sessions[sid].month, today).1)
    ensures ReconcileStudent(l, sid, x, today, roster).periods == l.periods
  {
    ResolveKeepsClosed(l, l.sessions[sid].month, today);
  }

  lemma ResolveKeepsClosed(l: Ledger, p: Month, today: Month)
    requires IsClosed(l, ResolveTarget(l, p, today).1)
    ensures ResolveTarget(l, p, today).0 == l
  {
  }

  lemma {:induction false} OthersUnvisited(l: Ledger, sid: SessionId, students: seq<StudentId>, today: Month,
      roster: set<EnrollmentId>, q: Month, st: StudentId)
    requires Inv(l) && sid < |l.sessions| && IsClosed(l, l.sessions[sid].month)
    requires forall x :: x in students ==> x in l.sessions[sid].sheet
    requires IsClosed(l, ResolveTarget(l, l.sessions[sid].month, today).1)
    ensures var k := ReconcileAll(l, sid, students, today, roster);
      && k.periods == l.periods && Opening(k, q, st) == Opening(l, q, st)
      && (st !in students || q != ResolveTarget(l, l.sessions[sid].month, today).1 ==>
            RowOf(k, q, st) == RowOf(l, q, st))
  {
    var n, m := |students|, l.sessions[sid].month;
    if n == 0 {
    } else {
      var before := ReconcileAll(l, sid, students[..n-1], today, roster);
      OthersUnvisited(l, sid, students[..n-1], today, roster, q, st);
      ReconcileAllKeeps(l, sid, students[..n-1], today, roster);
      TargetByPeriods(l, before, m, today);
      VisitKeepsPeriods(before, sid, students[n-1], today, roster);
      VisitRows(before, sid, students[n-1], today, roster, q, st);
    }
  }

  lemma SameDelta(l: Ledger, k: Ledger, m: Month, st: StudentId, e: EnrollmentId, roster: set<EnrollmentId>)
    requires UniqueInvoices(l.invoices) && UniqueInvoices(k.invoices) && MoneyKept(l, k)
    requires k.sessions == l.sessions && k.enrollments == l.enrollments
    requires Billed(l, m, st) && Carried(k, st, m) == Carried(l, st, m)
    ensures Billed(k, m, st)
    ensures Delta(k, Find(k.invoices, m, st).value, e, roster) == Delta(l, Find(l.invoices, m, st).value, e, roster)
  {
    BilledKept(l, k, m, st);
  }

  lemma SameTargetRow(l: Ledger, k: Ledger, p: Month, today: Month, st: StudentId)
    requires ResolveTarget(k, p, today).1 == ResolveTarget(l, p, today).1
    requires RowOf(k, ResolveTarget(l, p, today).1, st) == RowOf(l, ResolveTarget(l, p, today).1, st)
    ensures var target := ResolveTarget(l, p, today).1;
      && LandsOnVoid(k, p, today, st) == LandsOnVoid(l, p, today, st)
      && DueBefore(k, target, st) == DueBefore(l, target, st) && Owed(k, target, st) == Owed(l, target, st)
  {
  }

  lemma SameBilled(l: Ledger, k: Ledger, m: Month, st: StudentId)
    requires RowOf(k, m, st) == RowOf(l, m, st)
    ensures Billed(k, m, st) == Billed(l, m, st)
  {
  }

  /** Visits of other students change nothing a visit of st reads. */
  lemma SameVisit(l: Ledger, sid: SessionId, students: seq<StudentId>, today: Month, roster: set<EnrollmentId>,
      st: StudentId)
    requires Inv(l) && sid < |l.sessions| && IsClosed(l, l.sessions[sid].month)
    requires forall x :: x in students ==> x in l.sessions[sid].sheet
    requires IsClosed(l, ResolveTarget(l, l.sessions[sid].month, today).1)
    requires st in l.sessions[sid].sheet && st !in students
    ensures OwedAfterVisit(ReconcileAll(l, sid, students, today, roster), sid, st, today, roster) ==
      OwedAfterVisit(l, sid, st, today, roster)
  {
    var m, k := l.sessions[sid].month, ReconcileAll(l, sid, students, today, roster);
    OthersUnvisited(l, sid, students, today, roster, ResolveTarget(l, m, today).1, st);
    OthersUnvisited(l, sid, students, today, roster, m, st);
    TargetByPeriods(l, k, m, today);
    SameTargetRow(l, k, m, today, st);
    SameBilled(l, k, m, st);
    if Billed(l, m, st) {
      ReconcileAllKeeps(l, sid, students, today, roster);
      AllKeepMoney(l, sid, students, today, roster);
      CarriedOfOthers(l, sid, students, today, roster, st, m);
      SameDelta(l, k, m, st, l.sessions[sid].sheet[st].enrollment, roster);
    }
  }

  lemma OtherOwesTheSame(l: Ledger, sid: SessionId, x: StudentId, today: Month, roster: set<EnrollmentId>, q: Month,
      st: StudentId)
    requires Inv(l) && sid < |l.sessions| && x in l.sessions[sid].sheet && IsClosed(l, l.sessions[sid].month)
    requires st != x
    ensures Owed(ReconcileStudent(l, sid, x, today, roster), q, st) == Owed(l, q, st)
  {
    VisitRows(l, sid, x, today, roster, q, st);
    OwedByRow(l, q, st);
    OwedByRow(ReconcileStudent(l, sid, x, today, roster), q, st);
  }

  lemma LastVisitOwed(l: Ledger, sid: SessionId, students: seq<StudentId>, today: Month, roster: set<EnrollmentId>,
      st: StudentId)
    requires Inv(l) && sid < |l.sessions| && IsClosed(l, l.sessions[sid].month)
    requires forall x :: x in students ==> x in l.sessions[sid].sheet
    requires IsClosed(l, ResolveTarget(l, l.sessions[sid].month, today).1)
    requires st in l.sessions[sid].sheet && st !in students
    ensures var before := ReconcileAll(l, sid, students, today, roster);
      && before.sessions == l.sessions
      && Owed(ReconcileStudent(before, sid, st, today, roster),
              ResolveTarget(l, l.sessions[sid].month, today).1, st) == OwedAfterVisit(l, sid, st, today, roster)
  {
    var before, m := ReconcileAll(l, sid, students, today, roster), l.sessions[sid].month;
    ReconcileAllKeeps(l, sid, students, today, roster);
    OthersUnvisited(l, sid, students, today, roster, m, st);
    TargetByPeriods(l, before, m, today);
    SameVisit(l, sid, students, today, roster, st);
    VisitOwed(before, sid, st, today, roster);
  }

  lemma {:induction false} VisitedOwed(l: Ledger, sid: SessionId, students: seq<StudentId>, today: Month,
      roster: set<EnrollmentId>, st: StudentId)
    requires Inv(l) && sid < |l.sessions| && IsClosed(l, l.sessions[sid].month)
    requires forall x :: x in students ==> x in l.sessions[sid].sheet
    requires IsClosed(l, ResolveTarget(l, l.sessions[sid].month, today).1)
    requires Distinct(students) && st in students
    ensures Owed(ReconcileAll(l, sid, students, today, roster), ResolveTarget(l, l.sessions[sid].month, today).1, st) ==
      OwedAfterVisit(l, sid, st, today, roster)
  {
    var earlier, last := students[..|students|-1], students[|students|-1];
    if last == st {
      LastVisitOwed(l, sid, earlier, today, roster, st);
    } else {
      VisitedOwed(l, sid, earlier, today, roster, st);
      ReconcileAllKeeps(l, sid, earlier, today, roster);
      OthersUnvisited(l, sid, earlier, today, roster, l.sessions[sid].month, st);
      OtherOwesTheSame(ReconcileAll(l, sid, earlier, today, roster), sid, last, today, roster,
        ResolveTarget(l, l.sessions[sid].month, today).1, st);
    }
  }

  /** Every carry of the session leaves the debt of the month it lands on as it was. */
  predicate CarriesHidden(l: Ledger, sid: SessionId, today: Month, roster: set<EnrollmentId>)
    requires sid < |l.sessions|
  {
    forall st :: st in l.sessions[sid].sheet ==>
      OwedAfterVisit(l, sid, st, today, roster) == Owed(l, ResolveTarget(l, l.sessions[sid].month, today).1, st)
  }

  ghost predicate KeepsChainBy(l: Ledger, sid: SessionId, today: Month, roster: set<EnrollmentId>) {
    sid < |l.sessions| && IsClosed(l, l.sessions[sid].month)
    && Superseded(l, ResolveTarget(l, l.sessions[sid].month, today).1)
    ==> CarriesHidden(l, sid, today, roster)
  }

  lemma ClosedTargetIff(l: Ledger, sid: SessionId, today: Month, roster: set<EnrollmentId>)
    requires Inv(l) && Chained(l) && sid < |l.sessions| && IsClosed(l, l.sessions[sid].month)
    requires IsClosed(l, ResolveTarget(l, l.sessions[sid].month, today).1)
    ensures Chained(ReconcileSession(l, sid, today, roster)) <==> KeepsChainBy(l, sid, today, roster)
  {
    var k, target := ReconcileSession(l, sid, today, roster), ResolveTarget(l, l.sessions[sid].month, today).1;
    var students := SortedIds(l.sessions[sid].sheet.Keys);
    forall p: Month, st: StudentId | true
      ensures k.periods == l.periods && Opening(k, p, st) == Opening(l, p, st)
      ensures st !in students || p != target ==> Owed(k, p, st) == Owed(l, p, st)
    {
      OthersUnvisited(l, sid, students, today, roster, p, st);
      OwedByRow(l, p, st);
      OwedByRow(k, p, st);
    }
    forall st | st in students ensures Owed(k, target, st) == OwedAfterVisit(l, sid, st, today, roster) {
      VisitedOwed(l, sid, students, today, roster, st);
    }
    ChainedIff(l, k);
    if DebtsKept(l, k) && Superseded(l, target) {
      forall st | st in l.sessions[sid].sheet
        ensures OwedAfterVisit(l, sid, st, today, roster) == Owed(l, target, st)
      {
        assert st in students;
      }
    }
  }

  lemma ReconcileIff(l: Ledger, sid: SessionId, today: Month, roster: set<EnrollmentId>)
    requires Inv(l) && Chained(l)
    ensures Chained(ReconcileSession(l, sid, today, roster)) <==> KeepsChainBy(l, sid, today, roster)
  {
    if sid < |l.sessions| && IsClosed(l, l.sessions[sid].month) {
      var m := l.sessions[sid].month;
      if IsClosed(l, ResolveTarget(l, m, today).1) {
        ClosedTargetIff(l, sid, today, roster);
      } else {
        TargetOpenIff(l, m, today);
        TargetStaysClosed(l, m, today);
        ReconcileAllClosedKept(l, sid, SortedIds(l.sessions[sid].sheet.Keys), today, roster);
        ChainFrameRows(l, ReconcileSession(l, sid, today, roster));
      }
    }
  }

  ghost predicate KeepsChainAt(l: Ledger, m: Month, close: Result<(Ledger, int)>) {
    close.Ok? && ClosedLater(l, m) ==> DebtUnmoved(l, m)
  }

  // ----- calls and runs ---------------------------------------------------

  /** What the call must respect for the chain to hold after it, read off the ledger before it: on a
      superseded month a payment, an adjustment, a voiding or a carry must leave what is owed as it
      was, and a month closed out of order must leave every debt as it was. */
  ghost predicate KeepsChain(l: Ledger, op: Op) {
    match op
    case OpSetPaid(id, paid) =>
      SetPaid(l, id, paid).Ok? && Superseded(l, l.invoices[id].month) ==>
        var inv := l.invoices[id];
        paid == inv.paid || (paid >= inv.totalDue && inv.paid >= inv.totalDue)
    case OpAdjust(id, amount) =>
      AddAdjustment(l, id, amount).Ok? && Superseded(l, l.invoices[id].month) ==>
        var inv := l.invoices[id];
        inv.totalDue <= inv.paid && inv.totalDue + amount <= inv.paid
    case OpVoid(id) =>
      VoidInvoice(l, id).Ok? && Superseded(l, l.invoices[id].month) ==> l.invoices[id].totalDue <= 0
    case OpClose(m, unconfirmed) => KeepsChainAt(l, m, ClosePeriod(l, m, unconfirmed))
    case OpReconcile(sid, today, roster) => KeepsChainBy(l, sid, today, roster)
    case OpConfirm(sid, sheet, today) =>
      Confirm(l, sid, sheet, today).Ok? ==> KeepsChainBy(SetSheet(l, sid, sheet), sid, today, RosterOf(sheet))
    case _ => true
  }

  lemma DraftKeepsChain(l: Ledger, m: Month)
    requires Inv(l) && Chained(l) && DraftPeriod(l, m).Ok?
    ensures Chained(DraftPeriod(l, m).value)
  {
    var cs := ComputePeriod(l, m);
    var k := DraftAll(l, m, cs);
    DraftAllTouchesOnlyInvoices(l, m, cs);
    forall p, st | IsClosed(l, p) ensures RowOf(k, p, st) == RowOf(l, p, st) { DraftAllOthers(l, m, cs, p, st); }
    ChainFrameRows(l, k);
  }

  lemma ConfirmIff(l: Ledger, sid: SessionId, sheet: map<StudentId, Mark>, today: Month)
    requires Inv(l) && Chained(l) && Confirm(l, sid, sheet, today).Ok?
    ensures Chained(Confirm(l, sid, sheet, today).value) <==> KeepsChain(l, OpConfirm(sid, sheet, today))
  {
    var l1 := SetSheet(l, sid, sheet);
    SetSheetKeeps(l, sid, sheet);
    ChainFrameRows(l, l1);
    ReconcileIff(l1, sid, today, RosterOf(sheet));
  }

  lemma BillCallIff(l: Ledger, op: Op)
    requires Inv(l) && Chained(l) && (op.OpSetPaid? || op.OpAdjust? || op.OpVoid?)
    ensures Chained(Step(l, op)) <==> KeepsChain(l, op)
  {
    match op
    case OpSetPaid(id, paid) => if SetPaid(l, id, paid).Ok? { PaidIff(l, id, paid); }
    case OpAdjust(id, amount) => if AddAdjustment(l, id, amount).Ok? { AdjustIff(l, id, amount); }
    case OpVoid(id) => if VoidInvoice(l, id).Ok? { VoidIff(l, id); }
  }

  lemma CloseOutcomeIff(l: Ledger, m: Month, unconfirmed: bool, r: Result<(Ledger, int)>)
    requires Inv(l) && Chained(l) && r == ClosePeriod(l, m, unconfirmed)
    ensures Chained(AfterClose(r, l)) <==> KeepsChainAt(l, m, r)
  {
    if r.Ok? { CloseIff(l, m, unconfirmed); }
  }

  lemma CloseStep(l: Ledger, op: Op)
    requires op.OpClose?
    ensures Step(l, op) == AfterClose(ClosePeriod(l, op.month, op.unconfirmed), l)
  {
  }

  lemma CloseCondition(l: Ledger, m: Month, unconfirmed: bool)
    ensures KeepsChain(l, OpClose(m, unconfirmed)) == KeepsChainAt(l, m, ClosePeriod(l, m, unconfirmed))
  {
  }

  lemma CloseCallIff(l: Ledger, op: Op)
    requires Inv(l) && Chained(l) && op.OpClose?
    ensures Chained(Step(l, op)) <==> KeepsChain(l, op)
  {
    CloseOutcomeIff(l, op.month, op.unconfirmed, ClosePeriod(l, op.month, op.unconfirmed));
    CloseStep(l, op);
    CloseCondition(l, op.month, op.unconfirmed);
  }

  lemma DraftCallKeepsChain(l: Ledger, m: Month)
    requires Inv(l) && Chained(l)
    ensures Chained(Step(l, OpDraft(m)))
  {
    if DraftPeriod(l, m).Ok? { DraftKeepsChain(l, m); }
  }

  lemma SheetCallIff(l: Ledger, op: Op)
    requires Inv(l) && Chained(l) && (op.OpReconcile? || op.OpConfirm?)
    ensures Chained(Step(l, op)) <==> KeepsChain(l, op)
  {
    match op
    case OpReconcile(sid, today, roster) => ReconcileIff(l, sid, today, roster);
    case OpConfirm(sid, sheet, today) => if Confirm(l, sid, sheet, today).Ok? { ConfirmIff(l, sid, sheet, today); }
  }

  lemma OtherCallKeepsChain(l: Ledger, op: Op)
    requires Inv(l) && Chained(l)
    requires op.OpEnsurePeriod? || op.OpEnroll? || op.OpReprice? || op.OpAddSession? || op.OpCommit?
    ensures Chained(Step(l, op)) && KeepsChain(l, op)
  {
    ChainFrameRows(l, Step(l, op));
  }

  /** Any call on a chained ledger leaves it chained exactly under that condition. */
  lemma StepChainsIff(l: Ledger, op: Op)
    requires Inv(l) && Chained(l)
    ensures Chained(Step(l, op)) <==> KeepsChain(l, op)
  {
    if op.OpSetPaid? || op.OpAdjust? || op.OpVoid? {
      BillCallIff(l, op);
    } else if op.OpClose? {
      CloseCallIff(l, op);
    } else if op.OpDraft? {
      DraftCallKeepsChain(l, op.month);
    } else if op.OpReconcile? || op.OpConfirm? {
      SheetCallIff(l, op);
    } else {
      OtherCallKeepsChain(l, op);
    }
  }

  ghost predicate ChainedThroughout(ops: seq<Op>) {
    Chained(Run(EMPTY, ops)) && (ops == [] || ChainedThroughout(ops[..|ops|-1]))
  }

  ghost predicate ChainRun(ops: seq<Op>) {
    ops == [] || (ChainRun(ops[..|ops|-1]) && KeepsChain(Run(EMPTY, ops[..|ops|-1]), ops[|ops|-1]))
  }

  /** Over every run each closed month opens, at every moment, with exactly what the closed month
      before it is owed, exactly when every call keeps the chain it finds. */
  lemma {:induction false} DebtsChainIff(ops: seq<Op>)
    ensures ChainedThroughout(ops) <==> ChainRun(ops)
  {
    if ops == [] {
    } else {
      var before := ops[..|ops|-1];
      DebtsChainIff(before);
      if ChainedThroughout(before) {
        RunKeeps(EMPTY, before);
        StepChainsIff(Run(EMPTY, before), ops[|ops|-1]);
      }
    }
  }
}
