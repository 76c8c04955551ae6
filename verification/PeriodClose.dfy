/** Preview, Draft and Close agree with each other. */
module PeriodClose {
  import opened Options
  import opened Ids
  import opened InvoiceCalculator
  import opened InvoiceCalculatorLaws
  import opened Ledgers
  import opened InvoiceLines
  import opened LedgerInvariants
  import opened LedgerSteps

  // ----- rows by key ------------------------------------------------------

  function RowOf(l: Ledger, m: Month, st: StudentId): Option<Invoice> {
    match Find(l.invoices, m, st)
    case Some(i) => Some(l.invoices[i])
    case None => None
  }

  lemma {:induction false} FindReplace(invs: seq<Invoice>, i: nat, inv: Invoice, m: Month, st: StudentId)
    requires i < |invs| && inv.month == invs[i].month && inv.student == invs[i].student
    ensures Find(invs[i := inv], m, st) == Find(invs, m, st)
  {
    var n := |invs|;
    if i == n - 1 {
      assert invs[i := inv][..n-1] == invs[..n-1];
    } else {
      assert invs[i := inv][..n-1] == invs[..n-1][i := inv];
      FindReplace(invs[..n-1], i, inv, m, st);
    }
  }

  lemma FindAppend(invs: seq<Invoice>, inv: Invoice, m: Month, st: StudentId)
    ensures Find(invs + [inv], m, st) ==
      if inv.month == m && inv.student == st then Some(|invs|) else Find(invs, m, st)
  {
    assert (invs + [inv])[..|invs|] == invs;
  }

  /** The row a computed invoice replaces, or a blank one. */
  function Base(l: Ledger, m: Month, st: StudentId): Invoice {
    match RowOf(l, m, st)
    case Some(inv) => inv
    case None => BlankInvoice(m, st)
  }

  function AdjustmentsOf(l: Ledger, m: Month, st: StudentId): int {
    match Find(l.invoices, m, st)
    case Some(i) => AdjustmentSum(l.adjustments, i)
    case None => 0
  }

  function DraftedRow(l: Ledger, m: Month, ci: Computed): Invoice {
    Rewritten(Base(l, m, ci.student), ci, AdjustmentsOf(l, m, ci.student))
  }

  lemma DraftOneRows(l: Ledger, m: Month, ci: Computed, m2: Month, st: StudentId)
    ensures var k := DraftOne(l, m, ci);
      if m2 == m && st == ci.student then RowOf(k, m, st) == Some(DraftedRow(l, m, ci))
      else Find(k.invoices, m2, st) == Find(l.invoices, m2, st) && RowOf(k, m2, st) == RowOf(l, m2, st)
  {
    match Find(l.invoices, m, ci.student)
    case Some(i) => FindReplace(l.invoices, i, Rewritten(l.invoices[i], ci, AdjustmentSum(l.adjustments, i)), m2, st);
    case None => FindAppend(l.invoices, Rewritten(BlankInvoice(m, ci.student), ci, 0), m2, st);
  }

  ghost predicate DistinctStudents(cs: seq<Computed>) {
    forall i, j :: 0 <= i < j < |cs| ==> cs[i].student != cs[j].student
  }

  ghost predicate Computes(cs: seq<Computed>, st: StudentId) {
    exists k :: 0 <= k < |cs| && cs[k].student == st
  }

  /** Rows of students outside the computation are untouched. */
  lemma {:induction false} DraftAllOthers(l: Ledger, m: Month, cs: seq<Computed>, m2: Month, st: StudentId)
    requires m2 != m || forall k :: 0 <= k < |cs| ==> cs[k].student != st
    ensures var k := DraftAll(l, m, cs);
      Find(k.invoices, m2, st) == Find(l.invoices, m2, st) && RowOf(k, m2, st) == RowOf(l, m2, st)
  {
    var n := |cs|;
    if n == 0 {
    } else {
      DraftAllOthers(l, m, cs[..n-1], m2, st);
      DraftOneRows(DraftAll(l, m, cs[..n-1]), m, cs[n-1], m2, st);
    }
  }

  /** Each computed student's row is the old row with exactly the computed money and lines. */
  lemma {:induction false} DraftAllRows(l: Ledger, m: Month, cs: seq<Computed>, j: nat)
    requires DistinctStudents(cs) && j < |cs|
    ensures RowOf(DraftAll(l, m, cs), m, cs[j].student) == Some(DraftedRow(l, m, cs[j]))
  {
    var n := |cs|;
    var before := DraftAll(l, m, cs[..n-1]);
    DraftOneRows(before, m, cs[n-1], m, cs[j].student);
    if j == n - 1 {
      DraftAllOthers(l, m, cs[..n-1], m, cs[j].student);
      DraftAllTouchesOnlyInvoices(l, m, cs[..n-1]);
    } else {
      DraftAllRows(l, m, cs[..n-1], j);
    }
  }

  // ----- who is computed --------------------------------------------------

  lemma ComputedStudents(l: Ledger, m: Month)
    ensures DistinctStudents(ComputePeriod(l, m))
    ensures forall i :: 0 <= i < |l.invoices| && l.invoices[i].month == m ==>
      Computes(ComputePeriod(l, m), l.invoices[i].student)
  {
    var ts, op, adj := TallyAttendance(l, m), OpeningBalances(l, m), AdjustmentsByStudent(l, m);
    var order := BillingOrder(ts, op, adj);
    var cs := ComputePeriod(l, m);
    assert forall k :: 0 <= k < |cs| ==> cs[k].student == order[k];
    forall i | 0 <= i < |l.invoices| && l.invoices[i].month == m ensures Computes(cs, l.invoices[i].student) {
      var st := l.invoices[i].student;
      assert st in InvoicedStudents(l, m);
      assert st in adj;
      BillingOrderMembers(ts, op, adj, st);
      var k :| 0 <= k < |order| && order[k] == st;
      assert cs[k].student == st;
    }
  }

  /** The rows of the month are all drafts exactly when drafting is not refused. */
  lemma DraftableIffAllDrafts(l: Ledger, m: Month)
    requires UniqueInvoices(l.invoices)
    ensures AllDrafts(l, m, ComputePeriod(l, m)) <==>
      forall i :: 0 <= i < |l.invoices| && l.invoices[i].month == m ==> l.invoices[i].status == Draft
  {
    var cs := ComputePeriod(l, m);
    ComputedStudents(l, m);
    if AllDrafts(l, m, cs) {
      forall i | 0 <= i < |l.invoices| && l.invoices[i].month == m ensures l.invoices[i].status == Draft {
        var k :| 0 <= k < |cs| && cs[k].student == l.invoices[i].student;
        FindUnique(l.invoices, i);
      }
    }
  }

  /** Close succeeds exactly when the period exists, is open, has no unconfirmed session
      and every invoice it already holds is still a draft. */
  lemma CloseSucceedsIff(l: Ledger, m: Month, unconfirmed: bool)
    requires UniqueInvoices(l.invoices)
    ensures ClosePeriod(l, m, unconfirmed).Ok? <==>
      IsOpen(l, m) && !unconfirmed
      && forall i :: 0 <= i < |l.invoices| && l.invoices[i].month == m ==> l.invoices[i].status == Draft
  {
    DraftableIffAllDrafts(l, m);
  }

  /** In reachable ledgers the draft guard never refuses: an open period holds only drafts. */
  lemma ReachableCloseSucceedsIff(ops: seq<Op>, m: Month, unconfirmed: bool)
    ensures ClosePeriod(Run(EMPTY, ops), m, unconfirmed).Ok? <==> IsOpen(Run(EMPTY, ops), m) && !unconfirmed
  {
    RunKeeps(EMPTY, ops);
    var l := Run(EMPTY, ops);
    CloseSucceedsIff(l, m, unconfirmed);
    forall i | 0 <= i < |l.invoices| && l.invoices[i].month == m && IsOpen(l, m) ensures l.invoices[i].status == Draft {
      assert InvoiceOk(l, i);
    }
  }

  // ----- totals -----------------------------------------------------------

  /** Sum of total_due over the month's rows of the given students. */
  function TotalAmong(invs: seq<Invoice>, m: Month, sts: set<StudentId>): int {
    var n := |invs|;
    if n == 0 then 0
    else TotalAmong(invs[..n-1], m, sts) +
         (if invs[n-1].month == m && invs[n-1].student in sts then invs[n-1].totalDue else 0)
  }

  lemma {:induction false} TotalAmongAbsent(invs: seq<Invoice>, m: Month, sts: set<StudentId>, st: StudentId)
    requires Find(invs, m, st).None?
    ensures TotalAmong(invs, m, sts + {st}) == TotalAmong(invs, m, sts)
  {
    var n := |invs|;
    if n == 0 {
    } else {
      assert invs[n-1].month != m || invs[n-1].student != st;
      TotalAmongAbsent(invs[..n-1], m, sts, st);
    }
  }

  lemma {:induction false} TotalAmongReplace(invs: seq<Invoice>, m: Month, sts: set<StudentId>, i: nat, inv: Invoice)
    requires UniqueInvoices(invs) && i < |invs|
    requires inv.month == invs[i].month == m && inv.student == invs[i].student && inv.student !in sts
    ensures TotalAmong(invs[i := inv], m, sts + {inv.student}) == TotalAmong(invs, m, sts) + inv.totalDue
  {
    var n := |invs|;
    if i == n - 1 {
      assert invs[i := inv][..n-1] == invs[..n-1];
      TotalAmongAbsent(invs[..n-1], m, sts, inv.student);
    } else {
      assert invs[i := inv][..n-1] == invs[..n-1][i := inv];
      TotalAmongReplace(invs[..n-1], m, sts, i, inv);
    }
  }

  lemma TotalAmongDraftOne(l: Ledger, m: Month, ci: Computed, sts: set<StudentId>)
    requires UniqueInvoices(l.invoices) && ci.student !in sts
    ensures TotalAmong(DraftOne(l, m, ci).invoices, m, sts + {ci.student}) ==
      TotalAmong(l.invoices, m, sts) + DraftedRow(l, m, ci).totalDue
  {
    match Find(l.invoices, m, ci.student)
    case Some(i) => TotalAmongReplace(l.invoices, m, sts, i, DraftedRow(l, m, ci));
    case None =>
      TotalAmongAbsent(l.invoices, m, sts, ci.student);
      assert (l.invoices + [DraftedRow(l, m, ci)])[..|l.invoices|] == l.invoices;
  }

  function StudentsOf(cs: seq<Computed>): set<StudentId> {
    set c | c in cs :: c.student
  }

  /** The computed adjustment figure is what the write path re-reads from the table. */
  ghost predicate AdjustmentAgrees(l: Ledger, m: Month, ci: Computed) {
    && ci.adjustments == AdjustmentsOf(l, m, ci.student)
    && ci.totalDue == ci.opening + ci.charge + ci.adjustments
  }

  ghost predicate AdjustmentsAgree(l: Ledger, m: Month, cs: seq<Computed>) {
    forall k :: 0 <= k < |cs| ==> AdjustmentAgrees(l, m, cs[k])
  }

  lemma ComputedAdjustmentsAgree(l: Ledger, m: Month)
    ensures AdjustmentsAgree(l, m, ComputePeriod(l, m))
  {
    var ts, op, adj := TallyAttendance(l, m), OpeningBalances(l, m), AdjustmentsByStudent(l, m);
    var order := BillingOrder(ts, op, adj);
    var cs := ComputePeriod(l, m);
    forall k | 0 <= k < |cs| ensures AdjustmentAgrees(l, m, cs[k]) {
      assert cs[k] == InvoiceFor(ts, op, adj, order[k]);
      match Find(l.invoices, m, order[k])
      case Some(i) => assert l.invoices[i].student in InvoicedStudents(l, m);
      case None => assert order[k] !in adj;
    }
  }

  lemma DraftedTotal(l: Ledger, m: Month, cs: seq<Computed>, ci: Computed)
    requires AdjustmentAgrees(l, m, ci)
    requires forall k :: 0 <= k < |cs| ==> cs[k].student != ci.student
    ensures DraftedRow(DraftAll(l, m, cs), m, ci).totalDue == ci.totalDue
  {
    DraftAllOthers(l, m, cs, m, ci.student);
    DraftAllTouchesOnlyInvoices(l, m, cs);
  }

  lemma StudentsOfLast(cs: seq<Computed>)
    requires |cs| > 0 && DistinctStudents(cs)
    ensures StudentsOf(cs) == StudentsOf(cs[..|cs|-1]) + {cs[|cs|-1].student}
    ensures cs[|cs|-1].student !in StudentsOf(cs[..|cs|-1])
  {
    assert cs == cs[..|cs|-1] + [cs[|cs|-1]];
  }

  lemma DraftOneUnique(l: Ledger, m: Month, ci: Computed)
    requires UniqueInvoices(l.invoices)
    ensures UniqueInvoices(DraftOne(l, m, ci).invoices)
  {
  }

  lemma {:induction false} DraftAllUnique(l: Ledger, m: Month, cs: seq<Computed>)
    requires UniqueInvoices(l.invoices)
    ensures UniqueInvoices(DraftAll(l, m, cs).invoices)
  {
    if |cs| == 0 {
    } else {
      DraftAllUnique(l, m, cs[..|cs|-1]);
      DraftOneUnique(DraftAll(l, m, cs[..|cs|-1]), m, cs[|cs|-1]);
    }
  }

  lemma {:induction false} DraftAllTotal(l: Ledger, m: Month, cs: seq<Computed>)
    requires UniqueInvoices(l.invoices) && DistinctStudents(cs) && AdjustmentsAgree(l, m, cs)
    ensures TotalAmong(DraftAll(l, m, cs).invoices, m, StudentsOf(cs)) == GrandTotal(cs)
  {
    var n := |cs|;
    if n == 0 {
      NoneAmongNone(l.invoices, m);
      assert StudentsOf(cs) == {};
    } else {
      DraftAllTotal(l, m, cs[..n-1]);
      DraftAllUnique(l, m, cs[..n-1]);
      StudentsOfLast(cs);
      DraftedTotal(l, m, cs[..n-1], cs[n-1]);
      TotalAmongDraftOne(DraftAll(l, m, cs[..n-1]), m, cs[n-1], StudentsOf(cs[..n-1]));
    }
  }

  lemma {:induction false} NoneAmongNone(invs: seq<Invoice>, m: Month)
    ensures TotalAmong(invs, m, {}) == 0
  {
    if |invs| == 0 {
    } else {
      NoneAmongNone(invs[..|invs|-1], m);
    }
  }

  lemma {:induction false} SettledTotal(invs: seq<Invoice>, m: Month, sts: set<StudentId>)
    requires forall i :: 0 <= i < |invs| && invs[i].month == m ==>
      invs[i].student in sts && invs[i].status == Draft
      && invs[i].totalDue == invs[i].opening + invs[i].charge + invs[i].adjustments
    ensures PeriodTotal(SettleAll(invs, m), m) == TotalAmong(invs, m, sts)
  {
    var n := |invs|;
    if n == 0 {
    } else {
      SettledTotal(invs[..n-1], m, sts);
      assert SettleAll(invs, m)[..n-1] == SettleAll(invs[..n-1], m);
    }
  }

  lemma DraftedRowsAreComputed(l: Ledger, m: Month, i: nat)
    requires Inv(l) && IsOpen(l, m)
    requires i < |DraftAll(l, m, ComputePeriod(l, m)).invoices|
    requires DraftAll(l, m, ComputePeriod(l, m)).invoices[i].month == m
    ensures Computes(ComputePeriod(l, m), DraftAll(l, m, ComputePeriod(l, m)).invoices[i].student)
  {
    var cs := ComputePeriod(l, m);
    var k := DraftAll(l, m, cs);
    var st := k.invoices[i].student;
    DraftComputedKeeps(l, m);
    FindUnique(k.invoices, i);
    if !Computes(cs, st) {
      DraftAllOthers(l, m, cs, m, st);
      ComputedStudents(l, m);
    }
  }

  /** A successful Close returns exactly the grand total Preview showed just before. */
  lemma CloseReturnsPreviewTotal(l: Ledger, m: Month, unconfirmed: bool)
    requires Inv(l) && ClosePeriod(l, m, unconfirmed).Ok?
    ensures ClosePeriod(l, m, unconfirmed).value.1 == GrandTotal(ComputePeriod(l, m))
  {
    var cs := ComputePeriod(l, m);
    var k := DraftAll(l, m, cs);
    DraftComputedKeeps(l, m);
    DraftAllTouchesOnlyInvoices(l, m, cs);
    ComputedStudents(l, m);
    ComputedAdjustmentsAgree(l, m);
    DraftAllTotal(l, m, cs);
    forall i | 0 <= i < |k.invoices| && k.invoices[i].month == m
      ensures k.invoices[i].student in StudentsOf(cs) && k.invoices[i].status == Draft
        && k.invoices[i].totalDue == k.invoices[i].opening + k.invoices[i].charge + k.invoices[i].adjustments
    {
      assert InvoiceOk(k, i);
      DraftedRowsAreComputed(l, m, i);
      var j :| 0 <= j < |cs| && cs[j].student == k.invoices[i].student;
      assert cs[j] in cs;
    }
    SettledTotal(k.invoices, m, StudentsOf(cs));
  }

  lemma SettledRow(l: Ledger, k: Ledger, m: Month, m2: Month, st: StudentId)
    requires k.invoices == SettleAll(l.invoices, m)
    ensures Find(k.invoices, m2, st) == Find(l.invoices, m2, st)
    ensures RowOf(k, m2, st) == match RowOf(l, m2, st) { case Some(inv) => Some(Settle(inv, m)) case None => None }
  {
    SameKeys(l.invoices, k.invoices, m2, st);
  }

  lemma {:induction false} SameKeys(a: seq<Invoice>, b: seq<Invoice>, m: Month, st: StudentId)
    requires |a| == |b|
    requires forall i :: 0 <= i < |a| ==> a[i].month == b[i].month && a[i].student == b[i].student
    ensures Find(a, m, st) == Find(b, m, st)
  {
    if |a| == 0 {
    } else {
      SameKeys(a[..|a|-1], b[..|b|-1], m, st);
    }
  }

  /** The row holds exactly the money the computation shows. */
  ghost predicate HoldsMoney(inv: Invoice, ci: Computed) {
    && inv.opening == ci.opening && inv.charge == ci.charge
    && inv.adjustments == ci.adjustments && inv.totalDue == ci.totalDue
  }

  lemma DraftWritesPreview(l: Ledger, m: Month, j: nat)
    requires Inv(l) && IsOpen(l, m) && j < |ComputePeriod(l, m)|
    ensures var ci := ComputePeriod(l, m)[j];
      match RowOf(DraftAll(l, m, ComputePeriod(l, m)), m, ci.student)
      case None => false
      case Some(inv) => HoldsMoney(inv, ci) && inv.status == Draft && inv == DraftedRow(l, m, ci)
  {
    var cs := ComputePeriod(l, m);
    DraftComputedKeeps(l, m);
    ComputedStudents(l, m);
    ComputedAdjustmentsAgree(l, m);
    DraftAllRows(l, m, cs, j);
    assert AdjustmentAgrees(l, m, cs[j]);
    assert InvoiceOk(DraftAll(l, m, cs), Find(DraftAll(l, m, cs).invoices, m, cs[j].student).value);
    DraftAllTouchesOnlyInvoices(l, m, cs);
  }

  lemma DraftedRowHoldsLines(l: Ledger, m: Month, j: nat, line: Line)
    requires Inv(l) && j < |ComputePeriod(l, m)| && line in ComputePeriod(l, m)[j].lines
    ensures line in DraftedRow(l, m, ComputePeriod(l, m)[j]).lines
  {
    ComputePeriodFits(l, m, j);
    BaseLinesUnique(l, m, ComputePeriod(l, m)[j].student);
    RedraftContains(Base(l, m, ComputePeriod(l, m)[j].student).lines, ComputePeriod(l, m)[j].lines, line);
  }

  lemma ClosedRow(l: Ledger, m: Month, unconfirmed: bool, j: nat)
    requires Inv(l) && ClosePeriod(l, m, unconfirmed).Ok? && j < |ComputePeriod(l, m)|
    ensures var row := DraftedRow(l, m, ComputePeriod(l, m)[j]);
      && RowOf(ClosePeriod(l, m, unconfirmed).value.0, m, ComputePeriod(l, m)[j].student) == Some(Settle(row, m))
      && HoldsMoney(row, ComputePeriod(l, m)[j]) && row.status == Draft && row.month == m
  {
    DraftWritesPreview(l, m, j);
    SettledRow(DraftAll(l, m, ComputePeriod(l, m)), ClosePeriod(l, m, unconfirmed).value.0, m, m,
      ComputePeriod(l, m)[j].student);
  }

  /** Close writes exactly the previewed amounts and lines for every previewed student, and the
      row ends void exactly when opening, charge and adjustments are all zero, issued otherwise. */
  lemma CloseWritesPreview(l: Ledger, m: Month, unconfirmed: bool, j: nat)
    requires Inv(l) && ClosePeriod(l, m, unconfirmed).Ok?
    requires j < |ComputePeriod(l, m)|
    ensures var ci := ComputePeriod(l, m)[j];
      match RowOf(ClosePeriod(l, m, unconfirmed).value.0, m, ci.student)
      case None => false
      case Some(inv) =>
        && HoldsMoney(inv, ci)
        && inv.status == (if ci.opening == 0 && ci.charge == 0 && ci.adjustments == 0 then Void else Issued)
        && forall line :: line in ci.lines ==> line in inv.lines
  {
    ClosedRow(l, m, unconfirmed, j);
    forall line | line in ComputePeriod(l, m)[j].lines ensures line in DraftedRow(l, m, ComputePeriod(l, m)[j]).lines {
      DraftedRowHoldsLines(l, m, j, line);
    }
  }

  lemma BaseLinesUnique(l: Ledger, m: Month, st: StudentId)
    requires Inv(l)
    ensures UniqueLines(Base(l, m, st).lines)
  {
    match Find(l.invoices, m, st)
    case Some(i) => assert InvoiceOk(l, i);
    case None =>
  }

  /** After Close the period is closed and each of its rows belongs to a previewed student. */
  lemma CloseLeavesNoOtherRow(l: Ledger, m: Month, unconfirmed: bool, i: nat)
    requires Inv(l) && ClosePeriod(l, m, unconfirmed).Ok?
    requires i < |ClosePeriod(l, m, unconfirmed).value.0.invoices|
    requires ClosePeriod(l, m, unconfirmed).value.0.invoices[i].month == m
    ensures IsClosed(ClosePeriod(l, m, unconfirmed).value.0, m)
    ensures Computes(ComputePeriod(l, m), ClosePeriod(l, m, unconfirmed).value.0.invoices[i].student)
    ensures ClosePeriod(l, m, unconfirmed).value.0.invoices[i].status in {Issued, Void}
  {
    DraftComputedKeeps(l, m);
    DraftAllTouchesOnlyInvoices(l, m, ComputePeriod(l, m));
    var k := DraftAll(l, m, ComputePeriod(l, m));
    assert InvoiceOk(k, i);
    DraftedRowsAreComputed(l, m, i);
  }

  // ----- drafting twice ---------------------------------------------------

  lemma DebtorsByRow(l: Ledger, q: Month, st: StudentId)
    requires UniqueInvoices(l.invoices)
    ensures st in CarriedDebtStudents(l, q) <==>
      match RowOf(l, q, st) { case Some(inv) => inv.status != Void && inv.totalDue - inv.paid > 0 case None => false }
  {
    if st in CarriedDebtStudents(l, q) {
      var i :| 0 <= i < |l.invoices| && l.invoices[i].month == q && l.invoices[i].status != Void
               && l.invoices[i].totalDue - l.invoices[i].paid > 0 && l.invoices[i].student == st;
      FindUnique(l.invoices, i);
    }
  }

  lemma OpeningsSame(l: Ledger, k: Ledger, m: Month)
    requires UniqueInvoices(l.invoices) && UniqueInvoices(k.invoices)
    requires k == l.(invoices := k.invoices)
    requires forall q, st :: q != m ==> RowOf(k, q, st) == RowOf(l, q, st)
    ensures OpeningBalances(k, m) == OpeningBalances(l, m)
  {
    assert ClosedBefore(k, m) == ClosedBefore(l, m);
    match PreviousClosed(l, m)
    case None =>
    case Some(q) =>
      assert TallyStudents(k, m) == TallyStudents(l, m);
      forall st ensures st in CarriedDebtStudents(k, q) <==> st in CarriedDebtStudents(l, q) {
        assert RowOf(k, q, st) == RowOf(l, q, st);
        DebtorsByRow(l, q, st);
        DebtorsByRow(k, q, st);
      }
      forall st ensures Billed(k, q, st) == Billed(l, q, st) && Owed(k, q, st) == Owed(l, q, st) {
        assert RowOf(k, q, st) == RowOf(l, q, st);
      }
      assert CarriedDebtStudents(k, q) == CarriedDebtStudents(l, q);
  }

  lemma ComputeAllSame(ts: seq<Tally>, opening: map<StudentId, int>, a: map<StudentId, int>, b: map<StudentId, int>)
    requires forall s :: OrZero(a, s) == OrZero(b, s)
    requires Extras(ts, opening, a) == Extras(ts, opening, b)
    ensures ComputeAll(ts, opening, a) == ComputeAll(ts, opening, b)
  {
    var out := ComputeAll(ts, opening, a);
    var order := BillingOrder(ts, opening, a);
    forall i | 0 <= i < |order| ensures out[i] == InvoiceFor(ts, opening, b, order[i]) {
      assert OrZero(a, order[i]) == OrZero(b, order[i]);
    }
    ComputeAllIs(ts, opening, b, out);
  }

  lemma AdjustmentsByRow(l: Ledger, m: Month, st: StudentId)
    ensures st in AdjustmentsByStudent(l, m) <==> Find(l.invoices, m, st).Some?
    ensures OrZero(AdjustmentsByStudent(l, m), st) == AdjustmentsOf(l, m, st)
  {
    match Find(l.invoices, m, st)
    case Some(i) => assert st in InvoicedStudents(l, m);
    case None =>
  }

  lemma AdjustmentsAfterDraft(l: Ledger, m: Month, st: StudentId)
    requires Inv(l) && IsOpen(l, m)
    ensures var k := DraftAll(l, m, ComputePeriod(l, m));
      && AdjustmentsOf(k, m, st) == AdjustmentsOf(l, m, st)
      && (Find(k.invoices, m, st).Some? <==> Find(l.invoices, m, st).Some? || Computes(ComputePeriod(l, m), st))
  {
    var cs := ComputePeriod(l, m);
    var k := DraftAll(l, m, cs);
    DraftComputedKeeps(l, m);
    DraftAllTouchesOnlyInvoices(l, m, cs);
    ComputedStudents(l, m);
    if Computes(cs, st) {
      var j :| 0 <= j < |cs| && cs[j].student == st;
      DraftAllRows(l, m, cs, j);
      // The row's adjustment column was re-read from the table, and the ledger is balanced.
      assert InvoiceOk(k, Find(k.invoices, m, st).value);
    } else {
      DraftAllOthers(l, m, cs, m, st);
    }
  }

  lemma OpeningsAfterDraft(l: Ledger, m: Month)
    requires Inv(l) && IsOpen(l, m)
    ensures OpeningBalances(DraftAll(l, m, ComputePeriod(l, m)), m) == OpeningBalances(l, m)
  {
    var cs := ComputePeriod(l, m);
    var k := DraftAll(l, m, cs);
    DraftComputedKeeps(l, m);
    DraftAllTouchesOnlyInvoices(l, m, cs);
    forall q, st | q != m ensures RowOf(k, q, st) == RowOf(l, q, st) { DraftAllOthers(l, m, cs, q, st); }
    OpeningsSame(l, k, m);
  }

  lemma ExtrasAfterDraft(l: Ledger, m: Month, s: StudentId)
    requires Inv(l) && IsOpen(l, m)
    ensures var a, b := AdjustmentsByStudent(DraftAll(l, m, ComputePeriod(l, m)), m), AdjustmentsByStudent(l, m);
      && OrZero(a, s) == OrZero(b, s)
      && (s in Extras(TallyAttendance(l, m), OpeningBalances(l, m), a) <==>
        s in Extras(TallyAttendance(l, m), OpeningBalances(l, m), b))
  {
    AdjustmentsAfterDraft(l, m, s);
    AdjustmentsByRow(l, m, s);
    AdjustmentsByRow(DraftAll(l, m, ComputePeriod(l, m)), m, s);
    if Computes(ComputePeriod(l, m), s) { ComputedAreOrdered(l, m, s); }
  }

  lemma ComputeAfterDraft(l: Ledger, m: Month)
    requires Inv(l) && IsOpen(l, m)
    ensures ComputePeriod(DraftAll(l, m, ComputePeriod(l, m)), m) == ComputePeriod(l, m)
  {
    var k := DraftAll(l, m, ComputePeriod(l, m));
    DraftAllTouchesOnlyInvoices(l, m, ComputePeriod(l, m));
    OpeningsAfterDraft(l, m);
    var ts, op := TallyAttendance(l, m), OpeningBalances(l, m);
    var a, b := AdjustmentsByStudent(k, m), AdjustmentsByStudent(l, m);
    forall s ensures OrZero(a, s) == OrZero(b, s) && (s in Extras(ts, op, a) <==> s in Extras(ts, op, b)) {
      ExtrasAfterDraft(l, m, s);
    }
    assert Extras(ts, op, a) == Extras(ts, op, b);
    ComputeAllSame(ts, op, b, a);
  }

  lemma ComputedAreOrdered(l: Ledger, m: Month, s: StudentId)
    requires Computes(ComputePeriod(l, m), s)
    ensures s in StudentsInOrder(TallyAttendance(l, m)) || s in OpeningBalances(l, m) || s in AdjustmentsByStudent(l, m)
  {
    var ts, op, adj := TallyAttendance(l, m), OpeningBalances(l, m), AdjustmentsByStudent(l, m);
    var j :| 0 <= j < |ComputePeriod(l, m)| && ComputePeriod(l, m)[j].student == s;
    assert BillingOrder(ts, op, adj)[j] == s;
    BillingOrderMembers(ts, op, adj, s);
  }

  lemma {:induction false} RedraftAllSame(k: Ledger, m: Month, cs: seq<Computed>)
    requires UniqueInvoices(k.invoices)
    requires forall j :: 0 <= j < |cs| ==> RowOf(k, m, cs[j].student) == Some(DraftedRow(k, m, cs[j]))
    ensures DraftAll(k, m, cs) == k
  {
    var n := |cs|;
    if n == 0 {
    } else {
      RedraftAllSame(k, m, cs[..n-1]);
    }
  }

  /** Drafting an unchanged period a second time writes the same rows: nothing changes. */
  lemma DraftTwiceIsDraftOnce(l: Ledger, m: Month)
    requires Inv(l) && DraftPeriod(l, m).Ok?
    ensures DraftPeriod(DraftPeriod(l, m).value, m) == DraftPeriod(l, m)
  {
    var cs := ComputePeriod(l, m);
    var k := DraftAll(l, m, cs);
    DraftComputedKeeps(l, m);
    DraftAllTouchesOnlyInvoices(l, m, cs);
    ComputeAfterDraft(l, m);
    ComputedStudents(l, m);
    forall j | 0 <= j < |cs| ensures RowOf(k, m, cs[j].student) == Some(DraftedRow(k, m, cs[j])) {
      DraftAllRows(l, m, cs, j);
      ComputePeriodFits(l, m, j);
      BaseLinesUnique(l, m, cs[j].student);
      RedraftIdempotent(Base(l, m, cs[j].student).lines, cs[j].lines);
      AdjustmentsAfterDraft(l, m, cs[j].student);
    }
    RedraftAllSame(k, m, cs);
    DraftableIffAllDrafts(k, m);
    forall i | 0 <= i < |k.invoices| && k.invoices[i].month == m ensures k.invoices[i].status == Draft {
      assert InvoiceOk(k, i);
    }
  }
}
