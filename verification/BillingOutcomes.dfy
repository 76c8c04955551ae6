/** What the billing calls compute, write and refuse, on the rows of the ledger themselves. */
module BillingOutcomes {
  import opened Options
  import opened Ids
  import opened InvoiceCalculator
  import opened InvoiceCalculatorLaws
  import opened Ledgers
  import opened InvoiceLines
  import opened LedgerInvariants
  import opened LedgerSteps
  import opened PeriodClose
  import opened Reconciliation
  import opened DebtChain
  import opened LessonCounts

  // ----- who is billed ----------------------------------------------------

  /** Session k of month m records the student under an enrollment of theirs. */
  ghost predicate Attended(l: Ledger, st: StudentId, m: Month, k: SessionId) {
    && k < |l.sessions| && l.sessions[k].month == m && st in l.sessions[k].sheet
    && l.sessions[k].sheet[st].enrollment < |l.enrollments|
    && l.enrollments[l.sessions[k].sheet[st].enrollment].student == st
  }

  ghost predicate HasRow(l: Ledger, st: StudentId, m: Month, i: InvoiceId) {
    i < |l.invoices| && l.invoices[i].month == m && l.invoices[i].student == st
  }

  /** q is the latest closed month before m. */
  ghost predicate ClosedLast(l: Ledger, m: Month, q: Month) {
    && q < m && q in l.periods && l.periods[q] == Closed
    && forall k :: k in l.periods && l.periods[k] == Closed && k < m ==> k <= q
  }

  /** Row i of the latest closed month before m is not void and less was paid on it than is due. */
  ghost predicate LeavesDebt(l: Ledger, st: StudentId, m: Month, q: Month, i: InvoiceId) {
    && ClosedLast(l, m, q) && HasRow(l, st, q, i) && l.invoices[i].status != Void
    && l.invoices[i].paid < l.invoices[i].totalDue
  }

  lemma PreviousIsLast(l: Ledger, m: Month)
    ensures match PreviousClosed(l, m)
      case Some(q) => ClosedLast(l, m, q) && forall k :: ClosedLast(l, m, k) ==> k == q
      case None => forall k :: !ClosedLast(l, m, k)
  {
    match PreviousClosed(l, m)
    case Some(q) =>
      forall k | k in l.periods && l.periods[k] == Closed && k < m ensures k <= q { assert k in ClosedBefore(l, m); }
    case None =>
      forall k: Month | true ensures !ClosedLast(l, m, k) { assert k !in ClosedBefore(l, m); }
  }

  lemma TalliedIffAttended(l: Ledger, st: StudentId, m: Month)
    ensures st in TallyStudents(l, m) <==> exists k: SessionId :: Attended(l, st, m, k)
  {
    if st in TallyStudents(l, m) {
      var t :| t in TallyAttendance(l, m) && t.student == st;
      TalliesMembers(l.enrollments, l.sessions, m, |l.enrollments|, t);
      CountsLessons(l.sessions, st, t.enrollment, m);
      var k := SomeLesson(l.sessions, st, t.enrollment, m);
      assert Attended(l, st, m, k);
    }
    if exists k: SessionId :: Attended(l, st, m, k) {
      var k: SessionId :| Attended(l, st, m, k);
      var e := l.sessions[k].sheet[st].enrollment;
      CountsLessons(l.sessions, st, e, m);
      assert k in Lessons(l.sessions, st, e, m, false);
      TalliesMembers(l.enrollments, l.sessions, m, |l.enrollments|, TallyOf(l.enrollments, l.sessions, m, e));
    }
  }

  lemma SomeLesson(ss: seq<Session>, st: StudentId, e: EnrollmentId, m: Month) returns (k: SessionId)
    requires |Lessons(ss, st, e, m, false)| > 0
    ensures k < |ss| && IsLesson(ss[k], st, e, m, false)
  {
    k :| k in Lessons(ss, st, e, m, false);
  }

  lemma ComputedIffListed(l: Ledger, m: Month, st: StudentId)
    ensures Computes(ComputePeriod(l, m), st) <==>
      st in TallyStudents(l, m) || st in OpeningBalances(l, m) || st in AdjustmentsByStudent(l, m)
  {
    var ts, op, adj := TallyAttendance(l, m), OpeningBalances(l, m), AdjustmentsByStudent(l, m);
    var order := BillingOrder(ts, op, adj);
    BillingOrderMembers(ts, op, adj, st);
    StudentsInOrderAre(ts);
    assert forall k :: 0 <= k < |order| ==> ComputePeriod(l, m)[k].student == order[k];
    if st in order {
      var k :| 0 <= k < |order| && order[k] == st;
      assert ComputePeriod(l, m)[k].student == st;
    }
    assert st in StudentsInOrder(ts) <==> st in TallyStudents(l, m);
  }

  lemma OpenedIff(l: Ledger, m: Month, st: StudentId)
    requires UniqueInvoices(l.invoices)
    ensures st in OpeningBalances(l, m) ==>
      st in TallyStudents(l, m) || exists q: Month, i: InvoiceId :: LeavesDebt(l, st, m, q, i)
    ensures (exists q: Month, i: InvoiceId :: LeavesDebt(l, st, m, q, i)) ==> st in OpeningBalances(l, m)
  {
    PreviousIsLast(l, m);
    if st in OpeningBalances(l, m) && st !in TallyStudents(l, m) {
      var q := PreviousClosed(l, m).value;
      assert st in CarriedDebtStudents(l, q);
      var i: nat :| i < |l.invoices| && l.invoices[i].month == q && l.invoices[i].status != Void
        && l.invoices[i].totalDue - l.invoices[i].paid > 0 && l.invoices[i].student == st;
      assert LeavesDebt(l, st, m, q, i);
    }
    if q: Month, i: InvoiceId :| LeavesDebt(l, st, m, q, i) {
      FindUnique(l.invoices, i);
      assert st in CarriedDebtStudents(l, q);
    }
  }

  /** A month bills exactly the students with a record in it, with a debt on the latest closed month
      before it, or with a row already. */
  lemma BilledIff(l: Ledger, m: Month, st: StudentId)
    requires UniqueInvoices(l.invoices)
    ensures Computes(ComputePeriod(l, m), st) <==>
      || (exists k: SessionId :: Attended(l, st, m, k))
      || (exists q: Month, i: InvoiceId :: LeavesDebt(l, st, m, q, i))
      || exists i: InvoiceId :: HasRow(l, st, m, i)
  {
    ComputedIffListed(l, m, st);
    TalliedIffAttended(l, st, m);
    OpenedIff(l, m, st);
    AdjustedIff(l, m, st);
  }

  lemma AdjustedIff(l: Ledger, m: Month, st: StudentId)
    ensures st in AdjustmentsByStudent(l, m) <==> exists i: InvoiceId :: HasRow(l, st, m, i)
  {
    if i: InvoiceId :| HasRow(l, st, m, i) {
      assert st in InvoicedStudents(l, m);
    }
    if st in AdjustmentsByStudent(l, m) { assert HasRow(l, st, m, Find(l.invoices, m, st).value); }
  }

  // ----- what they are billed ---------------------------------------------

  /** The one line for an enrollment: its class, its price, how many sessions of the month record it, how
      many of them absent, and count times price. */
  ghost predicate LineFor(l: Ledger, m: Month, e: EnrollmentId, line: Line)
    requires e < |l.enrollments|
  {
    var x := l.enrollments[e];
    var count := |Lessons(l.sessions, x.student, e, m, false)|;
    line == Line(e, x.className, x.unitPrice, count, |Lessons(l.sessions, x.student, e, m, true)|, count * x.unitPrice)
  }

  /** The lines of a computed invoice are those of the student's enrollments with a record in the month,
      one each. */
  lemma ComputedLines(l: Ledger, m: Month, j: nat, e: EnrollmentId)
    requires j < |ComputePeriod(l, m)| && e < |l.enrollments|
    ensures var ci := ComputePeriod(l, m)[j];
      && (forall x :: 0 <= x < |ci.lines| ==>
            ci.lines[x].enrollment < |l.enrollments| && LineFor(l, m, ci.lines[x].enrollment, ci.lines[x]))
      && (forall x, y :: 0 <= x < y < |ci.lines| ==> ci.lines[x].enrollment != ci.lines[y].enrollment)
      && ((exists x :: 0 <= x < |ci.lines| && ci.lines[x].enrollment == e) <==>
            l.enrollments[e].student == ci.student && Lessons(l.sessions, ci.student, e, m, false) != {})
  {
    var ci := ComputePeriod(l, m)[j];
    InvoiceForFits(l.enrollments, l.sessions, m, OpeningBalances(l, m), AdjustmentsByStudent(l, m), ci.student);
    forall x | 0 <= x < |ci.lines|
      ensures ci.lines[x].enrollment < |l.enrollments| && LineFor(l, m, ci.lines[x].enrollment, ci.lines[x])
    {
      assert ci.lines[x] in ci.lines;
      CountsLessons(l.sessions, ci.student, ci.lines[x].enrollment, m);
    }
    CountsLessons(l.sessions, ci.student, e, m);
    LinedIff(l, m, ci, e);
  }

  lemma LinedIff(l: Ledger, m: Month, ci: Computed, e: EnrollmentId)
    requires ComputedFits(l.enrollments, l.sessions, m, ci) && e < |l.enrollments|
    requires exists j :: 0 <= j < |ComputePeriod(l, m)| && ComputePeriod(l, m)[j] == ci
    ensures (exists x :: 0 <= x < |ci.lines| && ci.lines[x].enrollment == e) <==>
      l.enrollments[e].student == ci.student && BillableCount(l.sessions, ci.student, e, m) > 0
  {
    if x :| 0 <= x < |ci.lines| && ci.lines[x].enrollment == e {
      LinedIsTallied(l, m, ci, x);
    }
    if l.enrollments[e].student == ci.student && BillableCount(l.sessions, ci.student, e, m) > 0 {
      var line := FreshLine(l.enrollments, l.sessions, m, e);
      var x :| 0 <= x < |ci.lines| && ci.lines[x] == line;
    }
  }

  lemma LinedIsTallied(l: Ledger, m: Month, ci: Computed, x: nat)
    requires x < |ci.lines| && exists j :: 0 <= j < |ComputePeriod(l, m)| && ComputePeriod(l, m)[j] == ci
    ensures ci.lines[x].enrollment < |l.enrollments|
    ensures l.enrollments[ci.lines[x].enrollment].student == ci.student
    ensures BillableCount(l.sessions, ci.student, ci.lines[x].enrollment, m) > 0
  {
    var ts := TallyAttendance(l, m);
    var mine := TalliesOf(ts, ci.student);
    assert ci.lines == LinesOf(StableSort(mine));
    StableSortMembers(mine, StableSort(mine)[x]);
    TalliesOfMembers(ts, ci.student, StableSort(mine)[x]);
    TalliesMembers(l.enrollments, l.sessions, m, |l.enrollments|, StableSort(mine)[x]);
  }

  /** The amount still unpaid, never below zero. */
  function Unpaid(inv: Invoice): int { if inv.paid < inv.totalDue then inv.totalDue - inv.paid else 0 }

  /** The opening of a computed invoice is what is unpaid on the student's row of the latest closed month
      before it, zero without one or when it is void; its adjustments are those of the row it has. */
  lemma ComputedOpenings(l: Ledger, m: Month, j: nat)
    requires UniqueInvoices(l.invoices) && j < |ComputePeriod(l, m)|
    ensures var ci := ComputePeriod(l, m)[j];
      && (forall q: Month, i: InvoiceId :: ClosedLast(l, m, q) && HasRow(l, ci.student, q, i) ==>
            ci.opening == if l.invoices[i].status == Void then 0 else Unpaid(l.invoices[i]))
      && ((forall q: Month, i: InvoiceId :: !(ClosedLast(l, m, q) && HasRow(l, ci.student, q, i))) ==> ci.opening == 0)
      && (forall i: InvoiceId :: HasRow(l, ci.student, m, i) ==> ci.adjustments == AdjustmentSum(l.adjustments, i))
      && ((forall i: InvoiceId :: !HasRow(l, ci.student, m, i)) ==> ci.adjustments == 0)
      && ci.charge == SumAmounts(ci.lines) && ci.totalDue == ci.opening + ci.charge + ci.adjustments
  {
    var ci := ComputePeriod(l, m)[j];
    ComputedOpening(l, m, ci.student);
    PreviousIsLast(l, m);
    AdjustedIff(l, m, ci.student);
    forall q: Month, i: InvoiceId | ClosedLast(l, m, q) && HasRow(l, ci.student, q, i)
      ensures ci.opening == if l.invoices[i].status == Void then 0 else Unpaid(l.invoices[i])
    {
      FindUnique(l.invoices, i);
    }
    forall i: InvoiceId | HasRow(l, ci.student, m, i) ensures ci.adjustments == AdjustmentSum(l.adjustments, i) {
      FindUnique(l.invoices, i);
      assert ci.student in AdjustmentsByStudent(l, m);
    }
    NoOpening(l, m, ci);
  }

  lemma NoOpening(l: Ledger, m: Month, ci: Computed)
    requires ci.opening == PreviouslyOwed(l, m, ci.student)
    ensures (forall q: Month, i: InvoiceId :: !(ClosedLast(l, m, q) && HasRow(l, ci.student, q, i))) ==> ci.opening == 0
  {
    PreviousIsLast(l, m);
    if ci.opening != 0 {
      var q := PreviousClosed(l, m).value;
      assert HasRow(l, ci.student, q, Find(l.invoices, q, ci.student).value);
    }
  }

  // ----- the order of the lines -------------------------------------------

  /** a comes before b in the dictionary: it is a proper beginning of b, or smaller at the first place
      where they differ. */
  ghost predicate Before(a: string, b: string) { exists n: nat :: DiffersAt(a, b, n) }

  ghost predicate DiffersAt(a: string, b: string, n: nat) {
    n <= |a| && n < |b| && a[..n] == b[..n] && (n == |a| || a[n] < b[n])
  }

  lemma {:induction false} NameLessIsBefore(a: string, b: string)
    ensures NameLess(a, b) <==> Before(a, b)
    decreases |a|
  {
    if |a| > 0 && |b| > 0 && a[0] == b[0] {
      NameLessIsBefore(a[1..], b[1..]);
      if n: nat :| DiffersAt(a, b, n) { WithoutFirst(a, b, n); }
      if n: nat :| DiffersAt(a[1..], b[1..], n) { WithFirst(a, b, n); }
    } else if |b| > 0 {
      assert a[..0] == b[..0];
      if NameLess(a, b) { assert DiffersAt(a, b, 0); }
      if n: nat :| DiffersAt(a, b, n) {
        if n > 0 { SameFirst(a, b, n); }
      }
    }
  }

  lemma WithoutFirst(a: string, b: string, n: nat)
    requires |a| > 0 && |b| > 0 && a[0] == b[0] && DiffersAt(a, b, n)
    ensures n > 0 && DiffersAt(a[1..], b[1..], n - 1)
  {
    if n > 0 { assert a[1..][..n-1] == a[..n][1..] && b[1..][..n-1] == b[..n][1..]; }
  }

  lemma WithFirst(a: string, b: string, n: nat)
    requires |a| > 0 && |b| > 0 && a[0] == b[0] && DiffersAt(a[1..], b[1..], n)
    ensures DiffersAt(a, b, n + 1)
  {
    assert a[..n+1] == [a[0]] + a[1..][..n] && b[..n+1] == [b[0]] + b[1..][..n];
  }

  lemma SameFirst(a: string, b: string, n: nat)
    requires 0 < n <= |a| && n <= |b| && a[..n] == b[..n]
    ensures a[0] == b[0]
  {
    assert a[..n][0] == b[..n][0];
  }

  /** Lines are ordered by the start date of the class, then by its name. */
  lemma LineOrder(l: Ledger, m: Month, j: nat, x: nat, y: nat)
    requires j < |ComputePeriod(l, m)| && x < y < |ComputePeriod(l, m)[j].lines|
    ensures var lines := ComputePeriod(l, m)[j].lines;
      && lines[x].enrollment < |l.enrollments| && lines[y].enrollment < |l.enrollments|
      && var a, b := l.enrollments[lines[x].enrollment], l.enrollments[lines[y].enrollment];
      a.classStart < b.classStart || (a.classStart == b.classStart && !Before(b.className, a.className))
  {
    var ci := ComputePeriod(l, m)[j];
    var ts := TallyAttendance(l, m);
    var mine := TalliesOf(ts, ci.student);
    var sorted := StableSort(mine);
    StableSortSorts(mine);
    TallyOfLine(l, m, ci.student, x);
    TallyOfLine(l, m, ci.student, y);
    NameLessIsBefore(sorted[y].className, sorted[x].className);
    assert !Precedes(sorted[y], sorted[x]);
  }

  lemma TallyOfLine(l: Ledger, m: Month, st: StudentId, x: nat)
    requires x < |StableSort(TalliesOf(TallyAttendance(l, m), st))|
    ensures var t := StableSort(TalliesOf(TallyAttendance(l, m), st))[x];
      && t.enrollment < |l.enrollments| && t.classStart == l.enrollments[t.enrollment].classStart
      && t.className == l.enrollments[t.enrollment].className
  {
    var ts := TallyAttendance(l, m);
    var mine := TalliesOf(ts, st);
    StableSortMembers(mine, StableSort(mine)[x]);
    TalliesOfMembers(ts, st, StableSort(mine)[x]);
    TalliesMembers(l.enrollments, l.sessions, m, |l.enrollments|, StableSort(mine)[x]);
  }

  // ----- drafts and closes ------------------------------------------------

  /** Every row of month m is still a draft. */
  ghost predicate OnlyDrafts(l: Ledger, m: Month) {
    forall i :: 0 <= i < |l.invoices| && l.invoices[i].month == m ==> l.invoices[i].status == Draft
  }

  /** How a draft or a close is refused: no period, a closed one, for a close an unconfirmed session, a row
      that left draft. */
  lemma MonthRefusals(l: Ledger, m: Month, unconfirmed: bool)
    requires UniqueInvoices(l.invoices)
    ensures DraftPeriod(l, m).Ok? <==> m in l.periods && l.periods[m] == Open && OnlyDrafts(l, m)
    ensures DraftPeriod(l, m).Err? ==>
      DraftPeriod(l, m).error ==
        if m !in l.periods then NotFound else if l.periods[m] == Closed then PeriodNotOpen else InvoiceNotDraft
    ensures ClosePeriod(l, m, unconfirmed).Ok? <==>
      m in l.periods && l.periods[m] == Open && !unconfirmed && OnlyDrafts(l, m)
    ensures ClosePeriod(l, m, unconfirmed).Err? ==>
      ClosePeriod(l, m, unconfirmed).error ==
        if m !in l.periods then NotFound else if l.periods[m] == Closed then PeriodNotOpen
        else if unconfirmed then Unconfirmed else InvoiceNotDraft
  {
    DraftableIffAllDrafts(l, m);
  }

  /** A draft or a close writes rows of its month only, as drafts, and a close also marks the month closed;
      nothing else of the ledger changes, and no row goes away. */
  lemma MonthOutcome(l: Ledger, m: Month, unconfirmed: bool, i: InvoiceId)
    requires Inv(l)
    ensures DraftPeriod(l, m).Ok? ==>
      var k := DraftPeriod(l, m).value;
      && k == l.(invoices := k.invoices) && |l.invoices| <= |k.invoices|
      && (i < |l.invoices| && l.invoices[i].month != m ==> k.invoices[i] == l.invoices[i])
      && (i < |l.invoices| ==> k.invoices[i].month == l.invoices[i].month && k.invoices[i].paid == l.invoices[i].paid)
      && (|l.invoices| <= i < |k.invoices| ==> k.invoices[i].month == m && k.invoices[i].paid == 0)
      && (i < |k.invoices| && k.invoices[i].month == m ==> k.invoices[i].status == Draft)
    ensures ClosePeriod(l, m, unconfirmed).Ok? ==>
      var k := ClosePeriod(l, m, unconfirmed).value.0;
      && k == l.(invoices := k.invoices, periods := l.periods[m := Closed]) && |l.invoices| <= |k.invoices|
      && (i < |l.invoices| && l.invoices[i].month != m ==> k.invoices[i] == l.invoices[i])
      && (|l.invoices| <= i < |k.invoices| ==> k.invoices[i].month == m)
      && (i < |k.invoices| && k.invoices[i].month == m ==> k.invoices[i].status in {Issued, Void})
  {
    if DraftPeriod(l, m).Ok? {
      DraftedLedger(l, m, i);
      if ClosePeriod(l, m, unconfirmed).Ok? { ClosedLedger(l, m, unconfirmed, i); }
    }
  }

  lemma DraftedLedger(l: Ledger, m: Month, i: InvoiceId)
    requires Inv(l) && DraftPeriod(l, m).Ok?
    ensures var k := DraftPeriod(l, m).value;
      && k == l.(invoices := k.invoices) && |l.invoices| <= |k.invoices|
      && (i < |l.invoices| && l.invoices[i].month != m ==> k.invoices[i] == l.invoices[i])
      && (i < |l.invoices| ==> k.invoices[i].month == l.invoices[i].month && k.invoices[i].paid == l.invoices[i].paid)
      && (|l.invoices| <= i < |k.invoices| ==> k.invoices[i].month == m && k.invoices[i].paid == 0)
      && (i < |k.invoices| && k.invoices[i].month == m ==> k.invoices[i].status == Draft)
  {
    var cs := ComputePeriod(l, m);
    DraftAllTouchesOnlyInvoices(l, m, cs);
    DraftKeepsRows(l, m, cs, i);
    DraftComputedKeeps(l, m);
    var k := DraftAll(l, m, cs);
    if i < |k.invoices| { assert InvoiceOk(k, i); }
  }

  lemma {:induction false} DraftKeepsRows(l: Ledger, m: Month, cs: seq<Computed>, i: InvoiceId)
    ensures var k := DraftAll(l, m, cs);
      && |l.invoices| <= |k.invoices|
      && (i < |l.invoices| && l.invoices[i].month != m ==> k.invoices[i] == l.invoices[i])
      && (i < |l.invoices| ==> k.invoices[i].month == l.invoices[i].month && k.invoices[i].paid == l.invoices[i].paid)
      && (|l.invoices| <= i < |k.invoices| ==> k.invoices[i].month == m && k.invoices[i].paid == 0)
  {
    if cs == [] {
    } else {
      DraftKeepsRows(l, m, cs[..|cs|-1], i);
    }
  }

  lemma ClosedLedger(l: Ledger, m: Month, unconfirmed: bool, i: InvoiceId)
    requires Inv(l) && DraftPeriod(l, m).Ok? && ClosePeriod(l, m, unconfirmed).Ok?
    ensures var k := ClosePeriod(l, m, unconfirmed).value.0;
      && k == l.(invoices := k.invoices, periods := l.periods[m := Closed]) && |l.invoices| <= |k.invoices|
      && (i < |l.invoices| && l.invoices[i].month != m ==> k.invoices[i] == l.invoices[i])
      && (|l.invoices| <= i < |k.invoices| ==> k.invoices[i].month == m)
      && (i < |k.invoices| && k.invoices[i].month == m ==> k.invoices[i].status in {Issued, Void})
  {
    DraftedLedger(l, m, i);
  }

  // ----- adjustments, payments, voiding -----------------------------------

  /** The status billing derives for a row that is neither a draft nor void. */
  function StatusBy(paid: int, due: int): InvoiceStatus {
    if paid <= 0 then Issued else if due <= paid then Paid else PartiallyPaid
  }

  /** A row after d has been posted on it. */
  function WithPosting(was: Invoice, d: int): Invoice {
    var due := was.totalDue + d;
    was.(adjustments := was.adjustments + d, totalDue := due,
         status := if was.status == Draft || was.status == Void then was.status else StatusBy(was.paid, due))
  }

  lemma OldRowCarries(l: Ledger, id: InvoiceId, d: int)
    requires Inv(l) && id < |l.invoices|
    ensures Retotalled(l.invoices[id], AdjustmentSum(l.adjustments, id) + d) == WithPosting(l.invoices[id], d)
  {
    assert InvoiceOk(l, id);
  }

  lemma NewRowCarries(l: Ledger, l1: Ledger, id: InvoiceId, target: Month, st: StudentId, d: int)
    requires Inv(l) && id == |l.invoices| && l1.invoices == l.invoices + [BlankInvoice(target, st)]
    ensures AdjustmentSum(l.adjustments, id) == 0
    ensures l1.invoices[id := Retotalled(l1.invoices[id], d)] ==
      l.invoices + [Invoice(target, st, 0, 0, d, d, 0, Draft, [])]
  {
    forall x | 0 <= x < |l.adjustments| ensures l.adjustments[x].invoice != id {
      assert AdjustmentOk(l, l.adjustments[x]);
    }
    NoAdjustmentsYet(l.adjustments, id);
  }

  /** A manual adjustment: refused for an amount of zero, a missing row and a void or paid one, in this
      order; otherwise one row is added and its invoice carries the amount in adjustments and total, with
      the status that follows. */
  lemma AdjustmentOutcome(l: Ledger, id: InvoiceId, amount: int)
    requires Inv(l)
    ensures AddAdjustment(l, id, amount) ==
      if amount == 0 then Err(ZeroAmount)
      else if id >= |l.invoices| then Err(NotFound)
      else if l.invoices[id].status == Void || l.invoices[id].status == Paid then Err(BadStatus)
      else
        Ok(Ledger(l.periods, l.enrollments, l.sessions, l.invoices[id := WithPosting(l.invoices[id], amount)],
                  l.adjustments + [Adjustment(id, amount, None)]))
  {
    if amount != 0 && id < |l.invoices| {
      OldRowCarries(l, id, amount);
      AdjustmentSumSnoc(l.adjustments, Adjustment(id, amount, None), id);
    }
  }

  /** A voiding: refused for a missing row, for one that is neither issued nor partially paid and for one
      with a payment, in this order; otherwise the row is void and nothing else changes. */
  lemma VoidOutcome(l: Ledger, id: InvoiceId)
    ensures VoidInvoice(l, id) ==
      if id >= |l.invoices| then Err(NotFound)
      else if l.invoices[id].status == Draft || l.invoices[id].status == Paid || l.invoices[id].status == Void
      then Err(BadStatus)
      else if l.invoices[id].paid != 0 then Err(HasPayment)
      else Ok(l.(invoices := l.invoices[id := l.invoices[id].(status := Void)]))
  {
  }

  /** A payment step: only on a billed row, and raising the paid amount at most to the total due. */
  lemma PaymentOutcome(l: Ledger, id: InvoiceId, paid: nat)
    ensures SetPaid(l, id, paid) ==
      if id >= |l.invoices| then Err(NotFound)
      else if l.invoices[id].status == Draft || l.invoices[id].status == Void then Err(BadStatus)
      else if l.invoices[id].paid < paid && l.invoices[id].totalDue < paid then Err(ExceedsDue)
      else
        var was := l.invoices[id];
        Ok(l.(invoices := l.invoices[id := was.(paid := paid,
          status := if 0 < was.totalDue <= paid then Paid else if 0 < paid then PartiallyPaid else Issued)]))
  {
  }

  // ----- carries ----------------------------------------------------------

  ghost predicate OpenLater(l: Ledger, p: Month, q: Month) { q > p && q in l.periods && l.periods[q] == Open }

  /** Where a carry out of p lands, and the periods then: on the earliest open month after p; without one
      on today's month, or the month after p when that is not past p; one month further when that month
      has been closed. A month without a period is opened. */
  lemma TargetOutcome(l: Ledger, p: Month, today: Month)
    ensures var (k, target) := ResolveTarget(l, p, today);
      var candidate := if today > p then today else p + 1;
      if exists q :: OpenLater(l, p, q) then
        k == l && OpenLater(l, p, target) && forall q :: OpenLater(l, p, q) ==> target <= q
      else if candidate !in l.periods then
        target == candidate && k == l.(periods := l.periods[target := Open])
      else
        target == candidate + 1
        && k == if target in l.periods then l else l.(periods := l.periods[target := Open])
  {
    forall q: Month | true ensures OpenLater(l, p, q) <==> q in OpenAfter(l, p) {}
    if OpenAfter(l, p) == {} {
      assert !OpenLater(l, p, if today > p then today else p + 1);
    } else {
      assert OpenLater(l, p, Min(OpenAfter(l, p)));
    }
  }

  /** What a carry of d writes: one adjustment tagged with the session, and the amount on the student's row
      of the target month, which is a new draft when there was none. */
  ghost predicate CarriedTo(l: Ledger, k: Ledger, sid: SessionId, st: StudentId, target: Month, d: int) {
    && k.sessions == l.sessions && k.enrollments == l.enrollments
    && exists id: InvoiceId ::
         && k.adjustments == l.adjustments + [Adjustment(id, d, Some(sid))]
         && RowCarries(l, k, id, st, target, d)
  }

  ghost predicate RowCarries(l: Ledger, k: Ledger, id: InvoiceId, st: StudentId, target: Month, d: int) {
    if HasRow(l, st, target, id) then
      k.invoices == l.invoices[id := WithPosting(l.invoices[id], d)]
    else
      && id == |l.invoices| && (forall i: InvoiceId :: !HasRow(l, st, target, i))
      && k.invoices == l.invoices + [Invoice(target, st, 0, 0, d, d, 0, Draft, [])]
  }

  /** One student's visit writes nothing when the month is not billed to them or nothing is missing, and
      otherwise carries exactly what is missing. */
  lemma VisitOutcome(l: Ledger, sid: SessionId, st: StudentId, today: Month, roster: set<EnrollmentId>)
    requires Inv(l) && sid < |l.sessions| && st in l.sessions[sid].sheet && IsClosed(l, l.sessions[sid].month)
    ensures var m, k := l.sessions[sid].month, ReconcileStudent(l, sid, st, today, roster);
      if !Billed(l, m, st) then k == l
      else
        var d := Carried(k, st, m) - Carried(l, st, m);
        var (p, target) := ResolveTarget(l, m, today);
        if d == 0 then k == l else CarriedTo(l, k, sid, st, target, d) && k.periods == p.periods
  {
    var m := l.sessions[sid].month;
    CarriedAfterStudent(l, sid, st, today, roster, st, m);
    if Billed(l, m, st) {
      var d := Delta(l, Find(l.invoices, m, st).value, l.sessions[sid].sheet[st].enrollment, roster);
      if d != 0 { PostingCarries(l, sid, st, m, today, d); }
    }
  }

  lemma PostingCarries(l: Ledger, sid: SessionId, st: StudentId, m: Month, today: Month, d: int)
    requires Inv(l)
    ensures var (l1, id) := EnsureTarget(l, m, today, st);
      var k := PostAdjustment(l1, id, d, Some(sid));
      && CarriedTo(l, k, sid, st, ResolveTarget(l, m, today).1, d)
      && k.periods == ResolveTarget(l, m, today).0.periods
  {
    var target := ResolveTarget(l, m, today).1;
    var (l1, id) := EnsureTarget(l, m, today, st);
    var k := PostAdjustment(l1, id, d, Some(sid));
    ResolveTouchesPeriodsOnly(l, m, today);
    AdjustmentSumSnoc(l.adjustments, Adjustment(id, d, Some(sid)), id);
    match Find(l.invoices, target, st) {
      case Some(i) => OldRowCarries(l, i, d);
      case None => NewRowCarries(l, l1, id, target, st, d);
    }
    assert k.adjustments == l.adjustments + [Adjustment(id, d, Some(sid))];
    assert RowCarries(l, k, id, st, target, d);
  }

  // ----- sheets -----------------------------------------------------------

  /** Every student on the sheet has an enrollment of their own. */
  ghost predicate OwnEnrollments(l: Ledger, sheet: map<StudentId, Mark>) {
    forall st :: st in sheet ==>
      sheet[st].enrollment < |l.enrollments| && l.enrollments[sheet[st].enrollment].student == st
  }

  /** A committed sheet replaces that session's sheet and nothing else; a confirmation also reconciles the
      session, with the sheet's enrollments as the roster. */
  lemma SheetOutcome(l: Ledger, sid: SessionId, sheet: map<StudentId, Mark>, today: Month)
    ensures Commit(l, sid, sheet).Ok? <==> sid < |l.sessions| && OwnEnrollments(l, sheet)
    ensures Confirm(l, sid, sheet, today).Ok? <==> sid < |l.sessions| && OwnEnrollments(l, sheet)
    ensures sid < |l.sessions| && OwnEnrollments(l, sheet) ==>
      var k := l.(sessions := l.sessions[sid := Session(l.sessions[sid].month, sheet)]);
      && Commit(l, sid, sheet) == Ok(k)
      && Confirm(l, sid, sheet, today) ==
           Ok(ReconcileSession(k, sid, today, set st | st in sheet :: sheet[st].enrollment))
  {
  }
}
