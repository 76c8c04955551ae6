/** Where a student's money is: what is owed and what was paid against the live worth of the billed
    lessons, over runs that carry corrections from month to month. */
module Conservation {
  import opened Options
  import opened Ids
  import opened InvoiceCalculator
  import opened Ledgers
  import opened LedgerInvariants
  import opened LedgerSteps
  import opened PeriodClose
  import opened Reconciliation
  import opened CarryRuns
  import opened DebtChain

  // ----- sums -------------------------------------------------------------

  function Sum(n: nat, f: nat -> int): int { if n == 0 then 0 else Sum(n-1, f) + f(n-1) }

  lemma {:induction false} SumSame(n: nat, f: nat -> int, g: nat -> int)
    requires forall i: nat :: i < n ==> f(i) == g(i)
    ensures Sum(n, f) == Sum(n, g)
  {
    if n == 0 {
    } else {
      SumSame(n-1, f, g);
    }
  }

  lemma {:induction false} SumAdd(n: nat, f: nat -> int, g: nat -> int, h: nat -> int)
    requires forall i: nat :: i < n ==> h(i) == f(i) + g(i)
    ensures Sum(n, h) == Sum(n, f) + Sum(n, g)
  {
    if n == 0 {
    } else {
      SumAdd(n-1, f, g, h);
    }
  }

  lemma {:induction false} SumZero(n: nat, f: nat -> int)
    requires forall i: nat :: i < n ==> f(i) == 0
    ensures Sum(n, f) == 0
  {
    if n == 0 {
    } else {
      SumZero(n-1, f);
    }
  }

  lemma {:induction false} SumOne(n: nat, f: nat -> int, j: nat)
    requires j < n && forall i: nat :: i < n && i != j ==> f(i) == 0
    ensures Sum(n, f) == f(j)
  {
    if j == n-1 {
      SumZero(n-1, f);
    } else {
      SumOne(n-1, f, j);
    }
  }

  function Along(h: (nat, nat) -> int, i: nat): nat -> int { (a: nat) => h(i, a) }
  function Across(h: (nat, nat) -> int, a: nat): nat -> int { (i: nat) => h(i, a) }
  function Inner(m: nat, h: (nat, nat) -> int): nat -> int { (i: nat) => Sum(m, Along(h, i)) }
  function Outer(n: nat, h: (nat, nat) -> int): nat -> int { (a: nat) => Sum(n, Across(h, a)) }

  lemma {:induction false} SumSwap(n: nat, m: nat, h: (nat, nat) -> int)
    ensures Sum(n, Inner(m, h)) == Sum(m, Outer(n, h))
  {
    if n == 0 {
      SumZero(m, Outer(0, h));
    } else {
      SumSwap(n-1, m, h);
      SumAdd(m, Outer(n-1, h), Along(h, n-1), Outer(n, h));
    }
  }

  // ----- the student's closed bills ---------------------------------------

  /** Row i is a bill of the student for a closed month. */
  predicate Bill(l: Ledger, st: StudentId, i: nat) {
    i < |l.invoices| && l.invoices[i].student == st && IsClosed(l, l.invoices[i].month)
    && l.invoices[i].status != Draft && l.invoices[i].status != Void
  }

  function LiveTerm(l: Ledger, st: StudentId): nat -> int {
    (i: nat) => if Bill(l, st, i) then LiveCharge(l.sessions, l.invoices[i].lines, st, l.invoices[i].month) else 0
  }

  function PaidTerm(l: Ledger, st: StudentId): nat -> int { (i: nat) => if Bill(l, st, i) then l.invoices[i].paid
      else 0 }

  function NetTerm(l: Ledger, st: StudentId): nat -> int {
    (i: nat) => if Bill(l, st, i) then l.invoices[i].charge + l.invoices[i].adjustments - l.invoices[i].paid else 0
  }

  /** Adjustment a sits on a closed bill of the student. */
  predicate OnBill(l: Ledger, st: StudentId, a: nat) {
    a < |l.adjustments| && Bill(l, st, l.adjustments[a].invoice)
  }

  function ManualTerm(l: Ledger, st: StudentId): nat -> int {
    (a: nat) => if OnBill(l, st, a) && l.adjustments[a].source.None? then l.adjustments[a].amount else 0
  }

  function CarryInTerm(l: Ledger, st: StudentId): nat -> int {
    (a: nat) => if OnBill(l, st, a) && l.adjustments[a].source.Some? then l.adjustments[a].amount else 0
  }

  /** Adjustment a was carried out of the month of the student's closed bill i. */
  predicate OutOf(l: Ledger, st: StudentId, i: nat, a: nat) {
    a < |l.adjustments| && Bill(l, st, i) && CarriedFrom(l, l.adjustments[a], st, l.invoices[i].month)
  }

  predicate FromBill(l: Ledger, st: StudentId, a: nat) {
    exists i: nat :: i < |l.invoices| && OutOf(l, st, i, a)
  }

  function CarryOutTerm(l: Ledger, st: StudentId): nat -> int {
    (a: nat) => if FromBill(l, st, a) then l.adjustments[a].amount else 0
  }

  /** Live lessons of the billed months at the frozen prices. */
  function LiveWorth(l: Ledger, st: StudentId): int { Sum(|l.invoices|, LiveTerm(l, st)) }
  function PaidOnBills(l: Ledger, st: StudentId): int { Sum(|l.invoices|, PaidTerm(l, st)) }
  function NetOnBills(l: Ledger, st: StudentId): int { Sum(|l.invoices|, NetTerm(l, st)) }
  function ManualOnBills(l: Ledger, st: StudentId): int { Sum(|l.adjustments|, ManualTerm(l, st)) }
  /** Carries that landed on closed bills, and carries that left closed bills. */
  function CarriedIn(l: Ledger, st: StudentId): int { Sum(|l.adjustments|, CarryInTerm(l, st)) }
  function CarriedOut(l: Ledger, st: StudentId): int { Sum(|l.adjustments|, CarryOutTerm(l, st)) }

  // ----- adjustments, by row and by bill ----------------------------------

  function OnRow(l: Ledger, st: StudentId): (nat, nat) -> int {
    (i: nat, a: nat) => if a < |l.adjustments| && Bill(l, st, i) &&
      l.adjustments[a].invoice == i then l.adjustments[a].amount else 0
  }

  function OutOfRow(l: Ledger, st: StudentId): (nat, nat) -> int {
    (i: nat, a: nat) => if OutOf(l, st, i, a) then l.adjustments[a].amount else 0
  }

  lemma {:induction false} AdjustmentSumIs(l: Ledger, st: StudentId, i: nat, m: nat)
    requires Bill(l, st, i) && m <= |l.adjustments|
    ensures AdjustmentSum(l.adjustments[..m], i) == Sum(m, Along(OnRow(l, st), i))
  {
    if m == 0 {
    } else {
      AdjustmentSumIs(l, st, i, m-1);
      assert l.adjustments[..m][..m-1] == l.adjustments[..m-1];
    }
  }

  lemma {:induction false} CarriedIs(l: Ledger, st: StudentId, i: nat, m: nat)
    requires Bill(l, st, i) && m <= |l.adjustments|
    ensures AlreadyCarried(l, l.adjustments[..m], st, l.invoices[i].month) == Sum(m, Along(OutOfRow(l, st), i))
  {
    if m == 0 {
    } else {
      CarriedIs(l, st, i, m-1);
      assert l.adjustments[..m][..m-1] == l.adjustments[..m-1];
    }
  }

  function AdjustmentTerm(l: Ledger, st: StudentId): nat -> int {
    (i: nat) => if Bill(l, st, i) then l.invoices[i].adjustments else 0
  }

  function CarriedTerm(l: Ledger, st: StudentId): nat -> int {
    (i: nat) => if Bill(l, st, i) then Carried(l, st, l.invoices[i].month) else 0
  }

  /** Summed over the bills, the adjustment totals are the adjustments that sit on bills. */
  lemma AdjustmentsOnBills(l: Ledger, st: StudentId)
    requires Inv(l)
    ensures Sum(|l.invoices|, AdjustmentTerm(l, st)) == ManualOnBills(l, st) + CarriedIn(l, st)
  {
    var n, m, h := |l.invoices|, |l.adjustments|, OnRow(l, st);
    assert l.adjustments[..m] == l.adjustments;
    forall i: nat | i < n ensures AdjustmentTerm(l, st)(i) == Inner(m, h)(i) {
      assert InvoiceOk(l, i);
      if Bill(l, st, i) { AdjustmentSumIs(l, st, i, m); } else { SumZero(m, Along(h, i)); }
    }
    SumSame(n, AdjustmentTerm(l, st), Inner(m, h));
    SumSwap(n, m, h);
    forall a: nat | a < m ensures Outer(n, h)(a) == ManualTerm(l, st)(a) + CarryInTerm(l, st)(a) {
      assert AdjustmentOk(l, l.adjustments[a]);
      SumOne(n, Across(h, a), l.adjustments[a].invoice);
    }
    SumAdd(m, ManualTerm(l, st), CarryInTerm(l, st), Outer(n, h));
  }

  lemma OneSourceBill(l: Ledger, st: StudentId, a: nat, i: nat, j: nat)
    requires UniqueInvoices(l.invoices) && OutOf(l, st, i, a) && OutOf(l, st, j, a)
    ensures i == j
  {
  }

  /** Summed over the bills, the carried sums are the carries that left bills. */
  lemma CarriesOutOfBills(l: Ledger, st: StudentId)
    requires Inv(l)
    ensures Sum(|l.invoices|, CarriedTerm(l, st)) == CarriedOut(l, st)
  {
    var n, m, h := |l.invoices|, |l.adjustments|, OutOfRow(l, st);
    assert l.adjustments[..m] == l.adjustments;
    forall i: nat | i < n ensures CarriedTerm(l, st)(i) == Inner(m, h)(i) {
      if Bill(l, st, i) { CarriedIs(l, st, i, m); } else { SumZero(m, Along(h, i)); }
    }
    SumSame(n, CarriedTerm(l, st), Inner(m, h));
    SumSwap(n, m, h);
    forall a: nat | a < m ensures Outer(n, h)(a) == CarryOutTerm(l, st)(a) {
      if FromBill(l, st, a) {
        var j: nat :| j < n && OutOf(l, st, j, a);
        forall i: nat | i < n && i != j ensures h(i, a) == 0 {
          if OutOf(l, st, i, a) { OneSourceBill(l, st, a, i, j); }
        }
        SumOne(n, Across(h, a), j);
      } else {
        SumZero(n, Across(h, a));
      }
    }
    SumSame(m, Outer(n, h), CarryOutTerm(l, st));
  }

  /** Conservation on the bills: what was charged and adjusted net of payments, plus what was paid,
      is the live worth plus manual adjustments, with carries counted where they landed instead of
      where they came from. */
  lemma NetPlusPaidIsWorth(l: Ledger, st: StudentId)
    requires Inv(l) && AllSettled(l)
    ensures NetOnBills(l, st) + PaidOnBills(l, st) ==
      LiveWorth(l, st) + ManualOnBills(l, st) + CarriedIn(l, st) - CarriedOut(l, st)
  {
    var n := |l.invoices|;
    AdjustmentsOnBills(l, st);
    CarriesOutOfBills(l, st);
    var charges: nat -> int := (i: nat) => if Bill(l, st, i) then l.invoices[i].charge else 0;
    var gross: nat -> int := (i: nat) => if Bill(l, st, i) then l.invoices[i].charge + l.invoices[i].adjustments else 0;
    forall i: nat | i < n ensures LiveTerm(l, st)(i) == charges(i) + CarriedTerm(l, st)(i) {
      if Bill(l, st, i) { assert Settled(l, i); }
    }
    SumAdd(n, charges, CarriedTerm(l, st), LiveTerm(l, st));
    SumAdd(n, charges, AdjustmentTerm(l, st), gross);
    SumAdd(n, NetTerm(l, st), PaidTerm(l, st), gross);
  }

  // ----- from bills to months ---------------------------------------------

  /** No row of a closed month is a draft. */
  ghost predicate NoClosedDrafts(l: Ledger) {
    forall i :: 0 <= i < |l.invoices| && IsClosed(l, l.invoices[i].month) ==> l.invoices[i].status != Draft
  }

  function At(xs: seq<int>): nat -> int { (k: nat) => if k < |xs| then xs[k] else 0 }

  lemma {:induction false} SumFromIsSum(xs: seq<int>)
    ensures SumFrom(xs, 0) == Sum(|xs|, At(xs))
  {
    var n := |xs|;
    if n == 0 {
    } else {
      SumFromIsSum(xs[..n-1]);
      SumSame(n-1, At(xs[..n-1]), At(xs));
    }
  }

  function OfMonth(l: Ledger, st: StudentId, months: seq<Month>): (nat, nat) -> int {
    (i: nat, j: nat) =>
      if j < |months| && Bill(l, st, i) && l.invoices[i].month == months[j] then NetTerm(l, st)(i) else 0
  }

  lemma MonthOfBill(l: Ledger, st: StudentId, i: nat)
    requires Bill(l, st, i)
    ensures Sum(|ClosedMonths(l)|, Along(OfMonth(l, st, ClosedMonths(l)), i)) == NetTerm(l, st)(i)
  {
    var months := ClosedMonths(l);
    assert l.invoices[i].month in months;
    var j: nat :| j < |months| && months[j] == l.invoices[i].month;
    SumOne(|months|, Along(OfMonth(l, st, months), i), j);
  }

  /** A row of a closed month that is no bill is an empty void one. */
  lemma RowNet(l: Ledger, st: StudentId, i: nat)
    requires NoClosedDrafts(l) && VoidsAreEmpty(l)
    requires i < |l.invoices| && l.invoices[i].student == st && IsClosed(l, l.invoices[i].month)
    ensures NetTerm(l, st)(i) == l.invoices[i].charge + l.invoices[i].adjustments - l.invoices[i].paid
  {
    assert VoidIsEmpty(l.invoices[i]);
  }

  lemma BillOfMonth(l: Ledger, st: StudentId, months: seq<Month>, j: nat)
    requires Inv(l) && NoClosedDrafts(l) && VoidsAreEmpty(l)
    requires j < |months| && IsClosed(l, months[j])
    ensures Sum(|l.invoices|, Across(OfMonth(l, st, months), j)) == Net(l, months[j], st)
  {
    var p, f := months[j], Across(OfMonth(l, st, months), j);
    var found := Find(l.invoices, p, st);
    forall x: nat | x < |l.invoices| && found != Some(x) ensures f(x) == 0 {
      if Bill(l, st, x) && l.invoices[x].month == p { FindUnique(l.invoices, x); }
    }
    match found
    case None => SumZero(|l.invoices|, f);
    case Some(i) =>
      SumOne(|l.invoices|, f, i);
      RowNet(l, st, i);
  }

  /** The net amounts of the bills are the net amounts of the closed months. */
  lemma NetByMonth(l: Ledger, st: StudentId)
    requires Inv(l) && NoClosedDrafts(l) && VoidsAreEmpty(l)
    ensures NetOnBills(l, st) == SumFrom(Nets(l, ClosedMonths(l), st), 0)
  {
    var months := ClosedMonths(l);
    var n, m, h, xs := |l.invoices|, |months|, OfMonth(l, st, months), Nets(l, months, st);
    forall i: nat | i < n ensures NetTerm(l, st)(i) == Inner(m, h)(i) {
      if Bill(l, st, i) { MonthOfBill(l, st, i); } else { SumZero(m, Along(h, i)); }
    }
    SumSame(n, NetTerm(l, st), Inner(m, h));
    SumSwap(n, m, h);
    forall j: nat | j < m ensures Outer(n, h)(j) == At(xs)(j) {
      assert months[j] in months;
      BillOfMonth(l, st, months, j);
    }
    SumSame(m, Outer(n, h), At(xs));
    SumFromIsSum(xs);
  }

  // ----- no closed drafts in orderly runs ---------------------------------

  lemma OldRowsStayBilled(l: Ledger, k: Ledger, i: nat)
    requires Evolves(l, k) && NoClosedDrafts(l) && i < |l.invoices| && IsClosed(l, l.invoices[i].month)
    ensures k.invoices[i].status != Draft
  {
    assert Frozen(l.invoices[i], k.invoices[i]);
  }

  lemma CloseLeavesNoDraft(l: Ledger, m: Month, unconfirmed: bool)
    requires Inv(l) && NoClosedDrafts(l) && ClosePeriod(l, m, unconfirmed).Ok?
    ensures NoClosedDrafts(ClosePeriod(l, m, unconfirmed).value.0)
  {
    var k := ClosePeriod(l, m, unconfirmed).value.0;
    CloseCarries(l, m, unconfirmed);
    forall i | 0 <= i < |k.invoices| && IsClosed(k, k.invoices[i].month) ensures k.invoices[i].status != Draft {
      if k.invoices[i].month == m {
        CloseLeavesNoOtherRow(l, m, unconfirmed, i);
      } else {
        OtherMonthRow(l, m, unconfirmed, i);
      }
    }
  }

  lemma DraftLeavesNoDraft(l: Ledger, m: Month)
    requires Inv(l) && NoClosedDrafts(l) && DraftPeriod(l, m).Ok?
    ensures NoClosedDrafts(DraftPeriod(l, m).value)
  {
    var k := DraftPeriod(l, m).value;
    DraftAllTouchesOnlyInvoices(l, m, ComputePeriod(l, m));
    forall i | 0 <= i < |k.invoices| && IsClosed(k, k.invoices[i].month) ensures k.invoices[i].status != Draft {
      OtherMonthDrafted(l, m, ComputePeriod(l, m), i);
    }
  }

  lemma KeptRowsLeaveNoDraft(l: Ledger, k: Ledger)
    requires Inv(l) && Inv(k) && NoClosedDrafts(l) && ClosedKept(l, k)
    ensures NoClosedDrafts(k)
  {
    forall i | 0 <= i < |k.invoices| && IsClosed(k, k.invoices[i].month) ensures k.invoices[i].status != Draft {
      FindUnique(k.invoices, i);
      assert RowOf(k, k.invoices[i].month, k.invoices[i].student) ==
        RowOf(l, k.invoices[i].month, k.invoices[i].student);
    }
  }

  lemma ReconcileLeavesNoDraft(l: Ledger, sid: SessionId, today: Month, roster: set<EnrollmentId>)
    requires Inv(l) && NoClosedDrafts(l)
    requires sid < |l.sessions| && IsClosed(l, l.sessions[sid].month) ==>
      CarryLandsOpen(l, l.sessions[sid].month, today)
    ensures NoClosedDrafts(ReconcileSession(l, sid, today, roster))
  {
    if sid < |l.sessions| && IsClosed(l, l.sessions[sid].month) {
      ReconcileSessionKeeps(l, sid, today, roster);
      ReconcileAllClosedKept(l, sid, SortedIds(l.sessions[sid].sheet.Keys), today, roster);
      KeptRowsLeaveNoDraft(l, ReconcileSession(l, sid, today, roster));
    }
  }

  lemma SameRowsLeaveNoDraft(l: Ledger, k: Ledger)
    requires NoClosedDrafts(l) && Evolves(l, k) && |k.invoices| == |l.invoices|
    requires forall m :: IsClosed(k, m) <==> IsClosed(l, m)
    ensures NoClosedDrafts(k)
  {
    forall i | 0 <= i < |k.invoices| && IsClosed(k, k.invoices[i].month) ensures k.invoices[i].status != Draft {
      assert Frozen(l.invoices[i], k.invoices[i]);
      OldRowsStayBilled(l, k, i);
    }
  }

  lemma StepLeavesNoDraft(l: Ledger, op: Op)
    requires Inv(l) && NoClosedDrafts(l) && Orderly(l, op)
    ensures NoClosedDrafts(Step(l, op))
  {
    StepKeeps(l, op);
    match op
    case OpClose(m, unconfirmed) => if ClosePeriod(l, m, unconfirmed).Ok? { CloseLeavesNoDraft(l, m, unconfirmed); }
    case OpDraft(m) => if DraftPeriod(l, m).Ok? { DraftLeavesNoDraft(l, m); }
    case OpReconcile(sid, today, roster) => ReconcileLeavesNoDraft(l, sid, today, roster);
    case OpConfirm(sid, sheet, today) =>
      if Confirm(l, sid, sheet, today).Ok? {
        var l1 := SetSheet(l, sid, sheet);
        SetSheetKeeps(l, sid, sheet);
        assert OpenAfter(l1, l.sessions[sid].month) == OpenAfter(l, l.sessions[sid].month);
        ReconcileLeavesNoDraft(l1, sid, today, RosterOf(sheet));
      }
    case _ => SameRowsLeaveNoDraft(l, Step(l, op));
  }

  lemma {:induction false} OrderlyRunLeavesNoDraft(ops: seq<Op>)
    requires OrderlyRun(ops)
    ensures NoClosedDrafts(Run(EMPTY, ops))
  {
    var n := |ops|;
    if n == 0 {
    } else {
      OrderlyRunLeavesNoDraft(ops[..n-1]);
      OrderlyRunsChain(ops[..n-1]);
      StepLeavesNoDraft(Run(EMPTY, ops[..n-1]), ops[n-1]);
    }
  }

  // ----- what is owed is what was taught ----------------------------------

  /** Live worth of the billed lessons and manual adjustments less payments, without the corrections
      still waiting on months that are not closed yet. */
  function Balance(l: Ledger, st: StudentId): int {
    LiveWorth(l, st) + ManualOnBills(l, st) - PaidOnBills(l, st) - (CarriedOut(l, st) - CarriedIn(l, st))
  }

  /** Added up month by month the net amounts never fall below zero: the student never paid ahead. */
  ghost predicate NeverAhead(xs: seq<int>) {
    forall k: nat :: k <= |xs| ==> SumFrom(xs, k) <= SumFrom(xs, 0)
  }

  lemma BalanceIsNet(l: Ledger, st: StudentId)
    requires Inv(l) && AllSettled(l) && NoClosedDrafts(l) && VoidsAreEmpty(l)
    ensures Balance(l, st) == SumFrom(Nets(l, ClosedMonths(l), st), 0)
  {
    NetPlusPaidIsWorth(l, st);
    NetByMonth(l, st);
  }

  /** The largest of zero and all suffix sums. */
  ghost predicate LargestSuffix(xs: seq<int>, largest: int) {
    && (forall k :: 0 <= k <= |xs| ==> SumFrom(xs, k) <= largest)
    && exists k :: 0 <= k <= |xs| && SumFrom(xs, k) == largest
  }

  lemma LargestIsWholeIff(xs: seq<int>, largest: int)
    requires LargestSuffix(xs, largest)
    ensures largest >= SumFrom(xs, 0) && (largest == SumFrom(xs, 0) <==> NeverAhead(xs))
  {
    var k: nat :| k <= |xs| && SumFrom(xs, k) == largest;
  }

  lemma LatestDebtIsLargest(ops: seq<Op>, st: StudentId)
    requires OrderlyRun(ops) && ClosedMonths(Run(EMPTY, ops)) != []
    ensures var l := Run(EMPTY, ops);
      var months := ClosedMonths(l);
      LargestSuffix(Nets(l, months, st), Owed(l, months[|months|-1], st))
  {
    var months := ClosedMonths(Run(EMPTY, ops));
    DebtIsConserved(ops, st, |months|-1);
    assert months[..|months|-1+1] == months;
  }

  lemma LargestAgainstBalance(l: Ledger, st: StudentId, owed: int)
    requires Inv(l) && AllSettled(l) && NoClosedDrafts(l) && VoidsAreEmpty(l)
    requires LargestSuffix(Nets(l, ClosedMonths(l), st), owed)
    ensures owed >= Balance(l, st) && (owed == Balance(l, st) <==> NeverAhead(Nets(l, ClosedMonths(l), st)))
  {
    BalanceIsNet(l, st);
    LargestIsWholeIff(Nets(l, ClosedMonths(l), st), owed);
  }

  /** Conservation over whole runs. After any orderly run whose closed months add up, a student owes
      on the latest closed month at least the balance of everything taught, adjusted, paid and still
      waiting to be corrected, and exactly that if and only if the student never paid ahead; a credit
      is not carried forward. */
  lemma DebtIsWorth(ops: seq<Op>, st: StudentId)
    requires OrderlyRun(ops) && AllSettled(Run(EMPTY, ops)) && ClosedMonths(Run(EMPTY, ops)) != []
    ensures var l := Run(EMPTY, ops);
      var months := ClosedMonths(l);
      var owed := Owed(l, months[|months|-1], st);
      owed >= Balance(l, st) && (owed == Balance(l, st) <==> NeverAhead(Nets(l, months, st)))
  {
    var l := Run(EMPTY, ops);
    var months := ClosedMonths(l);
    OrderlyRunsChain(ops);
    OrderlyRunLeavesNoDraft(ops);
    LatestDebtIsLargest(ops, st);
    LargestAgainstBalance(l, st, Owed(l, months[|months|-1], st));
  }
}
