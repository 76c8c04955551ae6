/** What every operation keeps true of the billing tables. */
module LedgerInvariants {
  import opened Options
  import opened Ids
  import opened InvoiceCalculator
  import opened Ledgers
  import opened InvoiceLines

  ghost predicate UniqueInvoices(invs: seq<Invoice>) {
    forall i, j :: 0 <= i < j < |invs| ==> invs[i].month != invs[j].month || invs[i].student != invs[j].student
  }

  ghost predicate LineFits(es: seq<Enrollment>, st: StudentId, line: Line) {
    line.enrollment < |es| && es[line.enrollment].student == st && line.amount == line.billable * line.unitPrice
  }

  ghost predicate LinesFit(es: seq<Enrollment>, st: StudentId, lines: seq<Line>) {
    UniqueLines(lines) && forall k :: 0 <= k < |lines| ==> LineFits(es, st, lines[k])
  }

  /** The status is the one billing derives from paid amount and total due. */
  predicate Derived(inv: Invoice) { inv.status == DeriveStatus(inv.status, inv.paid, inv.totalDue) }

  /** Partially paid although nothing is due any more: what the payment rule leaves where billing
      derives paid. */
  predicate Overtaken(inv: Invoice) { inv.status == PartiallyPaid && inv.paid > 0 && inv.totalDue <= 0 }

  /** The money columns of one row agree with its lines, its adjustments and its status. */
  ghost predicate Balanced(inv: Invoice, adjustmentSum: int) {
    && inv.charge == SumAmounts(inv.lines)
    && inv.adjustments == adjustmentSum
    && inv.totalDue == inv.opening + inv.charge + inv.adjustments
    && inv.paid >= 0
    && (inv.status == Draft ==> inv.paid == 0)
    && (Derived(inv) || Overtaken(inv))
  }

  ghost predicate InvoiceOk(l: Ledger, i: nat)
    requires i < |l.invoices|
  {
    var inv := l.invoices[i];
    && inv.month in l.periods
    && (IsOpen(l, inv.month) ==> inv.status == Draft)
    && LinesFit(l.enrollments, inv.student, inv.lines)
    && Balanced(inv, AdjustmentSum(l.adjustments, i))
  }

  ghost predicate AdjustmentOk(l: Ledger, a: Adjustment) {
    && a.invoice < |l.invoices|
    && (a.source.Some? ==> a.source.value < |l.sessions| && IsClosed(l, l.sessions[a.source.value].month))
  }

  ghost predicate SheetsOk(l: Ledger) {
    forall s :: 0 <= s < |l.sessions| ==> SheetFits(l, l.sessions[s].sheet)
  }

  ghost predicate Inv(l: Ledger) {
    && UniqueInvoices(l.invoices)
    && (forall i :: 0 <= i < |l.invoices| ==> InvoiceOk(l, i))
    && (forall k :: 0 <= k < |l.adjustments| ==> AdjustmentOk(l, l.adjustments[k]))
    && SheetsOk(l)
  }

  // ----- small facts ------------------------------------------------------

  lemma FindUnique(invs: seq<Invoice>, i: nat)
    requires UniqueInvoices(invs) && i < |invs|
    ensures Find(invs, invs[i].month, invs[i].student) == Some(i)
  {
  }

  lemma {:induction false} NoAdjustmentsYet(adjs: seq<Adjustment>, id: nat)
    requires forall k :: 0 <= k < |adjs| ==> adjs[k].invoice != id
    ensures AdjustmentSum(adjs, id) == 0
  {
    if |adjs| == 0 {
    } else {
      NoAdjustmentsYet(adjs[..|adjs|-1], id);
    }
  }

  lemma AdjustmentSumSnoc(adjs: seq<Adjustment>, a: Adjustment, id: nat)
    ensures AdjustmentSum(adjs + [a], id) == AdjustmentSum(adjs, id) + if a.invoice == id then a.amount else 0
  {
    assert (adjs + [a])[..|adjs|] == adjs;
  }

  // ----- computed lines ---------------------------------------------------

  ghost predicate UniqueTallies(ts: seq<Tally>) {
    forall i, j :: 0 <= i < j < |ts| ==> ts[i].enrollment != ts[j].enrollment
  }

  lemma {:induction false} InsertMembers(sorted: seq<Tally>, t: Tally, x: Tally)
    ensures x in Insert(sorted, t) <==> x in sorted || x == t
  {
    assert x in multiset(Insert(sorted, t)) <==> x in multiset(sorted) + multiset{t};
  }

  lemma {:induction false} InsertKeepsUnique(sorted: seq<Tally>, t: Tally)
    requires UniqueTallies(sorted)
    requires forall x :: x in sorted ==> x.enrollment != t.enrollment
    ensures UniqueTallies(Insert(sorted, t))
  {
    var n := |sorted|;
    if n > 0 && Precedes(t, sorted[n-1]) {
      var r := Insert(sorted[..n-1], t);
      InsertKeepsUnique(sorted[..n-1], t);
      forall i | 0 <= i < |r| ensures r[i].enrollment != sorted[n-1].enrollment {
        InsertMembers(sorted[..n-1], t, r[i]);
        assert sorted[n-1] in sorted;
      }
    }
  }

  lemma StableSortMembers(ts: seq<Tally>, x: Tally)
    ensures x in StableSort(ts) <==> x in ts
  {
    assert x in multiset(StableSort(ts)) <==> x in multiset(ts);
  }

  lemma {:induction false} StableSortKeepsUnique(ts: seq<Tally>)
    requires UniqueTallies(ts)
    ensures UniqueTallies(StableSort(ts))
  {
    var n := |ts|;
    if n == 0 {
    } else {
      StableSortKeepsUnique(ts[..n-1]);
      forall x | x in StableSort(ts[..n-1]) ensures x.enrollment != ts[n-1].enrollment {
        StableSortMembers(ts[..n-1], x);
      }
      InsertKeepsUnique(StableSort(ts[..n-1]), ts[n-1]);
    }
  }

  lemma {:induction false} TalliesOfMembers(ts: seq<Tally>, st: StudentId, t: Tally)
    ensures t in TalliesOf(ts, st) <==> t in ts && t.student == st
  {
    var n := |ts|;
    if n == 0 {
    } else {
      TalliesOfMembers(ts[..n-1], st, t);
      assert ts == ts[..n-1] + [ts[n-1]];
    }
  }

  lemma {:induction false} TalliesOfKeepsUnique(ts: seq<Tally>, st: StudentId)
    requires UniqueTallies(ts)
    ensures UniqueTallies(TalliesOf(ts, st))
  {
    var n := |ts|;
    if n == 0 {
    } else {
      TalliesOfKeepsUnique(ts[..n-1], st);
      forall x | x in TalliesOf(ts[..n-1], st) ensures x.enrollment != ts[n-1].enrollment {
        TalliesOfMembers(ts[..n-1], st, x);
      }
    }
  }

  lemma {:induction false} TalliesMembers(es: seq<Enrollment>, ss: seq<Session>, m: Month, n: nat, t: Tally)
    requires n <= |es|
    ensures t in TalliesUpTo(es, ss, m, n) <==>
      t.enrollment < n && BillableCount(ss, es[t.enrollment].student, t.enrollment, m) > 0
      && t == TallyOf(es, ss, m, t.enrollment)
  {
    if n == 0 {
    } else {
      TalliesMembers(es, ss, m, n-1, t);
    }
  }

  lemma {:induction false} TalliesUnique(es: seq<Enrollment>, ss: seq<Session>, m: Month, n: nat)
    requires n <= |es|
    ensures UniqueTallies(TalliesUpTo(es, ss, m, n))
  {
    if n == 0 {
    } else {
      TalliesUnique(es, ss, m, n-1);
      forall x | x in TalliesUpTo(es, ss, m, n-1) ensures x.enrollment < n-1 { TalliesMembers(es, ss, m, n-1, x); }
    }
  }

  /** The line computed for enrollment e of its owner. */
  function FreshLine(es: seq<Enrollment>, ss: seq<Session>, m: Month, e: EnrollmentId): Line
    requires e < |es|
  {
    LineOf(TallyOf(es, ss, m, e))
  }

  /** A computed invoice holds exactly one correct line for each attended enrollment of the student. */
  ghost predicate ComputedFits(es: seq<Enrollment>, ss: seq<Session>, m: Month, ci: Computed) {
    && UniqueLines(ci.lines)
    && ci.charge == SumAmounts(ci.lines)
    && ci.totalDue == ci.opening + ci.charge + ci.adjustments
    && (forall line :: line in ci.lines ==>
          line.enrollment < |es| && es[line.enrollment].student == ci.student
          && line == FreshLine(es, ss, m, line.enrollment))
    && (forall e :: 0 <= e < |es| && es[e].student == ci.student && BillableCount(ss, ci.student, e, m) > 0 ==>
          FreshLine(es, ss, m, e) in ci.lines)
  }

  lemma InvoiceForFits(es: seq<Enrollment>, ss: seq<Session>, m: Month, opening: map<StudentId, int>,
      adjustments: map<StudentId, int>, st: StudentId)
    ensures ComputedFits(es, ss, m, InvoiceFor(TalliesUpTo(es, ss, m, |es|), opening, adjustments, st))
  {
    var ts := TalliesUpTo(es, ss, m, |es|);
    var mine := TalliesOf(ts, st);
    var sorted := StableSort(mine);
    var ci := InvoiceFor(ts, opening, adjustments, st);
    TalliesUnique(es, ss, m, |es|);
    TalliesOfKeepsUnique(ts, st);
    StableSortKeepsUnique(mine);
    forall line | line in ci.lines
      ensures line.enrollment < |es| && es[line.enrollment].student == st &&
        line == FreshLine(es, ss, m, line.enrollment)
    {
      var k :| 0 <= k < |sorted| && ci.lines[k] == line;
      StableSortMembers(mine, sorted[k]);
      TalliesOfMembers(ts, st, sorted[k]);
      TalliesMembers(es, ss, m, |es|, sorted[k]);
    }
    forall e | 0 <= e < |es| && es[e].student == st && BillableCount(ss, st, e, m) > 0
      ensures FreshLine(es, ss, m, e) in ci.lines
    {
      var t := TallyOf(es, ss, m, e);
      TalliesMembers(es, ss, m, |es|, t);
      TalliesOfMembers(ts, st, t);
      StableSortMembers(mine, t);
      var k :| 0 <= k < |sorted| && sorted[k] == t;
      assert ci.lines[k] == LineOf(t);
    }
  }

  lemma ComputePeriodFits(l: Ledger, m: Month, k: nat)
    requires k < |ComputePeriod(l, m)|
    ensures ComputedFits(l.enrollments, l.sessions, m, ComputePeriod(l, m)[k])
  {
    var order := BillingOrder(TallyAttendance(l, m), OpeningBalances(l, m), AdjustmentsByStudent(l, m));
    InvoiceForFits(l.enrollments, l.sessions, m, OpeningBalances(l, m), AdjustmentsByStudent(l, m), order[k]);
  }
}
