/** The billing service over its tables: each method runs the source's own loops and
    leaves exactly the ledger its specification function describes. */
module BillingService {
  import opened Options
  import opened Ids
  import opened InvoiceCalculator
  import opened InvoiceCalculatorLaws
  import opened Ledgers

  datatype Totals = Totals(students: nat, opening: int, charge: int, adjustment: int, due: int)

  predicate AddsUp(c: Computed) { c.totalDue == c.opening + c.charge + c.adjustments }

  lemma ComputedAddsUp(l: Ledger, m: Month)
    ensures forall i :: 0 <= i < |ComputePeriod(l, m)| ==> AddsUp(ComputePeriod(l, m)[i])
  {
  }

  /** The review screen's footer: the grand total splits exactly into its three columns. */
  method SumTotals(cs: seq<Computed>) returns (t: Totals)
    requires forall i :: 0 <= i < |cs| ==> AddsUp(cs[i])
    ensures t.students == |cs|
    ensures t.due == GrandTotal(cs) && t.due == t.opening + t.charge + t.adjustment
  {
    t := Totals(0, 0, 0, 0, 0);
    for i := 0 to |cs|
      invariant t.students == i
      invariant t.due == GrandTotal(cs[..i]) && t.due == t.opening + t.charge + t.adjustment
    {
      assert cs[..i+1][..i] == cs[..i];
      assert AddsUp(cs[i]);
      var c := cs[i];
      t := Totals(t.students + 1, t.opening + c.opening, t.charge + c.charge,
                  t.adjustment + c.adjustments, t.due + c.totalDue);
    }
    assert cs[..|cs|] == cs;
  }

  /** The invoice rows after the header upsert, and the row it wrote. */
  function UpsertedHeader(invs: seq<Invoice>, adjs: seq<Adjustment>, m: Month, ci: Computed): (r: (seq<Invoice>,
      InvoiceId))
    ensures r.1 < |r.0|
  {
    match Find(invs, m, ci.student)
    case Some(i) =>
      var total := AdjustmentSum(adjs, i);
      (invs[i := invs[i].(opening := ci.opening, charge := ci.charge, adjustments := total,
                          totalDue := ci.opening + ci.charge + total)], i)
    case None =>
      (invs + [BlankInvoice(m, ci.student).(opening := ci.opening, charge := ci.charge,
                                            totalDue := ci.opening + ci.charge)], |invs|)
  }

  lemma DraftOneInParts(l: Ledger, m: Month, ci: Computed)
    ensures var (invs, id) := UpsertedHeader(l.invoices, l.adjustments, m, ci);
      DraftOne(l, m, ci) == l.(invoices := invs[id := invs[id].(lines := Redraft(invs[id].lines, ci.lines))])
  {
  }

  lemma {:induction false} FindSameKeys(a: seq<Invoice>, b: seq<Invoice>, m: Month, st: StudentId)
    requires |a| == |b|
    requires forall i :: 0 <= i < |a| ==> a[i].month == b[i].month && a[i].student == b[i].student
    ensures Find(a, m, st) == Find(b, m, st)
  {
    var n := |a|;
    if n == 0 {
    } else {
      FindSameKeys(a[..n-1], b[..n-1], m, st);
    }
  }

  lemma DraftKeepsOverwritable(l: Ledger, m: Month, ci: Computed, st: StudentId)
    ensures Overwritable(DraftOne(l, m, ci).invoices, m, st) == Overwritable(l.invoices, m, st)
  {
    var k := DraftOne(l, m, ci).invoices;
    match Find(l.invoices, m, ci.student)
    case Some(i) => FindSameKeys(k, l.invoices, m, st);
    case None => assert k[..|l.invoices|] == l.invoices;
  }

  /** Drafting other students, or the same one, never changes whether a row may be written. */
  lemma {:induction false} DraftAllKeepsOverwritable(l: Ledger, m: Month, cs: seq<Computed>, st: StudentId)
    ensures Overwritable(DraftAll(l, m, cs).invoices, m, st) == Overwritable(l.invoices, m, st)
  {
    var n := |cs|;
    if n == 0 {
    } else {
      DraftAllKeepsOverwritable(l, m, cs[..n-1], st);
      DraftKeepsOverwritable(DraftAll(l, m, cs[..n-1]), m, cs[n-1], st);
    }
  }

  /** The upsert of the next computed student succeeds exactly when the guard allows that student. */
  lemma DraftNext(l: Ledger, m: Month, cs: seq<Computed>, j: nat)
    requires j < |cs| && AllDrafts(l, m, cs[..j])
    ensures Overwritable(DraftAll(l, m, cs[..j]).invoices, m, cs[j].student) <==> AllDrafts(l, m, cs[..j+1])
    ensures AllDrafts(l, m, cs) ==> AllDrafts(l, m, cs[..j+1])
    ensures DraftAll(l, m, cs[..j+1]) == DraftOne(DraftAll(l, m, cs[..j]), m, cs[j])
  {
    var upTo := cs[..j+1];
    assert upTo[..j] == cs[..j];
    DraftAllKeepsOverwritable(l, m, cs[..j], cs[j].student);
    assert AllDrafts(l, m, upTo) ==> Overwritable(l.invoices, m, upTo[j].student);
    if Overwritable(l.invoices, m, cs[j].student) {
      forall i | 0 <= i < j + 1 ensures Overwritable(l.invoices, m, upTo[i].student) {
        if i < j { assert Overwritable(l.invoices, m, cs[..j][i].student); }
      }
    }
    if AllDrafts(l, m, cs) {
      forall i | 0 <= i < j + 1 ensures Overwritable(l.invoices, m, upTo[i].student) {
        assert Overwritable(l.invoices, m, cs[i].student);
      }
    }
  }

  class Service {
    var periods: map<Month, PeriodStatus>
    var enrollments: seq<Enrollment>
    var sessions: seq<Session>
    var invoices: seq<Invoice>
    var adjustments: seq<Adjustment>

    function View(): Ledger
      reads this
    {
      Ledger(periods, enrollments, sessions, invoices, adjustments)
    }

    constructor ()
      ensures View() == EMPTY
    {
      periods, enrollments, sessions, invoices, adjustments := map[], [], [], [], [];
    }

    // ----- computing a period ---------------------------------------------

    /** This period's adjustment totals by student, with a zero entry for every existing invoice. */
    method CollectAdjustments(m: Month) returns (byStudent: map<StudentId, int>)
      ensures byStudent == AdjustmentsByStudent(View(), m)
    {
      byStudent := map[];
      for i := 0 to |invoices|
        invariant forall st :: st in byStudent <==> Find(invoices[..i], m, st).Some?
        invariant forall st :: st in byStudent ==>
          byStudent[st] == AdjustmentSum(adjustments, Find(invoices[..i], m, st).value)
      {
        assert invoices[..i+1][..i] == invoices[..i];
        if invoices[i].month == m {
          byStudent := byStudent[invoices[i].student := AdjustmentSum(adjustments, i)];
        }
      }
      assert invoices[..|invoices|] == invoices;
      forall st ensures st in byStudent <==> st in AdjustmentsByStudent(View(), m) {
        if st in byStudent {
          var i := Find(invoices, m, st).value;
          assert invoices[i].student in InvoicedStudents(View(), m);
        }
      }
    }

    /** Opening balances for every tallied student and every debtor of the previous closed month. */
    method CollectOpenings(m: Month) returns (opening: map<StudentId, int>)
      ensures opening == OpeningBalances(View(), m)
    {
      opening := map[];
      match PreviousClosed(View(), m) {
        case None =>
        case Some(q) =>
          var students := TallyStudents(View(), m) + CarriedDebtStudents(View(), q);
          var pending := students;
          while pending != {}
            invariant pending <= students
            invariant opening.Keys == set st | st in students - pending && Billed(View(), q, st)
            invariant forall st :: st in opening ==> opening[st] == Owed(View(), q, st)
            decreases |pending|
          {
            var st :| st in pending;
            pending := pending - {st};
            if Billed(View(), q, st) {
              opening := opening[st := Owed(View(), q, st)];
            }
          }
      }
    }

    method ComputePeriodInvoices(m: Month) returns (cs: seq<Computed>)
      ensures cs == ComputePeriod(View(), m)
    {
      var opening := CollectOpenings(m);
      var byStudent := CollectAdjustments(m);
      cs := Compute(TallyAttendance(View(), m), opening, byStudent);
    }

    method Preview(m: Month) returns (cs: seq<Computed>, t: Totals)
      ensures cs == ComputePeriod(View(), m)
      ensures t.students == |cs| && t.due == GrandTotal(cs) && t.due == t.opening + t.charge + t.adjustment
    {
      cs := ComputePeriodInvoices(m);
      ComputedAddsUp(View(), m);
      t := SumTotals(cs);
    }

    // ----- drafting -------------------------------------------------------

    method UpsertInvoiceLine(id: InvoiceId, line: Line)
      requires id < |invoices|
      modifies this`invoices
      ensures invoices == old(invoices)[id := old(invoices[id]).(lines := UpsertLine(old(invoices[id]).lines, line))]
    {
      var rows := invoices[id].lines;
      match LineIndex(rows, line.enrollment) {
        case Some(i) => rows := rows[i := line];
        case None => rows := rows + [line];
      }
      invoices := invoices[id := invoices[id].(lines := rows)];
    }

    method ZeroUnmatchedLines(id: InvoiceId, keep: set<EnrollmentId>)
      requires id < |invoices|
      modifies this`invoices
      ensures invoices == old(invoices)[id := old(invoices[id]).(lines := ZeroUnmatched(old(invoices[id]).lines, keep))]
    {
      var rows := invoices[id].lines;
      var out: seq<Line> := [];
      for i := 0 to |rows|
        invariant |out| == i
        invariant forall k :: 0 <= k < i ==> out[k] == ZeroUnless(rows[k], keep)
      {
        out := out + [ZeroUnless(rows[i], keep)];
      }
      assert out == ZeroUnmatched(rows, keep);
      invoices := invoices[id := invoices[id].(lines := out)];
    }

    /** The header upsert: money columns only, never status or paid amount, and only on a row that is
        still a draft. */
    method UpsertInvoice(m: Month, ci: Computed) returns (r: Result<InvoiceId>)
      modifies this`invoices
      ensures r.Ok? <==> Overwritable(old(invoices), m, ci.student)
      ensures match r
        case Ok(id) => (invoices, id) == UpsertedHeader(old(invoices), adjustments, m, ci)
        case Err(e) => e == InvoiceNotDraft && invoices == old(invoices)
    {
      match Find(invoices, m, ci.student) {
        case Some(i) =>
          if invoices[i].status != InvoiceStatus.Draft { return Err(InvoiceNotDraft); }
          var total := AdjustmentSum(adjustments, i);
          invoices := invoices[i := invoices[i].(opening := ci.opening, charge := ci.charge, adjustments := total,
                                                 totalDue := ci.opening + ci.charge + total)];
          return Ok(i);
        case None =>
          var id := |invoices|;
          invoices := invoices +
            [Invoice(m, ci.student, ci.opening, ci.charge, 0, ci.opening + ci.charge, 0, InvoiceStatus.Draft, [])];
          return Ok(id);
      }
    }

    /** The line upserts of one invoice, then the zeroing of what they left. */
    method RedraftLines(id: InvoiceId, lines: seq<Line>)
      requires id < |invoices|
      modifies this`invoices
      ensures invoices == old(invoices)[id := old(invoices[id]).(lines := Redraft(old(invoices[id]).lines, lines))]
    {
      ghost var header := invoices;
      for j := 0 to |lines|
        invariant |invoices| == |header|
        invariant invoices == header[id := header[id].(lines := UpsertLines(header[id].lines, lines[..j]))]
      {
        assert lines[..j+1][..j] == lines[..j];
        UpsertInvoiceLine(id, lines[j]);
      }
      assert lines[..|lines|] == lines;
      ZeroUnmatchedLines(id, EnrollmentsOf(lines));
    }

    method DraftInvoice(m: Month, ci: Computed) returns (r: Result<()>)
      modifies this`invoices
      ensures r.Ok? <==> Overwritable(old(invoices), m, ci.student)
      ensures match r
        case Ok(_) => View() == DraftOne(old(View()), m, ci)
        case Err(e) => e == InvoiceNotDraft && View() == old(View())
    {
      DraftOneInParts(View(), m, ci);
      var upserted := UpsertInvoice(m, ci);
      if upserted.Err? { return Err(upserted.error); }
      RedraftLines(upserted.value, ci.lines);
      return Ok(());
    }

    /** The upserts of a computation, up to the first row that is no longer a draft. */
    method DraftRows(m: Month, cs: seq<Computed>) returns (r: Result<()>)
      modifies this`invoices
      ensures r.Ok? <==> AllDrafts(old(View()), m, cs)
      ensures match r
        case Ok(_) => View() == DraftAll(old(View()), m, cs)
        case Err(e) => e == InvoiceNotDraft
    {
      ghost var l := View();
      for j := 0 to |cs|
        invariant View() == DraftAll(l, m, cs[..j]) && AllDrafts(l, m, cs[..j])
      {
        DraftNext(l, m, cs, j);
        var drafted := DraftInvoice(m, cs[j]);
        if drafted.Err? { return drafted; }
      }
      assert cs[..|cs|] == cs;
      return Ok(());
    }

    method CheckDrafts(m: Month, cs: seq<Computed>) returns (ok: bool)
      ensures ok == AllDrafts(View(), m, cs)
    {
      for j := 0 to |cs|
        invariant AllDrafts(View(), m, cs[..j])
      {
        match Find(invoices, m, cs[j].student) {
          case Some(k) => if invoices[k].status != InvoiceStatus.Draft { return false; }
          case None =>
        }
      }
      return true;
    }

    method Draft(m: Month) returns (r: Result<()>)
      modifies this
      ensures match DraftPeriod(old(View()), m)
        case Ok(l) => r.Ok? && View() == l
        case Err(e) => r == Err(e) && View() == old(View())
    {
      if m !in periods { return Err(NotFound); }
      if periods[m] != Open { return Err(PeriodNotOpen); }
      var cs := ComputePeriodInvoices(m);
      var ok := CheckDrafts(m, cs);
      if !ok { return Err(InvoiceNotDraft); }
      r := DraftRows(m, cs);
    }

    // ----- closing --------------------------------------------------------

    /** Void every draft of the month that carries no money at all. */
    method VoidInvoices(m: Month) returns (count: nat)
      modifies this`invoices
      ensures |invoices| == |old(invoices)|
      ensures forall i :: 0 <= i < |invoices| ==>
        invoices[i] == if EmptyDraft(old(invoices)[i], m) then old(invoices)[i].(status := Void) else old(invoices)[i]
      ensures count == |set i | 0 <= i < |old(invoices)| && EmptyDraft(old(invoices)[i], m)|
    {
      count := 0;
      ghost var hit: set<nat> := {};
      for i := 0 to |invoices|
        invariant |invoices| == |old(invoices)|
        invariant forall k :: i <= k < |invoices| ==> invoices[k] == old(invoices)[k]
        invariant forall k :: 0 <= k < i ==>
          invoices[k] == if EmptyDraft(old(invoices)[k], m) then old(invoices)[k].(status := Void) else old(invoices)[k]
        invariant hit == set k | 0 <= k < i && EmptyDraft(old(invoices)[k], m)
        invariant count == |hit|
      {
        if EmptyDraft(invoices[i], m) {
          invoices := invoices[i := invoices[i].(status := Void)];
          count := count + 1;
          hit := hit + {i};
        }
      }
      assert hit == set i | 0 <= i < |old(invoices)| && EmptyDraft(old(invoices)[i], m);
    }

    method IssueDraftInvoices(m: Month)
      modifies this`invoices
      ensures |invoices| == |old(invoices)|
      ensures forall i :: 0 <= i < |invoices| ==>
        invoices[i] == if old(invoices)[i].month == m && old(invoices)[i].status == InvoiceStatus.Draft
                       then old(invoices)[i].(status := Issued) else old(invoices)[i]
    {
      for i := 0 to |invoices|
        invariant |invoices| == |old(invoices)|
        invariant forall k :: i <= k < |invoices| ==> invoices[k] == old(invoices)[k]
        invariant forall k :: 0 <= k < i ==>
          invoices[k] == if old(invoices)[k].month == m && old(invoices)[k].status == InvoiceStatus.Draft
                         then old(invoices)[k].(status := Issued) else old(invoices)[k]
      {
        if invoices[i].month == m && invoices[i].status == InvoiceStatus.Draft {
          invoices := invoices[i := invoices[i].(status := Issued)];
        }
      }
    }

    method SettleInvoices(m: Month)
      modifies this`invoices
      ensures invoices == SettleAll(old(invoices), m)
    {
      var voided := VoidInvoices(m);
      IssueDraftInvoices(m);
      assert forall i :: 0 <= i < |invoices| ==> invoices[i] == Settle(old(invoices)[i], m);
    }

    method SumDue(m: Month) returns (totalDue: int)
      ensures totalDue == PeriodTotal(invoices, m)
    {
      totalDue := 0;
      for i := 0 to |invoices|
        invariant totalDue == PeriodTotal(invoices[..i], m)
      {
        assert invoices[..i+1][..i] == invoices[..i];
        if invoices[i].month == m && invoices[i].status != Void {
          totalDue := totalDue + invoices[i].totalDue;
        }
      }
      assert invoices[..|invoices|] == invoices;
    }

    /** Lock, check, compute, draft, void the empty, issue the rest, close, sum. */
    method Close(m: Month, unconfirmed: bool) returns (r: Result<int>)
      modifies this
      ensures match ClosePeriod(old(View()), m, unconfirmed)
        case Ok((l, total)) => r == Ok(total) && View() == l
        case Err(e) => r == Err(e) && View() == old(View())
    {
      if m !in periods { return Err(NotFound); }
      if periods[m] != Open { return Err(PeriodNotOpen); }
      if unconfirmed { return Err(Unconfirmed); }
      var cs := ComputePeriodInvoices(m);
      var ok := CheckDrafts(m, cs);
      if !ok { return Err(InvoiceNotDraft); }
      var drafted := DraftRows(m, cs);
      assert drafted.Ok?;
      SettleInvoices(m);
      periods := periods[m := Closed];
      var total := SumDue(m);
      return Ok(total);
    }

    // ----- adjustments and voids ------------------------------------------

    /** CreateAdjustment followed by RecalcInvoiceTotals, in one transaction. */
    method PostRow(id: InvoiceId, amount: int, source: Option<SessionId>)
      requires id < |invoices|
      modifies this`adjustments, this`invoices
      ensures View() == PostAdjustment(old(View()), id, amount, source)
    {
      adjustments := adjustments + [Adjustment(id, amount, source)];
      var total := AdjustmentSum(adjustments, id);
      var inv := invoices[id];
      var due := inv.opening + inv.charge + total;
      var status := inv.status;
      if status != InvoiceStatus.Draft && status != Void {
        if inv.paid <= 0 { status := Issued; }
        else if inv.paid < due { status := PartiallyPaid; }
        else { status := Paid; }
      }
      invoices := invoices[id := inv.(adjustments := total, totalDue := due, status := status)];
    }

    method AddManualAdjustment(id: InvoiceId, amount: int) returns (r: Result<()>)
      modifies this`adjustments, this`invoices
      ensures match AddAdjustment(old(View()), id, amount)
        case Ok(l) => r.Ok? && View() == l
        case Err(e) => r == Err(e) && View() == old(View())
    {
      if amount == 0 { return Err(ZeroAmount); }
      if id >= |invoices| { return Err(NotFound); }
      if invoices[id].status == Void || invoices[id].status == Paid { return Err(BadStatus); }
      PostRow(id, amount, None);
      return Ok(());
    }

    method VoidOne(id: InvoiceId) returns (r: Result<()>)
      modifies this`invoices
      ensures match VoidInvoice(old(View()), id)
        case Ok(l) => r.Ok? && View() == l
        case Err(e) => r == Err(e) && View() == old(View())
    {
      if id >= |invoices| { return Err(NotFound); }
      if invoices[id].status != Issued && invoices[id].status != PartiallyPaid { return Err(BadStatus); }
      if invoices[id].paid != 0 { return Err(HasPayment); }
      invoices := invoices[id := invoices[id].(status := Void)];
      return Ok(());
    }

    // ----- reconciliation -------------------------------------------------

    method EnsureMonth(m: Month)
      modifies this`periods
      ensures View() == EnsurePeriod(old(View()), m)
    {
      if m !in periods { periods := periods[m := Open]; }
    }

    method EnsureAdjustmentTarget(p: Month, today: Month, st: StudentId) returns (id: InvoiceId)
      modifies this`periods, this`invoices
      ensures (View(), id) == EnsureTarget(old(View()), p, today, st)
    {
      var target: Month;
      var later := OpenAfter(View(), p);
      if later != {} {
        target := Min(later);
      } else {
        target := if today > p then today else p + 1;
        EnsureMonth(target);
        if periods[target] == Closed {
          target := target + 1;
          EnsureMonth(target);
        }
      }
      match Find(invoices, target, st) {
        case Some(i) => id := i;
        case None =>
          id := |invoices|;
          invoices := invoices + [BlankInvoice(target, st)];
      }
    }

    /** Walks the closed invoice's lines, pricing live counts at the frozen prices. */
    method PriceLive(lines: seq<Line>, st: StudentId, m: Month, e: EnrollmentId) returns (live: int,
        hasSessionLine: bool)
      ensures live == LiveCharge(sessions, lines, st, m)
      ensures hasSessionLine == LineIndex(lines, e).Some?
    {
      live, hasSessionLine := 0, false;
      for i := 0 to |lines|
        invariant live == LiveCharge(sessions, lines[..i], st, m)
        invariant hasSessionLine == LineIndex(lines[..i], e).Some?
      {
        assert lines[..i+1][..i] == lines[..i];
        live := live + BillableCount(sessions, st, lines[i].enrollment, m) * lines[i].unitPrice;
        if lines[i].enrollment == e { hasSessionLine := true; }
      }
      assert lines[..|lines|] == lines;
    }

    method CarrySum(st: StudentId, m: Month) returns (already: int)
      ensures already == AlreadyCarried(View(), adjustments, st, m)
    {
      already := 0;
      for i := 0 to |adjustments|
        invariant already == AlreadyCarried(View(), adjustments[..i], st, m)
      {
        assert adjustments[..i+1][..i] == adjustments[..i];
        if CarriedFrom(View(), adjustments[i], st, m) { already := already + adjustments[i].amount; }
      }
      assert adjustments[..|adjustments|] == adjustments;
    }

    /** How much the closed invoice and its carries miss the live worth, the session's own enrollment
        included when the invoice has no line for it. */
    method ResolveDelta(i: InvoiceId, e: EnrollmentId, roster: set<EnrollmentId>) returns (delta: int)
      requires i < |invoices|
      ensures delta == Delta(View(), i, e, roster)
    {
      var inv := invoices[i];
      var live, hasSessionLine := PriceLive(inv.lines, inv.student, inv.month, e);
      if !hasSessionLine && e in roster && e < |enrollments| && enrollments[e].student == inv.student {
        live := live + BillableCount(sessions, inv.student, e, inv.month) * enrollments[e].unitPrice;
      }
      var already := CarrySum(inv.student, inv.month);
      delta := live - inv.charge - already;
    }

    method ReconcileOne(sid: SessionId, st: StudentId, today: Month, roster: set<EnrollmentId>)
      requires sid < |sessions| && st in sessions[sid].sheet
      modifies this`periods, this`invoices, this`adjustments
      ensures View() == ReconcileStudent(old(View()), sid, st, today, roster)
    {
      var m := sessions[sid].month;
      var e := sessions[sid].sheet[st].enrollment;
      match Find(invoices, m, st) {
        case None => return;
        case Some(i) =>
          if invoices[i].status == Void { return; }
          var delta := ResolveDelta(i, e, roster);
          if delta == 0 { return; }
          var target := EnsureAdjustmentTarget(m, today, st);
          PostRow(target, delta, Some(sid));
      }
    }

    method Reconcile(sid: SessionId, today: Month, roster: set<EnrollmentId>)
      modifies this`periods, this`invoices, this`adjustments
      ensures View() == ReconcileSession(old(View()), sid, today, roster)
    {
      if sid >= |sessions| { return; }
      var m := sessions[sid].month;
      if m !in periods || periods[m] != Closed { return; }
      var students := SortedIds(sessions[sid].sheet.Keys);
      for j := 0 to |students|
        invariant View() == ReconcileAll(old(View()), sid, students[..j], today, roster)
      {
        assert students[..j+1][..j] == students[..j];
        assert students[j] in students;
        ReconcileOne(sid, students[j], today, roster);
      }
      assert students[..|students|] == students;
    }
  }
}
