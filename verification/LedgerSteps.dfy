/** Every operation keeps the ledger invariant and the frozen history, over whole runs. */
module LedgerSteps {
  import opened Options
  import opened Ids
  import opened InvoiceCalculator
  import opened Ledgers
  import opened InvoiceLines
  import opened LedgerInvariants

  /** Once a row has left draft its opening, charge and lines never change, it never
      returns to draft, and void is absorbing. */
  ghost predicate Frozen(a: Invoice, b: Invoice) {
    && b.month == a.month && b.student == a.student
    && (a.status != Draft ==>
          b.opening == a.opening && b.charge == a.charge && b.lines == a.lines && b.status != Draft)
    && (a.status == Void ==> b.status == Void)
  }

  ghost predicate InvoicesEvolve(a: seq<Invoice>, b: seq<Invoice>) {
    |a| <= |b| && forall i :: 0 <= i < |a| ==> Frozen(a[i], b[i])
  }

  ghost predicate SessionsEvolve(a: seq<Session>, b: seq<Session>) {
    |a| <= |b| && forall s :: 0 <= s < |a| ==> b[s].month == a[s].month
  }

  ghost predicate EnrollmentsEvolve(a: seq<Enrollment>, b: seq<Enrollment>) {
    |a| <= |b| && forall e :: 0 <= e < |a| ==> b[e].student == a[e].student
  }

  ghost predicate PeriodsEvolve(a: map<Month, PeriodStatus>, b: map<Month, PeriodStatus>) {
    forall m :: m in a ==> m in b && (a[m] == Closed ==> b[m] == Closed)
  }

  /** Rows are only appended, months and owners never change, closed stays closed. */
  ghost predicate Evolves(l: Ledger, k: Ledger) {
    && InvoicesEvolve(l.invoices, k.invoices)
    && SessionsEvolve(l.sessions, k.sessions)
    && EnrollmentsEvolve(l.enrollments, k.enrollments)
    && PeriodsEvolve(l.periods, k.periods)
    && |l.adjustments| <= |k.adjustments| && k.adjustments[..|l.adjustments|] == l.adjustments
  }

  lemma EvolvesTrans(a: Ledger, b: Ledger, c: Ledger)
    requires Evolves(a, b) && Evolves(b, c)
    ensures Evolves(a, c)
  {
    forall i | 0 <= i < |a.invoices| ensures Frozen(a.invoices[i], c.invoices[i]) {
      assert Frozen(a.invoices[i], b.invoices[i]) && Frozen(b.invoices[i], c.invoices[i]);
    }
    assert c.adjustments[..|a.adjustments|] == c.adjustments[..|b.adjustments|][..|a.adjustments|];
    forall m | m in a.periods ensures m in c.periods && (a.periods[m] == Closed ==> c.periods[m] == Closed) {
      assert m in b.periods;
    }
  }

  /** What one operation promises. */
  ghost predicate Keeps(l: Ledger, k: Ledger) {
    Inv(k) && Evolves(l, k)
  }

  lemma KeepsTrans(a: Ledger, b: Ledger, c: Ledger)
    requires Keeps(a, b) && Keeps(b, c)
    ensures Keeps(a, c)
  {
    EvolvesTrans(a, b, c);
  }

  // ----- rows: replace, append --------------------------------------------

  lemma ReplaceRow(l: Ledger, i: nat, inv: Invoice)
    requires Inv(l) && i < |l.invoices|
    requires Frozen(l.invoices[i], inv)
    requires IsOpen(l, inv.month) ==> inv.status == Draft
    requires LinesFit(l.enrollments, inv.student, inv.lines)
    requires Balanced(inv, AdjustmentSum(l.adjustments, i))
    ensures Keeps(l, l.(invoices := l.invoices[i := inv]))
  {
    var k := l.(invoices := l.invoices[i := inv]);
    forall j | 0 <= j < |k.invoices| ensures InvoiceOk(k, j) { assert InvoiceOk(l, j); }
    forall j | 0 <= j < |k.adjustments| ensures AdjustmentOk(k, k.adjustments[j]) {
      assert AdjustmentOk(l, l.adjustments[j]);
    }
  }

  lemma AppendRow(l: Ledger, inv: Invoice)
    requires Inv(l)
    requires Find(l.invoices, inv.month, inv.student).None?
    requires inv.month in l.periods
    requires IsOpen(l, inv.month) ==> inv.status == Draft
    requires LinesFit(l.enrollments, inv.student, inv.lines)
    requires Balanced(inv, 0)
    ensures Keeps(l, l.(invoices := l.invoices + [inv]))
  {
    var k := l.(invoices := l.invoices + [inv]);
    forall j | 0 <= j < |l.adjustments| ensures l.adjustments[j].invoice != |l.invoices| {
      assert AdjustmentOk(l, l.adjustments[j]);
    }
    NoAdjustmentsYet(l.adjustments, |l.invoices|);
    forall j | 0 <= j < |k.invoices| ensures InvoiceOk(k, j) { if j < |l.invoices| { assert InvoiceOk(l, j); } }
    forall j | 0 <= j < |k.adjustments| ensures AdjustmentOk(k, k.adjustments[j]) {
      assert AdjustmentOk(l, l.adjustments[j]);
    }
  }

  // ----- one lemma per operation ------------------------------------------

  lemma EnsurePeriodKeeps(l: Ledger, m: Month)
    requires Inv(l)
    ensures Keeps(l, EnsurePeriod(l, m))
  {
    var k := EnsurePeriod(l, m);
    forall j | 0 <= j < |k.invoices| ensures InvoiceOk(k, j) { assert InvoiceOk(l, j); }
    forall j | 0 <= j < |k.adjustments| ensures AdjustmentOk(k, k.adjustments[j]) {
      assert AdjustmentOk(l, l.adjustments[j]);
    }
  }

  lemma EnrollmentsKeep(l: Ledger, es: seq<Enrollment>)
    requires Inv(l) && EnrollmentsEvolve(l.enrollments, es)
    ensures Keeps(l, l.(enrollments := es))
  {
    var k := l.(enrollments := es);
    forall j | 0 <= j < |k.invoices| ensures InvoiceOk(k, j) {
      assert InvoiceOk(l, j);
      forall x | 0 <= x < |k.invoices[j].lines| ensures LineFits(es, k.invoices[j].student, k.invoices[j].lines[x]) {
        assert LineFits(l.enrollments, l.invoices[j].student, l.invoices[j].lines[x]);
      }
    }
    forall j | 0 <= j < |k.adjustments| ensures AdjustmentOk(k, k.adjustments[j]) {
      assert AdjustmentOk(l, l.adjustments[j]);
    }
    forall s | 0 <= s < |k.sessions| ensures SheetFits(k, k.sessions[s].sheet) {
      assert SheetFits(l, l.sessions[s].sheet);
    }
  }

  lemma SessionsKeep(l: Ledger, ss: seq<Session>)
    requires Inv(l) && SessionsEvolve(l.sessions, ss)
    requires forall s :: 0 <= s < |ss| ==> SheetFits(l, ss[s].sheet)
    ensures Keeps(l, l.(sessions := ss))
  {
    var k := l.(sessions := ss);
    forall j | 0 <= j < |k.invoices| ensures InvoiceOk(k, j) { assert InvoiceOk(l, j); }
    forall j | 0 <= j < |k.adjustments| ensures AdjustmentOk(k, k.adjustments[j]) {
      assert AdjustmentOk(l, l.adjustments[j]);
    }
    forall s | 0 <= s < |k.sessions| ensures SheetFits(k, k.sessions[s].sheet) { assert SheetFits(l, ss[s].sheet); }
  }

  lemma PostAdjustmentKeeps(l: Ledger, id: InvoiceId, amount: int, source: Option<SessionId>)
    requires Inv(l) && id < |l.invoices|
    requires source.Some? ==> source.value < |l.sessions| && IsClosed(l, l.sessions[source.value].month)
    ensures Keeps(l, PostAdjustment(l, id, amount, source))
  {
    var k := PostAdjustment(l, id, amount, source);
    var a := Adjustment(id, amount, source);
    forall j | 0 <= j < |k.invoices| ensures InvoiceOk(k, j) {
      assert InvoiceOk(l, j);
      AdjustmentSumSnoc(l.adjustments, a, j);
    }
    forall j | 0 <= j < |k.adjustments| ensures AdjustmentOk(k, k.adjustments[j]) {
      if j < |l.adjustments| { assert AdjustmentOk(l, l.adjustments[j]); }
    }
  }

  lemma SetPaidKeeps(l: Ledger, id: InvoiceId, paid: nat)
    requires Inv(l) && SetPaid(l, id, paid).Ok?
    ensures Keeps(l, SetPaid(l, id, paid).value)
  {
    var inv := l.invoices[id];
    assert InvoiceOk(l, id);
    ReplaceRow(l, id, inv.(paid := paid, status := PaymentStatus(paid, inv.totalDue)));
  }

  lemma VoidInvoiceKeeps(l: Ledger, id: InvoiceId)
    requires Inv(l) && VoidInvoice(l, id).Ok?
    ensures Keeps(l, VoidInvoice(l, id).value)
  {
    assert InvoiceOk(l, id);
    ReplaceRow(l, id, l.invoices[id].(status := Void));
  }

  // ----- drafting ---------------------------------------------------------

  lemma FreshLinesFit(l: Ledger, m: Month, ci: Computed)
    requires ComputedFits(l.enrollments, l.sessions, m, ci)
    ensures LinesFit(l.enrollments, ci.student, ci.lines)
  {
    forall k | 0 <= k < |ci.lines| ensures LineFits(l.enrollments, ci.student, ci.lines[k]) {
      assert ci.lines[k] in ci.lines;
    }
  }

  lemma RedraftFits(es: seq<Enrollment>, st: StudentId, rows: seq<Line>, drafted: seq<Line>)
    requires LinesFit(es, st, rows) && LinesFit(es, st, drafted)
    ensures LinesFit(es, st, Redraft(rows, drafted))
  {
    RedraftSum(rows, drafted);
    var r := Redraft(rows, drafted);
    forall k | 0 <= k < |r| ensures LineFits(es, st, r[k]) {
      RedraftMembers(rows, drafted, r[k]);
      if r[k] in drafted {
        var j :| 0 <= j < |drafted| && drafted[j] == r[k];
      } else {
        var o :| o in rows && o.enrollment == r[k].enrollment;
        var j :| 0 <= j < |rows| && rows[j] == o;
      }
    }
  }

  lemma DraftOneKeeps(l: Ledger, m: Month, ci: Computed)
    requires Inv(l) && IsOpen(l, m)
    requires ComputedFits(l.enrollments, l.sessions, m, ci)
    ensures Keeps(l, DraftOne(l, m, ci))
  {
    FreshLinesFit(l, m, ci);
    match Find(l.invoices, m, ci.student)
    case Some(i) =>
      assert InvoiceOk(l, i);
      RedraftFits(l.enrollments, ci.student, l.invoices[i].lines, ci.lines);
      RedraftSum(l.invoices[i].lines, ci.lines);
      ReplaceRow(l, i, Rewritten(l.invoices[i], ci, AdjustmentSum(l.adjustments, i)));
    case None =>
      RedraftFits(l.enrollments, ci.student, [], ci.lines);
      RedraftSum([], ci.lines);
      AppendRow(l, Rewritten(BlankInvoice(m, ci.student), ci, 0));
  }

  lemma DraftOneTouchesOnlyInvoices(l: Ledger, m: Month, ci: Computed)
    ensures DraftOne(l, m, ci) == l.(invoices := DraftOne(l, m, ci).invoices)
  {
  }

  lemma {:induction false} DraftAllTouchesOnlyInvoices(l: Ledger, m: Month, cs: seq<Computed>)
    ensures DraftAll(l, m, cs) == l.(invoices := DraftAll(l, m, cs).invoices)
  {
    var n := |cs|;
    if n == 0 {
    } else {
      DraftAllTouchesOnlyInvoices(l, m, cs[..n-1]);
      DraftOneTouchesOnlyInvoices(DraftAll(l, m, cs[..n-1]), m, cs[n-1]);
    }
  }

  lemma {:induction false} DraftAllKeeps(l: Ledger, m: Month, cs: seq<Computed>)
    requires Inv(l) && IsOpen(l, m)
    requires forall k :: 0 <= k < |cs| ==> ComputedFits(l.enrollments, l.sessions, m, cs[k])
    ensures Keeps(l, DraftAll(l, m, cs))
  {
    var n := |cs|;
    if n == 0 {
    } else {
      DraftAllKeeps(l, m, cs[..n-1]);
      DraftAllTouchesOnlyInvoices(l, m, cs[..n-1]);
      var before := DraftAll(l, m, cs[..n-1]);
      DraftOneKeeps(before, m, cs[n-1]);
      KeepsTrans(l, before, DraftOne(before, m, cs[n-1]));
    }
  }

  lemma DraftComputedKeeps(l: Ledger, m: Month)
    requires Inv(l) && IsOpen(l, m)
    ensures Keeps(l, DraftAll(l, m, ComputePeriod(l, m)))
  {
    var cs := ComputePeriod(l, m);
    forall k | 0 <= k < |cs| ensures ComputedFits(l.enrollments, l.sessions, m, cs[k]) { ComputePeriodFits(l, m, k); }
    DraftAllKeeps(l, m, cs);
  }

  // ----- closing ----------------------------------------------------------

  lemma SettleAllKeeps(l: Ledger, m: Month)
    requires Inv(l) && IsOpen(l, m)
    ensures Keeps(l, l.(invoices := SettleAll(l.invoices, m), periods := l.periods[m := Closed]))
  {
    var k := l.(invoices := SettleAll(l.invoices, m), periods := l.periods[m := Closed]);
    forall j | 0 <= j < |k.invoices| ensures InvoiceOk(k, j) {
      assert InvoiceOk(l, j);
    }
    forall i, j | 0 <= i < j < |k.invoices|
      ensures k.invoices[i].month != k.invoices[j].month || k.invoices[i].student != k.invoices[j].student
    {
      assert l.invoices[i].month != l.invoices[j].month || l.invoices[i].student != l.invoices[j].student;
    }
    forall j | 0 <= j < |k.adjustments| ensures AdjustmentOk(k, k.adjustments[j]) {
      assert AdjustmentOk(l, l.adjustments[j]);
    }
    forall s | 0 <= s < |k.sessions| ensures SheetFits(k, k.sessions[s].sheet) {
      assert SheetFits(l, l.sessions[s].sheet);
    }
  }

  lemma ClosePeriodKeeps(l: Ledger, m: Month, unconfirmed: bool)
    requires Inv(l) && ClosePeriod(l, m, unconfirmed).Ok?
    ensures Keeps(l, ClosePeriod(l, m, unconfirmed).value.0)
  {
    DraftComputedKeeps(l, m);
    DraftAllTouchesOnlyInvoices(l, m, ComputePeriod(l, m));
    var after := DraftAll(l, m, ComputePeriod(l, m));
    SettleAllKeeps(after, m);
    KeepsTrans(l, after, ClosePeriod(l, m, unconfirmed).value.0);
  }

  // ----- reconciling ------------------------------------------------------

  lemma ResolveTargetKeeps(l: Ledger, p: Month, today: Month)
    requires Inv(l)
    ensures var (k, target) := ResolveTarget(l, p, today); Keeps(l, k) && target in k.periods && target > p
  {
    if OpenAfter(l, p) == {} {
      var candidate := if today > p then today else p + 1;
      EnsurePeriodKeeps(l, candidate);
      var l1 := EnsurePeriod(l, candidate);
      EnsurePeriodKeeps(l1, candidate + 1);
      KeepsTrans(l, l1, EnsurePeriod(l1, candidate + 1));
    }
  }

  lemma EnsureTargetKeeps(l: Ledger, p: Month, today: Month, st: StudentId)
    requires Inv(l)
    ensures Keeps(l, EnsureTarget(l, p, today, st).0)
  {
    var (l1, target) := ResolveTarget(l, p, today);
    ResolveTargetKeeps(l, p, today);
    if Find(l1.invoices, target, st).None? {
      AppendRow(l1, BlankInvoice(target, st));
      KeepsTrans(l, l1, EnsureTarget(l, p, today, st).0);
    }
  }

  lemma ReconcileStudentKeeps(l: Ledger, sid: SessionId, st: StudentId, today: Month, roster: set<EnrollmentId>)
    requires Inv(l) && sid < |l.sessions| && st in l.sessions[sid].sheet && IsClosed(l, l.sessions[sid].month)
    ensures Keeps(l, ReconcileStudent(l, sid, st, today, roster))
  {
    var m := l.sessions[sid].month;
    if Billed(l, m, st) {
      var d := Delta(l, Find(l.invoices, m, st).value, l.sessions[sid].sheet[st].enrollment, roster);
      if d != 0 {
        var (l1, target) := EnsureTarget(l, m, today, st);
        EnsureTargetKeeps(l, m, today, st);
        PostAdjustmentKeeps(l1, target, d, Some(sid));
        KeepsTrans(l, l1, PostAdjustment(l1, target, d, Some(sid)));
      }
    }
  }

  lemma {:induction false} ReconcileAllKeeps(l: Ledger, sid: SessionId, students: seq<StudentId>, today: Month,
      roster: set<EnrollmentId>)
    requires Inv(l) && sid < |l.sessions| && IsClosed(l, l.sessions[sid].month)
    requires forall st :: st in students ==> st in l.sessions[sid].sheet
    ensures Keeps(l, ReconcileAll(l, sid, students, today, roster))
  {
    var n := |students|;
    if n == 0 {
    } else {
      ReconcileAllKeeps(l, sid, students[..n-1], today, roster);
      var before := ReconcileAll(l, sid, students[..n-1], today, roster);
      ReconcileStudentKeeps(before, sid, students[n-1], today, roster);
      KeepsTrans(l, before, ReconcileAll(l, sid, students, today, roster));
    }
  }

  lemma ReconcileSessionKeeps(l: Ledger, sid: SessionId, today: Month, roster: set<EnrollmentId>)
    requires Inv(l)
    ensures Keeps(l, ReconcileSession(l, sid, today, roster))
  {
    if sid < |l.sessions| && IsClosed(l, l.sessions[sid].month) {
      ReconcileAllKeeps(l, sid, SortedIds(l.sessions[sid].sheet.Keys), today, roster);
    }
  }

  lemma SetSheetKeeps(l: Ledger, sid: SessionId, sheet: map<StudentId, Mark>)
    requires Inv(l) && sid < |l.sessions| && SheetFits(l, sheet)
    ensures Keeps(l, SetSheet(l, sid, sheet))
  {
    var ss := SetSheet(l, sid, sheet).sessions;
    forall s | 0 <= s < |ss| ensures SheetFits(l, ss[s].sheet) {
      assert s != sid ==> SheetFits(l, l.sessions[s].sheet);
    }
    SessionsKeep(l, ss);
  }

  lemma ConfirmKeeps(l: Ledger, sid: SessionId, sheet: map<StudentId, Mark>, today: Month)
    requires Inv(l) && Confirm(l, sid, sheet, today).Ok?
    ensures Keeps(l, Confirm(l, sid, sheet, today).value)
  {
    SetSheetKeeps(l, sid, sheet);
    ReconcileSessionKeeps(SetSheet(l, sid, sheet), sid, today, RosterOf(sheet));
    KeepsTrans(l, SetSheet(l, sid, sheet), Confirm(l, sid, sheet, today).value);
  }

  // ----- runs -------------------------------------------------------------

  lemma AddSessionKeeps(l: Ledger, m: Month)
    requires Inv(l)
    ensures Keeps(l, Step(l, OpAddSession(m)))
  {
    var ss := l.sessions + [Session(m, map[])];
    forall s | 0 <= s < |ss| ensures SheetFits(l, ss[s].sheet) {
      assert s < |l.sessions| ==> SheetFits(l, l.sessions[s].sheet);
    }
    SessionsKeep(l, ss);
  }

  lemma KeepsSame(l: Ledger)
    requires Inv(l)
    ensures Keeps(l, l)
  {
  }

  lemma RosterStepKeeps(l: Ledger, op: Op)
    requires Inv(l) && (op.OpEnroll? || op.OpReprice? || op.OpAddSession? || op.OpEnsurePeriod?)
    ensures Keeps(l, Step(l, op))
  {
    match op
    case OpEnsurePeriod(m) => EnsurePeriodKeeps(l, m);
    case OpAddSession(m) => AddSessionKeeps(l, m);
    case _ => EnrollmentsKeep(l, Step(l, op).enrollments);
  }

  lemma MoneyStepKeeps(l: Ledger, op: Op)
    requires Inv(l) && (op.OpAdjust? || op.OpSetPaid? || op.OpVoid?)
    ensures Keeps(l, Step(l, op))
  {
    KeepsSame(l);
    match op
    case OpAdjust(id, amount) => if AddAdjustment(l, id, amount).Ok? { PostAdjustmentKeeps(l, id, amount, None); }
    case OpSetPaid(id, paid) => if SetPaid(l, id, paid).Ok? { SetPaidKeeps(l, id, paid); }
    case OpVoid(id) => if VoidInvoice(l, id).Ok? { VoidInvoiceKeeps(l, id); }
  }

  lemma SheetStepKeeps(l: Ledger, op: Op)
    requires Inv(l) && (op.OpConfirm? || op.OpCommit? || op.OpReconcile?)
    ensures Keeps(l, Step(l, op))
  {
    KeepsSame(l);
    match op
    case OpConfirm(sid, sheet, today) => if Confirm(l, sid, sheet, today).Ok? { ConfirmKeeps(l, sid, sheet, today); }
    case OpCommit(sid, sheet) => if Commit(l, sid, sheet).Ok? { SetSheetKeeps(l, sid, sheet); }
    case OpReconcile(sid, today, roster) => ReconcileSessionKeeps(l, sid, today, roster);
  }

  lemma DraftStepKeeps(l: Ledger, m: Month)
    requires Inv(l)
    ensures Keeps(l, Or(DraftPeriod(l, m), l))
  {
    KeepsSame(l);
    if DraftPeriod(l, m).Ok? { DraftComputedKeeps(l, m); }
  }

  lemma CloseStepKeeps(l: Ledger, m: Month, unconfirmed: bool)
    requires Inv(l)
    ensures Keeps(l, AfterClose(ClosePeriod(l, m, unconfirmed), l))
  {
    if ClosePeriod(l, m, unconfirmed).Ok? { ClosePeriodKeeps(l, m, unconfirmed); } else { KeepsSame(l); }
  }

  lemma StepKeeps(l: Ledger, op: Op)
    requires Inv(l)
    ensures Keeps(l, Step(l, op))
  {
    if op.OpConfirm? || op.OpCommit? || op.OpReconcile? { SheetStepKeeps(l, op); }
    else if op.OpDraft? { DraftStepKeeps(l, op.month); }
    else if op.OpClose? { CloseStepKeeps(l, op.month, op.unconfirmed); }
    else if op.OpAdjust? || op.OpSetPaid? || op.OpVoid? { MoneyStepKeeps(l, op); }
    else { RosterStepKeeps(l, op); }
  }

  /** In every reachable ledger: charges equal their lines, adjustment totals equal their
      rows, totals add up, statuses are the derived ones, open periods hold only drafts;
      and every row that left draft stays frozen through every later run. */
  lemma {:induction false} RunKeeps(l: Ledger, ops: seq<Op>)
    requires Inv(l)
    ensures Inv(Run(l, ops)) && Evolves(l, Run(l, ops))
  {
    var n := |ops|;
    if n == 0 {
    } else {
      RunKeeps(l, ops[..n-1]);
      StepKeeps(Run(l, ops[..n-1]), ops[n-1]);
      KeepsTrans(l, Run(l, ops[..n-1]), Run(l, ops));
    }
  }

  /** The money columns of every row in every reachable ledger, written out. */
  lemma ReachableRowsBalance(ops: seq<Op>, i: nat)
    requires i < |Run(EMPTY, ops).invoices|
    ensures var l := Run(EMPTY, ops);
      var inv := l.invoices[i];
      && inv.charge == SumAmounts(inv.lines)
      && (forall x :: 0 <= x < |inv.lines| ==> inv.lines[x].amount == inv.lines[x].billable * inv.lines[x].unitPrice)
      && inv.adjustments == AdjustmentSum(l.adjustments, i)
      && inv.totalDue == inv.opening + inv.charge + inv.adjustments
      && (Derived(inv) || Overtaken(inv))
      && (IsOpen(l, inv.month) ==> inv.status == Draft)
  {
    RunKeeps(EMPTY, ops);
    var l := Run(EMPTY, ops);
    assert InvoiceOk(l, i);
    forall x | 0 <= x < |l.invoices[i].lines|
      ensures l.invoices[i].lines[x].amount == l.invoices[i].lines[x].billable * l.invoices[i].lines[x].unitPrice
    {
      assert LineFits(l.enrollments, l.invoices[i].student, l.invoices[i].lines[x]);
    }
  }

  /** What a status means in every reachable ledger: a billed row is issued exactly when nothing was
      paid; while something is due it is partially paid or paid according to what was paid against
      it; with nothing due a row with payments can be either. */
  lemma ReachableStatusMeans(ops: seq<Op>, i: nat)
    requires i < |Run(EMPTY, ops).invoices|
    requires Run(EMPTY, ops).invoices[i].status != Draft && Run(EMPTY, ops).invoices[i].status != Void
    ensures var inv := Run(EMPTY, ops).invoices[i];
      && (inv.status == Issued <==> inv.paid == 0)
      && (inv.totalDue > 0 ==> (inv.status == PartiallyPaid <==> 0 < inv.paid < inv.totalDue))
      && (inv.totalDue > 0 ==> (inv.status == Paid <==> inv.paid >= inv.totalDue))
      && (inv.totalDue <= 0 && inv.paid > 0 ==> inv.status in {PartiallyPaid, Paid})
  {
    RunKeeps(EMPTY, ops);
    assert InvoiceOk(Run(EMPTY, ops), i);
  }

  /** A row that has left draft keeps its opening, charge and lines through any later run;
      it never becomes a draft again and a void row stays void. */
  lemma IssuedRowsAreFrozen(ops: seq<Op>, later: seq<Op>, i: nat)
    requires i < |Run(EMPTY, ops).invoices| && Run(EMPTY, ops).invoices[i].status != Draft
    ensures i < |Run(Run(EMPTY, ops), later).invoices|
    ensures var a := Run(EMPTY, ops).invoices[i];
      var b := Run(Run(EMPTY, ops), later).invoices[i];
      && b.opening == a.opening && b.charge == a.charge && b.lines == a.lines
      && b.status != Draft && (a.status == Void ==> b.status == Void)
  {
    RunKeeps(EMPTY, ops);
    RunKeeps(Run(EMPTY, ops), later);
    assert Frozen(Run(EMPTY, ops).invoices[i], Run(Run(EMPTY, ops), later).invoices[i]);
  }
}
