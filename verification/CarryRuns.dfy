/** By how much a closed invoice and its carries differ from its live worth: exactly what every
    call does to that gap, and the runs over which it is zero everywhere. */
module CarryRuns {
  import opened Options
  import opened Ids
  import opened InvoiceCalculator
  import opened Ledgers
  import opened InvoiceLines
  import opened LedgerInvariants
  import opened LedgerSteps
  import opened PeriodClose
  import opened Reconciliation

  ghost predicate Collectable(inv: Invoice) { inv.status != Draft && inv.status != Void }

  /** Closed charge plus carries equals live counts at frozen prices. */
  ghost predicate Settled(l: Ledger, i: nat)
    requires i < |l.invoices|
  {
    var inv := l.invoices[i];
    inv.charge + Carried(l, inv.student, inv.month) == LiveCharge(l.sessions, inv.lines, inv.student, inv.month)
  }

  ghost predicate AllSettled(l: Ledger) {
    forall i :: 0 <= i < |l.invoices| && IsClosed(l, l.invoices[i].month) && Collectable(l.invoices[i]) ==>
      Settled(l, i)
  }

  /** What charge and carries exceed the live worth by. */
  function Gap(l: Ledger, i: nat): int
    requires i < |l.invoices|
  {
    var inv := l.invoices[i];
    inv.charge + Carried(l, inv.student, inv.month) - LiveCharge(l.sessions, inv.lines, inv.student, inv.month)
  }

  lemma SettledIffNoGap(l: Ledger, i: nat)
    requires i < |l.invoices|
    ensures Settled(l, i) <==> Gap(l, i) == 0
  {
  }

  /** st's invoice of the month exists, is neither draft nor void. */
  ghost predicate HasBill(l: Ledger, m: Month, st: StudentId) {
    Find(l.invoices, m, st).Some? && Collectable(l.invoices[Find(l.invoices, m, st).value])
  }

  ghost predicate HasLine(l: Ledger, m: Month, st: StudentId, e: EnrollmentId) {
    Find(l.invoices, m, st).Some? && LineIndex(l.invoices[Find(l.invoices, m, st).value].lines, e).Some?
  }

  // ----- live counts ------------------------------------------------------

  lemma {:induction false} CountAfterEdit(ss: seq<Session>, sid: nat, s: Session, st: StudentId, e: EnrollmentId,
      m: Month)
    requires sid < |ss|
    ensures BillableCount(ss[sid := s], st, e, m) ==
      BillableCount(ss, st, e, m) - Attends(ss[sid], st, e, m) + Attends(s, st, e, m)
  {
    var n := |ss|;
    if sid == n - 1 {
      assert ss[sid := s][..n-1] == ss[..n-1];
    } else {
      assert ss[sid := s][..n-1] == ss[..n-1][sid := s];
      CountAfterEdit(ss[..n-1], sid, s, st, e, m);
    }
  }

  lemma {:induction false} LiveChargeSame(a: seq<Session>, b: seq<Session>, lines: seq<Line>, st: StudentId, m: Month)
    requires forall e :: BillableCount(a, st, e, m) == BillableCount(b, st, e, m)
    ensures LiveCharge(a, lines, st, m) == LiveCharge(b, lines, st, m)
  {
    if |lines| == 0 {
    } else {
      LiveChargeSame(a, b, lines[..|lines|-1], st, m);
    }
  }

  function LinePrice(lines: seq<Line>, e: EnrollmentId): int {
    match LineIndex(lines, e) case Some(x) => lines[x].unitPrice case None => 0
  }

  /** What the session's record of st is worth on these lines. */
  function RecordPrice(s: Session, lines: seq<Line>, st: StudentId, m: Month): int {
    if s.month == m && st in s.sheet then LinePrice(lines, s.sheet[st].enrollment) else 0
  }

  lemma RecordPriceSnoc(s: Session, lines: seq<Line>, st: StudentId, m: Month)
    requires UniqueLines(lines) && |lines| > 0
    ensures var x := lines[|lines|-1];
      RecordPrice(s, lines, st, m) ==
        RecordPrice(s, lines[..|lines|-1], st, m) + Attends(s, st, x.enrollment, m) * x.unitPrice
  {
    var n := |lines|;
    if s.month == m && st in s.sheet && s.sheet[st].enrollment == lines[n-1].enrollment {
      assert LineIndex(lines[..n-1], lines[n-1].enrollment).None?;
    }
  }

  lemma Distribute(a: int, b: int, c: int, p: int)
    ensures (a - b + c) * p == a * p - b * p + c * p
  {
  }

  /** Replacing one session moves the live worth by the two records' prices. */
  lemma {:induction false} SheetShiftsLive(ss: seq<Session>, sid: nat, s: Session, lines: seq<Line>, st: StudentId,
      m: Month)
    requires sid < |ss| && UniqueLines(lines)
    ensures LiveCharge(ss[sid := s], lines, st, m) ==
      LiveCharge(ss, lines, st, m) - RecordPrice(ss[sid], lines, st, m) + RecordPrice(s, lines, st, m)
  {
    var n := |lines|;
    if n == 0 {
    } else {
      var x := lines[n-1];
      SheetShiftsLive(ss, sid, s, lines[..n-1], st, m);
      RecordPriceSnoc(ss[sid], lines, st, m);
      RecordPriceSnoc(s, lines, st, m);
      CountAfterEdit(ss, sid, s, st, x.enrollment, m);
      Distribute(BillableCount(ss, st, x.enrollment, m), Attends(ss[sid], st, x.enrollment, m),
        Attends(s, st, x.enrollment, m), x.unitPrice);
    }
  }

  /** The session's own record counts. */
  lemma {:induction false} RecordCounts(ss: seq<Session>, sid: nat, st: StudentId, e: EnrollmentId, m: Month)
    requires sid < |ss| && Attends(ss[sid], st, e, m) == 1
    ensures BillableCount(ss, st, e, m) >= 1
  {
    var n := |ss|;
    if sid == n - 1 {
    } else {
      RecordCounts(ss[..n-1], sid, st, e, m);
    }
  }

  lemma {:induction false} LiveChargeAddSession(l: Ledger, month: Month, lines: seq<Line>, st: StudentId, m: Month)
    ensures LiveCharge(l.sessions + [Session(month, map[])], lines, st, m) == LiveCharge(l.sessions, lines, st, m)
  {
    var ss := l.sessions + [Session(month, map[])];
    assert ss[..|l.sessions|] == l.sessions;
    LiveChargeSame(l.sessions, ss, lines, st, m);
  }

  // ----- frames -----------------------------------------------------------

  lemma SettledFrame(l: Ledger, k: Ledger, i: nat)
    requires i < |l.invoices| && i < |k.invoices| && Settled(l, i)
    requires k.invoices[i].month == l.invoices[i].month && k.invoices[i].student == l.invoices[i].student
    requires k.invoices[i].charge == l.invoices[i].charge && k.invoices[i].lines == l.invoices[i].lines
    requires Carried(k, l.invoices[i].student, l.invoices[i].month) ==
      Carried(l, l.invoices[i].student, l.invoices[i].month)
    requires LiveCharge(k.sessions, l.invoices[i].lines, l.invoices[i].student, l.invoices[i].month)
          == LiveCharge(l.sessions, l.invoices[i].lines, l.invoices[i].student, l.invoices[i].month)
    ensures Settled(k, i)
  {
  }

  /** Operations that leave sessions and carries alone keep every settled closed row. */
  lemma SettledWhenRowsEvolve(l: Ledger, k: Ledger)
    requires Inv(l) && Evolves(l, k) && AllSettled(l)
    requires k.sessions == l.sessions
    requires forall st, m :: Carried(k, st, m) == Carried(l, st, m)
    requires forall m :: IsClosed(k, m) <==> IsClosed(l, m)
    requires forall i :: 0 <= i < |k.invoices| && IsClosed(l, k.invoices[i].month) && Collectable(k.invoices[i]) ==>
      i < |l.invoices| && Collectable(l.invoices[i])
    ensures AllSettled(k)
  {
    forall i | 0 <= i < |k.invoices| && IsClosed(k, k.invoices[i].month) && Collectable(k.invoices[i])
      ensures Settled(k, i)
    {
      assert Frozen(l.invoices[i], k.invoices[i]);
      SettledFrame(l, k, i);
    }
  }

  lemma CarriedUnchanged(l: Ledger, k: Ledger)
    requires Inv(l) && Evolves(l, k) && k.adjustments == l.adjustments
    ensures forall st, m :: Carried(k, st, m) == Carried(l, st, m)
  {
    forall st, m ensures Carried(k, st, m) == Carried(l, st, m) { CarriedFrameInv(l, k, st, m); }
  }

  // ----- closing settles --------------------------------------------------

  lemma {:induction false} LiveEqualsAmounts(ss: seq<Session>, lines: seq<Line>, st: StudentId, m: Month)
    requires forall k :: 0 <= k < |lines| ==>
      lines[k].amount == BillableCount(ss, st, lines[k].enrollment, m) * lines[k].unitPrice
    ensures SumAmounts(lines) == LiveCharge(ss, lines, st, m)
  {
    if |lines| == 0 {
    } else {
      LiveEqualsAmounts(ss, lines[..|lines|-1], st, m);
    }
  }

  lemma {:induction false} NoCarriesYet(l: Ledger, adjs: seq<Adjustment>, st: StudentId, m: Month)
    requires forall x :: 0 <= x < |adjs| ==> AdjustmentOk(l, adjs[x])
    requires !IsClosed(l, m)
    ensures AlreadyCarried(l, adjs, st, m) == 0
  {
    var n := |adjs|;
    if n == 0 {
    } else {
      NoCarriesYet(l, adjs[..n-1], st, m);
      assert AdjustmentOk(l, adjs[n-1]);
    }
  }

  lemma DraftedLineIsLive(l: Ledger, m: Month, ci: Computed, rows: seq<Line>, line: Line)
    requires ComputedFits(l.enrollments, l.sessions, m, ci)
    requires LinesFit(l.enrollments, ci.student, rows)
    requires line in Redraft(rows, ci.lines)
    ensures line.amount == BillableCount(l.sessions, ci.student, line.enrollment, m) * line.unitPrice
  {
    RedraftMembers(rows, ci.lines, line);
    if line !in ci.lines {
      var o :| o in rows && o.enrollment == line.enrollment;
      var x :| 0 <= x < |rows| && rows[x] == o;
      assert LineFits(l.enrollments, ci.student, rows[x]);
      assert FreshLine(l.enrollments, l.sessions, m, line.enrollment).enrollment == line.enrollment;
    }
  }

  lemma DraftedRowIsLive(l: Ledger, m: Month, i: nat)
    requires Inv(l) && IsOpen(l, m)
    requires i < |DraftAll(l, m, ComputePeriod(l, m)).invoices|
    requires DraftAll(l, m, ComputePeriod(l, m)).invoices[i].month == m
    ensures var inv := DraftAll(l, m, ComputePeriod(l, m)).invoices[i];
      SumAmounts(inv.lines) == LiveCharge(l.sessions, inv.lines, inv.student, m)
  {
    var cs := ComputePeriod(l, m);
    var drafted := DraftAll(l, m, cs);
    var inv := drafted.invoices[i];
    DraftComputedKeeps(l, m);
    DraftedRowsAreComputed(l, m, i);
    ComputedStudents(l, m);
    var j :| 0 <= j < |cs| && cs[j].student == inv.student;
    DraftAllRows(l, m, cs, j);
    FindUnique(drafted.invoices, i);
    RowIsLive(l, m, j);
  }

  lemma RowIsLive(l: Ledger, m: Month, j: nat)
    requires Inv(l) && j < |ComputePeriod(l, m)|
    ensures var row := DraftedRow(l, m, ComputePeriod(l, m)[j]);
      SumAmounts(row.lines) == LiveCharge(l.sessions, row.lines, ComputePeriod(l, m)[j].student, m)
  {
    var ci := ComputePeriod(l, m)[j];
    var rows := Base(l, m, ci.student).lines;
    var lines := Redraft(rows, ci.lines);
    ComputePeriodFits(l, m, j);
    BaseFits(l, m, ci.student);
    forall x | 0 <= x < |lines|
      ensures lines[x].amount == BillableCount(l.sessions, ci.student, lines[x].enrollment, m) * lines[x].unitPrice
    {
      DraftedLineIsLive(l, m, ci, rows, lines[x]);
    }
    LiveEqualsAmounts(l.sessions, lines, ci.student, m);
  }

  /** Whatever the ledger was, a successful Close leaves each of the month's rows charging exactly its
      live worth, with nothing carried out of the month yet. */
  lemma ClosedRowSettles(l: Ledger, m: Month, unconfirmed: bool, i: nat)
    requires Inv(l) && ClosePeriod(l, m, unconfirmed).Ok?
    requires i < |ClosePeriod(l, m, unconfirmed).value.0.invoices|
    requires ClosePeriod(l, m, unconfirmed).value.0.invoices[i].month == m
    ensures var k := ClosePeriod(l, m, unconfirmed).value.0;
      var inv := k.invoices[i];
      && inv.charge == LiveCharge(k.sessions, inv.lines, inv.student, m)
      && Carried(k, inv.student, m) == 0 && Settled(k, i)
  {
    DraftComputedKeeps(l, m);
    assert InvoiceOk(DraftAll(l, m, ComputePeriod(l, m)), i);
    DraftedRowIsLive(l, m, i);
    CloseCarries(l, m, unconfirmed);
    NoCarriesYet(l, l.adjustments, ClosePeriod(l, m, unconfirmed).value.0.invoices[i].student, m);
  }

  lemma BaseFits(l: Ledger, m: Month, st: StudentId)
    requires Inv(l)
    ensures LinesFit(l.enrollments, st, Base(l, m, st).lines)
  {
    match Find(l.invoices, m, st)
    case Some(i) => assert InvoiceOk(l, i);
    case None =>
  }

  lemma CloseCarries(l: Ledger, m: Month, unconfirmed: bool)
    requires Inv(l) && ClosePeriod(l, m, unconfirmed).Ok?
    ensures var k := ClosePeriod(l, m, unconfirmed).value.0;
      k.sessions == l.sessions && k.adjustments == l.adjustments
      && (forall q :: IsClosed(k, q) <==> IsClosed(l, q) || q == m)
      && forall st, q :: Carried(k, st, q) == Carried(l, st, q)
  {
    ClosePeriodKeeps(l, m, unconfirmed);
    DraftAllTouchesOnlyInvoices(l, m, ComputePeriod(l, m));
    CarriedUnchanged(l, ClosePeriod(l, m, unconfirmed).value.0);
  }

  lemma CloseSettles(l: Ledger, m: Month, unconfirmed: bool)
    requires Inv(l) && AllSettled(l) && ClosePeriod(l, m, unconfirmed).Ok?
    ensures AllSettled(ClosePeriod(l, m, unconfirmed).value.0)
  {
    var k := ClosePeriod(l, m, unconfirmed).value.0;
    ClosePeriodKeeps(l, m, unconfirmed);
    CloseCarries(l, m, unconfirmed);
    forall i | 0 <= i < |k.invoices| && IsClosed(k, k.invoices[i].month) && Collectable(k.invoices[i])
      ensures Settled(k, i)
    {
      if k.invoices[i].month == m {
        ClosedRowSettles(l, m, unconfirmed, i);
      } else {
        OtherMonthRow(l, m, unconfirmed, i);
        SettledFrame(l, k, i);
      }
    }
  }

  lemma OtherMonthRow(l: Ledger, m: Month, unconfirmed: bool, i: nat)
    requires Inv(l) && ClosePeriod(l, m, unconfirmed).Ok?
    requires i < |ClosePeriod(l, m, unconfirmed).value.0.invoices|
    requires ClosePeriod(l, m, unconfirmed).value.0.invoices[i].month != m
    ensures i < |l.invoices| && l.invoices[i] == ClosePeriod(l, m, unconfirmed).value.0.invoices[i]
  {
    OtherMonthDrafted(l, m, ComputePeriod(l, m), i);
  }

  lemma {:induction false} OtherMonthDrafted(l: Ledger, m: Month, cs: seq<Computed>, i: nat)
    requires i < |DraftAll(l, m, cs).invoices| && DraftAll(l, m, cs).invoices[i].month != m
    ensures i < |l.invoices| && l.invoices[i] == DraftAll(l, m, cs).invoices[i]
  {
    var n := |cs|;
    if n == 0 {
    } else {
      var before := DraftAll(l, m, cs[..n-1]);
      match Find(before.invoices, m, cs[n-1].student) {
        case Some(j) => assert before.invoices[j].month == m && i < |before.invoices|;
        case None => assert i < |before.invoices|;
      }
      OtherMonthDrafted(l, m, cs[..n-1], i);
    }
  }

  // ----- reconciling ------------------------------------------------------

  lemma NewRowsAreDrafts(l: Ledger, sid: SessionId, x: StudentId, today: Month, roster: set<EnrollmentId>)
    requires Inv(l) && sid < |l.sessions| && IsClosed(l, l.sessions[sid].month) && x in l.sessions[sid].sheet
    ensures forall i :: |l.invoices| <= i < |ReconcileStudent(l, sid, x, today, roster).invoices| ==>
      ReconcileStudent(l, sid, x, today, roster).invoices[i].status == Draft
  {
  }

  lemma {:induction false} AllNewRowsAreDrafts(l: Ledger, sid: SessionId, students: seq<StudentId>, today: Month,
      roster: set<EnrollmentId>)
    requires Inv(l) && sid < |l.sessions| && IsClosed(l, l.sessions[sid].month)
    requires forall st :: st in students ==> st in l.sessions[sid].sheet
    ensures var k := ReconcileAll(l, sid, students, today, roster);
      |l.invoices| <= |k.invoices| && forall i :: |l.invoices| <= i < |k.invoices| ==> k.invoices[i].status == Draft
  {
    var n := |students|;
    if n == 0 {
    } else {
      var before := ReconcileAll(l, sid, students[..n-1], today, roster);
      AllNewRowsAreDrafts(l, sid, students[..n-1], today, roster);
      ReconcileAllKeeps(l, sid, students[..n-1], today, roster);
      NewRowsAreDrafts(before, sid, students[n-1], today, roster);
      StudentKeepsMoney(before, sid, students[n-1], today, roster);
    }
  }

  lemma ReconcilePeriods(l: Ledger, sid: SessionId, today: Month, roster: set<EnrollmentId>)
    requires Inv(l)
    ensures forall m :: IsClosed(ReconcileSession(l, sid, today, roster), m) <==> IsClosed(l, m)
  {
    if sid < |l.sessions| && IsClosed(l, l.sessions[sid].month) {
      forall m ensures IsClosed(ReconcileSession(l, sid, today, roster), m) <==> IsClosed(l, m) {
        AllPeriods(l, sid, SortedIds(l.sessions[sid].sheet.Keys), today, roster, m);
      }
    }
  }

  lemma StudentPeriods(l: Ledger, sid: SessionId, st: StudentId, today: Month, roster: set<EnrollmentId>, m: Month)
    requires sid < |l.sessions| && st in l.sessions[sid].sheet
    ensures IsClosed(ReconcileStudent(l, sid, st, today, roster), m) <==> IsClosed(l, m)
  {
  }

  lemma {:induction false} AllPeriods(l: Ledger, sid: SessionId, students: seq<StudentId>, today: Month,
      roster: set<EnrollmentId>, m: Month)
    requires sid < |l.sessions| && forall st :: st in students ==> st in l.sessions[sid].sheet
    ensures IsClosed(ReconcileAll(l, sid, students, today, roster), m) <==> IsClosed(l, m)
  {
    var n := |students|;
    if n == 0 {
    } else {
      AllPeriods(l, sid, students[..n-1], today, roster, m);
      StudentPeriods(ReconcileAll(l, sid, students[..n-1], today, roster), sid, students[n-1], today, roster, m);
    }
  }

  /** The row belongs to the session's month and its student is on the sheet. */
  ghost predicate Visited(l: Ledger, sid: SessionId, i: nat)
    requires i < |l.invoices| && sid < |l.sessions|
  {
    l.invoices[i].month == l.sessions[sid].month && l.invoices[i].student in l.sessions[sid].sheet
  }

  /** A reconciliation leaves a visited row with exactly the charge for the sheet's enrollment that
      has no line, whatever the gap was, and every other row with the gap it had. */
  lemma ReconciledGap(l: Ledger, sid: SessionId, today: Month, roster: set<EnrollmentId>, i: nat)
    requires Inv(l) && sid < |l.sessions| && IsClosed(l, l.sessions[sid].month) && i < |l.invoices|
    requires l.invoices[i].status != Void
    ensures var k := ReconcileSession(l, sid, today, roster);
      var inv := l.invoices[i];
      i < |k.invoices| && Gap(k, i) ==
        if Visited(l, sid, i)
        then LinelessCharge(l, inv.lines, roster, inv.student, l.sessions[sid].sheet[inv.student].enrollment, inv.month)
        else Gap(l, i)
  {
    var st, students := l.invoices[i].student, SortedIds(l.sessions[sid].sheet.Keys);
    AllKeepMoney(l, sid, students, today, roster);
    FindUnique(l.invoices, i);
    if Visited(l, sid, i) {
      ReconcileConverges(l, sid, today, roster, st);
    } else {
      CarriedOfOthers(l, sid, students, today, roster, st, l.invoices[i].month);
    }
  }

  /** Committing a sheet moves a row's gap by the prices of the two records. */
  lemma CommittedGap(l: Ledger, sid: SessionId, sheet: map<StudentId, Mark>, i: nat)
    requires Inv(l) && Commit(l, sid, sheet).Ok? && i < |l.invoices|
    ensures var inv := l.invoices[i];
      Gap(SetSheet(l, sid, sheet), i) ==
        Gap(l, i) + RecordPrice(l.sessions[sid], inv.lines, inv.student, inv.month)
                  - RecordPrice(Session(l.sessions[sid].month, sheet), inv.lines, inv.student, inv.month)
  {
    var l1 := SetSheet(l, sid, sheet);
    SetSheetKeeps(l, sid, sheet);
    CarriedUnchanged(l, l1);
    assert InvoiceOk(l, i);
    SheetShiftsLive(l.sessions, sid, l1.sessions[sid], l.invoices[i].lines, l.invoices[i].student, l.invoices[i].month);
  }

  /** What the student's enrollment on the new sheet is worth in the month at its own price, nothing
      when the bill has a line for it. */
  function NewEnrollmentPrice(l: Ledger, sid: SessionId, sheet: map<StudentId, Mark>, inv: Invoice): int
    requires sid < |l.sessions| && inv.student in sheet && sheet[inv.student].enrollment < |l.enrollments|
  {
    var e := sheet[inv.student].enrollment;
    if exists x :: 0 <= x < |inv.lines| && inv.lines[x].enrollment == e then 0
    else BillableCount(SetSheet(l, sid, sheet).sessions, inv.student, e, inv.month) * l.enrollments[e].unitPrice
  }

  /** The gap a confirmation leaves on a row of a closed month: nothing but the charge without a
      line when the student is on the new sheet; the dropped record's price on top of the old gap
      when the student is not; the old gap when the session is of another month. */
  lemma ConfirmedGap(l: Ledger, sid: SessionId, sheet: map<StudentId, Mark>, today: Month, i: nat)
    requires Inv(l) && Confirm(l, sid, sheet, today).Ok? && i < |l.invoices|
    requires IsClosed(l, l.invoices[i].month) && l.invoices[i].status != Void
    ensures var k := Confirm(l, sid, sheet, today).value;
      var inv, s := l.invoices[i], l.sessions[sid];
      i < |k.invoices| && Gap(k, i) ==
        if s.month == inv.month && inv.student in sheet
        then NewEnrollmentPrice(l, sid, sheet, inv)
        else Gap(l, i) + RecordPrice(s, inv.lines, inv.student, inv.month)
  {
    var l1 := SetSheet(l, sid, sheet);
    SetSheetKeeps(l, sid, sheet);
    CommittedGap(l, sid, sheet, i);
    if IsClosed(l, l.sessions[sid].month) { ReconciledGap(l1, sid, today, RosterOf(sheet), i); }
    assert SheetFits(l, sheet);
  }

  // ----- what keeps a row settled -----------------------------------------

  /** The enrollment has a line on the closed invoice, or is free. */
  predicate LineOrFree(l: Ledger, lines: seq<Line>, e: EnrollmentId) {
    LineIndex(lines, e).Some? || (e < |l.enrollments| && l.enrollments[e].unitPrice == 0)
  }

  lemma LinelessIsZeroIff(l: Ledger, sid: SessionId, roster: set<EnrollmentId>, i: nat)
    requires Inv(l) && sid < |l.sessions| && i < |l.invoices| && Visited(l, sid, i)
    ensures var inv := l.invoices[i];
      var e := l.sessions[sid].sheet[inv.student].enrollment;
      LinelessCharge(l, inv.lines, roster, inv.student, e, inv.month) == 0 <==>
        e !in roster || LineOrFree(l, inv.lines, e)
  {
    var inv := l.invoices[i];
    var e := l.sessions[sid].sheet[inv.student].enrollment;
    assert SheetFits(l, l.sessions[sid].sheet);
    RecordCounts(l.sessions, sid, inv.student, e, inv.month);
    ProductZero(BillableCount(l.sessions, inv.student, e, inv.month), l.enrollments[e].unitPrice);
  }

  lemma ProductZero(n: int, p: int)
    requires n >= 1
    ensures n * p == 0 <==> p == 0
  {
  }

  /** What the call must respect for the settled closed row i to stay settled, read off the ledger
      before the call. */
  ghost predicate KeepsRow(l: Ledger, op: Op, i: nat)
    requires i < |l.invoices|
  {
    var inv := l.invoices[i];
    match op
    case OpConfirm(sid, sheet, _) =>
      sid < |l.sessions| && SheetFits(l, sheet) && l.sessions[sid].month == inv.month ==>
        if inv.student in sheet then LineOrFree(l, inv.lines, sheet[inv.student].enrollment)
        else RecordPrice(l.sessions[sid], inv.lines, inv.student, inv.month) == 0
    case OpCommit(sid, sheet) =>
      sid < |l.sessions| && SheetFits(l, sheet) ==>
        RecordPrice(l.sessions[sid], inv.lines, inv.student, inv.month)
        == RecordPrice(Session(l.sessions[sid].month, sheet), inv.lines, inv.student, inv.month)
    case OpReconcile(sid, _, roster) =>
      sid < |l.sessions| && Visited(l, sid, i) ==>
        var e := l.sessions[sid].sheet[inv.student].enrollment;
        e !in roster || LineOrFree(l, inv.lines, e)
    case _ => true
  }

  /** One confirmation, one row: both ways a post-close edit can break the books, and no other. */
  lemma ConfirmedRowIff(l: Ledger, sid: SessionId, sheet: map<StudentId, Mark>, today: Month, i: nat)
    requires Inv(l) && Confirm(l, sid, sheet, today).Ok? && i < |l.invoices|
    requires IsClosed(l, l.invoices[i].month) && l.invoices[i].status != Void && Settled(l, i)
    ensures i < |Confirm(l, sid, sheet, today).value.invoices|
    ensures Settled(Confirm(l, sid, sheet, today).value, i) <==> KeepsRow(l, OpConfirm(sid, sheet, today), i)
  {
    var l1 := SetSheet(l, sid, sheet);
    SetSheetKeeps(l, sid, sheet);
    ConfirmedGap(l, sid, sheet, today, i);
    SettledIffNoGap(Confirm(l, sid, sheet, today).value, i);
    if l.sessions[sid].month == l.invoices[i].month && l.invoices[i].student in sheet {
      LinelessIsZeroIff(l1, sid, RosterOf(sheet), i);
    }
  }

  lemma CommittedRowIff(l: Ledger, sid: SessionId, sheet: map<StudentId, Mark>, i: nat)
    requires Inv(l) && Commit(l, sid, sheet).Ok? && i < |l.invoices| && Settled(l, i)
    ensures Settled(SetSheet(l, sid, sheet), i) <==> KeepsRow(l, OpCommit(sid, sheet), i)
  {
    CommittedGap(l, sid, sheet, i);
    SettledIffNoGap(SetSheet(l, sid, sheet), i);
  }

  lemma ReconciledRowIff(l: Ledger, sid: SessionId, today: Month, roster: set<EnrollmentId>, i: nat)
    requires Inv(l) && sid < |l.sessions| && IsClosed(l, l.sessions[sid].month) && i < |l.invoices|
    requires l.invoices[i].status != Void && Settled(l, i)
    ensures i < |ReconcileSession(l, sid, today, roster).invoices|
    ensures Settled(ReconcileSession(l, sid, today, roster), i) <==> KeepsRow(l, OpReconcile(sid, today, roster), i)
  {
    ReconciledGap(l, sid, today, roster, i);
    SettledIffNoGap(ReconcileSession(l, sid, today, roster), i);
    if Visited(l, sid, i) { LinelessIsZeroIff(l, sid, roster, i); }
  }

  /** The call keeps every settled collectable row of a closed month. */
  ghost predicate KeepsRows(l: Ledger, op: Op) {
    forall i :: 0 <= i < |l.invoices| && IsClosed(l, l.invoices[i].month) && Collectable(l.invoices[i]) ==>
      KeepsRow(l, op, i)
  }

  /** The collectable rows of closed months are the same before and after. */
  ghost predicate SameClosedRows(l: Ledger, k: Ledger) {
    && |l.invoices| <= |k.invoices|
    && (forall i :: 0 <= i < |l.invoices| ==>
          k.invoices[i].month == l.invoices[i].month && (Collectable(k.invoices[i]) <==> Collectable(l.invoices[i])))
    && (forall i :: |l.invoices| <= i < |k.invoices| ==> !Collectable(k.invoices[i]))
    && (forall m :: IsClosed(k, m) <==> IsClosed(l, m))
  }

  lemma SameRowsIff(l: Ledger, k: Ledger, op: Op)
    requires SameClosedRows(l, k)
    requires forall i :: 0 <= i < |l.invoices| && IsClosed(l, l.invoices[i].month) && Collectable(l.invoices[i]) ==>
      (Settled(k, i) <==> KeepsRow(l, op, i))
    ensures AllSettled(k) <==> KeepsRows(l, op)
  {
    if AllSettled(k) {
      forall i | 0 <= i < |l.invoices| && IsClosed(l, l.invoices[i].month) && Collectable(l.invoices[i])
        ensures KeepsRow(l, op, i)
      {
        assert Collectable(k.invoices[i]) && Settled(k, i);
      }
    }
    if KeepsRows(l, op) {
      forall i | 0 <= i < |k.invoices| && IsClosed(k, k.invoices[i].month) && Collectable(k.invoices[i])
        ensures Settled(k, i)
      {
        assert KeepsRow(l, op, i);
      }
    }
  }

  lemma KeptMoneySameRows(l: Ledger, k: Ledger)
    requires MoneyKept(l, k) && forall m :: IsClosed(k, m) <==> IsClosed(l, m)
    requires forall i :: |l.invoices| <= i < |k.invoices| ==> k.invoices[i].status == Draft
    ensures SameClosedRows(l, k)
  {
  }

  lemma ReconcileSameRows(l: Ledger, sid: SessionId, today: Month, roster: set<EnrollmentId>)
    requires Inv(l)
    ensures SameClosedRows(l, ReconcileSession(l, sid, today, roster))
  {
    if sid < |l.sessions| && IsClosed(l, l.sessions[sid].month) {
      var students := SortedIds(l.sessions[sid].sheet.Keys);
      AllNewRowsAreDrafts(l, sid, students, today, roster);
      AllKeepMoney(l, sid, students, today, roster);
      ReconcilePeriods(l, sid, today, roster);
      KeptMoneySameRows(l, ReconcileSession(l, sid, today, roster));
    }
  }

  lemma ReconcileSettlesIff(l: Ledger, sid: SessionId, today: Month, roster: set<EnrollmentId>)
    requires Inv(l) && AllSettled(l)
    requires sid < |l.sessions| && IsClosed(l, l.sessions[sid].month)
    ensures AllSettled(ReconcileSession(l, sid, today, roster)) <==> KeepsRows(l, OpReconcile(sid, today, roster))
  {
    var k := ReconcileSession(l, sid, today, roster);
    ReconcileSameRows(l, sid, today, roster);
    forall i | 0 <= i < |l.invoices| && IsClosed(l, l.invoices[i].month) && Collectable(l.invoices[i])
      ensures Settled(k, i) <==> KeepsRow(l, OpReconcile(sid, today, roster), i)
    {
      ReconciledRowIff(l, sid, today, roster, i);
    }
    SameRowsIff(l, k, OpReconcile(sid, today, roster));
  }

  lemma ConfirmSettlesIff(l: Ledger, sid: SessionId, sheet: map<StudentId, Mark>, today: Month)
    requires Inv(l) && AllSettled(l) && Confirm(l, sid, sheet, today).Ok?
    ensures AllSettled(Confirm(l, sid, sheet, today).value) <==> KeepsRows(l, OpConfirm(sid, sheet, today))
  {
    var k := Confirm(l, sid, sheet, today).value;
    SetSheetKeeps(l, sid, sheet);
    ReconcileSameRows(SetSheet(l, sid, sheet), sid, today, RosterOf(sheet));
    assert SameClosedRows(l, k);
    forall i | 0 <= i < |l.invoices| && IsClosed(l, l.invoices[i].month) && Collectable(l.invoices[i])
      ensures Settled(k, i) <==> KeepsRow(l, OpConfirm(sid, sheet, today), i)
    {
      ConfirmedRowIff(l, sid, sheet, today, i);
    }
    SameRowsIff(l, k, OpConfirm(sid, sheet, today));
  }

  lemma CommitSettlesIff(l: Ledger, sid: SessionId, sheet: map<StudentId, Mark>)
    requires Inv(l) && AllSettled(l) && Commit(l, sid, sheet).Ok?
    ensures AllSettled(SetSheet(l, sid, sheet)) <==> KeepsRows(l, OpCommit(sid, sheet))
  {
    var k := SetSheet(l, sid, sheet);
    forall i | 0 <= i < |l.invoices| && IsClosed(l, l.invoices[i].month) && Collectable(l.invoices[i])
      ensures Settled(k, i) <==> KeepsRow(l, OpCommit(sid, sheet), i)
    {
      CommittedRowIff(l, sid, sheet, i);
    }
    SameRowsIff(l, k, OpCommit(sid, sheet));
  }

  // ----- runs -------------------------------------------------------------

  lemma AdjustSettles(l: Ledger, id: InvoiceId, amount: int)
    requires Inv(l) && AllSettled(l) && AddAdjustment(l, id, amount).Ok?
    ensures AllSettled(AddAdjustment(l, id, amount).value)
  {
    var k := PostAdjustment(l, id, amount, None);
    PostAdjustmentKeeps(l, id, amount, None);
    forall st, m ensures Carried(k, st, m) == Carried(l, st, m) {
      CarriedFrameInv(l, k, st, m);
      CarriedSnoc(k, l.adjustments, Adjustment(id, amount, None), st, m);
    }
    SettledWhenRowsEvolve(l, k);
  }

  lemma DraftSettles(l: Ledger, m: Month)
    requires Inv(l) && AllSettled(l) && DraftPeriod(l, m).Ok?
    ensures AllSettled(DraftPeriod(l, m).value)
  {
    var cs := ComputePeriod(l, m);
    var k := DraftAll(l, m, cs);
    DraftComputedKeeps(l, m);
    DraftAllTouchesOnlyInvoices(l, m, cs);
    CarriedUnchanged(l, k);
    forall i | 0 <= i < |k.invoices| && IsClosed(l, k.invoices[i].month) && Collectable(k.invoices[i])
      ensures i < |l.invoices| && Collectable(l.invoices[i])
    {
      OtherMonthDrafted(l, m, cs, i);
    }
    SettledWhenRowsEvolve(l, k);
  }

  lemma AddSessionSettles(l: Ledger, m: Month)
    requires Inv(l) && AllSettled(l)
    ensures AllSettled(Step(l, OpAddSession(m)))
  {
    var k := Step(l, OpAddSession(m));
    StepKeeps(l, OpAddSession(m));
    CarriedUnchanged(l, k);
    forall i | 0 <= i < |k.invoices| && IsClosed(k, k.invoices[i].month) && Collectable(k.invoices[i])
      ensures Settled(k, i)
    {
      LiveChargeAddSession(l, m, l.invoices[i].lines, l.invoices[i].student, l.invoices[i].month);
      SettledFrame(l, k, i);
    }
  }

  predicate EditsAttendance(op: Op) { op.OpConfirm? || op.OpCommit? || op.OpReconcile? }

  /** Calls that touch neither sessions, carries nor closed months. */
  lemma PlainStepSettles(l: Ledger, op: Op)
    requires Inv(l) && AllSettled(l)
    requires op.OpEnsurePeriod? || op.OpEnroll? || op.OpReprice? || op.OpSetPaid? || op.OpVoid?
    ensures AllSettled(Step(l, op))
  {
    StepKeeps(l, op);
    CarriedUnchanged(l, Step(l, op));
    SettledWhenRowsEvolve(l, Step(l, op));
  }

  lemma OtherStepSettles(l: Ledger, op: Op)
    requires Inv(l) && AllSettled(l) && !EditsAttendance(op)
    ensures AllSettled(Step(l, op))
  {
    match op
    case OpDraft(m) => if DraftPeriod(l, m).Ok? { DraftSettles(l, m); }
    case OpClose(m, unconfirmed) => if ClosePeriod(l, m, unconfirmed).Ok? { CloseSettles(l, m, unconfirmed); }
    case OpAdjust(id, amount) => if AddAdjustment(l, id, amount).Ok? { AdjustSettles(l, id, amount); }
    case OpAddSession(m) => AddSessionSettles(l, m);
    case _ => PlainStepSettles(l, op);
  }

  /** Any call on a ledger whose closed months are settled: it leaves them settled exactly when it
      keeps every row, a condition on the ledger before the call. */
  lemma StepSettlesIff(l: Ledger, op: Op)
    requires Inv(l) && AllSettled(l)
    ensures AllSettled(Step(l, op)) <==> KeepsRows(l, op)
  {
    if op.OpConfirm? && Confirm(l, op.sid, op.sheet, op.today).Ok? {
      ConfirmSettlesIff(l, op.sid, op.sheet, op.today);
    } else if op.OpCommit? && Commit(l, op.sid, op.sheet).Ok? {
      CommitSettlesIff(l, op.sid, op.sheet);
    } else if op.OpReconcile? && op.sid < |l.sessions| && IsClosed(l, l.sessions[op.sid].month) {
      ReconcileSettlesIff(l, op.sid, op.today, op.roster);
    } else if !EditsAttendance(op) {
      OtherStepSettles(l, op);
    }
  }

  ghost predicate SettledAt(ops: seq<Op>, n: nat)
    requires n <= |ops|
  {
    AllSettled(Run(EMPTY, ops[..n]))
  }

  /** In every state of the run each collectable closed invoice satisfies
      charge + carries == live count * frozen price. */
  ghost predicate SettledThroughout(ops: seq<Op>) {
    forall n: nat :: n <= |ops| ==> SettledAt(ops, n)
  }

  ghost predicate KeptAt(ops: seq<Op>, n: nat)
    requires n < |ops|
  {
    KeepsRows(Run(EMPTY, ops[..n]), ops[n])
  }

  ghost predicate RowsKeptThroughout(ops: seq<Op>) {
    forall n: nat :: n < |ops| ==> KeptAt(ops, n)
  }

  lemma SettledNextIff(ops: seq<Op>, n: nat)
    requires n < |ops| && SettledAt(ops, n)
    ensures SettledAt(ops, n+1) <==> KeptAt(ops, n)
  {
    assert ops[..n+1][..n] == ops[..n] && ops[..n+1][n] == ops[n];
    RunKeeps(EMPTY, ops[..n]);
    StepSettlesIff(Run(EMPTY, ops[..n]), ops[n]);
  }

  lemma {:induction false} KeptRunIsSettled(ops: seq<Op>, n: nat)
    requires RowsKeptThroughout(ops) && n <= |ops|
    ensures SettledAt(ops, n)
  {
    if n == 0 {
    } else {
      KeptRunIsSettled(ops, n-1);
      assert KeptAt(ops, n-1);
      SettledNextIff(ops, n-1);
    }
  }

  /** However attendance is edited, closed, drafted, adjusted, paid or voided, the carries telescope
      in every state of the run exactly when every edit of a closed month keeps the rows it finds:
      billed students stay on the sheet unless their record was free, under an enrollment that has
      a line or is free, and no commit that changes a record's price goes without its
      reconciliation. */
  lemma CarriesTelescope(ops: seq<Op>)
    ensures SettledThroughout(ops) <==> RowsKeptThroughout(ops)
  {
    if RowsKeptThroughout(ops) {
      forall n: nat | n <= |ops| ensures SettledAt(ops, n) { KeptRunIsSettled(ops, n); }
    }
    if SettledThroughout(ops) {
      forall n: nat | n < |ops| ensures KeptAt(ops, n) {
        assert SettledAt(ops, n) && SettledAt(ops, n+1);
        SettledNextIff(ops, n);
      }
    }
  }

  /** A later reconciliation makes up for one that failed: a visited row with a line is settled
      after it, settled before or not. */
  lemma ReconciliationCatchesUp(l: Ledger, sid: SessionId, today: Month, roster: set<EnrollmentId>, i: nat)
    requires Inv(l) && sid < |l.sessions| && IsClosed(l, l.sessions[sid].month)
    requires i < |l.invoices| && l.invoices[i].status != Void && Visited(l, sid, i)
    ensures i < |ReconcileSession(l, sid, today, roster).invoices|
    ensures var e := l.sessions[sid].sheet[l.invoices[i].student].enrollment;
      Settled(ReconcileSession(l, sid, today, roster), i) <==> e !in roster || LineOrFree(l, l.invoices[i].lines, e)
  {
    ReconciledGap(l, sid, today, roster, i);
    LinelessIsZeroIff(l, sid, roster, i);
    SettledIffNoGap(ReconcileSession(l, sid, today, roster), i);
  }

  // ----- the two edits that break it --------------------------------------

  /** Reconciliation only visits students with a live record. A student taken off the sheet
      of a closed month is not visited: the bill keeps the dropped session, so the row stays
      settled if and only if that session's line was free. */
  lemma DroppedStudentIsNotReconciled(l: Ledger, sid: SessionId, sheet: map<StudentId, Mark>, today: Month, i: nat)
    requires Inv(l) && Confirm(l, sid, sheet, today).Ok? && IsClosed(l, l.sessions[sid].month)
    requires i < |l.invoices| && l.invoices[i].month == l.sessions[sid].month && Settled(l, i)
    requires l.invoices[i].student in l.sessions[sid].sheet && l.invoices[i].student !in sheet
    requires LineIndex(l.invoices[i].lines, l.sessions[sid].sheet[l.invoices[i].student].enrollment).Some?
    ensures var k := Confirm(l, sid, sheet, today).value;
      var x := LineIndex(l.invoices[i].lines, l.sessions[sid].sheet[l.invoices[i].student].enrollment).value;
      i < |k.invoices| && (Settled(k, i) <==> l.invoices[i].lines[x].unitPrice == 0)
  {
    var l1, students := SetSheet(l, sid, sheet), SortedIds(sheet.Keys);
    SetSheetKeeps(l, sid, sheet);
    CommittedGap(l, sid, sheet, i);
    AllKeepMoney(l1, sid, students, today, RosterOf(sheet));
    CarriedOfOthers(l1, sid, students, today, RosterOf(sheet), l.invoices[i].student, l.invoices[i].month);
  }

  lemma SheetOwner(l: Ledger, sid: SessionId, st: StudentId)
    requires Inv(l) && sid < |l.sessions| && st in l.sessions[sid].sheet
    ensures l.sessions[sid].sheet[st].enrollment < |l.enrollments|
  {
    assert SheetFits(l, l.sessions[sid].sheet);
  }

  /** A reconciliation through an enrollment with a line leaves the charge and the carries at what the
      lines are worth. */
  lemma LinedReconciliation(l: Ledger, first: Ledger, s1: SessionId, s2: SessionId, today: Month, r1: set<EnrollmentId>,
      r2: set<EnrollmentId>, st: StudentId)
    requires Inv(l) && s1 < |l.sessions| && s2 < |l.sessions| && first == ReconcileSession(l, s2, today, r2)
    requires l.sessions[s1].month == l.sessions[s2].month && IsClosed(l, l.sessions[s1].month)
    requires st in l.sessions[s1].sheet && st in l.sessions[s2].sheet
    requires HasBill(l, l.sessions[s1].month, st)
    requires HasLine(l, l.sessions[s1].month, st, l.sessions[s1].sheet[st].enrollment)
    ensures var m := l.sessions[s1].month;
      var i := Find(l.invoices, m, st).value;
      var second := ReconcileSession(first, s1, today, r1);
      l.invoices[i].charge + Carried(second, st, m) == LiveCharge(l.sessions, l.invoices[i].lines, st, m)
  {
    ReconcileConverges(l, s2, today, r2, st);
    ReconcileSessionKeeps(l, s2, today, r2);
    ReconcileConverges(first, s1, today, r1, st);
    AllKeepMoney(l, s2, SortedIds(l.sessions[s2].sheet.Keys), today, r2);
    AllKeepMoney(first, s1, SortedIds(l.sessions[s1].sheet.Keys), today, r1);
  }

  /** A carry posted for an enrollment that has no line on the closed invoice is taken back
      in full by the next reconciliation of a session whose enrollment does have one. */
  lemma LinelessCarryIsTakenBack(l: Ledger, s1: SessionId, s2: SessionId, today: Month, r1: set<EnrollmentId>,
      r2: set<EnrollmentId>, st: StudentId)
    requires Inv(l) && s1 < |l.sessions| && s2 < |l.sessions|
    requires l.sessions[s1].month == l.sessions[s2].month && IsClosed(l, l.sessions[s1].month)
    requires st in l.sessions[s1].sheet && st in l.sessions[s2].sheet
    requires HasBill(l, l.sessions[s1].month, st)
    requires HasLine(l, l.sessions[s1].month, st, l.sessions[s1].sheet[st].enrollment)
    ensures var m := l.sessions[s1].month;
      var i := Find(l.invoices, m, st).value;
      var first := ReconcileSession(l, s2, today, r2);
      var second := ReconcileSession(first, s1, today, r1);
      var e := l.sessions[s2].sheet[st].enrollment;
      e < |l.enrollments| && Carried(second, st, m) - Carried(first, st, m) ==
        if Lineless(l.invoices[i].lines, e) && e in r2
        then -(BillableCount(l.sessions, st, e, m) * l.enrollments[e].unitPrice) else 0
  {
    var first := ReconcileSession(l, s2, today, r2);
    SheetOwner(l, s2, st);
    ReconciledAmount(l, s2, today, r2, st);
    LinedReconciliation(l, first, s1, s2, today, r1, r2, st);
  }
}
