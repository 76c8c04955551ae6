/** Post-close attendance edits: what the carried adjustments add up to. */
module Reconciliation {
  import opened Options
  import opened Ids
  import opened InvoiceCalculator
  import opened Ledgers
  import opened InvoiceLines
  import opened LedgerInvariants
  import opened LedgerSteps
  import opened PeriodClose

  // ----- carried sums -----------------------------------------------------

  lemma {:induction false} CarriedFrame(l: Ledger, k: Ledger, adjs: seq<Adjustment>, st: StudentId, m: Month)
    requires InvoicesEvolve(l.invoices, k.invoices) && SessionsEvolve(l.sessions, k.sessions)
    requires forall x :: 0 <= x < |adjs| ==>
      adjs[x].invoice < |l.invoices| && (adjs[x].source.Some? ==> adjs[x].source.value < |l.sessions|)
    ensures AlreadyCarried(k, adjs, st, m) == AlreadyCarried(l, adjs, st, m)
  {
    var n := |adjs|;
    if n == 0 {
    } else {
      CarriedFrame(l, k, adjs[..n-1], st, m);
      assert Frozen(l.invoices[adjs[n-1].invoice], k.invoices[adjs[n-1].invoice]);
    }
  }

  lemma CarriedFrameInv(l: Ledger, k: Ledger, st: StudentId, m: Month)
    requires Inv(l) && InvoicesEvolve(l.invoices, k.invoices) && SessionsEvolve(l.sessions, k.sessions)
    ensures AlreadyCarried(k, l.adjustments, st, m) == AlreadyCarried(l, l.adjustments, st, m)
  {
    forall x | 0 <= x < |l.adjustments| ensures AdjustmentOk(l, l.adjustments[x]) { }
    CarriedFrame(l, k, l.adjustments, st, m);
  }

  lemma CarriedSnoc(l: Ledger, adjs: seq<Adjustment>, a: Adjustment, st: StudentId, m: Month)
    ensures AlreadyCarried(l, adjs + [a], st, m) ==
      AlreadyCarried(l, adjs, st, m) + if CarriedFrom(l, a, st, m) then a.amount else 0
  {
    assert (adjs + [a])[..|adjs|] == adjs;
  }

  function Carried(l: Ledger, st: StudentId, m: Month): int {
    AlreadyCarried(l, l.adjustments, st, m)
  }

  // ----- one student ------------------------------------------------------

  /** Charge, lines and identity of every existing row survive a reconciliation,
      and so does being void or not. */
  ghost predicate MoneyKept(l: Ledger, k: Ledger) {
    && |l.invoices| <= |k.invoices|
    && forall i :: 0 <= i < |l.invoices| ==>
         && k.invoices[i].month == l.invoices[i].month && k.invoices[i].student == l.invoices[i].student
         && k.invoices[i].charge == l.invoices[i].charge && k.invoices[i].lines == l.invoices[i].lines
         && (k.invoices[i].status == Void <==> l.invoices[i].status == Void)
         && (k.invoices[i].status == Draft <==> l.invoices[i].status == Draft)
  }

  lemma PostKeepsMoney(l: Ledger, id: InvoiceId, amount: int, source: Option<SessionId>)
    requires id < |l.invoices|
    ensures MoneyKept(l, PostAdjustment(l, id, amount, source))
  {
  }

  lemma EnsureTargetShape(l: Ledger, p: Month, today: Month, st: StudentId)
    ensures var (k, id) := EnsureTarget(l, p, today, st);
      && MoneyKept(l, k) && k.adjustments == l.adjustments && k.sessions == l.sessions && k.enrollments == l.enrollments
      && k.invoices[id].student == st && k.invoices[id].month == ResolveTarget(l, p, today).1
  {
  }

  /** Exactly one signed adjustment is appended, on the student's own invoice of a month
      after the closed one, tagged with the edited session. */
  lemma PostedCarry(l: Ledger, sid: SessionId, st: StudentId, today: Month, roster: set<EnrollmentId>)
    requires Inv(l) && sid < |l.sessions| && st in l.sessions[sid].sheet && IsClosed(l, l.sessions[sid].month)
    ensures var k := ReconcileStudent(l, sid, st, today, roster);
      var m := l.sessions[sid].month;
      k == l || exists id: nat, d: int ::
        && k.adjustments == l.adjustments + [Adjustment(id, d, Some(sid))] && d != 0
        && id < |k.invoices| && k.invoices[id].student == st && k.invoices[id].month > m
        && MoneyKept(l, k)
  {
    var m := l.sessions[sid].month;
    var k := ReconcileStudent(l, sid, st, today, roster);
    if k != l {
      var d := Delta(l, Find(l.invoices, m, st).value, l.sessions[sid].sheet[st].enrollment, roster);
      var (l1, id) := EnsureTarget(l, m, today, st);
      EnsureTargetShape(l, m, today, st);
      ResolveTargetKeeps(l, m, today);
      PostKeepsMoney(l1, id, d, Some(sid));
      assert k.adjustments == l.adjustments + [Adjustment(id, d, Some(sid))];
    }
  }

  lemma CarriedAfterPost(l: Ledger, l1: Ledger, id: InvoiceId, d: int, sid: SessionId, st2: StudentId, m2: Month)
    requires Inv(l) && sid < |l.sessions| && id < |l1.invoices|
    requires l1.adjustments == l.adjustments && l1.sessions == l.sessions
    requires InvoicesEvolve(l.invoices, PostAdjustment(l1, id, d, Some(sid)).invoices)
    ensures Carried(PostAdjustment(l1, id, d, Some(sid)), st2, m2) ==
      Carried(l, st2, m2) + if l1.invoices[id].student == st2 && l.sessions[sid].month == m2 then d else 0
  {
    var k := PostAdjustment(l1, id, d, Some(sid));
    CarriedFrameInv(l, k, st2, m2);
    CarriedSnoc(k, l.adjustments, Adjustment(id, d, Some(sid)), st2, m2);
  }

  /** A carry moves only its own student's sum for its own closed month: sums never mix. */
  lemma CarriedAfterStudent(l: Ledger, sid: SessionId, st: StudentId, today: Month, roster: set<EnrollmentId>,
      st2: StudentId, m2: Month)
    requires Inv(l) && sid < |l.sessions| && st in l.sessions[sid].sheet && IsClosed(l, l.sessions[sid].month)
    ensures var k := ReconcileStudent(l, sid, st, today, roster);
      var m := l.sessions[sid].month;
      Carried(k, st2, m2) == Carried(l, st2, m2) +
        if st2 == st && m2 == m && Billed(l, m, st)
        then Delta(l, Find(l.invoices, m, st).value, l.sessions[sid].sheet[st].enrollment, roster) else 0
  {
    var m := l.sessions[sid].month;
    if Billed(l, m, st) {
      var d := Delta(l, Find(l.invoices, m, st).value, l.sessions[sid].sheet[st].enrollment, roster);
      if d != 0 {
        var (l1, id) := EnsureTarget(l, m, today, st);
        EnsureTargetShape(l, m, today, st);
        ReconcileStudentKeeps(l, sid, st, today, roster);
        CarriedAfterPost(l, l1, id, d, sid, st2, m2);
      }
    }
  }

  lemma StudentKeepsMoney(l: Ledger, sid: SessionId, st: StudentId, today: Month, roster: set<EnrollmentId>)
    requires sid < |l.sessions| && st in l.sessions[sid].sheet
    ensures var k := ReconcileStudent(l, sid, st, today, roster);
      MoneyKept(l, k) && k.enrollments == l.enrollments && k.sessions == l.sessions
  {
    var m := l.sessions[sid].month;
    var k := ReconcileStudent(l, sid, st, today, roster);
    if k != l {
      var (l1, id) := EnsureTarget(l, m, today, st);
      EnsureTargetShape(l, m, today, st);
      PostKeepsMoney(l1, id, Delta(l, Find(l.invoices, m, st).value, l.sessions[sid].sheet[st].enrollment, roster),
        Some(sid));
    }
  }

  lemma BilledKept(l: Ledger, k: Ledger, m: Month, st: StudentId)
    requires UniqueInvoices(l.invoices) && UniqueInvoices(k.invoices) && MoneyKept(l, k)
    requires Find(l.invoices, m, st).Some?
    ensures Find(k.invoices, m, st) == Find(l.invoices, m, st)
    ensures Billed(k, m, st) == Billed(l, m, st)
  {
    var i := Find(l.invoices, m, st).value;
    FindUnique(k.invoices, i);
  }

  // ----- the whole session ------------------------------------------------

  lemma {:induction false} AllKeepMoney(l: Ledger, sid: SessionId, students: seq<StudentId>, today: Month,
      roster: set<EnrollmentId>)
    requires sid < |l.sessions| && forall st :: st in students ==> st in l.sessions[sid].sheet
    ensures var k := ReconcileAll(l, sid, students, today, roster);
      MoneyKept(l, k) && k.enrollments == l.enrollments && k.sessions == l.sessions
  {
    var n := |students|;
    if n == 0 {
    } else {
      AllKeepMoney(l, sid, students[..n-1], today, roster);
      StudentKeepsMoney(ReconcileAll(l, sid, students[..n-1], today, roster), sid, students[n-1], today, roster);
    }
  }

  /** Students not visited, and other months, keep their carried sums. */
  lemma {:induction false} CarriedOfOthers(l: Ledger, sid: SessionId, students: seq<StudentId>, today: Month,
      roster: set<EnrollmentId>, st2: StudentId, m2: Month)
    requires Inv(l) && sid < |l.sessions| && IsClosed(l, l.sessions[sid].month)
    requires forall st :: st in students ==> st in l.sessions[sid].sheet
    requires st2 !in students || m2 != l.sessions[sid].month
    ensures Carried(ReconcileAll(l, sid, students, today, roster), st2, m2) == Carried(l, st2, m2)
  {
    var n := |students|;
    if n == 0 {
    } else {
      CarriedOfOthers(l, sid, students[..n-1], today, roster, st2, m2);
      ReconcileAllKeeps(l, sid, students[..n-1], today, roster);
      CarriedAfterStudent(ReconcileAll(l, sid, students[..n-1], today, roster), sid, students[n-1], today, roster,
        st2, m2);
    }
  }

  /** What the student's month is worth now, at the frozen prices, seen from enrollment e. */
  function Worth(l: Ledger, i: InvoiceId, e: EnrollmentId, roster: set<EnrollmentId>): int
    requires i < |l.invoices|
  {
    var inv := l.invoices[i];
    LiveCharge(l.sessions, inv.lines, inv.student, inv.month)
    + LinelessCharge(l, inv.lines, roster, inv.student, e, inv.month)
  }

  lemma WorthKept(l: Ledger, k: Ledger, i: InvoiceId, e: EnrollmentId, roster: set<EnrollmentId>)
    requires MoneyKept(l, k) && k.sessions == l.sessions && k.enrollments == l.enrollments && i < |l.invoices|
    ensures Worth(k, i, e, roster) == Worth(l, i, e, roster)
  {
  }

  /** st's row i sits where it was, non-void, and charge plus carries equals its worth. */
  ghost predicate Converged(k: Ledger, i: InvoiceId, m: Month, st: StudentId, e: EnrollmentId,
      roster: set<EnrollmentId>) {
    && Find(k.invoices, m, st) == Some(i) && Billed(k, m, st)
    && k.invoices[i].charge + Carried(k, st, m) == Worth(k, i, e, roster)
  }

  lemma VisitConverges(l: Ledger, sid: SessionId, today: Month, roster: set<EnrollmentId>, st: StudentId)
    requires Inv(l) && sid < |l.sessions| && IsClosed(l, l.sessions[sid].month)
    requires st in l.sessions[sid].sheet && Billed(l, l.sessions[sid].month, st)
    ensures Converged(ReconcileStudent(l, sid, st, today, roster), Find(l.invoices, l.sessions[sid].month, st).value,
                      l.sessions[sid].month, st, l.sessions[sid].sheet[st].enrollment, roster)
  {
    var m := l.sessions[sid].month;
    var k := ReconcileStudent(l, sid, st, today, roster);
    ReconcileStudentKeeps(l, sid, st, today, roster);
    StudentKeepsMoney(l, sid, st, today, roster);
    BilledKept(l, k, m, st);
    WorthKept(l, k, Find(l.invoices, m, st).value, l.sessions[sid].sheet[st].enrollment, roster);
    CarriedAfterStudent(l, sid, st, today, roster, st, m);
  }

  lemma VisitKeepsConverged(l: Ledger, sid: SessionId, x: StudentId, today: Month, roster: set<EnrollmentId>,
      i: InvoiceId, st: StudentId, e: EnrollmentId)
    requires Inv(l) && sid < |l.sessions| && IsClosed(l, l.sessions[sid].month)
    requires x in l.sessions[sid].sheet && x != st
    requires Converged(l, i, l.sessions[sid].month, st, e, roster)
    ensures Converged(ReconcileStudent(l, sid, x, today, roster), i, l.sessions[sid].month, st, e, roster)
  {
    var m := l.sessions[sid].month;
    var k := ReconcileStudent(l, sid, x, today, roster);
    ReconcileStudentKeeps(l, sid, x, today, roster);
    StudentKeepsMoney(l, sid, x, today, roster);
    BilledKept(l, k, m, st);
    WorthKept(l, k, i, e, roster);
    CarriedAfterStudent(l, sid, x, today, roster, st, m);
  }

  lemma LastVisitConverges(l: Ledger, sid: SessionId, students: seq<StudentId>, today: Month,
      roster: set<EnrollmentId>, st: StudentId)
    requires Inv(l) && sid < |l.sessions| && IsClosed(l, l.sessions[sid].month)
    requires forall x :: x in students ==> x in l.sessions[sid].sheet
    requires |students| > 0 && students[|students|-1] == st && Billed(l, l.sessions[sid].month, st)
    ensures Converged(ReconcileAll(l, sid, students, today, roster), Find(l.invoices, l.sessions[sid].month, st).value,
                      l.sessions[sid].month, st, l.sessions[sid].sheet[st].enrollment, roster)
  {
    var n := |students|;
    var before := ReconcileAll(l, sid, students[..n-1], today, roster);
    ReconcileAllKeeps(l, sid, students[..n-1], today, roster);
    AllKeepMoney(l, sid, students[..n-1], today, roster);
    BilledKept(l, before, l.sessions[sid].month, st);
    VisitConverges(before, sid, today, roster, st);
  }

  lemma EarlierVisitStays(l: Ledger, sid: SessionId, students: seq<StudentId>, today: Month,
      roster: set<EnrollmentId>, i: InvoiceId, st: StudentId, e: EnrollmentId)
    requires Inv(l) && sid < |l.sessions| && IsClosed(l, l.sessions[sid].month)
    requires forall x :: x in students ==> x in l.sessions[sid].sheet
    requires |students| > 0 && students[|students|-1] != st
    requires Converged(ReconcileAll(l, sid, students[..|students|-1], today, roster), i, l.sessions[sid].month, st, e,
      roster)
    ensures Converged(ReconcileAll(l, sid, students, today, roster), i, l.sessions[sid].month, st, e, roster)
  {
    var n := |students|;
    ReconcileAllKeeps(l, sid, students[..n-1], today, roster);
    VisitKeepsConverged(ReconcileAll(l, sid, students[..n-1], today, roster), sid, students[n-1], today, roster, i, st,
      e);
  }

  lemma {:induction false} VisitedConverge(l: Ledger, sid: SessionId, students: seq<StudentId>, today: Month,
      roster: set<EnrollmentId>, st: StudentId)
    requires Inv(l) && sid < |l.sessions| && IsClosed(l, l.sessions[sid].month)
    requires forall x :: x in students ==> x in l.sessions[sid].sheet
    requires Distinct(students) && st in students && Billed(l, l.sessions[sid].month, st)
    ensures Converged(ReconcileAll(l, sid, students, today, roster), Find(l.invoices, l.sessions[sid].month, st).value,
                      l.sessions[sid].month, st, l.sessions[sid].sheet[st].enrollment, roster)
  {
    var n := |students|;
    if students[n-1] == st {
      LastVisitConverges(l, sid, students, today, roster, st);
    } else {
      VisitedConverge(l, sid, students[..n-1], today, roster, st);
      EarlierVisitStays(l, sid, students, today, roster, Find(l.invoices, l.sessions[sid].month, st).value, st,
        l.sessions[sid].sheet[st].enrollment);
    }
  }

  /** Right after a reconciliation the closed charge plus every carry out of that month is
      exactly what the month is worth now, whatever edits and carries came before. */
  lemma ReconcileConverges(l: Ledger, sid: SessionId, today: Month, roster: set<EnrollmentId>, st: StudentId)
    requires Inv(l) && sid < |l.sessions| && IsClosed(l, l.sessions[sid].month)
    requires st in l.sessions[sid].sheet && Billed(l, l.sessions[sid].month, st)
    ensures var m := l.sessions[sid].month;
      var i := Find(l.invoices, m, st).value;
      var k := ReconcileSession(l, sid, today, roster);
      && Find(k.invoices, m, st) == Some(i) && Billed(k, m, st)
      && k.invoices[i].charge == l.invoices[i].charge && k.invoices[i].lines == l.invoices[i].lines
      && k.invoices[i].charge + Carried(k, st, m) == Worth(k, i, l.sessions[sid].sheet[st].enrollment, roster)
  {
    var students := SortedIds(l.sessions[sid].sheet.Keys);
    VisitedConverge(l, sid, students, today, roster, st);
    AllKeepMoney(l, sid, students, today, roster);
  }

  /** When every live enrollment of the month has a line, that worth is the sum over the
      lines of live billable count times frozen line price. */
  lemma ReconcileConvergesToLines(l: Ledger, sid: SessionId, today: Month, roster: set<EnrollmentId>, st: StudentId)
    requires Inv(l) && sid < |l.sessions| && IsClosed(l, l.sessions[sid].month)
    requires st in l.sessions[sid].sheet && Billed(l, l.sessions[sid].month, st)
    requires LineIndex(l.invoices[Find(l.invoices, l.sessions[sid].month, st).value].lines,
      l.sessions[sid].sheet[st].enrollment).Some?
    ensures var m := l.sessions[sid].month;
      var i := Find(l.invoices, m, st).value;
      var k := ReconcileSession(l, sid, today, roster);
      && i < |k.invoices|
      && k.invoices[i].charge + Carried(k, st, m) == LiveCharge(k.sessions, k.invoices[i].lines, st, m)
  {
    ReconcileConverges(l, sid, today, roster, st);
  }

  /** The bill of st carries no line for the enrollment. */
  ghost predicate Lineless(lines: seq<Line>, e: EnrollmentId) {
    forall x :: 0 <= x < |lines| ==> lines[x].enrollment != e
  }

  /** What a billed student on the sheet has been charged and carried right after a reconciliation: the
      live count of every line at its frozen price and, when the sheet's own enrollment has no line but
      is on the roster, its live count at its own price on top. */
  lemma ReconciledAmount(l: Ledger, sid: SessionId, today: Month, roster: set<EnrollmentId>, st: StudentId)
    requires Inv(l) && sid < |l.sessions| && IsClosed(l, l.sessions[sid].month)
    requires st in l.sessions[sid].sheet && Billed(l, l.sessions[sid].month, st)
    ensures var m := l.sessions[sid].month;
      var i, e := Find(l.invoices, m, st).value, l.sessions[sid].sheet[st].enrollment;
      var k, lines := ReconcileSession(l, sid, today, roster), l.invoices[i].lines;
      && i < |k.invoices| && e < |l.enrollments| && k.invoices[i].lines == lines
      && k.invoices[i].charge == l.invoices[i].charge
      && k.invoices[i].charge + Carried(k, st, m) ==
           if Lineless(lines, e) && e in roster
           then LiveCharge(k.sessions, lines, st, m) + BillableCount(k.sessions, st, e, m) * l.enrollments[e].unitPrice
           else LiveCharge(k.sessions, lines, st, m)
  {
    ReconcileConverges(l, sid, today, roster, st);
    ReconcileKeepsTables(l, sid, today, roster);
    assert SheetFits(l, l.sessions[sid].sheet);
  }

  lemma ReconcileKeepsTables(l: Ledger, sid: SessionId, today: Month, roster: set<EnrollmentId>)
    ensures ReconcileSession(l, sid, today, roster).enrollments == l.enrollments
    ensures ReconcileSession(l, sid, today, roster).sessions == l.sessions
  {
    if sid < |l.sessions| && IsClosed(l, l.sessions[sid].month) {
      AllKeepMoney(l, sid, SortedIds(l.sessions[sid].sheet.Keys), today, roster);
    }
  }

  // ----- a second call ----------------------------------------------------

  ghost predicate NothingToPost(l: Ledger, sid: SessionId, st: StudentId, roster: set<EnrollmentId>)
    requires sid < |l.sessions| && st in l.sessions[sid].sheet
  {
    var m := l.sessions[sid].month;
    Billed(l, m, st) ==> Delta(l, Find(l.invoices, m, st).value, l.sessions[sid].sheet[st].enrollment, roster) == 0
  }

  lemma {:induction false} NothingPosted(l: Ledger, sid: SessionId, students: seq<StudentId>, today: Month,
      roster: set<EnrollmentId>)
    requires sid < |l.sessions| && forall st :: st in students ==> st in l.sessions[sid].sheet
    requires forall st :: st in students ==> NothingToPost(l, sid, st, roster)
    ensures ReconcileAll(l, sid, students, today, roster) == l
  {
    var n := |students|;
    if n == 0 {
    } else {
      NothingPosted(l, sid, students[..n-1], today, roster);
      assert students[n-1] in students;
    }
  }

  lemma UnbilledKept(l: Ledger, sid: SessionId, today: Month, roster: set<EnrollmentId>, st: StudentId)
    requires Inv(l) && sid < |l.sessions| && IsClosed(l, l.sessions[sid].month) && st in l.sessions[sid].sheet
    requires !Billed(l, l.sessions[sid].month, st)
    ensures !Billed(ReconcileSession(l, sid, today, roster), l.sessions[sid].month, st)
  {
    var m := l.sessions[sid].month;
    var students := SortedIds(l.sessions[sid].sheet.Keys);
    StaysUnbilled(l, sid, students, today, roster, m, st);
  }

  /** A carry never creates or revives a row in the closed month itself. */
  lemma {:induction false} StaysUnbilled(l: Ledger, sid: SessionId, students: seq<StudentId>, today: Month,
      roster: set<EnrollmentId>, m: Month, st: StudentId)
    requires Inv(l) && sid < |l.sessions| && IsClosed(l, l.sessions[sid].month) && m == l.sessions[sid].month
    requires forall x :: x in students ==> x in l.sessions[sid].sheet
    requires !Billed(l, m, st)
    ensures !Billed(ReconcileAll(l, sid, students, today, roster), m, st)
  {
    var n := |students|;
    if n == 0 {
    } else {
      var before := ReconcileAll(l, sid, students[..n-1], today, roster);
      var k := ReconcileAll(l, sid, students, today, roster);
      StaysUnbilled(l, sid, students[..n-1], today, roster, m, st);
      ReconcileAllKeeps(l, sid, students[..n-1], today, roster);
      ReconcileAllKeeps(l, sid, students, today, roster);
      StudentKeepsMoney(before, sid, students[n-1], today, roster);
      if Find(before.invoices, m, st).Some? {
        BilledKept(before, k, m, st);
      } else {
        RowsOfClosedMonth(before, sid, students[n-1], today, roster, st);
      }
    }
  }

  /** The target row of a carry out of closed month m is no row of m. */
  lemma TargetOffMonth(l: Ledger, m: Month, today: Month, x: StudentId, st: StudentId)
    requires Inv(l) && Find(l.invoices, m, st).None?
    ensures Find(EnsureTarget(l, m, today, x).0.invoices, m, st).None?
  {
    ResolveTargetKeeps(l, m, today);
    FindAppend(l.invoices, BlankInvoice(ResolveTarget(l, m, today).1, x), m, st);
  }

  lemma RowsOfClosedMonth(l: Ledger, sid: SessionId, x: StudentId, today: Month, roster: set<EnrollmentId>,
      st: StudentId)
    requires Inv(l) && sid < |l.sessions| && IsClosed(l, l.sessions[sid].month) && x in l.sessions[sid].sheet
    requires Find(l.invoices, l.sessions[sid].month, st).None?
    ensures Find(ReconcileStudent(l, sid, x, today, roster).invoices, l.sessions[sid].month, st).None?
  {
    var m := l.sessions[sid].month;
    var k := ReconcileStudent(l, sid, x, today, roster);
    if k != l {
      TargetOffMonth(l, m, today, x, st);
      var (l1, id) := EnsureTarget(l, m, today, x);
      FindReplace(l1.invoices, id, k.invoices[id], m, st);
    }
  }

  /** Reconciling again with no edit in between posts nothing. */
  lemma SecondReconcilePostsNothing(l: Ledger, sid: SessionId, today: Month, roster: set<EnrollmentId>, later: Month)
    requires Inv(l)
    ensures ReconcileSession(ReconcileSession(l, sid, today, roster), sid, later, roster) ==
      ReconcileSession(l, sid, today, roster)
  {
    if sid < |l.sessions| && IsClosed(l, l.sessions[sid].month) {
      var students := SortedIds(l.sessions[sid].sheet.Keys);
      var k := ReconcileSession(l, sid, today, roster);
      ReconcileSessionKeeps(l, sid, today, roster);
      forall st | st in students ensures NothingToPost(k, sid, st, roster) {
        if Billed(l, l.sessions[sid].month, st) {
          ReconcileConverges(l, sid, today, roster, st);
        } else {
          UnbilledKept(l, sid, today, roster, st);
        }
      }
      NothingPosted(k, sid, students, later, roster);
    }
  }

  // ----- where a carry lands ----------------------------------------------

  function Candidate(p: Month, today: Month): Month { if today > p then today else p + 1 }

  /** The carry's month starts after the closed one, and it is open exactly when some later
      period is open or one of the two candidate months is not closed. */
  lemma TargetOpenIff(l: Ledger, p: Month, today: Month)
    ensures var (k, target) := ResolveTarget(l, p, today);
      && target > p && target in k.periods
      && (IsOpen(k, target) <==>
            OpenAfter(l, p) != {} || !IsClosed(l, Candidate(p, today)) || !IsClosed(l, Candidate(p, today) + 1))
  {
    if OpenAfter(l, p) == {} {
      var c := Candidate(p, today);
      assert c !in OpenAfter(l, p);
    }
  }

  /** Which month a carry lands on: the earliest open one after the closed month; without one, the
      current month, or the next when the current one is not later or is closed itself. */
  lemma TargetIsEarliest(l: Ledger, p: Month, today: Month)
    ensures var (k, target) := ResolveTarget(l, p, today);
      && (OpenAfter(l, p) != {} ==> k == l && IsOpen(l, target) && forall q: Month :: p < q < target ==> !IsOpen(l, q))
      && (OpenAfter(l, p) == {} && today > p ==> target == if IsClosed(l, today) then today + 1 else today)
      && (OpenAfter(l, p) == {} && today <= p ==> target == if IsClosed(l, p + 1) then p + 2 else p + 1)
  {
    var target := ResolveTarget(l, p, today).1;
    forall q: Month | OpenAfter(l, p) != {} && p < q < target ensures !IsOpen(l, q) {
      assert q !in OpenAfter(l, p);
    }
  }

  /** The student's row in the month the carry lands on is void. */
  predicate LandsOnVoid(l: Ledger, p: Month, today: Month, st: StudentId) {
    var target := ResolveTarget(l, p, today).1;
    Find(l.invoices, target, st).Some? && l.invoices[Find(l.invoices, target, st).value].status == Void
  }

  /** Total due less paid on the row of the target month, zero when there is none yet. */
  function DueBefore(l: Ledger, target: Month, st: StudentId): int {
    match Find(l.invoices, target, st) case Some(i) => l.invoices[i].totalDue - l.invoices[i].paid case None => 0
  }

  lemma ResolveTouchesPeriodsOnly(l: Ledger, p: Month, today: Month)
    ensures ResolveTarget(l, p, today).0 == l.(periods := ResolveTarget(l, p, today).0.periods)
  {
  }

  lemma RowInTarget(l: Ledger, target: Month, st: StudentId, id: InvoiceId, k: Ledger)
    requires UniqueInvoices(k.invoices)
    requires match Find(l.invoices, target, st) {
      case Some(i) => k == l && id == i
      case None => k == l.(invoices := l.invoices + [BlankInvoice(target, st)]) && id == |l.invoices| }
    ensures Find(k.invoices, target, st) == Some(id)
    ensures k.invoices[id].totalDue - k.invoices[id].paid == DueBefore(l, target, st)
    ensures k.invoices[id].status == Void <==>
      Find(l.invoices, target, st).Some? && l.invoices[Find(l.invoices, target, st).value].status == Void
  {
    assert k.invoices[id].month == target && k.invoices[id].student == st;
    FindUnique(k.invoices, id);
  }

  lemma TargetRow(l: Ledger, p: Month, today: Month, st: StudentId)
    requires Inv(l)
    ensures var (k, id) := EnsureTarget(l, p, today, st);
      var target := ResolveTarget(l, p, today).1;
      && Inv(k) && Find(k.invoices, target, st) == Some(id)
      && k.invoices[id].totalDue - k.invoices[id].paid == DueBefore(l, target, st)
      && (k.invoices[id].status == Void <==> LandsOnVoid(l, p, today, st))
  {
    var (k, id) := EnsureTarget(l, p, today, st);
    EnsureTargetKeeps(l, p, today, st);
    ResolveTouchesPeriodsOnly(l, p, today);
    RowInTarget(ResolveTarget(l, p, today).0, ResolveTarget(l, p, today).1, st, id, k);
  }

  /** What a posted carry does to the debt of the month it lands on. It always counts as carried;
      it is owed, and never below zero, unless the student's row there is void, which only a month
      that is not open can have: then it is owed nowhere. */
  lemma CarryReachesDebt(l: Ledger, sid: SessionId, st: StudentId, today: Month, roster: set<EnrollmentId>)
    requires Inv(l) && sid < |l.sessions| && st in l.sessions[sid].sheet && IsClosed(l, l.sessions[sid].month)
    requires Billed(l, l.sessions[sid].month, st)
    requires Delta(l, Find(l.invoices, l.sessions[sid].month, st).value, l.sessions[sid].sheet[st].enrollment,
      roster) != 0
    ensures var k := ReconcileStudent(l, sid, st, today, roster);
      var m := l.sessions[sid].month;
      var d := Delta(l, Find(l.invoices, m, st).value, l.sessions[sid].sheet[st].enrollment, roster);
      var target := ResolveTarget(l, m, today).1;
      && Carried(k, st, m) == Carried(l, st, m) + d
      && (Billed(k, target, st) <==> !LandsOnVoid(l, m, today, st))
      && (LandsOnVoid(l, m, today, st) ==> !IsOpen(k, target) && Owed(k, target, st) == 0 == Owed(l, target, st))
      && (!LandsOnVoid(l, m, today, st) ==>
            Owed(k, target, st) == if DueBefore(l, target, st) + d < 0 then 0 else DueBefore(l, target, st) + d)
  {
    var m := l.sessions[sid].month;
    var d := Delta(l, Find(l.invoices, m, st).value, l.sessions[sid].sheet[st].enrollment, roster);
    var (l1, id) := EnsureTarget(l, m, today, st);
    var k := PostAdjustment(l1, id, d, Some(sid));
    TargetRow(l, m, today, st);
    EnsureTargetShape(l, m, today, st);
    CarriedAfterStudent(l, sid, st, today, roster, st, m);
    ReconcileStudentKeeps(l, sid, st, today, roster);
    FindUnique(k.invoices, id);
    assert InvoiceOk(l1, id) && InvoiceOk(k, id);
    AdjustmentSumSnoc(l1.adjustments, Adjustment(id, d, Some(sid)), id);
  }
}
