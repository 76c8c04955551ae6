/** One teacher's billing tables and the service operations on them.
    A row's id is its index: rows are only appended. */
module Ledgers {
  import opened Options
  import opened Ids
  import opened InvoiceCalculator

  type Month = nat        // calendar month index, see Calendar.MonthIndex
  type SessionId = nat
  type InvoiceId = nat

  datatype InvoiceStatus = Draft | Issued | PartiallyPaid | Paid | Void
  datatype PeriodStatus = Open | Closed

  /** A live attendance record; every record is billable. */
  datatype Mark = Mark(enrollment: EnrollmentId, absent: bool)

  /** A session and its confirmed sheet, one live record per student. */
  datatype Session = Session(month: Month, sheet: map<StudentId, Mark>)

  datatype Enrollment = Enrollment(student: StudentId, className: string, classStart: int, unitPrice: int)

  datatype Invoice = Invoice(
    month: Month, student: StudentId,
    opening: int, charge: int, adjustments: int, totalDue: int, paid: int,
    status: InvoiceStatus, lines: seq<Line>)

  datatype Adjustment = Adjustment(invoice: InvoiceId, amount: int, source: Option<SessionId>)

  datatype Ledger = Ledger(
    periods: map<Month, PeriodStatus>,
    enrollments: seq<Enrollment>,
    sessions: seq<Session>,
    invoices: seq<Invoice>,
    adjustments: seq<Adjustment>)

  datatype Error =
    | NotFound | PeriodNotOpen | InvoiceNotDraft | Unconfirmed | ZeroAmount | BadStatus | HasPayment | ExceedsDue

  datatype Result<+T> = Ok(value: T) | Err(error: Error)

  // ----- attendance tallies -----------------------------------------------

  /** 1 when the session's sheet records student st under enrollment e in month m. */
  function Attends(s: Session, st: StudentId, e: EnrollmentId, m: Month): nat {
    if s.month == m && st in s.sheet && s.sheet[st].enrollment == e then 1 else 0
  }

  /** Records of enrollment e (owned by st) in month m. */
  function BillableCount(ss: seq<Session>, st: StudentId, e: EnrollmentId, m: Month): nat {
    var n := |ss|;
    if n == 0 then 0 else BillableCount(ss[..n-1], st, e, m) + Attends(ss[n-1], st, e, m)
  }

  function AbsentCount(ss: seq<Session>, st: StudentId, e: EnrollmentId, m: Month): nat {
    var n := |ss|;
    if n == 0 then 0
    else AbsentCount(ss[..n-1], st, e, m) +
         (if Attends(ss[n-1], st, e, m) == 1 && ss[n-1].sheet[st].absent then 1 else 0)
  }

  function TallyOf(es: seq<Enrollment>, ss: seq<Session>, m: Month, e: EnrollmentId): Tally
    requires e < |es|
  {
    Tally(e, es[e].student, es[e].className, es[e].classStart, es[e].unitPrice,
          BillableCount(ss, es[e].student, e, m), AbsentCount(ss, es[e].student, e, m))
  }

  /** One row per enrollment with at least one record in the month. */
  function TalliesUpTo(es: seq<Enrollment>, ss: seq<Session>, m: Month, n: nat): seq<Tally>
    requires n <= |es|
  {
    if n == 0 then []
    else if BillableCount(ss, es[n-1].student, n-1, m) > 0 then
      TalliesUpTo(es, ss, m, n-1) + [TallyOf(es, ss, m, n-1)]
    else TalliesUpTo(es, ss, m, n-1)
  }

  function TallyAttendance(l: Ledger, m: Month): seq<Tally> {
    TalliesUpTo(l.enrollments, l.sessions, m, |l.enrollments|)
  }

  // ----- lookups ----------------------------------------------------------

  /** The student's invoice row of a month; (month, student) is unique. */
  function Find(invs: seq<Invoice>, m: Month, st: StudentId): (r: Option<InvoiceId>)
    ensures r.Some? ==> r.value < |invs| && invs[r.value].month == m && invs[r.value].student == st
    ensures r.None? ==> forall i :: 0 <= i < |invs| ==> invs[i].month != m || invs[i].student != st
  {
    var n := |invs|;
    if n == 0 then None
    else if invs[n-1].month == m && invs[n-1].student == st then Some(n-1)
    else Find(invs[..n-1], m, st)
  }

  function AdjustmentSum(adjs: seq<Adjustment>, id: InvoiceId): int {
    var n := |adjs|;
    if n == 0 then 0
    else AdjustmentSum(adjs[..n-1], id) + (if adjs[n-1].invoice == id then adjs[n-1].amount else 0)
  }

  predicate CarriedFrom(l: Ledger, a: Adjustment, st: StudentId, m: Month) {
    && a.invoice < |l.invoices| && l.invoices[a.invoice].student == st
    && a.source.Some? && a.source.value < |l.sessions| && l.sessions[a.source.value].month == m
  }

  /** Everything already carried for st out of month m. */
  function AlreadyCarried(l: Ledger, adjs: seq<Adjustment>, st: StudentId, m: Month): int {
    var n := |adjs|;
    if n == 0 then 0
    else AlreadyCarried(l, adjs[..n-1], st, m) + (if CarriedFrom(l, adjs[n-1], st, m) then adjs[n-1].amount else 0)
  }

  predicate IsClosed(l: Ledger, m: Month) { m in l.periods && l.periods[m] == Closed }
  predicate IsOpen(l: Ledger, m: Month) { m in l.periods && l.periods[m] == Open }

  function ClosedBefore(l: Ledger, m: Month): set<Month> {
    set k | k in l.periods.Keys && IsClosed(l, k) && k < m
  }

  /** The latest closed period that ended before m. */
  function PreviousClosed(l: Ledger, m: Month): Option<Month> {
    if ClosedBefore(l, m) == {} then None else Some(Max(ClosedBefore(l, m)))
  }

  function OpenAfter(l: Ledger, m: Month): set<Month> {
    set k | k in l.periods.Keys && IsOpen(l, k) && m < k
  }

  // ----- period computation -----------------------------------------------

  predicate Billed(l: Ledger, m: Month, st: StudentId) {
    Find(l.invoices, m, st).Some? && l.invoices[Find(l.invoices, m, st).value].status != Void
  }

  function Outstanding(inv: Invoice): int {
    if inv.totalDue - inv.paid < 0 then 0 else inv.totalDue - inv.paid
  }

  /** What st still owes on month m, never negative; nothing when void or unbilled. */
  function Owed(l: Ledger, m: Month, st: StudentId): int {
    if Billed(l, m, st) then Outstanding(l.invoices[Find(l.invoices, m, st).value]) else 0
  }

  function TallyStudents(l: Ledger, m: Month): set<StudentId> {
    set t | t in TallyAttendance(l, m) :: t.student
  }

  function CarriedDebtStudents(l: Ledger, q: Month): set<StudentId> {
    set i | 0 <= i < |l.invoices| && l.invoices[i].month == q && l.invoices[i].status != Void
            && l.invoices[i].totalDue - l.invoices[i].paid > 0 :: l.invoices[i].student
  }

  function OpeningBalances(l: Ledger, m: Month): map<StudentId, int> {
    match PreviousClosed(l, m)
    case None => map[]
    case Some(q) => map st | st in TallyStudents(l, m) + CarriedDebtStudents(l, q) && Billed(l, q, st) :: Owed(l, q, st)
  }

  function InvoicedStudents(l: Ledger, m: Month): set<StudentId> {
    set i | 0 <= i < |l.invoices| && l.invoices[i].month == m :: l.invoices[i].student
  }

  /** Every existing invoice has an entry, zero when it carries no adjustment. */
  function AdjustmentsByStudent(l: Ledger, m: Month): map<StudentId, int> {
    map st | st in InvoicedStudents(l, m) && Find(l.invoices, m, st).Some? ::
      AdjustmentSum(l.adjustments, Find(l.invoices, m, st).value)
  }

  function ComputePeriod(l: Ledger, m: Month): seq<Computed> {
    ComputeAll(TallyAttendance(l, m), OpeningBalances(l, m), AdjustmentsByStudent(l, m))
  }

  // ----- draft ------------------------------------------------------------

  function LineIndex(rows: seq<Line>, e: EnrollmentId): (r: Option<nat>)
    ensures r.Some? ==> r.value < |rows| && rows[r.value].enrollment == e
    ensures r.None? ==> forall i :: 0 <= i < |rows| ==> rows[i].enrollment != e
  {
    var n := |rows|;
    if n == 0 then None
    else if rows[n-1].enrollment == e then Some(n-1)
    else LineIndex(rows[..n-1], e)
  }

  function UpsertLine(rows: seq<Line>, line: Line): seq<Line> {
    match LineIndex(rows, line.enrollment)
    case Some(i) => rows[i := line]
    case None => rows + [line]
  }

  function UpsertLines(rows: seq<Line>, drafted: seq<Line>): seq<Line> {
    var n := |drafted|;
    if n == 0 then rows else UpsertLine(UpsertLines(rows, drafted[..n-1]), drafted[n-1])
  }

  function EnrollmentsOf(lines: seq<Line>): set<EnrollmentId> {
    set l | l in lines :: l.enrollment
  }

  function ZeroUnless(row: Line, keep: set<EnrollmentId>): Line {
    if row.enrollment in keep then row else row.(billable := 0, absent := 0, amount := 0)
  }

  /** Rows that were not rewritten are zeroed, never deleted. */
  function ZeroUnmatched(rows: seq<Line>, keep: set<EnrollmentId>): (r: seq<Line>)
    ensures |r| == |rows|
    ensures forall i :: 0 <= i < |rows| ==> r[i] == ZeroUnless(rows[i], keep)
  {
    seq(|rows|, i requires 0 <= i < |rows| => ZeroUnless(rows[i], keep))
  }

  function Redraft(rows: seq<Line>, drafted: seq<Line>): seq<Line> {
    ZeroUnmatched(UpsertLines(rows, drafted), EnrollmentsOf(drafted))
  }

  function Rewritten(inv: Invoice, ci: Computed, adjustmentTotal: int): Invoice {
    inv.(opening := ci.opening, charge := ci.charge, adjustments := adjustmentTotal,
         totalDue := ci.opening + ci.charge + adjustmentTotal,
         lines := Redraft(inv.lines, ci.lines))
  }

  function BlankInvoice(m: Month, st: StudentId): Invoice {
    Invoice(m, st, 0, 0, 0, 0, 0, Draft, [])
  }

  /** The upsert of one computed invoice and its lines. */
  function DraftOne(l: Ledger, m: Month, ci: Computed): Ledger {
    match Find(l.invoices, m, ci.student)
    case Some(i) => l.(invoices := l.invoices[i := Rewritten(l.invoices[i], ci, AdjustmentSum(l.adjustments, i))])
    case None => l.(invoices := l.invoices + [Rewritten(BlankInvoice(m, ci.student), ci, 0)])
  }

  function DraftAll(l: Ledger, m: Month, cs: seq<Computed>): Ledger {
    var n := |cs|;
    if n == 0 then l else DraftOne(DraftAll(l, m, cs[..n-1]), m, cs[n-1])
  }

  /** The upsert may write the student's row: there is none, or it is still a draft. */
  predicate Overwritable(invs: seq<Invoice>, m: Month, st: StudentId) {
    match Find(invs, m, st) case None => true case Some(i) => invs[i].status == Draft
  }

  /** Every computed student either has no invoice yet or still has a draft. */
  predicate AllDrafts(l: Ledger, m: Month, cs: seq<Computed>) {
    forall i :: 0 <= i < |cs| ==> Overwritable(l.invoices, m, cs[i].student)
  }

  function DraftPeriod(l: Ledger, m: Month): Result<Ledger> {
    if m !in l.periods then Err(NotFound)
    else if l.periods[m] != Open then Err(PeriodNotOpen)
    else if !AllDrafts(l, m, ComputePeriod(l, m)) then Err(InvoiceNotDraft)
    else Ok(DraftAll(l, m, ComputePeriod(l, m)))
  }

  // ----- close ------------------------------------------------------------

  predicate EmptyDraft(inv: Invoice, m: Month) {
    inv.month == m && inv.status == Draft && inv.charge == 0 && inv.opening == 0 && inv.adjustments == 0
  }

  function Settle(inv: Invoice, m: Month): Invoice {
    if EmptyDraft(inv, m) then inv.(status := Void)
    else if inv.month == m && inv.status == Draft then inv.(status := Issued)
    else inv
  }

  /** Void the empty drafts of the month, then issue the remaining ones. */
  function SettleAll(invs: seq<Invoice>, m: Month): (r: seq<Invoice>)
    ensures |r| == |invs|
    ensures forall i :: 0 <= i < |invs| ==> r[i] == Settle(invs[i], m)
  {
    seq(|invs|, i requires 0 <= i < |invs| => Settle(invs[i], m))
  }

  /** Sum of total_due over the month's non-void invoices. */
  function PeriodTotal(invs: seq<Invoice>, m: Month): int {
    var n := |invs|;
    if n == 0 then 0
    else PeriodTotal(invs[..n-1], m) +
         (if invs[n-1].month == m && invs[n-1].status != Void then invs[n-1].totalDue else 0)
  }

  function ClosePeriod(l: Ledger, m: Month, unconfirmed: bool): Result<(Ledger, int)> {
    if m !in l.periods then Err(NotFound)
    else if l.periods[m] != Open then Err(PeriodNotOpen)
    else if unconfirmed then Err(Unconfirmed)
    else if !AllDrafts(l, m, ComputePeriod(l, m)) then Err(InvoiceNotDraft)
    else
      var after := DraftAll(l, m, ComputePeriod(l, m));
      var invs := SettleAll(after.invoices, m);
      Ok((after.(invoices := invs, periods := after.periods[m := Closed]), PeriodTotal(invs, m)))
  }

  // ----- adjustments, payments, void --------------------------------------

  function DeriveStatus(current: InvoiceStatus, paid: int, totalDue: int): InvoiceStatus {
    if current == Draft || current == Void then current
    else if paid <= 0 then Issued
    else if paid < totalDue then PartiallyPaid
    else Paid
  }

  function Retotalled(inv: Invoice, adjustmentTotal: int): Invoice {
    var due := inv.opening + inv.charge + adjustmentTotal;
    inv.(adjustments := adjustmentTotal, totalDue := due, status := DeriveStatus(inv.status, inv.paid, due))
  }

  /** Append one adjustment row and recompute its invoice in the same transaction. */
  function PostAdjustment(l: Ledger, id: InvoiceId, amount: int, source: Option<SessionId>): Ledger
    requires id < |l.invoices|
  {
    var adjs := l.adjustments + [Adjustment(id, amount, source)];
    l.(adjustments := adjs, invoices := l.invoices[id := Retotalled(l.invoices[id], AdjustmentSum(adjs, id))])
  }

  function AddAdjustment(l: Ledger, id: InvoiceId, amount: int): Result<Ledger> {
    if amount == 0 then Err(ZeroAmount)
    else if id >= |l.invoices| then Err(NotFound)
    else if l.invoices[id].status == Void || l.invoices[id].status == Paid then Err(BadStatus)
    else Ok(PostAdjustment(l, id, amount, None))
  }

  function VoidInvoice(l: Ledger, id: InvoiceId): Result<Ledger> {
    if id >= |l.invoices| then Err(NotFound)
    else if l.invoices[id].status != Issued && l.invoices[id].status != PartiallyPaid then Err(BadStatus)
    else if l.invoices[id].paid != 0 then Err(HasPayment)
    else Ok(l.(invoices := l.invoices[id := l.invoices[id].(status := Void)]))
  }

  /** The rule payments use: unlike DeriveStatus it never calls a row paid when nothing is due. */
  function PaymentStatus(paid: int, totalDue: int): InvoiceStatus {
    if paid >= totalDue && totalDue > 0 then Paid
    else if paid > 0 then PartiallyPaid
    else Issued
  }

  /** The paid amount of a billed invoice after a payment, a reallocation or a reversal: none of them
      pushes it past the total due, but it stays above when an adjustment has lowered the due. */
  function SetPaid(l: Ledger, id: InvoiceId, paid: nat): Result<Ledger> {
    if id >= |l.invoices| then Err(NotFound)
    else if l.invoices[id].status == Draft || l.invoices[id].status == Void then Err(BadStatus)
    else if paid > l.invoices[id].paid && paid > l.invoices[id].totalDue then Err(ExceedsDue)
    else
      var inv := l.invoices[id];
      Ok(l.(invoices := l.invoices[id := inv.(paid := paid, status := PaymentStatus(paid, inv.totalDue))]))
  }

  // ----- reconciliation ---------------------------------------------------

  function EnsurePeriod(l: Ledger, m: Month): Ledger {
    if m in l.periods then l else l.(periods := l.periods[m := Open])
  }

  /** The month a carry out of p lands on, and the ledger with that period ensured. */
  function ResolveTarget(l: Ledger, p: Month, today: Month): (Ledger, Month) {
    if OpenAfter(l, p) != {} then (l, Min(OpenAfter(l, p)))
    else
      var candidate := if today > p then today else p + 1;
      var l1 := EnsurePeriod(l, candidate);
      if IsClosed(l1, candidate) then (EnsurePeriod(l1, candidate + 1), candidate + 1) else (l1, candidate)
  }

  function EnsureTarget(l: Ledger, p: Month, today: Month, st: StudentId): (r: (Ledger, InvoiceId))
    ensures r.1 < |r.0.invoices|
  {
    var (l1, target) := ResolveTarget(l, p, today);
    match Find(l1.invoices, target, st)
    case Some(i) => (l1, i)
    case None => (l1.(invoices := l1.invoices + [BlankInvoice(target, st)]), |l1.invoices|)
  }

  /** Live counts priced at the closed invoice's own frozen line prices. */
  function LiveCharge(ss: seq<Session>, lines: seq<Line>, st: StudentId, m: Month): int {
    var n := |lines|;
    if n == 0 then 0
    else LiveCharge(ss, lines[..n-1], st, m) + BillableCount(ss, st, lines[n-1].enrollment, m) * lines[n-1].unitPrice
  }

  /** The edited session's own enrollment when the closed invoice has no line for it. */
  function LinelessCharge(l: Ledger, lines: seq<Line>, roster: set<EnrollmentId>, st: StudentId, e: EnrollmentId,
      m: Month): int {
    if LineIndex(lines, e).None? && e in roster && e < |l.enrollments| && l.enrollments[e].student == st
    then BillableCount(l.sessions, st, e, m) * l.enrollments[e].unitPrice
    else 0
  }

  /** resolveDelta for a student with a non-void closed invoice. */
  function Delta(l: Ledger, id: InvoiceId, e: EnrollmentId, roster: set<EnrollmentId>): int
    requires id < |l.invoices|
  {
    var inv := l.invoices[id];
    LiveCharge(l.sessions, inv.lines, inv.student, inv.month)
    + LinelessCharge(l, inv.lines, roster, inv.student, e, inv.month)
    - inv.charge
    - AlreadyCarried(l, l.adjustments, inv.student, inv.month)
  }

  function ReconcileStudent(l: Ledger, sid: SessionId, st: StudentId, today: Month, roster: set<EnrollmentId>): Ledger
    requires sid < |l.sessions| && st in l.sessions[sid].sheet
  {
    var m := l.sessions[sid].month;
    if !Billed(l, m, st) then l
    else
      var d := Delta(l, Find(l.invoices, m, st).value, l.sessions[sid].sheet[st].enrollment, roster);
      if d == 0 then l
      else
        var (l1, target) := EnsureTarget(l, m, today, st);
        PostAdjustment(l1, target, d, Some(sid))
  }

  lemma ReconcileStudentKeepsSessions(l: Ledger, sid: SessionId, st: StudentId, today: Month, roster: set<EnrollmentId>)
    requires sid < |l.sessions| && st in l.sessions[sid].sheet
    ensures ReconcileStudent(l, sid, st, today, roster).sessions == l.sessions
  {
  }

  function ReconcileAll(l: Ledger, sid: SessionId, students: seq<StudentId>, today: Month,
      roster: set<EnrollmentId>): (r: Ledger)
    requires sid < |l.sessions| && forall st :: st in students ==> st in l.sessions[sid].sheet
    ensures r.sessions == l.sessions
  {
    var n := |students|;
    if n == 0 then l
    else
      var before := ReconcileAll(l, sid, students[..n-1], today, roster);
      ReconcileStudentKeepsSessions(before, sid, students[n-1], today, roster);
      ReconcileStudent(before, sid, students[n-1], today, roster)
  }

  /** After a committed attendance change: nothing unless the month is closed. */
  function ReconcileSession(l: Ledger, sid: SessionId, today: Month, roster: set<EnrollmentId>): Ledger {
    if sid >= |l.sessions| || !IsClosed(l, l.sessions[sid].month) then l
    else ReconcileAll(l, sid, SortedIds(l.sessions[sid].sheet.Keys), today, roster)
  }

  // ----- attendance confirmation ------------------------------------------

  predicate SheetFits(l: Ledger, sheet: map<StudentId, Mark>) {
    forall st :: st in sheet ==>
      sheet[st].enrollment < |l.enrollments| && l.enrollments[sheet[st].enrollment].student == st
  }

  function RosterOf(sheet: map<StudentId, Mark>): set<EnrollmentId> {
    set st | st in sheet :: sheet[st].enrollment
  }

  function SetSheet(l: Ledger, sid: SessionId, sheet: map<StudentId, Mark>): Ledger
    requires sid < |l.sessions|
  {
    l.(sessions := l.sessions[sid := l.sessions[sid].(sheet := sheet)])
  }

  /** The committed sheet stays when the reconciliation after it fails. */
  function Commit(l: Ledger, sid: SessionId, sheet: map<StudentId, Mark>): Result<Ledger> {
    if sid >= |l.sessions| || !SheetFits(l, sheet) then Err(NotFound) else Ok(SetSheet(l, sid, sheet))
  }

  /** Confirm commits the sheet, then reconciles the session. */
  function Confirm(l: Ledger, sid: SessionId, sheet: map<StudentId, Mark>, today: Month): Result<Ledger> {
    if sid >= |l.sessions| || !SheetFits(l, sheet) then Err(NotFound)
    else Ok(ReconcileSession(SetSheet(l, sid, sheet), sid, today, RosterOf(sheet)))
  }

  // ----- runs -------------------------------------------------------------

  datatype Op =
    | OpEnsurePeriod(month: Month)
    | OpEnroll(enrollment: Enrollment)
    | OpReprice(enrollmentId: EnrollmentId, price: int)
    | OpAddSession(month: Month)
    | OpConfirm(sid: SessionId, sheet: map<StudentId, Mark>, today: Month)
    | OpCommit(sid: SessionId, sheet: map<StudentId, Mark>)
    | OpReconcile(sid: SessionId, today: Month, roster: set<EnrollmentId>)
    | OpDraft(month: Month)
    | OpClose(month: Month, unconfirmed: bool)
    | OpAdjust(id: InvoiceId, amount: int)
    | OpSetPaid(id: InvoiceId, paidAmount: nat)
    | OpVoid(id: InvoiceId)

  function Or(r: Result<Ledger>, l: Ledger): Ledger { if r.Ok? then r.value else l }

  function AfterClose(r: Result<(Ledger, int)>, l: Ledger): Ledger { if r.Ok? then r.value.0 else l }

  /** One service call; a failed call leaves the ledger unchanged. */
  function Step(l: Ledger, op: Op): Ledger {
    match op
    case OpEnsurePeriod(m) => EnsurePeriod(l, m)
    case OpEnroll(e) => l.(enrollments := l.enrollments + [e])
    case OpReprice(e, price) =>
      if e < |l.enrollments| then l.(enrollments := l.enrollments[e := l.enrollments[e].(unitPrice := price)]) else l
    case OpAddSession(m) => l.(sessions := l.sessions + [Session(m, map[])])
    case OpConfirm(sid, sheet, today) => Or(Confirm(l, sid, sheet, today), l)
    case OpCommit(sid, sheet) => Or(Commit(l, sid, sheet), l)
    case OpReconcile(sid, today, roster) => ReconcileSession(l, sid, today, roster)
    case OpDraft(m) => Or(DraftPeriod(l, m), l)
    case OpClose(m, unconfirmed) => AfterClose(ClosePeriod(l, m, unconfirmed), l)
    case OpAdjust(id, amount) => Or(AddAdjustment(l, id, amount), l)
    case OpSetPaid(id, paid) => Or(SetPaid(l, id, paid), l)
    case OpVoid(id) => Or(VoidInvoice(l, id), l)
  }

  const EMPTY := Ledger(map[], [], [], [], [])

  function Run(l: Ledger, ops: seq<Op>): Ledger {
    var n := |ops|;
    if n == 0 then l else Step(Run(l, ops[..n-1]), ops[n-1])
  }
}
