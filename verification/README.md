# Teka verification model

A Dafny model of the stateful core of the Teka API (Go), with proofs of what its
operations keep true over whole runs. `dafny verify dfyconfig.toml` checks it.

## What is modelled

**Billing with attendance.** `Ledgers` holds one teacher's tables (periods, enrollments,
session sheets, invoices with their lines, adjustments) as a value, every service call as a
function on it, and runs as folds over calls. A call that fails leaves the ledger as it was.
`BillingService` is the imperative form: a class over the same tables whose methods run the
source's loops and are proved to leave exactly the ledger the functions describe. Around it
stand the calculator (`InvoiceCalculator`, `InvoiceCalculatorLaws`), the line upserts
(`InvoiceLines`), the invariant (`LedgerInvariants`, `LedgerSteps`), the agreement of Preview,
Draft and Close (`PeriodClose`), post-close reconciliation (`Reconciliation`, `CarryRuns`), the
chain of debts (`DebtChain`, `ChainRuns`), the two status rules (`InvoiceStatuses`), what carries
and debts add up to (`Conservation`) and runs on which they fail (`BillingExamples`,
`ChainExamples`). `BillingOutcomes` and `LessonCounts` state what each call computes, writes and
refuses on the rows themselves. `Attendance`, `AttendanceSheet`, `AttendanceOutcomes` and
`AttendanceLedger` model the record table behind the sheets, down to row ids, and prove that the
grouped tally over it is the ledger's count.

**Task board.** `KanbanOrder` (placement by bisection, renormalisation, the order theorem),
`KanbanGaps` (the minimum gap and how rarely a column is renormalised), `KanbanBoard` (every
operation, invariants over runs), `KanbanBoardGaps` (the gap over runs of every operation),
`BoardOutcomes` (what each call does to the rows) and `KanbanService` (the imperative form).

**Refresh tokens.** `RefreshTokens` gives every database statement or transaction of every
request its own step and lets requests interleave; `TokenFamilies` proves what holds of token
families; `AuthService` is the service run without interruption; `DisabledAccounts` asks whether a
disabled account stays logged out.

**Readers and writers.** `Keyset`, `LikePattern`, `AuditList`, `AuditPages`, `AuditOutcomes`,
`ClassChat` and `ChatOutcomes` for the paged readers; `AuditBuffer` and `Clip` for the audit
subscriber; `RateLimit` for the fixed-window limiter; `Lineage` and `LineageOutcomes` for the class
lineage.

## How the model is cut

- One teacher in one center, so anchors and permission scopes disappear. A month is its index
  12 * year + month - 1; `Calendar` ties the index to dates.
- Ids are row indexes: rows are only appended, so a fresh id is the next index. Unique indexes
  are invariants, proved where an operation could break them.
- Money is `int`. Board positions and gaps are `real`. Rows created at the same instant keep the
  order they were inserted in.
- Every billing, board, chat, lineage and attendance call is one atomic step. Token requests and
  the audit buffer are not: there each statement, transaction or critical section is a step.
- A committed sheet whose reconciliation fails is its own operation, since the source keeps the
  sheet and only warns.
- Today's month, the roster of the day, "a past session is unconfirmed", the clock, account
  membership and fresh ids are parameters.
- Recording, splitting or reversing a payment is an abstract step that sets the paid amount of a
  billed invoice and re-derives its status by the rule of the payments package. A step that raises
  the paid amount never takes it past the total due, as the allocator and the reversal enforce.
- Specification functions stand beside imperative methods where the source changes state; the
  methods' contracts name them, and the laws are proved about them. The `Outcomes` modules and the
  lemmas named so state what these functions do without using the helpers they are built from.

## What turned out not to hold

Each entry names the exact condition, for all inputs, and a concrete failing input. The billing,
token and deep-chain inputs are reached by runs from an empty state, the board's by calls on a
one-column or an empty board.

- A closed invoice and its carries stop adding up when an edit takes a billed student off the
  sheet, names an enrollment without a closed line, or is committed while its reconciliation fails
  (`CarryRuns.ConfirmedRowIff`, `CarryRuns.CommittedRowIff`, `CarryRuns.CarriesTelescope`;
  `BillingExamples`). A later reconciliation repairs the last case
  (`CarryRuns.ReconciliationCatchesUp`); a carry without a line is taken back by the next one
  (`CarryRuns.LinelessCarryIsTakenBack`).
- A carry can land on a closed month (`Reconciliation.TargetOpenIff`), and there on a void bill,
  where it counts as carried and is owed nowhere (`Reconciliation.CarryReachesDebt`,
  `BillingExamples.CarryOnClosedMonthExample`).
- Once a later month is closed, a payment, adjustment, voiding or carry that changes what a month
  is owed no longer reaches the opening of the month after it, and neither does a month closed out
  of order (`ChainRuns.StepChainsIff`, `ChainRuns.DebtsChainIff`; `BillingExamples.LatePaymentExample`,
  `ChainExamples`).
- A credit is not carried forward (`Conservation.DebtIsWorth`, `BillingExamples.CreditExample`).
- Billing and payments disagree on the status of a row with payments and nothing due, although a
  comment at `apps/api/internal/features/payments/repository.go:391-393` says they cannot
  (`InvoiceStatuses.StatusesDerivedIff`, `BillingExamples.OvertakenExample`).
- With a positive reuse grace the liveness check and the sibling's insert are two statements, so
  a logout in between is outrun (`TokenFamilies.LogoutCanBeOutrun`). That a purge is final holds in
  all interleavings exactly without grace, and with grace exactly in the runs whose siblings join a
  live family (`TokenFamilies.PurgeTotalIffClean`); at most one live token per family holds in all
  interleavings exactly without grace (`TokenFamilies.FinalAndSingleIffNoGrace`). In the same way a
  request past its account check outruns a disabling (`DisabledAccounts.DisabledStaysLoggedOutIff`,
  `DisabledAccounts.DisableCanBeOutrun`).
- An audit walk restarts at the first page when a page ends on a row with the zero time
  (`AuditPages.WalkIsExactIff`, `AuditPages.ZeroTimeExample`).
- The limiter admits up to twice the limit minus one in a period, and one request even for a
  limit of zero (`RateLimit.AtMostTwiceLessOne`, `RateLimit.BoundIsReached`, `RateLimit.LimitBelowOneActsAsOne`).
- A short invalid text passes the clipping unchanged (`Clip.InvalidTextPasses`,
  `Clip.ClippedIsValidIff`).
- Setting parent and next class in one update can close a cycle (`Lineage.BothUpdateIff`,
  `Lineage.ParentAndNextCanCycle`), and the walk does not look past 50 classes
  (`Lineage.ParentUpdateIff`, `Lineage.NextUpdateIff`, `Lineage.DeepChainCanCycle`).
- A handover skips deleted tasks, so a later restore brings the departed member back unless an edit
  reassigned the task (`KanbanBoard.DepartedReturnsIff`, `KanbanBoard.DepartedReturnsExample`,
  `KanbanBoard.EditedAwayExample`); the port's comment says every task.
- Restoring a task or merging a column can bring two tasks closer than the minimum gap
  (`KanbanBoardGaps.RunKeepsGapIff`, `KanbanGaps.RestoreCanTie`, `KanbanBoardGaps.MergeCanTie`).
- A new column can take a position in use (`KanbanBoard.CallKeepsPositionsIff`,
  `KanbanBoard.ColumnPositionsCanTie`).

## Model

| member | source | states |
|---|---|---|
| `Calendar.NextMonthIsNextIndex` | apps/api/internal/features/billing/adjustment.go:174-180 | the month after (year, month), December rolling over, is the next month index |
| `Calendar.InsidePeriodIffSameIndex` | apps/api/internal/features/billing/service.go:77-83 | a date lies between a period's first and last day exactly when their month indexes agree |
| `Calendar.StartsAfterIffLargerIndex` | apps/api/internal/features/billing/adjustment.go:480-483 | one period starts after another ends exactly when its index is larger |
| `Calendar.PeriodIsItsMonth` | apps/api/internal/features/billing/service.go:77-83 | a date written as a number lies between a period's first and last day exactly when its month is the period's |
| `InvoiceCalculator.GroupByStudent` | apps/api/internal/features/billing/calculator.go:88-115 | the grouping loop leaves each student with exactly their own tallies in arrival order, students in order of first appearance |
| `InvoiceCalculator.CollectExtras` | apps/api/internal/features/billing/calculator.go:121-136 | the second loop finds exactly the students known only from a carried balance or an adjustment |
| `InvoiceCalculator.BuildLines` | apps/api/internal/features/billing/calculator.go:151-156 | one line per tally, with the charge accumulated on the way equal to the sum of the amounts |
| `InvoiceCalculator.Compute` | apps/api/internal/features/billing/calculator.go:87-173 | the loops over maps and slices compute the specification ComputeAll, about which the laws below speak |
| `InvoiceCalculator.StableSortSorts` | apps/api/internal/features/billing/calculator.go:144-149 | lines end up ordered by class start date, then class name |
| `InvoiceCalculator.StableSortKeepsTies` | apps/api/internal/features/billing/calculator.go:144-149 | no line moves past another it ties with |
| `InvoiceCalculatorLaws.ChargeIsFees` | apps/api/internal/features/billing/calculator.go:151-156 | a student's charge is the sum of count times price over that student's tallies |
| `InvoiceCalculatorLaws.ReorderingTalliesChangesNoAmount` | apps/api/internal/features/billing/calculator.go:79-82 | permuting the tallies changes neither who is billed nor any amount |
| `InvoiceCalculatorLaws.LinesAreTheStudentsTallies` | apps/api/internal/features/billing/calculator.go:101-156 | the lines are one stable sort of the student's tallies: a permutation, in order, every tie in arrival order |
| `InvoiceCalculatorLaws.ComputeBillsEveryoneOnce` | apps/api/internal/features/billing/calculator.go:84-139 | exactly one invoice for each student in tallies, openings or adjustments |
| `InvoiceCalculatorLaws.GrandTotalIsConserved` | apps/api/internal/features/billing/calculator.go:158-170 | the grand total is all openings plus all fees plus all adjustments |
| `InvoiceLines.RedraftSum` | apps/api/internal/features/billing/preview.go:248-269 | after the line upserts and the zeroing, all rows, stale ones included, sum to the new charge |
| `InvoiceLines.RedraftMembers` | apps/api/internal/features/billing/repository.go:798-806 | every row is a drafted line or an old row with count and amount zeroed |
| `InvoiceLines.RedraftContains` | apps/api/internal/features/billing/repository.go:779-796 | every drafted line is stored |
| `InvoiceLines.RedraftIdempotent` | apps/api/internal/features/billing/service.go:164-168 | redrafting with the same computation leaves every row as it is |
| `LedgerSteps.StepKeeps` | apps/api/internal/features/billing/repository.go:744-806 | every service call keeps the ledger invariant and freezes rows that left draft |
| `LedgerSteps.RunKeeps` | apps/api/internal/features/billing/preview.go:206-273 | the invariant and the freezing hold over whole runs from any valid ledger |
| `LedgerSteps.ReachableRowsBalance` | apps/api/internal/features/billing/repository.go:963-996 | in every reachable ledger: charge is the sum of the lines, amount is count times price, adjustment total is the sum of the adjustments, total is opening plus charge plus adjustments, status is the one billing derives unless the row is partially paid with nothing due, and rows of open periods are drafts |
| `LedgerSteps.ReachableStatusMeans` | apps/api/internal/features/billing/adjustment.go:132-153 | in every reachable ledger a billed row is issued exactly when nothing is paid, and while its total due is positive partially paid or paid exactly by paid amount against it; with a total of zero or less a row with payments is partially paid or paid |
| `InvoiceStatuses.RulesAgreeIff` | apps/api/internal/features/payments/repository.go:406-415 | the status rule of payments agrees with the one of billing on a billed row exactly when nothing is paid or the total due is positive |
| `InvoiceStatuses.PaymentLeavesDerivedIff` | apps/api/internal/features/payments/repository.go:389-427 | a recorded or reversed payment leaves its row with the status billing derives exactly when nothing is paid then or the total due is positive |
| `InvoiceStatuses.StepDerivedIff` | apps/api/internal/features/billing/adjustment.go:132-153 | any call on a ledger with derived statuses leaves them derived exactly when it is not a payment that leaves something paid on a row with nothing due |
| `InvoiceStatuses.StatusesDerivedIff` | apps/api/internal/features/payments/repository.go:389-393 | over every run all statuses are the ones billing derives, at every moment, exactly when no call is such a payment, although the comment says the two packages never disagree |
| `BillingExamples.OvertakenExample` | apps/api/internal/features/payments/repository.go:406-415 | a run from the empty ledger: payments of 30 and 20 on a due of 100, an adjustment of -100, the reversal of the 20; the row is partially paid where billing derives paid |
| `LedgerSteps.IssuedRowsAreFrozen` | apps/api/internal/features/billing/repository.go:753-761 | an invoice that left draft keeps opening, charge and lines through any later run, never returns to draft, and void is absorbing |
| `PeriodClose.DraftableIffAllDrafts` | apps/api/internal/features/billing/preview.go:206-210 | the draft guard passes exactly when every row of the month is a draft |
| `PeriodClose.CloseSucceedsIff` | apps/api/internal/features/billing/close.go:156-184 | Close succeeds exactly when the period exists and is open, nothing is unconfirmed and every invoice is a draft |
| `PeriodClose.ReachableCloseSucceedsIff` | apps/api/internal/features/billing/close.go:161-184 | in reachable ledgers the draft guard never refuses |
| `PeriodClose.CloseReturnsPreviewTotal` | apps/api/internal/features/billing/close.go:201-209 | a successful Close returns exactly the grand total Preview shows |
| `PeriodClose.DraftWritesPreview` | apps/api/internal/features/billing/preview.go:218-270 | Draft writes exactly the computed money for every computed student |
| `PeriodClose.CloseWritesPreview` | apps/api/internal/features/billing/close.go:178-193 | Close writes exactly the previewed amounts and lines; a row is void exactly when opening, charge and adjustments are all zero, issued otherwise |
| `PeriodClose.CloseLeavesNoOtherRow` | apps/api/internal/features/billing/close.go:186-199 | after Close each row of the closed month is issued or void and belongs to a previewed student |
| `PeriodClose.DraftTwiceIsDraftOnce` | apps/api/internal/features/billing/service.go:164-168 | a second Draft on unchanged attendance changes nothing |
| `Reconciliation.PostedCarry` | apps/api/internal/features/billing/adjustment.go:372-391 | one student's reconciliation posts nothing or exactly one non-zero adjustment, on that student's invoice of a later month, tagged with the session |
| `Reconciliation.CarriedAfterStudent` | apps/api/internal/features/billing/repository.go:945-961 | a carry moves only its own student's sum for its own closed month |
| `Reconciliation.ReconcileConverges` | apps/api/internal/features/billing/adjustment.go:334-391 | right after a reconciliation, closed charge plus all carries out of the month equals the month's live worth, whatever came before |
| `Reconciliation.ReconcileConvergesToLines` | apps/api/internal/features/billing/adjustment.go:339-342 | with a line for the edited enrollment, that worth is the sum of live count times frozen line price |
| `Reconciliation.ReconciledAmount` | apps/api/internal/features/billing/adjustment.go:334-391 | right after a reconciliation the charge and carries of a billed student on the sheet add up to live count times frozen price over the lines, plus live count times own price when the sheet's enrollment has no line and is on the roster |
| `Reconciliation.SecondReconcilePostsNothing` | apps/api/internal/features/billing/adjustment.go:164-170 | reconciling again without an edit changes nothing |
| `Reconciliation.TargetOpenIff` | apps/api/internal/features/billing/adjustment.go:465-505 | a carry lands strictly after the closed month; the target is open exactly when a later period is open or one of the two candidates is not closed |
| `Reconciliation.TargetIsEarliest` | apps/api/internal/features/billing/adjustment.go:465-505 | the target is the earliest open month after the closed one; without one, the current or following month, one further when closed |
| `Reconciliation.CarryReachesDebt` | apps/api/internal/features/billing/adjustment.go:406-505 | a posted carry counts as carried and is added to the debt of the month it lands on, never below zero, unless the student's row there is void, which only a month that is not open can have: then it is owed nowhere |
| `BillingExamples.CarryOnClosedMonthExample` | apps/api/internal/features/billing/adjustment.go:497-505 | a run from the empty ledger on which a carry lands on a void bill of a closed month: it counts as carried and no month owes it |
| `CarryRuns.ClosedRowSettles` | apps/api/internal/features/billing/close.go:178-195 | on every ledger, settled or not, closing a month leaves each of its rows with charge equal to live count times frozen price and no carries |
| `CarryRuns.CloseSettles` | apps/api/internal/features/billing/close.go:178-195 | closing a month leaves a settled ledger settled, the months closed before included |
| `CarryRuns.ConfirmedGap` | apps/api/internal/features/billing/adjustment.go:196-399 | by how much charge plus carries miss the live worth of a closed row after a confirmation: for a student on the new sheet the live count times price of an enrollment without a line, for one taken off it the old gap plus the dropped record's price |
| `CarryRuns.ConfirmedRowIff` | apps/api/internal/features/billing/adjustment.go:219-360 | a settled closed row stays settled under a confirmation exactly when the student stays on the sheet under an enrollment that has a line or is free, or is dropped with a record worth nothing |
| `CarryRuns.CommittedRowIff` | apps/api/internal/features/attendance/service.go:209-221 | when the sheet is committed and its reconciliation fails, the row stays settled exactly when both records have the same price |
| `CarryRuns.ReconciliationCatchesUp` | apps/api/internal/features/attendance/service.go:209-221 | a later reconciliation settles a visited row, settled before or not, exactly when the enrollment has a line, is free or is off the roster |
| `CarryRuns.StepSettlesIff` | apps/api/internal/features/billing/adjustment.go:196-399 | any call on a settled ledger leaves it settled exactly when it keeps every closed row, a condition read off the ledger before the call |
| `CarryRuns.CarriesTelescope` | apps/api/internal/features/billing/adjustment.go:196-399 | over every run, each collectable closed invoice satisfies charge plus carries = live count times frozen price at every moment exactly when every edit keeps the rows it finds |
| `CarryRuns.DroppedStudentIsNotReconciled` | apps/api/internal/features/billing/adjustment.go:219-236 | a student removed from the sheet after close is not visited: the row stays settled exactly when the dropped line was free |
| `CarryRuns.LinelessCarryIsTakenBack` | apps/api/internal/features/billing/adjustment.go:343-360 | what was carried for an enrollment without a closed line, live count times price, is taken back in full by the next reconciliation through another session |
| `BillingExamples.DroppedStudentExample` | apps/api/internal/features/billing/adjustment.go:219-236 | a run from the empty ledger: taking the student off the sheet of the closed month leaves it unsettled |
| `BillingExamples.OtherEnrollmentExample` | apps/api/internal/features/billing/adjustment.go:343-360 | a run from the empty ledger: confirming again under an enrollment without a line leaves it unsettled |
| `BillingExamples.FailedReconciliationExample` | apps/api/internal/features/attendance/service.go:209-221 | a run from the empty ledger: a committed sheet whose reconciliation fails leaves the closed month unsettled |
| `BillingExamples.LaterReconciliationExample` | apps/api/internal/features/attendance/service.go:209-221 | on that run a later reconciliation settles it again |
| `LessonCounts.CountsLessons` | apps/api/internal/features/billing/repository.go:1029-1055 | the billable and absent counts of an enrollment are numbers of sessions of the month that record it |
| `BillingOutcomes.BilledIff` | apps/api/internal/features/billing/preview.go:57-132 | a month bills exactly the students with a record in it, with a debt on the latest closed month before it, or with a row already |
| `BillingOutcomes.ComputedLines` | apps/api/internal/features/billing/calculator.go:144-156 | the lines of a computed invoice are one for each of the student's enrollments recorded in the month, with class, price, both counts and count times price |
| `BillingOutcomes.ComputedOpenings` | apps/api/internal/features/billing/preview.go:57-132 | the opening is what is unpaid on the row of the latest closed month before, zero when there is none or it is void; adjustments are those of the row of the month; the total is the sum of the three |
| `BillingOutcomes.LineOrder` | apps/api/internal/features/billing/calculator.go:144-149 | lines come by start date of the class, then by class name |
| `BillingOutcomes.MonthRefusals` | apps/api/internal/features/billing/close.go:156-184 | which error a refused Draft or Close gets, and that nothing else refuses it |
| `BillingOutcomes.MonthOutcome` | apps/api/internal/features/billing/close.go:178-199 | Draft and Close write rows of their month only, leave no row out and no paid amount changed; Close also marks the month closed; all other tables stay |
| `BillingOutcomes.TargetOutcome` | apps/api/internal/features/billing/adjustment.go:465-505 | the month a carry lands on and the period that may be opened for it, from the periods and today alone |
| `BillingOutcomes.VisitOutcome` | apps/api/internal/features/billing/adjustment.go:372-391 | a visit writes nothing, or one adjustment of exactly what is missing on the student's row of that month, a new draft when there was none, and nothing else |
| `BillingOutcomes.SheetOutcome` | apps/api/internal/features/attendance/service.go:181-221 | a committed sheet replaces that session's sheet only; a confirmation also reconciles it with the sheet's enrollments as roster; refused exactly for a missing session or a foreign enrollment |
| `BillingOutcomes.AdjustmentOutcome` | apps/api/internal/features/billing/adjustment.go:48-91 | a manual adjustment is refused for zero, a missing, a void or a paid invoice, in this order; otherwise one row is added and amount, total and status of its invoice follow |
| `BillingOutcomes.VoidOutcome` | apps/api/internal/features/billing/close.go:245-286 | a voiding is refused for a missing invoice, one neither issued nor partially paid, or one with a payment, in this order; otherwise only its status changes |
| `BillingOutcomes.PaymentOutcome` | apps/api/internal/features/payments/repository.go:389-427 | a payment step is refused on a missing, draft or void invoice or past the total due; otherwise only the paid amount and the status by the payments rule change |
| `DebtChain.OrderlyRunsChain` | apps/api/internal/features/billing/preview.go:57-90 | in orderly runs each closed month opens with exactly what the previous closed month left owed |
| `DebtChain.DebtRecurrence` | apps/api/internal/features/billing/repository.go:650-675 | owed after a month = max(0, previously owed + charge + adjustments - paid) |
| `DebtChain.DebtIsLargestSuffix` | apps/api/internal/features/billing/repository.go:667-673 | that recurrence equals the largest of zero and all suffix sums |
| `DebtChain.DebtIsConserved` | apps/api/internal/features/billing/preview.go:57-90 | after any orderly run a student owes the largest suffix sum of the net amounts of the closed months |
| `DebtChain.DebtorIsAlwaysBilled` | apps/api/internal/features/billing/repository.go:714-732 | a debtor has a live invoice in the next closed month, attendance or not, opening with the debt |
| `DebtChain.LatePaymentKeepsDebtIff` | apps/api/internal/features/billing/repository.go:660-673 | a payment recorded after the next month closed leaves the chain intact exactly when the paid amount stays the same or the month was and stays fully paid |
| `BillingExamples.LatePaymentExample` | apps/api/internal/features/billing/repository.go:660-673 | a run from the empty ledger: the month is paid in full too late, and the next one still opens with the whole debt |
| `ChainRuns.PaidIff` | apps/api/internal/features/payments/repository.go:389-427 | a payment leaves the chain of debts intact exactly when its month is not superseded (closed, with a later month closed too), the paid amount stays the same, or the row was and stays fully paid |
| `ChainRuns.AdjustIff` | apps/api/internal/features/billing/adjustment.go:48-91 | an adjustment leaves it intact exactly when its month is not superseded or the row owes nothing before and after |
| `ChainRuns.VoidIff` | apps/api/internal/features/billing/close.go:245-286 | a voiding leaves it intact exactly when its month is not superseded or nothing was due on the row |
| `ChainRuns.CloseIff` | apps/api/internal/features/billing/preview.go:57-90 | a Close leaves it intact exactly when no later month is closed already or the month leaves every billed student owing the opening |
| `ChainRuns.ReconcileIff` | apps/api/internal/features/billing/adjustment.go:406-505 | a reconciliation leaves it intact exactly when its carries land on a month that is not superseded, or each leaves the debt on that month as it was |
| `ChainRuns.StepChainsIff` | apps/api/internal/features/billing/preview.go:57-90 | any call on a ledger whose closed months open with the debt of the closed month before leaves it so exactly under those conditions, read off the ledger before the call |
| `ChainRuns.DebtsChainIff` | apps/api/internal/features/billing/repository.go:650-675 | over every run, each closed month opens at every moment with exactly what the closed month before it is owed if and only if every call meets its condition |
| `ChainExamples.LateChangesExample` | apps/api/internal/features/billing/adjustment.go:48-91 | runs from the empty ledger: lowering or voiding a bill after the next month closed breaks the chain |
| `ChainExamples.OutOfOrderExample` | apps/api/internal/features/billing/close.go:156-184 | a run from the empty ledger: closing a taught month after the following one breaks the chain |
| `ChainExamples.SupersededCarryExample` | apps/api/internal/features/billing/adjustment.go:497-505 | a run from the empty ledger: with four months closed a carry lands on the third, which the fourth already opened with, and breaks the chain |
| `BillingExamples.CreditExample` | apps/api/internal/features/billing/repository.go:660-673 | a run from the empty ledger: half of a due of 100 is paid, an adjustment of -80 leaves a credit of 30; nothing is owed and the next opening carries no credit |
| `Conservation.NetPlusPaidIsWorth` | apps/api/internal/features/billing/adjustment.go:334-391 | in every settled ledger a student's closed bills, net plus paid, equal their live worth plus manual adjustments, carries counted where they landed instead of where they came from |
| `Conservation.NetByMonth` | apps/api/internal/features/billing/preview.go:57-90 | those net amounts are the net amounts of the closed months |
| `Conservation.OrderlyRunLeavesNoDraft` | apps/api/internal/features/billing/close.go:186-199 | over orderly runs no row of a closed month is a draft |
| `Conservation.DebtIsWorth` | apps/api/internal/features/billing/preview.go:57-90 | after any orderly run whose closed months add up, the debt on the latest one is at least live worth plus manual adjustments less payments less corrections still waiting on open months, and exactly that if and only if the student never paid ahead |
| `BillingService.SumTotals` | apps/api/internal/features/billing/dto.go:128-168 | the totals loop: the grand total splits exactly into opening, charge and adjustment |
| `BillingService.Service.CollectAdjustments` | apps/api/internal/features/billing/preview.go:92-132 | adjustment totals by student, with a forced zero entry for every existing invoice |
| `BillingService.Service.CollectOpenings` | apps/api/internal/features/billing/preview.go:62-90 | opening balances over tallied students and debtors of the previous closed month |
| `BillingService.Service.Preview` | apps/api/internal/features/billing/service.go:151-162 | read-only; returns the computation and its totals |
| `BillingService.Service.UpsertInvoiceLine` | apps/api/internal/features/billing/repository.go:779-796 | one line upsert keyed by enrollment, nothing else changed |
| `BillingService.Service.ZeroUnmatchedLines` | apps/api/internal/features/billing/repository.go:798-806 | exactly the lines not kept are zeroed |
| `BillingService.Service.UpsertInvoice` | apps/api/internal/features/billing/repository.go:734-777 | the header upsert writes the money columns only, never status or paid amount, and is refused, changing nothing, exactly on a row that is no longer a draft |
| `BillingService.Service.CheckDrafts` | apps/api/internal/features/billing/preview.go:206-210 | the guard loop refuses exactly when some computed student has a non-draft row |
| `BillingService.Service.DraftRows` | apps/api/internal/features/billing/preview.go:218-270 | the upsert loop goes through exactly when the guard loop passes, and then leaves exactly the specified ledger |
| `BillingService.Service.Draft` | apps/api/internal/features/billing/service.go:169-204 | Draft equals its specification; a refused call changes nothing |
| `BillingService.Service.VoidInvoices` | apps/api/internal/features/billing/repository.go:866-878 | voids and counts exactly the empty drafts of the month |
| `BillingService.Service.IssueDraftInvoices` | apps/api/internal/features/billing/repository.go:852-858 | issues exactly the remaining drafts of the month |
| `BillingService.Service.SumDue` | apps/api/internal/features/billing/close.go:201-209 | the sum over the month's non-void invoices |
| `BillingService.Service.Close` | apps/api/internal/features/billing/close.go:128-237 | the pipeline equals its specification; a refused call changes nothing |
| `BillingService.Service.PostRow` | apps/api/internal/features/billing/repository.go:963-996 | adding an adjustment row and recomputing totals and status of its invoice |
| `BillingService.Service.AddManualAdjustment` | apps/api/internal/features/billing/adjustment.go:48-91 | refuses zero amounts, missing, void and paid invoices; otherwise posts one row |
| `BillingService.Service.VoidOne` | apps/api/internal/features/billing/close.go:245-286 | only an issued or partially paid invoice without payment becomes void |
| `BillingService.Service.EnsureMonth` | apps/api/internal/features/billing/service.go:71-107 | opens the month when missing, otherwise keeps it |
| `BillingService.Service.EnsureAdjustmentTarget` | apps/api/internal/features/billing/adjustment.go:406-505 | finds or creates the period and draft invoice a carry lands on |
| `BillingService.Service.PriceLive` | apps/api/internal/features/billing/adjustment.go:322-342 | prices live counts at the frozen line prices and reports whether the session's enrollment has a line |
| `BillingService.Service.CarrySum` | apps/api/internal/features/billing/repository.go:945-961 | what was already carried for the student out of the month |
| `BillingService.Service.ResolveDelta` | apps/api/internal/features/billing/adjustment.go:322-370 | by how much charge plus carries of a closed invoice miss its live worth, an enrollment without a line included when it is on the roster and the student's own |
| `BillingService.Service.ReconcileOne` | apps/api/internal/features/billing/adjustment.go:280-399 | one student's reconciliation equals its specification |
| `BillingService.Service.Reconcile` | apps/api/internal/features/billing/adjustment.go:196-274 | nothing unless the month is closed, then each recorded student in id order |
| `KanbanOrder.RowsSorted` | apps/api/internal/features/tasks/task_repository.go:231-262 | the column listing is strictly ordered by position, then creation |
| `KanbanOrder.RowsMembers` | apps/api/internal/features/tasks/task_repository.go:238-262 | the listing holds exactly the column's live tasks |
| `KanbanOrder.RenormalizeKeepsOrder` | apps/api/pkg/kanban/ports.go:150-153 | renormalising changes no column's order |
| `KanbanOrder.OneRenormalizationSuffices` | apps/api/pkg/kanban/service.go:486-505 | after one renormalisation the recomputed placement never asks for another, so the discarded flag is sound |
| `KanbanOrder.MoveSucceedsIff` | apps/api/pkg/kanban/service.go:518-545 | a move succeeds exactly when the task is live and the anchor is another live task of the target |
| `KanbanOrder.MoveTaskOrders` | apps/api/pkg/kanban/service.go:474-545 | ties or not, renormalised or not: the target reads as before with the task taken out and put directly after the anchor, other columns as before without it |
| `KanbanGaps.AfterMoveHalves` | apps/api/pkg/kanban/service.go:535-541 | a move behind an anchor at most halves the column's spacing and keeps the minimum gap |
| `KanbanGaps.RenormalizingMoveRestores` | apps/api/pkg/kanban/service.go:486-505 | a renormalising move leaves the column spaced by one half |
| `KanbanGaps.RunKeepsMinimumGap` | apps/api/pkg/kanban/service.go:457-462 | no run of creates, deletes and moves brings two tasks of a column closer than 1e-6 |
| `KanbanGaps.RenormalizationsAreRare` | apps/api/pkg/kanban/service.go:457-505 | from a column spaced by one half, at most 18 further accepted after-moves never renormalise it, refused ones not counted |
| `KanbanGaps.NineteenthFurtherMoveCanRenormalize` | apps/api/pkg/kanban/service.go:457-505 | the count is exact: three tasks spaced by one half take 18 alternating moves, then the next one renormalises |
| `KanbanGaps.TrioIsReached` | apps/api/pkg/kanban/service.go:250-278 | three creates and one move reach such a column from an empty one |
| `KanbanGaps.RenormalizingTuckInRestarts` | apps/api/pkg/kanban/service.go:486-505 | the renormalising move leaves the three tasks spaced by one half again, so the count restarts |
| `KanbanGaps.RestoreSpacedIff` | apps/api/pkg/kanban/service.go:372-375 | a restore keeps the column spaced exactly when no live task has come too close to the restored position |
| `KanbanGaps.RestoreCanTie` | apps/api/pkg/kanban/service.go:372-375 | that condition can fail: a task created meanwhile holds the restored position |
| `KanbanBoardGaps.MergeSpacedIff` | apps/api/internal/features/tasks/task_repository.go:375-393 | merging two spaced columns keeps the target spaced exactly when no live task of one is too close to one of the other |
| `KanbanBoardGaps.MergeCanTie` | apps/api/pkg/kanban/service.go:190-242 | a run of four calls after which a merge leaves two tasks at one position |
| `KanbanBoardGaps.CallKeepsGapIff` | apps/api/pkg/kanban/service.go:80-421 | every board call keeps the minimum gap exactly when, being a restore or a merge, it is safe on the board as it was |
| `KanbanBoardGaps.RunKeepsGapIff` | apps/api/pkg/kanban/service.go:80-421 | over any run of board calls the minimum gap holds in every column at every moment exactly when each accepted restore and merge was safe |
| `KanbanBoard.CallKeeps` | apps/api/pkg/kanban/service.go:80-421 | every successful call keeps the board well formed |
| `KanbanBoard.RunKeepsBoard` | apps/api/pkg/kanban/ports.go:161-170 | in every reachable board each task, deleted or not, names an existing column, names differ ignoring case, and there are 1 to MaxColumns columns |
| `KanbanBoard.RunLosesNoTask` | apps/api/pkg/kanban/service.go:190-242 | over any run from a valid board a task is live exactly when the last delete or restore naming it says so, sits in an existing column, and is listed there and nowhere else when live, nowhere when deleted |
| `KanbanBoard.UndeletedTaskStays` | apps/api/pkg/kanban/service.go:190-242 | a live task no delete names stays live and listed in an existing column over any run |
| `KanbanBoard.CallLosesNoTask` | apps/api/pkg/kanban/service.go:225-235 | no call, accepted or refused, removes a task row; only deleting and restoring that very task change whether it is live |
| `KanbanBoard.DeleteColumnSucceedsIff` | apps/api/pkg/kanban/service.go:194-223 | a column goes exactly when it is not the last and holds no task at all or names another existing column |
| `KanbanBoard.DeleteColumnKeepsTasks` | apps/api/pkg/kanban/ports.go:166-170 | the column's live tasks join the target, every other listing keeps its tasks |
| `KanbanBoard.RestoreNeverDangles` | apps/api/pkg/kanban/service.go:380-401 | in every reachable board a deleted task restores unchanged into an existing column |
| `KanbanBoard.DeleteThenRestore` | apps/api/pkg/kanban/service.go:372-375 | restore undoes delete |
| `KanbanBoard.DepartedReturnsIff` | apps/api/internal/features/tasks/task_repository.go:395-420 | after a handover, over any later run without another one, a task shows up live under the departed member exactly when the run's last word leaves it live and either it was created by them and deleted at the handover, or its last accepted edit, the handover where there is none, left it assigned to them; the port says the handover covers every task |
| `KanbanBoard.UneditedReturnsIff` | apps/api/internal/features/tasks/task_repository.go:395-420 | with no later edit of the task: exactly when it named them while deleted at the handover and is restored |
| `KanbanBoard.DepartedReturnsExample` | apps/api/internal/features/tasks/task_repository.go:395-420 | a deleted task, a handover and a restore: the departed member is named again |
| `KanbanBoard.EditedAwayExample` | apps/api/pkg/kanban/service.go:294-318 | a later edit without an assignee takes the restored task away from the departed member again |
| `KanbanBoard.CreateKeepsPositionsIff` | apps/api/pkg/kanban/service.go:98-110 | a new column keeps the column positions distinct exactly when none sits at the column count |
| `KanbanBoard.ReorderSpreadsPositions` | apps/api/internal/features/tasks/column_repository.go:136-154 | a reorder numbers the columns 0, 1, 2, ... whatever their positions were |
| `KanbanBoard.CallKeepsPositionsIff` | apps/api/pkg/kanban/service.go:80-242 | among all calls only a creation can tie two column positions, exactly when a column sits at the column count |
| `KanbanBoard.ColumnPositionsCanTie` | apps/api/pkg/kanban/service.go:98-242 | four accepted calls on a one-column board end with two columns at position 2 |
| `BoardOutcomes.CreateColumnOutcome` | apps/api/pkg/kanban/service.go:80-110 | a creation's result, error by error in order: blank, too long or taken name, full board; the column gets the trimmed name and the count as position |
| `BoardOutcomes.DefaultLimits` | apps/api/pkg/kanban/options.go:12-40 | by default at most eight columns with names of at most forty characters |
| `BoardOutcomes.UpdateColumnOutcome` | apps/api/pkg/kanban/service.go:118-160 | a patch changes the given fields of that column only; its own name in another case is no duplicate |
| `BoardOutcomes.DeleteColumnOutcome` | apps/api/pkg/kanban/service.go:190-242 | the column goes and each of its tasks, deleted ones included, moves to the target, completed now exactly when the target is a done column; every other task and column stays |
| `BoardOutcomes.DeleteColumnRefusals` | apps/api/pkg/kanban/service.go:190-223 | which error a refused deletion gets |
| `BoardOutcomes.AddTaskOutcome` | apps/api/pkg/kanban/service.go:250-278 | a creation's result, error by error in order; the task is live, not completed and one below the lowest position of its column |
| `BoardOutcomes.EditTaskOutcome` | apps/api/pkg/kanban/service.go:294-318 | an edit's result, error by error in order; the assignee and nothing else changes |
| `BoardOutcomes.DeleteRestoreOutcome` | apps/api/pkg/kanban/service.go:361-401 | deleting needs a live task, restoring a deleted one; each flips that mark alone |
| `BoardOutcomes.HandoverOutcome` | apps/api/internal/features/tasks/task_repository.go:395-420 | each live task of the departed member loses them as assignee and gets the new owner as creator, the rest stays |
| `BoardOutcomes.MoveRefusals` | apps/api/pkg/kanban/service.go:326-352 | exactly which moves are refused, and with which error |
| `BoardOutcomes.MoveOutcome` | apps/api/pkg/kanban/service.go:326-358 | a moved task is in the target column, completed now exactly when that is a done column; of every other task at most the position changes |
| `BoardOutcomes.MoveToTop` | apps/api/pkg/kanban/service.go:510-520 | without an anchor: one below the lowest position, no other task changes |
| `BoardOutcomes.MoveToEnd` | apps/api/pkg/kanban/service.go:522-546 | after the last task: one further, no other task changes |
| `BoardOutcomes.MoveBetween` | apps/api/pkg/kanban/service.go:522-546 | between two tasks: the midpoint, no other task changes, while half the gap is at least a millionth |
| `BoardOutcomes.MoveIntoNarrowGap` | apps/api/pkg/kanban/service.go:486-505 | in a narrower gap: the column is numbered by index first, then the midpoint; no other column changes |
| `KanbanService.ValidatePermutation` | apps/api/pkg/kanban/columns.go:83-102 | the loops accept exactly the duplicate-free lists of current ids of the same length |
| `KanbanService.AcceptsExactlyPermutations` | apps/api/pkg/kanban/columns.go:79-102 | pigeonhole: those lists are exactly the permutations of the current ids |
| `KanbanService.FindSuccessor` | apps/api/pkg/kanban/service.go:535-538 | the inner loop stops at the first later row that is not the moving task |
| `KanbanService.FindPositionAfter` | apps/api/pkg/kanban/service.go:527-545 | the nested scan computes the specified placement |
| `KanbanService.Service.HasName` | apps/api/internal/features/tasks/column_repository.go:165-174 | the case-insensitive name test |
| `KanbanService.Service.AddColumn` | apps/api/pkg/kanban/service.go:80-115 | CreateColumn equals its specification, errors in order |
| `KanbanService.Service.PatchColumn` | apps/api/pkg/kanban/service.go:122-157 | UpdateColumn equals its specification |
| `KanbanService.Service.UpdatePositions` | apps/api/internal/features/tasks/column_repository.go:136-154 | each listed column takes its index as position |
| `KanbanService.Service.Reorder` | apps/api/pkg/kanban/service.go:162-180 | ReorderColumns accepts exactly permutations |
| `KanbanService.Service.CountInColumn` | apps/api/internal/features/tasks/task_repository.go:362-373 | counts soft-deleted tasks too |
| `KanbanService.Service.MoveAllToColumn` | apps/api/internal/features/tasks/task_repository.go:375-393 | re-points exactly the column's tasks, deleted ones included |
| `KanbanService.Service.RemoveColumn` | apps/api/pkg/kanban/service.go:190-242 | DeleteColumn equals its specification, errors in order |
| `KanbanService.Service.MinPositionInColumn` | apps/api/internal/features/tasks/task_repository.go:210-229 | the minimum over live tasks is the first listed row's position |
| `KanbanService.Service.NewTask` | apps/api/pkg/kanban/service.go:250-278 | a new task needs a title and a member as assignee, goes to the top and is never completed |
| `KanbanService.Service.Edit` | apps/api/pkg/kanban/service.go:294-318 | an edit needs a live task, a title and a member as assignee, and rewrites the assignee and no other modelled column |
| `KanbanService.Service.RenormalizeColumn` | apps/api/internal/features/tasks/task_repository.go:264-284 | each listed task takes its index as position |
| `KanbanService.Service.PlaceAfter` | apps/api/pkg/kanban/service.go:474-505 | the two-pass placement of an anchored move |
| `KanbanService.Service.MoveTo` | apps/api/pkg/kanban/service.go:329-357 | MoveTask equals its specification; a refused move changes nothing |
| `KanbanService.Service.Remove` | apps/api/pkg/kanban/service.go:361-370 | soft-deletes one live task |
| `KanbanService.Service.Restore` | apps/api/pkg/kanban/service.go:380-401 | restores one deleted task, nothing else changed |
| `KanbanService.Service.HandoverOnDeparture` | apps/api/pkg/kanban/service.go:411-421 | unassign, then reassign creatorship, over live tasks |
| `RefreshTokens.StepGrows` | apps/api/internal/features/auth/repository.go:104-125 | tokens are only appended and revoked; a revocation is never undone or overwritten |
| `RefreshTokens.RunKeepsInv` | apps/api/internal/features/auth/service.go:218-304 | request and lineage invariants of every interleaving |
| `RefreshTokens.NoTokenIsRotatedTwice` | apps/api/internal/features/auth/service.go:244-258 | under every interleaving no two tokens come from rotating the same one |
| `TokenFamilies.DeadFamilyRevivesIff` | apps/api/internal/features/auth/service.go:282-291 | a family without a live token can get one again exactly when a request has passed the liveness check and not yet issued its sibling |
| `TokenFamilies.DeadForeverWithoutGrace` | apps/api/internal/features/auth/service.go:278-304 | without reuse grace a dead family stays dead forever |
| `TokenFamilies.CleanRunKeepsPurge` | apps/api/internal/features/auth/repository.go:120-142 | while siblings are issued only into live families, a purged token has no live relative |
| `TokenFamilies.PurgeTotalIffClean` | apps/api/internal/features/auth/service.go:282-291 | over every interleaving, purged tokens have no live relative at every moment exactly when no sibling is stored into a family that died after its liveness check |
| `TokenFamilies.DeadFamilyWasPurged` | apps/api/internal/features/auth/repository.go:104-125 | following the rotations in a family without a live token ends at a purged one |
| `TokenFamilies.RevokedInLiveFamilyWasRotated` | apps/api/internal/features/auth/repository.go:37-43 | at every moment of a run each revoked token of a live family was revoked by rotation, exactly when no sibling is stored into a dead family |
| `TokenFamilies.RunKeepsOneLive` | apps/api/internal/features/auth/service.go:244-252 | with zero grace each family has at most one live token |
| `TokenFamilies.ReplayKillsTheFamily` | apps/api/internal/features/auth/service.go:229-235 | in every interleaving a request that presents a token revoked longer ago than the grace, or any revoked token without one, is never granted, and the step that answers it leaves its family dead |
| `TokenFamilies.ReplayIsAnswered` | apps/api/internal/features/auth/service.go:278-304 | two steps of its own answer the replay |
| `TokenFamilies.ReplayedFamilyStaysDead` | apps/api/internal/features/auth/service.go:278-304 | the family stays dead after the answer in every run whose siblings join live families only |
| `TokenFamilies.ReplayWithoutGraceIsFinal` | apps/api/internal/features/auth/service.go:278-304 | without grace the family is dead for good once the replay is answered, in every interleaving |
| `TokenFamilies.WithoutGraceEveryRunIsClean` | apps/api/internal/features/auth/service.go:278-304 | without grace no sibling is ever stored, from whatever reachable state the run starts |
| `TokenFamilies.LogoutCanBeOutrun` | apps/api/internal/features/auth/service.go:282-291 | with any positive grace a concrete interleaving leaves a logged-out family alive |
| `TokenFamilies.FinalAndSingleIffNoGrace` | apps/api/internal/features/auth/service.go:278-304 | purges are final, and families have at most one live token, in all interleavings exactly when the grace is zero |
| `AuthService.DriveIsARun` | apps/api/internal/features/auth/service.go:218-304 | an uninterrupted request is the protocol run that schedules only that request |
| `AuthService.RefreshRotates` | apps/api/internal/features/auth/service.go:244-252 | a live token not past its expiry, of an active account, is revoked by the rotation and one live token with a full lifetime joins its family; nothing else changes |
| `AuthService.RefreshOfLiveRefusedIff` | apps/api/internal/features/auth/service.go:236-242 | a live token is refused exactly when past its expiry or its account is not active, touching nothing |
| `AuthService.RefreshOfRevoked` | apps/api/internal/features/auth/service.go:278-304 | a revoked token gets one sibling exactly when there is a grace, no more of it has gone by since the revocation, the family has an unrevoked token and the account is active; otherwise it is refused and exactly the family's live tokens are revoked |
| `AuthService.RaceLoserOutcome` | apps/api/internal/features/auth/service.go:254-259 | a request that loses the race for its token counts as within the grace whenever there is one |
| `AuthService.UnknownTokenIsRefused` | apps/api/internal/features/auth/service.go:218-225 | an unknown token is refused without a trace |
| `AuthService.LoginOutcome` | apps/api/internal/features/auth/service.go:542-567 | a login opens a family of its own with one live token of full lifetime |
| `AuthService.LogoutOutcome` | apps/api/internal/features/auth/service.go:336-362 | a logout revokes exactly the live tokens of the presented token's family; an unknown token changes nothing |
| `AuthService.DisableOutcome` | apps/api/internal/features/auth/service.go:369-376 | disabling, and revoking an account's sessions, leaves none of its tokens live and touches no other account's |
| `AuthService.ArrivalOutcome` | apps/api/internal/features/auth/service.go:218-221 | a request starts by reading at the time it arrives, and time only goes on |
| `DisabledAccounts.DisabledStaysLoggedOutIff` | apps/api/internal/features/auth/service.go:278-304 | in all interleavings without a login or reactivation a disabled account stays without a live token exactly when no request had passed its account check and was about to insert a sibling |
| `DisabledAccounts.WithoutGraceDisabledIsOut` | apps/api/internal/features/auth/service.go:369-376 | without a grace a disabled account is out in every interleaving |
| `DisabledAccounts.DisableCanBeOutrun` | apps/api/internal/features/auth/service.go:278-304 | with any positive grace a concrete interleaving gives a disabled account a live token |
| `AuthService.Service.RevokeOne` | apps/api/internal/features/auth/repository.go:104-118 | compare-and-set: wins exactly when the token was live |
| `AuthService.Service.PurgeFamily` | apps/api/internal/features/auth/repository.go:120-125 | revokes exactly the family's live tokens |
| `AuthService.Service.HasLive` | apps/api/internal/features/auth/repository.go:127-135 | whether the family has an unrevoked token |
| `AuthService.Service.PurgeUser` | apps/api/internal/features/auth/repository.go:137-142 | revokes exactly the account's live tokens |
| `AuthService.Service.IssueSession` | apps/api/internal/features/auth/service.go:548-567 | appends one live token |
| `AuthService.Service.OpenSession` | apps/api/internal/features/auth/service.go:542-545 | a login starts a fresh family |
| `AuthService.Service.ReuseAfterRotation` | apps/api/internal/features/auth/service.go:278-304 | the reuse path equals the remaining steps of the request |
| `AuthService.Service.Refresh` | apps/api/internal/features/auth/service.go:218-267 | an uninterrupted refresh equals the driven request |
| `AuthService.Service.Logout` | apps/api/internal/features/auth/service.go:336-362 | revokes the family of a known token, nothing otherwise |
| `AuthService.Service.Disable` | apps/api/internal/features/auth/service.go:369-376 | deactivates the account and revokes all its tokens in one step |
| `Keyset.SortUnique` | apps/api/internal/features/audit/repository.go:115-117 | ORDER BY (time, id) depends on the rows only |
| `Keyset.TakeMerge` | apps/api/internal/features/audit/repository.go:96-117 | the first n of a merge come from the first n of each side |
| `Keyset.LimitPushdown` | apps/api/internal/features/audit/repository.go:96-117 | limiting every leg of a union loses nothing from the limited whole |
| `LikePattern.Replace` | apps/api/internal/shared/likeq/likeq.go:10-22 | the replacement pass escapes exactly backslash, percent and underscore |
| `LikePattern.PrefixMatches` | apps/api/internal/shared/likeq/likeq.go:19-22 | the prefix pattern matches exactly the texts that literally start with the input |
| `LikePattern.ContainsMatches` | apps/api/internal/shared/likeq/likeq.go:12-17 | the contains pattern matches exactly the texts that literally contain the input |
| `LikePattern.UnescapedWildcards` | apps/api/internal/shared/likeq/likeq.go:10-22 | unescaped, an underscore matches any one character and a percent sign any text, which is what the escaping is for |
| `AuditList.ListConditions` | apps/api/internal/features/audit/repository.go:60-94 | appends one condition per supplied filter |
| `AuditList.ConditionsMean` | apps/api/internal/features/audit/repository.go:60-94 | the conditions select exactly the rows asked for, the action filter being a literal prefix |
| `AuditList.NoRowTwice` | apps/api/internal/features/audit/repository.go:96-117 | no row reaches the union through two legs |
| `AuditList.QueryIsNaive` | apps/api/internal/features/audit/repository.go:35-126 | for every trail, membership table, filter, cursor and limit the two-leg query equals filter, sort, cut |
| `AuditPages.QueryBelow` | apps/api/internal/features/audit/repository.go:87-93 | with a cursor the query sees exactly the part of the view below it; a zero-time cursor is ignored |
| `AuditPages.List` | apps/api/internal/features/audit/service.go:79-123 | clamp, probe row and cut return one page and its cursor |
| `AuditPages.WalkCollects` | apps/api/internal/features/audit/service.go:111-122 | while no boundary row has the zero time the walk has collected exactly the first pages |
| `AuditPages.ZeroBoundaryLoops` | apps/api/internal/features/audit/repository.go:87-93 | a zero-time boundary row sends the walk back to the first page forever |
| `AuditPages.WalkIsExactIff` | apps/api/internal/features/audit/service.go:79-150 | a walk terminates and returns every visible row once, in order, exactly when no page before the last ends on a zero-time row |
| `AuditPages.ZeroTimeExample` | apps/api/internal/features/audit/repository.go:87-93 | two rows with the zero time, read one a page: the walk never ends |
| `AuditOutcomes.QueryAnswers` | apps/api/internal/features/audit/repository.go:35-126 | rows of the center, or of no center whose actor was a member of it then, from joining until leaving, that pass every filter: the answer holds such rows, newest first, each once, and lacks one only when full of newer ones |
| `AuditOutcomes.RoomyQueryIsComplete` | apps/api/internal/features/audit/repository.go:96-117 | with a limit no smaller than their number the answer is exactly those rows |
| `AuditOutcomes.ViewIsTheTrail` | apps/api/internal/features/audit/service.go:79-123 | the view whose pages List returns holds exactly those rows, newest first |
| `AuditOutcomes.PageSizes` | apps/api/internal/features/audit/service.go:84-90 | fifty rows a page unless between one and a hundred are asked for |
| `ClassChat.Chat.List` | apps/api/internal/features/classchat/service.go:47-70 | one page of live messages with the probe row cut off |
| `ClassChat.Chat.Post` | apps/api/internal/features/classchat/service.go:85-88 | appends one live message |
| `ClassChat.Chat.Delete` | apps/api/internal/features/classchat/service.go:99-121 | a retracted or foreign message is not found, of the others only the author or the owner may retract; exactly that message is retracted |
| `ClassChat.NextCovers` | apps/api/internal/features/classchat/repository.go:47-54 | a matching message not yet returned is on the next page or below its cursor |
| `ClassChat.WalkReturnsNothingTwice` | apps/api/internal/features/classchat/repository.go:41-56 | no walk interleaved with posts and retractions, the cursor's own included, returns a message twice |
| `ClassChat.WalkReturnsLiveMessagesOnce` | apps/api/internal/features/classchat/repository.go:41-56 | a finished one returns every message live throughout exactly once |
| `ClassChat.WalkEnds` | apps/api/internal/features/classchat/service.go:47-70 | a walk is finished once its pages could hold more rows than there are messages |
| `ClassChat.WalkOutrunsPosts` | apps/api/internal/features/classchat/service.go:47-70 | while posts are newer than what the walk started from, it ends after the pages those messages fill, however fast messages are posted |
| `ClassChat.ForeignCursorMatchesNothing` | apps/api/internal/features/classchat/repository.go:47-52 | a cursor foreign to the class yields an empty last page |
| `ChatOutcomes.PageAnswers` | apps/api/internal/features/classchat/repository.go:41-56 | a page holds live messages of the class older than the cursor message, newest first, each once; one is missing, and a next cursor given, exactly when the page is full of newer ones |
| `ChatOutcomes.PageSizes` | apps/api/internal/features/classchat/service.go:51-55 | twenty messages a page unless between one and fifty are asked for |
| `Clip.Truncate` | apps/api/internal/features/audit/subscriber.go:64-76 | the loop returns the longest valid prefix within the limit |
| `Clip.ClippedIsValidIff` | apps/api/internal/features/audit/subscriber.go:67-70 | the stored text is valid exactly when it was cut or was valid before |
| `Clip.ClippedLosesLittle` | apps/api/internal/features/audit/subscriber.go:71-75 | cutting valid text costs at most three bytes below the limit |
| `Clip.InvalidTextPasses` | apps/api/internal/features/audit/subscriber.go:68-70 | a short invalid text is stored as it came, although the comment promises valid UTF-8 |
| `Clip.ValidIffUtf8` | apps/api/internal/features/audit/subscriber.go:71-74 | the byte-wise test accepts exactly the encodings of code points (RFC 3629, section 3) |
| `Clip.ClippedOutcome` | apps/api/internal/features/audit/subscriber.go:64-76 | text within the limit stays; of longer text the longest prefix within the limit that encodes code points |
| `AuditBuffer.BatchesAreTheAcceptedRows` | apps/api/internal/features/audit/subscriber.go:134-178 | in every interleaving the batches in swap order followed by the buffer are exactly the accepted rows |
| `AuditBuffer.NoRowInTwoBatches` | apps/api/internal/features/audit/subscriber.go:162-178 | when no two accepted rows are equal, no row sits in two batches |
| `AuditBuffer.SingleConsumerBatchFits` | apps/api/internal/features/audit/subscriber.go:53-55 | with one consumer no batch exceeds the batch size, and each fits one statement's parameters |
| `AuditBuffer.ConcurrentBatchOvershoot` | apps/api/internal/features/audit/subscriber.go:140-145 | with k handlers a batch exceeds the size by at most k - 1 |
| `AuditBuffer.NothingAfterClose` | apps/api/internal/features/audit/subscriber.go:148-160 | once some Close has returned, every accepted row is in a batch and the buffer stays empty forever |
| `AuditBuffer.DeliverOutcome` | apps/api/internal/features/audit/subscriber.go:134-146 | a delivered row is buffered exactly before the buffer is closed, and its handler owes a flush exactly when the row filled the batch |
| `AuditBuffer.FlushOutcome` | apps/api/internal/features/audit/subscriber.go:162-178 | each of the three flushes hands the whole buffer over as one batch, none when it is empty |
| `AuditBuffer.CloseOutcome` | apps/api/internal/features/audit/subscriber.go:153-160 | Close stops the ticker, waits for it, then closes the buffer, each step once and in this order |
| `AuditBuffer.StartOutcome` | apps/api/internal/features/audit/subscriber.go:87-104 | nothing is buffered, closed or stopped at the start |
| `AuditBuffer.BatchSizes` | apps/api/internal/features/audit/subscriber.go:53-55 | the configured size is clamped to one up to four thousand rows, which fit one statement's parameters |
| `AuditBuffer.Subscriber.Drain` | apps/api/internal/features/audit/subscriber.go:162-178 | moves the buffer into one batch, losing and reordering nothing |
| `AuditBuffer.Subscriber.Handle` | apps/api/internal/features/audit/subscriber.go:134-146 | one accepted row more, none after Close |
| `AuditBuffer.Subscriber.Close` | apps/api/internal/features/audit/subscriber.go:153-160 | flushes everything and drops what comes later |
| `RateLimit.Limiter.Sweep` | apps/api/internal/middleware/ratelimit.go:77-90 | evicts exactly the elapsed windows, at most once per period |
| `RateLimit.Limiter.AllowKey` | apps/api/internal/middleware/ratelimit.go:56-75 | sweep, then judge one request |
| `RateLimit.SweepIsInvisible` | apps/api/internal/middleware/ratelimit.go:56-90 | under a monotone clock eviction never changes a verdict |
| `RateLimit.StoredWindowsAreYoung` | apps/api/internal/middleware/ratelimit.go:77-90 | after every call each stored window started less than two periods ago |
| `RateLimit.AtMostTwiceLessOne` | apps/api/internal/middleware/ratelimit.go:65-74 | any half-open interval of one period admits at most 2 * max(limit, 1) - 1 requests of a key |
| `RateLimit.BoundIsReached` | apps/api/internal/middleware/ratelimit.go:65-74 | that bound is reached for every limit when a period has at least two instants |
| `RateLimit.LimitBelowOneActsAsOne` | apps/api/internal/middleware/ratelimit.go:56-75 | a limit of zero or less gives the tables and verdicts of a limit of one, sweep included |
| `RateLimit.AllowOutcome` | apps/api/internal/middleware/ratelimit.go:56-90 | what one call answers and leaves in the table, sweep included |
| `RateLimit.KeysAreIndependent` | apps/api/internal/middleware/ratelimit.go:56-90 | under a monotone clock the verdict on a call is the one it would get if no other key had been used |
| `Lineage.ParentCreatesCycle` | apps/api/internal/features/classes/repository.go:494-511 | the level-by-level walk equals the capped recursion |
| `Lineage.ReachesIff` | apps/api/internal/features/classes/repository.go:494-511 | the walk finds exactly the ancestors at distance below its cap |
| `Lineage.WalkIsReachability` | apps/api/internal/features/classes/repository.go:489-511 | on chains of at most 50 classes the walk is true reachability |
| `Lineage.AcyclicAfterIff` | apps/api/internal/features/classes/service.go:511-519 | a new parent keeps the lineage acyclic exactly when the class is not its ancestor |
| `Lineage.LinkNext` | apps/api/internal/features/classes/repository.go:513-536 | unlinks every other live child, then links the child; a child that is not live is not found |
| `Lineage.SingleLiveChild` | apps/api/internal/features/classes/repository.go:513-536 | afterwards the child is the single live child |
| `Lineage.LinkAcyclicIff` | apps/api/internal/features/classes/service.go:530-534 | linking a child keeps the lineage acyclic exactly when it is no ancestor of the class |
| `Lineage.Registry.UpdateLinks` | apps/api/internal/features/classes/service.go:401-453 | both links are checked against stored rows, then both are written; a refused call changes nothing |
| `Lineage.ParentUpdateIff` | apps/api/internal/features/classes/service.go:494-520 | an accepted parent-only update keeps the lineage acyclic exactly when the class is no ancestor of the parent beyond the cap |
| `Lineage.NextUpdateIff` | apps/api/internal/features/classes/service.go:535-563 | an accepted next-only update keeps it acyclic exactly when the child is no ancestor beyond the cap, and leaves it the single live child |
| `Lineage.BothUpdateIff` | apps/api/internal/features/classes/service.go:432-453 | an accepted update of both links keeps it acyclic exactly when the new parent's chain does not meet the child before it meets the class |
| `Lineage.ParentAndNextCanCycle` | apps/api/internal/features/classes/service.go:432-453 | the same class as parent and as next is accepted and closes a cycle |
| `Lineage.StepIff` | apps/api/internal/features/classes/service.go:432-453 | any call on an acyclic lineage leaves it acyclic exactly under a condition on the rows before it; clearing one link makes setting the other harmless |
| `Lineage.LineageStaysAForest` | apps/api/internal/features/classes/repository.go:489-536 | over every run the lineage is acyclic at every moment exactly when each update meets that condition |
| `Lineage.DeepChainCanCycle` | apps/api/internal/features/classes/repository.go:489-511 | hanging the top of a chain below its bottom is refused up to 50 classes; from 51 on it is accepted and closes a cycle |
| `Lineage.ChainIsReached` | apps/api/internal/features/classes/service.go:494-520 | chains of any length are reached by creations and updates |
| `LineageOutcomes.WalkLooksAtFifty` | apps/api/internal/features/classes/repository.go:489-511 | the check looks at exactly the first fifty live classes of the stored parent chain |
| `LineageOutcomes.UpdateRefusals` | apps/api/internal/features/classes/service.go:494-563 | the first failing check decides the error, parent before next, both on stored rows, and nothing else refuses an update |
| `LineageOutcomes.UpdateOutcome` | apps/api/internal/features/classes/service.go:432-453 | what an accepted update leaves of every class: the given parent, the child linked, every other live child unlinked when the next class is set or cleared, all else as before |
| `Attendance.ResolveRequest` | apps/api/internal/features/attendance/service.go:321-375 | the scan of either body shape, errors in the code's order |
| `Attendance.MarksAcceptedIff` | apps/api/internal/features/attendance/service.go:333-358 | marks are accepted exactly when statuses are valid, students distinct and on the roster; the result is those marks |
| `Attendance.AbsentListAcceptedIff` | apps/api/internal/features/attendance/service.go:360-374 | the legacy list collapses duplicates and is accepted exactly when all listed students are on the roster |
| `AttendanceSheet.Service.UpsertAll` | apps/api/internal/features/attendance/repository.go:108-136 | one upsert per roster row, ids and recorded_at kept |
| `AttendanceSheet.Service.DropMissing` | apps/api/internal/features/attendance/repository.go:162-175 | soft-deletes exactly the session's rows of students not kept |
| `AttendanceSheet.Service.ConfirmSheet` | apps/api/internal/features/attendance/service.go:130-199 | Confirm equals its specification; a refused call changes nothing |
| `AttendanceSheet.ConfirmRowByRow` | apps/api/internal/features/attendance/service.go:181-196 | what becomes of every single row of the table |
| `AttendanceSheet.ConfirmKeepsUnique` | apps/api/internal/features/attendance/repository.go:112-116 | at most one live record per session and student |
| `AttendanceSheet.ConfirmSetsTheSheet` | apps/api/internal/features/attendance/service.go:125-129 | afterwards the live records are one per roster student under a roster enrollment; kept students keep id and recorded_at |
| `AttendanceOutcomes.ConfirmWritesTheRequest` | apps/api/internal/features/attendance/service.go:149-179 | each roster row has exactly one live record afterwards: late, absent or excused when a mark names the student so, absent when listed absent, present when not named; billable, by the recorder, now, in its old row when there was one |
| `AttendanceOutcomes.ConfirmLeavesTheRest` | apps/api/internal/features/attendance/service.go:181-196 | rows of other sessions and dead rows stay, live rows off the roster are soft-deleted, the session is held and confirmed now |
| `AttendanceOutcomes.RequestRefusals` | apps/api/internal/features/attendance/service.go:321-375 | which error a refused request gets: both shapes, the first faulty mark, or the unknown students each once in order |
| `AttendanceOutcomes.ConfirmRefusals` | apps/api/internal/features/attendance/service.go:130-147 | a confirmation is refused for a missing or cancelled session, a refused request or a roster naming a student twice, in this order, and accepted otherwise |
| `AttendanceOutcomes.TallyCounts` | apps/api/internal/features/attendance/repository.go:230-248 | the tally counts the live records of held and confirmed sessions in the window: billable ones, absent or excused ones, present or late ones |
| `AttendanceSheet.ConfirmIsIdempotent` | apps/api/internal/features/attendance/service.go:125-199 | confirming again changes nothing but the records' updated_at and the session's confirmed_at |
| `AttendanceSheet.RunKeepsSound` | apps/api/internal/features/attendance/service.go:161-178 | over every run records stay unique and billable |
| `AttendanceSheet.ReachableTalliesSplit` | apps/api/internal/features/attendance/repository.go:230-248 | in every reachable state billable = present + absent for every enrollment and window |
| `AttendanceLedger.ConfirmedSheet` | apps/api/internal/features/attendance/service.go:152-179 | the sheet the ledger sees after a confirmation is the requested one: the roster's students, absent exactly when the request names them absent or excused |
| `AttendanceLedger.ConfirmRefinesSetSheet` | apps/api/internal/features/attendance/service.go:152-196 | confirming on the record table, then reading the ledger's sessions off it, equals reading them first and setting that one sheet; every other session is as it was |
| `AttendanceLedger.TallyMatchesLedger` | apps/api/internal/features/billing/repository.go:1029-1055 | the grouped tally over record rows equals the ledger's count over sheets, billable and absent alike |
| `AttendanceLedger.PeriodTallyMatchesLedger` | apps/api/internal/features/billing/service.go:77-83 | between a period's first and last day that tally is the ledger's count of the period's month |

## Left out

- DebtChain.DebtIsConserved: assumes months closed in calendar order, no voiding, money moving only on the latest closed month or on open ones, and carries that find an open month; ChainRuns.DebtsChainIff covers every run.
- Conservation.DebtIsWorth: assumes the same orderly runs.
- KanbanGaps.RunKeepsMinimumGap: covers creates, deletes and moves; restores and merges of columns are in KanbanBoardGaps.RunKeepsGapIff.
- TokenFamilies.ReplayedFamilyStaysDead: assumes that siblings join live families only; TokenFamilies.ReplayKillsTheFamily does not.
- AuditBuffer.NoRowInTwoBatches: assumes that no two accepted rows are equal; rows have no identity beyond their value.
- KanbanService.Service.MoveTo: float64 rounding is not modelled; positions are exact reals.
- AttendanceSheet.Service.UpsertAll: a roster naming one student twice is refused before the loop, standing for the database error of a statement that would hit one row twice.
- AuditPages.WalkIsExactIff: the trail is unchanged during the walk.
- Lineage.LineageStaysAForest: two concurrent updates are not interleaved.
- AuthService.Service.Refresh: account lookups that fail transiently, and requests whose context ends midway, are not modelled.
- A reconciliation that fails after some of the session's students: it happens as a whole or not at all.
- Isolation levels: a family revocation running beside an uncommitted rotation, two Draft calls overlapping, or an adjustment guard read before its transaction are not modelled; each step is atomic.
- Preview's line filter and the name order of its rows, contact and student names, notes, reasons and audit metadata.
- Tenancy, anchors and the permission catalogue; login, password hashing and reset tokens; access tokens and cookies.
- The join that resolves actor names on an audit page: it matches at most one row.
- Base64 and time formatting of audit cursors: a cursor is the pair (time, id).
- Case folding of letters beyond ASCII in column names.
- Column colours, task descriptions, priorities and due dates, and the text of a task title beyond its being empty; board filters and counts.
- The order in which a payment is allocated to invoices, manual splits, and the payment and allocation rows themselves.
- Bodies of chat messages: they are trimmed, and a blank one is refused.
- Failed batch inserts: a swapped batch counts as handed over, written or not.
- HTTP handlers, routing, command line, configuration, migrations and the web application.
