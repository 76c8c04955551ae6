/** Billing periods are calendar months. The ledger names a month by its index
    12 * year + month - 1; this module ties that index to dates. */
module Calendar {

  datatype Date = Date(year: nat, month: nat, day: nat)

  predicate Leap(year: nat) {
    year % 4 == 0 && (year % 100 != 0 || year % 400 == 0)
  }

  function DaysIn(year: nat, month: nat): (d: nat)
    ensures 28 <= d <= 31
  {
    if month == 2 then (if Leap(year) then 29 else 28)
    else if month in {4, 6, 9, 11} then 30
    else 31
  }

  predicate Valid(d: Date) {
    1 <= d.month <= 12 && 1 <= d.day <= DaysIn(d.year, d.month)
  }

  predicate Before(a: Date, b: Date) {
    a.year < b.year
    || (a.year == b.year && a.month < b.month)
    || (a.year == b.year && a.month == b.month && a.day < b.day)
  }

  function MonthIndex(year: nat, month: nat): nat
    requires 1 <= month
  {
    12 * year + (month - 1)
  }

  function PeriodStart(year: nat, month: nat): Date { Date(year, month, 1) }
  function PeriodEnd(year: nat, month: nat): Date { Date(year, month, DaysIn(year, month)) }

  /** December rolls into January of the next year. */
  function NextCalendarMonth(year: nat, month: nat): (nat, nat) {
    if month + 1 > 12 then (year + 1, 1) else (year, month + 1)
  }

  lemma NextMonthIsNextIndex(year: nat, month: nat)
    requires 1 <= month <= 12
    ensures var (y, m) := NextCalendarMonth(year, month);
      1 <= m <= 12 && MonthIndex(y, m) == MonthIndex(year, month) + 1
  {
  }

  /** A date falls inside a period exactly when the month indexes agree. */
  lemma InsidePeriodIffSameIndex(d: Date, year: nat, month: nat)
    requires Valid(d) && 1 <= month <= 12
    ensures (!Before(d, PeriodStart(year, month)) && !Before(PeriodEnd(year, month), d)) <==>
      MonthIndex(d.year, d.month) == MonthIndex(year, month)
  {
  }

  /** A period starts after another one's end exactly when its index is larger. */
  lemma StartsAfterIffLargerIndex(y1: nat, m1: nat, y2: nat, m2: nat)
    requires 1 <= m1 <= 12 && 1 <= m2 <= 12
    ensures Before(PeriodEnd(y1, m1), PeriodStart(y2, m2)) <==> MonthIndex(y1, m1) < MonthIndex(y2, m2)
  {
  }

  // ----- dates as numbers -------------------------------------------------

  /** The date written yyyymmdd; the order of dates is the order of these numbers. */
  function Code(d: Date): int { 10000 * d.year + 100 * d.month + d.day }

  ghost predicate IsDate(code: int) { exists d: Date :: Valid(d) && Code(d) == code }

  function MonthOf(code: int): nat {
    if code < 0 || code / 100 % 100 == 0 then 0 else MonthIndex(code / 10000, code / 100 % 100)
  }

  lemma CodeOrder(a: Date, b: Date)
    requires Valid(a) && Valid(b)
    ensures Before(a, b) <==> Code(a) < Code(b)
  {
  }

  lemma MonthOfCode(d: Date)
    requires Valid(d)
    ensures MonthOf(Code(d)) == MonthIndex(d.year, d.month)
  {
    assert Code(d) / 100 == 100 * d.year + d.month;
    assert Code(d) / 10000 == d.year;
  }

  /** A date lies within a period's first and last day exactly when its month is the period's. */
  lemma PeriodIsItsMonth(code: int, year: nat, month: nat)
    requires IsDate(code) && 1 <= month <= 12
    ensures Code(PeriodStart(year, month)) <= code <= Code(PeriodEnd(year, month)) <==>
      MonthOf(code) == MonthIndex(year, month)
  {
    var d: Date :| Valid(d) && Code(d) == code;
    MonthOfCode(d);
    CodeOrder(d, PeriodStart(year, month));
    CodeOrder(PeriodEnd(year, month), d);
    InsidePeriodIffSameIndex(d, year, month);
  }
}
