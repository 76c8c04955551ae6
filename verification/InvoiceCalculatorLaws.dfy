/** What the fee formula promises, whatever order the tally rows arrive in. */
module InvoiceCalculatorLaws {
  import opened Ids
  import opened InvoiceCalculator

  function Fee(t: Tally): int { t.billable * t.unitPrice }

  function Fees(ts: seq<Tally>): int {
    var n := |ts|;
    if n == 0 then 0 else Fees(ts[..n-1]) + Fee(ts[n-1])
  }

  lemma {:induction false} SumOfLines(ts: seq<Tally>)
    ensures SumAmounts(LinesOf(ts)) == Fees(ts)
  {
    var n := |ts|;
    if n == 0 {
    } else {
      SumOfLines(ts[..n-1]);
      assert LinesOf(ts)[..n-1] == LinesOf(ts[..n-1]);
    }
  }

  lemma {:induction false} FeesRemove(ts: seq<Tally>, k: nat)
    requires k < |ts|
    ensures Fees(ts) == Fees(ts[..k] + ts[k+1..]) + Fee(ts[k])
  {
    var n := |ts|;
    var rest := ts[..k] + ts[k+1..];
    if k == n - 1 {
      assert rest == ts[..n-1];
    } else {
      FeesRemove(ts[..n-1], k);
      assert rest[..n-2] == ts[..n-1][..k] + ts[..n-1][k+1..];
      assert rest[n-2] == ts[n-1];
    }
  }

  lemma SameLastRow(a: seq<Tally>, b: seq<Tally>) returns (k: nat)
    requires multiset(a) == multiset(b) && |a| > 0
    ensures k < |b| && b[k] == a[|a|-1]
    ensures multiset(a[..|a|-1]) == multiset(b[..k] + b[k+1..])
  {
    var x := a[|a|-1];
    assert a == a[..|a|-1] + [x];
    assert x in multiset(b);
    k :| 0 <= k < |b| && b[k] == x;
    assert b == b[..k] + ([x] + b[k+1..]);
    assert multiset(b) == multiset(b[..k] + b[k+1..]) + multiset{x};
    assert multiset(a) == multiset(a[..|a|-1]) + multiset{x};
    assert multiset(a[..|a|-1]) == multiset(a) - multiset{x};
    assert multiset(b[..k] + b[k+1..]) == multiset(b) - multiset{x};
  }

  lemma {:induction false} FeesPermuted(a: seq<Tally>, b: seq<Tally>)
    requires multiset(a) == multiset(b)
    ensures Fees(a) == Fees(b)
    decreases |a|
  {
    if |a| == 0 {
      assert |multiset(b)| == |b|;
    } else {
      var k := SameLastRow(a, b);
      FeesRemove(b, k);
      FeesPermuted(a[..|a|-1], b[..k] + b[k+1..]);
    }
  }

  lemma {:induction false} TalliesOfCount(ts: seq<Tally>, s: StudentId, t: Tally)
    ensures multiset(TalliesOf(ts, s))[t] == if t.student == s then multiset(ts)[t] else 0
  {
    var n := |ts|;
    if n == 0 {
    } else {
      TalliesOfCount(ts[..n-1], s, t);
      assert ts == ts[..n-1] + [ts[n-1]];
    }
  }

  lemma TalliesOfPermuted(a: seq<Tally>, b: seq<Tally>, s: StudentId)
    requires multiset(a) == multiset(b)
    ensures multiset(TalliesOf(a, s)) == multiset(TalliesOf(b, s))
  {
    forall t ensures multiset(TalliesOf(a, s))[t] == multiset(TalliesOf(b, s))[t] {
      TalliesOfCount(a, s, t);
      TalliesOfCount(b, s, t);
    }
  }

  /** The charge is the sum of count times price over the student's own tallies. */
  lemma ChargeIsFees(ts: seq<Tally>, opening: map<StudentId, int>, adjustments: map<StudentId, int>, s: StudentId)
    ensures InvoiceFor(ts, opening, adjustments, s).charge == Fees(TalliesOf(ts, s))
  {
    var mine := TalliesOf(ts, s);
    SumOfLines(StableSort(mine));
    FeesPermuted(StableSort(mine), mine);
  }

  lemma SameStudents(a: seq<Tally>, b: seq<Tally>, s: StudentId)
    requires multiset(a) == multiset(b)
    ensures s in StudentsInOrder(a) ==> s in StudentsInOrder(b)
  {
    StudentsInOrderAre(a);
    StudentsInOrderAre(b);
    if s in StudentsInOrder(a) {
      var t :| t in a && t.student == s;
      assert t in multiset(b);
    }
  }

  /** Reordering the tally rows bills the same students the same amounts. */
  lemma ReorderingTalliesChangesNoAmount(
    a: seq<Tally>, b: seq<Tally>, opening: map<StudentId, int>, adjustments: map<StudentId, int>, s: StudentId)
    requires multiset(a) == multiset(b)
    ensures s in BillingOrder(a, opening, adjustments) <==> s in BillingOrder(b, opening, adjustments)
    ensures InvoiceFor(a, opening, adjustments, s).charge == InvoiceFor(b, opening, adjustments, s).charge
    ensures InvoiceFor(a, opening, adjustments, s).totalDue == InvoiceFor(b, opening, adjustments, s).totalDue
  {
    ChargeIsFees(a, opening, adjustments, s);
    ChargeIsFees(b, opening, adjustments, s);
    TalliesOfPermuted(a, b, s);
    FeesPermuted(TalliesOf(a, s), TalliesOf(b, s));
    SameStudents(a, b, s);
    SameStudents(b, a, s);
    BillingOrderMembers(a, opening, adjustments, s);
    BillingOrderMembers(b, opening, adjustments, s);
  }

  /** sorted is a stable sort of ts. */
  ghost predicate StablySorts(sorted: seq<Tally>, ts: seq<Tally>) {
    && multiset(sorted) == multiset(ts) && Sorted(sorted)
    && forall k: Tally :: Tied(sorted, k) == Tied(ts, k)
  }

  /** Every tally of a student becomes exactly one line of that student's invoice,
      in start-date then class-name order, ties in arrival order. */
  lemma LinesAreTheStudentsTallies(ts: seq<Tally>, opening: map<StudentId, int>, adjustments: map<StudentId, int>,
      s: StudentId)
    ensures exists sorted: seq<Tally> ::
      StablySorts(sorted, TalliesOf(ts, s)) && InvoiceFor(ts, opening, adjustments, s).lines == LinesOf(sorted)
  {
    var sorted := StableSort(TalliesOf(ts, s));
    StableSortSorts(TalliesOf(ts, s));
    forall k: Tally | true ensures Tied(sorted, k) == Tied(TalliesOf(ts, s), k) {
      StableSortKeepsTies(TalliesOf(ts, s), k);
    }
    assert StablySorts(sorted, TalliesOf(ts, s));
    assert InvoiceFor(ts, opening, adjustments, s).lines == LinesOf(sorted);
  }

  // ----- grand total ------------------------------------------------------

  function SumOver(order: seq<StudentId>, m: map<StudentId, int>): int {
    var n := |order|;
    if n == 0 then 0 else SumOver(order[..n-1], m) + OrZero(m, order[n-1])
  }

  function FeesOver(order: seq<StudentId>, ts: seq<Tally>): int {
    var n := |order|;
    if n == 0 then 0 else FeesOver(order[..n-1], ts) + Fees(TalliesOf(ts, order[n-1]))
  }

  function GrandTotal(out: seq<Computed>): int {
    var n := |out|;
    if n == 0 then 0 else GrandTotal(out[..n-1]) + out[n-1].totalDue
  }

  lemma TalliesOfSnoc(ts: seq<Tally>, t: Tally, s: StudentId)
    ensures TalliesOf(ts + [t], s) == if t.student == s then TalliesOf(ts, s) + [t] else TalliesOf(ts, s)
  {
    assert (ts + [t])[..|ts|] == ts;
  }

  lemma FeesSnoc(ts: seq<Tally>, t: Tally)
    ensures Fees(ts + [t]) == Fees(ts) + Fee(t)
  {
    assert (ts + [t])[..|ts|] == ts;
  }

  lemma FeesOfAdded(ts: seq<Tally>, t: Tally, s: StudentId)
    ensures Fees(TalliesOf(ts + [t], s)) == Fees(TalliesOf(ts, s)) + if t.student == s then Fee(t) else 0
  {
    TalliesOfSnoc(ts, t, s);
    FeesSnoc(TalliesOf(ts, s), t);
  }

  lemma {:induction false} FeesOverAdd(order: seq<StudentId>, ts: seq<Tally>, t: Tally)
    requires Distinct(order)
    ensures FeesOver(order, ts + [t]) == FeesOver(order, ts) + if t.student in order then Fee(t) else 0
  {
    var n := |order|;
    if n == 0 {
    } else {
      FeesOverAdd(order[..n-1], ts, t);
      FeesOfAdded(ts, t, order[n-1]);
      assert order == order[..n-1] + [order[n-1]];
    }
  }

  lemma {:induction false} FeesOverAll(order: seq<StudentId>, ts: seq<Tally>)
    requires Distinct(order)
    requires forall t :: t in ts ==> t.student in order
    ensures FeesOver(order, ts) == Fees(ts)
    decreases |ts|, |order|
  {
    var n := |ts|;
    if n == 0 {
      if |order| > 0 { FeesOverAll(order[..|order|-1], ts); }
    } else {
      assert ts == ts[..n-1] + [ts[n-1]];
      FeesOverAll(order, ts[..n-1]);
      FeesOverAdd(order, ts[..n-1], ts[n-1]);
      FeesSnoc(ts[..n-1], ts[n-1]);
    }
  }

  lemma {:induction false} GrandTotalOver(
    order: seq<StudentId>, ts: seq<Tally>, opening: map<StudentId, int>, adjustments: map<StudentId, int>,
      out: seq<Computed>)
    requires |out| == |order|
    requires forall i :: 0 <= i < |out| ==> out[i] == InvoiceFor(ts, opening, adjustments, order[i])
    ensures GrandTotal(out) == SumOver(order, opening) + FeesOver(order, ts) + SumOver(order, adjustments)
  {
    var n := |order|;
    if n == 0 {
    } else {
      GrandTotalOver(order[..n-1], ts, opening, adjustments, out[..n-1]);
      ChargeIsFees(ts, opening, adjustments, order[n-1]);
    }
  }

  /** One invoice for each student with a tally, a carried balance or an adjustment. */
  lemma ComputeBillsEveryoneOnce(ts: seq<Tally>, opening: map<StudentId, int>, adjustments: map<StudentId, int>,
      s: StudentId)
    ensures (exists i :: 0 <= i < |ComputeAll(ts, opening, adjustments)|
               && ComputeAll(ts, opening, adjustments)[i].student == s) <==>
            s in opening || s in adjustments || exists t :: t in ts && t.student == s
    ensures forall i, j :: 0 <= i < j < |ComputeAll(ts, opening, adjustments)| ==>
              ComputeAll(ts, opening, adjustments)[i].student != ComputeAll(ts, opening, adjustments)[j].student
  {
    var out := ComputeAll(ts, opening, adjustments);
    var order := BillingOrder(ts, opening, adjustments);
    assert forall i :: 0 <= i < |out| ==> out[i].student == order[i];
    BillingOrderMembers(ts, opening, adjustments, s);
    StudentsInOrderAre(ts);
    if s in order {
      var i :| 0 <= i < |order| && order[i] == s;
      assert out[i].student == s;
    }
  }

  /** The grand total is every carried balance plus every fee plus every adjustment. */
  lemma GrandTotalIsConserved(ts: seq<Tally>, opening: map<StudentId, int>, adjustments: map<StudentId, int>)
    ensures GrandTotal(ComputeAll(ts, opening, adjustments)) ==
      SumOver(BillingOrder(ts, opening, adjustments), opening)
      + Fees(ts)
      + SumOver(BillingOrder(ts, opening, adjustments), adjustments)
  {
    var order := BillingOrder(ts, opening, adjustments);
    GrandTotalOver(order, ts, opening, adjustments, ComputeAll(ts, opening, adjustments));
    forall t | t in ts ensures t.student in order {
      StudentsInOrderAre(ts);
      BillingOrderMembers(ts, opening, adjustments, t.student);
    }
    FeesOverAll(order, ts);
  }
}
