/** The fee formula: group a period's tallies by student, one line per enrollment,
    one invoice per student (billing/calculator.go). */
module InvoiceCalculator {
  import opened Ids

  type StudentId = nat
  type EnrollmentId = nat

  datatype Tally = Tally(
    enrollment: EnrollmentId, student: StudentId,
    className: string, classStart: int,
    unitPrice: int, billable: nat, absent: nat)

  datatype Line = Line(
    enrollment: EnrollmentId, className: string,
    unitPrice: int, billable: nat, absent: nat, amount: int)

  datatype Computed = Computed(
    student: StudentId, lines: seq<Line>,
    opening: int, charge: int, adjustments: int, totalDue: int)

  // ----- line order -------------------------------------------------------

  predicate NameLess(a: string, b: string) {
    if |b| == 0 then false
    else if |a| == 0 then true
    else if a[0] != b[0] then a[0] < b[0]
    else NameLess(a[1..], b[1..])
  }

  /** The comparison handed to the stable sort: start date, then class name. */
  predicate Precedes(a: Tally, b: Tally) {
    if a.classStart != b.classStart then a.classStart < b.classStart
    else NameLess(a.className, b.className)
  }

  lemma {:induction false} NameOrder(a: string, b: string, c: string)
    ensures !(NameLess(a, b) && NameLess(b, a))
    ensures !NameLess(a, b) && !NameLess(b, a) ==> a == b
    ensures NameLess(a, b) && NameLess(b, c) ==> NameLess(a, c)
    decreases |a| + |b| + |c|
  {
    if |a| > 0 && |b| > 0 && |c| > 0 {
      NameOrder(a[1..], b[1..], c[1..]);
      assert a == [a[0]] + a[1..] && b == [b[0]] + b[1..];
    } else if |a| > 0 && |b| > 0 {
      NameOrder(a[1..], b[1..], c);
      assert a == [a[0]] + a[1..] && b == [b[0]] + b[1..];
    }
  }

  /** Inserts t after every row it does not strictly precede. */
  function Insert(sorted: seq<Tally>, t: Tally): (r: seq<Tally>)
    ensures multiset(r) == multiset(sorted) + multiset{t}
  {
    var n := |sorted|;
    if n == 0 then [t]
    else if Precedes(t, sorted[n-1]) then
      assert sorted == sorted[..n-1] + [sorted[n-1]];
      Insert(sorted[..n-1], t) + [sorted[n-1]]
    else sorted + [t]
  }

  function StableSort(ts: seq<Tally>): (r: seq<Tally>)
    ensures multiset(r) == multiset(ts)
  {
    var n := |ts|;
    if n == 0 then []
    else
      assert ts == ts[..n-1] + [ts[n-1]];
      Insert(StableSort(ts[..n-1]), ts[n-1])
  }

  ghost predicate Sorted(r: seq<Tally>) {
    forall i, j :: 0 <= i < j < |r| ==> !Precedes(r[j], r[i])
  }

  lemma {:induction false} InsertSorted(sorted: seq<Tally>, t: Tally)
    requires Sorted(sorted)
    ensures Sorted(Insert(sorted, t))
  {
    var n := |sorted|;
    if n == 0 {
    } else if Precedes(t, sorted[n-1]) {
      InsertSorted(sorted[..n-1], t);
      var r := Insert(sorted[..n-1], t);
      forall i | 0 <= i < |r| ensures !Precedes(sorted[n-1], r[i]) {
        var x := r[i];
        assert x in multiset(r);
        if x == t {
          NameOrder(t.className, sorted[n-1].className, t.className);
        } else {
          assert x in multiset(sorted[..n-1]);
          assert x in sorted[..n-1];
        }
      }
    } else {
      forall i | 0 <= i < n ensures !Precedes(t, sorted[i]) {
        if i < n - 1 && Precedes(t, sorted[i]) {
          // t < sorted[i] <= sorted[n-1] would give t < sorted[n-1].
          NameOrder(t.className, sorted[i].className, sorted[n-1].className);
          NameOrder(sorted[i].className, sorted[n-1].className, t.className);
          assert false;
        }
      }
    }
  }

  predicate Ties(a: Tally, b: Tally) {
    a.classStart == b.classStart && a.className == b.className
  }

  /** The rows of q that tie with k, in order. */
  function Tied(q: seq<Tally>, k: Tally): seq<Tally> {
    var n := |q|;
    if n == 0 then []
    else if Ties(q[n-1], k) then Tied(q[..n-1], k) + [q[n-1]]
    else Tied(q[..n-1], k)
  }

  lemma TiedSnoc(q: seq<Tally>, t: Tally, k: Tally)
    ensures Tied(q + [t], k) == if Ties(t, k) then Tied(q, k) + [t] else Tied(q, k)
  {
    assert (q + [t])[..|q|] == q;
  }

  lemma {:induction false} InsertKeepsTies(sorted: seq<Tally>, t: Tally, k: Tally)
    ensures Tied(Insert(sorted, t), k) == Tied(sorted + [t], k)
  {
    var n := |sorted|;
    TiedSnoc(sorted, t, k);
    if n == 0 {
      assert sorted + [t] == [t];
    } else if Precedes(t, sorted[n-1]) {
      var last := sorted[n-1];
      InsertKeepsTies(sorted[..n-1], t, k);
      TiedSnoc(sorted[..n-1], t, k);
      TiedSnoc(Insert(sorted[..n-1], t), last, k);
      assert !Ties(t, k) || !Ties(last, k) by {
        NameOrder(t.className, last.className, t.className);
      }
    }
  }

  lemma {:induction false} StableSortSorts(ts: seq<Tally>)
    ensures Sorted(StableSort(ts))
  {
    var n := |ts|;
    if n == 0 {
    } else {
      StableSortSorts(ts[..n-1]);
      InsertSorted(StableSort(ts[..n-1]), ts[n-1]);
    }
  }

  /** The sort moves no row past one it ties with. */
  lemma {:induction false} StableSortKeepsTies(ts: seq<Tally>, k: Tally)
    ensures Tied(StableSort(ts), k) == Tied(ts, k)
  {
    var n := |ts|;
    if n == 0 {
    } else {
      StableSortKeepsTies(ts[..n-1], k);
      InsertKeepsTies(StableSort(ts[..n-1]), ts[n-1], k);
      TiedSnoc(StableSort(ts[..n-1]), ts[n-1], k);
    }
  }

  // ----- specification ----------------------------------------------------

  function LineOf(t: Tally): Line {
    Line(t.enrollment, t.className, t.unitPrice, t.billable, t.absent, t.billable * t.unitPrice)
  }

  function LinesOf(ts: seq<Tally>): (r: seq<Line>)
    ensures |r| == |ts|
    ensures forall i :: 0 <= i < |ts| ==> r[i] == LineOf(ts[i])
  {
    seq(|ts|, i requires 0 <= i < |ts| => LineOf(ts[i]))
  }

  function SumAmounts(lines: seq<Line>): int {
    var n := |lines|;
    if n == 0 then 0 else SumAmounts(lines[..n-1]) + lines[n-1].amount
  }

  function TalliesOf(ts: seq<Tally>, s: StudentId): seq<Tally> {
    var n := |ts|;
    if n == 0 then []
    else if ts[n-1].student == s then TalliesOf(ts[..n-1], s) + [ts[n-1]]
    else TalliesOf(ts[..n-1], s)
  }

  /** Students in order of first appearance. */
  function StudentsInOrder(ts: seq<Tally>): (r: seq<StudentId>)
    ensures Distinct(r)
  {
    var n := |ts|;
    if n == 0 then []
    else
      var before := StudentsInOrder(ts[..n-1]);
      if ts[n-1].student in before then before else before + [ts[n-1].student]
  }

  lemma {:induction false} StudentsInOrderAre(ts: seq<Tally>)
    ensures forall t :: t in ts ==> t.student in StudentsInOrder(ts)
    ensures forall s :: s in StudentsInOrder(ts) ==> exists t :: t in ts && t.student == s
  {
    var n := |ts|;
    if n == 0 {
    } else {
      StudentsInOrderAre(ts[..n-1]);
      forall s | s in StudentsInOrder(ts) ensures exists t :: t in ts && t.student == s {
        if s == ts[n-1].student {
          assert ts[n-1] in ts;
        } else {
          assert s in StudentsInOrder(ts[..n-1]);
          var t :| t in ts[..n-1] && t.student == s;
          assert t in ts;
        }
      }
      forall t | t in ts ensures t.student in StudentsInOrder(ts) {
        if t != ts[n-1] { assert t in ts[..n-1]; }
      }
    }
  }

  function Extras(ts: seq<Tally>, opening: map<StudentId, int>, adjustments: map<StudentId, int>): set<StudentId> {
    set s | s in opening.Keys + adjustments.Keys && s !in StudentsInOrder(ts)
  }

  function BillingOrder(ts: seq<Tally>, opening: map<StudentId, int>,
      adjustments: map<StudentId, int>): (r: seq<StudentId>)
    ensures Distinct(r)
  {
    var extra := SortedIds(Extras(ts, opening, adjustments));
    DistinctConcat(StudentsInOrder(ts), extra);
    StudentsInOrder(ts) + extra
  }

  lemma BillingOrderMembers(ts: seq<Tally>, opening: map<StudentId, int>, adjustments: map<StudentId, int>,
      s: StudentId)
    ensures s in BillingOrder(ts, opening, adjustments) <==>
      s in StudentsInOrder(ts) || s in opening || s in adjustments
  {
    assert s in SortedIds(Extras(ts, opening, adjustments)) <==> s in Extras(ts, opening, adjustments);
  }

  lemma {:induction false} NoTallies(ts: seq<Tally>, s: StudentId)
    requires s !in StudentsInOrder(ts)
    ensures TalliesOf(ts, s) == []
  {
    var n := |ts|;
    if n == 0 {
    } else {
      assert ts[n-1].student in StudentsInOrder(ts);
      NoTallies(ts[..n-1], s);
    }
  }

  function OrZero(m: map<StudentId, int>, s: StudentId): int {
    if s in m then m[s] else 0
  }

  function InvoiceFor(ts: seq<Tally>, opening: map<StudentId, int>, adjustments: map<StudentId, int>,
      s: StudentId): Computed {
    var lines := LinesOf(StableSort(TalliesOf(ts, s)));
    var charge := SumAmounts(lines);
    Computed(s, lines, OrZero(opening, s), charge, OrZero(adjustments, s),
             OrZero(opening, s) + charge + OrZero(adjustments, s))
  }

  function ComputeAll(ts: seq<Tally>, opening: map<StudentId, int>,
      adjustments: map<StudentId, int>): (out: seq<Computed>)
    ensures |out| == |BillingOrder(ts, opening, adjustments)|
    ensures forall i :: 0 <= i < |out| ==>
      out[i] == InvoiceFor(ts, opening, adjustments, BillingOrder(ts, opening, adjustments)[i])
  {
    var order := BillingOrder(ts, opening, adjustments);
    seq(|order|, i requires 0 <= i < |order| => InvoiceFor(ts, opening, adjustments, order[i]))
  }

  // ----- the loops of Compute ---------------------------------------------

  /** First loop: one builder per student, in order of first appearance. */
  method GroupByStudent(ts: seq<Tally>) returns (builders: map<StudentId, seq<Tally>>, order: seq<StudentId>)
    ensures order == StudentsInOrder(ts)
    ensures builders.Keys == set s | s in order
    ensures forall s :: s in builders ==> builders[s] == TalliesOf(ts, s)
    ensures forall s :: s !in builders ==> TalliesOf(ts, s) == []
  {
    builders, order := map[], [];
    for i := 0 to |ts|
      invariant order == StudentsInOrder(ts[..i])
      invariant builders.Keys == set s | s in order
      invariant forall s :: s in builders ==> builders[s] == TalliesOf(ts[..i], s)
    {
      assert ts[..i+1][..i] == ts[..i];
      var t := ts[i];
      if t.student !in builders {
        NoTallies(ts[..i], t.student);
        builders := builders[t.student := []];
        order := order + [t.student];
      }
      builders := builders[t.student := builders[t.student] + [t]];
    }
    assert ts[..|ts|] == ts;
    forall s | s !in builders ensures TalliesOf(ts, s) == [] { NoTallies(ts, s); }
  }

  /** Second loop: students known only from a carried balance or an adjustment. */
  method CollectExtras(tallied: set<StudentId>, opening: map<StudentId, int>, adjustments: map<StudentId, int>)
    returns (extra: set<StudentId>)
    ensures extra == (opening.Keys + adjustments.Keys) - tallied
  {
    extra := {};
    var pending := opening.Keys + adjustments.Keys;
    while pending != {}
      invariant pending <= opening.Keys + adjustments.Keys
      invariant extra == (opening.Keys + adjustments.Keys) - pending - tallied
      decreases |pending|
    {
      var id :| id in pending;
      pending := pending - {id};
      if id !in tallied { extra := extra + {id}; }
    }
  }

  /** Third loop: one line per tally, charge accumulated on the way. */
  method BuildLines(sorted: seq<Tally>) returns (lines: seq<Line>, charge: int)
    ensures lines == LinesOf(sorted)
    ensures charge == SumAmounts(lines)
  {
    lines, charge := [], 0;
    for j := 0 to |sorted|
      invariant |lines| == j
      invariant forall k :: 0 <= k < j ==> lines[k] == LineOf(sorted[k])
      invariant charge == SumAmounts(lines)
    {
      var line := LineOf(sorted[j]);
      assert (lines + [line])[..j] == lines;
      lines := lines + [line];
      charge := charge + line.amount;
    }
    assert lines == LinesOf(sorted);
  }

  lemma ComputeAllIs(ts: seq<Tally>, opening: map<StudentId, int>, adjustments: map<StudentId, int>, out: seq<Computed>)
    requires |out| == |BillingOrder(ts, opening, adjustments)|
    requires forall i :: 0 <= i < |out| ==>
      out[i] == InvoiceFor(ts, opening, adjustments, BillingOrder(ts, opening, adjustments)[i])
    ensures out == ComputeAll(ts, opening, adjustments)
  {
  }

  method BuildInvoice(ghost ts: seq<Tally>, mine: seq<Tally>, opening: map<StudentId, int>,
      adjustments: map<StudentId, int>, s: StudentId)
    returns (inv: Computed)
    requires mine == TalliesOf(ts, s)
    ensures inv == InvoiceFor(ts, opening, adjustments, s)
  {
    var lines, charge := BuildLines(StableSort(mine));
    var openingBalance := OrZero(opening, s);
    var adjustmentTotal := OrZero(adjustments, s);
    inv := Computed(s, lines, openingBalance, charge, adjustmentTotal, openingBalance + charge + adjustmentTotal);
  }

  lemma ExtrasAre(ts: seq<Tally>, tallied: set<StudentId>, opening: map<StudentId, int>,
      adjustments: map<StudentId, int>)
    requires tallied == set s | s in StudentsInOrder(ts)
    ensures (opening.Keys + adjustments.Keys) - tallied == Extras(ts, opening, adjustments)
  {
  }

  method Compute(ts: seq<Tally>, opening: map<StudentId, int>, adjustments: map<StudentId, int>)
    returns (out: seq<Computed>)
    ensures out == ComputeAll(ts, opening, adjustments)
  {
    var builders, tallied := GroupByStudent(ts);
    var extra := CollectExtras(builders.Keys, opening, adjustments);
    ExtrasAre(ts, builders.Keys, opening, adjustments);
    var order := tallied + SortedIds(extra);
    out := BuildAll(ts, builders, order, opening, adjustments);
    ComputeAllIs(ts, opening, adjustments, out);
  }

  method BuildAll(ghost ts: seq<Tally>, builders: map<StudentId, seq<Tally>>, order: seq<StudentId>,
                  opening: map<StudentId, int>, adjustments: map<StudentId, int>)
    returns (out: seq<Computed>)
    requires forall s :: s in builders ==> builders[s] == TalliesOf(ts, s)
    requires forall s :: s !in builders ==> TalliesOf(ts, s) == []
    ensures |out| == |order|
    ensures forall k :: 0 <= k < |order| ==> out[k] == InvoiceFor(ts, opening, adjustments, order[k])
  {
    out := [];
    for i := 0 to |order|
      invariant |out| == i
      invariant forall k :: 0 <= k < i ==> out[k] == InvoiceFor(ts, opening, adjustments, order[k])
    {
      var s := order[i];
      var mine := if s in builders then builders[s] else [];
      var inv := BuildInvoice(ts, mine, opening, adjustments, s);
      out := out + [inv];
    }
  }
}
