/** The ledger's counts are numbers of sessions. */
module LessonCounts {
  import opened Options
  import opened InvoiceCalculator
  import opened Ledgers

  /** The month's sessions whose sheet records the student under the enrollment, absent if so asked. */
  function Lessons(ss: seq<Session>, st: StudentId, e: EnrollmentId, m: Month, missedOnly: bool): set<nat> {
    set k: nat | k < |ss| && IsLesson(ss[k], st, e, m, missedOnly)
  }

  predicate IsLesson(x: Session, st: StudentId, e: EnrollmentId, m: Month, missedOnly: bool) {
    x.month == m && st in x.sheet && x.sheet[st].enrollment == e && (missedOnly ==> x.sheet[st].absent)
  }

  lemma {:induction false} CountsLessons(ss: seq<Session>, st: StudentId, e: EnrollmentId, m: Month)
    ensures BillableCount(ss, st, e, m) == |Lessons(ss, st, e, m, false)|
    ensures AbsentCount(ss, st, e, m) == |Lessons(ss, st, e, m, true)|
  {
    if ss == [] {
    } else {
      CountsLessons(ss[..|ss|-1], st, e, m);
      LastLesson(ss, st, e, m, false);
      LastLesson(ss, st, e, m, true);
    }
  }

  lemma LastLesson(ss: seq<Session>, st: StudentId, e: EnrollmentId, m: Month, missedOnly: bool)
    requires ss != []
    ensures |Lessons(ss, st, e, m, missedOnly)| ==
      |Lessons(ss[..|ss|-1], st, e, m, missedOnly)| + if IsLesson(ss[|ss|-1], st, e, m, missedOnly) then 1 else 0
  {
    var n: nat := |ss| - 1;
    assert Lessons(ss, st, e, m, missedOnly) ==
      Lessons(ss[..n], st, e, m, missedOnly) + if IsLesson(ss[n], st, e, m, missedOnly) then {n} else {};
  }
}
