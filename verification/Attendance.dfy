/** Confirming a session's attendance: one call sets the whole sheet. A record's id is its row
    index; rows are updated in place, soft-deleted, or appended. */
module Attendance {
  import opened Options
  import opened Ids

  type StudentId = nat
  type EnrollmentId = nat
  type SessionId = nat
  type TeacherId = nat

  datatype Status = Present | Late | Absent | Excused

  datatype Record = Record(
    session: SessionId, student: StudentId, enrollment: EnrollmentId, status: Status, billable: bool,
    recorder: TeacherId, recordedAt: int, updatedAt: int, deleted: bool)

  datatype SessionStatus = Scheduled | Held | Cancelled

  datatype Session = Session(date: int, status: SessionStatus, confirmedAt: Option<int>)

  datatype Entry = Entry(enrollment: EnrollmentId, student: StudentId)   // one roster row

  datatype MarkRequest = MarkRequest(student: StudentId, status: string)

  datatype Request = Request(marks: seq<MarkRequest>, absentIds: seq<StudentId>)

  datatype State = State(sessions: seq<Session>, records: seq<Record>)

  datatype Error =
    | SessionNotFound | SessionCancelled | BothShapes | BadStatus | DuplicateMark
    | NotEnrolled(students: seq<StudentId>) | RosterConflict

  datatype Result<+T> = Ok(value: T) | Err(error: Error)

  type Marks = map<StudentId, Status>

  // ----- resolving the request against the roster -------------------------

  function ParseStatus(s: string): Option<Status> {
    if s == "late" then Some(Late)
    else if s == "absent" then Some(Absent)
    else if s == "excused" then Some(Excused)
    else None
  }

  function StudentsOf(roster: seq<Entry>): set<StudentId> { set e | e in roster :: e.student }

  /** Where the scan of the request stands. */
  datatype Scan = Scan(out: Marks, seen: set<StudentId>, unknown: seq<StudentId>) | Failed(error: Error)

  function ScanMark(s: Scan, m: MarkRequest, enrolled: set<StudentId>): Scan {
    if s.Failed? then s
    else if ParseStatus(m.status).None? then Failed(BadStatus)
    else if m.student in s.seen then Failed(DuplicateMark)
    else if m.student !in enrolled then s.(seen := s.seen + {m.student}, unknown := s.unknown + [m.student])
    else s.(seen := s.seen + {m.student}, out := s.out[m.student := ParseStatus(m.status).value])
  }

  function ScanMarks(marks: seq<MarkRequest>, enrolled: set<StudentId>): Scan {
    if marks == [] then Scan(map[], {}, [])
    else ScanMark(ScanMarks(marks[..|marks|-1], enrolled), marks[|marks|-1], enrolled)
  }

  function ScanAbsent(ids: seq<StudentId>, enrolled: set<StudentId>): Scan
    ensures ScanAbsent(ids, enrolled).Scan?
  {
    if ids == [] then Scan(map[], {}, [])
    else
      var s, id := ScanAbsent(ids[..|ids|-1], enrolled), ids[|ids|-1];
      if id in s.seen then s
      else if id !in enrolled then s.(seen := s.seen + {id}, unknown := s.unknown + [id])
      else s.(seen := s.seen + {id}, out := s.out[id := Absent])
  }

  function Conclude(s: Scan): Result<Marks> {
    if s.Failed? then Err(s.error) else if s.unknown != [] then Err(NotEnrolled(s.unknown)) else Ok(s.out)
  }

  function ResolveMarks(req: Request, enrolled: set<StudentId>): Result<Marks> {
    if req.marks != [] && req.absentIds != [] then Err(BothShapes)
    else if req.marks != [] then Conclude(ScanMarks(req.marks, enrolled))
    else Conclude(ScanAbsent(req.absentIds, enrolled))
  }

  method ResolveRequest(req: Request, roster: seq<Entry>) returns (r: Result<Marks>)
    ensures r == ResolveMarks(req, StudentsOf(roster))
  {
    if |req.marks| > 0 && |req.absentIds| > 0 { return Err(BothShapes); }
    var enrolled := StudentsOf(roster);
    var out: Marks, seen: set<StudentId>, unknown: seq<StudentId> := map[], {}, [];
    if |req.marks| > 0 {
      for i := 0 to |req.marks|
        invariant ScanMarks(req.marks[..i], enrolled) == Scan(out, seen, unknown)
      {
        assert req.marks[..i+1][..i] == req.marks[..i];
        var m := req.marks[i];
        if ParseStatus(m.status).None? || m.student in seen {
          FailureSticks(req.marks, i + 1, enrolled);
          return Err(if ParseStatus(m.status).None? then BadStatus else DuplicateMark);
        }
        seen := seen + {m.student};
        if m.student !in enrolled { unknown := unknown + [m.student]; }
        else { out := out[m.student := ParseStatus(m.status).value]; }
      }
      assert req.marks[..|req.marks|] == req.marks;
    } else {
      for i := 0 to |req.absentIds|
        invariant ScanAbsent(req.absentIds[..i], enrolled) == Scan(out, seen, unknown)
      {
        assert req.absentIds[..i+1][..i] == req.absentIds[..i];
        var id := req.absentIds[i];
        if id !in seen {
          seen := seen + {id};
          if id !in enrolled { unknown := unknown + [id]; } else { out := out[id := Absent]; }
        }
      }
      assert req.absentIds[..|req.absentIds|] == req.absentIds;
    }
    return if unknown != [] then Err(NotEnrolled(unknown)) else Ok(out);
  }

  lemma {:induction false} FailureSticks(marks: seq<MarkRequest>, n: nat, enrolled: set<StudentId>)
    requires n <= |marks| && ScanMarks(marks[..n], enrolled).Failed?
    ensures ScanMarks(marks, enrolled) == ScanMarks(marks[..n], enrolled)
    decreases |marks|
  {
    if n < |marks| {
      assert marks[..|marks|-1][..n] == marks[..n];
      FailureSticks(marks[..|marks|-1], n, enrolled);
    } else {
      assert marks[..n] == marks;
    }
  }

  ghost predicate GoodMarks(marks: seq<MarkRequest>) {
    && (forall i :: 0 <= i < |marks| ==> ParseStatus(marks[i].status).Some?)
    && (forall i, j :: 0 <= i < j < |marks| ==> marks[i].student != marks[j].student)
  }

  ghost predicate Marked(marks: seq<MarkRequest>,
      st: StudentId) { exists i :: 0 <= i < |marks| && marks[i].student == st }

  lemma {:induction false} ScanSeen(marks: seq<MarkRequest>, enrolled: set<StudentId>, st: StudentId)
    requires ScanMarks(marks, enrolled).Scan?
    ensures st in ScanMarks(marks, enrolled).seen <==> Marked(marks, st)
  {
    if marks == [] {
    } else {
      var before, last := marks[..|marks|-1], marks[|marks|-1];
      ScanSeen(before, enrolled, st);
      if Marked(before, st) {
        var i :| 0 <= i < |before| && before[i].student == st;
        assert marks[i] == before[i];
      }
      if Marked(marks, st) && st != last.student {
        var i :| 0 <= i < |marks| && marks[i].student == st;
        assert before[i] == marks[i];
      }
    }
  }

  lemma {:induction false} ScanGood(marks: seq<MarkRequest>, enrolled: set<StudentId>)
    ensures ScanMarks(marks, enrolled).Scan? <==> GoodMarks(marks)
  {
    if marks == [] {
    } else {
      var before, last := marks[..|marks|-1], marks[|marks|-1];
      ScanGood(before, enrolled);
      if ScanMarks(before, enrolled).Scan? {
        ScanSeen(before, enrolled, last.student);
        if Marked(before, last.student) {
          var i :| 0 <= i < |before| && before[i].student == last.student;
          assert marks[i].student == marks[|marks|-1].student;
        } else {
          forall i | 0 <= i < |before| ensures marks[i].student != last.student { assert before[i] == marks[i]; }
        }
      }
    }
  }

  lemma {:induction false} ScanOut(marks: seq<MarkRequest>, enrolled: set<StudentId>, i: nat)
    requires i < |marks| && ScanMarks(marks, enrolled).Scan? && marks[i].student in enrolled
    ensures marks[i].student in ScanMarks(marks, enrolled).out
    ensures Some(ScanMarks(marks, enrolled).out[marks[i].student]) == ParseStatus(marks[i].status)
  {
    if i < |marks|-1 {
      var before := marks[..|marks|-1];
      assert before[i] == marks[i];
      ScanOut(before, enrolled, i);
      ScanSeen(before, enrolled, marks[i].student);
    }
  }

  lemma {:induction false} ScanUnknown(marks: seq<MarkRequest>, enrolled: set<StudentId>)
    requires ScanMarks(marks, enrolled).Scan?
    ensures ScanMarks(marks, enrolled).unknown == [] <==> forall i :: 0 <= i < |marks| ==> marks[i].student in enrolled
  {
    if marks == [] {
    } else {
      var before := marks[..|marks|-1];
      ScanUnknown(before, enrolled);
      assert forall i :: 0 <= i < |before| ==> before[i] == marks[i];
    }
  }

  /** Explicit marks are accepted exactly when every status is late, absent or excused, no student
      appears twice and every student is on the roster; the result is then those marks. */
  lemma MarksAcceptedIff(req: Request, enrolled: set<StudentId>)
    requires req.marks != [] && req.absentIds == []
    ensures ResolveMarks(req, enrolled).Ok? <==>
      GoodMarks(req.marks) && forall i :: 0 <= i < |req.marks| ==> req.marks[i].student in enrolled
    ensures ResolveMarks(req, enrolled).Ok? ==>
      forall i :: 0 <= i < |req.marks| ==>
        req.marks[i].student in ResolveMarks(req, enrolled).value
        && Some(ResolveMarks(req, enrolled).value[req.marks[i].student]) == ParseStatus(req.marks[i].status)
  {
    ScanGood(req.marks, enrolled);
    if GoodMarks(req.marks) {
      ScanUnknown(req.marks, enrolled);
      forall i | 0 <= i < |req.marks| && req.marks[i].student in enrolled
        ensures req.marks[i].student in ScanMarks(req.marks, enrolled).out
                && Some(ScanMarks(req.marks, enrolled).out[req.marks[i].student]) == ParseStatus(req.marks[i].status)
      {
        ScanOut(req.marks, enrolled, i);
      }
    }
  }

  lemma {:induction false} ScanAbsentFacts(ids: seq<StudentId>, enrolled: set<StudentId>, x: StudentId)
    ensures var s := ScanAbsent(ids, enrolled);
      && (x in s.seen <==> x in ids)
      && (x in s.out <==> x in ids && x in enrolled) && (x in s.out ==> s.out[x] == Absent)
      && (x in s.unknown <==> x in ids && x !in enrolled)
  {
    if ids == [] {
    } else {
      var before := ids[..|ids|-1];
      ScanAbsentFacts(before, enrolled, x);
      assert ids == before + [ids[|ids|-1]];
    }
  }

  /** The legacy list collapses duplicates: it is accepted exactly when every listed student is on
      the roster, and marks exactly the listed students absent. */
  lemma AbsentListAcceptedIff(req: Request, enrolled: set<StudentId>)
    requires req.marks == []
    ensures ResolveMarks(req, enrolled).Ok? <==> forall x :: x in req.absentIds ==> x in enrolled
    ensures ResolveMarks(req, enrolled).Ok? ==>
      ResolveMarks(req, enrolled).value == map x | x in req.absentIds :: Absent
  {
    var s := ScanAbsent(req.absentIds, enrolled);
    forall x | true ensures (x in s.out <==> x in req.absentIds && x in enrolled) && (x in s.out ==> s.out[x] == Absent)
      && (x in s.unknown <==> x in req.absentIds && x !in enrolled)
    {
      ScanAbsentFacts(req.absentIds, enrolled, x);
    }
    if s.unknown != [] { assert s.unknown[0] in s.unknown; }
    else { assert forall x :: x in req.absentIds ==> x in s.unknown || x in enrolled; }
  }
}
