/** What one confirmation writes, read off the request, and which requests are refused how. */
module AttendanceOutcomes {
  import opened Options
  import opened Ids
  import opened Attendance
  import opened AttendanceSheet

  /** A mark of the request gives the student that status. */
  ghost predicate Gives(marks: seq<MarkRequest>, st: StudentId, status: string) {
    exists i :: 0 <= i < |marks| && marks[i] == MarkRequest(st, status)
  }

  /** What the request says of the student: present unless it names them. */
  ghost function Requested(req: Request, st: StudentId): Status {
    if Gives(req.marks, st, "late") then Late
    else if Gives(req.marks, st, "absent") || st in req.absentIds then Absent
    else if Gives(req.marks, st, "excused") then Excused
    else Present
  }

  lemma {:induction false} ScanKeepsMarked(marks: seq<MarkRequest>, enrolled: set<StudentId>, st: StudentId)
    requires ScanMarks(marks, enrolled).Scan? && st in ScanMarks(marks, enrolled).out
    ensures Marked(marks, st)
  {
    var before, last := marks[..|marks|-1], marks[|marks|-1];
    if last.student == st {
      assert marks[|marks|-1].student == st;
    } else {
      ScanKeepsMarked(before, enrolled, st);
      var i :| 0 <= i < |before| && before[i].student == st;
      assert marks[i] == before[i];
    }
  }

  /** The one mark that names the student decides the status. */
  lemma OneMark(marks: seq<MarkRequest>, i: nat, word: string)
    requires GoodMarks(marks) && i < |marks|
    ensures Gives(marks, marks[i].student, word) <==> marks[i].status == word
  {
    if marks[i].status == word { assert marks[i] == MarkRequest(marks[i].student, word); }
  }

  lemma MarkedStatus(req: Request, roster: seq<Entry>, i: nat)
    requires req.absentIds == [] && i < |req.marks| && ResolveMarks(req, StudentsOf(roster)).Ok?
    ensures StatusFor(MarksOf(req, roster), req.marks[i].student) == Requested(req, req.marks[i].student)
  {
    MarksAcceptedIff(req, StudentsOf(roster));
    OneMark(req.marks, i, "late");
    OneMark(req.marks, i, "absent");
    OneMark(req.marks, i, "excused");
  }

  /** The status written for a roster student is the requested one. */
  lemma StatusIsRequested(req: Request, roster: seq<Entry>, st: StudentId)
    requires ResolveMarks(req, StudentsOf(roster)).Ok?
    ensures StatusFor(MarksOf(req, roster), st) == Requested(req, st)
  {
    if req.marks == [] {
      AbsentListAcceptedIff(req, StudentsOf(roster));
    } else if Marked(req.marks, st) {
      var i :| 0 <= i < |req.marks| && req.marks[i].student == st;
      MarkedStatus(req, roster, i);
    } else if st in ScanMarks(req.marks, StudentsOf(roster)).out {
      ScanKeepsMarked(req.marks, StudentsOf(roster), st);
    }
  }

  /** The record is live and belongs to that session and student. */
  ghost predicate LiveRow(rs: seq<Record>, k: nat, sid: SessionId, st: StudentId) {
    k < |rs| && !rs[k].deleted && rs[k].session == sid && rs[k].student == st
  }

  /** After a confirmation each roster row has exactly one live record, with the requested status,
      billable, written now by the recorder; it keeps its row and its first time when there was one. */
  lemma ConfirmWritesTheRequest(s: State, sid: SessionId, req: Request, roster: seq<Entry>, recorder: TeacherId,
      now: int, after: State, e: Entry) returns (k: nat)
    requires Confirms(s, sid, req, roster, recorder, now, after) && e in roster
    ensures k < |after.records|
    ensures var first := if k < |s.records| then s.records[k].recordedAt else now;
      after.records[k] ==
        Record(sid, e.student, e.enrollment, Requested(req, e.student), true, recorder, first, now, false)
    ensures k < |s.records| ==> LiveRow(s.records, k, sid, e.student)
    ensures forall j: nat :: LiveRow(s.records, j, sid, e.student) ==> j == k
    ensures forall j: nat :: LiveRow(after.records, j, sid, e.student) ==> j == k
  {
    StatusIsRequested(req, roster, e.student);
    ConfirmKeepsUnique(s, sid, req, roster, recorder, now, after);
    EntryOfIts(roster, e);
    k := ExpectedRow(s, sid, req, roster, recorder, now, after, e);
    forall j: nat | LiveRow(s.records, j, sid, e.student) ensures j == k {
      OnlyLiveRow(s.records, sid, e.student, j);
    }
    forall j: nat | LiveRow(after.records, j, sid, e.student) ensures j == k {
      OnlyLiveRow(after.records, sid, e.student, j);
      OnlyLiveRow(after.records, sid, e.student, k);
    }
  }

  lemma EntryOfIts(roster: seq<Entry>, e: Entry)
    requires RosterDistinct(roster) && e in roster
    ensures EntryOf(roster, e.student) == Some(e)
  {
  }

  lemma OnlyLiveRow(rs: seq<Record>, sid: SessionId, st: StudentId, j: nat)
    requires LiveUnique(rs) && LiveRow(rs, j, sid, st)
    ensures FindLive(rs, sid, st) == Some(j)
  {
    assert Matches(rs[j], sid, st);
  }

  ghost predicate OnRoster(roster: seq<Entry>, st: StudentId) { exists e :: e in roster && e.student == st }

  /** What it leaves alone: rows of other sessions and dead rows. What it drops: live rows of the session
      whose students are off the roster. The session is held and confirmed now, with its date. */
  lemma ConfirmLeavesTheRest(s: State, sid: SessionId, req: Request, roster: seq<Entry>, recorder: TeacherId,
      now: int, after: State, i: nat)
    requires Confirms(s, sid, req, roster, recorder, now, after) && i < |s.records|
    ensures |after.records| >= |s.records|
    ensures s.records[i].deleted || s.records[i].session != sid ==> after.records[i] == s.records[i]
    ensures !s.records[i].deleted && s.records[i].session == sid && !OnRoster(roster, s.records[i].student) ==>
      after.records[i] == s.records[i].(deleted := true)
    ensures sid < |s.sessions| && s.sessions[sid].status != Cancelled
    ensures after.sessions == s.sessions[sid := Session(s.sessions[sid].date, Held, Some(now))]
  {
    ConfirmRowByRow(s, sid, req, roster, recorder, now, after, i);
    var found := EntryOf(roster, s.records[i].student);
    if found.Some? { assert OnRoster(roster, s.records[i].student); }
  }

  // ----- refusals ---------------------------------------------------------

  predicate GoodWord(status: string) { status in {"late", "absent", "excused"} }

  ghost predicate Faultless(marks: seq<MarkRequest>) {
    && (forall i :: 0 <= i < |marks| ==> GoodWord(marks[i].status))
    && forall i, j :: 0 <= i < j < |marks| ==> marks[i].student != marks[j].student
  }

  lemma FaultlessIsGood(marks: seq<MarkRequest>)
    ensures Faultless(marks) <==> GoodMarks(marks)
  {
    forall i | 0 <= i < |marks| ensures GoodWord(marks[i].status) <==> ParseStatus(marks[i].status).Some? {}
  }

  /** The ids not on the roster, in order. */
  function Outsiders(ids: seq<StudentId>, enrolled: set<StudentId>): seq<StudentId> {
    if ids == [] then []
    else
      Outsiders(ids[..|ids|-1], enrolled)
      + if ids[|ids|-1] !in enrolled && ids[|ids|-1] !in ids[..|ids|-1] then [ids[|ids|-1]] else []
  }

  function Students(marks: seq<MarkRequest>): (r: seq<StudentId>)
    ensures |r| == |marks| && forall i :: 0 <= i < |marks| ==> r[i] == marks[i].student
  {
    seq(|marks|, i requires 0 <= i < |marks| => marks[i].student)
  }

  lemma MarkedStudents(marks: seq<MarkRequest>, st: StudentId)
    ensures st in Students(marks) <==> Marked(marks, st)
  {
    if Marked(marks, st) {
      var i :| 0 <= i < |marks| && marks[i].student == st;
      assert Students(marks)[i] == st;
    }
  }

  lemma {:induction false} UnknownMarks(marks: seq<MarkRequest>, enrolled: set<StudentId>)
    requires ScanMarks(marks, enrolled).Scan?
    ensures ScanMarks(marks, enrolled).unknown == Outsiders(Students(marks), enrolled)
  {
    if marks == [] {
    } else {
      var before, last := marks[..|marks|-1], marks[|marks|-1];
      UnknownMarks(before, enrolled);
      ScanSeen(before, enrolled, last.student);
      assert Students(marks)[..|marks|-1] == Students(before);
      MarkedStudents(before, last.student);
    }
  }

  lemma {:induction false} UnknownAbsent(ids: seq<StudentId>, enrolled: set<StudentId>)
    ensures ScanAbsent(ids, enrolled).unknown == Outsiders(ids, enrolled)
  {
    if ids == [] {
    } else {
      UnknownAbsent(ids[..|ids|-1], enrolled);
      ScanAbsentFacts(ids[..|ids|-1], enrolled, ids[|ids|-1]);
    }
  }

  /** The first faulty mark, if any, is reported: its status, or else its student named before. */
  lemma {:induction false} FirstFault(marks: seq<MarkRequest>, enrolled: set<StudentId>, i: nat)
    requires i < |marks| && Faultless(marks[..i]) && !Faultless(marks[..i+1])
    ensures ScanMarks(marks, enrolled) == Failed(if GoodWord(marks[i].status) then DuplicateMark else BadStatus)
  {
    assert marks[..i+1][..i] == marks[..i];
    FaultlessIsGood(marks[..i]);
    FaultlessIsGood(marks[..i+1]);
    ScanGood(marks[..i], enrolled);
    ScanGood(marks[..i+1], enrolled);
    FailureSticks(marks, i + 1, enrolled);
  }

  /** How a request for an existing session that is not cancelled is refused: both shapes at once, the
      first faulty mark, or else the listed students who are not on the roster, each once, in order. */
  lemma RequestRefusals(req: Request, enrolled: set<StudentId>)
    ensures req.marks != [] && req.absentIds != [] ==> ResolveMarks(req, enrolled) == Err(BothShapes)
    ensures req.absentIds == [] ==>
      forall i :: 0 <= i < |req.marks| ==>
        Faultless(req.marks[..i]) && !Faultless(req.marks[..i+1]) ==>
          ResolveMarks(req, enrolled) == Err(if GoodWord(req.marks[i].status) then DuplicateMark else BadStatus)
    ensures req.absentIds == [] && Faultless(req.marks) && Outsiders(Students(req.marks), enrolled) != [] ==>
      ResolveMarks(req, enrolled) == Err(NotEnrolled(Outsiders(Students(req.marks), enrolled)))
    ensures req.marks == [] && Outsiders(req.absentIds, enrolled) != [] ==>
      ResolveMarks(req, enrolled) == Err(NotEnrolled(Outsiders(req.absentIds, enrolled)))
  {
    if req.absentIds == [] {
      forall i | 0 <= i < |req.marks| && Faultless(req.marks[..i]) && !Faultless(req.marks[..i+1])
        ensures ScanMarks(req.marks, enrolled) ==
          Failed(if GoodWord(req.marks[i].status) then DuplicateMark else BadStatus)
      {
        FirstFault(req.marks, enrolled, i);
      }
      if Faultless(req.marks) {
        FaultlessIsGood(req.marks);
        ScanGood(req.marks, enrolled);
        UnknownMarks(req.marks, enrolled);
      }
    }
    UnknownAbsent(req.absentIds, enrolled);
  }

  /** A confirmation is refused for a missing session, a cancelled one, a refused request or a roster that
      names a student twice, in this order, and accepted otherwise. */
  lemma ConfirmRefusals(s: State, sid: SessionId, req: Request, roster: seq<Entry>, recorder: TeacherId, now: int)
    ensures var r := Confirm(s, sid, req, roster, recorder, now);
      if sid >= |s.sessions| then r == Err(SessionNotFound)
      else if s.sessions[sid].status == Cancelled then r == Err(SessionCancelled)
      else match ResolveMarks(req, StudentsOf(roster))
        case Err(e) => r == Err(e)
        case Ok(_) =>
          if forall i, j :: 0 <= i < j < |roster| ==> roster[i].student != roster[j].student then r.Ok?
          else r == Err(RosterConflict)
  {
  }

  // ----- the tally --------------------------------------------------------

  /** The record is live, of that enrollment, and of a held and confirmed session within the window. */
  ghost predicate Taught(s: State, r: Record, e: EnrollmentId, since: int, upTo: int) {
    && !r.deleted && r.enrollment == e && r.session < |s.sessions|
    && var x := s.sessions[r.session]; x.status == Held && x.confirmedAt != None && since <= x.date && x.date <= upTo
  }

  /** The rows taught in the window whose status is one of those, billable ones only if so asked. */
  ghost function TaughtRows(s: State, rs: seq<Record>, e: EnrollmentId, since: int, upTo: int,
      statuses: set<Status>, billableOnly: bool): set<nat> {
    set i: nat | i < |rs| && Counts(s, rs[i], e, since, upTo, statuses, billableOnly)
  }

  ghost predicate Counts(s: State, r: Record, e: EnrollmentId, since: int, upTo: int, statuses: set<Status>,
      billableOnly: bool) {
    Taught(s, r, e, since, upTo) && r.status in statuses && (billableOnly ==> r.billable)
  }

  lemma OneRowMore(s: State, rs: seq<Record>, e: EnrollmentId, since: int, upTo: int, statuses: set<Status>,
      billableOnly: bool)
    requires rs != []
    ensures |TaughtRows(s, rs, e, since, upTo, statuses, billableOnly)| ==
      |TaughtRows(s, rs[..|rs|-1], e, since, upTo, statuses, billableOnly)|
      + if Counts(s, rs[|rs|-1], e, since, upTo, statuses, billableOnly) then 1 else 0
  {
    var n: nat := |rs| - 1;
    var before := TaughtRows(s, rs[..n], e, since, upTo, statuses, billableOnly);
    var after := TaughtRows(s, rs, e, since, upTo, statuses, billableOnly);
    forall i: nat | true
      ensures i in after <==> i in before || (i == n && Counts(s, rs[n], e, since, upTo, statuses, billableOnly))
    {
      if i < n { assert rs[..n][i] == rs[i]; }
    }
    assert after == if Counts(s, rs[n], e, since, upTo, statuses, billableOnly) then before + {n} else before;
  }

  const ANY_STATUS: set<Status> := {Present, Late, Absent, Excused}

  /** The tally of an enrollment counts its rows of held and confirmed sessions in the window: the billable
      ones, those absent or excused, those present or late. */
  lemma {:induction false} TallyCounts(s: State, rs: seq<Record>, e: EnrollmentId, since: int, upTo: int)
    ensures TallyOver(s, rs, e, since, upTo) ==
      Tally(|TaughtRows(s, rs, e, since, upTo, ANY_STATUS, true)|,
            |TaughtRows(s, rs, e, since, upTo, {Absent, Excused}, false)|,
            |TaughtRows(s, rs, e, since, upTo, {Present, Late}, false)|)
  {
    if rs == [] {
    } else {
      TallyCounts(s, rs[..|rs|-1], e, since, upTo);
      OneRowMore(s, rs, e, since, upTo, ANY_STATUS, true);
      OneRowMore(s, rs, e, since, upTo, {Absent, Excused}, false);
      OneRowMore(s, rs, e, since, upTo, {Present, Late}, false);
    }
  }
}
