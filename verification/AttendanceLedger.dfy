/** The bridge between the attendance table and the billing ledger: the grouped tally over record
    rows counts exactly what the ledger counts over session sheets. */
module AttendanceLedger {
  import opened Options
  import A = Attendance
  import opened AttendanceSheet
  import opened AttendanceOutcomes
  import L = Ledgers
  import C = Calendar
  import opened LessonCounts

  predicate Missed(st: A.Status) { st == A.Absent || st == A.Excused }

  function MarkOf(r: A.Record): L.Mark { L.Mark(r.enrollment, Missed(r.status)) }

  function StudentsIn(rs: seq<A.Record>, sid: A.SessionId): set<A.StudentId> {
    set i | 0 <= i < |rs| && !rs[i].deleted && rs[i].session == sid :: rs[i].student
  }

  /** The confirmed sheet the ledger sees: one mark per live record. */
  function SheetOf(rs: seq<A.Record>, sid: A.SessionId): map<A.StudentId, L.Mark> {
    map st | st in StudentsIn(rs, sid) && FindLive(rs, sid, st).Some? :: MarkOf(rs[FindLive(rs, sid, st).value])
  }

  predicate Billed(x: A.Session) { x.status == A.Held && x.confirmedAt.Some? }

  /** The sessions as the ledger keeps them; only held and confirmed ones carry a sheet. */
  function Sessions(s: A.State, monthOf: int -> nat): (r: seq<L.Session>)
    ensures |r| == |s.sessions|
    ensures forall k :: 0 <= k < |r| ==>
      r[k] == L.Session(monthOf(s.sessions[k].date), if Billed(s.sessions[k]) then SheetOf(s.records, k) else map[])
  {
    seq(|s.sessions|, k requires 0 <= k < |s.sessions| =>
      L.Session(monthOf(s.sessions[k].date), if Billed(s.sessions[k]) then SheetOf(s.records, k) else map[]))
  }

  /** After a confirmation the ledger's sheet is the requested one: the roster's students with
      their enrollments, absent exactly when marked absent or excused. */
  lemma ConfirmedSheet(s: A.State, sid: A.SessionId, req: A.Request, roster: seq<A.Entry>, recorder: A.TeacherId,
      now: int, after: A.State, st: A.StudentId)
    requires Confirms(s, sid, req, roster, recorder, now, after)
    ensures st in SheetOf(after.records, sid) <==> st in A.StudentsOf(roster)
    ensures st in SheetOf(after.records, sid) ==>
      A.Entry(SheetOf(after.records, sid)[st].enrollment, st) in roster
      && SheetOf(after.records, sid)[st].absent == (Requested(req, st) in {A.Absent, A.Excused})
  {
    ConfirmSetsTheSheet(s, sid, req, roster, recorder, now, after, st);
    StatusIsRequested(req, roster, st);
    var live := FindLive(after.records, sid, st);
    if live.Some? { assert after.records[live.value].student in StudentsIn(after.records, sid); }
  }

  /** The sheet a confirmation asks for. */
  ghost function RequestedSheet(req: A.Request, roster: seq<A.Entry>): map<A.StudentId, L.Mark> {
    map st | st in A.StudentsOf(roster) && EntryOf(roster, st).Some? ::
      L.Mark(EntryOf(roster, st).value.enrollment, Requested(req, st) in {A.Absent, A.Excused})
  }

  lemma DistinctEntry(roster: seq<A.Entry>, e: A.Entry)
    requires RosterDistinct(roster) && e in roster
    ensures EntryOf(roster, e.student) == Some(e)
  {
  }

  lemma SheetIsRequested(s: A.State, sid: A.SessionId, req: A.Request, roster: seq<A.Entry>, recorder: A.TeacherId,
      now: int, after: A.State)
    requires Confirms(s, sid, req, roster, recorder, now, after)
    ensures SheetOf(after.records, sid) == RequestedSheet(req, roster)
  {
    var sheet, wanted := SheetOf(after.records, sid), RequestedSheet(req, roster);
    forall st | true ensures (st in sheet <==> st in wanted) && (st in sheet ==> sheet[st] == wanted[st]) {
      ConfirmedSheet(s, sid, req, roster, recorder, now, after, st);
      EntryFound(roster, st);
      if st in sheet { DistinctEntry(roster, A.Entry(sheet[st].enrollment, st)); }
    }
    assert sheet.Keys == wanted.Keys;
  }

  /** The live row of another session's student is where and what it was. */
  lemma OtherRowKept(s: A.State, sid: A.SessionId, req: A.Request, roster: seq<A.Entry>, recorder: A.TeacherId,
      now: int, after: A.State, k: A.SessionId, st: A.StudentId)
    requires Confirms(s, sid, req, roster, recorder, now, after) && k != sid
    ensures FindLive(after.records, k, st) == FindLive(s.records, k, st)
    ensures FindLive(s.records, k, st).Some? ==>
      after.records[FindLive(s.records, k, st).value] == s.records[FindLive(s.records, k, st).value]
  {
    var was, found := FindLive(s.records, k, st), FindLive(after.records, k, st);
    if was.Some? { ConfirmRowByRow(s, sid, req, roster, recorder, now, after, was.value); }
    if found.Some? {
      ConfirmRowByRow(s, sid, req, roster, recorder, now, after, found.value);
      if found.value >= |s.records| {
        FreshRows(s.records, Write(sid, MarksOf(req, roster), recorder, now), roster, found.value - |s.records|);
      }
      if was.Some? && was.value != found.value { LiveRowIsOnly(s.records, k, st, was.value, found.value); }
    }
  }

  lemma LiveStudents(rs: seq<A.Record>, k: A.SessionId, st: A.StudentId)
    ensures st in SheetOf(rs, k) <==> FindLive(rs, k, st).Some?
  {
    var live := FindLive(rs, k, st);
    if live.Some? { assert rs[live.value].student in StudentsIn(rs, k); }
  }

  lemma OtherSheetKept(s: A.State, sid: A.SessionId, req: A.Request, roster: seq<A.Entry>, recorder: A.TeacherId,
      now: int, after: A.State, k: A.SessionId)
    requires Confirms(s, sid, req, roster, recorder, now, after) && k != sid
    ensures SheetOf(after.records, k) == SheetOf(s.records, k)
  {
    var kept, was := SheetOf(after.records, k), SheetOf(s.records, k);
    forall st | true ensures (st in kept <==> st in was) && (st in kept ==> kept[st] == was[st]) {
      OtherRowKept(s, sid, req, roster, recorder, now, after, k, st);
      LiveStudents(after.records, k, st);
      LiveStudents(s.records, k, st);
    }
    assert kept.Keys == was.Keys;
  }

  /** The refinement square: confirming on the record table and then reading the ledger's sessions
      off it is reading them off first and setting that one session's sheet to the requested one;
      every other session is as it was. */
  lemma ConfirmRefinesSetSheet(s: A.State, sid: A.SessionId, req: A.Request, roster: seq<A.Entry>,
      recorder: A.TeacherId, now: int, after: A.State, monthOf: int -> nat, l: L.Ledger)
    requires Confirms(s, sid, req, roster, recorder, now, after)
    requires l.sessions == Sessions(s, monthOf)
    ensures Sessions(after, monthOf) == L.SetSheet(l, sid, RequestedSheet(req, roster)).sessions
  {
    var next := Sessions(after, monthOf);
    SheetIsRequested(s, sid, req, roster, recorder, now, after);
    forall k | 0 <= k < |next| ensures next[k] == L.SetSheet(l, sid, RequestedSheet(req, roster)).sessions[k] {
      if k != sid { OtherSheetKept(s, sid, req, roster, recorder, now, after, k); }
    }
  }

  // ----- counting rows and counting sessions ------------------------------

  predicate Hit(s: A.State, r: A.Record, e: A.EnrollmentId, since: int, upTo: int, missedOnly: bool) {
    Counted(s, r, e, since, upTo) && (missedOnly ==> Missed(r.status))
  }

  function Hits(s: A.State, rs: seq<A.Record>, e: A.EnrollmentId, since: int, upTo: int, missedOnly: bool): set<nat> {
    set i: nat | i < |rs| && Hit(s, rs[i], e, since, upTo, missedOnly)
  }

  lemma {:induction false} TallyCountsRows(s: A.State, rs: seq<A.Record>, e: A.EnrollmentId, since: int, upTo: int)
    requires forall i :: 0 <= i < |rs| ==> rs[i].billable
    ensures TallyOver(s, rs, e, since, upTo).billable == |Hits(s, rs, e, since, upTo, false)|
    ensures TallyOver(s, rs, e, since, upTo).absent == |Hits(s, rs, e, since, upTo, true)|
  {
    if rs == [] {
    } else {
      var before, n := rs[..|rs|-1], |rs|-1;
      TallyCountsRows(s, before, e, since, upTo);
      HitsSplit(s, rs, e, since, upTo, false);
      HitsSplit(s, rs, e, since, upTo, true);
    }
  }

  lemma HitsSplit(s: A.State, rs: seq<A.Record>, e: A.EnrollmentId, since: int, upTo: int, missedOnly: bool)
    requires rs != []
    ensures |Hits(s, rs, e, since, upTo, missedOnly)| ==
      |Hits(s, rs[..|rs|-1], e, since, upTo, missedOnly)|
      + if Hit(s, rs[|rs|-1], e, since, upTo, missedOnly) then 1 else 0
  {
    var n: nat := |rs|-1;
    var before, after := Hits(s, rs[..n], e, since, upTo, missedOnly), Hits(s, rs, e, since, upTo, missedOnly);
    forall i: nat | true ensures i in after <==> i in before || (i == n && Hit(s, rs[n], e, since, upTo, missedOnly)) {
      if i < n { assert rs[..n][i] == rs[i]; }
    }
    assert after == if Hit(s, rs[n], e, since, upTo, missedOnly) then before + {n} else before;
  }

  /** Enrollment e belongs to student st. */
  ghost predicate OwnedBy(rs: seq<A.Record>, e: A.EnrollmentId, st: A.StudentId) {
    forall i :: 0 <= i < |rs| && rs[i].enrollment == e ==> rs[i].student == st
  }

  /** On the dates of the sessions, lying in the window is being of month m. */
  ghost predicate Window(s: A.State, monthOf: int -> nat, since: int, upTo: int, m: nat) {
    forall k :: 0 <= k < |s.sessions| ==> (since <= s.sessions[k].date <= upTo <==> monthOf(s.sessions[k].date) == m)
  }

  function SessionsHit(rs: seq<A.Record>, hits: set<nat>): set<nat>
    requires forall i :: i in hits ==> i < |rs|
  {
    set i | i in hits :: rs[i].session
  }

  lemma {:induction false} OneHitPerSession(rs: seq<A.Record>, hits: set<nat>, st: A.StudentId)
    requires LiveUnique(rs) && forall i :: i in hits ==> i < |rs| && !rs[i].deleted && rs[i].student == st
    ensures |SessionsHit(rs, hits)| == |hits|
    decreases |hits|
  {
    if hits == {} {
    } else {
      var i :| i in hits;
      var rest := hits - {i};
      OneHitPerSession(rs, rest, st);
      forall j | j in rest ensures rs[j].session != rs[i].session {
        if rs[j].session == rs[i].session { LiveRowIsOnly(rs, rs[i].session, st, i, j); }
      }
      assert SessionsHit(rs, hits) == SessionsHit(rs, rest) + {rs[i].session};
    }
  }

  lemma HitIffLesson(s: A.State, st: A.StudentId, e: A.EnrollmentId, since: int, upTo: int, m: nat,
      monthOf: int -> nat, missedOnly: bool, k: nat)
    requires LiveUnique(s.records) && OwnedBy(s.records, e, st) && Window(s, monthOf, since, upTo, m)
    ensures k in SessionsHit(s.records, Hits(s, s.records, e, since, upTo, missedOnly)) <==>
      k in Lessons(Sessions(s, monthOf), st, e, m, missedOnly)
  {
    var rs, ss := s.records, Sessions(s, monthOf);
    var hits := Hits(s, rs, e, since, upTo, missedOnly);
    if k in SessionsHit(rs, hits) {
      var i :| i in hits && rs[i].session == k;
      assert rs[i].student in StudentsIn(rs, k);
      var f := FindLive(rs, k, st);
      if f.value != i { LiveRowIsOnly(rs, k, st, i, f.value); }
    }
    if k in Lessons(ss, st, e, m, missedOnly) {
      var f := FindLive(rs, k, st);
      assert f.value in hits;
    }
  }

  /** For every enrollment and month, the grouped tally of the record table equals the ledger's
      counts over the sheets, billable and absent alike. */
  lemma TallyMatchesLedger(s: A.State, st: A.StudentId, e: A.EnrollmentId, since: int, upTo: int, m: nat,
      monthOf: int -> nat)
    requires Sound(s.records) && OwnedBy(s.records, e, st) && Window(s, monthOf, since, upTo, m)
    ensures TallyOver(s, s.records, e, since, upTo).billable == L.BillableCount(Sessions(s, monthOf), st, e, m)
    ensures TallyOver(s, s.records, e, since, upTo).absent == L.AbsentCount(Sessions(s, monthOf), st, e, m)
  {
    TallyCountsRows(s, s.records, e, since, upTo);
    CountsLessons(Sessions(s, monthOf), st, e, m);
    MatchOne(s, st, e, since, upTo, m, monthOf, false);
    MatchOne(s, st, e, since, upTo, m, monthOf, true);
  }

  lemma MatchOne(s: A.State, st: A.StudentId, e: A.EnrollmentId, since: int, upTo: int, m: nat,
      monthOf: int -> nat, missedOnly: bool)
    requires LiveUnique(s.records) && OwnedBy(s.records, e, st) && Window(s, monthOf, since, upTo, m)
    ensures |Hits(s, s.records, e, since, upTo, missedOnly)| == |Lessons(Sessions(s, monthOf), st, e, m, missedOnly)|
  {
    var hits := Hits(s, s.records, e, since, upTo, missedOnly);
    OneHitPerSession(s.records, hits, st);
    forall k: nat | true
      ensures k in SessionsHit(s.records, hits) <==> k in Lessons(Sessions(s, monthOf), st, e, m, missedOnly)
    {
      HitIffLesson(s, st, e, since, upTo, m, monthOf, missedOnly, k);
    }
    assert SessionsHit(s.records, hits) == Lessons(Sessions(s, monthOf), st, e, m, missedOnly);
  }

  /** The billing period's first and last day select the lessons of its month: over every period the
      tally billing reads is the count the ledger bills. */
  lemma PeriodTallyMatchesLedger(s: A.State, st: A.StudentId, e: A.EnrollmentId, year: nat, month: nat)
    requires Sound(s.records) && OwnedBy(s.records, e, st) && 1 <= month <= 12
    requires forall k :: 0 <= k < |s.sessions| ==> C.IsDate(s.sessions[k].date)
    ensures var t := TallyOver(s, s.records, e, C.Code(C.PeriodStart(year, month)), C.Code(C.PeriodEnd(year, month)));
      var ss, m := Sessions(s, C.MonthOf), C.MonthIndex(year, month);
      t.billable == L.BillableCount(ss, st, e, m) && t.absent == L.AbsentCount(ss, st, e, m)
  {
    forall k | 0 <= k < |s.sessions|
      ensures C.Code(C.PeriodStart(year, month)) <= s.sessions[k].date <= C.Code(C.PeriodEnd(year, month)) <==>
        C.MonthOf(s.sessions[k].date) == C.MonthIndex(year, month)
    {
      C.PeriodIsItsMonth(s.sessions[k].date, year, month);
    }
    TallyMatchesLedger(s, st, e, C.Code(C.PeriodStart(year, month)), C.Code(C.PeriodEnd(year, month)),
      C.MonthIndex(year, month), C.MonthOf);
  }
}
