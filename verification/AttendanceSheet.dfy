/** The attendance record table: what one confirmation does to it, and what holds of every
    table reached by confirmations. */
module AttendanceSheet {
  import opened Options
  import opened Ids
  import opened Attendance

  /** The row written for a roster student, present unless marked. */
  function StatusFor(marks: Marks, st: StudentId): Status { if st in marks then marks[st] else Present }

  predicate Matches(r: Record, sid: SessionId, st: StudentId) { !r.deleted && r.session == sid && r.student == st }

  /** The conflict target of the upsert: the live row of (session, student). */
  function FindLive(rs: seq<Record>, sid: SessionId, st: StudentId): (r: Option<nat>)
    ensures r.Some? ==> r.value < |rs| && Matches(rs[r.value], sid, st)
    ensures r.None? ==> forall i :: 0 <= i < |rs| ==> !Matches(rs[i], sid, st)
  {
    if rs == [] then None
    else if Matches(rs[|rs|-1], sid, st) then Some(|rs|-1)
    else FindLive(rs[..|rs|-1], sid, st)
  }

  datatype Write = Write(sid: SessionId, marks: Marks, recorder: TeacherId, now: int)

  /** On conflict everything but the id and recorded_at is overwritten. */
  function Rewritten(r: Record, w: Write, e: Entry): Record {
    r.(enrollment := e.enrollment, status := StatusFor(w.marks, e.student), billable := true,
       recorder := w.recorder, updatedAt := w.now)
  }

  function NewRecord(w: Write, e: Entry): Record {
    Record(w.sid, e.student, e.enrollment, StatusFor(w.marks, e.student), true, w.recorder, w.now, w.now, false)
  }

  function UpsertOne(rs: seq<Record>, w: Write, e: Entry): seq<Record> {
    match FindLive(rs, w.sid, e.student)
    case Some(i) => rs[i := Rewritten(rs[i], w, e)]
    case None => rs + [NewRecord(w, e)]
  }

  function UpsertMany(rs: seq<Record>, w: Write, roster: seq<Entry>): seq<Record> {
    if roster == [] then rs else UpsertOne(UpsertMany(rs, w, roster[..|roster|-1]), w, roster[|roster|-1])
  }

  function Dropped(r: Record, sid: SessionId, keep: set<StudentId>): Record {
    if r.session == sid && !r.deleted && r.student !in keep then r.(deleted := true) else r
  }

  function SoftDeleteMissing(rs: seq<Record>, sid: SessionId, keep: set<StudentId>): (r: seq<Record>)
    ensures |r| == |rs| && forall i :: 0 <= i < |rs| ==> r[i] == Dropped(rs[i], sid, keep)
  {
    seq(|rs|, i requires 0 <= i < |rs| => Dropped(rs[i], sid, keep))
  }

  ghost predicate RosterDistinct(roster: seq<Entry>) {
    forall i, j :: 0 <= i < j < |roster| ==> roster[i].student != roster[j].student
  }

  ghost function Confirm(s: State, sid: SessionId, req: Request, roster: seq<Entry>, recorder: TeacherId,
      now: int): Result<State> {
    if sid >= |s.sessions| then Err(SessionNotFound)
    else if s.sessions[sid].status == Cancelled then Err(SessionCancelled)
    else match ResolveMarks(req, StudentsOf(roster))
    case Err(e) => Err(e)
    case Ok(marks) =>
      if !RosterDistinct(roster) then Err(RosterConflict)   // one statement may not hit a row twice
      else Ok(State(s.sessions[sid := s.sessions[sid].(status := Held, confirmedAt := Some(now))],
                    SoftDeleteMissing(UpsertMany(s.records, Write(sid, marks, recorder, now), roster), sid,
                      StudentsOf(roster))))
  }

  class Service {
    var sessions: seq<Session>
    var records: seq<Record>

    function View(): State
      reads this
    {
      State(sessions, records)
    }

    constructor ()
      ensures View() == State([], [])
    {
      sessions, records := [], [];
    }

    method UpsertAll(w: Write, roster: seq<Entry>)
      modifies this`records
      ensures records == UpsertMany(old(records), w, roster)
    {
      for i := 0 to |roster|
        invariant records == UpsertMany(old(records), w, roster[..i])
      {
        assert roster[..i+1][..i] == roster[..i];
        var e := roster[i];
        match FindLive(records, w.sid, e.student) {
          case Some(k) =>
            records := records[k := records[k].(
              enrollment := e.enrollment, status := StatusFor(w.marks, e.student), billable := true,
              recorder := w.recorder, updatedAt := w.now)];
          case None => records := records + [NewRecord(w, e)];
        }
      }
      assert roster[..|roster|] == roster;
    }

    method DropMissing(sid: SessionId, keep: set<StudentId>)
      modifies this`records
      ensures records == SoftDeleteMissing(old(records), sid, keep)
    {
      for i := 0 to |records|
        invariant |records| == |old(records)|
        invariant forall k :: 0 <= k < i ==> records[k] == Dropped(old(records)[k], sid, keep)
        invariant forall k :: i <= k < |records| ==> records[k] == old(records)[k]
      {
        if records[i].session == sid && !records[i].deleted && records[i].student !in keep {
          records := records[i := records[i].(deleted := true)];
        }
      }
    }

    method CheckRoster(roster: seq<Entry>) returns (ok: bool)
      ensures ok == RosterDistinct(roster)
    {
      var seen: set<StudentId> := {};
      for i := 0 to |roster|
        invariant RosterDistinct(roster[..i])
        invariant forall x :: x in seen <==> exists k :: 0 <= k < i && roster[k].student == x
      {
        if roster[i].student in seen { return false; }
        seen := seen + {roster[i].student};
      }
      assert roster[..|roster|] == roster;
      return true;
    }

    method ConfirmSheet(sid: SessionId, req: Request, roster: seq<Entry>, recorder: TeacherId,
        now: int) returns (r: Result<()>)
      modifies this
      ensures match Confirm(old(View()), sid, req, roster, recorder, now)
        case Ok(s) => r.Ok? && View() == s
        case Err(e) => r == Err(e) && View() == old(View())
    {
      if sid >= |sessions| { return Err(SessionNotFound); }
      if sessions[sid].status == Cancelled { return Err(SessionCancelled); }
      var resolved := ResolveRequest(req, roster);
      match resolved {
        case Err(e) => return Err(e);
        case Ok(marks) =>
          var distinct := CheckRoster(roster);
          if !distinct { return Err(RosterConflict); }
          UpsertAll(Write(sid, marks, recorder, now), roster);
          DropMissing(sid, StudentsOf(roster));
          sessions := sessions[sid := sessions[sid].(status := Held, confirmedAt := Some(now))];
          return Ok(());
      }
    }
  }

  // ----- what a confirmation does to the table ----------------------------

  /** The partial unique index: one live row per (session, student). */
  ghost predicate LiveUnique(rs: seq<Record>) {
    forall i, j :: 0 <= i < j < |rs| && Matches(rs[j], rs[i].session, rs[i].student) ==> rs[i].deleted
  }

  function EntryOf(roster: seq<Entry>, st: StudentId): (r: Option<Entry>)
    ensures r.Some? ==> r.value in roster && r.value.student == st
    ensures r.None? ==> forall i :: 0 <= i < |roster| ==> roster[i].student != st
  {
    if roster == [] then None
    else if roster[|roster|-1].student == st then Some(roster[|roster|-1])
    else EntryOf(roster[..|roster|-1], st)
  }

  function AfterUpsert(r: Record, w: Write, roster: seq<Entry>): Record {
    if r.deleted || r.session != w.sid then r
    else match EntryOf(roster, r.student) case Some(e) => Rewritten(r, w, e) case None => r
  }

  /** The roster students without a live row, in roster order. */
  function Fresh(rs: seq<Record>, w: Write, roster: seq<Entry>): seq<Record> {
    if roster == [] then []
    else
      Fresh(rs, w, roster[..|roster|-1])
      + (if FindLive(rs, w.sid, roster[|roster|-1].student).None? then [NewRecord(w, roster[|roster|-1])] else [])
  }

  function Refreshed(rs: seq<Record>, w: Write, roster: seq<Entry>): (r: seq<Record>)
    ensures |r| == |rs| && forall i :: 0 <= i < |rs| ==> r[i] == AfterUpsert(rs[i], w, roster)
  {
    seq(|rs|, i requires 0 <= i < |rs| => AfterUpsert(rs[i], w, roster))
  }

  lemma {:induction false} FreshRows(rs: seq<Record>, w: Write, roster: seq<Entry>, k: nat)
    requires k < |Fresh(rs, w, roster)|
    ensures var r := Fresh(rs, w, roster)[k];
      !r.deleted && r.session == w.sid && EntryOf(roster, r.student).Some? && FindLive(rs, w.sid, r.student).None?
  {
    var before := roster[..|roster|-1];
    if k < |Fresh(rs, w, before)| { FreshRows(rs, w, before, k); }
  }

  lemma FindInUpserted(rs: seq<Record>, w: Write, roster: seq<Entry>, st: StudentId)
    requires LiveUnique(rs) && EntryOf(roster, st).None?
    ensures FindLive(Refreshed(rs, w, roster) + Fresh(rs, w, roster), w.sid, st) == FindLive(rs, w.sid, st)
  {
    var all := Refreshed(rs, w, roster) + Fresh(rs, w, roster);
    forall i | 0 <= i < |all| && Matches(all[i], w.sid, st) ensures i < |rs| && Matches(rs[i], w.sid, st) {
      if i >= |rs| { FreshRows(rs, w, roster, i - |rs|); }
    }
    var found, was := FindLive(all, w.sid, st), FindLive(rs, w.sid, st);
    if was.Some? { assert Matches(all[was.value], w.sid, st); }
  }

  /** Upserting a roster rewrites the live rows of its students in place and appends the rest. */
  lemma {:induction false} UpsertShape(rs: seq<Record>, w: Write, roster: seq<Entry>)
    requires LiveUnique(rs) && RosterDistinct(roster)
    ensures UpsertMany(rs, w, roster) == Refreshed(rs, w, roster) + Fresh(rs, w, roster)
  {
    if roster == [] {
      assert Refreshed(rs, w, []) == rs;
    } else {
      var before, e := roster[..|roster|-1], roster[|roster|-1];
      UpsertShape(rs, w, before);
      LastIsNew(roster);
      FindInUpserted(rs, w, before, e.student);
      UpsertStep(rs, w, before, e);
      assert before + [e] == roster;
    }
  }

  lemma LastIsNew(roster: seq<Entry>)
    requires RosterDistinct(roster) && roster != []
    ensures RosterDistinct(roster[..|roster|-1]) && EntryOf(roster[..|roster|-1], roster[|roster|-1].student).None?
  {
  }

  lemma LiveRowIsOnly(rs: seq<Record>, sid: SessionId, st: StudentId, k: nat, i: nat)
    requires LiveUnique(rs) && k < |rs| && i < |rs| && i != k && Matches(rs[k], sid, st)
    ensures !Matches(rs[i], sid, st)
  {
  }

  lemma RowAfterOneMore(r: Record, w: Write, before: seq<Entry>, e: Entry)
    requires EntryOf(before, e.student).None?
    ensures AfterUpsert(r, w, before + [e]) ==
      if Matches(r, w.sid, e.student) then Rewritten(r, w, e) else AfterUpsert(r, w, before)
  {
    assert (before + [e])[..|before|] == before;
  }

  lemma FreshAfterOneMore(rs: seq<Record>, w: Write, before: seq<Entry>, e: Entry)
    ensures Fresh(rs, w, before + [e]) ==
      Fresh(rs, w, before) + if FindLive(rs, w.sid, e.student).None? then [NewRecord(w, e)] else []
  {
    assert (before + [e])[..|before|] == before;
  }

  lemma UpsertNew(rs: seq<Record>, w: Write, before: seq<Entry>, e: Entry)
    requires EntryOf(before, e.student).None? && FindLive(rs, w.sid, e.student).None?
    ensures Refreshed(rs, w, before + [e]) == Refreshed(rs, w, before)
  {
    forall i | 0 <= i < |rs| ensures AfterUpsert(rs[i], w, before + [e]) == AfterUpsert(rs[i], w, before) {
      RowAfterOneMore(rs[i], w, before, e);
    }
  }

  lemma UpsertOld(rs: seq<Record>, w: Write, before: seq<Entry>, e: Entry, k: nat)
    requires LiveUnique(rs) && EntryOf(before, e.student).None? && FindLive(rs, w.sid, e.student) == Some(k)
    ensures Refreshed(rs, w, before + [e]) == Refreshed(rs, w, before)[k := Rewritten(rs[k], w, e)]
  {
    forall i | 0 <= i < |rs|
      ensures AfterUpsert(rs[i], w, before + [e]) ==
        if i == k then Rewritten(rs[k], w, e) else AfterUpsert(rs[i], w, before)
    {
      RowAfterOneMore(rs[i], w, before, e);
      if i != k { LiveRowIsOnly(rs, w.sid, e.student, k, i); }
    }
  }

  lemma UpdateLeft(a: seq<Record>, b: seq<Record>, k: nat, r: Record)
    requires k < |a|
    ensures (a + b)[k := r] == a[k := r] + b && (a + b)[k] == a[k]
  {
  }

  /** The upsert of a student found in row k of the table so far. */
  lemma UpsertAt(all: seq<Record>, w: Write, e: Entry, k: nat)
    requires FindLive(all, w.sid, e.student) == Some(k)
    ensures UpsertOne(all, w, e) == all[k := Rewritten(all[k], w, e)]
  {
  }

  /** The upsert of a student without a row. */
  lemma UpsertLast(all: seq<Record>, w: Write, e: Entry)
    requires FindLive(all, w.sid, e.student).None?
    ensures UpsertOne(all, w, e) == all + [NewRecord(w, e)]
  {
  }

  lemma Assoc(a: seq<Record>, b: seq<Record>, c: seq<Record>)
    ensures (a + b) + c == a + (b + c)
  {
  }

  lemma UpsertStep(rs: seq<Record>, w: Write, before: seq<Entry>, e: Entry)
    requires LiveUnique(rs) && EntryOf(before, e.student).None?
    requires FindLive(Refreshed(rs, w, before) + Fresh(rs, w, before), w.sid, e.student) ==
      FindLive(rs, w.sid, e.student)
    ensures UpsertOne(Refreshed(rs, w, before) + Fresh(rs, w, before), w, e) ==
      Refreshed(rs, w, before + [e]) + Fresh(rs, w, before + [e])
  {
    FreshAfterOneMore(rs, w, before, e);
    match FindLive(rs, w.sid, e.student)
    case None => UpsertStepNew(rs, w, before, e);
    case Some(k) => UpsertStepOld(rs, w, before, e, k);
  }

  lemma UpsertStepNew(rs: seq<Record>, w: Write, before: seq<Entry>, e: Entry)
    requires EntryOf(before, e.student).None? && FindLive(rs, w.sid, e.student).None?
    requires FindLive(Refreshed(rs, w, before) + Fresh(rs, w, before), w.sid, e.student).None?
    ensures UpsertOne(Refreshed(rs, w, before) + Fresh(rs, w, before), w, e) ==
      Refreshed(rs, w, before + [e]) + (Fresh(rs, w, before) + [NewRecord(w, e)])
  {
    UpsertNew(rs, w, before, e);
    UpsertLast(Refreshed(rs, w, before) + Fresh(rs, w, before), w, e);
    Assoc(Refreshed(rs, w, before), Fresh(rs, w, before), [NewRecord(w, e)]);
  }

  lemma UpsertStepOld(rs: seq<Record>, w: Write, before: seq<Entry>, e: Entry, k: nat)
    requires LiveUnique(rs) && EntryOf(before, e.student).None? && FindLive(rs, w.sid, e.student) == Some(k)
    requires FindLive(Refreshed(rs, w, before) + Fresh(rs, w, before), w.sid, e.student) == Some(k)
    ensures UpsertOne(Refreshed(rs, w, before) + Fresh(rs, w, before), w, e) ==
      Refreshed(rs, w, before + [e]) + Fresh(rs, w, before)
  {
    var rows, added := Refreshed(rs, w, before), Fresh(rs, w, before);
    UpsertOld(rs, w, before, e, k);
    assert rows[k] == AfterUpsert(rs[k], w, before) == rs[k];
    UpsertAt(rows + added, w, e, k);
    UpdateLeft(rows, added, k, Rewritten(rs[k], w, e));
  }

  // ----- confirm sets the sheet -------------------------------------------

  function MarksOf(req: Request, roster: seq<Entry>): Marks {
    match ResolveMarks(req, StudentsOf(roster)) case Ok(m) => m case Err(_) => map[]
  }

  ghost predicate Confirms(s: State, sid: SessionId, req: Request, roster: seq<Entry>, recorder: TeacherId,
      now: int, after: State) {
    LiveUnique(s.records) && Confirm(s, sid, req, roster, recorder, now) == Ok(after)
  }

  lemma {:induction false} EntryFound(roster: seq<Entry>, st: StudentId)
    ensures EntryOf(roster, st).Some? <==> st in StudentsOf(roster)
  {
  }

  function Settled(r: Record, w: Write, roster: seq<Entry>): Record {
    if r.deleted || r.session != w.sid then r
    else match EntryOf(roster, r.student) case Some(e) => Rewritten(r, w, e) case None => r.(deleted := true)
  }

  /** Row by row: rows of other sessions and dead rows are untouched, live rows of roster students
      are rewritten in place keeping their id and recorded_at, live rows of students off the roster
      are soft-deleted, and one new row is appended for each roster student without one. */
  lemma ConfirmRowByRow(s: State, sid: SessionId, req: Request, roster: seq<Entry>, recorder: TeacherId,
      now: int, after: State, i: nat)
    requires Confirms(s, sid, req, roster, recorder, now, after)
    ensures var w := Write(sid, MarksOf(req, roster), recorder, now);
      && |after.records| == |s.records| + |Fresh(s.records, w, roster)|
      && (i < |s.records| ==> after.records[i] == Settled(s.records[i], w, roster))
      && (|s.records| <= i < |after.records| ==> after.records[i] == Fresh(s.records, w, roster)[i - |s.records|])
  {
    var w := Write(sid, MarksOf(req, roster), recorder, now);
    var rs := s.records;
    UpsertShape(rs, w, roster);
    var upserted := Refreshed(rs, w, roster) + Fresh(rs, w, roster);
    if i < |rs| { EntryFound(roster, rs[i].student); }
    else if i < |upserted| {
      FreshRows(rs, w, roster, i - |rs|);
      EntryFound(roster, upserted[i].student);
    }
  }

  lemma {:induction false} FreshHas(rs: seq<Record>, w: Write, roster: seq<Entry>, e: Entry)
    requires e in roster && FindLive(rs, w.sid, e.student).None?
    ensures NewRecord(w, e) in Fresh(rs, w, roster)
  {
    if roster[|roster|-1] != e {
      assert roster == roster[..|roster|-1] + [roster[|roster|-1]];
      FreshHas(rs, w, roster[..|roster|-1], e);
    }
  }

  lemma {:induction false} FreshDistinct(rs: seq<Record>, w: Write, roster: seq<Entry>, i: nat, j: nat)
    requires RosterDistinct(roster) && i < j < |Fresh(rs, w, roster)|
    ensures Fresh(rs, w, roster)[i].student != Fresh(rs, w, roster)[j].student
  {
    var before := roster[..|roster|-1];
    if j < |Fresh(rs, w, before)| { FreshDistinct(rs, w, before, i, j); } else { FreshRows(rs, w, before, i); }
  }

  /** Confirming keeps at most one live record per session and student. */
  lemma ConfirmKeepsUnique(s: State, sid: SessionId, req: Request, roster: seq<Entry>, recorder: TeacherId,
      now: int, after: State)
    requires Confirms(s, sid, req, roster, recorder, now, after)
    ensures LiveUnique(after.records)
  {
    var w, rs, n := Write(sid, MarksOf(req, roster), recorder, now), s.records, |s.records|;
    forall i, j | 0 <= i < j < |after.records| &&
      Matches(after.records[j], after.records[i].session, after.records[i].student)
      ensures after.records[i].deleted
    {
      ConfirmRowByRow(s, sid, req, roster, recorder, now, after, i);
      ConfirmRowByRow(s, sid, req, roster, recorder, now, after, j);
      if j < n {
        assert Matches(rs[j], rs[i].session, rs[i].student);
      } else {
        FreshRows(rs, w, roster, j - n);
        if i >= n { FreshDistinct(rs, w, roster, i - n, j - n); }
      }
    }
  }

  lemma ExpectedRow(s: State, sid: SessionId, req: Request, roster: seq<Entry>, recorder: TeacherId, now: int,
      after: State, e: Entry)
    returns (k: nat)
    requires Confirms(s, sid, req, roster, recorder, now, after) && e in roster && EntryOf(roster, e.student) == Some(e)
    ensures k < |after.records| && Matches(after.records[k], sid, e.student)
    ensures after.records[k] == match FindLive(s.records, sid, e.student)
      case Some(i) => Rewritten(s.records[i], Write(sid, MarksOf(req, roster), recorder, now), e)
      case None => NewRecord(Write(sid, MarksOf(req, roster), recorder, now), e)
    ensures FindLive(s.records, sid, e.student).Some? ==> k == FindLive(s.records, sid, e.student).value
    ensures FindLive(s.records, sid, e.student).None? ==> k >= |s.records|
  {
    var w := Write(sid, MarksOf(req, roster), recorder, now);
    match FindLive(s.records, sid, e.student)
    case Some(i) =>
      k := i;
      ConfirmRowByRow(s, sid, req, roster, recorder, now, after, i);
    case None =>
      FreshHas(s.records, w, roster, e);
      var j :| 0 <= j < |Fresh(s.records, w, roster)| && Fresh(s.records, w, roster)[j] == NewRecord(w, e);
      k := |s.records| + j;
      ConfirmRowByRow(s, sid, req, roster, recorder, now, after, k);
  }

  /** Afterwards the session's live records are exactly one per roster student: the student's
      enrollment, the requested status or present, billable; a student who had a live record keeps
      its id and recorded_at. */
  lemma ConfirmSetsTheSheet(s: State, sid: SessionId, req: Request, roster: seq<Entry>, recorder: TeacherId,
      now: int, after: State, st: StudentId)
    requires Confirms(s, sid, req, roster, recorder, now, after)
    ensures var live := FindLive(after.records, sid, st);
      && (live.Some? <==> st in StudentsOf(roster))
      && (live.Some? ==>
            && Entry(after.records[live.value].enrollment, st) in roster
            && after.records[live.value].status == StatusFor(MarksOf(req, roster), st)
            && after.records[live.value].billable
            && match FindLive(s.records, sid, st)
               case Some(i) => live.value == i && after.records[i].recordedAt == s.records[i].recordedAt
               case None => live.value >= |s.records| && after.records[live.value].recordedAt == now)
  {
    EntryFound(roster, st);
    ConfirmKeepsUnique(s, sid, req, roster, recorder, now, after);
    var live := FindLive(after.records, sid, st);
    match EntryOf(roster, st)
    case Some(e) =>
      var k := ExpectedRow(s, sid, req, roster, recorder, now, after, e);
    case None =>
      if live.Some? {
        ConfirmRowByRow(s, sid, req, roster, recorder, now, after, live.value);
        if live.value >= |s.records| {
          FreshRows(s.records, Write(sid, MarksOf(req, roster), recorder, now), roster, live.value - |s.records|);
        }
      }
  }

  function Touched(r: Record, sid: SessionId, now: int): Record {
    if !r.deleted && r.session == sid then r.(updatedAt := now) else r
  }

  lemma {:induction false} NothingFresh(rs: seq<Record>, w: Write, roster: seq<Entry>)
    requires forall e :: e in roster ==> FindLive(rs, w.sid, e.student).Some?
    ensures Fresh(rs, w, roster) == []
  {
    if roster == [] {
    } else {
      assert roster == roster[..|roster|-1] + [roster[|roster|-1]];
      NothingFresh(rs, w, roster[..|roster|-1]);
    }
  }

  /** Confirming the same sheet again by the same teacher changes nothing but the records' updated_at
      and the session's confirmed_at. */
  lemma ConfirmIsIdempotent(s: State, sid: SessionId, req: Request, roster: seq<Entry>, recorder: TeacherId,
      now: int, after: State, later: int, i: nat)
    requires Confirms(s, sid, req, roster, recorder, now, after) && i < |after.records|
    ensures var again := Confirm(after, sid, req, roster, recorder, later);
      && again.Ok? && sid < |after.sessions| && |again.value.records| == |after.records|
      && again.value.sessions == after.sessions[sid := after.sessions[sid].(confirmedAt := Some(later))]
      && again.value.records[i] == Touched(after.records[i], sid, later)
  {
    ConfirmKeepsUnique(s, sid, req, roster, recorder, now, after);
    var again := Confirm(after, sid, req, roster, recorder, later).value;
    var w, w2 := Write(sid, MarksOf(req, roster), recorder, now), Write(sid, MarksOf(req, roster), recorder, later);
    forall e | e in roster ensures FindLive(after.records, sid, e.student).Some? {
      ConfirmSetsTheSheet(s, sid, req, roster, recorder, now, after, e.student);
    }
    NothingFresh(after.records, w2, roster);
    ConfirmRowByRow(after, sid, req, roster, recorder, later, again, i);
    ConfirmRowByRow(s, sid, req, roster, recorder, now, after, i);
    if i >= |s.records| { FreshEntry(s.records, w, roster, i - |s.records|); }
  }

  lemma {:induction false} FreshEntry(rs: seq<Record>, w: Write, roster: seq<Entry>, k: nat)
    requires RosterDistinct(roster) && k < |Fresh(rs, w, roster)|
    ensures var r := Fresh(rs, w, roster)[k];
      EntryOf(roster, r.student).Some? && r == NewRecord(w, EntryOf(roster, r.student).value)
  {
    var before := roster[..|roster|-1];
    if k < |Fresh(rs, w, before)| {
      FreshEntry(rs, w, before, k);
      var e := EntryOf(before, Fresh(rs, w, before)[k].student).value;
      var j :| 0 <= j < |before| && before[j] == e;
      assert roster[j] == e;
    }
  }

  // ----- tallies ----------------------------------------------------------

  datatype Tally = Tally(billable: nat, absent: nat, present: nat)

  predicate Counted(s: State, r: Record, e: EnrollmentId, since: int, upTo: int) {
    && !r.deleted && r.enrollment == e && r.session < |s.sessions|
    && s.sessions[r.session].status == Held && s.sessions[r.session].confirmedAt.Some?
    && since <= s.sessions[r.session].date <= upTo
  }

  /** The grouped query over held and confirmed sessions of the window. */
  function TallyOver(s: State, rs: seq<Record>, e: EnrollmentId, since: int, upTo: int): Tally {
    if rs == [] then Tally(0, 0, 0)
    else
      var t, r := TallyOver(s, rs[..|rs|-1], e, since, upTo), rs[|rs|-1];
      if !Counted(s, r, e, since, upTo) then t
      else Tally(t.billable + (if r.billable then 1 else 0),
                 t.absent + (if r.status == Absent || r.status == Excused then 1 else 0),
                 t.present + (if r.status == Present || r.status == Late then 1 else 0))
  }

  datatype Op =
    | AddSession(date: int) | CancelSession(sid: SessionId)
    | OpConfirm(sid: SessionId, req: Request, roster: seq<Entry>, recorder: TeacherId, now: int)

  ghost function Step(s: State, op: Op): State {
    match op
    case AddSession(date) => s.(sessions := s.sessions + [Session(date, Scheduled, None)])
    case CancelSession(sid) =>
      if sid < |s.sessions| then s.(sessions := s.sessions[sid := s.sessions[sid].(status := Cancelled)]) else s
    case OpConfirm(sid, req, roster, recorder, now) =>
      var r := Confirm(s, sid, req, roster, recorder, now);
      if r.Ok? then r.value else s
  }

  ghost function Run(ops: seq<Op>): State {
    if ops == [] then State([], []) else Step(Run(ops[..|ops|-1]), ops[|ops|-1])
  }

  ghost predicate Sound(rs: seq<Record>) { LiveUnique(rs) && forall i :: 0 <= i < |rs| ==> rs[i].billable }

  lemma StepKeepsSound(s: State, op: Op)
    requires Sound(s.records)
    ensures Sound(Step(s, op).records)
  {
    if op.OpConfirm? && Confirm(s, op.sid, op.req, op.roster, op.recorder, op.now).Ok? {
      var after := Step(s, op);
      ConfirmKeepsUnique(s, op.sid, op.req, op.roster, op.recorder, op.now, after);
      forall i | 0 <= i < |after.records| ensures after.records[i].billable {
        ConfirmRowByRow(s, op.sid, op.req, op.roster, op.recorder, op.now, after, i);
        var w := Write(op.sid, MarksOf(op.req, op.roster), op.recorder, op.now);
        if i >= |s.records| { FreshEntry(s.records, w, op.roster, i - |s.records|); }
      }
    }
  }

  lemma {:induction false} RunKeepsSound(ops: seq<Op>)
    ensures Sound(Run(ops).records)
  {
    if ops == [] {
    } else {
      RunKeepsSound(ops[..|ops|-1]);
      StepKeepsSound(Run(ops[..|ops|-1]), ops[|ops|-1]);
    }
  }

  lemma {:induction false} BillableSplits(s: State, rs: seq<Record>, e: EnrollmentId, since: int, upTo: int)
    requires forall i :: 0 <= i < |rs| ==> rs[i].billable
    ensures TallyOver(s, rs, e, since, upTo).billable ==
      TallyOver(s, rs, e, since, upTo).present + TallyOver(s, rs, e, since, upTo).absent
  {
    if rs == [] {
    } else {
      BillableSplits(s, rs[..|rs|-1], e, since, upTo);
    }
  }

  /** In every reachable state each enrollment is billed for exactly its present plus its absent
      lessons, whatever the window. */
  lemma ReachableTalliesSplit(ops: seq<Op>, e: EnrollmentId, since: int, upTo: int)
    ensures var t := TallyOver(Run(ops), Run(ops).records, e, since, upTo); t.billable == t.present + t.absent
  {
    RunKeepsSound(ops);
    BillableSplits(Run(ops), Run(ops).records, e, since, upTo);
  }
}
