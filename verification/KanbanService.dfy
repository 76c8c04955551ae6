/** The kanban service over its stored columns and tasks: each method runs the source's own
    loops and leaves exactly the board its specification function describes. */
module KanbanService {
  import opened Options
  import opened Ids
  import opened KanbanOrder
  import opened KanbanBoard

  // ----- placement scans --------------------------------------------------

  lemma {:induction false} WithoutConcat(a: seq<TaskId>, b: seq<TaskId>, id: TaskId)
    ensures Without(a + b, id) == Without(a, id) + Without(b, id)
  {
    if b == [] {
      assert a + b == a;
    } else {
      var n := |b|;
      assert (a + b)[..|a|+n-1] == a + b[..n-1];
      WithoutConcat(a, b[..n-1], id);
    }
  }

  lemma {:induction false} IndexOfConcat(a: seq<TaskId>, b: seq<TaskId>, id: TaskId)
    requires id !in a
    ensures IndexOf(a + b, id) == match IndexOf(b, id) case Some(i) => Some(|a| + i) case None => None
  {
    if a == [] {
      assert a + b == b;
    } else {
      assert (a + b)[1..] == a[1..] + b;
      IndexOfConcat(a[1..], b, id);
    }
  }

  /** Where the anchor and its successor sit once the moving task is skipped. */
  lemma AnchorSplit(rows: seq<TaskId>, i: nat, moving: TaskId)
    requires i < |rows| && rows[i] !in rows[..i] && rows[i] != moving
    ensures var rest, before := Without(rows, moving), Without(rows[..i], moving);
      rest == before + [rows[i]] + Without(rows[i+1..], moving) && IndexOf(rest, rows[i]) == Some(|before|)
  {
    var before := Without(rows[..i], moving);
    assert rows == rows[..i] + ([rows[i]] + rows[i+1..]);
    WithoutConcat(rows[..i], [rows[i]] + rows[i+1..], moving);
    WithoutConcat([rows[i]], rows[i+1..], moving);
    assert Without([rows[i]], moving) == [rows[i]];
    WithoutMembers(rows[..i], moving, rows[i]);
    IndexOfConcat(before, [rows[i]] + Without(rows[i+1..], moving), rows[i]);
    assert Without(rows, moving) == before + ([rows[i]] + Without(rows[i+1..], moving));
  }

  lemma SuccessorSplit(rows: seq<TaskId>, i: nat, j: nat, moving: TaskId)
    requires i < j <= |rows| && Without(rows[i+1..j], moving) == []
    requires j < |rows| ==> rows[j] != moving
    ensures j == |rows| ==> Without(rows[i+1..], moving) == []
    ensures j < |rows| ==> Without(rows[i+1..], moving) != [] && Without(rows[i+1..], moving)[0] == rows[j]
  {
    if j == |rows| {
      assert rows[i+1..] == rows[i+1..j];
    } else {
      assert rows[i+1..] == rows[i+1..j] + ([rows[j]] + rows[j+1..]);
      WithoutConcat(rows[i+1..j], [rows[j]] + rows[j+1..], moving);
      WithoutConcat([rows[j]], rows[j+1..], moving);
      assert Without([rows[j]], moving) == [rows[j]];
    }
  }

  /** Steps over the moving task to the anchor's successor. */
  method FindSuccessor(rows: seq<TaskId>, i: nat, moving: TaskId) returns (j: nat)
    requires i < |rows|
    ensures i < j <= |rows|
    ensures j == |rows| ==> Without(rows[i+1..], moving) == []
    ensures j < |rows| ==> Without(rows[i+1..], moving) != [] && Without(rows[i+1..], moving)[0] == rows[j]
  {
    j := i + 1;
    while j < |rows| && rows[j] == moving
      invariant i < j <= |rows| && Without(rows[i+1..j], moving) == []
    {
      assert rows[i+1..j+1][..j-i-1] == rows[i+1..j];
      j := j + 1;
    }
    SuccessorSplit(rows, i, j, moving);
  }

  /** The scan for the anchor and its first successor other than the moving task. */
  method FindPositionAfter(tasks: seq<Task>, rows: seq<TaskId>, moving: TaskId, anchor: TaskId) returns (p: Placement)
    requires Within(tasks, rows)
    ensures p == PositionAfter(tasks, rows, moving, anchor)
  {
    if anchor == moving { return Invalid; }
    for i := 0 to |rows|
      invariant anchor !in rows[..i]
    {
      if rows[i] == anchor {
        AnchorSplit(rows, i, moving);
        var j := FindSuccessor(rows, i, moving);
        if j == |rows| { return At(tasks[anchor].position + 1.0, false); }
        var gap := tasks[rows[j]].position - tasks[anchor].position;
        return At(tasks[anchor].position + gap / 2.0, gap / 2.0 < MIN_POSITION_GAP);
      }
    }
    WithoutMembers(rows, moving, anchor);
    assert rows[..|rows|] == rows;
    return Invalid;
  }

  /** Accepts exactly the duplicate-free listings of the current ids of the same length. */
  method ValidatePermutation(current: seq<ColumnId>, incoming: seq<ColumnId>) returns (ok: bool)
    ensures ok <==> |current| == |incoming| && Distinct(incoming) && forall x :: x in incoming ==> x in current
  {
    if |current| != |incoming| { return false; }
    var want: set<ColumnId> := {};
    for i := 0 to |current|
      invariant want == set k | 0 <= k < i :: current[k]
    {
      want := want + {current[i]};
    }
    var seen: set<ColumnId> := {};
    for i := 0 to |incoming|
      invariant seen == set k | 0 <= k < i :: incoming[k]
      invariant Distinct(incoming[..i])
      invariant forall k :: 0 <= k < i ==> incoming[k] in want
    {
      if incoming[i] !in want {
        assert incoming[i] in incoming;
        return false;
      }
      if incoming[i] in seen {
        assert exists k :: 0 <= k < i && incoming[k] == incoming[i];
        return false;
      }
      seen := seen + {incoming[i]};
    }
    assert incoming[..|incoming|] == incoming;
    return true;
  }

  function Members(q: seq<ColumnId>): set<ColumnId> { set x | x in q }

  lemma {:induction false} DistinctCount(q: seq<ColumnId>)
    requires Distinct(q)
    ensures |Members(q)| == |q|
  {
    if q == [] {
    } else {
      var r, last := q[..|q|-1], q[|q|-1];
      DistinctCount(r);
      assert q == r + [last];
      assert Members(q) == Members(r) + {last};
    }
  }

  lemma SubsetOfSameSize(a: set<ColumnId>, b: set<ColumnId>)
    requires a <= b && |a| == |b|
    ensures a == b
  {
    assert b == a + (b - a);
    assert |b| == |a| + |b - a|;
    assert b - a == {};
  }

  /** Pigeonhole: the accepted lists are exactly the permutations of the current ids. */
  lemma AcceptsExactlyPermutations(current: seq<ColumnId>, incoming: seq<ColumnId>)
    requires Distinct(current)
    ensures (|current| == |incoming| && Distinct(incoming) && forall x :: x in incoming ==> x in current)
      <==> PermutationOf(incoming, Members(current))
  {
    var want, got := Members(current), Members(incoming);
    DistinctCount(current);
    if Distinct(incoming) {
      DistinctCount(incoming);
      if |current| == |incoming| && forall x :: x in incoming ==> x in current {
        SubsetOfSameSize(got, want);
        assert forall x: ColumnId :: x in incoming <==> x in got;
      }
      if PermutationOf(incoming, want) { assert got == want; }
    }
  }

  lemma RepositionOne(columns: map<ColumnId, Column>, done: seq<ColumnId>, c: ColumnId)
    requires c in columns && c !in done
    ensures Repositioned(columns, done + [c]) == Repositioned(columns, done)[c := columns[c].(position := |done|)]
  {
    forall d | d in columns
      ensures IndexOf(done + [c], d) == if d == c then Some(|done|) else IndexOf(done, d)
    {
      if d in done { IndexOfPrefix(done, [c], d); } else { IndexOfConcat(done, [c], d); }
    }
  }

  lemma RenormalizeOne(tasks: seq<Task>, done: seq<TaskId>, x: TaskId)
    requires x < |tasks| && x !in done
    ensures Renormalized(tasks, done + [x]) == Renormalized(tasks, done)[x := tasks[x].(position := |done| as real)]
  {
    forall y: TaskId | y < |tasks|
      ensures IndexOf(done + [x], y) == if y == x then Some(|done|) else IndexOf(done, y)
    {
      if y in done { IndexOfPrefix(done, [x], y); } else { IndexOfConcat(done, [x], y); }
    }
  }

  lemma RowsDistinct(tasks: seq<Task>, col: ColumnId)
    ensures Distinct(Rows(tasks, col))
  {
    RowsSorted(tasks, col);
    var rows := Rows(tasks, col);
    forall i, j | 0 <= i < j < |rows| ensures rows[i] != rows[j] { assert Less(tasks, rows[i], rows[j]); }
  }

  lemma LowestIsFirst(tasks: seq<Task>, col: ColumnId, x: TaskId)
    requires Live(tasks, col, x)
    ensures Rows(tasks, col) != [] && Live(tasks, col, Rows(tasks, col)[0])
    ensures tasks[Rows(tasks, col)[0]].position <= tasks[x].position
  {
    RowsMembers(tasks, col, x);
    RowsSorted(tasks, col);
    var rows := Rows(tasks, col);
    RowsMembers(tasks, col, rows[0]);
    var k :| 0 <= k < |rows| && rows[k] == x;
    if k > 0 { assert Less(tasks, rows[0], rows[k]); }
  }

  class Service {
    const limits: Limits
    var columns: map<ColumnId, Column>
    var tasks: seq<Task>

    function View(): Board
      reads this
    {
      Board(columns, tasks)
    }

    constructor (limits: Limits, columns: map<ColumnId, Column>)
      ensures View() == Board(columns, []) && this.limits == limits
    {
      this.limits, this.columns, this.tasks := limits, columns, [];
    }

    // ----- columns --------------------------------------------------------

    method HasName(name: string) returns (found: bool)
      ensures found == ExistsName(columns, name)
    {
      var pending := columns.Keys;
      while pending != {}
        invariant pending <= columns.Keys
        invariant forall c :: c in columns.Keys - pending ==> Lower(columns[c].name) != Lower(name)
        decreases |pending|
      {
        var c :| c in pending;
        if Lower(columns[c].name) == Lower(name) { return true; }
        pending := pending - {c};
      }
      return false;
    }

    method AddColumn(id: ColumnId, name: string, isDone: bool) returns (r: Result<()>)
      modifies this`columns
      ensures match CreateColumn(old(View()), limits, id, name, isDone)
        case Ok(b) => r.Ok? && View() == b
        case Err(e) => r == Err(e) && View() == old(View())
    {
      match ValidateName(name, limits.maxNameLen) {
        case Err(e) => return Err(e);
        case Ok(trimmed) =>
          var dup := HasName(trimmed);
          if dup { return Err(DuplicateColumnName); }
          if |columns| >= limits.maxColumns { return Err(ColumnLimit); }
          if id in columns { return Err(IdTaken); }
          columns := columns[id := Column(trimmed, |columns|, isDone)];
          return Ok(());
      }
    }

    method PatchColumn(id: ColumnId, name: Option<string>, isDone: Option<bool>) returns (r: Result<()>)
      modifies this`columns
      ensures match UpdateColumn(old(View()), limits, id, name, isDone)
        case Ok(b) => r.Ok? && View() == b
        case Err(e) => r == Err(e) && View() == old(View())
    {
      if id !in columns { return Err(ColumnNotFound); }
      var col := columns[id];
      match name {
        case None =>
        case Some(raw) =>
          match ValidateName(raw, limits.maxNameLen) {
            case Err(e) => return Err(e);
            case Ok(trimmed) =>
              if Lower(trimmed) != Lower(col.name) {
                var dup := HasName(trimmed);
                if dup { return Err(DuplicateColumnName); }
              }
              col := col.(name := trimmed);
          }
      }
      if isDone.Some? { col := col.(isDone := isDone.value); }
      columns := columns[id := col];
      return Ok(());
    }

    /** One update per listed column, each taking its index as position. */
    method UpdatePositions(order: seq<ColumnId>)
      requires PermutationOf(order, columns.Keys)
      modifies this`columns
      ensures columns == Repositioned(old(columns), order)
    {
      for i := 0 to |order|
        invariant columns == Repositioned(old(columns), order[..i])
      {
        assert order[i] in order && order[i] !in order[..i];
        assert order[..i+1] == order[..i] + [order[i]];
        RepositionOne(old(columns), order[..i], order[i]);
        columns := columns[order[i] := columns[order[i]].(position := i)];
      }
      assert order[..|order|] == order;
    }

    method Reorder(current: seq<ColumnId>, order: seq<ColumnId>) returns (r: Result<()>)
      requires Distinct(current) && Members(current) == columns.Keys
      modifies this`columns
      ensures match ReorderColumns(old(View()), order)
        case Ok(b) => r.Ok? && View() == b
        case Err(e) => r == Err(e) && View() == old(View())
    {
      var ok := ValidatePermutation(current, order);
      AcceptsExactlyPermutations(current, order);
      if !ok { return Err(InvalidPermutation); }
      UpdatePositions(order);
      return Ok(());
    }

    /** Soft-deleted tasks count too. */
    method CountInColumn(col: ColumnId) returns (count: nat)
      ensures count > 0 <==> Holds(tasks, col)
      ensures count == |set i | 0 <= i < |tasks| && tasks[i].column == col|
    {
      count := 0;
      ghost var hit: set<nat> := {};
      for i := 0 to |tasks|
        invariant hit == set k | 0 <= k < i && tasks[k].column == col
        invariant count == |hit|
        invariant count > 0 <==> exists k :: 0 <= k < i && tasks[k].column == col
      {
        if tasks[i].column == col {
          count := count + 1;
          hit := hit + {i};
        }
      }
      assert hit == set i | 0 <= i < |tasks| && tasks[i].column == col;
    }

    method MoveAllToColumn(from: ColumnId, to: ColumnId, completedAt: Option<nat>)
      modifies this`tasks
      ensures tasks == MoveAll(old(tasks), from, to, completedAt)
    {
      for i := 0 to |tasks|
        invariant |tasks| == |old(tasks)|
        invariant forall k :: 0 <= k < i ==> tasks[k] == Remapped(old(tasks)[k], from, to, completedAt)
        invariant forall k :: i <= k < |tasks| ==> tasks[k] == old(tasks)[k]
      {
        if tasks[i].column == from {
          tasks := tasks[i := tasks[i].(column := to, completedAt := completedAt)];
        }
      }
    }

    method RemoveColumn(id: ColumnId, moveTo: Option<ColumnId>, now: nat) returns (r: Result<()>)
      modifies this
      ensures match DeleteColumn(old(View()), id, moveTo, now)
        case Ok(b) => r.Ok? && View() == b
        case Err(e) => r == Err(e) && View() == old(View())
    {
      if id !in columns { return Err(ColumnNotFound); }
      if |columns| <= 1 { return Err(LastColumn); }
      if moveTo == Some(id) { return Err(MoveToSelf); }
      var count := CountInColumn(id);
      if count > 0 && moveTo.None? { return Err(ColumnNotEmpty); }
      match moveTo {
        case None =>
        case Some(to) =>
          if to !in columns { return Err(ColumnNotFound); }
          MoveAllToColumn(id, to, CompletedAtIf(columns[to].isDone, now));
      }
      columns := columns - {id};
      return Ok(());
    }

    // ----- tasks ----------------------------------------------------------

    method MinPositionInColumn(col: ColumnId) returns (minPos: real, found: bool)
      ensures found <==> Rows(tasks, col) != []
      ensures found ==> minPos == tasks[Rows(tasks, col)[0]].position
    {
      minPos, found := 0.0, false;
      ghost var at: TaskId := 0;
      for i := 0 to |tasks|
        invariant !found ==> forall x: TaskId :: x < i ==> !Live(tasks, col, x)
        invariant found ==> at < i && Live(tasks, col, at) && minPos == tasks[at].position
        invariant found ==> forall x: TaskId :: x < i && Live(tasks, col, x) ==> minPos <= tasks[x].position
      {
        if Live(tasks, col, i) && (!found || tasks[i].position < minPos) {
          minPos, found, at := tasks[i].position, true, i;
        }
      }
      if found {
        LowestIsFirst(tasks, col, at);
      } else if Rows(tasks, col) != [] {
        RowsMembers(tasks, col, Rows(tasks, col)[0]);
      }
    }

    method NewTask(col: ColumnId, title: string, creator: nat, assignee: Option<nat>, members: set<nat>)
      returns (r: Result<()>)
      modifies this`tasks
      ensures match AddTask(old(View()), col, title, creator, assignee, members)
        case Ok(b) => r.Ok? && View() == b
        case Err(e) => r == Err(e) && View() == old(View())
    {
      if Trim(title) == "" { return Err(EmptyTitle); }
      if col !in columns { return Err(ColumnNotFound); }
      if assignee.Some? && assignee.value !in members { return Err(AssigneeNotMember); }
      var minPos, found := MinPositionInColumn(col);
      var top := if found then minPos - 1.0 else 0.0;
      tasks := tasks + [Task(col, top, false, None, creator, assignee)];
      return Ok(());
    }

    /** One update per listed task, each taking its index as position. */
    method RenormalizeColumn(order: seq<TaskId>)
      requires Within(tasks, order) && Distinct(order)
      modifies this`tasks
      ensures tasks == Renormalized(old(tasks), order)
    {
      for i := 0 to |order|
        invariant tasks == Renormalized(old(tasks), order[..i])
      {
        assert order[i] !in order[..i];
        assert order[..i+1] == order[..i] + [order[i]];
        RenormalizeOne(old(tasks), order[..i], order[i]);
        tasks := tasks[order[i] := tasks[order[i]].(position := i as real)];
      }
      assert order[..|order|] == order;
    }

    /** The position directly after the anchor, renormalising the column first when the gap is too small. */
    method PlaceAfter(id: TaskId, target: ColumnId, anchor: TaskId) returns (p: Placement)
      modifies this`tasks
      ensures p.Invalid? <==> PositionAfter(old(tasks), Rows(old(tasks), target), id, anchor).Invalid?
      ensures Renormalizes(old(tasks), id, target, Some(anchor)) ==>
        tasks == Renormalized(old(tasks), Rows(old(tasks), target))
      ensures !Renormalizes(old(tasks), id, target, Some(anchor)) ==> tasks == old(tasks)
      ensures p.At? ==> p == PositionAfter(tasks, Rows(tasks, target), id, anchor)
    {
      var rows := Rows(tasks, target);
      p := FindPositionAfter(tasks, rows, id, anchor);
      if p.At? && p.renormalize {
        RowsDistinct(tasks, target);
        OneRenormalizationSuffices(tasks, target, id, anchor);
        RenormalizeColumn(rows);
        p := FindPositionAfter(tasks, Rows(tasks, target), id, anchor);
      }
    }

    method MoveTo(id: TaskId, target: ColumnId, after: Option<TaskId>, now: nat) returns (r: Result<()>)
      modifies this`tasks
      ensures match Move(old(View()), id, target, after, now)
        case Ok(b) => r.Ok? && View() == b
        case Err(e) => r == Err(e) && View() == old(View())
    {
      if !LiveTask(tasks, id) { return Err(TaskNotFound); }
      if target !in columns { return Err(ColumnNotFound); }
      var completedAt := CompletedAtIf(columns[target].isDone, now);
      var position;
      match after {
        case None => position := TopOf(tasks, Rows(tasks, target));
        case Some(anchor) =>
          var p := PlaceAfter(id, target, anchor);
          if p.Invalid? { return Err(InvalidAfterTask); }
          position := p.position;
      }
      tasks := Put(tasks, id, target, position, completedAt);
      return Ok(());
    }

    method Edit(id: TaskId, title: string, assignee: Option<nat>, members: set<nat>) returns (r: Result<()>)
      modifies this`tasks
      ensures match EditTask(old(View()), id, title, assignee, members)
        case Ok(b) => r.Ok? && View() == b
        case Err(e) => r == Err(e) && View() == old(View())
    {
      if !LiveTask(tasks, id) { return Err(TaskNotFound); }
      if Trim(title) == "" { return Err(EmptyTitle); }
      if assignee.Some? && assignee.value !in members { return Err(AssigneeNotMember); }
      tasks := tasks[id := tasks[id].(assignee := assignee)];
      return Ok(());
    }

    method Remove(id: TaskId) returns (r: Result<()>)
      modifies this`tasks
      ensures match DeleteTask(old(View()), id)
        case Ok(b) => r.Ok? && View() == b
        case Err(e) => r == Err(e) && View() == old(View())
    {
      if !LiveTask(tasks, id) { return Err(TaskNotFound); }
      tasks := tasks[id := tasks[id].(deleted := true)];
      return Ok(());
    }

    method Restore(id: TaskId) returns (r: Result<()>)
      modifies this`tasks
      ensures match RestoreTask(old(View()), id)
        case Ok(b) => r.Ok? && View() == b
        case Err(e) => r == Err(e) && View() == old(View())
    {
      if id >= |tasks| || !tasks[id].deleted { return Err(TaskNotFound); }
      tasks := tasks[id := tasks[id].(deleted := false)];
      return Ok(());
    }

    /** UnassignBy, then ReassignCreator. */
    method HandoverOnDeparture(departed: nat, newOwner: nat)
      modifies this`tasks
      ensures tasks == Handover(old(tasks), departed, newOwner)
    {
      for i := 0 to |tasks|
        invariant |tasks| == |old(tasks)|
        invariant forall k :: 0 <= k < i ==>
          tasks[k] == if !old(tasks)[k].deleted && old(tasks)[k].assignee == Some(departed)
                                                        then old(tasks)[k].(assignee := None) else old(tasks)[k]
        invariant forall k :: i <= k < |tasks| ==> tasks[k] == old(tasks)[k]
      {
        if !tasks[i].deleted && tasks[i].assignee == Some(departed) {
          tasks := tasks[i := tasks[i].(assignee := None)];
        }
      }
      ghost var unassigned := tasks;
      for i := 0 to |tasks|
        invariant |tasks| == |unassigned|
        invariant forall k :: 0 <= k < i ==> tasks[k] == HandedOver(old(tasks)[k], departed, newOwner)
        invariant forall k :: i <= k < |tasks| ==> tasks[k] == unassigned[k]
      {
        if !tasks[i].deleted && tasks[i].creator == departed {
          tasks := tasks[i := tasks[i].(creator := newOwner)];
        }
      }
    }
  }

  lemma {:induction false} IndexOfPrefix(a: seq<TaskId>, b: seq<TaskId>, id: TaskId)
    requires id in a
    ensures IndexOf(a + b, id) == IndexOf(a, id)
  {
    if a[0] != id {
      assert a == [a[0]] + a[1..];
      assert (a + b)[1..] == a[1..] + b;
      IndexOfPrefix(a[1..], b, id);
    }
  }
}
