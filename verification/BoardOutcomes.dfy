/** What every board call does to the rows of the board, and when it is refused. */
module BoardOutcomes {
  import opened Options
  import opened Ids
  import opened KanbanOrder
  import opened KanbanBoard

  // ----- names ------------------------------------------------------------

  /** White space by code point. */
  predicate White(c: char) {
    var u := c as int;
    || 9 <= u <= 13 || 0x2000 <= u <= 0x200A
    || u in {0x20, 0x85, 0xA0, 0x1680, 0x2028, 0x2029, 0x202F, 0x205F, 0x3000}
  }

  ghost predicate Blank(s: string) { forall i :: 0 <= i < |s| ==> White(s[i]) }

  /** s[i..j] is s between the first and the last character that is not white space. */
  ghost predicate Span(s: string, i: nat, j: nat) {
    && i <= j <= |s| && Blank(s[..i]) && Blank(s[j..])
    && (i < j ==> !White(s[i]) && !White(s[j-1]))
  }

  ghost predicate Trims(s: string, r: string) {
    exists i: nat, j: nat :: Span(s, i, j) && r == s[i..j]
  }

  lemma {:induction false} TrimSpan(s: string) returns (i: nat, j: nat)
    ensures Span(s, i, j) && Trim(s) == s[i..j]
    decreases |s|
  {
    if s == [] {
      i, j := 0, 0;
    } else if White(s[0]) {
      i, j := TrimSpan(s[1..]);
      SpanAfterFirst(s, i, j);
      i, j := i + 1, j + 1;
    } else if White(s[|s|-1]) {
      i, j := TrimSpan(s[..|s|-1]);
      SpanBeforeLast(s, i, j);
    } else {
      i, j := 0, |s|;
    }
  }

  lemma BlankBoth(a: string, b: string)
    requires Blank(a) && Blank(b)
    ensures Blank(a + b)
  {
  }

  lemma SliceOfTail(s: string, i: nat, j: nat)
    requires s != [] && i <= j <= |s| - 1
    ensures s[i+1..j+1] == s[1..][i..j] && s[..i+1] == [s[0]] + s[1..][..i] && s[j+1..] == s[1..][j..]
  {
    var rest := s[1..];
    assert forall k :: 0 <= k < |rest| ==> rest[k] == s[k+1];
    assert forall k :: 0 <= k < j - i ==> s[i+1..j+1][k] == rest[i..j][k];
  }

  lemma SpanAfterFirst(s: string, i: nat, j: nat)
    requires s != [] && White(s[0]) && Span(s[1..], i, j)
    ensures Span(s, i + 1, j + 1) && s[i+1..j+1] == s[1..][i..j]
  {
    var rest := s[1..];
    assert Blank([s[0]]);
    BlankBoth([s[0]], rest[..i]);
    SliceOfTail(s, i, j);
    if i < j { assert rest[i] == s[i+1] && rest[j-1] == s[j]; }
  }

  lemma SpanBeforeLast(s: string, i: nat, j: nat)
    requires s != [] && White(s[|s|-1]) && Span(s[..|s|-1], i, j)
    ensures Span(s, i, j) && s[i..j] == s[..|s|-1][i..j]
  {
    var front, last := s[..|s|-1], s[|s|-1];
    assert Blank([last]);
    BlankBoth(front[j..], [last]);
    assert s[j..] == front[j..] + [last] && s[..i] == front[..i];
    if i < j { assert front[i] == s[i] && front[j-1] == s[j-1]; }
  }

  lemma TrimTrims(s: string)
    ensures Trims(s, Trim(s))
  {
    var i, j := TrimSpan(s);
  }

  /** The same letter in either case, or the same character. */
  predicate SameLetter(c: char, d: char) {
    c == d || ('A' <= c <= 'Z' && d as int == c as int + 32) || ('A' <= d <= 'Z' && c as int == d as int + 32)
  }

  /** Equal but for the case of ASCII letters. */
  ghost predicate SameIgnoringCase(a: string, b: string) {
    |a| == |b| && forall i :: 0 <= i < |a| ==> SameLetter(a[i], b[i])
  }

  lemma LowerIgnoresCase(a: string, b: string)
    ensures Lower(a) == Lower(b) <==> SameIgnoringCase(a, b)
  {
    if Lower(a) == Lower(b) {
      forall i | 0 <= i < |a| ensures SameLetter(a[i], b[i]) { assert Lower(a)[i] == Lower(b)[i]; }
    }
  }

  ghost predicate Taken(columns: map<ColumnId, Column>, name: string) {
    exists c :: c in columns && SameIgnoringCase(columns[c].name, name)
  }

  lemma TakenIffExists(columns: map<ColumnId, Column>, name: string)
    ensures ExistsName(columns, name) <==> Taken(columns, name)
  {
    forall c | c in columns ensures Lower(columns[c].name) == Lower(name) <==> SameIgnoringCase(columns[c].name, name) {
      LowerIgnoresCase(columns[c].name, name);
    }
  }

  // ----- columns ----------------------------------------------------------

  /** A new column: named by the trimmed name, put at the column count. Refused, in this order, when the
      name is blank, too long or taken ignoring case, when the board is full, or when the id is taken. */
  lemma CreateColumnOutcome(b: Board, lim: Limits, id: ColumnId, name: string, isDone: bool)
    ensures exists trimmed :: (Trims(name, trimmed) &&
      CreateColumn(b, lim, id, name, isDone) ==
        if trimmed == [] then Err(EmptyName)
        else if |trimmed| > lim.maxNameLen then Err(InvalidInput)
        else if Taken(b.columns, trimmed) then Err(DuplicateColumnName)
        else if |b.columns| >= lim.maxColumns then Err(ColumnLimit)
        else if id in b.columns then Err(IdTaken)
        else Ok(Board(b.columns[id := Column(trimmed, |b.columns|, isDone)], b.tasks)))
  {
    TrimTrims(name);
    TakenIffExists(b.columns, Trim(name));
  }

  /** By default a board takes eight columns with names of at most forty characters. */
  lemma DefaultLimits(b: Board, id: ColumnId, name: string, isDone: bool)
    ensures |b.columns| >= 8 ==> CreateColumn(b, DEFAULT_LIMITS, id, name, isDone).Err?
    ensures |Trim(name)| > 40 ==> CreateColumn(b, DEFAULT_LIMITS, id, name, isDone) == Err(InvalidInput)
    ensures |b.columns| < 8 && 0 < |Trim(name)| <= 40 && !Taken(b.columns, Trim(name)) && id !in b.columns ==>
      CreateColumn(b, DEFAULT_LIMITS, id, name, isDone).Ok?
  {
    TakenIffExists(b.columns, Trim(name));
  }

  /** A patch: what it does not give stays, position included; no task changes. Besides the refusals of a
      creation's name an unknown column is refused first; its own name in another case is free. */
  lemma UpdateColumnOutcome(b: Board, lim: Limits, id: ColumnId, name: Option<string>, isDone: Option<bool>)
    ensures exists trimmed :: ((name.Some? ==> Trims(name.value, trimmed)) &&
      UpdateColumn(b, lim, id, name, isDone) ==
        if id !in b.columns then Err(ColumnNotFound)
        else if name.Some? && trimmed == [] then Err(EmptyName)
        else if name.Some? && |trimmed| > lim.maxNameLen then Err(InvalidInput)
        else if name.Some? && !SameIgnoringCase(trimmed, b.columns[id].name) && Taken(b.columns, trimmed)
        then Err(DuplicateColumnName)
        else
          var was := b.columns[id];
          Ok(Board(b.columns[id := Column(if name.Some? then trimmed else was.name, was.position,
                                          if isDone.Some? then isDone.value else was.isDone)], b.tasks)))
  {
    var trimmed := if name.Some? then Trim(name.value) else [];
    if name.Some? {
      TrimTrims(name.value);
      TakenIffExists(b.columns, trimmed);
      if id in b.columns { LowerIgnoresCase(trimmed, b.columns[id].name); }
    }
    assert name.Some? ==> Trims(name.value, trimmed);
  }

  /** A deletion takes the column away and re-points each of its tasks, deleted ones included, to the
      target: completed now when the target is a done column, not completed otherwise. Every other task
      stays as it was. */
  lemma DeleteColumnOutcome(b: Board, id: ColumnId, moveTo: Option<ColumnId>, now: nat)
    ensures DeleteColumn(b, id, moveTo, now).Ok? <==>
      && id in b.columns && |b.columns| > 1
      && match moveTo {
           case None => forall i :: 0 <= i < |b.tasks| ==> b.tasks[i].column != id
           case Some(to) => to in b.columns && to != id }
    ensures DeleteColumn(b, id, moveTo, now).Ok? ==>
      var after := DeleteColumn(b, id, moveTo, now).value;
      && (forall c :: c in after.columns <==> c in b.columns && c != id)
      && (forall c :: c in after.columns ==> after.columns[c] == b.columns[c])
      && |after.tasks| == |b.tasks|
      && forall i :: 0 <= i < |b.tasks| ==>
           var was := b.tasks[i];
           after.tasks[i] ==
             if was.column == id && moveTo.Some? then
               was.(column := moveTo.value,
                    completedAt := if b.columns[moveTo.value].isDone then Some(now) else None)
             else was
  {
    if DeleteColumn(b, id, moveTo, now).Ok? && moveTo.Some? {
      var to := moveTo.value;
      forall i | 0 <= i < |b.tasks|
        ensures DeleteColumn(b, id, moveTo, now).value.tasks[i] ==
          Remapped(b.tasks[i], id, to, CompletedAtIf(b.columns[to].isDone, now))
      {
      }
    }
  }

  /** Which refusal a deletion gets. */
  lemma DeleteColumnRefusals(b: Board, id: ColumnId, moveTo: Option<ColumnId>, now: nat)
    requires DeleteColumn(b, id, moveTo, now).Err?
    ensures DeleteColumn(b, id, moveTo, now).error ==
      if id !in b.columns then ColumnNotFound
      else if |b.columns| <= 1 then LastColumn
      else if moveTo == Some(id) then MoveToSelf
      else if moveTo == None then ColumnNotEmpty
      else ColumnNotFound
  {
  }

  // ----- tasks ------------------------------------------------------------

  /** p is one less than the lowest position of a live task of the column, zero when there is none. */
  ghost predicate TopPosition(tasks: seq<Task>, col: ColumnId, p: real) {
    if exists x: TaskId :: Live(tasks, col, x) then
      exists x: TaskId :: Live(tasks, col, x) && p == tasks[x].position - 1.0 && Lowest(tasks, col, x)
    else p == 0.0
  }

  ghost predicate Lowest(tasks: seq<Task>, col: ColumnId, x: TaskId)
    requires x < |tasks|
  {
    forall y: TaskId :: Live(tasks, col, y) ==> tasks[x].position <= tasks[y].position
  }

  lemma TopOfIsTop(tasks: seq<Task>, col: ColumnId)
    ensures TopPosition(tasks, col, TopOf(tasks, Rows(tasks, col)))
  {
    var rows := Rows(tasks, col);
    RowsSorted(tasks, col);
    if rows == [] {
      forall x: TaskId | true ensures !Live(tasks, col, x) { RowsMembers(tasks, col, x); }
    } else {
      RowsMembers(tasks, col, rows[0]);
      forall y: TaskId | Live(tasks, col, y) ensures tasks[rows[0]].position <= tasks[y].position {
        RowsMembers(tasks, col, y);
        var j :| 0 <= j < |rows| && rows[j] == y;
        if j > 0 { assert Less(tasks, rows[0], rows[j]); }
      }
      assert Lowest(tasks, col, rows[0]);
    }
  }

  /** A new task: live, not completed, on top of an existing column, assigned to a member or to nobody.
      Refused, in this order, for a blank title, an unknown column or an assignee who is no member. */
  lemma AddTaskOutcome(b: Board, col: ColumnId, title: string, creator: nat, assignee: Option<nat>, members: set<nat>)
    ensures exists p :: (TopPosition(b.tasks, col, p) &&
      AddTask(b, col, title, creator, assignee, members) ==
        if Blank(title) then Err(EmptyTitle)
        else if col !in b.columns then Err(ColumnNotFound)
        else if assignee.Some? && assignee.value !in members then Err(AssigneeNotMember)
        else Ok(Board(b.columns, b.tasks + [Task(col, p, false, None, creator, assignee)])))
  {
    BlankIffTrimmed(title);
    TopOfIsTop(b.tasks, col);
  }

  lemma BlankIffTrimmed(s: string)
    ensures Trim(s) == "" <==> Blank(s)
  {
    var i, j := TrimSpan(s);
    if i == j { assert s == s[..i] + s[j..]; }
  }

  /** An edit rewrites the assignee of a live task and nothing else of the board. */
  lemma EditTaskOutcome(b: Board, id: TaskId, title: string, assignee: Option<nat>, members: set<nat>)
    ensures EditTask(b, id, title, assignee, members) ==
      if id >= |b.tasks| || b.tasks[id].deleted then Err(TaskNotFound)
      else if Blank(title) then Err(EmptyTitle)
      else if assignee.Some? && assignee.value !in members then Err(AssigneeNotMember)
      else Ok(Board(b.columns, b.tasks[id := b.tasks[id].(assignee := assignee)]))
  {
    BlankIffTrimmed(title);
  }

  /** Deleting needs a live task, restoring a deleted one; each flips that mark alone. */
  lemma DeleteRestoreOutcome(b: Board, id: TaskId)
    ensures DeleteTask(b, id) ==
      if id < |b.tasks| && !b.tasks[id].deleted
      then Ok(Board(b.columns, b.tasks[id := b.tasks[id].(deleted := true)])) else Err(TaskNotFound)
    ensures RestoreTask(b, id) ==
      if id < |b.tasks| && b.tasks[id].deleted
      then Ok(Board(b.columns, b.tasks[id := b.tasks[id].(deleted := false)])) else Err(TaskNotFound)
  {
  }

  /** A handover takes the departed member off every live task: unassigned, and created by the new owner. */
  lemma HandoverOutcome(b: Board, lim: Limits, departed: nat, newOwner: nat)
    ensures var after := Next(b, lim, OpHandover(departed, newOwner));
      && after.columns == b.columns && |after.tasks| == |b.tasks|
      && forall i :: 0 <= i < |b.tasks| ==>
           var was := b.tasks[i];
           after.tasks[i] ==
             if was.deleted then was
             else Task(was.column, was.position, false, was.completedAt,
                       if was.creator == departed then newOwner else was.creator,
                       if was.assignee == Some(departed) then None else was.assignee)
  {
    var after := Next(b, lim, OpHandover(departed, newOwner));
    forall i | 0 <= i < |b.tasks| ensures after.tasks[i] == HandedOver(b.tasks[i], departed, newOwner) {}
  }

  // ----- moves ------------------------------------------------------------

  /** Which moves are refused, and how. */
  lemma MoveRefusals(b: Board, id: TaskId, target: ColumnId, after: Option<TaskId>, now: nat)
    ensures Move(b, id, target, after, now).Err? <==>
      || id >= |b.tasks| || b.tasks[id].deleted || target !in b.columns
      || (after.Some? && (after.value == id || !Live(b.tasks, target, after.value)))
    ensures Move(b, id, target, after, now).Err? ==>
      Move(b, id, target, after, now).error ==
        if id >= |b.tasks| || b.tasks[id].deleted then TaskNotFound
        else if target !in b.columns then ColumnNotFound
        else InvalidAfterTask
  {
    if LiveTask(b.tasks, id) && target in b.columns {
      MoveSucceedsIff(b.tasks, id, target, after, CompletedAtIf(b.columns[target].isDone, now));
    }
  }

  /** A move puts the task into the target column, completed now when that is a done column and not
      completed otherwise, and changes of every other task at most the position. */
  lemma MoveOutcome(b: Board, id: TaskId, target: ColumnId, after: Option<TaskId>, now: nat)
    requires Move(b, id, target, after, now).Ok?
    ensures var tasks := Move(b, id, target, after, now).value.tasks;
      && Move(b, id, target, after, now).value.columns == b.columns
      && |tasks| == |b.tasks| && id < |b.tasks| && target in b.columns
      && tasks[id] == b.tasks[id].(column := target, position := tasks[id].position,
                                   completedAt := if b.columns[target].isDone then Some(now) else None)
      && forall x: TaskId :: x < |tasks| && x != id ==> tasks[x] == b.tasks[x].(position := tasks[x].position)
  {
    MovedShape(b.tasks, id, target, after, CompletedAtIf(b.columns[target].isDone, now));
  }

  /** Without an anchor the task goes on top; no other task changes. */
  lemma MoveToTop(b: Board, id: TaskId, target: ColumnId, now: nat)
    requires Move(b, id, target, None, now).Ok?
    ensures var tasks := Move(b, id, target, None, now).value.tasks;
      && |tasks| == |b.tasks| && TopPosition(b.tasks, target, tasks[id].position)
      && forall x: TaskId :: x < |tasks| && x != id ==> tasks[x] == b.tasks[x]
  {
    TopOfIsTop(b.tasks, target);
  }

  /** n is the first live task of the column after a, the moving one left aside. */
  ghost predicate Successor(tasks: seq<Task>, col: ColumnId, id: TaskId, a: TaskId, n: TaskId) {
    && Live(tasks, col, a) && Live(tasks, col, n) && n != id && Less(tasks, a, n)
    && forall y: TaskId :: Live(tasks, col, y) && y != id && Less(tasks, a, y) ==> y == n || Less(tasks, n, y)
  }

  ghost predicate IsLast(tasks: seq<Task>, col: ColumnId, id: TaskId, a: TaskId) {
    Live(tasks, col, a) && forall y: TaskId :: Live(tasks, col, y) && y != id ==> !Less(tasks, a, y)
  }

  lemma LessMeansLater(tasks: seq<Task>, rest: seq<TaskId>, i: nat, j: nat)
    requires Within(tasks, rest) && Sorted(tasks, rest) && i < |rest| && j < |rest|
    requires Less(tasks, rest[i], rest[j])
    ensures i < j
  {
  }

  /** Among the rows of the column but for the moving task, the row after the anchor is its successor. */
  lemma NextRow(tasks: seq<Task>, col: ColumnId, id: TaskId, a: TaskId)
    requires Live(tasks, col, a) && a != id
    ensures var rest := Without(Rows(tasks, col), id);
      && IndexOf(rest, a).Some?
      && var i := IndexOf(rest, a).value + 1;
         if i < |rest| then Successor(tasks, col, id, a, rest[i]) else IsLast(tasks, col, id, a)
  {
    var rows, rest := Rows(tasks, col), Without(Rows(tasks, col), id);
    RowsSorted(tasks, col);
    WithoutSorted(tasks, rows, id);
    forall y: TaskId | true ensures y in rest <==> Live(tasks, col, y) && y != id {
      WithoutMembers(rows, id, y);
      RowsMembers(tasks, col, y);
    }
    var i := IndexOf(rest, a).value;
    if i + 1 < |rest| {
      assert rest[i+1] in rest && Less(tasks, rest[i], rest[i+1]);
    }
    forall y: TaskId | Live(tasks, col, y) && y != id && Less(tasks, a, y)
      ensures i + 1 < |rest| && (y == rest[i+1] || Less(tasks, rest[i+1], y))
    {
      assert y in rest;
      var j :| 0 <= j < |rest| && rest[j] == y;
      LessMeansLater(tasks, rest, i, j);
    }
  }

  /** After the last task: one further; no other task changes. */
  lemma MoveToEnd(b: Board, id: TaskId, target: ColumnId, a: TaskId, now: nat)
    requires Move(b, id, target, Some(a), now).Ok? && IsLast(b.tasks, target, id, a)
    ensures var tasks := Move(b, id, target, Some(a), now).value.tasks;
      && |tasks| == |b.tasks| && tasks[id].position == b.tasks[a].position + 1.0
      && forall x: TaskId :: x < |tasks| && x != id ==> tasks[x] == b.tasks[x]
  {
    MoveRefusals(b, id, target, Some(a), now);
    NextRow(b.tasks, target, id, a);
  }

  /** Between two tasks: in the middle, and no other task changes, while half the gap is at least one
      millionth. */
  lemma MoveBetween(b: Board, id: TaskId, target: ColumnId, a: TaskId, n: TaskId, now: nat)
    requires Move(b, id, target, Some(a), now).Ok? && Successor(b.tasks, target, id, a, n)
    requires b.tasks[n].position - b.tasks[a].position >= 0.000002
    ensures var tasks := Move(b, id, target, Some(a), now).value.tasks;
      && |tasks| == |b.tasks| && tasks[id].position == (b.tasks[a].position + b.tasks[n].position) / 2.0
      && forall x: TaskId :: x < |tasks| && x != id ==> tasks[x] == b.tasks[x]
  {
    MoveRefusals(b, id, target, Some(a), now);
    NextRow(b.tasks, target, id, a);
  }

  /** In a narrower gap the column is numbered 0, 1, 2, ... in its order first, and the task is put in
      the middle of the new gap; no task of another column changes. */
  lemma MoveIntoNarrowGap(b: Board, id: TaskId, target: ColumnId, a: TaskId, n: TaskId, now: nat)
    requires Move(b, id, target, Some(a), now).Ok? && Successor(b.tasks, target, id, a, n)
    requires b.tasks[n].position - b.tasks[a].position < 0.000002
    ensures var tasks, rows := Move(b, id, target, Some(a), now).value.tasks, Rows(b.tasks, target);
      && |tasks| == |b.tasks| && a < |tasks| && n < |tasks|
      && tasks[id].position == (tasks[a].position + tasks[n].position) / 2.0
      && (forall i :: 0 <= i < |rows| && rows[i] != id ==> tasks[rows[i]].position == i as real)
      && forall x: TaskId :: x < |tasks| && x != id && !Live(b.tasks, target, x) ==> tasks[x] == b.tasks[x]
  {
    var tasks, rows := b.tasks, Rows(b.tasks, target);
    MoveRefusals(b, id, target, Some(a), now);
    NextRow(tasks, target, id, a);
    var again := Renormalized(tasks, rows);
    RenormalizedOrder(tasks, target);
    forall i | 0 <= i < |rows| && rows[i] != id
      ensures Move(b, id, target, Some(a), now).value.tasks[rows[i]].position == i as real
    {
      RenormalizedPosition(tasks, target, i);
    }
    forall x: TaskId | x < |tasks| && x != id && !Live(tasks, target, x)
      ensures Move(b, id, target, Some(a), now).value.tasks[x] == tasks[x]
    {
      RowsMembers(tasks, target, x);
    }
  }
}
