/** Task ordering inside a column: fractional positions, bisection, a minimum gap and
    renormalisation. A task's id is its creation index. Positions are exact reals. */
module KanbanOrder {
  import opened Options

  type TaskId = nat
  type ColumnId = nat

  datatype Task = Task(
    column: ColumnId, position: real, deleted: bool,
    completedAt: Option<nat>, creator: nat, assignee: Option<nat>)

  const MIN_POSITION_GAP: real := 0.000001

  predicate Live(tasks: seq<Task>, col: ColumnId, id: TaskId) {
    id < |tasks| && !tasks[id].deleted && tasks[id].column == col
  }

  ghost predicate Within(tasks: seq<Task>, order: seq<TaskId>) {
    forall i :: 0 <= i < |order| ==> order[i] < |tasks|
  }

  // ----- the listing: position, then creation time -------------------------

  function InsertRow(tasks: seq<Task>, order: seq<TaskId>, id: TaskId): (r: seq<TaskId>)
    requires id < |tasks| && Within(tasks, order)
    ensures Within(tasks, r)
  {
    var n := |order|;
    if n == 0 then [id]
    else if tasks[order[n-1]].position <= tasks[id].position then order + [id]
    else InsertRow(tasks, order[..n-1], id) + [order[n-1]]
  }

  function RowsUpTo(tasks: seq<Task>, col: ColumnId, n: nat): (r: seq<TaskId>)
    requires n <= |tasks|
    ensures Within(tasks, r)
  {
    if n == 0 then []
    else if Live(tasks, col, n-1) then InsertRow(tasks, RowsUpTo(tasks, col, n-1), n-1)
    else RowsUpTo(tasks, col, n-1)
  }

  /** The column's live tasks ordered by position, ties by creation. */
  function Rows(tasks: seq<Task>, col: ColumnId): (r: seq<TaskId>)
    ensures Within(tasks, r)
  {
    RowsUpTo(tasks, col, |tasks|)
  }

  predicate Less(tasks: seq<Task>, a: TaskId, b: TaskId)
    requires a < |tasks| && b < |tasks|
  {
    tasks[a].position < tasks[b].position || (tasks[a].position == tasks[b].position && a < b)
  }

  ghost predicate Sorted(tasks: seq<Task>, order: seq<TaskId>)
    requires Within(tasks, order)
  {
    forall i, j :: 0 <= i < j < |order| ==> Less(tasks, order[i], order[j])
  }

  lemma LastOrBefore(order: seq<TaskId>, x: TaskId)
    requires |order| > 0
    ensures x in order <==> x in order[..|order|-1] || x == order[|order|-1]
  {
    assert order == order[..|order|-1] + [order[|order|-1]];
  }

  lemma {:induction false} InsertRowMembers(tasks: seq<Task>, order: seq<TaskId>, id: TaskId, x: TaskId)
    requires id < |tasks| && Within(tasks, order)
    ensures x in InsertRow(tasks, order, id) <==> x in order || x == id
  {
    var n := |order|;
    if n > 0 && !(tasks[order[n-1]].position <= tasks[id].position) {
      InsertRowMembers(tasks, order[..n-1], id, x);
      LastOrBefore(order, x);
    }
  }

  lemma {:induction false} InsertRowSorted(tasks: seq<Task>, order: seq<TaskId>, id: TaskId)
    requires id < |tasks| && Within(tasks, order) && Sorted(tasks, order)
    requires forall i :: 0 <= i < |order| ==> order[i] < id
    ensures Sorted(tasks, InsertRow(tasks, order, id))
  {
    var n := |order|;
    if n == 0 {
    } else {
      if tasks[order[n-1]].position <= tasks[id].position {
        forall i | 0 <= i < n ensures Less(tasks, order[i], id) {
          if i < n-1 { assert Less(tasks, order[i], order[n-1]); }
        }
      } else {
        InsertRowSorted(tasks, order[..n-1], id);
        var r := InsertRow(tasks, order[..n-1], id);
        forall i | 0 <= i < |r| ensures Less(tasks, r[i], order[n-1]) {
          InsertRowMembers(tasks, order[..n-1], id, r[i]);
          if r[i] != id {
            var k :| 0 <= k < n-1 && order[..n-1][k] == r[i];
            assert Less(tasks, order[k], order[n-1]);
          }
        }
      }
    }
  }

  lemma {:induction false} RowsUpToMembers(tasks: seq<Task>, col: ColumnId, n: nat, x: TaskId)
    requires n <= |tasks|
    ensures x in RowsUpTo(tasks, col, n) <==> x < n && Live(tasks, col, x)
  {
    if n == 0 {
    } else {
      RowsUpToMembers(tasks, col, n-1, x);
      if Live(tasks, col, n-1) { InsertRowMembers(tasks, RowsUpTo(tasks, col, n-1), n-1, x); }
    }
  }

  lemma RowsMembers(tasks: seq<Task>, col: ColumnId, x: TaskId)
    ensures x in Rows(tasks, col) <==> Live(tasks, col, x)
  {
    RowsUpToMembers(tasks, col, |tasks|, x);
  }

  lemma {:induction false} RowsUpToSorted(tasks: seq<Task>, col: ColumnId, n: nat)
    requires n <= |tasks|
    ensures Sorted(tasks, RowsUpTo(tasks, col, n))
  {
    if n == 0 {
    } else {
      RowsUpToSorted(tasks, col, n-1);
      if Live(tasks, col, n-1) {
        var before := RowsUpTo(tasks, col, n-1);
        forall i | 0 <= i < |before| ensures before[i] < n-1 { RowsUpToMembers(tasks, col, n-1, before[i]); }
        InsertRowSorted(tasks, before, n-1);
      }
    }
  }

  lemma RowsSorted(tasks: seq<Task>, col: ColumnId)
    ensures Sorted(tasks, Rows(tasks, col))
  {
    RowsUpToSorted(tasks, col, |tasks|);
  }

  ghost predicate SameMembers(a: seq<TaskId>, b: seq<TaskId>) {
    forall x: TaskId :: x in a <==> x in b
  }

  lemma SplitLast(tasks: seq<Task>, a: seq<TaskId>, x: TaskId)
    requires |a| > 0 && Within(tasks, a) && Sorted(tasks, a)
    ensures x in a[..|a|-1] <==> x in a && x != a[|a|-1]
  {
    LastOrBefore(a, x);
    if x in a[..|a|-1] {
      var k :| 0 <= k < |a|-1 && a[..|a|-1][k] == x;
      assert Less(tasks, a[k], a[|a|-1]);
    }
  }

  lemma SameLast(tasks: seq<Task>, a: seq<TaskId>, b: seq<TaskId>)
    requires Within(tasks, a) && Within(tasks, b) && Sorted(tasks, a) && Sorted(tasks, b)
    requires SameMembers(a, b) && |a| > 0
    ensures |b| > 0 && a[|a|-1] == b[|b|-1]
  {
    assert a[|a|-1] in b;
    assert b[|b|-1] in a;
    var i :| 0 <= i < |b| && b[i] == a[|a|-1];
    var j :| 0 <= j < |a| && a[j] == b[|b|-1];
  }

  /** A strictly sorted listing is determined by its members. */
  lemma {:induction false} SortedUnique(tasks: seq<Task>, a: seq<TaskId>, b: seq<TaskId>)
    requires Within(tasks, a) && Within(tasks, b) && Sorted(tasks, a) && Sorted(tasks, b)
    requires SameMembers(a, b)
    ensures a == b
    decreases |a|
  {
    if |a| == 0 {
      if |b| > 0 { SameLast(tasks, b, a); }
    } else {
      SameLast(tasks, a, b);
      var a1, b1 := a[..|a|-1], b[..|b|-1];
      assert SameMembers(a1, b1) by {
        forall x: TaskId | true ensures x in a1 <==> x in b1 {
          SplitLast(tasks, a, x);
          SplitLast(tasks, b, x);
        }
      }
      SortedUnique(tasks, a1, b1);
      assert a == a1 + [a[|a|-1]] && b == b1 + [b[|b|-1]];
    }
  }

  ghost predicate Lists(tasks: seq<Task>, col: ColumnId, order: seq<TaskId>) {
    forall x: TaskId :: x in order <==> Live(tasks, col, x)
  }

  /** Any sorted listing of exactly the live tasks is the column's listing. */
  lemma RowsAre(tasks: seq<Task>, col: ColumnId, order: seq<TaskId>)
    requires Within(tasks, order) && Sorted(tasks, order)
    requires Lists(tasks, col, order)
    ensures Rows(tasks, col) == order
  {
    RowsSorted(tasks, col);
    var rows := Rows(tasks, col);
    assert SameMembers(rows, order) by {
      forall x: TaskId | true ensures x in rows <==> x in order { RowsMembers(tasks, col, x); }
    }
    SortedUnique(tasks, rows, order);
  }

  // ----- the intended order -----------------------------------------------

  function Without(order: seq<TaskId>, id: TaskId): (r: seq<TaskId>)
    ensures |r| <= |order|
  {
    var n := |order|;
    if n == 0 then []
    else if order[n-1] == id then Without(order[..n-1], id)
    else Without(order[..n-1], id) + [order[n-1]]
  }

  lemma {:induction false} WithoutMembers(order: seq<TaskId>, id: TaskId, x: TaskId)
    ensures x in Without(order, id) <==> x in order && x != id
  {
    if |order| == 0 {
    } else {
      WithoutMembers(order[..|order|-1], id, x);
      LastOrBefore(order, x);
    }
  }

  function IndexOf(order: seq<TaskId>, id: TaskId): (r: Option<nat>)
    ensures r.Some? ==> r.value < |order| && order[r.value] == id
    ensures r.None? <==> id !in order
  {
    if |order| == 0 then None
    else if order[0] == id then Some(0)
    else match IndexOf(order[1..], id) case Some(i) => Some(i + 1) case None => None
  }

  /** id taken out and put back first, or directly after the anchor. */
  function Placed(order: seq<TaskId>, id: TaskId, after: Option<TaskId>): seq<TaskId> {
    var rest := Without(order, id);
    match after
    case None => [id] + rest
    case Some(a) =>
      match IndexOf(rest, a)
      case None => rest + [id]
      case Some(i) => rest[..i+1] + [id] + rest[i+1..]
  }

  lemma {:induction false} WithoutWithin(tasks: seq<Task>, order: seq<TaskId>, id: TaskId)
    requires Within(tasks, order)
    ensures Within(tasks, Without(order, id))
  {
    if |order| == 0 {
    } else {
      WithoutWithin(tasks, order[..|order|-1], id);
    }
  }

  lemma {:induction false} WithoutSorted(tasks: seq<Task>, order: seq<TaskId>, id: TaskId)
    requires Within(tasks, order) && Sorted(tasks, order)
    ensures Within(tasks, Without(order, id)) && Sorted(tasks, Without(order, id))
  {
    WithoutWithin(tasks, order, id);
    var n := |order|;
    if n == 0 {
    } else {
      WithoutSorted(tasks, order[..n-1], id);
      var r := Without(order[..n-1], id);
      forall i | 0 <= i < |r| ensures Less(tasks, r[i], order[n-1]) {
        WithoutMembers(order[..n-1], id, r[i]);
        var k :| 0 <= k < n-1 && order[..n-1][k] == r[i];
        assert Less(tasks, order[k], order[n-1]);
      }
    }
  }

  // ----- placement --------------------------------------------------------

  datatype Placement = Invalid | At(position: real, renormalize: bool)

  function TopOf(tasks: seq<Task>, rows: seq<TaskId>): real
    requires Within(tasks, rows)
  {
    if rows == [] then 0.0 else tasks[rows[0]].position - 1.0
  }

  /** After the anchor, skipping the moving task: one past the end, or the midpoint of the gap. */
  function PositionAfter(tasks: seq<Task>, rows: seq<TaskId>, moving: TaskId, anchor: TaskId): Placement
    requires Within(tasks, rows)
  {
    var rest := Without(rows, moving);
    WithoutWithin(tasks, rows, moving);
    if anchor == moving then Invalid
    else match IndexOf(rest, anchor)
    case None => Invalid
    case Some(i) =>
      if i + 1 == |rest| then At(tasks[rest[i]].position + 1.0, false)
      else
        var gap := tasks[rest[i+1]].position - tasks[rest[i]].position;
        At(tasks[rest[i]].position + gap / 2.0, gap / 2.0 < MIN_POSITION_GAP)
  }

  function Renormalized(tasks: seq<Task>, order: seq<TaskId>): (r: seq<Task>)
    ensures |r| == |tasks|
    ensures forall x :: 0 <= x < |tasks| ==>
      r[x] == match IndexOf(order, x) { case Some(i) => tasks[x].(position := i as real) case None => tasks[x] }
  {
    seq(|tasks|, x requires 0 <= x < |tasks| =>
      match IndexOf(order, x) { case Some(i) => tasks[x].(position := i as real) case None => tasks[x] })
  }

  datatype Outcome = NoTask | InvalidAfter | Moved(tasks: seq<Task>)

  function Put(tasks: seq<Task>, id: TaskId, target: ColumnId, position: real, completedAt: Option<nat>): seq<Task>
    requires id < |tasks|
  {
    tasks[id := tasks[id].(column := target, position := position, completedAt := completedAt)]
  }

  predicate Renormalizes(tasks: seq<Task>, id: TaskId, target: ColumnId, after: Option<TaskId>) {
    after.Some? && match PositionAfter(tasks, Rows(tasks, target), id, after.value) {
      case At(_, renormalize) => renormalize
      case Invalid => false }
  }

  /** The whole of a task move; the target column exists. */
  function MoveTask(tasks: seq<Task>, id: TaskId, target: ColumnId, after: Option<TaskId>,
      completedAt: Option<nat>): Outcome {
    if id >= |tasks| || tasks[id].deleted then NoTask
    else match after
    case None => Moved(Put(tasks, id, target, TopOf(tasks, Rows(tasks, target)), completedAt))
    case Some(a) =>
      match PositionAfter(tasks, Rows(tasks, target), id, a)
      case Invalid => InvalidAfter
      case At(pos, false) => Moved(Put(tasks, id, target, pos, completedAt))
      case At(_, true) =>
        var again := Renormalized(tasks, Rows(tasks, target));
        match PositionAfter(again, Rows(again, target), id, a)
        case Invalid => InvalidAfter
        case At(pos, _) => Moved(Put(again, id, target, pos, completedAt))
  }

  /** A new task goes to the top of its column and is never completed. */
  function CreateTask(tasks: seq<Task>, col: ColumnId, creator: nat, assignee: Option<nat>): seq<Task> {
    tasks + [Task(col, TopOf(tasks, Rows(tasks, col)), false, None, creator, assignee)]
  }

  function SetDeleted(tasks: seq<Task>, id: TaskId, deleted: bool): seq<Task>
    requires id < |tasks|
  {
    tasks[id := tasks[id].(deleted := deleted)]
  }

  // ----- laws -------------------------------------------------------------

  lemma {:induction false} IndexOfUnique(order: seq<TaskId>, i: nat)
    requires i < |order| && forall j :: 0 <= j < i ==> order[j] != order[i]
    ensures IndexOf(order, order[i]) == Some(i)
  {
    if i == 0 {
    } else {
      assert order[1..][i-1] == order[i];
      IndexOfUnique(order[1..], i-1);
    }
  }

  lemma SortedDistinct(tasks: seq<Task>, order: seq<TaskId>, i: nat)
    requires Within(tasks, order) && Sorted(tasks, order) && i < |order|
    ensures IndexOf(order, order[i]) == Some(i)
  {
    forall j | 0 <= j < i ensures order[j] != order[i] { assert Less(tasks, order[j], order[i]); }
    IndexOfUnique(order, i);
  }

  lemma RenormalizedPosition(tasks: seq<Task>, col: ColumnId, i: nat)
    requires i < |Rows(tasks, col)|
    ensures Rows(tasks, col)[i] < |tasks|
    ensures Renormalized(tasks, Rows(tasks, col))[Rows(tasks, col)[i]] ==
      tasks[Rows(tasks, col)[i]].(position := i as real)
  {
    RowsSorted(tasks, col);
    SortedDistinct(tasks, Rows(tasks, col), i);
  }

  lemma RenormalizedElsewhere(tasks: seq<Task>, col: ColumnId, other: ColumnId, x: TaskId)
    requires other != col && x in Rows(tasks, other)
    ensures x < |tasks| && Renormalized(tasks, Rows(tasks, col))[x] == tasks[x]
  {
    RowsMembers(tasks, other, x);
    RowsMembers(tasks, col, x);
  }

  /** Renormalising rewrites positions to 0, 1, 2, ... and changes no column's order. */
  lemma RenormalizeKeepsOrder(tasks: seq<Task>, col: ColumnId, other: ColumnId)
    ensures Rows(Renormalized(tasks, Rows(tasks, col)), other) == Rows(tasks, other)
  {
    var order := Rows(tasks, other);
    var again := Renormalized(tasks, Rows(tasks, col));
    RowsSorted(tasks, other);
    RowsSorted(tasks, col);
    forall i, j | 0 <= i < j < |order| ensures Less(again, order[i], order[j]) {
      assert Less(tasks, order[i], order[j]);
      if other == col {
        RenormalizedPosition(tasks, col, i);
        RenormalizedPosition(tasks, col, j);
      } else {
        RenormalizedElsewhere(tasks, col, other, order[i]);
        RenormalizedElsewhere(tasks, col, other, order[j]);
      }
    }
    assert Lists(again, other, order) by {
      forall x: TaskId | true ensures x in order <==> Live(again, other, x) { RowsMembers(tasks, other, x); }
    }
    RowsAre(again, other, order);
  }

  lemma RenormalizedOrder(tasks: seq<Task>, col: ColumnId)
    ensures Rows(Renormalized(tasks, Rows(tasks, col)), col) == Rows(tasks, col)
  {
    RenormalizeKeepsOrder(tasks, col, col);
  }

  /** The moved task sits strictly between its new neighbours. */
  ghost predicate Fits(tasks: seq<Task>, rest: seq<TaskId>, i: nat, position: real)
    requires Within(tasks, rest) && i <= |rest|
  {
    && (forall k :: 0 <= k < i ==> tasks[rest[k]].position < position)
    && (forall k :: i <= k < |rest| ==> position < tasks[rest[k]].position)
  }

  lemma TopFits(tasks: seq<Task>, col: ColumnId, id: TaskId)
    ensures var rest := Without(Rows(tasks, col), id);
      Within(tasks, rest) && Within(tasks, Rows(tasks, col)) && Fits(tasks, rest, 0, TopOf(tasks, Rows(tasks, col)))
  {
    var rows := Rows(tasks, col);
    RowsSorted(tasks, col);
    WithoutSorted(tasks, rows, id);
    var rest := Without(rows, id);
    forall k | 0 <= k < |rest| ensures TopOf(tasks, rows) < tasks[rest[k]].position {
      WithoutMembers(rows, id, rest[k]);
      var j :| 0 <= j < |rows| && rows[j] == rest[k];
      if j > 0 { assert Less(tasks, rows[0], rows[j]); }
    }
  }

  lemma AfterFits(tasks: seq<Task>, col: ColumnId, id: TaskId, anchor: TaskId)
    requires PositionAfter(tasks, Rows(tasks, col), id, anchor).At? &&
      !PositionAfter(tasks, Rows(tasks, col), id, anchor).renormalize
    ensures var rest := Without(Rows(tasks, col), id);
      Within(tasks, rest) && IndexOf(rest, anchor).Some?
      && Fits(tasks, rest, IndexOf(rest, anchor).value + 1, PositionAfter(tasks, Rows(tasks, col), id, anchor).position)
  {
    var rows := Rows(tasks, col);
    RowsSorted(tasks, col);
    WithoutSorted(tasks, rows, id);
    var rest := Without(rows, id);
    var i := IndexOf(rest, anchor).value;
    forall k | 0 <= k < i ensures tasks[rest[k]].position <= tasks[rest[i]].position {
      assert Less(tasks, rest[k], rest[i]);
    }
    forall k | i + 1 < k < |rest| ensures tasks[rest[i+1]].position <= tasks[rest[k]].position {
      assert Less(tasks, rest[i+1], rest[k]);
    }
  }

  lemma PutSorted(tasks: seq<Task>, id: TaskId, target: ColumnId, i: nat, position: real, completedAt: Option<nat>)
    requires id < |tasks|
    requires Within(tasks, Without(Rows(tasks, target), id)) && i <= |Without(Rows(tasks, target), id)|
    requires Fits(tasks, Without(Rows(tasks, target), id), i, position)
    ensures var rest := Without(Rows(tasks, target), id);
      var after, order := Put(tasks, id, target, position, completedAt), rest[..i] + [id] + rest[i..];
      Within(after, order) && Sorted(after, order)
  {
    var rest := Without(Rows(tasks, target), id);
    var after := Put(tasks, id, target, position, completedAt);
    var order := rest[..i] + [id] + rest[i..];
    RowsSorted(tasks, target);
    WithoutSorted(tasks, Rows(tasks, target), id);
    forall k | 0 <= k < |rest| ensures rest[k] != id && after[rest[k]] == tasks[rest[k]] {
      WithoutMembers(Rows(tasks, target), id, rest[k]);
    }
    forall a, b | 0 <= a < b < |order| ensures Less(after, order[a], order[b]) {
      if a != i && b != i {
        assert Less(tasks, rest[if a < i then a else a-1], rest[if b < i then b else b-1]);
      }
    }
  }

  /** Putting id at a fitting position yields the old order without it, with it in slot i. */
  lemma PutOrder(tasks: seq<Task>, id: TaskId, target: ColumnId, i: nat, position: real, completedAt: Option<nat>)
    requires id < |tasks| && !tasks[id].deleted
    requires Within(tasks, Without(Rows(tasks, target), id)) && i <= |Without(Rows(tasks, target), id)|
    requires Fits(tasks, Without(Rows(tasks, target), id), i, position)
    ensures var rest := Without(Rows(tasks, target), id);
      Rows(Put(tasks, id, target, position, completedAt), target) == rest[..i] + [id] + rest[i..]
  {
    var rest := Without(Rows(tasks, target), id);
    var after := Put(tasks, id, target, position, completedAt);
    var order := rest[..i] + [id] + rest[i..];
    PutSorted(tasks, id, target, i, position, completedAt);
    assert Lists(after, target, order) by {
      forall x: TaskId | true ensures x in order <==> Live(after, target, x) {
        InOrder(rest, i, id, x);
        WithoutMembers(Rows(tasks, target), id, x);
        RowsMembers(tasks, target, x);
      }
    }
    RowsAre(after, target, order);
  }

  lemma InOrder(rest: seq<TaskId>, i: nat, id: TaskId, x: TaskId)
    requires i <= |rest|
    ensures x in rest[..i] + [id] + rest[i..] <==> x in rest || x == id
  {
    assert rest == rest[..i] + rest[i..];
  }

  lemma PutLeavesOthers(tasks: seq<Task>, id: TaskId, target: ColumnId, position: real, completedAt: Option<nat>,
      other: ColumnId)
    requires id < |tasks| && !tasks[id].deleted && other != target
    ensures Rows(Put(tasks, id, target, position, completedAt), other) == Without(Rows(tasks, other), id)
  {
    var after := Put(tasks, id, target, position, completedAt);
    var order := Without(Rows(tasks, other), id);
    RowsSorted(tasks, other);
    WithoutSorted(tasks, Rows(tasks, other), id);
    forall a, b | 0 <= a < b < |order| ensures Less(after, order[a], order[b]) {
      WithoutMembers(Rows(tasks, other), id, order[a]);
      WithoutMembers(Rows(tasks, other), id, order[b]);
      assert Less(tasks, order[a], order[b]);
    }
    assert Lists(after, other, order) by {
      forall x: TaskId | true ensures x in order <==> Live(after, other, x) {
        WithoutMembers(Rows(tasks, other), id, x);
        RowsMembers(tasks, other, x);
      }
    }
    RowsAre(after, other, order);
  }

  /** After a renormalisation every gap is at least one, so the second flag is always off. */
  lemma OneRenormalizationSuffices(tasks: seq<Task>, col: ColumnId, id: TaskId, anchor: TaskId)
    requires PositionAfter(tasks, Rows(tasks, col), id, anchor).At?
    ensures var again := Renormalized(tasks, Rows(tasks, col));
      Within(again, Rows(again, col)) && PositionAfter(again, Rows(again, col), id, anchor).At?
      && !PositionAfter(again, Rows(again, col), id, anchor).renormalize
  {
    var rows := Rows(tasks, col);
    var again := Renormalized(tasks, rows);
    RenormalizedOrder(tasks, col);
    RowsSorted(again, col);
    var rest := Without(rows, id);
    WithoutSorted(again, rows, id);
    var i := IndexOf(rest, anchor).value;
    if i + 1 < |rest| {
      WithoutMembers(rows, id, rest[i]);
      WithoutMembers(rows, id, rest[i+1]);
      RenormalizedGap(tasks, col, rest[i], rest[i+1]);
      assert Less(again, rest[i], rest[i+1]);
    }
  }

  /** Distinct rows of a renormalised column are at least one apart. */
  lemma RenormalizedGap(tasks: seq<Task>, col: ColumnId, a: TaskId, b: TaskId)
    requires a in Rows(tasks, col) && b in Rows(tasks, col) && a != b
    ensures a < |tasks| && b < |tasks|
    ensures var again := Renormalized(tasks, Rows(tasks, col));
      again[a].position - again[b].position >= 1.0 || again[b].position - again[a].position >= 1.0
  {
    var rows := Rows(tasks, col);
    var i :| 0 <= i < |rows| && rows[i] == a;
    var j :| 0 <= j < |rows| && rows[j] == b;
    RenormalizedPosition(tasks, col, i);
    RenormalizedPosition(tasks, col, j);
  }

  /** A move succeeds exactly when the task is live and the anchor, if any, is another live
      task of the target column. */
  lemma MoveSucceedsIff(tasks: seq<Task>, id: TaskId, target: ColumnId, after: Option<TaskId>, completedAt: Option<nat>)
    ensures MoveTask(tasks, id, target, after, completedAt).Moved? <==>
      id < |tasks| && !tasks[id].deleted
      && (after.Some? ==> after.value != id && Live(tasks, target, after.value))
  {
    if after.Some? {
      var a := after.value;
      WithoutMembers(Rows(tasks, target), id, a);
      RowsMembers(tasks, target, a);
      if Renormalizes(tasks, id, target, after) { OneRenormalizationSuffices(tasks, target, id, a); }
    }
  }

  /** The order theorem: ties or not, renormalised or not, the target column reads as before
      with the task taken out and put directly after the anchor (first without one), and every
      other column reads as before without the task. */
  lemma MoveTaskOrders(tasks: seq<Task>, id: TaskId, target: ColumnId, after: Option<TaskId>,
      completedAt: Option<nat>, other: ColumnId)
    requires MoveTask(tasks, id, target, after, completedAt).Moved?
    ensures var moved := MoveTask(tasks, id, target, after, completedAt).tasks;
      && Rows(moved, target) == Placed(Rows(tasks, target), id, after)
      && (other != target ==> Rows(moved, other) == Without(Rows(tasks, other), id))
  {
    var rows := Rows(tasks, target);
    match after
    case None =>
      TopFits(tasks, target, id);
      PutOrder(tasks, id, target, 0, TopOf(tasks, rows), completedAt);
      if other != target { PutLeavesOthers(tasks, id, target, TopOf(tasks, rows), completedAt, other); }
    case Some(a) =>
      if !Renormalizes(tasks, id, target, after) {
        PlacedAfter(tasks, id, target, a, completedAt, other);
      } else {
        var again := Renormalized(tasks, rows);
        OneRenormalizationSuffices(tasks, target, id, a);
        RenormalizedOrder(tasks, target);
        RenormalizeKeepsOrder(tasks, target, other);
        PlacedAfter(again, id, target, a, completedAt, other);
      }
  }

  lemma PlacedAfter(tasks: seq<Task>, id: TaskId, target: ColumnId, a: TaskId, completedAt: Option<nat>,
      other: ColumnId)
    requires id < |tasks| && !tasks[id].deleted
    requires PositionAfter(tasks, Rows(tasks, target), id, a).At? &&
      !PositionAfter(tasks, Rows(tasks, target), id, a).renormalize
    ensures var moved := Put(tasks, id, target, PositionAfter(tasks, Rows(tasks, target), id, a).position, completedAt);
      && Rows(moved, target) == Placed(Rows(tasks, target), id, Some(a))
      && (other != target ==> Rows(moved, other) == Without(Rows(tasks, other), id))
  {
    AfterFits(tasks, target, id, a);
    var pos := PositionAfter(tasks, Rows(tasks, target), id, a).position;
    PutOrder(tasks, id, target, IndexOf(Without(Rows(tasks, target), id), a).value + 1, pos, completedAt);
    if other != target { PutLeavesOthers(tasks, id, target, pos, completedAt, other); }
  }
}
