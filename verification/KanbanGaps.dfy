/** How close two tasks of a column can get: the gap bound over runs of creates, deletes and
    moves, and how many bisections a renormalised column takes before the next one. */
module KanbanGaps {
  import opened Options
  import opened KanbanOrder

  predicate Apart(a: real, b: real, g: real) { a - b >= g || b - a >= g }

  /** Any two live tasks of the column are at least g apart. */
  ghost predicate Spaced(tasks: seq<Task>, col: ColumnId, g: real) {
    forall x: TaskId, y: TaskId :: Live(tasks, col, x) && Live(tasks, col, y) && x != y ==>
      Apart(tasks[x].position, tasks[y].position, g)
  }

  /** Position p is at least g away from every live task of the column but id. */
  ghost predicate Clear(tasks: seq<Task>, col: ColumnId, id: TaskId, p: real, g: real) {
    forall x: TaskId :: Live(tasks, col, x) && x != id ==> Apart(p, tasks[x].position, g)
  }

  lemma PutSpaced(tasks: seq<Task>, id: TaskId, target: ColumnId, p: real, completedAt: Option<nat>,
      col: ColumnId, g: real)
    requires id < |tasks| && !tasks[id].deleted
    requires Spaced(tasks, col, g) && (col == target ==> Clear(tasks, col, id, p, g))
    ensures Spaced(Put(tasks, id, target, p, completedAt), col, g)
  {
    var after := Put(tasks, id, target, p, completedAt);
    forall x: TaskId, y: TaskId | Live(after, col, x) && Live(after, col, y) && x != y
      ensures Apart(after[x].position, after[y].position, g)
    {
      assert x != id ==> Live(tasks, col, x);
      assert y != id ==> Live(tasks, col, y);
    }
  }

  lemma RowIndex(tasks: seq<Task>, col: ColumnId, id: TaskId, x: TaskId) returns (k: nat)
    requires Live(tasks, col, x) && x != id
    ensures k < |Without(Rows(tasks, col), id)| && Without(Rows(tasks, col), id)[k] == x
  {
    RowsMembers(tasks, col, x);
    WithoutMembers(Rows(tasks, col), id, x);
    k :| k < |Without(Rows(tasks, col), id)| && Without(Rows(tasks, col), id)[k] == x;
  }

  lemma TopIsClear(tasks: seq<Task>, col: ColumnId, id: TaskId)
    ensures Clear(tasks, col, id, TopOf(tasks, Rows(tasks, col)), 1.0)
  {
    var rows := Rows(tasks, col);
    RowsSorted(tasks, col);
    forall x: TaskId | Live(tasks, col, x) && x != id ensures Apart(TopOf(tasks, rows), tasks[x].position, 1.0) {
      RowsMembers(tasks, col, x);
      var k :| 0 <= k < |rows| && rows[k] == x;
      if k > 0 { assert Less(tasks, rows[0], rows[k]); }
    }
  }

  /** The gap a bisection leaves on both sides; one when the task goes to the end. */
  function HalfGap(tasks: seq<Task>, col: ColumnId, id: TaskId, anchor: TaskId): real {
    var rest := Without(Rows(tasks, col), id);
    WithoutWithin(tasks, Rows(tasks, col), id);
    match IndexOf(rest, anchor)
    case None => 1.0
    case Some(i) =>
      if i + 1 == |rest| then 1.0 else (tasks[rest[i+1]].position - tasks[rest[i]].position) / 2.0
  }

  lemma AfterIsClear(tasks: seq<Task>, col: ColumnId, id: TaskId, anchor: TaskId)
    requires PositionAfter(tasks, Rows(tasks, col), id, anchor).At?
    ensures Clear(tasks, col, id, PositionAfter(tasks, Rows(tasks, col), id, anchor).position,
      HalfGap(tasks, col, id, anchor))
  {
    var p := PositionAfter(tasks, Rows(tasks, col), id, anchor).position;
    var rest := Without(Rows(tasks, col), id);
    RowsSorted(tasks, col);
    WithoutSorted(tasks, Rows(tasks, col), id);
    var i := IndexOf(rest, anchor).value;
    forall x: TaskId | Live(tasks, col, x) && x != id
      ensures Apart(p, tasks[x].position, HalfGap(tasks, col, id, anchor))
    {
      var k := RowIndex(tasks, col, id, x);
      if k < i { assert Less(tasks, rest[k], rest[i]); }
      if k > i + 1 { assert Less(tasks, rest[i+1], rest[k]); }
    }
  }

  lemma HalfGapAtLeast(tasks: seq<Task>, col: ColumnId, id: TaskId, anchor: TaskId, g: real)
    requires Spaced(tasks, col, g) && 0.0 <= g <= 2.0
    ensures HalfGap(tasks, col, id, anchor) >= g / 2.0
  {
    var rest := Without(Rows(tasks, col), id);
    RowsSorted(tasks, col);
    WithoutSorted(tasks, Rows(tasks, col), id);
    match IndexOf(rest, anchor)
    case None =>
    case Some(i) =>
      if i + 1 < |rest| {
        var a, b := rest[i], rest[i+1];
        assert Less(tasks, a, b);
        WithoutMembers(Rows(tasks, col), id, a);
        WithoutMembers(Rows(tasks, col), id, b);
        RowsMembers(tasks, col, a);
        RowsMembers(tasks, col, b);
        assert Apart(tasks[a].position, tasks[b].position, g);
      }
  }

  lemma ClearShrinks(tasks: seq<Task>, col: ColumnId, id: TaskId, p: real, g: real, h: real)
    requires Clear(tasks, col, id, p, g) && h <= g
    ensures Clear(tasks, col, id, p, h)
  {
  }

  lemma SpacedShrinks(tasks: seq<Task>, col: ColumnId, g: real, h: real)
    requires Spaced(tasks, col, g) && h <= g
    ensures Spaced(tasks, col, h)
  {
  }

  /** A renormalised column is spaced by whole units. */
  lemma RenormalizedSpaced(tasks: seq<Task>, col: ColumnId)
    ensures Spaced(Renormalized(tasks, Rows(tasks, col)), col, 1.0)
  {
    var again := Renormalized(tasks, Rows(tasks, col));
    forall x: TaskId, y: TaskId | Live(again, col, x) && Live(again, col, y) && x != y
      ensures Apart(again[x].position, again[y].position, 1.0)
    {
      RowsMembers(tasks, col, x);
      RowsMembers(tasks, col, y);
      RenormalizedGap(tasks, col, x, y);
    }
  }

  lemma RenormalizedKeepsOthers(tasks: seq<Task>, col: ColumnId, other: ColumnId, g: real)
    requires Spaced(tasks, other, g) && other != col
    ensures Spaced(Renormalized(tasks, Rows(tasks, col)), other, g)
  {
    var again := Renormalized(tasks, Rows(tasks, col));
    forall x: TaskId, y: TaskId | Live(again, other, x) && Live(again, other, y) && x != y
      ensures Apart(again[x].position, again[y].position, g)
    {
      RowsMembers(tasks, other, x);
      RowsMembers(tasks, other, y);
      RenormalizedElsewhere(tasks, col, other, x);
      RenormalizedElsewhere(tasks, col, other, y);
      assert Live(tasks, other, x) && Live(tasks, other, y);
    }
  }

  /** A move onto the end or between two neighbours at most halves the column's spacing. */
  lemma AfterMoveHalves(tasks: seq<Task>, id: TaskId, target: ColumnId, a: TaskId, completedAt: Option<nat>, g: real)
    requires MoveTask(tasks, id, target, Some(a), completedAt).Moved? && !Renormalizes(tasks, id, target, Some(a))
    requires Spaced(tasks, target, g) && 0.0 <= g <= 2.0
    ensures Spaced(MoveTask(tasks, id, target, Some(a), completedAt).tasks, target, g / 2.0)
    ensures g >= MIN_POSITION_GAP >= g / 2.0 ==>
      Spaced(MoveTask(tasks, id, target, Some(a), completedAt).tasks, target, MIN_POSITION_GAP)
  {
    AfterIsClear(tasks, target, id, a);
    HalfGapAtLeast(tasks, target, id, a, g);
    var p := PositionAfter(tasks, Rows(tasks, target), id, a).position;
    var h := HalfGap(tasks, target, id, a);
    ClearShrinks(tasks, target, id, p, h, g / 2.0);
    SpacedShrinks(tasks, target, g, g / 2.0);
    PutSpaced(tasks, id, target, p, completedAt, target, g / 2.0);
    if g >= MIN_POSITION_GAP >= g / 2.0 {
      ClearShrinks(tasks, target, id, p, h, MIN_POSITION_GAP);
      SpacedShrinks(tasks, target, g, MIN_POSITION_GAP);
      PutSpaced(tasks, id, target, p, completedAt, target, MIN_POSITION_GAP);
    }
  }

  /** Whatever the spacing was, a renormalising move leaves the column spaced by one half. */
  lemma RenormalizingMoveRestores(tasks: seq<Task>, id: TaskId, target: ColumnId, after: Option<TaskId>,
      completedAt: Option<nat>)
    requires MoveTask(tasks, id, target, after, completedAt).Moved? && Renormalizes(tasks, id, target, after)
    ensures Spaced(MoveTask(tasks, id, target, after, completedAt).tasks, target, 0.5)
  {
    var a := after.value;
    var again := Renormalized(tasks, Rows(tasks, target));
    OneRenormalizationSuffices(tasks, target, id, a);
    RenormalizedSpaced(tasks, target);
    assert !Renormalizes(again, id, target, after);
    assert MoveTask(again, id, target, after, completedAt) == MoveTask(tasks, id, target, after, completedAt);
    AfterMoveHalves(again, id, target, a, completedAt, 1.0);
  }

  /** Spaced columns need no renormalisation. */
  lemma WideGapsNeedNone(tasks: seq<Task>, id: TaskId, target: ColumnId, after: Option<TaskId>, g: real)
    requires Spaced(tasks, target, g) && MIN_POSITION_GAP <= g / 2.0 <= 1.0
    ensures !Renormalizes(tasks, id, target, after)
  {
    if after.Some? { HalfGapAtLeast(tasks, target, id, after.value, g); }
  }

  lemma TopMoveKeeps(tasks: seq<Task>, id: TaskId, target: ColumnId, completedAt: Option<nat>, g: real)
    requires MoveTask(tasks, id, target, None, completedAt).Moved? && Spaced(tasks, target, g) && g <= 1.0
    ensures Spaced(MoveTask(tasks, id, target, None, completedAt).tasks, target, g)
  {
    var p := TopOf(tasks, Rows(tasks, target));
    TopIsClear(tasks, target, id);
    ClearShrinks(tasks, target, id, p, 1.0, g);
    PutSpaced(tasks, id, target, p, completedAt, target, g);
  }

  lemma MoveKeepsOtherColumns(tasks: seq<Task>, id: TaskId, target: ColumnId, after: Option<TaskId>,
      completedAt: Option<nat>, col: ColumnId, g: real)
    requires MoveTask(tasks, id, target, after, completedAt).Moved? && Spaced(tasks, col, g) && col != target
    ensures Spaced(MoveTask(tasks, id, target, after, completedAt).tasks, col, g)
  {
    if Renormalizes(tasks, id, target, after) {
      var again := Renormalized(tasks, Rows(tasks, target));
      RenormalizedKeepsOthers(tasks, target, col, g);
      PutSpaced(again, id, target, PositionAfter(again, Rows(again, target), id, after.value).position, completedAt,
        col, g);
    } else {
      var p := if after.None? then TopOf(tasks, Rows(tasks, target))
        else PositionAfter(tasks, Rows(tasks, target), id, after.value).position;
      PutSpaced(tasks, id, target, p, completedAt, col, g);
    }
  }

  lemma CreateKeeps(tasks: seq<Task>, col: ColumnId, creator: nat, assignee: Option<nat>, other: ColumnId, g: real)
    requires Spaced(tasks, other, g) && g <= 1.0
    ensures Spaced(CreateTask(tasks, col, creator, assignee), other, g)
  {
    var after := CreateTask(tasks, col, creator, assignee);
    var p := TopOf(tasks, Rows(tasks, col));
    TopIsClear(tasks, col, |tasks|);
    forall x: TaskId, y: TaskId | Live(after, other, x) && Live(after, other, y) && x != y
      ensures Apart(after[x].position, after[y].position, g)
    {
      assert x < |tasks| ==> Live(tasks, other, x);
      assert y < |tasks| ==> Live(tasks, other, y);
      assert other == col && x < |tasks| ==> Apart(p, tasks[x].position, 1.0);
      assert other == col && y < |tasks| ==> Apart(p, tasks[y].position, 1.0);
    }
  }

  lemma DeleteKeeps(tasks: seq<Task>, id: TaskId, other: ColumnId, g: real)
    requires id < |tasks| && Spaced(tasks, other, g)
    ensures Spaced(SetDeleted(tasks, id, true), other, g)
  {
    var after := SetDeleted(tasks, id, true);
    forall x: TaskId, y: TaskId | Live(after, other, x) && Live(after, other, y) && x != y
      ensures Apart(after[x].position, after[y].position, g)
    {
      assert Live(tasks, other, x) && Live(tasks, other, y);
    }
  }

  // ----- runs -------------------------------------------------------------

  datatype TaskOp =
    | Create(column: ColumnId, creator: nat, assignee: Option<nat>)
    | Delete(id: TaskId)
    | Move(id: TaskId, target: ColumnId, after: Option<TaskId>, completedAt: Option<nat>)

  /** One call; a refused call changes nothing. */
  function Step(tasks: seq<Task>, op: TaskOp): seq<Task> {
    match op
    case Create(col, creator, assignee) => CreateTask(tasks, col, creator, assignee)
    case Delete(id) => if id < |tasks| then SetDeleted(tasks, id, true) else tasks
    case Move(id, target, after, completedAt) =>
      var r := MoveTask(tasks, id, target, after, completedAt);
      if r.Moved? then r.tasks else tasks
  }

  function Run(tasks: seq<Task>, ops: seq<TaskOp>): seq<Task> {
    if ops == [] then tasks else Step(Run(tasks, ops[..|ops|-1]), ops[|ops|-1])
  }

  predicate RenormalizingStep(tasks: seq<Task>, op: TaskOp, col: ColumnId) {
    op.Move? && op.target == col && MoveTask(tasks, op.id, col, op.after, op.completedAt).Moved? &&
      Renormalizes(tasks, op.id, col, op.after)
  }

  predicate AfterMove(op: TaskOp, col: ColumnId) { op.Move? && op.target == col && op.after.Some? }

  predicate AcceptedAfterMove(tasks: seq<Task>, op: TaskOp, col: ColumnId) {
    AfterMove(op, col) && MoveTask(tasks, op.id, col, op.after, op.completedAt).Moved?
  }

  /** The accepted moves of the run behind an anchor of the column. */
  function AfterMoves(tasks: seq<Task>, ops: seq<TaskOp>, col: ColumnId): nat {
    if ops == [] then 0
    else
      var before := ops[..|ops|-1];
      AfterMoves(tasks, before, col) + (if AcceptedAfterMove(Run(tasks, before), ops[|ops|-1], col) then 1 else 0)
  }

  /** The gap bound is kept by every create, delete and move. */
  lemma StepKeepsMinimumGap(tasks: seq<Task>, op: TaskOp, col: ColumnId)
    requires Spaced(tasks, col, MIN_POSITION_GAP)
    ensures Spaced(Step(tasks, op), col, MIN_POSITION_GAP)
  {
    match op
    case Create(c, creator, assignee) => CreateKeeps(tasks, c, creator, assignee, col, MIN_POSITION_GAP);
    case Delete(id) => if id < |tasks| { DeleteKeeps(tasks, id, col, MIN_POSITION_GAP); }
    case Move(id, target, after, completedAt) =>
      if MoveTask(tasks, id, target, after, completedAt).Moved? {
        if col != target { MoveKeepsOtherColumns(tasks, id, target, after, completedAt, col, MIN_POSITION_GAP); }
        else if after.None? { TopMoveKeeps(tasks, id, target, completedAt, MIN_POSITION_GAP); }
        else if Renormalizes(tasks, id, target, after) {
          RenormalizingMoveRestores(tasks, id, target, after, completedAt);
          SpacedShrinks(Step(tasks, op), col, 0.5, MIN_POSITION_GAP);
        } else { AfterMoveHalves(tasks, id, target, after.value, completedAt, MIN_POSITION_GAP); }
      }
  }

  /** In every board reached by creates, deletes and moves no two tasks of a column come
      closer than the minimum gap. */
  lemma {:induction false} RunKeepsMinimumGap(tasks: seq<Task>, ops: seq<TaskOp>, col: ColumnId)
    requires Spaced(tasks, col, MIN_POSITION_GAP)
    ensures Spaced(Run(tasks, ops), col, MIN_POSITION_GAP)
  {
    if ops == [] {
    } else {
      RunKeepsMinimumGap(tasks, ops[..|ops|-1], col);
      StepKeepsMinimumGap(Run(tasks, ops[..|ops|-1]), ops[|ops|-1], col);
    }
  }

  /** Spacing left after n bisections of a column spaced by one half. */
  function SpacingAfter(n: nat): (g: real)
    ensures 0.0 < g <= 0.5
  {
    if n == 0 then 0.5 else SpacingAfter(n-1) / 2.0
  }

  lemma {:induction false} SpacingStaysWide(n: nat)
    requires n <= 17
    ensures SpacingAfter(n) / 2.0 >= MIN_POSITION_GAP
  {
    SpacingFalls(n, 17);
    assert SpacingAfter(17) == 0.5 / 131072.0 by {
      assert SpacingAfter(4) == 0.5 / 16.0;
      assert SpacingAfter(8) == 0.5 / 256.0;
      assert SpacingAfter(12) == 0.5 / 4096.0;
      assert SpacingAfter(16) == 0.5 / 65536.0;
    }
  }

  lemma {:induction false} SpacingFalls(n: nat, m: nat)
    requires n <= m
    ensures SpacingAfter(m) <= SpacingAfter(n)
  {
    if n < m { SpacingFalls(n, m-1); }
  }

  lemma StepSpacing(tasks: seq<Task>, op: TaskOp, col: ColumnId, g: real)
    requires Spaced(tasks, col, g) && 0.0 <= g <= 0.5
    requires !RenormalizingStep(tasks, op, col)
    ensures Spaced(Step(tasks, op), col, if AcceptedAfterMove(tasks, op, col) then g / 2.0 else g)
  {
    match op
    case Create(c, creator, assignee) => CreateKeeps(tasks, c, creator, assignee, col, g);
    case Delete(id) => if id < |tasks| { DeleteKeeps(tasks, id, col, g); }
    case Move(id, target, after, completedAt) =>
      SpacedShrinks(tasks, col, g, g / 2.0);
      if MoveTask(tasks, id, target, after, completedAt).Moved? {
        if col != target { MoveKeepsOtherColumns(tasks, id, target, after, completedAt, col, g); }
        else if after.None? { TopMoveKeeps(tasks, id, target, completedAt, g); }
        else { AfterMoveHalves(tasks, id, target, after.value, completedAt, g); }
      }
  }

  /** From a column spaced by one half, which is what a renormalising move leaves, a run with at
      most 18 accepted after-moves into it renormalises it nowhere: with the renormalising move itself,
      at least 19 after-moves pass before the next one. */
  lemma {:induction false} RenormalizationsAreRare(tasks: seq<Task>, ops: seq<TaskOp>, col: ColumnId, k: nat)
    requires Spaced(tasks, col, 0.5) && AfterMoves(tasks, ops, col) <= 18 && k < |ops|
    ensures !RenormalizingStep(Run(tasks, ops[..k]), ops[k], col)
  {
    AfterMovesPrefix(tasks, ops, col, k+1);
    assert ops[..k+1][..k] == ops[..k];
    SpacingOverRun(tasks, ops[..k], col);
    if AcceptedAfterMove(Run(tasks, ops[..k]), ops[k], col) {
      var n := AfterMoves(tasks, ops[..k], col);
      SpacingStaysWide(n);
      WideGapsNeedNone(Run(tasks, ops[..k]), ops[k].id, col, ops[k].after, SpacingAfter(n));
    }
  }

  lemma {:induction false} AfterMovesPrefix(tasks: seq<Task>, ops: seq<TaskOp>, col: ColumnId, k: nat)
    requires k <= |ops|
    ensures AfterMoves(tasks, ops[..k], col) <= AfterMoves(tasks, ops, col)
    decreases |ops|
  {
    if k < |ops| {
      AfterMovesPrefix(tasks, ops[..|ops|-1], col, k);
      assert ops[..|ops|-1][..k] == ops[..k];
    } else {
      assert ops[..k] == ops;
    }
  }

  lemma SpacingOneMore(now: seq<Task>, op: TaskOp, col: ColumnId, n: nat)
    requires Spaced(now, col, SpacingAfter(n)) && (AcceptedAfterMove(now, op, col) ==> n <= 17)
    ensures Spaced(Step(now, op), col, SpacingAfter(if AcceptedAfterMove(now, op, col) then n+1 else n))
  {
    if AcceptedAfterMove(now, op, col) {
      SpacingStaysWide(n);
      WideGapsNeedNone(now, op.id, col, op.after, SpacingAfter(n));
    }
    StepSpacing(now, op, col, SpacingAfter(n));
  }

  lemma {:induction false} SpacingOverRun(tasks: seq<Task>, ops: seq<TaskOp>, col: ColumnId)
    requires Spaced(tasks, col, 0.5) && AfterMoves(tasks, ops, col) <= 18
    ensures Spaced(Run(tasks, ops), col, SpacingAfter(AfterMoves(tasks, ops, col)))
  {
    if ops == [] {
    } else {
      SpacingOverRun(tasks, ops[..|ops|-1], col);
      SpacingOneMore(Run(tasks, ops[..|ops|-1]), ops[|ops|-1], col, AfterMoves(tasks, ops[..|ops|-1], col));
    }
  }

  // ----- the count is exact -----------------------------------------------

  /** The column lists a, x, y and the gap in front of x is g. */
  ghost predicate Trio(tasks: seq<Task>, col: ColumnId, a: TaskId, x: TaskId, y: TaskId, g: real) {
    Rows(tasks, col) == [a, x, y] && a != x && x != y && a != y && a < |tasks| && x < |tasks| &&
      tasks[x].position - tasks[a].position == g
  }

  function TuckIn(col: ColumnId, a: TaskId, y: TaskId): TaskOp { Move(y, col, Some(a), None) }

  lemma TrioRest(a: TaskId, x: TaskId, y: TaskId)
    requires a != x && x != y && a != y
    ensures Without([a, x, y], y) == [a, x] && IndexOf([a, x], a) == Some(0)
  {
    assert [a, x, y][..2] == [a, x] && [a, x][..1] == [a] && [a][..0] == [];
    assert Without([a], y) == Without([], y) + [a];
    assert Without([a, x], y) == Without([a], y) + [x];
  }

  lemma TuckInFlag(tasks: seq<Task>, col: ColumnId, a: TaskId, x: TaskId, y: TaskId, g: real)
    requires Trio(tasks, col, a, x, y, g)
    ensures PositionAfter(tasks, Rows(tasks, col), y, a) == At(tasks[a].position + g / 2.0, g / 2.0 < MIN_POSITION_GAP)
    ensures MoveTask(tasks, y, col, Some(a), None).Moved? && y < |tasks|
  {
    TrioRest(a, x, y);
    RowsMembers(tasks, col, a);
    RowsMembers(tasks, col, y);
    assert a in Rows(tasks, col) && y in Rows(tasks, col);
    MoveSucceedsIff(tasks, y, col, Some(a), None);
  }

  /** Moving the last of three tasks directly behind the first halves the first gap. */
  lemma TuckInHalves(tasks: seq<Task>, col: ColumnId, a: TaskId, x: TaskId, y: TaskId, g: real)
    requires Trio(tasks, col, a, x, y, g)
    ensures RenormalizingStep(tasks, TuckIn(col, a, y), col) <==> g / 2.0 < MIN_POSITION_GAP
    ensures g / 2.0 >= MIN_POSITION_GAP ==> Trio(Step(tasks, TuckIn(col, a, y)), col, a, y, x, g / 2.0)
  {
    TuckInFlag(tasks, col, a, x, y, g);
    if g / 2.0 >= MIN_POSITION_GAP {
      TrioRest(a, x, y);
      MoveTaskOrders(tasks, y, col, Some(a), None, col);
    }
  }

  /** After n alternating moves: the middle task and the last one. */
  function Middle(x: TaskId, y: TaskId, n: nat): TaskId { if n % 2 == 0 then x else y }
  function Last(x: TaskId, y: TaskId, n: nat): TaskId { if n % 2 == 0 then y else x }

  /** n alternating moves behind a. */
  function Alternate(col: ColumnId, a: TaskId, x: TaskId, y: TaskId, n: nat): seq<TaskOp> {
    if n == 0 then [] else Alternate(col, a, x, y, n-1) + [TuckIn(col, a, Last(x, y, n-1))]
  }

  lemma RunSnoc(tasks: seq<Task>, before: seq<TaskOp>, op: TaskOp, col: ColumnId)
    ensures Run(tasks, before + [op]) == Step(Run(tasks, before), op)
    ensures AfterMoves(tasks, before + [op], col) ==
      AfterMoves(tasks, before, col) + if AcceptedAfterMove(Run(tasks, before), op, col) then 1 else 0
  {
    assert (before + [op])[..|before|] == before;
  }

  lemma RolesSwap(x: TaskId, y: TaskId, n: nat)
    requires n > 0
    ensures Middle(x, y, n) == Last(x, y, n-1) && Last(x, y, n) == Middle(x, y, n-1)
  {
  }

  ghost predicate Alternated(tasks: seq<Task>, col: ColumnId, a: TaskId, x: TaskId, y: TaskId, n: nat) {
    Trio(tasks, col, a, Middle(x, y, n), Last(x, y, n), SpacingAfter(n))
  }

  lemma AlternateOnce(now: seq<Task>, col: ColumnId, a: TaskId, x: TaskId, y: TaskId, n: nat)
    requires n < 18 && Alternated(now, col, a, x, y, n)
    ensures Alternated(Step(now, TuckIn(col, a, Last(x, y, n))), col, a, x, y, n+1)
  {
    SpacingStaysWide(n);
    RolesSwap(x, y, n+1);
    TuckInHalves(now, col, a, Middle(x, y, n), Last(x, y, n), SpacingAfter(n));
  }

  lemma {:induction false} AlternateHalves(tasks: seq<Task>, col: ColumnId, a: TaskId, x: TaskId, y: TaskId, n: nat)
    requires Alternated(tasks, col, a, x, y, 0) && n <= 18
    ensures Alternated(Run(tasks, Alternate(col, a, x, y, n)), col, a, x, y, n)
  {
    if n == 0 {
    } else {
      AlternateHalves(tasks, col, a, x, y, n-1);
      var before, op := Alternate(col, a, x, y, n-1), TuckIn(col, a, Last(x, y, n-1));
      RunSnoc(tasks, before, op, col);
      AlternateOnce(Run(tasks, before), col, a, x, y, n-1);
    }
  }

  /** Every one of them is accepted. */
  lemma {:induction false} AlternateCount(tasks: seq<Task>, col: ColumnId, a: TaskId, x: TaskId, y: TaskId, n: nat)
    requires Alternated(tasks, col, a, x, y, 0) && n <= 18
    ensures AfterMoves(tasks, Alternate(col, a, x, y, n), col) == n
  {
    if n == 0 {
    } else {
      var before := Alternate(col, a, x, y, n-1);
      AlternateCount(tasks, col, a, x, y, n-1);
      AlternateHalves(tasks, col, a, x, y, n-1);
      TuckInFlag(Run(tasks, before), col, a, Middle(x, y, n-1), Last(x, y, n-1), SpacingAfter(n-1));
      RunSnoc(tasks, before, TuckIn(col, a, Last(x, y, n-1)), col);
    }
  }

  lemma EighteenthSpacing()
    ensures SpacingAfter(18) / 2.0 < MIN_POSITION_GAP
  {
    assert SpacingAfter(18) == 0.5 / 262144.0 by {
      assert SpacingAfter(4) == 0.5 / 16.0;
      assert SpacingAfter(8) == 0.5 / 256.0;
      assert SpacingAfter(12) == 0.5 / 4096.0;
      assert SpacingAfter(16) == 0.5 / 65536.0;
    }
  }

  lemma EvenMoves(tasks: seq<Task>, col: ColumnId, a: TaskId, x: TaskId, y: TaskId, n: nat)
    requires Trio(tasks, col, a, x, y, 0.5) && n <= 18 && n % 2 == 0
    ensures AfterMoves(tasks, Alternate(col, a, x, y, n), col) == n
    ensures Trio(Run(tasks, Alternate(col, a, x, y, n)), col, a, x, y, SpacingAfter(n))
  {
    assert Alternated(tasks, col, a, x, y, 0);
    AlternateCount(tasks, col, a, x, y, n);
    AlternateHalves(tasks, col, a, x, y, n);
  }

  /** The count cannot be raised: three tasks spaced as a renormalising move leaves them can be
      tucked in alternately 18 times, and the next move renormalises. */
  lemma NineteenthFurtherMoveCanRenormalize(tasks: seq<Task>, col: ColumnId, a: TaskId, x: TaskId, y: TaskId)
    requires Trio(tasks, col, a, x, y, 0.5)
    ensures AfterMoves(tasks, Alternate(col, a, x, y, 18), col) == 18
    ensures RenormalizingStep(Run(tasks, Alternate(col, a, x, y, 18)), TuckIn(col, a, y), col)
  {
    EvenMoves(tasks, col, a, x, y, 18);
    EighteenthSpacing();
    TuckInHalves(Run(tasks, Alternate(col, a, x, y, 18)), col, a, x, y, SpacingAfter(18));
  }

  lemma RenormalizedTrio(tasks: seq<Task>, col: ColumnId, a: TaskId, x: TaskId, y: TaskId, g: real)
    requires Trio(tasks, col, a, x, y, g)
    ensures Trio(Renormalized(tasks, Rows(tasks, col)), col, a, x, y, 1.0)
  {
    RenormalizedOrder(tasks, col);
    RenormalizedPosition(tasks, col, 0);
    RenormalizedPosition(tasks, col, 1);
  }

  /** The renormalising move leaves the same three tasks spaced by one half again, so the count
      restarts: under such moves every nineteenth one renormalises, for ever. */
  lemma RenormalizingTuckInRestarts(tasks: seq<Task>, col: ColumnId, a: TaskId, x: TaskId, y: TaskId, g: real)
    requires Trio(tasks, col, a, x, y, g) && RenormalizingStep(tasks, TuckIn(col, a, y), col)
    ensures Trio(Step(tasks, TuckIn(col, a, y)), col, a, y, x, 0.5)
  {
    var again := Renormalized(tasks, Rows(tasks, col));
    RenormalizedTrio(tasks, col, a, x, y, g);
    TuckInHalves(again, col, a, x, y, 1.0);
    TuckInFlag(again, col, a, x, y, 1.0);
    TuckInFlag(tasks, col, a, x, y, g);
    assert Step(again, TuckIn(col, a, y)) == Step(tasks, TuckIn(col, a, y));
  }

  function ThreeCreates(): seq<TaskOp> { [Create(0, 0, None)] + [Create(0, 0, None)] + [Create(0, 0, None)] }

  lemma CreateOnTop(tasks: seq<Task>, col: ColumnId)
    ensures Rows(Step(tasks, Create(col, 0, None)), col) == [|tasks|] + Rows(tasks, col)
    ensures Step(tasks, Create(col, 0, None))[|tasks|].position == TopOf(tasks, Rows(tasks, col))
    ensures Step(tasks, Create(col, 0, None))[..|tasks|] == tasks
  {
    var after, rows := Step(tasks, Create(col, 0, None)), Rows(tasks, col);
    RowsSorted(tasks, col);
    var order := [|tasks|] + rows;
    forall i, j | 0 <= i < j < |order| ensures Less(after, order[i], order[j]) {
      if i > 0 { assert Less(tasks, rows[i-1], rows[j-1]); }
      else if j > 1 { assert Less(tasks, rows[0], rows[j-1]); }
    }
    assert Lists(after, col, order) by {
      forall x: TaskId | true ensures x in order <==> Live(after, col, x) { RowsMembers(tasks, col, x); }
    }
    RowsAre(after, col, order);
  }

  /** Such a column is reached from an empty one: three creates and one move. */
  lemma TrioIsReached()
    ensures Trio(Run([], ThreeCreates() + [TuckIn(0, 2, 0)]), 0, 2, 0, 1, 0.5)
  {
    var none: seq<TaskOp> := [];
    var c := Create(0, 0, None);
    var t1, t2 := Run([], [c]), Run([], [c] + [c]);
    var t3 := Run([], ThreeCreates());
    RunSnoc([], none, c, 0);
    assert none + [c] == [c];
    RunSnoc([], [c], c, 0);
    RunSnoc([], [c] + [c], c, 0);
    assert Rows([], 0) == [];
    CreateOnTop([], 0);
    CreateOnTop(t1, 0);
    CreateOnTop(t2, 0);
    assert Rows(t3, 0) == [2, 1, 0];
    assert t3[1] == t3[..2][1] && t2[1].position == -1.0 && t3[2].position == -2.0;
    TuckInHalves(t3, 0, 2, 1, 0, 1.0);
    RunSnoc([], ThreeCreates(), TuckIn(0, 2, 0), 0);
  }

  // ----- restores ---------------------------------------------------------

  /** A restored task keeps its old position, so the restore keeps the column spaced exactly when
      no live task of the column has come too close to it meanwhile. */
  lemma RestoreSpacedIff(tasks: seq<Task>, id: TaskId, g: real)
    requires id < |tasks| && tasks[id].deleted
    requires Spaced(tasks, tasks[id].column, g)
    ensures Spaced(SetDeleted(tasks, id, false), tasks[id].column, g) <==>
      Clear(tasks, tasks[id].column, id, tasks[id].position, g)
  {
    var after, col := SetDeleted(tasks, id, false), tasks[id].column;
    if Spaced(after, col, g) {
      forall x: TaskId | Live(tasks, col, x) && x != id ensures Apart(tasks[id].position, tasks[x].position, g) {
        assert Live(after, col, x) && Live(after, col, id);
      }
    }
    if Clear(tasks, col, id, tasks[id].position, g) {
      forall x: TaskId, y: TaskId | Live(after, col, x) && Live(after, col, y) && x != y
        ensures Apart(after[x].position, after[y].position, g)
      {
        assert x != id ==> Live(tasks, col, x);
        assert y != id ==> Live(tasks, col, y);
      }
    }
  }

  lemma RestoreKeepsOthers(tasks: seq<Task>, id: TaskId, other: ColumnId, g: real)
    requires id < |tasks| && other != tasks[id].column && Spaced(tasks, other, g)
    ensures Spaced(SetDeleted(tasks, id, false), other, g)
  {
    var after := SetDeleted(tasks, id, false);
    forall x: TaskId, y: TaskId | Live(after, other, x) && Live(after, other, y) && x != y
      ensures Apart(after[x].position, after[y].position, g)
    {
      assert Live(tasks, other, x) && Live(tasks, other, y);
    }
  }

  /** The condition can fail: a task created meanwhile takes the deleted one's position. */
  lemma RestoreCanTie()
    ensures var a := CreateTask([], 0, 0, None);
      var b := CreateTask(SetDeleted(a, 0, true), 0, 0, None);
      var c := SetDeleted(b, 0, false);
      Spaced(b, 0, 1.0) && Live(c, 0, 0) && Live(c, 0, 1) && c[0].position == c[1].position
  {
    var a := CreateTask([], 0, 0, None);
    assert Rows([], 0) == [];
    var d := SetDeleted(a, 0, true);
    assert !Live(d, 0, 0);
    assert RowsUpTo(d, 0, 0) == [];
    assert Rows(d, 0) == [];
  }
}
