/** The minimum gap over runs of every board call. Creates, edits, deletes, moves and handovers keep it;
    a restore and a merge of two columns bring old positions back, so each keeps it exactly
    under a condition on the board before the call. */
module KanbanBoardGaps {
  import opened Options
  import opened KanbanOrder
  import opened KanbanBoard
  import G = KanbanGaps

  ghost predicate AllSpaced(tasks: seq<Task>, g: real) {
    forall col: ColumnId :: G.Spaced(tasks, col, g)
  }

  /** Every live task of one column is at least g away from every live task of the other. */
  ghost predicate CrossApart(tasks: seq<Task>, from: ColumnId, to: ColumnId, g: real) {
    forall x: TaskId, y: TaskId :: Live(tasks, from, x) && Live(tasks, to, y) ==>
      G.Apart(tasks[x].position, tasks[y].position, g)
  }

  lemma MergedLive(tasks: seq<Task>, from: ColumnId, to: ColumnId, completedAt: Option<nat>, x: TaskId, col: ColumnId)
    requires from != to
    ensures Live(MoveAll(tasks, from, to, completedAt), col, x) <==>
      col != from && (Live(tasks, col, x) || (col == to && Live(tasks, from, x)))
    ensures x < |tasks| ==> MoveAll(tasks, from, to, completedAt)[x].position == tasks[x].position
  {
    if x < |tasks| { assert MoveAll(tasks, from, to, completedAt)[x] == Remapped(tasks[x], from, to, completedAt); }
  }

  /** Merging two spaced columns keeps the target spaced exactly when no live task of one is too
      close to a live task of the other. */
  lemma MergeSpacedIff(tasks: seq<Task>, from: ColumnId, to: ColumnId, completedAt: Option<nat>, g: real)
    requires from != to && G.Spaced(tasks, from, g) && G.Spaced(tasks, to, g)
    ensures G.Spaced(MoveAll(tasks, from, to, completedAt), to, g) <==> CrossApart(tasks, from, to, g)
  {
    var after := MoveAll(tasks, from, to, completedAt);
    if G.Spaced(after, to, g) {
      forall x: TaskId, y: TaskId | Live(tasks, from, x) && Live(tasks, to, y)
        ensures G.Apart(tasks[x].position, tasks[y].position, g)
      {
        MergedLive(tasks, from, to, completedAt, x, to);
        MergedLive(tasks, from, to, completedAt, y, to);
      }
    }
    if CrossApart(tasks, from, to, g) {
      forall x: TaskId, y: TaskId | Live(after, to, x) && Live(after, to, y) && x != y
        ensures G.Apart(after[x].position, after[y].position, g)
      {
        MergedLive(tasks, from, to, completedAt, x, to);
        MergedLive(tasks, from, to, completedAt, y, to);
        if Live(tasks, from, x) && Live(tasks, to, y) { assert G.Apart(tasks[x].position, tasks[y].position, g); }
        if Live(tasks, to, x) && Live(tasks, from, y) { assert G.Apart(tasks[y].position, tasks[x].position, g); }
      }
    }
  }

  lemma MergeKeepsOthers(tasks: seq<Task>, from: ColumnId, to: ColumnId, completedAt: Option<nat>, col: ColumnId,
      g: real)
    requires from != to && col != to && G.Spaced(tasks, col, g)
    ensures G.Spaced(MoveAll(tasks, from, to, completedAt), col, g)
  {
    var after := MoveAll(tasks, from, to, completedAt);
    forall x: TaskId, y: TaskId | Live(after, col, x) && Live(after, col, y) && x != y
      ensures G.Apart(after[x].position, after[y].position, g)
    {
      MergedLive(tasks, from, to, completedAt, x, col);
      MergedLive(tasks, from, to, completedAt, y, col);
    }
  }

  /** What a caller checks on the board before the call. */
  ghost predicate GapSafe(b: Board, op: BoardOp) {
    match op
    case OpRestoreTask(id) =>
      id < |b.tasks| ==> G.Clear(b.tasks, b.tasks[id].column, id, b.tasks[id].position, MIN_POSITION_GAP)
    case OpDeleteColumn(from, Some(to), _) => CrossApart(b.tasks, from, to, MIN_POSITION_GAP)
    case _ => true
  }

  lemma RestoreKeepsGapIff(b: Board, id: TaskId)
    requires AllSpaced(b.tasks, MIN_POSITION_GAP) && RestoreTask(b, id).Ok?
    ensures AllSpaced(RestoreTask(b, id).value.tasks, MIN_POSITION_GAP) <==>
      G.Clear(b.tasks, b.tasks[id].column, id, b.tasks[id].position, MIN_POSITION_GAP)
  {
    var g, col := MIN_POSITION_GAP, b.tasks[id].column;
    assert G.Spaced(b.tasks, col, g);
    G.RestoreSpacedIff(b.tasks, id, g);
    forall other: ColumnId | other != col ensures G.Spaced(SetDeleted(b.tasks, id, false), other, g) {
      assert G.Spaced(b.tasks, other, g);
      G.RestoreKeepsOthers(b.tasks, id, other, g);
    }
    assert G.Spaced(SetDeleted(b.tasks, id, false), col, g) <==> AllSpaced(SetDeleted(b.tasks, id, false), g);
  }

  lemma MergeKeepsGapIff(tasks: seq<Task>, from: ColumnId, to: ColumnId, completedAt: Option<nat>)
    requires AllSpaced(tasks, MIN_POSITION_GAP) && from != to
    ensures AllSpaced(MoveAll(tasks, from, to, completedAt), MIN_POSITION_GAP) <==>
      CrossApart(tasks, from, to, MIN_POSITION_GAP)
  {
    var g, after := MIN_POSITION_GAP, MoveAll(tasks, from, to, completedAt);
    assert G.Spaced(tasks, from, g) && G.Spaced(tasks, to, g);
    MergeSpacedIff(tasks, from, to, completedAt, g);
    forall col: ColumnId | col != to ensures G.Spaced(after, col, g) {
      assert G.Spaced(tasks, col, g);
      MergeKeepsOthers(tasks, from, to, completedAt, col, g);
    }
    assert G.Spaced(after, to, g) <==> AllSpaced(after, g);
  }

  lemma HandoverKeepsGap(tasks: seq<Task>, departed: nat, newOwner: nat, g: real)
    requires AllSpaced(tasks, g)
    ensures AllSpaced(Handover(tasks, departed, newOwner), g)
  {
    var after := Handover(tasks, departed, newOwner);
    forall col: ColumnId, x: TaskId, y: TaskId | Live(after, col, x) && Live(after, col, y) && x != y
      ensures G.Apart(after[x].position, after[y].position, g)
    {
      assert after[x] == HandedOver(tasks[x], departed, newOwner) &&
        after[y] == HandedOver(tasks[y], departed, newOwner);
      assert G.Spaced(tasks, col, g) && Live(tasks, col, x) && Live(tasks, col, y);
    }
  }

  lemma EditKeepsGap(tasks: seq<Task>, id: TaskId, assignee: Option<nat>, g: real)
    requires AllSpaced(tasks, g) && id < |tasks|
    ensures AllSpaced(tasks[id := tasks[id].(assignee := assignee)], g)
  {
    var after := tasks[id := tasks[id].(assignee := assignee)];
    forall col: ColumnId, x: TaskId, y: TaskId | Live(after, col, x) && Live(after, col, y) && x != y
      ensures G.Apart(after[x].position, after[y].position, g)
    {
      assert G.Spaced(tasks, col, g) && Live(tasks, col, x) && Live(tasks, col, y);
    }
  }

  lemma TaskStepKeepsGap(tasks: seq<Task>, op: G.TaskOp)
    requires AllSpaced(tasks, MIN_POSITION_GAP)
    ensures AllSpaced(G.Step(tasks, op), MIN_POSITION_GAP)
  {
    forall col: ColumnId | true ensures G.Spaced(G.Step(tasks, op), col, MIN_POSITION_GAP) {
      assert G.Spaced(tasks, col, MIN_POSITION_GAP);
      G.StepKeepsMinimumGap(tasks, op, col);
    }
  }

  /** One accepted call on a board that meets the gap bound: it keeps the bound exactly when it is
      safe on the board as it was. */
  lemma CallKeepsGapIff(b: Board, lim: Limits, op: BoardOp)
    requires AllSpaced(b.tasks, MIN_POSITION_GAP) && Call(b, lim, op).Ok?
    ensures AllSpaced(Next(b, lim, op).tasks, MIN_POSITION_GAP) <==> GapSafe(b, op)
  {
    match op
    case OpAddTask(col, _, creator, assignee, _) => TaskStepKeepsGap(b.tasks, G.Create(col, creator, assignee));
    case OpMove(id, target, after, now) =>
      TaskStepKeepsGap(b.tasks, G.Move(id, target, after, CompletedAtIf(b.columns[target].isDone, now)));
    case OpEditTask(id, _, assignee, _) => EditKeepsGap(b.tasks, id, assignee, MIN_POSITION_GAP);
    case OpDeleteTask(id) => TaskStepKeepsGap(b.tasks, G.Delete(id));
    case OpRestoreTask(id) => RestoreKeepsGapIff(b, id);
    case OpHandover(departed, newOwner) => HandoverKeepsGap(b.tasks, departed, newOwner, MIN_POSITION_GAP);
    case OpDeleteColumn(from, moveTo, now) =>
      if moveTo.Some? {
        MergeKeepsGapIff(b.tasks, from, moveTo.value, CompletedAtIf(b.columns[moveTo.value].isDone, now));
      }
    case _ =>
  }

  /** The k-th call of the run is refused, or safe on the board it finds. */
  ghost predicate SafeCall(b: Board, lim: Limits, ops: seq<BoardOp>, k: nat)
    requires k < |ops|
  {
    Call(Run(b, lim, ops[..k]), lim, ops[k]).Ok? ==> GapSafe(Run(b, lim, ops[..k]), ops[k])
  }

  ghost predicate SafeRun(b: Board, lim: Limits, ops: seq<BoardOp>) {
    forall k: nat :: k < |ops| ==> SafeCall(b, lim, ops, k)
  }

  ghost predicate SpacedAt(b: Board, lim: Limits, ops: seq<BoardOp>, k: nat)
    requires k <= |ops|
  {
    AllSpaced(Run(b, lim, ops[..k]).tasks, MIN_POSITION_GAP)
  }

  ghost predicate SpacedThroughout(b: Board, lim: Limits, ops: seq<BoardOp>) {
    forall k: nat :: k <= |ops| ==> SpacedAt(b, lim, ops, k)
  }

  lemma SpacedNextIff(b: Board, lim: Limits, ops: seq<BoardOp>, k: nat)
    requires k < |ops| && SpacedAt(b, lim, ops, k)
    ensures SpacedAt(b, lim, ops, k+1) <==> SafeCall(b, lim, ops, k)
  {
    assert ops[..k+1][..k] == ops[..k] && ops[..k+1][k] == ops[k];
    var before := Run(b, lim, ops[..k]);
    assert Run(b, lim, ops[..k+1]) == Next(before, lim, ops[k]);
    if Call(before, lim, ops[k]).Ok? { CallKeepsGapIff(before, lim, ops[k]); }
  }

  lemma {:induction false} SafeRunIsSpaced(b: Board, lim: Limits, ops: seq<BoardOp>, k: nat)
    requires AllSpaced(b.tasks, MIN_POSITION_GAP) && SafeRun(b, lim, ops) && k <= |ops|
    ensures SpacedAt(b, lim, ops, k)
  {
    if k == 0 {
    } else {
      SafeRunIsSpaced(b, lim, ops, k-1);
      assert SafeCall(b, lim, ops, k-1);
      SpacedNextIff(b, lim, ops, k-1);
    }
  }

  /** Over any run of board calls the gap bound holds in every column at every moment exactly when
      each accepted restore and each accepted merge was safe on the board it found. */
  lemma RunKeepsGapIff(b: Board, lim: Limits, ops: seq<BoardOp>)
    requires AllSpaced(b.tasks, MIN_POSITION_GAP)
    ensures SpacedThroughout(b, lim, ops) <==> SafeRun(b, lim, ops)
  {
    if SafeRun(b, lim, ops) {
      forall k: nat | k <= |ops| ensures SpacedAt(b, lim, ops, k) { SafeRunIsSpaced(b, lim, ops, k); }
    }
    if SpacedThroughout(b, lim, ops) {
      forall k: nat | k < |ops| ensures SafeCall(b, lim, ops, k) {
        assert SpacedAt(b, lim, ops, k) && SpacedAt(b, lim, ops, k+1);
        SpacedNextIff(b, lim, ops, k);
      }
    }
  }

  // ----- the merge condition can fail -------------------------------------

  const TWO_TASKS: seq<Task> := [Task(0, 0.0, false, None, 0, None), Task(1, 0.0, false, None, 0, None)]

  lemma ReachTwoTasks()
    ensures var b := Board(map[0 := Column("a", 0, false), 1 := Column("b", 1, false)], []);
      Next(Next(b, DEFAULT_LIMITS, OpAddTask(0, "t", 0, None, {})), DEFAULT_LIMITS, OpAddTask(1, "t", 0, None, {})) ==
        b.(tasks := TWO_TASKS)
  {
    assert Rows([], 0) == [];
    var one := CreateTask([], 0, 0, None);
    assert one == [TWO_TASKS[0]];
    assert !Live(one, 1, 0);
    assert RowsUpTo(one, 1, 0) == [];
    assert Rows(one, 1) == [];
  }

  /** Two columns with one task each, merged: both tasks sit at position 0. */
  lemma MergeCanTie()
    ensures var now := Run(FIRST_COLUMN, DEFAULT_LIMITS, [OpCreateColumn(1, "b", false), OpAddTask(0, "t", 0, None, {}),
        OpAddTask(1, "t", 0, None, {}), OpDeleteColumn(0, Some(1), 0)]).tasks;
      Live(now, 1, 0) && Live(now, 1, 1) && now[0].position == now[1].position
  {
    RunFour(FIRST_COLUMN, DEFAULT_LIMITS, OpCreateColumn(1, "b", false), OpAddTask(0, "t", 0, None, {}),
      OpAddTask(1, "t", 0, None, {}), OpDeleteColumn(0, Some(1), 0));
    assert FIRST_COLUMN.columns.Keys == {0};
    LetterColumn(FIRST_COLUMN, 1, 'b');
    ReachTwoTasks();
    var b := Board(map[0 := Column("a", 0, false), 1 := Column("b", 1, false)], TWO_TASKS);
    assert b.columns.Keys == {0, 1};
    assert b.tasks[0].column == 0;
    var merged := DeleteColumn(b, 0, Some(1), 0).value.tasks;
    assert merged[0] == Remapped(TWO_TASKS[0], 0, 1, None) && merged[1] == Remapped(TWO_TASKS[1], 0, 1, None);
  }
}
