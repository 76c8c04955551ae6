/** The board: columns, tasks and every service operation on them, with the invariants that
    hold in every reachable board. Column ids and the clock are supplied by the caller. */
module KanbanBoard {
  import opened Options
  import opened Ids
  import opened KanbanOrder

  datatype Column = Column(name: string, position: nat, isDone: bool)

  datatype Board = Board(columns: map<ColumnId, Column>, tasks: seq<Task>)

  datatype Limits = Limits(maxColumns: nat, maxNameLen: nat)

  const DEFAULT_LIMITS := Limits(8, 40)

  datatype Error =
    | ColumnNotFound | TaskNotFound | EmptyName | EmptyTitle | InvalidInput | DuplicateColumnName | ColumnLimit
    | LastColumn | MoveToSelf | ColumnNotEmpty | InvalidPermutation | InvalidAfterTask | AssigneeNotMember
    | IdTaken

  datatype Result<+T> = Ok(value: T) | Err(error: Error)

  // ----- names ------------------------------------------------------------

  function LowerChar(c: char): char { if 'A' <= c <= 'Z' then c - 'A' + 'a' else c }

  function Lower(s: string): (r: string)
    ensures |r| == |s|
  {
    seq(|s|, i requires 0 <= i < |s| => LowerChar(s[i]))
  }

  /** The white space of Unicode. */
  predicate IsSpace(c: char) {
    || c == ' ' || '\t' <= c <= '\r' || c == '\U{85}' || c == '\U{A0}' || c == '\U{1680}'
    || '\U{2000}' <= c <= '\U{200A}' || c == '\U{2028}' || c == '\U{2029}' || c == '\U{202F}'
    || c == '\U{205F}' || c == '\U{3000}'
  }

  function Trim(s: string): string {
    if s == [] then s
    else if IsSpace(s[0]) then Trim(s[1..])
    else if IsSpace(s[|s|-1]) then Trim(s[..|s|-1])
    else s
  }

  function ValidateName(name: string, maxLen: nat): Result<string> {
    if Trim(name) == "" then Err(EmptyName)
    else if |Trim(name)| > maxLen then Err(InvalidInput)
    else Ok(Trim(name))
  }

  predicate ExistsName(columns: map<ColumnId, Column>, name: string) {
    exists c :: c in columns && Lower(columns[c].name) == Lower(name)
  }

  // ----- columns ----------------------------------------------------------

  function CreateColumn(b: Board, lim: Limits, id: ColumnId, name: string, isDone: bool): Result<Board> {
    match ValidateName(name, lim.maxNameLen)
    case Err(e) => Err(e)
    case Ok(trimmed) =>
      if ExistsName(b.columns, trimmed) then Err(DuplicateColumnName)
      else if |b.columns| >= lim.maxColumns then Err(ColumnLimit)
      else if id in b.columns then Err(IdTaken)
      else Ok(b.(columns := b.columns[id := Column(trimmed, |b.columns|, isDone)]))
  }

  /** A missing patch field leaves the column's value; renaming to a case variant of its own
      name skips the duplicate check. */
  function UpdateColumn(b: Board, lim: Limits, id: ColumnId, name: Option<string>,
      isDone: Option<bool>): Result<Board> {
    if id !in b.columns then Err(ColumnNotFound)
    else
      var col := b.columns[id];
      var done := if isDone.Some? then isDone.value else col.isDone;
      match name
      case None => Ok(b.(columns := b.columns[id := col.(isDone := done)]))
      case Some(raw) =>
        match ValidateName(raw, lim.maxNameLen)
        case Err(e) => Err(e)
        case Ok(trimmed) =>
          if Lower(trimmed) != Lower(col.name) && ExistsName(b.columns, trimmed) then Err(DuplicateColumnName)
          else Ok(b.(columns := b.columns[id := col.(name := trimmed, isDone := done)]))
  }

  ghost predicate PermutationOf(order: seq<ColumnId>, ids: set<ColumnId>) {
    Distinct(order) && forall x: ColumnId :: x in order <==> x in ids
  }

  function Repositioned(columns: map<ColumnId, Column>, order: seq<ColumnId>): (r: map<ColumnId, Column>)
    ensures r.Keys == columns.Keys
  {
    map c | c in columns :: match IndexOf(order, c) case Some(i) => columns[c].(position := i) case None => columns[c]
  }

  ghost function ReorderColumns(b: Board, order: seq<ColumnId>): Result<Board> {
    if PermutationOf(order, b.columns.Keys) then Ok(b.(columns := Repositioned(b.columns, order)))
      else Err(InvalidPermutation)
  }

  function Remapped(t: Task, from: ColumnId, to: ColumnId, completedAt: Option<nat>): Task {
    if t.column == from then t.(column := to, completedAt := completedAt) else t
  }

  /** Every task of the column, soft-deleted ones included, changes column. */
  function MoveAll(tasks: seq<Task>, from: ColumnId, to: ColumnId, completedAt: Option<nat>): (r: seq<Task>)
    ensures |r| == |tasks| && forall i :: 0 <= i < |tasks| ==> r[i] == Remapped(tasks[i], from, to, completedAt)
  {
    seq(|tasks|, i requires 0 <= i < |tasks| => Remapped(tasks[i], from, to, completedAt))
  }

  function CompletedAtIf(isDone: bool, now: nat): Option<nat> { if isDone then Some(now) else None }

  predicate Holds(tasks: seq<Task>, col: ColumnId) { exists i :: 0 <= i < |tasks| && tasks[i].column == col }

  function DeleteColumn(b: Board, id: ColumnId, moveTo: Option<ColumnId>, now: nat): Result<Board> {
    if id !in b.columns then Err(ColumnNotFound)
    else if |b.columns| <= 1 then Err(LastColumn)
    else if moveTo == Some(id) then Err(MoveToSelf)
    else if Holds(b.tasks, id) && moveTo.None? then Err(ColumnNotEmpty)
    else match moveTo
    case None => Ok(b.(columns := b.columns - {id}))
    case Some(to) =>
      if to !in b.columns then Err(ColumnNotFound)
      else Ok(Board(b.columns - {id}, MoveAll(b.tasks, id, to, CompletedAtIf(b.columns[to].isDone, now))))
  }

  // ----- tasks ------------------------------------------------------------

  function AddTask(b: Board, col: ColumnId, title: string, creator: nat, assignee: Option<nat>,
      members: set<nat>): Result<Board> {
    if Trim(title) == "" then Err(EmptyTitle)
    else if col !in b.columns then Err(ColumnNotFound)
    else if assignee.Some? && assignee.value !in members then Err(AssigneeNotMember)
    else Ok(b.(tasks := CreateTask(b.tasks, col, creator, assignee)))
  }

  predicate LiveTask(tasks: seq<Task>, id: TaskId) { id < |tasks| && !tasks[id].deleted }

  /** The editable content is replaced; of what the board keeps that is the assignee. */
  function EditTask(b: Board, id: TaskId, title: string, assignee: Option<nat>, members: set<nat>): Result<Board> {
    if !LiveTask(b.tasks, id) then Err(TaskNotFound)
    else if Trim(title) == "" then Err(EmptyTitle)
    else if assignee.Some? && assignee.value !in members then Err(AssigneeNotMember)
    else Ok(b.(tasks := b.tasks[id := b.tasks[id].(assignee := assignee)]))
  }

  function Move(b: Board, id: TaskId, target: ColumnId, after: Option<TaskId>, now: nat): Result<Board> {
    if !LiveTask(b.tasks, id) then Err(TaskNotFound)
    else if target !in b.columns then Err(ColumnNotFound)
    else match MoveTask(b.tasks, id, target, after, CompletedAtIf(b.columns[target].isDone, now))
    case NoTask => Err(TaskNotFound)
    case InvalidAfter => Err(InvalidAfterTask)
    case Moved(tasks) => Ok(b.(tasks := tasks))
  }

  function DeleteTask(b: Board, id: TaskId): Result<Board> {
    if !LiveTask(b.tasks, id) then Err(TaskNotFound) else Ok(b.(tasks := SetDeleted(b.tasks, id, true)))
  }

  function RestoreTask(b: Board, id: TaskId): Result<Board> {
    if id >= |b.tasks| || !b.tasks[id].deleted then Err(TaskNotFound)
    else Ok(b.(tasks := SetDeleted(b.tasks, id, false)))
  }

  function HandedOver(t: Task, departed: nat, newOwner: nat): Task {
    if t.deleted then t
    else t.(assignee := if t.assignee == Some(departed) then None else t.assignee,
            creator := if t.creator == departed then newOwner else t.creator)
  }

  /** The adapter touches live tasks only. */
  function Handover(tasks: seq<Task>, departed: nat, newOwner: nat): (r: seq<Task>)
    ensures |r| == |tasks| && forall i :: 0 <= i < |tasks| ==> r[i] == HandedOver(tasks[i], departed, newOwner)
  {
    seq(|tasks|, i requires 0 <= i < |tasks| => HandedOver(tasks[i], departed, newOwner))
  }

  // ----- runs -------------------------------------------------------------

  datatype BoardOp =
    | OpCreateColumn(newId: ColumnId, name: string, isDone: bool)
    | OpUpdateColumn(col: ColumnId, rename: Option<string>, setDone: Option<bool>)
    | OpReorder(order: seq<ColumnId>)
    | OpDeleteColumn(victim: ColumnId, moveTo: Option<ColumnId>, deletedAt: nat)
    | OpAddTask(into: ColumnId, title: string, creator: nat, assignee: Option<nat>, members: set<nat>)
    | OpEditTask(edited: TaskId, title: string, assignee: Option<nat>, members: set<nat>)
    | OpMove(task: TaskId, target: ColumnId, after: Option<TaskId>, movedAt: nat)
    | OpDeleteTask(gone: TaskId)
    | OpRestoreTask(back: TaskId)
    | OpHandover(departed: nat, newOwner: nat)

  ghost function Call(b: Board, lim: Limits, op: BoardOp): Result<Board> {
    match op
    case OpCreateColumn(id, name, isDone) => CreateColumn(b, lim, id, name, isDone)
    case OpUpdateColumn(id, name, isDone) => UpdateColumn(b, lim, id, name, isDone)
    case OpReorder(order) => ReorderColumns(b, order)
    case OpDeleteColumn(id, moveTo, now) => DeleteColumn(b, id, moveTo, now)
    case OpAddTask(col, title, creator, assignee, members) => AddTask(b, col, title, creator, assignee, members)
    case OpEditTask(id, title, assignee, members) => EditTask(b, id, title, assignee, members)
    case OpMove(id, target, after, now) => Move(b, id, target, after, now)
    case OpDeleteTask(id) => DeleteTask(b, id)
    case OpRestoreTask(id) => RestoreTask(b, id)
    case OpHandover(departed, newOwner) => Ok(b.(tasks := Handover(b.tasks, departed, newOwner)))
  }

  /** A refused call leaves the board as it was. */
  ghost function Next(b: Board, lim: Limits, op: BoardOp): Board {
    var r := Call(b, lim, op);
    if r.Ok? then r.value else b
  }

  ghost function Run(b: Board, lim: Limits, ops: seq<BoardOp>): Board {
    if ops == [] then b else Next(Run(b, lim, ops[..|ops|-1]), lim, ops[|ops|-1])
  }

  // ----- invariant --------------------------------------------------------

  /** Every task, live or soft-deleted, names an existing column. */
  ghost predicate NoDangling(b: Board) {
    forall i :: 0 <= i < |b.tasks| ==> b.tasks[i].column in b.columns
  }

  ghost predicate NamesUnique(columns: map<ColumnId, Column>) {
    forall c, d :: c in columns && d in columns && Lower(columns[c].name) == Lower(columns[d].name) ==> c == d
  }

  ghost predicate Inv(b: Board, lim: Limits) {
    && NoDangling(b)
    && NamesUnique(b.columns)
    && 1 <= |b.columns| <= lim.maxColumns
  }

  lemma MovedShape(tasks: seq<Task>, id: TaskId, target: ColumnId, after: Option<TaskId>, completedAt: Option<nat>)
    requires MoveTask(tasks, id, target, after, completedAt).Moved?
    ensures var moved := MoveTask(tasks, id, target, after, completedAt).tasks;
      && |moved| == |tasks| && id < |tasks|
      && moved[id].column == target && moved[id].completedAt == completedAt && !moved[id].deleted
      && moved[id].creator == tasks[id].creator && moved[id].assignee == tasks[id].assignee
      && forall x: TaskId :: x < |tasks| && x != id ==> moved[x] == tasks[x].(position := moved[x].position)
  {
  }

  lemma CreateColumnKeeps(b: Board, lim: Limits, id: ColumnId, name: string, isDone: bool)
    requires Inv(b, lim) && CreateColumn(b, lim, id, name, isDone).Ok?
    ensures Inv(CreateColumn(b, lim, id, name, isDone).value, lim)
  {
    var after := CreateColumn(b, lim, id, name, isDone).value;
    assert after.columns.Keys == b.columns.Keys + {id};
    assert |after.columns| == |after.columns.Keys|;
  }

  /** Replacing a column by one whose name no other column has. */
  lemma ReplaceColumnKeeps(b: Board, lim: Limits, id: ColumnId, col: Column)
    requires Inv(b, lim) && id in b.columns
    requires forall c :: c in b.columns && Lower(b.columns[c].name) == Lower(col.name) ==> c == id
    ensures Inv(b.(columns := b.columns[id := col]), lim)
  {
    var after := b.columns[id := col];
    assert after.Keys == b.columns.Keys;
    assert |after| == |after.Keys|;
  }

  lemma UpdateColumnKeeps(b: Board, lim: Limits, id: ColumnId, name: Option<string>, isDone: Option<bool>)
    requires Inv(b, lim) && UpdateColumn(b, lim, id, name, isDone).Ok?
    ensures Inv(UpdateColumn(b, lim, id, name, isDone).value, lim)
  {
    var after := UpdateColumn(b, lim, id, name, isDone).value;
    ReplaceColumnKeeps(b, lim, id, after.columns[id]);
    assert after == b.(columns := b.columns[id := after.columns[id]]);
  }

  lemma ReorderKeeps(b: Board, lim: Limits, order: seq<ColumnId>)
    requires Inv(b, lim) && ReorderColumns(b, order).Ok?
    ensures Inv(ReorderColumns(b, order).value, lim)
  {
    var after := ReorderColumns(b, order).value;
    assert |after.columns| == |after.columns.Keys|;
    forall c, d | c in after.columns && d in after.columns &&
      Lower(after.columns[c].name) == Lower(after.columns[d].name)
      ensures c == d
    {
      assert after.columns[c].name == b.columns[c].name && after.columns[d].name == b.columns[d].name;
    }
  }

  lemma DeleteColumnKeeps(b: Board, lim: Limits, id: ColumnId, moveTo: Option<ColumnId>, now: nat)
    requires Inv(b, lim) && DeleteColumn(b, id, moveTo, now).Ok?
    ensures Inv(DeleteColumn(b, id, moveTo, now).value, lim)
  {
    var after := DeleteColumn(b, id, moveTo, now).value;
    assert after.columns.Keys == b.columns.Keys - {id};
    assert |after.columns| == |after.columns.Keys|;
    assert |b.columns.Keys - {id}| == |b.columns.Keys| - 1;
  }

  lemma MoveKeeps(b: Board, lim: Limits, id: TaskId, target: ColumnId, after: Option<TaskId>, now: nat)
    requires Inv(b, lim) && Move(b, id, target, after, now).Ok?
    ensures Inv(Move(b, id, target, after, now).value, lim)
  {
    MovedShape(b.tasks, id, target, after, CompletedAtIf(b.columns[target].isDone, now));
    var moved := Move(b, id, target, after, now).value;
    forall i | 0 <= i < |moved.tasks| ensures moved.tasks[i].column in moved.columns {
      if i != id { assert moved.tasks[i] == b.tasks[i].(position := moved.tasks[i].position); }
    }
  }

  /** One successful call keeps the board well formed. */
  lemma CallKeeps(b: Board, lim: Limits, op: BoardOp)
    requires Inv(b, lim) && Call(b, lim, op).Ok?
    ensures Inv(Call(b, lim, op).value, lim)
  {
    match op
    case OpCreateColumn(id, name, isDone) => CreateColumnKeeps(b, lim, id, name, isDone);
    case OpUpdateColumn(id, name, isDone) => UpdateColumnKeeps(b, lim, id, name, isDone);
    case OpReorder(order) => ReorderKeeps(b, lim, order);
    case OpDeleteColumn(id, moveTo, now) => DeleteColumnKeeps(b, lim, id, moveTo, now);
    case OpMove(id, target, after, now) => MoveKeeps(b, lim, id, target, after, now);
    case _ =>
  }

  /** In every reachable board each task names an existing column, column names differ
      ignoring case, and there are between 1 and maxColumns columns. */
  lemma {:induction false} RunKeepsBoard(b: Board, lim: Limits, ops: seq<BoardOp>)
    requires Inv(b, lim)
    ensures Inv(Run(b, lim, ops), lim)
  {
    if ops == [] {
    } else {
      RunKeepsBoard(b, lim, ops[..|ops|-1]);
      var before := Run(b, lim, ops[..|ops|-1]);
      if Call(before, lim, ops[|ops|-1]).Ok? { CallKeeps(before, lim, ops[|ops|-1]); }
    }
  }

  // ----- nothing is lost --------------------------------------------------

  /** Whether task i is live after the call, given whether it was live before. */
  predicate LiveAfter(op: BoardOp, i: TaskId, live: bool) {
    match op
    case OpDeleteTask(gone) => live && gone != i
    case OpRestoreTask(back) => live || back == i
    case _ => live
  }

  /** The last delete or restore of i decides. */
  predicate KeptLive(ops: seq<BoardOp>, i: TaskId, live: bool) {
    if ops == [] then live else LiveAfter(ops[|ops|-1], i, KeptLive(ops[..|ops|-1], i, live))
  }

  /** A call, accepted or refused, keeps every task row, and changes whether a task is live only
      by deleting or restoring that very task. */
  lemma CallLosesNoTask(b: Board, lim: Limits, op: BoardOp, i: TaskId)
    requires i < |b.tasks|
    ensures |Next(b, lim, op).tasks| >= |b.tasks|
    ensures LiveTask(Next(b, lim, op).tasks, i) <==> LiveAfter(op, i, LiveTask(b.tasks, i))
  {
    if op.OpMove? && Call(b, lim, op).Ok? {
      MovedShape(b.tasks, op.task, op.target, op.after, CompletedAtIf(b.columns[op.target].isDone, op.movedAt));
      var moved := Next(b, lim, op).tasks;
      if i != op.task { assert moved[i] == b.tasks[i].(position := moved[i].position); }
    }
  }

  lemma {:induction false} RunKeepsRow(b: Board, lim: Limits, ops: seq<BoardOp>, i: TaskId)
    requires i < |b.tasks|
    ensures i < |Run(b, lim, ops).tasks|
    ensures LiveTask(Run(b, lim, ops).tasks, i) <==> KeptLive(ops, i, LiveTask(b.tasks, i))
  {
    if ops == [] {
    } else {
      RunKeepsRow(b, lim, ops[..|ops|-1], i);
      CallLosesNoTask(Run(b, lim, ops[..|ops|-1]), lim, ops[|ops|-1], i);
    }
  }

  /** Over any run from a valid board a task is live exactly when the last delete or restore
      naming it says so, whatever happened to its column meanwhile; a live task sits in a column
      that exists and is listed there and nowhere else, a deleted one is listed nowhere. */
  lemma RunLosesNoTask(b: Board, lim: Limits, ops: seq<BoardOp>, i: TaskId, col: ColumnId)
    requires Inv(b, lim) && i < |b.tasks|
    ensures var now := Run(b, lim, ops);
      && i < |now.tasks| && now.tasks[i].column in now.columns
      && (LiveTask(now.tasks, i) <==> KeptLive(ops, i, LiveTask(b.tasks, i)))
      && (i in Rows(now.tasks, col) <==> KeptLive(ops, i, LiveTask(b.tasks, i)) && col == now.tasks[i].column)
  {
    RunKeepsBoard(b, lim, ops);
    RunKeepsRow(b, lim, ops, i);
    RowsMembers(Run(b, lim, ops).tasks, col, i);
  }

  lemma {:induction false} UndeletedKeepsLive(ops: seq<BoardOp>, i: TaskId)
    requires OpDeleteTask(i) !in ops
    ensures KeptLive(ops, i, true)
  {
    if ops == [] {
    } else {
      UndeletedKeepsLive(ops[..|ops|-1], i);
    }
  }

  /** No live task is lost without a delete that names it: column deletions, merges and moves
      included, it stays live and listed in a column that exists. */
  lemma UndeletedTaskStays(b: Board, lim: Limits, ops: seq<BoardOp>, i: TaskId)
    requires Inv(b, lim) && LiveTask(b.tasks, i) && OpDeleteTask(i) !in ops
    ensures var now := Run(b, lim, ops);
      && LiveTask(now.tasks, i) && now.tasks[i].column in now.columns
      && i in Rows(now.tasks, now.tasks[i].column)
  {
    RunKeepsRow(b, lim, ops, i);
    RunLosesNoTask(b, lim, ops, i, Run(b, lim, ops).tasks[i].column);
    UndeletedKeepsLive(ops, i);
  }

  /** Deleting a column leaves every live task on the board: the column's tasks join the target
      column and no other column's listing changes. */
  lemma DeleteColumnKeepsTasks(b: Board, id: ColumnId, moveTo: Option<ColumnId>, now: nat, t: TaskId, col: ColumnId)
    requires DeleteColumn(b, id, moveTo, now).Ok?
    ensures var after := DeleteColumn(b, id, moveTo, now).value;
      Live(after.tasks, col, t) <==>
        if col == id then false
        else Live(b.tasks, col, t) || (moveTo == Some(col) && Live(b.tasks, id, t))
  {
    var after := DeleteColumn(b, id, moveTo, now).value;
    if t < |b.tasks| && moveTo.Some? {
      assert after.tasks[t] ==
        Remapped(b.tasks[t], id, moveTo.value, CompletedAtIf(b.columns[moveTo.value].isDone, now));
    }
  }

  /** A column can be deleted exactly when it is not the last one and either holds no task at
      all, live or deleted, or names another existing column to take them. */
  lemma DeleteColumnSucceedsIff(b: Board, id: ColumnId, moveTo: Option<ColumnId>, now: nat)
    requires NoDangling(b)
    ensures DeleteColumn(b, id, moveTo, now).Ok? <==>
      && id in b.columns && |b.columns| > 1
      && (moveTo.None? ==> forall i :: 0 <= i < |b.tasks| ==> b.tasks[i].column in b.columns - {id})
      && (moveTo.Some? ==> moveTo.value in b.columns - {id})
  {
  }

  /** A soft-deleted task can always be restored, exactly as it was, into a column that exists. */
  lemma RestoreNeverDangles(b: Board, lim: Limits, ops: seq<BoardOp>, id: TaskId)
    requires Inv(b, lim) && id < |Run(b, lim, ops).tasks| && Run(b, lim, ops).tasks[id].deleted
    ensures var now := Run(b, lim, ops);
      RestoreTask(now, id).Ok?
      && RestoreTask(now, id).value.tasks == now.tasks[id := now.tasks[id].(deleted := false)]
      && RestoreTask(now, id).value.tasks[id].column in now.columns
  {
    RunKeepsBoard(b, lim, ops);
  }

  lemma DeleteThenRestore(b: Board, id: TaskId)
    requires DeleteTask(b, id).Ok?
    ensures RestoreTask(DeleteTask(b, id).value, id) == Ok(b)
  {
    var back := RestoreTask(DeleteTask(b, id).value, id).value;
    assert back.tasks == b.tasks;
  }

  // ----- handover ---------------------------------------------------------

  predicate Names(t: Task, member: nat) { t.assignee == Some(member) || t.creator == member }

  predicate NoHandover(ops: seq<BoardOp>) { forall k :: 0 <= k < |ops| ==> !ops[k].OpHandover? }

  /** The call is an edit of task i that is accepted. */
  predicate AcceptedEdit(op: BoardOp, i: TaskId, live: bool) {
    op.OpEditTask? && op.edited == i && live && Trim(op.title) != ""
    && (op.assignee.Some? ==> op.assignee.value in op.members)
  }

  /** Who holds task i after the calls, handovers aside: the last accepted edit decides. */
  function HeldBy(ops: seq<BoardOp>, i: TaskId, live: bool, assignee: Option<nat>): Option<nat> {
    if ops == [] then assignee
    else
      var before, op := ops[..|ops|-1], ops[|ops|-1];
      if AcceptedEdit(op, i, KeptLive(before, i, live)) then op.assignee else HeldBy(before, i, live, assignee)
  }

  lemma CallKeepsHolders(b: Board, lim: Limits, op: BoardOp, i: TaskId)
    requires i < |b.tasks| && !op.OpHandover?
    ensures i < |Next(b, lim, op).tasks|
    ensures Next(b, lim, op).tasks[i].assignee ==
      if AcceptedEdit(op, i, LiveTask(b.tasks, i)) then op.assignee else b.tasks[i].assignee
    ensures Next(b, lim, op).tasks[i].creator == b.tasks[i].creator
  {
    if op.OpMove? && Call(b, lim, op).Ok? {
      MovedShape(b.tasks, op.task, op.target, op.after, CompletedAtIf(b.columns[op.target].isDone, op.movedAt));
      var moved := Next(b, lim, op).tasks;
      if i != op.task { assert moved[i] == b.tasks[i].(position := moved[i].position); }
    }
  }

  lemma {:induction false} RunKeepsHolders(b: Board, lim: Limits, ops: seq<BoardOp>, i: TaskId)
    requires i < |b.tasks| && NoHandover(ops)
    ensures i < |Run(b, lim, ops).tasks|
    ensures Run(b, lim, ops).tasks[i].assignee == HeldBy(ops, i, LiveTask(b.tasks, i), b.tasks[i].assignee)
    ensures Run(b, lim, ops).tasks[i].creator == b.tasks[i].creator
  {
    if ops == [] {
    } else {
      RunKeepsHolders(b, lim, ops[..|ops|-1], i);
      RunKeepsRow(b, lim, ops[..|ops|-1], i);
      CallKeepsHolders(Run(b, lim, ops[..|ops|-1]), lim, ops[|ops|-1], i);
    }
  }

  /** The assignee the handover leaves; a deleted task is skipped. */
  function AssigneeLeft(t: Task, departed: nat): Option<nat> {
    if !t.deleted && t.assignee == Some(departed) then None else t.assignee
  }

  /** After a handover, over any later run without another one, a task of the board shows up live
      under the departed member exactly when the run's last word on it leaves it live and it was
      deleted at the handover while created by that member, or the last accepted edit, the handover
      where there is none, left it assigned to that member: the handover skips deleted tasks. */
  lemma DepartedReturnsIff(b: Board, lim: Limits, departed: nat, newOwner: nat, ops: seq<BoardOp>, i: TaskId)
    requires departed != newOwner && i < |b.tasks| && NoHandover(ops)
    ensures var now := Run(Next(b, lim, OpHandover(departed, newOwner)), lim, ops);
      var t, live := b.tasks[i], LiveTask(b.tasks, i);
      && i < |now.tasks|
      && (LiveTask(now.tasks, i) && Names(now.tasks[i], departed) <==>
          KeptLive(ops, i, live)
          && ((t.deleted && t.creator == departed)
              || HeldBy(ops, i, live, AssigneeLeft(t, departed)) == Some(departed)))
  {
    var handed := Next(b, lim, OpHandover(departed, newOwner));
    assert handed.tasks[i] == HandedOver(b.tasks[i], departed, newOwner);
    RunKeepsHolders(handed, lim, ops, i);
    RunKeepsRow(handed, lim, ops, i);
  }

  predicate Unedited(ops: seq<BoardOp>, i: TaskId) {
    forall k :: 0 <= k < |ops| ==> !(ops[k].OpEditTask? && ops[k].edited == i)
  }

  lemma {:induction false} UneditedKeepsHolder(ops: seq<BoardOp>, i: TaskId, live: bool, assignee: Option<nat>)
    requires Unedited(ops, i)
    ensures HeldBy(ops, i, live, assignee) == assignee
  {
    if ops == [] {
    } else {
      UneditedKeepsHolder(ops[..|ops|-1], i, live, assignee);
    }
  }

  /** Without a later edit of the task: exactly when it named the departed member while it was deleted
      at the handover and the run's last word on it is a restore. */
  lemma UneditedReturnsIff(b: Board, lim: Limits, departed: nat, newOwner: nat, ops: seq<BoardOp>, i: TaskId)
    requires departed != newOwner && i < |b.tasks| && NoHandover(ops) && Unedited(ops, i)
    ensures var now := Run(Next(b, lim, OpHandover(departed, newOwner)), lim, ops);
      && i < |now.tasks|
      && (LiveTask(now.tasks, i) && Names(now.tasks[i], departed) <==>
          Names(b.tasks[i], departed) && b.tasks[i].deleted && KeptLive(ops, i, false))
  {
    var t := b.tasks[i];
    DepartedReturnsIff(b, lim, departed, newOwner, ops, i);
    UneditedKeepsHolder(ops, i, LiveTask(b.tasks, i), AssigneeLeft(t, departed));
  }

  // ----- column positions -------------------------------------------------

  /** No two columns share a position. */
  ghost predicate PositionsDistinct(columns: map<ColumnId, Column>) {
    forall c, d :: c in columns && d in columns && columns[c].position == columns[d].position ==> c == d
  }

  /** No column sits at position p. */
  predicate PositionFree(columns: map<ColumnId, Column>, p: nat) {
    forall c :: c in columns ==> columns[c].position != p
  }

  /** A new column takes the number of columns as its position, which may be in use. */
  lemma CreateKeepsPositionsIff(b: Board, lim: Limits, id: ColumnId, name: string, isDone: bool)
    requires PositionsDistinct(b.columns) && CreateColumn(b, lim, id, name, isDone).Ok?
    ensures PositionsDistinct(CreateColumn(b, lim, id, name, isDone).value.columns) <==>
      PositionFree(b.columns, |b.columns|)
  {
    var after := CreateColumn(b, lim, id, name, isDone).value.columns;
    if c :| c in b.columns && b.columns[c].position == |b.columns| {
      assert c in after && id in after && after[c].position == after[id].position;
    }
  }

  /** A reorder numbers the columns 0, 1, 2, ... whatever their positions were. */
  lemma ReorderSpreadsPositions(b: Board, order: seq<ColumnId>)
    requires ReorderColumns(b, order).Ok?
    ensures var after := ReorderColumns(b, order).value.columns;
      && PositionsDistinct(after)
      && forall i :: 0 <= i < |order| ==> order[i] in after && after[order[i]].position == i
  {
    var after := ReorderColumns(b, order).value.columns;
    forall i | 0 <= i < |order| ensures order[i] in after && after[order[i]].position == i {
      assert order[i] in order;
      IndexOfUnique(order, i);
    }
    forall c, d | c in after && d in after && after[c].position == after[d].position ensures c == d {
      assert c in order && d in order;
    }
  }

  /** Among all calls on a board with distinct column positions only a creation can tie two of
      them, and it does exactly when a column already sits at the column count. */
  lemma CallKeepsPositionsIff(b: Board, lim: Limits, op: BoardOp)
    requires PositionsDistinct(b.columns) && Call(b, lim, op).Ok?
    ensures PositionsDistinct(Next(b, lim, op).columns) <==>
      (op.OpCreateColumn? ==> PositionFree(b.columns, |b.columns|))
  {
    match op
    case OpCreateColumn(id, name, isDone) => CreateKeepsPositionsIff(b, lim, id, name, isDone);
    case OpReorder(order) => ReorderSpreadsPositions(b, order);
    case OpUpdateColumn(id, name, isDone) => UpdateKeepsPositions(b, lim, id, name, isDone);
    case OpDeleteColumn(id, moveTo, now) =>
      assert forall c :: c in Next(b, lim, op).columns ==>
        c in b.columns && Next(b, lim, op).columns[c] == b.columns[c];
    case _ =>
  }

  lemma UpdateKeepsPositions(b: Board, lim: Limits, id: ColumnId, name: Option<string>, isDone: Option<bool>)
    requires PositionsDistinct(b.columns) && UpdateColumn(b, lim, id, name, isDone).Ok?
    ensures PositionsDistinct(UpdateColumn(b, lim, id, name, isDone).value.columns)
  {
    var after := UpdateColumn(b, lim, id, name, isDone).value.columns;
    forall c | c in after ensures c in b.columns && after[c].position == b.columns[c].position {
    }
  }

  lemma RunSnoc(b: Board, lim: Limits, before: seq<BoardOp>, op: BoardOp)
    ensures Run(b, lim, before + [op]) == Next(Run(b, lim, before), lim, op)
  {
    assert (before + [op])[..|before|] == before;
  }

  lemma RunFour(b: Board, lim: Limits, o1: BoardOp, o2: BoardOp, o3: BoardOp, o4: BoardOp)
    ensures Run(b, lim, [o1, o2, o3, o4]) == Next(Next(Next(Next(b, lim, o1), lim, o2), lim, o3), lim, o4)
  {
    RunSnoc(b, lim, [], o1);
    RunSnoc(b, lim, [o1], o2);
    RunSnoc(b, lim, [o1, o2], o3);
    RunSnoc(b, lim, [o1, o2, o3], o4);
    assert [] + [o1] == [o1] && [o1] + [o2] == [o1, o2] && [o1, o2] + [o3] == [o1, o2, o3];
    assert [o1, o2, o3] + [o4] == [o1, o2, o3, o4];
  }

  /** A column named by a small letter that no column has is accepted. */
  lemma LetterColumn(b: Board, id: ColumnId, c: char)
    requires 'a' <= c <= 'z' && |b.columns| < 8 && id !in b.columns
    requires forall d :: d in b.columns ==>
      |b.columns[d].name| == 1 && 'a' <= b.columns[d].name[0] <= 'z' && b.columns[d].name[0] != c
    ensures Next(b, DEFAULT_LIMITS, OpCreateColumn(id, [c], false)) ==
      b.(columns := b.columns[id := Column([c], |b.columns|, false)])
  {
    assert Trim([c]) == [c];
    assert !ExistsName(b.columns, [c]) by {
      forall d | d in b.columns ensures Lower(b.columns[d].name) != Lower([c]) {
        assert Lower(b.columns[d].name)[0] == b.columns[d].name[0] && Lower([c])[0] == c;
      }
    }
  }

  const FIRST_COLUMN := Board(map[0 := Column("a", 0, false)], [])
  const THREE_COLUMNS :=
    Board(map[0 := Column("a", 0, false), 1 := Column("b", 1, false), 2 := Column("c", 2, false)], [])
  const LAST_TWO := Board(map[1 := Column("b", 1, false), 2 := Column("c", 2, false)], [])
  const TIED := Board(map[1 := Column("b", 1, false), 2 := Column("c", 2, false), 3 := Column("d", 2, false)], [])

  lemma OneColumn()
    ensures Inv(FIRST_COLUMN, DEFAULT_LIMITS)
  {
    assert FIRST_COLUMN.columns.Keys == {0} && |FIRST_COLUMN.columns| == |FIRST_COLUMN.columns.Keys|;
  }

  lemma ReachThree()
    ensures Next(Next(FIRST_COLUMN, DEFAULT_LIMITS, OpCreateColumn(1, "b", false)), DEFAULT_LIMITS,
      OpCreateColumn(2, "c", false))
      == THREE_COLUMNS
  {
    assert FIRST_COLUMN.columns.Keys == {0};
    LetterColumn(FIRST_COLUMN, 1, 'b');
    var two := Next(FIRST_COLUMN, DEFAULT_LIMITS, OpCreateColumn(1, "b", false));
    assert two.columns.Keys == {0, 1};
    LetterColumn(two, 2, 'c');
  }

  lemma DeleteEmpty(b: Board, id: ColumnId)
    requires id in b.columns && |b.columns| > 1 && b.tasks == []
    ensures Next(b, DEFAULT_LIMITS, OpDeleteColumn(id, None, 0)) == b.(columns := b.columns - {id})
  {
  }

  lemma ReachLastTwo()
    ensures Next(THREE_COLUMNS, DEFAULT_LIMITS, OpDeleteColumn(0, None, 0)) == LAST_TWO
  {
    assert THREE_COLUMNS.columns.Keys == {0, 1, 2};
    DeleteEmpty(THREE_COLUMNS, 0);
    assert THREE_COLUMNS.columns - {0} == LAST_TWO.columns;
  }

  lemma ReachTied()
    ensures Next(LAST_TWO, DEFAULT_LIMITS, OpCreateColumn(3, "d", false)) == TIED
  {
    assert LAST_TWO.columns.Keys == {1, 2};
    LetterColumn(LAST_TWO, 3, 'd');
  }

  /** Four accepted calls on a one-column board end with two columns at position 2. */
  lemma ColumnPositionsCanTie()
    ensures Inv(FIRST_COLUMN, DEFAULT_LIMITS) && PositionsDistinct(FIRST_COLUMN.columns)
    ensures Run(FIRST_COLUMN, DEFAULT_LIMITS, [OpCreateColumn(1, "b", false), OpCreateColumn(2, "c", false),
      OpDeleteColumn(0, None, 0), OpCreateColumn(3, "d", false)]) == TIED
    ensures !PositionsDistinct(TIED.columns)
  {
    RunFour(FIRST_COLUMN, DEFAULT_LIMITS, OpCreateColumn(1, "b", false), OpCreateColumn(2, "c", false),
      OpDeleteColumn(0, None, 0), OpCreateColumn(3, "d", false));
    ReachThree();
    ReachLastTwo();
    ReachTied();
    OneColumn();
    assert TIED.columns[2].position == TIED.columns[3].position;
  }

  lemma RunTwo(b: Board, lim: Limits, o1: BoardOp, o2: BoardOp)
    ensures Run(b, lim, [o1, o2]) == Next(Next(b, lim, o1), lim, o2)
  {
    RunSnoc(b, lim, [], o1);
    RunSnoc(b, lim, [o1], o2);
    assert [] + [o1] == [o1] && [o1] + [o2] == [o1, o2];
  }

  lemma HandOverAndRestore(b: Board, t: Task, departed: nat, newOwner: nat)
    requires b.tasks == [t] && t.deleted
    ensures Run(b, DEFAULT_LIMITS, [OpHandover(departed, newOwner), OpRestoreTask(0)]) ==
      b.(tasks := [t.(deleted := false)])
  {
    RunTwo(b, DEFAULT_LIMITS, OpHandover(departed, newOwner), OpRestoreTask(0));
    assert Handover(b.tasks, departed, newOwner) == [t];
  }

  /** A task deleted before the handover and restored after it names the departed member again. */
  lemma DepartedReturnsExample()
    ensures var b := FIRST_COLUMN.(tasks := [Task(0, 0.0, true, None, 7, None)]);
      var now := Run(b, DEFAULT_LIMITS, [OpHandover(7, 8), OpRestoreTask(0)]).tasks;
      LiveTask(now, 0) && Names(now[0], 7)
  {
    var t := Task(0, 0.0, true, None, 7, None);
    HandOverAndRestore(FIRST_COLUMN.(tasks := [t]), t, 7, 8);
  }

  lemma TrimLetter(c: char)
    requires !IsSpace(c)
    ensures Trim([c]) == [c]
  {
  }

  /** An edit can take the restored task away from the departed member again. */
  lemma EditedAwayExample()
    ensures var b := FIRST_COLUMN.(tasks := [Task(0, 0.0, true, None, 6, Some(7))]);
      var now := Run(b, DEFAULT_LIMITS, [OpHandover(7, 8), OpRestoreTask(0)] + [OpEditTask(0, "t", None, {})]).tasks;
      LiveTask(now, 0) && !Names(now[0], 7)
  {
    var t := Task(0, 0.0, true, None, 6, Some(7));
    var b := FIRST_COLUMN.(tasks := [t]);
    HandOverAndRestore(b, t, 7, 8);
    RunSnoc(b, DEFAULT_LIMITS, [OpHandover(7, 8), OpRestoreTask(0)], OpEditTask(0, "t", None, {}));
    TrimLetter('t');
  }
}
