/** The board data model (boards own ordered columns, columns own ordered tasks)
    and the lookups over it: `getBoardById`, `getTaskById`, `countBoardTasks`. */
module TaskBoard {
  import opened Wrappers
  import opened Seqs

  /** Task priority, most pressing first. */
  datatype Priority = Urgent | High | Medium | Low

  datatype TaskAssignee = TaskAssignee(id: string, name: string, initials: string)

  /** A task. The board's `Task` type declares no priority although the filters
      read one; the model gives every task a `Priority`. */
  datatype Task = Task(
    id: string,
    title: string,
    description: string,
    priority: Priority,
    labels: seq<string>,
    dueDate: string,
    assignees: seq<TaskAssignee>)

  datatype Column = Column(id: string, name: string, tasks: seq<Task>)

  datatype Board = Board(id: string, name: string, description: string, columns: seq<Column>)

  /** Where `getTaskById` found a task. */
  datatype TaskLocation = TaskLocation(board: Board, column: Column, task: Task)

  /** `column.tasks.some((task) => task.id === taskId)`. */
  predicate HasTask(column: Column, taskId: string) {
    exists k :: 0 <= k < |column.tasks| && column.tasks[k].id == taskId
  }

  predicate NoColumnHasTask(columns: seq<Column>, taskId: string) {
    forall c :: 0 <= c < |columns| ==> !HasTask(columns[c], taskId)
  }

  /** The ids of `tasks`, in order. */
  function TaskIds(tasks: seq<Task>): (r: seq<string>)
    ensures |r| == |tasks| && forall k :: 0 <= k < |tasks| ==> r[k] == tasks[k].id
  {
    seq(|tasks|, k requires 0 <= k < |tasks| => tasks[k].id)
  }

  /** `tasks.findIndex((task) => task.id === id)`: the first position holding
      that id, or -1 when there is none. */
  function TaskIndex(tasks: seq<Task>, id: string): (k: int)
    ensures -1 <= k < |tasks|
    ensures k == -1 <==> forall j :: 0 <= j < |tasks| ==> tasks[j].id != id
    ensures k >= 0 ==> tasks[k].id == id && forall j :: 0 <= j < k ==> tasks[j].id != id
  {
    if tasks == [] then -1
    else if tasks[0].id == id then 0
    else
      var k := TaskIndex(tasks[1..], id);
      if k == -1 then -1 else k + 1
  }

  /** `columns.findIndex((column) => column.id === id)`. */
  function ColumnIndex(columns: seq<Column>, id: string): (k: int)
    ensures -1 <= k < |columns|
    ensures k == -1 <==> forall j :: 0 <= j < |columns| ==> columns[j].id != id
    ensures k >= 0 ==> columns[k].id == id && forall j :: 0 <= j < k ==> columns[j].id != id
  {
    if columns == [] then -1
    else if columns[0].id == id then 0
    else
      var k := ColumnIndex(columns[1..], id);
      if k == -1 then -1 else k + 1
  }

  /** Every task of the board, column after column. */
  function Flatten(columns: seq<Column>): seq<Task> {
    if columns == [] then [] else columns[0].tasks + Flatten(columns[1..])
  }

  /** `getBoardById`: the first board with that id, or `undefined` (None). */
  function GetBoardById(boards: seq<Board>, boardId: string): (r: Option<Board>)
    ensures r.None? <==> forall k :: 0 <= k < |boards| ==> boards[k].id != boardId
    ensures r.Some? ==> r.value.id == boardId && r.value in boards
    ensures r.Some? ==> forall k :: 0 <= k < |boards| && boards[k].id == boardId ==>
                          r.value == boards[FirstBoardIndex(boards, boardId)]
  {
    if boards == [] then None
    else if boards[0].id == boardId then Some(boards[0])
    else GetBoardById(boards[1..], boardId)
  }

  /** Position of the first board with that id (|boards| when there is none). */
  function FirstBoardIndex(boards: seq<Board>, boardId: string): (k: nat)
    ensures k <= |boards|
    ensures forall j :: 0 <= j < k ==> boards[j].id != boardId
    ensures k < |boards| ==> boards[k].id == boardId
  {
    if boards == [] then 0
    else if boards[0].id == boardId then 0
    else 1 + FirstBoardIndex(boards[1..], boardId)
  }

  /** `getTaskById`: null when the board does not exist; otherwise the first
      column, in column order, holding a task with that id, and the first such
      task in it; null when no column holds it. */
  method GetTaskById(boards: seq<Board>, boardId: string, taskId: string) returns (r: Option<TaskLocation>)
    ensures GetBoardById(boards, boardId).None? ==> r.None?
    ensures GetBoardById(boards, boardId).Some? ==>
              (r.None? <==> NoColumnHasTask(GetBoardById(boards, boardId).value.columns, taskId))
    ensures r.Some? ==>
              && GetBoardById(boards, boardId).Some?
              && r.value.board == GetBoardById(boards, boardId).value
              && var columns := r.value.board.columns;
                 exists c :: 0 <= c < |columns| && r.value.column == columns[c]
                             && NoColumnHasTask(columns[..c], taskId)
                             && HasTask(columns[c], taskId)
                             && r.value.task == columns[c].tasks[TaskIndex(columns[c].tasks, taskId)]
    ensures r.Some? ==> r.value.task.id == taskId
  {
    var found := GetBoardById(boards, boardId);
    if found.None? {
      return None;
    }
    var board := found.value;
    var c := 0;
    while c < |board.columns|
      invariant 0 <= c <= |board.columns|
      invariant NoColumnHasTask(board.columns[..c], taskId)
    {
      var column := board.columns[c];
      var k := TaskIndex(column.tasks, taskId);
      if k != -1 {
        assert column.tasks[k].id == taskId;
        assert HasTask(board.columns[c], taskId);
        assert !NoColumnHasTask(board.columns, taskId);
        return Some(TaskLocation(board, column, column.tasks[k]));
      }
      assert board.columns[..c + 1] == board.columns[..c] + [column];
      c := c + 1;
    }
    assert board.columns[..c] == board.columns;
    return None;
  }

  /** `countBoardTasks`: `reduce((total, column) => total + column.tasks.length, 0)`,
      a left fold, so the last column's tasks are added last. */
  function CountBoardTasks(board: Board): (r: nat)
    ensures r == |Flatten(board.columns)|
  {
    CountIsNumberOfTasks(board.columns);
    SumTaskCounts(board.columns)
  }

  function SumTaskCounts(columns: seq<Column>): nat {
    if columns == [] then 0
    else SumTaskCounts(columns[..|columns| - 1]) + |columns[|columns| - 1].tasks|
  }

  lemma {:induction false} FlattenAppend(columns: seq<Column>, column: Column)
    ensures Flatten(columns + [column]) == Flatten(columns) + column.tasks
  {
    if columns == [] {
      assert [column][1..] == [];
      assert column.tasks + [] == column.tasks;
    } else {
      assert (columns + [column])[1..] == columns[1..] + [column];
      FlattenAppend(columns[1..], column);
    }
  }

  /** The count is the number of tasks on the board: the sum of the columns' task counts. */
  lemma {:induction false} CountIsNumberOfTasks(columns: seq<Column>)
    ensures SumTaskCounts(columns) == |Flatten(columns)|
  {
    if columns != [] {
      var n := |columns| - 1;
      CountIsNumberOfTasks(columns[..n]);
      assert columns == columns[..n] + [columns[n]];
      FlattenAppend(columns[..n], columns[n]);
    }
  }

  /** A column's tasks are among the board's tasks, with their multiplicities. */
  lemma {:induction false} ColumnTasksInFlatten(columns: seq<Column>, i: nat)
    requires i < |columns|
    ensures multiset(columns[i].tasks) <= multiset(Flatten(columns))
  {
    if i > 0 {
      ColumnTasksInFlatten(columns[1..], i - 1);
    }
  }

  /** Replacing one column changes the board's tasks by exactly that column's tasks. */
  lemma {:induction false} FlattenUpdate(columns: seq<Column>, i: nat, column: Column)
    requires i < |columns|
    ensures multiset(Flatten(columns[i := column])) + multiset(columns[i].tasks)
            == multiset(Flatten(columns)) + multiset(column.tasks)
  {
    if i == 0 {
      assert columns[i := column][1..] == columns[1..];
    } else {
      var updated := columns[i := column];
      assert updated[1..] == columns[1..][i - 1 := column];
      FlattenUpdate(columns[1..], i - 1, column);
      assert Flatten(updated) == columns[0].tasks + Flatten(updated[1..]);
      assert Flatten(columns) == columns[0].tasks + Flatten(columns[1..]);
      assert columns[1..][i - 1] == columns[i];
      assert multiset(Flatten(updated)) == multiset(columns[0].tasks) + multiset(Flatten(updated[1..]));
      assert multiset(Flatten(columns)) == multiset(columns[0].tasks) + multiset(Flatten(columns[1..]));
      var head := multiset(columns[0].tasks);
      calc {
        multiset(Flatten(updated)) + multiset(columns[i].tasks);
        head + (multiset(Flatten(updated[1..])) + multiset(columns[1..][i - 1].tasks));
        head + (multiset(Flatten(columns[1..])) + multiset(column.tasks));
        multiset(Flatten(columns)) + multiset(column.tasks);
      }
    }
  }

  lemma TaskIdsOfRemove(tasks: seq<Task>, i: nat)
    requires i < |tasks|
    ensures TaskIds(Remove(tasks, i)) == Remove(TaskIds(tasks), i)
  {
  }

  lemma TaskIdsOfInsert(tasks: seq<Task>, i: nat, task: Task)
    requires i <= |tasks|
    ensures TaskIds(Insert(tasks, i, task)) == Insert(TaskIds(tasks), i, task.id)
  {
  }

  lemma TaskIdsRemove(tasks: seq<Task>, i: nat)
    requires i < |tasks|
    ensures multiset(TaskIds(tasks)) == multiset(TaskIds(Remove(tasks, i))) + multiset{tasks[i].id}
  {
    var ids := TaskIds(tasks);
    assert TaskIds(Remove(tasks, i)) == Remove(ids, i);
    RemoveCount(ids, i);
    assert ids[i] in multiset(ids);
  }

  /** Two task lists holding the same tasks hold the same ids, counted with multiplicity. */
  lemma {:induction false} SameTasksSameIds(a: seq<Task>, b: seq<Task>)
    requires multiset(a) == multiset(b)
    ensures multiset(TaskIds(a)) == multiset(TaskIds(b))
  {
    if a == [] {
      assert |b| == |multiset(b)| == 0;
    } else {
      var x := a[0];
      assert x in multiset(a);
      var i := FirstIndex(b, x);
      RemoveCount(b, i);
      RemoveCount(a, 0);
      SameTasksSameIds(Remove(a, 0), Remove(b, i));
      TaskIdsRemove(a, 0);
      TaskIdsRemove(b, i);
    }
  }
}
