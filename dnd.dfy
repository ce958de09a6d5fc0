/** Drag-and-drop helpers of the board: namespaced drag ids, drop-target
    resolution and `moveTask`, the pure function that computes the next column
    list when a task is dropped. */
module Dnd {
  import opened Wrappers
  import opened Text
  import opened Seqs
  import opened TaskBoard

  /** Task and column drag ids carry different prefixes so that a task and a
      column with the same id are never confused. */
  const TaskPrefix: string := "task:"
  const ColumnPrefix: string := "column:"

  /** JavaScript truthiness of a `string | null`: null and "" are both falsy. */
  predicate Truthy(s: Option<string>) {
    s.Some? && s.value != ""
  }

  /** `isTaskDragId`: the id is the task prefix followed by the task's id, and
      then it does not start with the column prefix. */
  predicate IsTaskDragId(id: string): (r: bool)
    ensures r <==> exists rest :: id == TaskPrefix + rest
    ensures r ==> !StartsWith(id, ColumnPrefix)
  {
    assert StartsWith(id, TaskPrefix) ==> id == TaskPrefix + id[|TaskPrefix|..];
    assert StartsWith(id, TaskPrefix) && |id| >= |ColumnPrefix| ==> id[0] != ColumnPrefix[0];
    StartsWith(id, TaskPrefix)
  }

  /** `isColumnDragId`: the id is the column prefix followed by the column's
      id, and then it does not start with the task prefix. */
  predicate IsColumnDragId(id: string): (r: bool)
    ensures r <==> exists rest :: id == ColumnPrefix + rest
    ensures r ==> !StartsWith(id, TaskPrefix)
  {
    assert StartsWith(id, ColumnPrefix) ==> id == ColumnPrefix + id[|ColumnPrefix|..];
    assert StartsWith(id, ColumnPrefix) ==> id[0] != TaskPrefix[0];
    StartsWith(id, ColumnPrefix)
  }

  /** `fromTaskId`: removes the first occurrence of the task prefix. */
  function FromTaskId(id: string): (r: string)
    ensures IsTaskDragId(id) ==> TaskPrefix + r == id
  {
    assert IsTaskDragId(id) ==> id == TaskPrefix + id[|TaskPrefix|..];
    ReplaceFirst(id, TaskPrefix, "")
  }

  /** `fromColumnId`: removes the first occurrence of the column prefix. */
  function FromColumnId(id: string): (r: string)
    ensures IsColumnDragId(id) ==> ColumnPrefix + r == id
  {
    assert IsColumnDragId(id) ==> id == ColumnPrefix + id[|ColumnPrefix|..];
    ReplaceFirst(id, ColumnPrefix, "")
  }

  /** `toTaskId`: an encoded task id is a task drag id, never a column drag id,
      and decodes back to the id it was made from. */
  function ToTaskId(id: string): (r: string)
    ensures IsTaskDragId(r) && !IsColumnDragId(r)
    ensures FromTaskId(r) == id
  {
    var r := TaskPrefix + id;
    assert r[..|TaskPrefix|] == TaskPrefix && r[|TaskPrefix|..] == id;
    assert r[0] == 't';
    r
  }

  /** `toColumnId`: an encoded column id is a column drag id, never a task drag
      id, and decodes back to the id it was made from. */
  function ToColumnId(id: string): (r: string)
    ensures IsColumnDragId(r) && !IsTaskDragId(r)
    ensures FromColumnId(r) == id
  {
    var r := ColumnPrefix + id;
    assert r[..|ColumnPrefix|] == ColumnPrefix && r[|ColumnPrefix|..] == id;
    assert r[0] == 'c';
    r
  }

  /** No drag id is both a task id and a column id. */
  lemma DragIdKindsAreDisjoint(id: string)
    ensures !(IsTaskDragId(id) && IsColumnDragId(id))
  {
    if IsTaskDragId(id) {
      assert id[0] == TaskPrefix[0];
    }
  }

  /** Position of the column `findColumnForTask` returns: the first column
      holding a task with that id, or -1. */
  function OwnerIndex(columns: seq<Column>, taskId: string): (k: int)
    ensures -1 <= k < |columns|
    ensures k == -1 <==> NoColumnHasTask(columns, taskId)
    ensures k >= 0 ==> HasTask(columns[k], taskId) && NoColumnHasTask(columns[..k], taskId)
  {
    if columns == [] then -1
    else if HasTask(columns[0], taskId) then 0
    else
      var k := OwnerIndex(columns[1..], taskId);
      assert k >= 0 ==> columns[..k + 1] == [columns[0]] + columns[1..][..k];
      if k == -1 then -1 else k + 1
  }

  /** The owner is the column that has the task and comes after none that has it. */
  lemma OwnerIndexIs(columns: seq<Column>, taskId: string, c: nat)
    requires c < |columns| && HasTask(columns[c], taskId) && NoColumnHasTask(columns[..c], taskId)
    ensures OwnerIndex(columns, taskId) == c
  {
    var k := OwnerIndex(columns, taskId);
    assert forall j :: 0 <= j < c ==> columns[..c][j] == columns[j];
    if k >= 0 {
      assert forall j :: 0 <= j < k ==> columns[..k][j] == columns[j];
    }
  }

  /** `findColumnForTask`: the first column, in column order, that holds a
      task with that id; None (`undefined`) when no column does. */
  function FindColumnForTask(columns: seq<Column>, taskId: string): (r: Option<Column>)
    ensures r.None? <==> NoColumnHasTask(columns, taskId)
    ensures r.Some? ==> HasTask(r.value, taskId) && r.value == columns[OwnerIndex(columns, taskId)]
  {
    var k := OwnerIndex(columns, taskId);
    if k == -1 then None else Some(columns[k])
  }

  /** `findTaskById`: searches the columns in order and returns the first task
      with that id in the first column that has one. */
  method FindTaskById(columns: seq<Column>, taskId: string) returns (r: Option<Task>)
    ensures r.None? <==> NoColumnHasTask(columns, taskId)
    ensures r.Some? ==> r.value.id == taskId
    ensures r.Some? ==> var c := OwnerIndex(columns, taskId);
                        r.value == columns[c].tasks[TaskIndex(columns[c].tasks, taskId)]
  {
    var c := 0;
    while c < |columns|
      invariant 0 <= c <= |columns|
      invariant NoColumnHasTask(columns[..c], taskId)
    {
      var k := TaskIndex(columns[c].tasks, taskId);
      if k != -1 {
        assert columns[c].tasks[k].id == taskId;
        OwnerIndexIs(columns, taskId, c);
        return Some(columns[c].tasks[k]);
      }
      assert columns[..c + 1] == columns[..c] + [columns[c]];
      c := c + 1;
    }
    assert columns[..c] == columns;
    return None;
  }

  /** A resolved drop target: the column and, when over a task, that task. */
  datatype DropTarget = DropTarget(columnId: Option<string>, taskId: Option<string>)

  /** `getDropTarget`: over a column, that column and no task; over a task, the
      column that owns it (None when no column does) and the task; over
      anything else, nothing. */
  function GetDropTarget(columns: seq<Column>, overId: string): (r: DropTarget)
    ensures IsColumnDragId(overId) ==> r == DropTarget(Some(FromColumnId(overId)), None)
    ensures IsTaskDragId(overId) ==>
              && r.taskId == Some(FromTaskId(overId))
              && (r.columnId.None? <==> NoColumnHasTask(columns, FromTaskId(overId)))
              && (r.columnId.Some? ==>
                    && HasTask(columns[OwnerIndex(columns, FromTaskId(overId))], FromTaskId(overId))
                    && r.columnId.value == columns[OwnerIndex(columns, FromTaskId(overId))].id)
    ensures !IsColumnDragId(overId) && !IsTaskDragId(overId) ==> r == DropTarget(None, None)
  {
    DragIdKindsAreDisjoint(overId);
    if IsColumnDragId(overId) then
      DropTarget(Some(FromColumnId(overId)), None)
    else if IsTaskDragId(overId) then
      var taskId := FromTaskId(overId);
      var owner := FindColumnForTask(columns, taskId);
      DropTarget(if owner.Some? then Some(owner.value.id) else None, Some(taskId))
    else
      DropTarget(None, None)
  }

  /** The same-column branch of `moveTask` (array-move semantics): the task at
      `from` of column `column` ends at `to`, taking it out again gives the
      column without it, and every other column is left as it was. */
  function ReorderInColumn(columns: seq<Column>, column: nat, from: nat, to: nat): (r: seq<Column>)
    requires column < |columns| && from < |columns[column].tasks| && to < |columns[column].tasks|
    ensures |r| == |columns|
    ensures forall k :: 0 <= k < |columns| ==> r[k].id == columns[k].id && r[k].name == columns[k].name
    ensures |r[column].tasks| == |columns[column].tasks|
    ensures r[column].tasks[to] == columns[column].tasks[from]
    ensures Remove(r[column].tasks, to) == Remove(columns[column].tasks, from)
    ensures multiset(r[column].tasks) == multiset(columns[column].tasks)
    ensures forall k :: 0 <= k < |columns| && k != column ==> r[k] == columns[k]
  {
    var tasks := columns[column].tasks;
    MoveAt(tasks, from, to);
    columns[column := columns[column].(tasks := Insert(Remove(tasks, from), to, tasks[from]))]
  }

  /** The cross-column branch of `moveTask`: the task at `from` of column
      `source` is taken out of it and inserted into column `target` at `at`;
      every other column is left as it was. */
  function TransferBetweenColumns(columns: seq<Column>, source: nat, target: nat, from: nat, at: nat): (r: seq<Column>)
    requires source < |columns| && target < |columns| && source != target
    requires from < |columns[source].tasks| && at <= |columns[target].tasks|
    ensures |r| == |columns|
    ensures forall k :: 0 <= k < |columns| ==> r[k].id == columns[k].id && r[k].name == columns[k].name
    ensures r[source].tasks == Remove(columns[source].tasks, from)
    ensures r[target].tasks == Insert(columns[target].tasks, at, columns[source].tasks[from])
    ensures forall k :: 0 <= k < |columns| && k != source && k != target ==> r[k] == columns[k]
  {
    var sourceTasks := columns[source].tasks;
    var targetTasks := columns[target].tasks;
    columns[source := columns[source].(tasks := Remove(sourceTasks, from))]
           [target := columns[target].(tasks := Insert(targetTasks, at, sourceTasks[from]))]
  }

  lemma ReorderKeepsTasks(columns: seq<Column>, column: nat, from: nat, to: nat)
    requires column < |columns| && from < |columns[column].tasks| && to < |columns[column].tasks|
    ensures multiset(Flatten(ReorderInColumn(columns, column, from, to))) == multiset(Flatten(columns))
  {
    var r := ReorderInColumn(columns, column, from, to);
    var before, after := multiset(columns[column].tasks), multiset(r[column].tasks);
    assert r == columns[column := r[column]];
    FlattenUpdate(columns, column, r[column]);
    assert after == before;
    forall t ensures multiset(Flatten(r))[t] == multiset(Flatten(columns))[t] {
      assert (multiset(Flatten(r)) + before)[t] == (multiset(Flatten(columns)) + after)[t];
    }
  }

  /** Moving a task between two columns keeps the board's tasks: one leaves
      the source column and the same one arrives in the target column. */
  lemma {:induction false} TransferKeepsTasks(columns: seq<Column>, source: nat, target: nat, from: nat, at: nat)
    requires source < |columns| && target < |columns| && source != target
    requires from < |columns[source].tasks| && at <= |columns[target].tasks|
    ensures multiset(Flatten(TransferBetweenColumns(columns, source, target, from, at))) == multiset(Flatten(columns))
  {
    var r := TransferBetweenColumns(columns, source, target, from, at);
    var moved := columns[source].tasks[from];
    var removed := columns[source := r[source]];
    assert r == removed[target := r[target]];
    assert removed[target] == columns[target];
    RemoveCount(columns[source].tasks, from);
    InsertCount(columns[target].tasks, at, moved);
    ColumnTasksInFlatten(columns, source);
    FlattenUpdate(columns, source, r[source]);
    FlattenUpdate(removed, target, r[target]);
    assert moved in multiset(columns[source].tasks);
    LeaveOne(multiset(Flatten(removed)), multiset(Flatten(columns)), multiset(columns[source].tasks), multiset{moved});
    ArriveOne(multiset(Flatten(r)), multiset(Flatten(removed)), multiset(columns[target].tasks), multiset{moved});
  }

  /** Taking `m` out of a column's part `s` of a whole takes `m` out of the whole. */
  lemma LeaveOne<T>(after: multiset<T>, before: multiset<T>, s: multiset<T>, m: multiset<T>)
    requires m <= s && after + s == before + (s - m)
    ensures after + m == before
  {
    forall t ensures (after + m)[t] == before[t] {
      assert (after + s)[t] == (before + (s - m))[t];
    }
  }

  /** Adding `m` to a column's part `s` of a whole adds `m` to the whole. */
  lemma ArriveOne<T>(after: multiset<T>, before: multiset<T>, s: multiset<T>, m: multiset<T>)
    requires after + s == before + (s + m)
    ensures after == before + m
  {
    forall t ensures after[t] == (before + m)[t] {
      assert (after + s)[t] == (before + (s + m))[t];
    }
  }

  /** Where the cross-column branch of `moveTask` inserts: before the over-task,
      or at the end when there is none or it is not in the column. */
  function FindInsertIndex(targetTasks: seq<Task>, over: Option<string>): (k: nat)
    ensures k <= |targetTasks|
    ensures Truthy(over) && TaskIndex(targetTasks, over.value) != -1 ==>
              && k < |targetTasks| && targetTasks[k].id == over.value
              && forall j :: 0 <= j < k ==> targetTasks[j].id != over.value
    ensures !Truthy(over) || TaskIndex(targetTasks, over.value) == -1 ==> k == |targetTasks|
  {
    var overTaskIndex := if Truthy(over) then TaskIndex(targetTasks, over.value) else -1;
    if overTaskIndex == -1 then |targetTasks| else overTaskIndex
  }

  /** `moveTask`: the column list after dropping the dragged task `activeId`
      over `overId`. The column list itself, the column ids and the column
      names never change; only the tasks of at most two columns do. */
  function MoveTask(columns: seq<Column>, activeId: string, overId: string): (r: seq<Column>)
    ensures |r| == |columns|
    ensures forall k :: 0 <= k < |columns| ==> r[k].id == columns[k].id && r[k].name == columns[k].name
  {
    if !IsTaskDragId(activeId) then columns
    else
      var activeTaskId := FromTaskId(activeId);
      var sourceColumn := FindColumnForTask(columns, activeTaskId);
      if sourceColumn.None? then columns
      else
        var target := GetDropTarget(columns, overId);
        if !Truthy(target.columnId) then columns
        else
          var sourceIndex := ColumnIndex(columns, sourceColumn.value.id);
          var targetIndex := ColumnIndex(columns, target.columnId.value);
          if sourceIndex == -1 || targetIndex == -1 then columns
          else if sourceIndex == targetIndex then
            if !Truthy(target.taskId) then columns
            else
              var tasks := columns[sourceIndex].tasks;
              var activeTaskIndex := TaskIndex(tasks, activeTaskId);
              var overTaskIndex := TaskIndex(tasks, target.taskId.value);
              if activeTaskIndex == -1 || overTaskIndex == -1 then columns
              else ReorderInColumn(columns, sourceIndex, activeTaskIndex, overTaskIndex)
          else
            var activeTaskIndex := TaskIndex(columns[sourceIndex].tasks, activeTaskId);
            if activeTaskIndex == -1 then columns
            else
              var insertIndex := FindInsertIndex(columns[targetIndex].tasks, target.taskId);
              TransferBetweenColumns(columns, sourceIndex, targetIndex, activeTaskIndex, insertIndex)
  }

  /** The five cases in which `moveTask` hands back its input: the dragged id
      is not a task id, no column holds the task, the drop target has no
      column, that column is not in the list, or the task is dropped on the
      empty area of its own column. */
  lemma MoveTaskNoOps(columns: seq<Column>, activeId: string, overId: string)
    ensures !IsTaskDragId(activeId) ==> MoveTask(columns, activeId, overId) == columns
    ensures NoColumnHasTask(columns, FromTaskId(activeId)) ==> MoveTask(columns, activeId, overId) == columns
    ensures !Truthy(GetDropTarget(columns, overId).columnId) ==> MoveTask(columns, activeId, overId) == columns
    ensures Truthy(GetDropTarget(columns, overId).columnId)
            && ColumnIndex(columns, GetDropTarget(columns, overId).columnId.value) == -1
            ==> MoveTask(columns, activeId, overId) == columns
    ensures IsColumnDragId(overId) && !NoColumnHasTask(columns, FromTaskId(activeId))
            && FromColumnId(overId) == FindColumnForTask(columns, FromTaskId(activeId)).value.id
            ==> MoveTask(columns, activeId, overId) == columns
  {
  }

  /** Dropping a task on itself changes nothing. */
  lemma MoveTaskOntoItself(columns: seq<Column>, activeId: string)
    ensures MoveTask(columns, activeId, activeId) == columns
  {
    if IsTaskDragId(activeId) && !NoColumnHasTask(columns, FromTaskId(activeId)) {
      var target := GetDropTarget(columns, activeId);
      if Truthy(target.columnId) {
        var sourceIndex := ColumnIndex(columns, FindColumnForTask(columns, FromTaskId(activeId)).value.id);
        if sourceIndex != -1 {
          var tasks := columns[sourceIndex].tasks;
          var a := TaskIndex(tasks, FromTaskId(activeId));
          if a != -1 {
            MoveAt(tasks, a, a);
            assert columns[sourceIndex := columns[sourceIndex].(tasks := tasks)] == columns;
          }
        }
      }
    }
  }

  /** A same-column drop onto a task found in that column reorders it: the
      dragged task takes the over-task's original index. */
  lemma MoveTaskWithinColumn(columns: seq<Column>, activeId: string, overId: string, column: nat, from: nat, to: nat)
    requires IsTaskDragId(activeId) && !NoColumnHasTask(columns, FromTaskId(activeId))
    requires Truthy(GetDropTarget(columns, overId).columnId) && Truthy(GetDropTarget(columns, overId).taskId)
    requires column < |columns|
    requires ColumnIndex(columns, FindColumnForTask(columns, FromTaskId(activeId)).value.id) == column
    requires ColumnIndex(columns, GetDropTarget(columns, overId).columnId.value) == column
    requires TaskIndex(columns[column].tasks, FromTaskId(activeId)) == from
    requires TaskIndex(columns[column].tasks, GetDropTarget(columns, overId).taskId.value) == to
    ensures MoveTask(columns, activeId, overId) == ReorderInColumn(columns, column, from, to)
  {
  }

  /** A cross-column drop moves the task into the target column before the
      over-task, or at the end when there is no over-task or it is not there. */
  lemma MoveTaskAcrossColumns(columns: seq<Column>, activeId: string, overId: string, source: nat, target: nat, from: nat)
    requires IsTaskDragId(activeId) && !NoColumnHasTask(columns, FromTaskId(activeId))
    requires Truthy(GetDropTarget(columns, overId).columnId)
    requires source < |columns| && target < |columns| && source != target
    requires ColumnIndex(columns, FindColumnForTask(columns, FromTaskId(activeId)).value.id) == source
    requires ColumnIndex(columns, GetDropTarget(columns, overId).columnId.value) == target
    requires TaskIndex(columns[source].tasks, FromTaskId(activeId)) == from
    ensures MoveTask(columns, activeId, overId)
            == TransferBetweenColumns(columns, source, target, from,
                                      FindInsertIndex(columns[target].tasks, GetDropTarget(columns, overId).taskId))
  {
  }

  /** `moveTask` never loses or duplicates a task: the tasks on the board are
      the same multiset before and after, whatever the ids. */
  lemma MoveTaskPreservesTasks(columns: seq<Column>, activeId: string, overId: string)
    ensures multiset(Flatten(MoveTask(columns, activeId, overId))) == multiset(Flatten(columns))
  {
    var r := MoveTask(columns, activeId, overId);
    if r != columns {
      var activeTaskId := FromTaskId(activeId);
      var sourceColumn := FindColumnForTask(columns, activeTaskId).value;
      var target := GetDropTarget(columns, overId);
      var source := ColumnIndex(columns, sourceColumn.id);
      var dest := ColumnIndex(columns, target.columnId.value);
      if source == dest {
        var tasks := columns[source].tasks;
        ReorderKeepsTasks(columns, source, TaskIndex(tasks, activeTaskId), TaskIndex(tasks, target.taskId.value));
      } else {
        TransferKeepsTasks(columns, source, dest, TaskIndex(columns[source].tasks, activeTaskId),
                           FindInsertIndex(columns[dest].tasks, target.taskId));
      }
    }
  }

  /** Hence the multiset of task ids is preserved, a board whose task ids are
      all different keeps them all different (no task ends up in two
      columns), and the task count does not change. */
  lemma MoveTaskPreservesIds(columns: seq<Column>, activeId: string, overId: string)
    ensures var r := MoveTask(columns, activeId, overId);
            && multiset(TaskIds(Flatten(r))) == multiset(TaskIds(Flatten(columns)))
            && (Distinct(TaskIds(Flatten(columns))) ==> Distinct(TaskIds(Flatten(r))))
            && SumTaskCounts(r) == SumTaskCounts(columns)
  {
    var r := MoveTask(columns, activeId, overId);
    MoveTaskPreservesTasks(columns, activeId, overId);
    SameTasksSameIds(Flatten(r), Flatten(columns));
    DistinctCounts(TaskIds(Flatten(columns)));
    DistinctCounts(TaskIds(Flatten(r)));
    CountIsNumberOfTasks(r);
    CountIsNumberOfTasks(columns);
    assert |Flatten(r)| == |multiset(Flatten(r))| == |multiset(Flatten(columns))| == |Flatten(columns)|;
  }
}
