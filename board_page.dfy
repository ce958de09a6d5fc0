/** The board page's own logic: where a column draws the drop placeholder,
    the order of a column's rendered items, the optimistic move with its
    rollback, and the local effects of deleting a task. */
module BoardPage {
  import opened Wrappers
  import opened Seqs
  import opened TaskBoard
  import opened Dnd
  import TaskActions

  /** `id && isTaskDragId(id) ? fromTaskId(id) : null`. */
  function DecodeTaskDragId(id: Option<string>): (r: Option<string>)
    ensures r.Some? <==> id.Some? && IsTaskDragId(id.value)
    ensures r.Some? ==> TaskPrefix + r.value == id.value
  {
    if Truthy(id) && IsTaskDragId(id.value) then Some(FromTaskId(id.value)) else None
  }

  datatype PlaceholderState = PlaceholderState(showPlaceholder: bool, placeholderIndex: int)

  /** `getPlaceholderState`: the placeholder shows only while a task is dragged
      and the pointer is over this column or over one of its tasks; it sits at
      the over-task's position, or at the end when the pointer is over the
      column itself. */
  function GetPlaceholderState(column: Column, activeId: Option<string>, overId: Option<string>): (r: PlaceholderState)
    ensures var overTaskId := DecodeTaskDragId(overId);
            r.showPlaceholder <==>
              && Truthy(DecodeTaskDragId(activeId))
              && (overId == Some(ToColumnId(column.id)) || (Truthy(overTaskId) && HasTask(column, overTaskId.value)))
    ensures overId == Some(ToColumnId(column.id)) ==> r.placeholderIndex == |column.tasks|
    ensures var overTaskId := DecodeTaskDragId(overId);
            Truthy(overTaskId) && HasTask(column, overTaskId.value) ==>
              && 0 <= r.placeholderIndex < |column.tasks|
              && column.tasks[r.placeholderIndex].id == overTaskId.value
              && forall j :: 0 <= j < r.placeholderIndex ==> column.tasks[j].id != overTaskId.value
    ensures r.showPlaceholder ==> 0 <= r.placeholderIndex <= |column.tasks|
  {
    var activeTaskId := DecodeTaskDragId(activeId);
    var overTaskId := DecodeTaskDragId(overId);
    var isOverColumn := overId == Some(ToColumnId(column.id));
    var isOverTaskInColumn := if Truthy(overTaskId) then HasTask(column, overTaskId.value) else false;
    var placeholderIndex := if Truthy(overTaskId) then TaskIndex(column.tasks, overTaskId.value) else |column.tasks|;
    PlaceholderState(Truthy(activeTaskId) && (isOverColumn || isOverTaskInColumn), placeholderIndex)
  }

  /** One entry of a column's rendered list: a task card or the drop placeholder. */
  datatype ColumnItem = Card(task: Task) | Placeholder

  /** The tasks of the cards among `items`, in order. */
  function CardTasks(items: seq<ColumnItem>): seq<Task> {
    if items == [] then []
    else
      var last := items[|items| - 1];
      CardTasks(items[..|items| - 1]) + (if last.Card? then [last.task] else [])
  }

  function PlaceholderCount(items: seq<ColumnItem>): nat {
    if items == [] then 0
    else PlaceholderCount(items[..|items| - 1]) + (if items[|items| - 1].Placeholder? then 1 else 0)
  }

  lemma AppendItem(items: seq<ColumnItem>, item: ColumnItem)
    ensures CardTasks(items + [item]) == CardTasks(items) + (if item.Card? then [item.task] else [])
    ensures PlaceholderCount(items + [item]) == PlaceholderCount(items) + (if item.Placeholder? then 1 else 0)
  {
    assert (items + [item])[..|items|] == items;
  }

  /** The placeholder is drawn: it is shown and its index is a position of the column. */
  predicate Drawn(column: Column, placeholder: PlaceholderState) {
    placeholder.showPlaceholder && 0 <= placeholder.placeholderIndex <= |column.tasks|
  }

  /** One step of the item loop: the placeholder when it goes in front of
      task `index`, then that task's card. */
  lemma ItemsStep(tasks: seq<Task>, items: seq<ColumnItem>, next: seq<ColumnItem>, show: bool, at: int, index: nat)
    requires index < |tasks|
    requires next == (if show && index == at then items + [Placeholder] else items) + [Card(tasks[index])]
    requires CardTasks(items) == tasks[..index]
    requires PlaceholderCount(items) == if show && 0 <= at < index then 1 else 0
    requires |items| == index + PlaceholderCount(items)
    requires show && 0 <= at < index ==> items[at] == Placeholder
    ensures CardTasks(next) == tasks[..index + 1]
    ensures PlaceholderCount(next) == if show && 0 <= at < index + 1 then 1 else 0
    ensures |next| == index + 1 + PlaceholderCount(next)
    ensures show && 0 <= at < index + 1 ==> next[at] == Placeholder
  {
    var mid := if show && index == at then items + [Placeholder] else items;
    if show && index == at {
      AppendItem(items, Placeholder);
    }
    AppendItem(mid, Card(tasks[index]));
    assert tasks[..index + 1] == tasks[..index] + [tasks[index]];
  }

  /** `buildColumnItems`, item order only: every task of the column in order,
      and one placeholder at `placeholderIndex` when it is shown there; an
      empty column without a placeholder renders nothing. */
  method BuildColumnItems(column: Column, placeholder: PlaceholderState) returns (items: seq<ColumnItem>)
    ensures CardTasks(items) == column.tasks
    ensures PlaceholderCount(items) == if Drawn(column, placeholder) then 1 else 0
    ensures |items| == |column.tasks| + PlaceholderCount(items)
    ensures Drawn(column, placeholder) ==> items[placeholder.placeholderIndex] == Placeholder
    ensures |column.tasks| == 0 && !placeholder.showPlaceholder ==> items == []
  {
    if |column.tasks| == 0 && !placeholder.showPlaceholder {
      return [];
    }
    var show, at := placeholder.showPlaceholder, placeholder.placeholderIndex;
    items := [];
    var index := 0;
    while index < |column.tasks|
      invariant 0 <= index <= |column.tasks|
      invariant CardTasks(items) == column.tasks[..index]
      invariant PlaceholderCount(items) == if show && 0 <= at < index then 1 else 0
      invariant |items| == index + PlaceholderCount(items)
      invariant show && 0 <= at < index ==> items[at] == Placeholder
    {
      var next := items;
      if show && index == at {
        next := next + [Placeholder];
      }
      next := next + [Card(column.tasks[index])];
      ItemsStep(column.tasks, items, next, show, at, index);
      items := next;
      index := index + 1;
    }
    assert column.tasks[..index] == column.tasks;
    if show && at == |column.tasks| {
      AppendItem(items, Placeholder);
      items := items + [Placeholder];
    }
  }

  /** `tasks.filter((task) => task.id !== taskId)`. */
  function WithoutTask(tasks: seq<Task>, taskId: string): (r: seq<Task>)
    ensures forall k :: 0 <= k < |r| ==> r[k].id != taskId
    ensures IsSubsequence(r, tasks)
  {
    if tasks == [] then []
    else
      var last := tasks[|tasks| - 1];
      var kept := WithoutTask(tasks[..|tasks| - 1], taskId);
      assert tasks == tasks[..|tasks| - 1] + [last];
      if last.id == taskId then
        SubsequenceExtend(kept, tasks[..|tasks| - 1], last);
        kept
      else
        SubsequenceExtendBoth(kept, tasks[..|tasks| - 1], last);
        kept + [last]
  }

  /** `removeTaskFromColumns`: every column stays, in place and with its id and
      name, and loses the tasks with that id. */
  function RemoveTaskFromColumns(columns: seq<Column>, taskId: string): (r: seq<Column>)
    ensures |r| == |columns|
    ensures forall k :: 0 <= k < |columns| ==>
              r[k].id == columns[k].id && r[k].name == columns[k].name
              && r[k].tasks == WithoutTask(columns[k].tasks, taskId)
    ensures NoColumnHasTask(r, taskId)
  {
    seq(|columns|, k requires 0 <= k < |columns| => columns[k].(tasks := WithoutTask(columns[k].tasks, taskId)))
  }

  lemma {:induction false} WithoutAbsentTask(tasks: seq<Task>, taskId: string)
    requires forall k :: 0 <= k < |tasks| ==> tasks[k].id != taskId
    ensures WithoutTask(tasks, taskId) == tasks
  {
    if tasks != [] {
      var n := |tasks| - 1;
      WithoutTaskSnoc(tasks, taskId);
      WithoutAbsentTask(tasks[..n], taskId);
      assert tasks == tasks[..n] + [tasks[n]];
    }
  }

  /** Exactly the tasks with other ids are kept. */
  lemma {:induction false} WithoutTaskMembers(tasks: seq<Task>, taskId: string)
    ensures forall t :: t in WithoutTask(tasks, taskId) <==> t in tasks && t.id != taskId
  {
    if tasks != [] {
      var n := |tasks| - 1;
      WithoutTaskSnoc(tasks, taskId);
      WithoutTaskMembers(tasks[..n], taskId);
      assert tasks == tasks[..n] + [tasks[n]];
    }
  }

  lemma WithoutTaskSnoc(tasks: seq<Task>, taskId: string)
    requires tasks != []
    ensures var n := |tasks| - 1;
            WithoutTask(tasks, taskId)
            == if tasks[n].id == taskId then WithoutTask(tasks[..n], taskId) else WithoutTask(tasks[..n], taskId) + [tasks[n]]
  {
  }

  /** Removing a task no column holds changes nothing. */
  lemma RemoveAbsentTask(columns: seq<Column>, taskId: string)
    requires NoColumnHasTask(columns, taskId)
    ensures RemoveTaskFromColumns(columns, taskId) == columns
  {
    var r := RemoveTaskFromColumns(columns, taskId);
    forall k | 0 <= k < |columns| ensures r[k] == columns[k] {
      WithoutAbsentTask(columns[k].tasks, taskId);
    }
  }

  /** Removing the same task twice is removing it once. */
  lemma RemoveTaskIdempotent(columns: seq<Column>, taskId: string)
    ensures RemoveTaskFromColumns(RemoveTaskFromColumns(columns, taskId), taskId)
            == RemoveTaskFromColumns(columns, taskId)
  {
    RemoveAbsentTask(RemoveTaskFromColumns(columns, taskId), taskId);
  }

  lemma {:induction false} WithoutTaskIds(tasks: seq<Task>, taskId: string)
    ensures TaskIds(WithoutTask(tasks, taskId)) == RemoveAll(TaskIds(tasks), taskId)
  {
    if tasks != [] {
      var n := |tasks| - 1;
      var init := tasks[..n];
      var kept := WithoutTask(init, taskId);
      WithoutTaskIds(init, taskId);
      assert TaskIds(tasks) == TaskIds(init) + [tasks[n].id];
      RemoveAllAppend(TaskIds(init), tasks[n].id, taskId);
      if tasks[n].id == taskId {
        assert WithoutTask(tasks, taskId) == kept;
      } else {
        assert WithoutTask(tasks, taskId) == kept + [tasks[n]];
        assert TaskIds(kept + [tasks[n]]) == TaskIds(kept) + [tasks[n].id];
      }
    }
  }

  /** Leaving ids out of a rank-ordered list keeps it rank-ordered. */
  lemma {:induction false} RemoveAllKeepsRankOrder(rows: TaskActions.Rows, ids: seq<string>, x: string)
    requires forall i :: 0 <= i < |ids| ==> ids[i] in rows
    requires forall i, j :: 0 <= i < j < |ids| ==> rows[ids[i]].order < rows[ids[j]].order
    ensures forall i :: 0 <= i < |RemoveAll(ids, x)| ==> RemoveAll(ids, x)[i] in ids
    ensures forall i, j :: 0 <= i < j < |RemoveAll(ids, x)| ==>
              RemoveAll(ids, x)[i] in rows && RemoveAll(ids, x)[j] in rows
              && rows[RemoveAll(ids, x)[i]].order < rows[RemoveAll(ids, x)[j]].order
  {
    if ids != [] {
      var tail := ids[1..];
      var rest := RemoveAll(tail, x);
      RemoveAllKeepsRankOrder(rows, tail, x);
      assert forall i :: 0 <= i < |rest| ==> rest[i] in tail;
      forall i | 0 <= i < |rest| ensures rows[ids[0]].order < rows[rest[i]].order {
        var k :| 0 <= k < |tail| && tail[k] == rest[i];
        assert ids[k + 1] == rest[i];
      }
    }
  }

  /** After a delete the server has accepted, each column the page shows still
      lists the column's remaining tasks in the server's rank order. */
  lemma LocalDeleteMatchesServer(rows: TaskActions.Rows, columnId: string, tasks: seq<Task>, taskId: string)
    requires TaskActions.OrderedView(rows, columnId, TaskIds(tasks))
    ensures TaskActions.OrderedView(rows - {taskId}, columnId, TaskIds(WithoutTask(tasks, taskId)))
  {
    var ids := TaskIds(tasks);
    var kept := RemoveAll(ids, taskId);
    WithoutTaskIds(tasks, taskId);
    RemoveAllDistinctKept(ids, taskId);
    RemoveAllKeepsRankOrder(rows, ids, taskId);
    var after := rows - {taskId};
    forall id | id in after && after[id].columnId == columnId ensures id in kept {
      assert id in ids;
    }
  }

  /** What `handleDragEnd` sends to `moveTaskAction`. */
  datatype MoveRequest = MoveRequest(taskId: string, toColumnId: string, toIndex: nat)

  /** A move sent to the server, with the columns as they were before the
      optimistic update (`prevColumns`). */
  datatype PendingMove = PendingMove(request: MoveRequest, previous: seq<Column>)

  /** The request `handleDragEnd` makes for a drop: none without an `over`,
      for a dragged id that is not a task id, or when the target column is not
      found; otherwise the task, the target column, and the over-task's index
      in the target column before the move, or the column's length when the
      drop is on the column or the over-task is not in it. */
  function DropRequest(columns: seq<Column>, activeId: string, overId: Option<string>): (r: Option<MoveRequest>)
    ensures overId.None? || !IsTaskDragId(activeId) ==> r.None?
    ensures overId.Some? && IsTaskDragId(activeId) ==>
              var target := GetDropTarget(columns, overId.value);
              (r.None? <==> !Truthy(target.columnId) || ColumnIndex(columns, target.columnId.value) == -1)
    ensures r.Some? ==>
              && overId.Some?
              && var target := GetDropTarget(columns, overId.value);
                 var c := ColumnIndex(columns, target.columnId.value);
                 && 0 <= c < |columns|
                 && r.value.taskId == FromTaskId(activeId)
                 && r.value.toColumnId == columns[c].id == target.columnId.value
                 && r.value.toIndex <= |columns[c].tasks|
                 && (Truthy(target.taskId) && HasTask(columns[c], target.taskId.value) ==>
                       && r.value.toIndex < |columns[c].tasks|
                       && columns[c].tasks[r.value.toIndex].id == target.taskId.value
                       && forall j :: 0 <= j < r.value.toIndex ==> columns[c].tasks[j].id != target.taskId.value)
                 && (!Truthy(target.taskId) || !HasTask(columns[c], target.taskId.value) ==>
                       r.value.toIndex == |columns[c].tasks|)
  {
    if overId.None? || !IsTaskDragId(activeId) then None
    else
      var target := GetDropTarget(columns, overId.value);
      if !Truthy(target.columnId) then None
      else
        var c := ColumnIndex(columns, target.columnId.value);
        if c == -1 then None
        else
          var targetColumn := columns[c];
          var targetIndex :=
            if Truthy(target.taskId) then TaskIndex(targetColumn.tasks, target.taskId.value)
            else |targetColumn.tasks|;
          var toIndex := if targetIndex == -1 then |targetColumn.tasks| else targetIndex;
          Some(MoveRequest(FromTaskId(activeId), targetColumn.id, toIndex))
  }

  /** The index a request carries is the insertion index `moveTask` uses for
      a drop into another column. */
  lemma RequestIndexIsInsertIndex(columns: seq<Column>, activeId: string, overId: string)
    requires DropRequest(columns, activeId, Some(overId)).Some?
    ensures var target := GetDropTarget(columns, overId);
            DropRequest(columns, activeId, Some(overId)).value.toIndex
            == FindInsertIndex(columns[ColumnIndex(columns, target.columnId.value)].tasks, target.taskId)
  {
  }

  /** A placeholder shown over a column sits where the request puts the task:
      at the end of that column. */
  lemma PlaceholderOverColumnAtRequestedIndex(columns: seq<Column>, activeId: string, c: nat)
    requires c < |columns| && columns[c].id != "" && ColumnIndex(columns, columns[c].id) == c
    requires GetPlaceholderState(columns[c], Some(activeId), Some(ToColumnId(columns[c].id))).showPlaceholder
    ensures DropRequest(columns, activeId, Some(ToColumnId(columns[c].id)))
            == Some(MoveRequest(FromTaskId(activeId), columns[c].id, |columns[c].tasks|))
  {
    var overId := ToColumnId(columns[c].id);
    assert GetDropTarget(columns, overId) == DropTarget(Some(columns[c].id), None);
  }

  /** A placeholder shown over a task sits where the request puts the task:
      at the over-task's index, provided no earlier column holds that task. */
  lemma PlaceholderOverTaskAtRequestedIndex(columns: seq<Column>, activeId: string, overTaskId: string, c: nat)
    requires c < |columns| && columns[c].id != "" && ColumnIndex(columns, columns[c].id) == c
    requires NoColumnHasTask(columns[..c], overTaskId)
    requires GetPlaceholderState(columns[c], Some(activeId), Some(ToTaskId(overTaskId))).showPlaceholder
    ensures DropRequest(columns, activeId, Some(ToTaskId(overTaskId)))
            == Some(MoveRequest(FromTaskId(activeId), columns[c].id,
                                GetPlaceholderState(columns[c], Some(activeId), Some(ToTaskId(overTaskId))).placeholderIndex))
  {
    var overId := ToTaskId(overTaskId);
    PlaceholderOverTask(columns[c], activeId, overTaskId);
    OverTaskTarget(columns, overTaskId, c);
    ReorderRequest(columns, activeId, overId, c, TaskIndex(columns[c].tasks, overTaskId));
  }

  /** A placeholder shown over a task means a task is dragged and the column
      holds the over-task; the placeholder sits at its index. */
  lemma PlaceholderOverTask(column: Column, activeId: string, overTaskId: string)
    requires GetPlaceholderState(column, Some(activeId), Some(ToTaskId(overTaskId))).showPlaceholder
    ensures IsTaskDragId(activeId) && HasTask(column, overTaskId) && overTaskId != ""
    ensures GetPlaceholderState(column, Some(activeId), Some(ToTaskId(overTaskId))).placeholderIndex
            == TaskIndex(column.tasks, overTaskId)
  {
    var overId := ToTaskId(overTaskId);
    assert DecodeTaskDragId(Some(overId)) == Some(overTaskId);
    assert overId != ToColumnId(column.id);
  }

  /** Over a task, the drop target is the first column holding it. */
  lemma OverTaskTarget(columns: seq<Column>, overTaskId: string, c: nat)
    requires c < |columns| && HasTask(columns[c], overTaskId) && NoColumnHasTask(columns[..c], overTaskId)
    ensures GetDropTarget(columns, ToTaskId(overTaskId)) == DropTarget(Some(columns[c].id), Some(overTaskId))
  {
    OwnerIndexIs(columns, overTaskId, c);
  }

  /** The request for a drop over a task of the dragged task's own column. */
  lemma ReorderRequest(columns: seq<Column>, activeId: string, overId: string, column: nat, to: nat)
    requires IsTaskDragId(activeId)
    requires Truthy(GetDropTarget(columns, overId).columnId) && Truthy(GetDropTarget(columns, overId).taskId)
    requires column < |columns|
    requires ColumnIndex(columns, GetDropTarget(columns, overId).columnId.value) == column
    requires TaskIndex(columns[column].tasks, GetDropTarget(columns, overId).taskId.value) == to
    ensures DropRequest(columns, activeId, Some(overId))
            == Some(MoveRequest(FromTaskId(activeId), columns[column].id, to))
  {
  }

  /** The ids of the column after a same-column drop, as the server computes them. */
  lemma ReorderIds(columns: seq<Column>, activeId: string, overId: string, column: nat, from: nat, to: nat)
    requires IsTaskDragId(activeId) && !NoColumnHasTask(columns, FromTaskId(activeId))
    requires Truthy(GetDropTarget(columns, overId).columnId) && Truthy(GetDropTarget(columns, overId).taskId)
    requires column < |columns|
    requires ColumnIndex(columns, FindColumnForTask(columns, FromTaskId(activeId)).value.id) == column
    requires ColumnIndex(columns, GetDropTarget(columns, overId).columnId.value) == column
    requires TaskIndex(columns[column].tasks, FromTaskId(activeId)) == from
    requires TaskIndex(columns[column].tasks, GetDropTarget(columns, overId).taskId.value) == to
    requires Distinct(TaskIds(columns[column].tasks))
    ensures var ids := TaskIds(columns[column].tasks);
            TaskIds(MoveTask(columns, activeId, overId)[column].tasks)
            == TaskActions.SpliceIn(RemoveAll(ids, FromTaskId(activeId)), FromTaskId(activeId), to)
  {
    var tasks := columns[column].tasks;
    var ids := TaskIds(tasks);
    var taskId := FromTaskId(activeId);
    MoveTaskWithinColumn(columns, activeId, overId, column, from, to);
    var moved := ReorderInColumn(columns, column, from, to)[column].tasks;
    assert moved == Insert(Remove(tasks, from), to, tasks[from]);
    TaskIdsOfRemove(tasks, from);
    TaskIdsOfInsert(Remove(tasks, from), to, tasks[from]);
    RemoveAllDistinct(ids, from);
    assert TaskActions.Clamp(to, |RemoveAll(ids, taskId)|) == to;
  }

  /** Over a task of the dragged task's own column, the order the page shows
      after the drop is the order the server writes for the request the page
      sends, given that both started from the same order. */
  lemma OptimisticReorderMatchesServer(columns: seq<Column>, activeId: string, overId: string,
                                       column: nat, from: nat, to: nat,
                                       before: TaskActions.Rows, after: TaskActions.Rows)
    requires IsTaskDragId(activeId) && !NoColumnHasTask(columns, FromTaskId(activeId))
    requires Truthy(GetDropTarget(columns, overId).columnId) && Truthy(GetDropTarget(columns, overId).taskId)
    requires column < |columns|
    requires ColumnIndex(columns, FindColumnForTask(columns, FromTaskId(activeId)).value.id) == column
    requires ColumnIndex(columns, GetDropTarget(columns, overId).columnId.value) == column
    requires TaskIndex(columns[column].tasks, FromTaskId(activeId)) == from
    requires TaskIndex(columns[column].tasks, GetDropTarget(columns, overId).taskId.value) == to
    requires Distinct(TaskIds(columns[column].tasks))
    requires TaskActions.MovedWithinColumn(before, after, FromTaskId(activeId), columns[column].id,
                                           TaskIds(columns[column].tasks), to)
    ensures DropRequest(columns, activeId, Some(overId))
            == Some(MoveRequest(FromTaskId(activeId), columns[column].id, to))
    ensures TaskActions.DenseView(after, columns[column].id, TaskIds(MoveTask(columns, activeId, overId)[column].tasks))
  {
    ReorderRequest(columns, activeId, overId, column, to);
    ReorderIds(columns, activeId, overId, column, from, to);
  }

  /** The ids of both columns after a drop into another column, as the server
      computes them. */
  lemma TransferIds(columns: seq<Column>, activeId: string, overId: string, source: nat, target: nat, from: nat)
    requires IsTaskDragId(activeId) && !NoColumnHasTask(columns, FromTaskId(activeId))
    requires Truthy(GetDropTarget(columns, overId).columnId)
    requires source < |columns| && target < |columns| && source != target
    requires ColumnIndex(columns, FindColumnForTask(columns, FromTaskId(activeId)).value.id) == source
    requires ColumnIndex(columns, GetDropTarget(columns, overId).columnId.value) == target
    requires TaskIndex(columns[source].tasks, FromTaskId(activeId)) == from
    requires Distinct(TaskIds(columns[source].tasks))
    ensures var r := MoveTask(columns, activeId, overId);
            var at := FindInsertIndex(columns[target].tasks, GetDropTarget(columns, overId).taskId);
            && TaskIds(r[source].tasks) == RemoveAll(TaskIds(columns[source].tasks), FromTaskId(activeId))
            && TaskIds(r[target].tasks) == TaskActions.SpliceIn(TaskIds(columns[target].tasks), FromTaskId(activeId), at)
  {
    var sourceTasks, targetTasks := columns[source].tasks, columns[target].tasks;
    var at := FindInsertIndex(targetTasks, GetDropTarget(columns, overId).taskId);
    MoveTaskAcrossColumns(columns, activeId, overId, source, target, from);
    TaskIdsOfRemove(sourceTasks, from);
    TaskIdsOfInsert(targetTasks, at, sourceTasks[from]);
    RemoveAllDistinct(TaskIds(sourceTasks), from);
    assert TaskActions.Clamp(at, |TaskIds(targetTasks)|) == at;
  }

  /** For a drop into another column, the two columns the page shows after the
      drop are the orders the server writes for the request the page sends,
      given that both started from the same orders. */
  lemma OptimisticTransferMatchesServer(columns: seq<Column>, activeId: string, overId: string,
                                        source: nat, target: nat, from: nat,
                                        before: TaskActions.Rows, after: TaskActions.Rows)
    requires IsTaskDragId(activeId) && !NoColumnHasTask(columns, FromTaskId(activeId))
    requires Truthy(GetDropTarget(columns, overId).columnId)
    requires source < |columns| && target < |columns| && source != target
    requires ColumnIndex(columns, FindColumnForTask(columns, FromTaskId(activeId)).value.id) == source
    requires ColumnIndex(columns, GetDropTarget(columns, overId).columnId.value) == target
    requires TaskIndex(columns[source].tasks, FromTaskId(activeId)) == from
    requires Distinct(TaskIds(columns[source].tasks))
    requires TaskActions.MovedAcrossColumns(before, after, FromTaskId(activeId), columns[source].id, columns[target].id,
                                            TaskIds(columns[source].tasks), TaskIds(columns[target].tasks),
                                            FindInsertIndex(columns[target].tasks, GetDropTarget(columns, overId).taskId))
    ensures DropRequest(columns, activeId, Some(overId))
            == Some(MoveRequest(FromTaskId(activeId), columns[target].id,
                                FindInsertIndex(columns[target].tasks, GetDropTarget(columns, overId).taskId)))
    ensures var r := MoveTask(columns, activeId, overId);
            && TaskActions.DenseView(after, columns[source].id, TaskIds(r[source].tasks))
            && TaskActions.DenseView(after, columns[target].id, TaskIds(r[target].tasks))
  {
    RequestIndexIsInsertIndex(columns, activeId, overId);
    TransferIds(columns, activeId, overId, source, target, from);
  }

  /** A drop on the empty area of the dragged task's own column: the page's
      columns stay as they were, and the request carries the column's length. */
  lemma OwnColumnDrop(columns: seq<Column>, activeId: string, column: nat)
    requires IsTaskDragId(activeId)
    requires column < |columns| && columns[column].id != ""
    requires OwnerIndex(columns, FromTaskId(activeId)) == column
    requires ColumnIndex(columns, columns[column].id) == column
    ensures MoveTask(columns, activeId, ToColumnId(columns[column].id)) == columns
    ensures DropRequest(columns, activeId, Some(ToColumnId(columns[column].id)))
            == Some(MoveRequest(FromTaskId(activeId), columns[column].id, |columns[column].tasks|))
  {
    var overId := ToColumnId(columns[column].id);
    assert GetDropTarget(columns, overId) == DropTarget(Some(columns[column].id), None);
    MoveTaskNoOps(columns, activeId, overId);
  }

  /** Splicing a task back in at the end of its column's other ids puts it last:
      unless it was already last, the order changes. */
  lemma SpliceAtEnd(ids: seq<string>, from: nat)
    requires from < |ids| && Distinct(ids)
    ensures TaskActions.SpliceIn(RemoveAll(ids, ids[from]), ids[from], |ids|) == Remove(ids, from) + [ids[from]]
    ensures from + 1 < |ids| ==> Remove(ids, from) + [ids[from]] != ids
  {
    var rest := Remove(ids, from);
    RemoveAllDistinct(ids, from);
    MoveToEnd(ids, from);
    assert TaskActions.Clamp(|ids|, |rest|) == |rest|;
  }

  /** Dropping a task on the empty area of its own column leaves the page's
      columns as they were, yet the request carries the column's length, so
      the server moves the task to the end of the column: unless the task was
      already last, the page and the server then disagree on the order. */
  lemma OwnColumnDropMovesToEndOnServer(columns: seq<Column>, activeId: string, column: nat, from: nat,
                                        before: TaskActions.Rows, after: TaskActions.Rows)
    requires IsTaskDragId(activeId)
    requires column < |columns| && columns[column].id != ""
    requires OwnerIndex(columns, FromTaskId(activeId)) == column
    requires ColumnIndex(columns, columns[column].id) == column
    requires TaskIndex(columns[column].tasks, FromTaskId(activeId)) == from
    requires Distinct(TaskIds(columns[column].tasks))
    requires TaskActions.MovedWithinColumn(before, after, FromTaskId(activeId), columns[column].id,
                                           TaskIds(columns[column].tasks), |columns[column].tasks|)
    ensures MoveTask(columns, activeId, ToColumnId(columns[column].id)) == columns
    ensures DropRequest(columns, activeId, Some(ToColumnId(columns[column].id)))
            == Some(MoveRequest(FromTaskId(activeId), columns[column].id, |columns[column].tasks|))
    ensures var ids := TaskIds(columns[column].tasks);
            && TaskActions.DenseView(after, columns[column].id, Remove(ids, from) + [FromTaskId(activeId)])
            && (from + 1 < |ids| ==> Remove(ids, from) + [FromTaskId(activeId)] != ids)
  {
    OwnColumnDrop(columns, activeId, column);
    SpliceAtEnd(TaskIds(columns[column].tasks), from);
  }

  /** The page's drag-and-drop and selection state. */
  class BoardPage {
    var columns: seq<Column>
    var activeTaskId: Option<string>
    var selectedTaskId: Option<string>
    var editingTaskId: Option<string>

    /** `useState(board.columns)`; nothing dragged, selected or edited. */
    constructor (boardColumns: seq<Column>)
      ensures columns == boardColumns
      ensures activeTaskId.None? && selectedTaskId.None? && editingTaskId.None?
    {
      columns := boardColumns;
      activeTaskId := None;
      selectedTaskId := None;
      editingTaskId := None;
    }

    /** `handleTaskOpen`. */
    method HandleTaskOpen(task: Task)
      modifies this
      ensures selectedTaskId == Some(task.id)
      ensures columns == old(columns) && activeTaskId == old(activeTaskId) && editingTaskId == old(editingTaskId)
    {
      selectedTaskId := Some(task.id);
    }

    /** `handleTaskEdit`. */
    method HandleTaskEdit(task: Task)
      modifies this
      ensures editingTaskId == Some(task.id)
      ensures columns == old(columns) && activeTaskId == old(activeTaskId) && selectedTaskId == old(selectedTaskId)
    {
      editingTaskId := Some(task.id);
    }

    /** `handleDragStart`: only a task id starts a task drag. */
    method HandleDragStart(activeId: string)
      modifies this
      ensures IsTaskDragId(activeId) ==> activeTaskId == Some(FromTaskId(activeId))
      ensures !IsTaskDragId(activeId) ==> activeTaskId == old(activeTaskId)
      ensures columns == old(columns) && selectedTaskId == old(selectedTaskId) && editingTaskId == old(editingTaskId)
    {
      if IsTaskDragId(activeId) {
        activeTaskId := Some(FromTaskId(activeId));
      }
    }

    /** `handleDragEnd`: every path ends the drag. When the drop resolves to a
        column, the columns become `moveTask` of the columns at once and the
        request goes out with the snapshot to restore; otherwise nothing else
        changes. */
    method HandleDragEnd(activeId: string, overId: Option<string>) returns (pending: Option<PendingMove>)
      modifies this
      ensures activeTaskId.None?
      ensures selectedTaskId == old(selectedTaskId) && editingTaskId == old(editingTaskId)
      ensures pending.None? <==> DropRequest(old(columns), activeId, overId).None?
      ensures pending.None? ==> columns == old(columns)
      ensures pending.Some? ==>
                && overId.Some?
                && pending.value.request == DropRequest(old(columns), activeId, overId).value
                && pending.value.previous == old(columns)
                && columns == MoveTask(old(columns), activeId, overId.value)
    {
      if overId.None? {
        activeTaskId := None;
        return None;
      }
      if !IsTaskDragId(activeId) {
        activeTaskId := None;
        return None;
      }
      var target := GetDropTarget(columns, overId.value);
      var c := if Truthy(target.columnId) then ColumnIndex(columns, target.columnId.value) else -1;
      if c == -1 {
        activeTaskId := None;
        return None;
      }
      var targetColumn := columns[c];
      var targetIndex :=
        if Truthy(target.taskId) then TaskIndex(targetColumn.tasks, target.taskId.value)
        else |targetColumn.tasks|;
      var prevColumns := columns;
      columns := MoveTask(columns, activeId, overId.value);
      var toIndex := if targetIndex == -1 then |targetColumn.tasks| else targetIndex;
      pending := Some(PendingMove(MoveRequest(FromTaskId(activeId), targetColumn.id, toIndex), prevColumns));
      activeTaskId := None;
    }

    /** The end of the move transition: a move the server did not accept puts
        the columns back exactly as they were before the drop. */
    method CompleteMove(pending: PendingMove, ok: bool)
      modifies this
      ensures columns == if ok then old(columns) else pending.previous
      ensures activeTaskId == old(activeTaskId)
      ensures selectedTaskId == old(selectedTaskId) && editingTaskId == old(editingTaskId)
    {
      if !ok {
        columns := pending.previous;
      }
    }

    /** `handleDragCancel`. */
    method HandleDragCancel()
      modifies this
      ensures activeTaskId.None?
      ensures columns == old(columns) && selectedTaskId == old(selectedTaskId) && editingTaskId == old(editingTaskId)
    {
      activeTaskId := None;
    }

    /** `runTaskDelete` after the server answered `ok`: a failed delete changes
        nothing; a successful one removes the task from the columns and clears
        the selection and the edit target only where they were that task. */
    method RunTaskDelete(task: Task, ok: bool)
      modifies this
      ensures !ok ==> columns == old(columns) && selectedTaskId == old(selectedTaskId) && editingTaskId == old(editingTaskId)
      ensures ok ==> columns == RemoveTaskFromColumns(old(columns), task.id)
      ensures ok ==> selectedTaskId == if old(selectedTaskId) == Some(task.id) then None else old(selectedTaskId)
      ensures ok ==> editingTaskId == if old(editingTaskId) == Some(task.id) then None else old(editingTaskId)
      ensures activeTaskId == old(activeTaskId)
    {
      if !ok {
        return;
      }
      columns := RemoveTaskFromColumns(columns, task.id);
      if selectedTaskId == Some(task.id) {
        selectedTaskId := None;
      }
      if editingTaskId == Some(task.id) {
        editingTaskId := None;
      }
    }
  }
}
