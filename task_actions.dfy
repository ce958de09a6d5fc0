/** The server actions on tasks (`moveTaskAction`, `createTaskAction`,
    `updateTaskAction`, `deleteTaskAction`) over an in-memory picture of the
    task table, the label table and the assignee table. Every task row keeps
    its column and its rank (`order`) in that column. */
module TaskActions {
  import opened Wrappers
  import opened Seqs
  import opened TaskBoard

  datatype AssigneeInput = AssigneeInput(name: string, initials: string)

  /** One row of the task table, with the names of its labels and assignees in
      the order they were linked. */
  datatype TaskRow = TaskRow(
    title: string,
    description: string,
    dueDate: string,
    priority: Priority,
    order: int,
    columnId: string,
    labels: seq<string>,
    assignees: seq<string>)

  type Rows = map<string, TaskRow>

  /** No two tasks of one column share a rank. */
  predicate UniqueRanks(rows: Rows) {
    forall a, b :: a in rows && b in rows && a != b && rows[a].columnId == rows[b].columnId
                   ==> rows[a].order != rows[b].order
  }

  /** `ids` is the answer to `findMany({ where: { columnId }, orderBy: { order: 'asc' } })`:
      every task of the column once, ranks strictly increasing. */
  ghost predicate OrderedView(rows: Rows, columnId: string, ids: seq<string>) {
    && Distinct(ids)
    && (forall i :: 0 <= i < |ids| ==> (ids[i] in rows && rows[ids[i]].columnId == columnId))
    && (forall id :: (id in rows && rows[id].columnId == columnId) ==> id in ids)
    && (forall i, j :: 0 <= i < j < |ids| ==> rows[ids[i]].order < rows[ids[j]].order)
  }

  /** Part way through reading a column in rank order: `ids` holds the
      lowest-ranked tasks read so far, `pending` the ones still to read. */
  ghost predicate Selecting(rows: Rows, columnId: string, ids: seq<string>, pending: set<string>) {
    SelectingIds(rows, columnId, ids, pending) && SelectingRanks(rows, ids, pending)
  }

  /** Every task of the column is read or pending, never both, and none twice. */
  ghost predicate SelectingIds(rows: Rows, columnId: string, ids: seq<string>, pending: set<string>) {
    && (forall id :: id in pending ==> (id in rows && rows[id].columnId == columnId))
    && (forall id :: (id in rows && rows[id].columnId == columnId) ==> id in pending || id in ids)
    && (forall i :: 0 <= i < |ids| ==> ids[i] in rows && rows[ids[i]].columnId == columnId && ids[i] !in pending)
    && Distinct(ids)
  }

  /** What is read is in rank order and ranked below everything pending. */
  ghost predicate SelectingRanks(rows: Rows, ids: seq<string>, pending: set<string>)
    requires forall i :: 0 <= i < |ids| ==> ids[i] in rows
    requires forall id :: id in pending ==> id in rows
  {
    && (forall i, j :: 0 <= i < j < |ids| ==> rows[ids[i]].order < rows[ids[j]].order)
    && (forall i, id :: 0 <= i < |ids| && id in pending ==> rows[ids[i]].order < rows[id].order)
  }

  /** Reading next the pending task of lowest rank keeps the reading in rank order. */
  lemma SelectLowest(rows: Rows, columnId: string, ids: seq<string>, pending: set<string>, next: string)
    requires Selecting(rows, columnId, ids, pending)
    requires next in pending && forall id :: id in pending ==> rows[next].order <= rows[id].order
    requires UniqueRanks(rows)
    ensures Selecting(rows, columnId, ids + [next], pending - {next})
  {
    SelectLowestIds(rows, columnId, ids, pending, next);
    SelectLowestRanks(rows, columnId, ids, pending, next);
  }

  lemma SelectLowestIds(rows: Rows, columnId: string, ids: seq<string>, pending: set<string>, next: string)
    requires SelectingIds(rows, columnId, ids, pending) && next in pending
    ensures SelectingIds(rows, columnId, ids + [next], pending - {next})
  {
  }

  lemma SelectLowestRanks(rows: Rows, columnId: string, ids: seq<string>, pending: set<string>, next: string)
    requires SelectingIds(rows, columnId, ids, pending) && SelectingRanks(rows, ids, pending)
    requires next in pending && forall id :: id in pending ==> rows[next].order <= rows[id].order
    requires UniqueRanks(rows)
    ensures SelectingIds(rows, columnId, ids + [next], pending - {next})
    ensures SelectingRanks(rows, ids + [next], pending - {next})
  {
    SelectLowestIds(rows, columnId, ids, pending, next);
    var ids' := ids + [next];
    var pending' := pending - {next};
    forall i, j | 0 <= i < j < |ids'| ensures rows[ids'[i]].order < rows[ids'[j]].order {
      if j == |ids| {
        assert ids'[i] == ids[i];
      } else {
        assert ids'[i] == ids[i] && ids'[j] == ids[j];
      }
    }
    forall i, id | 0 <= i < |ids'| && id in pending' ensures rows[ids'[i]].order < rows[id].order {
      if i == |ids| {
        assert id != next && rows[id].columnId == rows[next].columnId;
      } else {
        assert ids'[i] == ids[i];
      }
    }
  }

  /** The column holds exactly the tasks `ids` and their ranks are 0..n-1 in that order. */
  ghost predicate DenseView(rows: Rows, columnId: string, ids: seq<string>) {
    && Distinct(ids)
    && (forall i :: 0 <= i < |ids| ==> ids[i] in rows && rows[ids[i]].columnId == columnId && rows[ids[i]].order == i)
    && (forall id :: (id in rows && rows[id].columnId == columnId) ==> id in ids)
  }

  lemma DenseIsOrdered(rows: Rows, columnId: string, ids: seq<string>)
    requires DenseView(rows, columnId, ids)
    ensures OrderedView(rows, columnId, ids)
  {
  }

  /** Ids listed by strictly increasing rank. */
  ghost predicate RankSorted(rows: Rows, ids: seq<string>)
    requires forall i :: 0 <= i < |ids| ==> ids[i] in rows
  {
    forall i, j :: 0 <= i < j < |ids| ==> rows[ids[i]].order < rows[ids[j]].order
  }

  /** Two lists sorted by strictly increasing rank and holding the same ids are equal. */
  lemma {:induction false} RankSortedUnique(rows: Rows, xs: seq<string>, ys: seq<string>)
    requires forall i :: 0 <= i < |xs| ==> xs[i] in rows
    requires forall i :: 0 <= i < |ys| ==> ys[i] in rows
    requires RankSorted(rows, xs) && RankSorted(rows, ys)
    requires forall id :: id in xs <==> id in ys
    ensures xs == ys
    decreases |xs|
  {
    if xs == [] {
      assert forall k :: 0 <= k < |ys| ==> ys[k] in xs;
    } else {
      assert xs[0] in ys;
      assert ys[0] in xs;
      assert xs[0] == ys[0] by {
        var i :| 0 <= i < |xs| && xs[i] == ys[0];
        var j :| 0 <= j < |ys| && ys[j] == xs[0];
        assert rows[xs[0]].order <= rows[ys[0]].order;
        assert rows[ys[0]].order <= rows[xs[0]].order;
      }
      var xt, yt := xs[1..], ys[1..];
      forall id ensures id in xt <==> id in yt {
        assert xs == [xs[0]] + xt && ys == [ys[0]] + yt;
        assert xs[0] !in xt by {
          assert forall k :: 0 <= k < |xt| ==> xt[k] == xs[k + 1];
        }
        assert ys[0] !in yt by {
          assert forall k :: 0 <= k < |yt| ==> yt[k] == ys[k + 1];
        }
        assert id in xs <==> id == xs[0] || id in xt;
        assert id in ys <==> id == ys[0] || id in yt;
      }
      RankSortedUnique(rows, xt, yt);
      assert xs == [xs[0]] + xt && ys == [ys[0]] + yt;
    }
  }

  /** The ordered answer is unique: a column has one rank order. */
  lemma OrderedViewUnique(rows: Rows, columnId: string, xs: seq<string>, ys: seq<string>)
    requires OrderedView(rows, columnId, xs) && OrderedView(rows, columnId, ys)
    ensures xs == ys
  {
    RankSortedUnique(rows, xs, ys);
  }

  /** `Math.max(0, Math.min(toIndex, length))`. */
  function Clamp(toIndex: int, length: nat): (r: nat)
    ensures r <= length
    ensures 0 <= toIndex <= length ==> r == toIndex
    ensures toIndex < 0 ==> r == 0
    ensures toIndex > length ==> r == length
  {
    var low := if toIndex < length then toIndex else length;
    if 0 < low then low else 0
  }

  /** `ids.splice(Clamp(toIndex, ids.length), 0, taskId)` on a copy: the task
      lands at the clamped index and the others keep their relative order. */
  function SpliceIn(ids: seq<string>, taskId: string, toIndex: int): (r: seq<string>)
    ensures |r| == |ids| + 1
    ensures r[Clamp(toIndex, |ids|)] == taskId
    ensures Remove(r, Clamp(toIndex, |ids|)) == ids
  {
    var at := Clamp(toIndex, |ids|);
    var r := Insert(ids, at, taskId);
    assert r[..at] == ids[..at] && r[at + 1..] == ids[at..];
    assert ids == ids[..at] + ids[at..];
    r
  }

  lemma SpliceInDistinct(ids: seq<string>, taskId: string, toIndex: int)
    requires Distinct(ids) && taskId !in ids
    ensures Distinct(SpliceIn(ids, taskId, toIndex))
    ensures forall id :: id in SpliceIn(ids, taskId, toIndex) <==> id in ids || id == taskId
  {
    var at := Clamp(toIndex, |ids|);
    DistinctInsert(ids, at, taskId);
    assert SpliceIn(ids, taskId, toIndex) == ids[..at] + [taskId] + ids[at..];
    assert ids == ids[..at] + ids[at..];
  }

  /** `resequenceColumn` as a series of writes in list order: the task at
      position i gets rank i and, when `updateColumn`, the column `columnId`. */
  function Resequenced(rows: Rows, ids: seq<string>, columnId: string, updateColumn: bool): (r: Rows)
    requires forall i :: 0 <= i < |ids| ==> ids[i] in rows
    ensures r.Keys == rows.Keys
  {
    if ids == [] then rows
    else
      var n := |ids| - 1;
      var before := Resequenced(rows, ids[..n], columnId, updateColumn);
      var row := before[ids[n]];
      before[ids[n] := row.(order := n, columnId := if updateColumn then columnId else row.columnId)]
  }

  /** Writing distinct ids: each listed task gets its position as rank (and
      the column when asked), every other task is left as it was. */
  lemma {:induction false} ResequencedRows(rows: Rows, ids: seq<string>, columnId: string, updateColumn: bool)
    requires forall i :: 0 <= i < |ids| ==> ids[i] in rows
    requires Distinct(ids)
    ensures var r := Resequenced(rows, ids, columnId, updateColumn);
            && (forall i :: 0 <= i < |ids| ==>
                  r[ids[i]] == rows[ids[i]].(order := i, columnId := if updateColumn then columnId else rows[ids[i]].columnId))
            && (forall id :: id in rows && id !in ids ==> r[id] == rows[id])
  {
    if ids != [] {
      var n := |ids| - 1;
      ResequencedRows(rows, ids[..n], columnId, updateColumn);
      assert forall i :: 0 <= i < n ==> ids[..n][i] == ids[i] && ids[i] != ids[n];
      assert forall id :: id !in ids[..n] && id != ids[n] ==> id !in ids by {
        assert ids == ids[..n] + [ids[n]];
      }
    }
  }

  /** What the same-column branch of `moveTaskAction` makes of the table
      `before`, given the column's ordered ids `view`: the column is rewritten
      with the task spliced in at the clamped index, ends dense in that
      order, and no other column changes. */
  ghost predicate MovedWithinColumn(before: Rows, after: Rows, taskId: string, columnId: string,
                                    view: seq<string>, toIndex: int)
  {
    && taskId in before && before[taskId].columnId == columnId
    && OrderedView(before, columnId, view)
    && var written := SpliceIn(RemoveAll(view, taskId), taskId, toIndex);
       && (forall i :: 0 <= i < |written| ==> written[i] in before)
       && after == Resequenced(before, written, columnId, false)
       && DenseView(after, columnId, written)
       && forall id :: id in before && before[id].columnId != columnId ==> after[id] == before[id]
  }

  /** What the cross-column branch of `moveTaskAction` makes of the table
      `before`, given the ordered ids of both columns: the source column is
      rewritten without the task, then the target column with the task
      spliced in, which also moves the task there. Both end dense and no
      other column changes. */
  ghost predicate MovedAcrossColumns(before: Rows, after: Rows, taskId: string, source: string, target: string,
                                     sourceView: seq<string>, targetView: seq<string>, toIndex: int)
  {
    && taskId in before && before[taskId].columnId == source && source != target
    && OrderedView(before, source, sourceView)
    && OrderedView(before, target, targetView)
    && var kept := RemoveAll(sourceView, taskId);
       var written := SpliceIn(targetView, taskId, toIndex);
       && (forall i :: 0 <= i < |kept| ==> kept[i] in before)
       && (forall i :: 0 <= i < |written| ==> written[i] in before)
       && after == Resequenced(Resequenced(before, kept, source, false), written, target, true)
       && DenseView(after, source, kept)
       && DenseView(after, target, written)
       && forall id :: id in before && before[id].columnId != source && before[id].columnId != target
                       ==> after[id] == before[id]
  }

  /** Rewriting a whole column in a new order: its tasks become dense in that
      order, ranks stay unique and every other column is untouched. */
  lemma ResequenceWholeColumn(rows: Rows, columnId: string, ids: seq<string>)
    requires UniqueRanks(rows)
    requires Distinct(ids)
    requires forall i :: 0 <= i < |ids| ==> ids[i] in rows && rows[ids[i]].columnId == columnId
    requires forall id :: id in rows && rows[id].columnId == columnId ==> id in ids
    ensures var r := Resequenced(rows, ids, columnId, false);
            && DenseView(r, columnId, ids)
            && UniqueRanks(r)
            && forall id :: id in rows && rows[id].columnId != columnId ==> r[id] == rows[id]
  {
    var r := Resequenced(rows, ids, columnId, false);
    ResequencedRows(rows, ids, columnId, false);
    forall a, b | a in r && b in r && a != b && r[a].columnId == r[b].columnId
      ensures r[a].order != r[b].order
    {
      if a in ids && b in ids {
        var i :| 0 <= i < |ids| && ids[i] == a;
        var j :| 0 <= j < |ids| && ids[j] == b;
      }
    }
  }

  /** The same-column rewrite does what `MovedWithinColumn` says and keeps
      ranks unique. */
  lemma WithinColumnMove(before: Rows, taskId: string, columnId: string, view: seq<string>, toIndex: int)
    requires UniqueRanks(before)
    requires taskId in before && before[taskId].columnId == columnId
    requires OrderedView(before, columnId, view)
    ensures var written := SpliceIn(RemoveAll(view, taskId), taskId, toIndex);
            && (forall i :: 0 <= i < |written| ==> written[i] in before)
            && MovedWithinColumn(before, Resequenced(before, written, columnId, false), taskId, columnId, view, toIndex)
            && UniqueRanks(Resequenced(before, written, columnId, false))
  {
    var kept := RemoveAll(view, taskId);
    RemoveAllDistinctKept(view, taskId);
    SpliceInDistinct(kept, taskId, toIndex);
    var ids := SpliceIn(kept, taskId, toIndex);
    forall i | 0 <= i < |ids| ensures ids[i] in before && before[ids[i]].columnId == columnId {
      assert ids[i] in ids;
    }
    ResequenceWholeColumn(before, columnId, ids);
  }

  /** The id lists of a cross-column move: `kept` is the source column
      without the task, `written` is the target column with it. */
  ghost predicate CrossMoveIds(before: Rows, taskId: string, source: string, target: string,
                               kept: seq<string>, written: seq<string>)
  {
    && taskId in before && before[taskId].columnId == source && source != target
    && Distinct(kept) && Distinct(written)
    && taskId !in kept && taskId in written
    && (forall i :: 0 <= i < |kept| ==> kept[i] in before && before[kept[i]].columnId == source)
    && (forall id :: id in before && before[id].columnId == source ==> id in kept || id == taskId)
    && (forall i :: 0 <= i < |written| ==> written[i] in before)
    && (forall i :: 0 <= i < |written| ==> written[i] == taskId || before[written[i]].columnId == target)
    && (forall id :: id in before && before[id].columnId == target ==> id in written)
  }

  lemma CrossMoveIdsHold(before: Rows, taskId: string, source: string, target: string,
                         sourceView: seq<string>, targetView: seq<string>, toIndex: int)
    requires taskId in before && before[taskId].columnId == source && source != target
    requires OrderedView(before, source, sourceView) && OrderedView(before, target, targetView)
    ensures CrossMoveIds(before, taskId, source, target, RemoveAll(sourceView, taskId), SpliceIn(targetView, taskId, toIndex))
  {
    var kept := RemoveAll(sourceView, taskId);
    var written := SpliceIn(targetView, taskId, toIndex);
    RemoveAllDistinctKept(sourceView, taskId);
    SpliceInDistinct(targetView, taskId, toIndex);
    forall i | 0 <= i < |kept| ensures kept[i] in before && before[kept[i]].columnId == source {
      assert kept[i] in kept;
    }
    forall i | 0 <= i < |written| ensures written[i] in before
      ensures written[i] == taskId || before[written[i]].columnId == target
    {
      assert written[i] in written;
    }
  }

  /** The two writes of a cross-column move, row by row. */
  lemma AcrossColumnsRows(before: Rows, taskId: string, source: string, target: string,
                          kept: seq<string>, written: seq<string>)
    requires CrossMoveIds(before, taskId, source, target, kept, written)
    ensures var after := Resequenced(Resequenced(before, kept, source, false), written, target, true);
            && (forall i :: 0 <= i < |kept| ==> after[kept[i]] == before[kept[i]].(order := i))
            && (forall i :: 0 <= i < |written| ==> after[written[i]] == before[written[i]].(order := i, columnId := target))
            && (forall id :: id in before && id !in kept && id !in written ==> after[id] == before[id])
  {
    var middle := Resequenced(before, kept, source, false);
    ResequencedRows(before, kept, source, false);
    ResequencedRows(middle, written, target, true);
    forall i | 0 <= i < |kept| ensures kept[i] !in written {
      assert forall j :: 0 <= j < |written| ==> written[j] != kept[i];
    }
  }

  lemma AcrossColumnsDense(before: Rows, taskId: string, source: string, target: string,
                           kept: seq<string>, written: seq<string>)
    requires CrossMoveIds(before, taskId, source, target, kept, written)
    ensures var after := Resequenced(Resequenced(before, kept, source, false), written, target, true);
            DenseView(after, source, kept) && DenseView(after, target, written)
  {
    var after := Resequenced(Resequenced(before, kept, source, false), written, target, true);
    AcrossColumnsRows(before, taskId, source, target, kept, written);
    forall id | id in after && after[id].columnId == source ensures id in kept {
      assert forall i :: 0 <= i < |written| ==> after[written[i]].columnId == target;
    }
    forall id | id in after && after[id].columnId == target ensures id in written {
      assert forall i :: 0 <= i < |kept| ==> after[kept[i]].columnId == source;
    }
  }

  lemma AcrossColumnsUnique(before: Rows, taskId: string, source: string, target: string,
                            kept: seq<string>, written: seq<string>)
    requires UniqueRanks(before)
    requires CrossMoveIds(before, taskId, source, target, kept, written)
    ensures UniqueRanks(Resequenced(Resequenced(before, kept, source, false), written, target, true))
  {
    var after := Resequenced(Resequenced(before, kept, source, false), written, target, true);
    AcrossColumnsRows(before, taskId, source, target, kept, written);
    AcrossColumnsDense(before, taskId, source, target, kept, written);
    forall id | id in after && after[id].columnId != source && after[id].columnId != target
      ensures after[id] == before[id]
    {
      assert id !in kept && id !in written;
    }
    DenseColumnsUnique(before, after, source, kept, target, written);
  }

  /** Two columns rewritten densely, every other task as it was: ranks stay
      unique. */
  lemma DenseColumnsUnique(before: Rows, after: Rows, source: string, kept: seq<string>,
                           target: string, written: seq<string>)
    requires UniqueRanks(before) && after.Keys == before.Keys
    requires DenseView(after, source, kept) && DenseView(after, target, written)
    requires forall id :: id in after && after[id].columnId != source && after[id].columnId != target
                          ==> after[id] == before[id]
    ensures UniqueRanks(after)
  {
    forall a, b | a in after && b in after && a != b && after[a].columnId == after[b].columnId
      ensures after[a].order != after[b].order
    {
      if after[a].columnId == source {
        DenseRanksDiffer(after, source, kept, a, b);
      } else if after[a].columnId == target {
        DenseRanksDiffer(after, target, written, a, b);
      }
    }
  }

  /** In a dense column, two different tasks have different ranks. */
  lemma DenseRanksDiffer(rows: Rows, columnId: string, ids: seq<string>, a: string, b: string)
    requires DenseView(rows, columnId, ids)
    requires a in rows && b in rows && a != b && rows[a].columnId == columnId && rows[b].columnId == columnId
    ensures rows[a].order != rows[b].order
  {
    var i :| 0 <= i < |ids| && ids[i] == a;
    var j :| 0 <= j < |ids| && ids[j] == b;
  }

  /** The cross-column rewrite does what `MovedAcrossColumns` says and keeps
      ranks unique. */
  lemma AcrossColumnsMove(before: Rows, taskId: string, source: string, target: string,
                          sourceView: seq<string>, targetView: seq<string>, toIndex: int)
    requires UniqueRanks(before)
    requires taskId in before && before[taskId].columnId == source && source != target
    requires OrderedView(before, source, sourceView) && OrderedView(before, target, targetView)
    ensures var kept := RemoveAll(sourceView, taskId);
            var written := SpliceIn(targetView, taskId, toIndex);
            && (forall i :: 0 <= i < |kept| ==> kept[i] in before)
            && (forall i :: 0 <= i < |written| ==> written[i] in before)
            && var after := Resequenced(Resequenced(before, kept, source, false), written, target, true);
               && MovedAcrossColumns(before, after, taskId, source, target, sourceView, targetView, toIndex)
               && UniqueRanks(after)
  {
    var kept := RemoveAll(sourceView, taskId);
    var written := SpliceIn(targetView, taskId, toIndex);
    CrossMoveIdsHold(before, taskId, source, target, sourceView, targetView, toIndex);
    AcrossColumnsRows(before, taskId, source, target, kept, written);
    AcrossColumnsDense(before, taskId, source, target, kept, written);
    AcrossColumnsUnique(before, taskId, source, target, kept, written);
  }

  /** Labels are looked up by name and created when missing. */
  function LabelSet(labels: seq<string>): set<string> {
    set i | 0 <= i < |labels| :: labels[i]
  }

  function Names(assignees: seq<AssigneeInput>): (r: seq<string>)
    ensures |r| == |assignees| && forall i :: 0 <= i < |assignees| ==> r[i] == assignees[i].name
  {
    seq(|assignees|, i requires 0 <= i < |assignees| => assignees[i].name)
  }

  /** The names of a non-empty list: the first name, then the names of the rest. */
  lemma NamesCons(assignees: seq<AssigneeInput>)
    requires assignees != []
    ensures Names(assignees) == [assignees[0].name] + Names(assignees[1..])
    ensures LabelSet(Names(assignees)) == {assignees[0].name} + LabelSet(Names(assignees[1..]))
  {
    var names := Names(assignees);
    assert names == [names[0]] + names[1..];
    assert names[1..] == Names(assignees[1..]);
    LabelSetCons(names[0], names[1..]);
  }

  lemma LabelSetCons(x: string, s: seq<string>)
    ensures LabelSet([x] + s) == {x} + LabelSet(s)
  {
    var t := [x] + s;
    forall y | y in LabelSet(t) ensures y == x || y in LabelSet(s) {
      var i :| 0 <= i < |t| && t[i] == y;
      if i > 0 {
        assert s[i - 1] == y;
      }
    }
    forall y | y in LabelSet(s) ensures y in LabelSet(t) {
      var i :| 0 <= i < |s| && s[i] == y;
      assert t[i + 1] == y;
    }
    assert t[0] == x;
  }

  /** The assignee table after `connectOrCreate` by name, one entry after the
      other: a name already present keeps its initials. */
  function ConnectOrCreate(initialsOf: map<string, string>, assignees: seq<AssigneeInput>): (r: map<string, string>)
    ensures r.Keys == initialsOf.Keys + LabelSet(Names(assignees))
    ensures forall name :: name in initialsOf ==> r[name] == initialsOf[name]
    decreases |assignees|
  {
    if assignees == [] then initialsOf
    else
      var a := assignees[0];
      var next := if a.name in initialsOf then initialsOf else initialsOf[a.name := a.initials];
      var r := ConnectOrCreate(next, assignees[1..]);
      NamesCons(assignees);
      r
  }

  /** A name new to the table gets the initials of its first entry in the list. */
  lemma {:induction false} ConnectOrCreateFirstWins(initialsOf: map<string, string>, assignees: seq<AssigneeInput>, i: nat)
    requires i < |assignees| && assignees[i].name !in initialsOf
    requires forall j :: 0 <= j < i ==> assignees[j].name != assignees[i].name
    ensures ConnectOrCreate(initialsOf, assignees)[assignees[i].name] == assignees[i].initials
    decreases i
  {
    var a := assignees[0];
    var next := if a.name in initialsOf then initialsOf else initialsOf[a.name := a.initials];
    if i > 0 {
      ConnectOrCreateFirstWins(next, assignees[1..], i - 1);
    }
  }

  /** The assignee table after an `upsert` by name for each entry, in order:
      every listed name ends with the initials of its LAST entry. */
  function Upsert(initialsOf: map<string, string>, assignees: seq<AssigneeInput>): (r: map<string, string>)
    ensures r.Keys == initialsOf.Keys + LabelSet(Names(assignees))
    ensures forall name :: name in initialsOf && name !in Names(assignees) ==> r[name] == initialsOf[name]
    decreases |assignees|
  {
    if assignees == [] then initialsOf
    else
      var a := assignees[0];
      var r := Upsert(initialsOf[a.name := a.initials], assignees[1..]);
      NamesCons(assignees);
      r
  }

  lemma {:induction false} UpsertLastWins(initialsOf: map<string, string>, assignees: seq<AssigneeInput>, i: nat)
    requires i < |assignees|
    requires forall j :: i < j < |assignees| ==> assignees[j].name != assignees[i].name
    ensures Upsert(initialsOf, assignees)[assignees[i].name] == assignees[i].initials
    decreases i
  {
    var a := assignees[0];
    if i > 0 {
      UpsertLastWins(initialsOf[a.name := a.initials], assignees[1..], i - 1);
    } else {
      var rest := assignees[1..];
      assert a.name !in Names(rest) by {
        assert forall j :: 0 <= j < |rest| ==> Names(rest)[j] == assignees[j + 1].name;
      }
    }
  }

  /** Writing a key twice leaves the second value. */
  lemma OverwriteTwice<K, V>(m: map<K, V>, k: K, first: V, second: V)
    ensures m[k := first][k := second] == m[k := second]
  {
  }

  /** A task ranked above every task of its column keeps the ranks of every
      column distinct. */
  lemma AddAboveKeepsRanks(rows: Rows, id: string, row: TaskRow)
    requires UniqueRanks(rows) && id !in rows
    requires forall other :: (other in rows && rows[other].columnId == row.columnId) ==> rows[other].order < row.order
    ensures UniqueRanks(rows[id := row])
  {
  }

  /** Rewriting one task without touching its column or its rank keeps the
      ranks of every column distinct. */
  lemma RewriteKeepsRanks(rows: Rows, id: string, row: TaskRow)
    requires UniqueRanks(rows) && id in rows
    requires row.order == rows[id].order && row.columnId == rows[id].columnId
    ensures UniqueRanks(rows[id := row])
  {
    var after := rows[id := row];
    forall a, b | a in after && b in after && a != b && after[a].columnId == after[b].columnId
      ensures after[a].order != after[b].order
    {
      assert after[a].order == rows[a].order && after[a].columnId == rows[a].columnId;
      assert after[b].order == rows[b].order && after[b].columnId == rows[b].columnId;
    }
  }

  /** The row after `updateTaskAction`'s first write: fields left `undefined`
      are not written, and an empty due date counts as not given. */
  function PatchRow(row: TaskRow, title: Option<string>, description: Option<string>,
                    dueDate: Option<string>, priority: Option<Priority>): (r: TaskRow)
    ensures r.order == row.order && r.columnId == row.columnId
    ensures r.labels == row.labels && r.assignees == row.assignees
    ensures r.title == title.GetOr(row.title) && r.description == description.GetOr(row.description)
    ensures r.priority == priority.GetOr(row.priority)
    ensures r.dueDate == (if dueDate.Some? && dueDate.value != "" then dueDate.value else row.dueDate)
  {
    row.(title := title.GetOr(row.title),
         description := description.GetOr(row.description),
         dueDate := if dueDate.Some? && dueDate.value != "" then dueDate.value else row.dueDate,
         priority := priority.GetOr(row.priority))
  }

  /** The task, label and assignee tables of the database. */
  class TaskStore {
    var rows: Rows
    var labelNames: set<string>
    var initialsOf: map<string, string>

    predicate Valid()
      reads this
    {
      UniqueRanks(rows)
    }

    /** The task of `candidates` with the lowest rank. */
    method LowestRanked(candidates: set<string>) returns (m: string)
      requires candidates != {} && forall id :: id in candidates ==> id in rows
      ensures m in candidates && forall id :: id in candidates ==> rows[m].order <= rows[id].order
    {
      m :| m in candidates;
      var rest := candidates - {m};
      while rest != {}
        invariant m in candidates && rest <= candidates
        invariant forall id :: id in candidates && id !in rest ==> rows[m].order <= rows[id].order
        decreases rest
      {
        var id :| id in rest;
        if rows[id].order < rows[m].order {
          m := id;
        }
        rest := rest - {id};
      }
    }

    /** `findMany({ where: { columnId }, orderBy: { order: 'asc' } })`: the
        column's task ids by increasing rank. */
    method FindColumnTasks(columnId: string) returns (ids: seq<string>)
      requires Valid()
      ensures OrderedView(rows, columnId, ids)
    {
      var pending := set id | id in rows && rows[id].columnId == columnId;
      ids := [];
      while pending != {}
        invariant Selecting(rows, columnId, ids, pending)
        decreases pending
      {
        var next := LowestRanked(pending);
        SelectLowest(rows, columnId, ids, pending, next);
        ids := ids + [next];
        pending := pending - {next};
      }
    }

    /** `resequenceColumn`: writes rank i (and, when asked, the column) to the
        i-th listed task. */
    method ResequenceColumn(taskIds: seq<string>, columnId: string, updateColumn: bool)
      requires forall i :: 0 <= i < |taskIds| ==> taskIds[i] in rows
      modifies this
      ensures rows == Resequenced(old(rows), taskIds, columnId, updateColumn)
      ensures labelNames == old(labelNames) && initialsOf == old(initialsOf)
    {
      var order := 0;
      while order < |taskIds|
        invariant 0 <= order <= |taskIds|
        invariant rows == Resequenced(old(rows), taskIds[..order], columnId, updateColumn)
        invariant labelNames == old(labelNames) && initialsOf == old(initialsOf)
      {
        assert taskIds[..order + 1][..order] == taskIds[..order];
        var row := rows[taskIds[order]];
        rows := rows[taskIds[order] := if updateColumn then row.(order := order, columnId := columnId)
                                                       else row.(order := order)];
        order := order + 1;
      }
      assert taskIds[..order] == taskIds;
    }

    /** `moveTaskAction`: an unknown task changes nothing. Otherwise the ids
        are read in rank order; within one column the column is rewritten
        with the task spliced in at the clamped index; across columns the
        source is rewritten without the task, then the target with it, and
        the task takes the target column. Rewritten columns end dense
        (ranks 0..n-1), no task is lost or duplicated, no other column
        changes. */
    method MoveTaskAction(taskId: string, toColumnId: string, toIndex: int)
      returns (ghost sourceBefore: seq<string>, ghost targetBefore: seq<string>)
      requires Valid()
      modifies this
      ensures Valid()
      ensures labelNames == old(labelNames) && initialsOf == old(initialsOf)
      ensures rows.Keys == old(rows).Keys
      ensures taskId !in old(rows) ==> rows == old(rows)
      ensures taskId in old(rows) && old(rows)[taskId].columnId == toColumnId ==>
                MovedWithinColumn(old(rows), rows, taskId, toColumnId, sourceBefore, toIndex)
      ensures taskId in old(rows) && old(rows)[taskId].columnId != toColumnId ==>
                MovedAcrossColumns(old(rows), rows, taskId, old(rows)[taskId].columnId, toColumnId,
                                   sourceBefore, targetBefore, toIndex)
    {
      sourceBefore, targetBefore := [], [];
      if taskId !in rows {
        return;
      }
      var sourceColumnId := rows[taskId].columnId;
      var sourceTasks := FindColumnTasks(sourceColumnId);
      var targetTasks := sourceTasks;
      if sourceColumnId != toColumnId {
        targetTasks := FindColumnTasks(toColumnId);
      }
      sourceBefore, targetBefore := sourceTasks, targetTasks;
      var sourceIds := RemoveAll(sourceTasks, taskId);
      var targetIds := if sourceColumnId == toColumnId then sourceIds else targetTasks;
      targetIds := SpliceIn(targetIds, taskId, toIndex);
      if sourceColumnId == toColumnId {
        WithinColumnMove(rows, taskId, toColumnId, sourceTasks, toIndex);
        ResequenceColumn(targetIds, toColumnId, false);
        return;
      }
      AcrossColumnsMove(rows, taskId, sourceColumnId, toColumnId, sourceTasks, targetTasks, toIndex);
      ResequenceColumn(sourceIds, sourceColumnId, false);
      ResequenceColumn(targetIds, toColumnId, true);
    }

    /** The rank a new task of `columnId` takes: one past the highest rank in
        the column, read as the last of the rank-ordered ids; 0 in an empty
        column. */
    method NextOrder(columnId: string) returns (n: int)
      requires Valid()
      ensures forall id :: (id in rows && rows[id].columnId == columnId) ==> rows[id].order < n
      ensures (forall id :: !(id in rows && rows[id].columnId == columnId)) ==> n == 0
      ensures (exists id :: (id in rows && rows[id].columnId == columnId)) ==>
                exists id :: (id in rows && rows[id].columnId == columnId) && rows[id].order == n - 1
    {
      var ordered := FindColumnTasks(columnId);
      if ordered == [] {
        return 0;
      }
      var last := ordered[|ordered| - 1];
      forall id | (id in rows && rows[id].columnId == columnId) ensures rows[id].order <= rows[last].order {
        var i :| 0 <= i < |ordered| && ordered[i] == id;
      }
      n := rows[last].order + 1;
    }

    /** `createTaskAction`: the new task is ranked one past the highest rank
        of its column (0 in an empty column); priority defaults to medium,
        description to "", a missing or empty due date to the current time;
        labels and assignees are linked by name, created when missing, and an
        existing assignee keeps its initials. `newId` is the id the database
        generates. */
    method CreateTaskAction(newId: string, columnId: string, title: string, description: Option<string>,
                            dueDate: Option<string>, priority: Option<Priority>,
                            labels: Option<seq<string>>, assignees: Option<seq<AssigneeInput>>, now: string)
      requires Valid() && newId !in rows
      modifies this
      ensures Valid()
      ensures newId in rows && rows == old(rows)[newId := rows[newId]]
      ensures var row := rows[newId];
              && row.title == title && row.description == description.GetOr("")
              && row.dueDate == (if dueDate.Some? && dueDate.value != "" then dueDate.value else now)
              && row.priority == priority.GetOr(Medium)
              && row.columnId == columnId
              && row.labels == labels.GetOr([])
              && row.assignees == Names(assignees.GetOr([]))
      ensures forall id :: (id in old(rows) && old(rows)[id].columnId == columnId) ==> old(rows)[id].order < rows[newId].order
      ensures (forall id :: !(id in old(rows) && old(rows)[id].columnId == columnId)) ==> rows[newId].order == 0
      ensures (exists id :: (id in old(rows) && old(rows)[id].columnId == columnId)) ==>
                exists id :: (id in old(rows) && old(rows)[id].columnId == columnId) && old(rows)[id].order == rows[newId].order - 1
      ensures labelNames == old(labelNames) + LabelSet(labels.GetOr([]))
      ensures initialsOf == ConnectOrCreate(old(initialsOf), assignees.GetOr([]))
    {
      var nextOrder := NextOrder(columnId);
      var labelList := labels.GetOr([]);
      var assigneeList := assignees.GetOr([]);
      var row := TaskRow(title, description.GetOr(""),
                         if dueDate.Some? && dueDate.value != "" then dueDate.value else now,
                         priority.GetOr(Medium), nextOrder, columnId, labelList, Names(assigneeList));
      AddAboveKeepsRanks(rows, newId, row);
      labelNames := labelNames + LabelSet(labelList);
      initialsOf := ConnectOrCreate(initialsOf, assigneeList);
      rows := rows[newId := row];
      assert rows[newId] == row;
    }

    /** `updateTaskAction`: fails (the update throws) when the task does not
        exist, and then nothing changes. Otherwise given fields are written;
        given labels or assignees, even an empty list, replace the task's
        links entirely, and an assignee given again takes the new initials. */
    method UpdateTaskAction(taskId: string, title: Option<string>, description: Option<string>,
                            dueDate: Option<string>, priority: Option<Priority>,
                            labels: Option<seq<string>>, assignees: Option<seq<AssigneeInput>>)
      returns (ok: bool)
      requires Valid()
      modifies this
      ensures Valid()
      ensures ok <==> taskId in old(rows)
      ensures !ok ==> rows == old(rows) && labelNames == old(labelNames) && initialsOf == old(initialsOf)
      ensures ok ==>
                var patched := PatchRow(old(rows)[taskId], title, description, dueDate, priority);
                rows == old(rows)[taskId := patched.(labels := if labels.Some? then labels.value else patched.labels,
                                                     assignees := if assignees.Some? then Names(assignees.value)
                                                                  else patched.assignees)]
      ensures ok ==> labelNames == old(labelNames) + LabelSet(labels.GetOr([]))
      ensures ok ==> initialsOf == Upsert(old(initialsOf), assignees.GetOr([]))
    {
      if taskId !in rows {
        return false;
      }
      var patched := PatchRow(rows[taskId], title, description, dueDate, priority);
      var labelled := if labels.Some? then patched.(labels := labels.value) else patched;
      var final := if assignees.Some? then labelled.(assignees := Names(assignees.value)) else labelled;
      rows := rows[taskId := patched];
      if labels.Some? {
        ReplaceLabels(taskId, labels.value);
        OverwriteTwice(old(rows), taskId, patched, labelled);
      }
      if assignees.Some? {
        ReplaceAssignees(taskId, assignees.value);
        OverwriteTwice(old(rows), taskId, labelled, final);
      }
      RewriteKeepsRanks(old(rows), taskId, final);
      ok := true;
    }

    /** Drops the task's label links, then for each label in turn looks it up
        by name, creating it when missing, and links it. */
    method ReplaceLabels(taskId: string, labels: seq<string>)
      requires taskId in rows
      modifies this
      ensures rows == old(rows)[taskId := old(rows)[taskId].(labels := labels)]
      ensures labelNames == old(labelNames) + LabelSet(labels)
      ensures initialsOf == old(initialsOf)
    {
      rows := rows[taskId := rows[taskId].(labels := [])];
      var k := 0;
      while k < |labels|
        invariant 0 <= k <= |labels|
        invariant rows == old(rows)[taskId := old(rows)[taskId].(labels := labels[..k])]
        invariant labelNames == old(labelNames) + LabelSet(labels[..k])
        invariant initialsOf == old(initialsOf)
      {
        var labelName := labels[k];
        labelNames := labelNames + {labelName};
        rows := rows[taskId := rows[taskId].(labels := rows[taskId].labels + [labelName])];
        assert labels[..k + 1] == labels[..k] + [labelName];
        assert LabelSet(labels[..k + 1]) == LabelSet(labels[..k]) + {labelName};
        k := k + 1;
      }
      assert labels[..k] == labels;
    }

    /** Drops the task's assignee links, then for each entry in turn upserts
        the assignee by name (new initials win) and links it. */
    method ReplaceAssignees(taskId: string, assignees: seq<AssigneeInput>)
      requires taskId in rows
      modifies this
      ensures rows == old(rows)[taskId := old(rows)[taskId].(assignees := Names(assignees))]
      ensures initialsOf == Upsert(old(initialsOf), assignees)
      ensures labelNames == old(labelNames)
    {
      rows := rows[taskId := rows[taskId].(assignees := [])];
      var k := 0;
      while k < |assignees|
        invariant 0 <= k <= |assignees|
        invariant rows == old(rows)[taskId := old(rows)[taskId].(assignees := Names(assignees[..k]))]
        invariant initialsOf == Upsert(old(initialsOf), assignees[..k])
        invariant labelNames == old(labelNames)
      {
        var assignee := assignees[k];
        UpsertAppend(old(initialsOf), assignees[..k], assignee);
        initialsOf := initialsOf[assignee.name := assignee.initials];
        rows := rows[taskId := rows[taskId].(assignees := rows[taskId].assignees + [assignee.name])];
        assert assignees[..k + 1] == assignees[..k] + [assignee];
        assert Names(assignees[..k + 1]) == Names(assignees[..k]) + [assignee.name];
        k := k + 1;
      }
      assert assignees[..k] == assignees;
    }

    /** `deleteTaskAction`: fails (the delete throws) when the task does not
        exist; otherwise removes that row and nothing else, and the ranks of
        its former neighbours are not renumbered. */
    method DeleteTaskAction(taskId: string) returns (ok: bool)
      requires Valid()
      modifies this
      ensures Valid()
      ensures ok <==> taskId in old(rows)
      ensures rows == old(rows) - {taskId}
      ensures forall id :: id in rows ==> rows[id] == old(rows)[id]
      ensures labelNames == old(labelNames) && initialsOf == old(initialsOf)
    {
      ok := taskId in rows;
      rows := rows - {taskId};
    }
  }

  /** One more upsert at the end of the list is one more write to the table. */
  lemma {:induction false} UpsertAppend(initialsOf: map<string, string>, assignees: seq<AssigneeInput>, a: AssigneeInput)
    ensures Upsert(initialsOf, assignees + [a]) == Upsert(initialsOf, assignees)[a.name := a.initials]
    decreases |assignees|
  {
    if assignees != [] {
      var first := assignees[0];
      assert (assignees + [a])[1..] == assignees[1..] + [a];
      UpsertAppend(initialsOf[first.name := first.initials], assignees[1..], a);
    }
  }
}
