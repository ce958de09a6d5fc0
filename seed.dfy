/** The seed script: the label and assignee reference data it collects from
    the seed boards, and the rows it creates for boards, columns and tasks. */
module Seed {
  import opened Wrappers
  import opened Seqs
  import opened TaskBoard

  datatype SeedAssignee = SeedAssignee(name: string, initials: string)

  datatype SeedTask = SeedTask(
    title: string,
    description: string,
    dueDate: string,
    priority: Priority,
    labels: seq<string>,
    assignees: seq<SeedAssignee>)

  datatype SeedColumn = SeedColumn(name: string, tasks: seq<SeedTask>)

  datatype SeedBoard = SeedBoard(name: string, description: string, columns: seq<SeedColumn>)

  // ---------------------------------------------------------------------------
  // Labels

  /** The labels of `tasks`, task after task. */
  function TaskLabels(tasks: seq<SeedTask>): seq<string> {
    if tasks == [] then [] else TaskLabels(tasks[..|tasks| - 1]) + tasks[|tasks| - 1].labels
  }

  /** The labels of `columns`, column after column. */
  function ColumnLabels(columns: seq<SeedColumn>): seq<string> {
    if columns == [] then [] else ColumnLabels(columns[..|columns| - 1]) + TaskLabels(columns[|columns| - 1].tasks)
  }

  /** Every label the seed data uses, in the order the loops visit them. */
  function SeedLabels(boards: seq<SeedBoard>): seq<string> {
    if boards == [] then [] else SeedLabels(boards[..|boards| - 1]) + ColumnLabels(boards[|boards| - 1].columns)
  }

  /** `Set.add`, on a set kept as its `elems` in insertion order. */
  function Add<T(==)>(elems: seq<T>, x: T): seq<T> {
    if x in elems then elems else elems + [x]
  }

  /** The set after adding each element of `xs` in turn. */
  function AddEach<T(==)>(elems: seq<T>, xs: seq<T>): seq<T> {
    if xs == [] then elems else Add(AddEach(elems, xs[..|xs| - 1]), xs[|xs| - 1])
  }

  /** Adding `a + b` is adding `a`, then `b`. */
  lemma {:induction false} AddEachAppend<T>(elems: seq<T>, a: seq<T>, b: seq<T>)
    ensures AddEach(elems, a + b) == AddEach(AddEach(elems, a), b)
  {
    if b != [] {
      var n := |b| - 1;
      assert (a + b)[..|a + b| - 1] == a + b[..n];
      AddEachAppend(elems, a, b[..n]);
    } else {
      assert a + b == a;
    }
  }

  /** Adding one element at a time to an empty set gives each element once, in
      the order of first appearance. */
  lemma {:induction false} AddEachIsDedup<T(!new)>(xs: seq<T>)
    ensures AddEach([], xs) == Dedup(xs)
  {
    if xs != [] {
      AddEachIsDedup(xs[..|xs| - 1]);
    }
  }

  lemma TaskLabelsSnoc(tasks: seq<SeedTask>, t: nat)
    requires t < |tasks|
    ensures TaskLabels(tasks[..t + 1]) == TaskLabels(tasks[..t]) + tasks[t].labels
  {
    assert tasks[..t + 1][..t] == tasks[..t];
  }

  /** The innermost loop of `collectUniqueLabels`: one task's labels. */
  method AddLabels(labels: seq<string>, xs: seq<string>) returns (r: seq<string>)
    ensures r == AddEach(labels, xs)
  {
    r := labels;
    var k := 0;
    while k < |xs|
      invariant 0 <= k <= |xs|
      invariant r == AddEach(labels, xs[..k])
    {
      assert xs[..k + 1][..k] == xs[..k];
      if xs[k] !in r {
        r := r + [xs[k]];
      }
      k := k + 1;
    }
    assert xs[..k] == xs;
  }

  /** The loop over one column's tasks. */
  method AddTaskLabels(labels: seq<string>, tasks: seq<SeedTask>) returns (r: seq<string>)
    ensures r == AddEach(labels, TaskLabels(tasks))
  {
    r := labels;
    var t := 0;
    while t < |tasks|
      invariant 0 <= t <= |tasks|
      invariant r == AddEach(labels, TaskLabels(tasks[..t]))
    {
      r := AddLabels(r, tasks[t].labels);
      TaskLabelsSnoc(tasks, t);
      AddEachAppend(labels, TaskLabels(tasks[..t]), tasks[t].labels);
      t := t + 1;
    }
    assert tasks[..t] == tasks;
  }

  /** `collectUniqueLabels`: every label used in the seed data, each once, in
      the order of first use. */
  method CollectUniqueLabels(boards: seq<SeedBoard>) returns (labels: seq<string>)
    ensures labels == Dedup(SeedLabels(boards))
  {
    labels := [];
    var b := 0;
    while b < |boards|
      invariant 0 <= b <= |boards|
      invariant labels == AddEach([], SeedLabels(boards[..b]))
    {
      var columns := boards[b].columns;
      ghost var visited := SeedLabels(boards[..b]);
      ghost var start := labels;
      var c := 0;
      while c < |columns|
        invariant 0 <= c <= |columns|
        invariant labels == AddEach(start, ColumnLabels(columns[..c]))
      {
        labels := AddTaskLabels(labels, columns[c].tasks);
        assert columns[..c + 1][..c] == columns[..c];
        AddEachAppend(start, ColumnLabels(columns[..c]), TaskLabels(columns[c].tasks));
        c := c + 1;
      }
      assert columns[..c] == columns;
      assert boards[..b + 1][..b] == boards[..b];
      AddEachAppend([], visited, ColumnLabels(columns));
      b := b + 1;
    }
    assert boards[..b] == boards;
    AddEachIsDedup(SeedLabels(boards));
  }

  /** The collected labels hold each used label once, in the order in which
      the loops first meet it. */
  lemma CollectedLabels(boards: seq<SeedBoard>)
    ensures var all := SeedLabels(boards);
            var r := Dedup(all);
            && Distinct(r)
            && (forall x :: x in r <==> x in all)
            && (forall i, j :: 0 <= i < j < |r| ==> FirstIndex(all, r[i]) < FirstIndex(all, r[j]))
  {
    forall i, j | 0 <= i < j < |Dedup(SeedLabels(boards))|
      ensures FirstIndex(SeedLabels(boards), Dedup(SeedLabels(boards))[i])
            < FirstIndex(SeedLabels(boards), Dedup(SeedLabels(boards))[j])
    {
      DedupFirstAppearance(SeedLabels(boards), i, j);
    }
  }

  lemma {:induction false} TaskLabelsHave(tasks: seq<SeedTask>, t: nat, i: nat)
    requires t < |tasks| && i < |tasks[t].labels|
    ensures tasks[t].labels[i] in TaskLabels(tasks)
  {
    var n := |tasks| - 1;
    if t < n {
      TaskLabelsHave(tasks[..n], t, i);
    }
  }

  lemma {:induction false} ColumnLabelsHave(columns: seq<SeedColumn>, c: nat, t: nat, i: nat)
    requires c < |columns| && t < |columns[c].tasks| && i < |columns[c].tasks[t].labels|
    ensures columns[c].tasks[t].labels[i] in ColumnLabels(columns)
  {
    var n := |columns| - 1;
    if c < n {
      ColumnLabelsHave(columns[..n], c, t, i);
    } else {
      TaskLabelsHave(columns[c].tasks, t, i);
    }
  }

  /** Every label a seeded task names is among the collected labels, so
      connecting it by name finds its row. */
  lemma {:induction false} TaskLabelCollected(boards: seq<SeedBoard>, b: nat, c: nat, t: nat, i: nat)
    requires b < |boards| && c < |boards[b].columns| && t < |boards[b].columns[c].tasks|
    requires i < |boards[b].columns[c].tasks[t].labels|
    ensures boards[b].columns[c].tasks[t].labels[i] in Dedup(SeedLabels(boards))
  {
    var n := |boards| - 1;
    if b < n {
      TaskLabelCollected(boards[..n], b, c, t, i);
    } else {
      ColumnLabelsHave(boards[b].columns, c, t, i);
    }
  }

  // ---------------------------------------------------------------------------
  // Assignees

  /** The assignees of `tasks`, task after task. */
  function TaskAssignees(tasks: seq<SeedTask>): seq<SeedAssignee> {
    if tasks == [] then [] else TaskAssignees(tasks[..|tasks| - 1]) + tasks[|tasks| - 1].assignees
  }

  function ColumnAssignees(columns: seq<SeedColumn>): seq<SeedAssignee> {
    if columns == [] then [] else ColumnAssignees(columns[..|columns| - 1]) + TaskAssignees(columns[|columns| - 1].tasks)
  }

  /** Every assignee occurrence in the seed data, in the order the loops visit them. */
  function SeedAssignees(boards: seq<SeedBoard>): seq<SeedAssignee> {
    if boards == [] then [] else SeedAssignees(boards[..|boards| - 1]) + ColumnAssignees(boards[|boards| - 1].columns)
  }

  function Names(xs: seq<SeedAssignee>): (r: seq<string>)
    ensures |r| == |xs| && forall i :: 0 <= i < |xs| ==> r[i] == xs[i].name
  {
    seq(|xs|, i requires 0 <= i < |xs| => xs[i].name)
  }

  /** `Map.set(a.name, a)` on a map kept as its entries in insertion order: an
      existing name keeps its place and takes the new value, a new name goes
      last. */
  function Put(entries: seq<SeedAssignee>, a: SeedAssignee): (r: seq<SeedAssignee>)
    ensures Names(r) == if a.name in Names(entries) then Names(entries) else Names(entries) + [a.name]
    ensures a in r
    ensures forall i :: 0 <= i < |r| && r[i].name != a.name ==> i < |entries| && r[i] == entries[i]
  {
    var k := FirstIndex(Names(entries), a.name);
    var r := if k < |entries| then entries[k := a] else entries + [a];
    assert Names(r) == if a.name in Names(entries) then Names(entries) else Names(entries) + [a.name];
    r
  }

  /** The map after every `set`, as its entries in insertion order. */
  function UniqueByName(all: seq<SeedAssignee>): seq<SeedAssignee> {
    if all == [] then [] else Put(UniqueByName(all[..|all| - 1]), all[|all| - 1])
  }

  /** The last assignee of `all` with the name, if any. */
  function LastWith(all: seq<SeedAssignee>, name: string): (r: Option<SeedAssignee>)
    ensures r.None? <==> name !in Names(all)
    ensures r.Some? ==> r.value in all && r.value.name == name
  {
    if all == [] then None
    else if all[|all| - 1].name == name then Some(all[|all| - 1])
    else
      assert Names(all) == Names(all[..|all| - 1]) + [all[|all| - 1].name];
      LastWith(all[..|all| - 1], name)
  }

  /** The entries hold each name once, in the order of first appearance. */
  lemma UniqueNames(all: seq<SeedAssignee>)
    ensures Names(UniqueByName(all)) == Dedup(Names(all))
  {
    NamesAddEach(all);
    AddEachIsDedup(Names(all));
  }

  lemma {:induction false} NamesAddEach(all: seq<SeedAssignee>)
    ensures Names(UniqueByName(all)) == AddEach([], Names(all))
  {
    if all != [] {
      var n := |all| - 1;
      NamesAddEach(all[..n]);
      assert Names(all)[..n] == Names(all[..n]);
    }
  }

  /** Entry `i` holds the last assignee of `all` with its name. */
  lemma {:induction false} EntryIsLast(all: seq<SeedAssignee>, i: nat)
    requires i < |UniqueByName(all)|
    ensures LastWith(all, UniqueByName(all)[i].name) == Some(UniqueByName(all)[i])
  {
    var n := |all| - 1;
    var a := all[n];
    var r := UniqueByName(all);
    assert r == Put(UniqueByName(all[..n]), a);
    if r[i].name != a.name {
      EntryIsLast(all[..n], i);
    } else {
      LastPutIsNew(UniqueByName(all[..n]), a, i, all[..n]);
    }
  }

  /** After `Put`, the only entry with the new name is the new assignee. */
  lemma LastPutIsNew(entries: seq<SeedAssignee>, a: SeedAssignee, i: nat, before: seq<SeedAssignee>)
    requires entries == UniqueByName(before)
    requires i < |Put(entries, a)| && Put(entries, a)[i].name == a.name
    ensures Put(entries, a)[i] == a
  {
    var r := Put(entries, a);
    UniqueNames(before + [a]);
    assert (before + [a])[..|before|] == before;
    assert r == UniqueByName(before + [a]);
    var names := Names(r);
    assert Distinct(names);
    var j :| 0 <= j < |r| && r[j] == a;
    assert names[i] == a.name && names[j] == a.name;
  }

  /** Every entry holds the last assignee seen with its name, so the initials
      are those of the last occurrence. */
  lemma UniqueKeepsLast(all: seq<SeedAssignee>)
    ensures var r := UniqueByName(all);
            forall i :: 0 <= i < |r| ==> LastWith(all, r[i].name) == Some(r[i])
  {
    forall i | 0 <= i < |UniqueByName(all)|
      ensures LastWith(all, UniqueByName(all)[i].name) == Some(UniqueByName(all)[i])
    {
      EntryIsLast(all, i);
    }
  }

  /** The map after `set` for each of `xs` in turn, from `entries`. */
  function PutEach(entries: seq<SeedAssignee>, xs: seq<SeedAssignee>): seq<SeedAssignee> {
    if xs == [] then entries else Put(PutEach(entries, xs[..|xs| - 1]), xs[|xs| - 1])
  }

  lemma {:induction false} PutEachAppend(entries: seq<SeedAssignee>, a: seq<SeedAssignee>, b: seq<SeedAssignee>)
    ensures PutEach(entries, a + b) == PutEach(PutEach(entries, a), b)
  {
    if b != [] {
      var n := |b| - 1;
      assert (a + b)[..|a + b| - 1] == a + b[..n];
      PutEachAppend(entries, a, b[..n]);
    } else {
      assert a + b == a;
    }
  }

  lemma {:induction false} PutEachIsUnique(all: seq<SeedAssignee>)
    ensures PutEach([], all) == UniqueByName(all)
  {
    if all != [] {
      PutEachIsUnique(all[..|all| - 1]);
    }
  }

  /** The innermost loop of `collectUniqueAssignees`: one task's assignees. */
  method PutAssignees(entries: seq<SeedAssignee>, xs: seq<SeedAssignee>) returns (r: seq<SeedAssignee>)
    ensures r == PutEach(entries, xs)
  {
    r := entries;
    var k := 0;
    while k < |xs|
      invariant 0 <= k <= |xs|
      invariant r == PutEach(entries, xs[..k])
    {
      assert xs[..k + 1][..k] == xs[..k];
      r := Put(r, xs[k]);
      k := k + 1;
    }
    assert xs[..k] == xs;
  }

  lemma TaskAssigneesSnoc(tasks: seq<SeedTask>, t: nat)
    requires t < |tasks|
    ensures TaskAssignees(tasks[..t + 1]) == TaskAssignees(tasks[..t]) + tasks[t].assignees
  {
    assert tasks[..t + 1][..t] == tasks[..t];
  }

  /** The loop over one column's tasks. */
  method PutTaskAssignees(entries: seq<SeedAssignee>, tasks: seq<SeedTask>) returns (r: seq<SeedAssignee>)
    ensures r == PutEach(entries, TaskAssignees(tasks))
  {
    r := entries;
    var t := 0;
    while t < |tasks|
      invariant 0 <= t <= |tasks|
      invariant r == PutEach(entries, TaskAssignees(tasks[..t]))
    {
      r := PutAssignees(r, tasks[t].assignees);
      TaskAssigneesSnoc(tasks, t);
      PutEachAppend(entries, TaskAssignees(tasks[..t]), tasks[t].assignees);
      t := t + 1;
    }
    assert tasks[..t] == tasks;
  }

  /** `collectUniqueAssignees`: one entry per name, placed where the name first
      appears and holding its last occurrence. */
  method CollectUniqueAssignees(boards: seq<SeedBoard>) returns (assignees: seq<SeedAssignee>)
    ensures assignees == UniqueByName(SeedAssignees(boards))
  {
    assignees := [];
    var b := 0;
    while b < |boards|
      invariant 0 <= b <= |boards|
      invariant assignees == PutEach([], SeedAssignees(boards[..b]))
    {
      var columns := boards[b].columns;
      ghost var visited := SeedAssignees(boards[..b]);
      ghost var start := assignees;
      var c := 0;
      while c < |columns|
        invariant 0 <= c <= |columns|
        invariant assignees == PutEach(start, ColumnAssignees(columns[..c]))
      {
        assignees := PutTaskAssignees(assignees, columns[c].tasks);
        assert columns[..c + 1][..c] == columns[..c];
        PutEachAppend(start, ColumnAssignees(columns[..c]), TaskAssignees(columns[c].tasks));
        c := c + 1;
      }
      assert columns[..c] == columns;
      assert boards[..b + 1][..b] == boards[..b];
      PutEachAppend([], visited, ColumnAssignees(columns));
      b := b + 1;
    }
    assert boards[..b] == boards;
    PutEachIsUnique(SeedAssignees(boards));
  }

  lemma {:induction false} TaskAssigneesHave(tasks: seq<SeedTask>, t: nat, i: nat)
    requires t < |tasks| && i < |tasks[t].assignees|
    ensures tasks[t].assignees[i] in TaskAssignees(tasks)
  {
    var n := |tasks| - 1;
    if t < n {
      TaskAssigneesHave(tasks[..n], t, i);
    }
  }

  lemma {:induction false} ColumnAssigneesHave(columns: seq<SeedColumn>, c: nat, t: nat, i: nat)
    requires c < |columns| && t < |columns[c].tasks| && i < |columns[c].tasks[t].assignees|
    ensures columns[c].tasks[t].assignees[i] in ColumnAssignees(columns)
  {
    var n := |columns| - 1;
    if c < n {
      ColumnAssigneesHave(columns[..n], c, t, i);
    } else {
      TaskAssigneesHave(columns[c].tasks, t, i);
    }
  }

  lemma {:induction false} SeedAssigneesHave(boards: seq<SeedBoard>, b: nat, c: nat, t: nat, i: nat)
    requires b < |boards| && c < |boards[b].columns| && t < |boards[b].columns[c].tasks|
    requires i < |boards[b].columns[c].tasks[t].assignees|
    ensures boards[b].columns[c].tasks[t].assignees[i] in SeedAssignees(boards)
  {
    var n := |boards| - 1;
    if b < n {
      SeedAssigneesHave(boards[..n], b, c, t, i);
    } else {
      ColumnAssigneesHave(boards[b].columns, c, t, i);
    }
  }

  /** Every assignee a seeded task names has an entry under that name, so
      connecting it by name finds its row. */
  lemma TaskAssigneeCollected(boards: seq<SeedBoard>, b: nat, c: nat, t: nat, i: nat)
    requires b < |boards| && c < |boards[b].columns| && t < |boards[b].columns[c].tasks|
    requires i < |boards[b].columns[c].tasks[t].assignees|
    ensures boards[b].columns[c].tasks[t].assignees[i].name in Names(UniqueByName(SeedAssignees(boards)))
  {
    var all := SeedAssignees(boards);
    var a := boards[b].columns[c].tasks[t].assignees[i];
    SeedAssigneesHave(boards, b, c, t, i);
    var k :| 0 <= k < |all| && all[k] == a;
    assert Names(all)[k] == a.name;
    UniqueNames(all);
  }

  // ---------------------------------------------------------------------------
  // Boards, columns and tasks

  datatype BoardRow = BoardRow(name: string, description: string)

  /** A created column; `boardId` is the position of its board's row. */
  datatype ColumnRow = ColumnRow(name: string, order: nat, boardId: nat)

  /** A created task; `columnId` is the position of its column's row, and the
      labels and assignees are connected by name. */
  datatype TaskRow = TaskRow(
    title: string,
    description: string,
    dueDate: string,
    priority: Priority,
    order: nat,
    columnId: nat,
    labels: seq<string>,
    assigneeNames: seq<string>)

  function TaskRowOf(task: SeedTask, order: nat, columnId: nat): TaskRow {
    TaskRow(task.title, task.description, task.dueDate, task.priority, order, columnId, task.labels, Names(task.assignees))
  }

  function SeededBoards(boards: seq<SeedBoard>): (r: seq<BoardRow>)
    ensures |r| == |boards|
  {
    if boards == [] then []
    else SeededBoards(boards[..|boards| - 1]) + [BoardRow(boards[|boards| - 1].name, boards[|boards| - 1].description)]
  }

  /** The rows of one board's columns, the i-th with order i. */
  function ColumnRows(columns: seq<SeedColumn>, boardId: nat): (r: seq<ColumnRow>)
    ensures |r| == |columns|
  {
    if columns == [] then []
    else ColumnRows(columns[..|columns| - 1], boardId) + [ColumnRow(columns[|columns| - 1].name, |columns| - 1, boardId)]
  }

  /** The rows of one column's tasks, the i-th with order i. */
  function TaskRows(tasks: seq<SeedTask>, columnId: nat): (r: seq<TaskRow>)
    ensures |r| == |tasks|
  {
    if tasks == [] then []
    else TaskRows(tasks[..|tasks| - 1], columnId) + [TaskRowOf(tasks[|tasks| - 1], |tasks| - 1, columnId)]
  }

  /** The task rows of one board whose first column row is at `firstColumnId`. */
  function BoardTaskRows(columns: seq<SeedColumn>, firstColumnId: nat): seq<TaskRow> {
    if columns == [] then []
    else
      var m := |columns| - 1;
      BoardTaskRows(columns[..m], firstColumnId) + TaskRows(columns[m].tasks, firstColumnId + m)
  }

  function SeededColumns(boards: seq<SeedBoard>): seq<ColumnRow> {
    if boards == [] then []
    else SeededColumns(boards[..|boards| - 1]) + ColumnRows(boards[|boards| - 1].columns, |boards| - 1)
  }

  function SeededTasks(boards: seq<SeedBoard>): seq<TaskRow> {
    if boards == [] then []
    else
      var n := |boards| - 1;
      SeededTasks(boards[..n]) + BoardTaskRows(boards[n].columns, |SeededColumns(boards[..n])|)
  }

  /** The innermost loop of `seedBoardsAndTasks`: one column's tasks, each
      created with its position in the column as `order`. */
  method CreateTasks(taskRows: seq<TaskRow>, tasks: seq<SeedTask>, columnId: nat) returns (r: seq<TaskRow>)
    ensures r == taskRows + TaskRows(tasks, columnId)
  {
    r := taskRows;
    var t := 0;
    while t < |tasks|
      invariant 0 <= t <= |tasks|
      invariant r == taskRows + TaskRows(tasks[..t], columnId)
    {
      assert tasks[..t + 1][..t] == tasks[..t];
      r := r + [TaskRowOf(tasks[t], t, columnId)];
      t := t + 1;
    }
    assert tasks[..t] == tasks;
  }

  /** The loop over one board's columns: each column row is created with its
      position as `order`, then the column's tasks. */
  method CreateColumns(columnRows: seq<ColumnRow>, taskRows: seq<TaskRow>, columns: seq<SeedColumn>, boardId: nat)
    returns (cs: seq<ColumnRow>, ts: seq<TaskRow>)
    ensures cs == columnRows + ColumnRows(columns, boardId)
    ensures ts == taskRows + BoardTaskRows(columns, |columnRows|)
  {
    cs, ts := columnRows, taskRows;
    var c := 0;
    while c < |columns|
      invariant 0 <= c <= |columns|
      invariant cs == columnRows + ColumnRows(columns[..c], boardId)
      invariant ts == taskRows + BoardTaskRows(columns[..c], |columnRows|)
    {
      assert columns[..c + 1][..c] == columns[..c];
      var columnId := |cs|;
      cs := cs + [ColumnRow(columns[c].name, c, boardId)];
      ts := CreateTasks(ts, columns[c].tasks, columnId);
      c := c + 1;
    }
    assert columns[..c] == columns;
  }

  /** `seedBoardsAndTasks` on cleared tables: boards, columns and tasks are
      created in list order. A row's id is its position in its table. */
  method SeedBoardsAndTasks(boards: seq<SeedBoard>)
    returns (boardRows: seq<BoardRow>, columnRows: seq<ColumnRow>, taskRows: seq<TaskRow>)
    ensures boardRows == SeededBoards(boards)
    ensures columnRows == SeededColumns(boards)
    ensures taskRows == SeededTasks(boards)
  {
    boardRows, columnRows, taskRows := [], [], [];
    var b := 0;
    while b < |boards|
      invariant 0 <= b <= |boards|
      invariant boardRows == SeededBoards(boards[..b])
      invariant columnRows == SeededColumns(boards[..b])
      invariant taskRows == SeededTasks(boards[..b])
    {
      assert boards[..b + 1][..b] == boards[..b];
      var boardId := |boardRows|;
      boardRows := boardRows + [BoardRow(boards[b].name, boards[b].description)];
      columnRows, taskRows := CreateColumns(columnRows, taskRows, boards[b].columns, boardId);
      b := b + 1;
    }
    assert boards[..b] == boards;
  }

  /** The rows of a prefix of the boards come first among all column rows. */
  lemma {:induction false} SeededColumnsPrefix(boards: seq<SeedBoard>, n: nat)
    requires n <= |boards|
    ensures var prefix := SeededColumns(boards[..n]);
            |prefix| <= |SeededColumns(boards)| && SeededColumns(boards)[..|prefix|] == prefix
  {
    if n < |boards| {
      var m := |boards| - 1;
      var mid := SeededColumns(boards[..m]);
      var prefix := SeededColumns(boards[..n]);
      SeededColumnsPrefix(boards[..m], n);
      assert boards[..m][..n] == boards[..n];
      assert |prefix| <= |mid| && mid[..|prefix|] == prefix;
      PrefixOfPrefix(SeededColumns(boards), mid, ColumnRows(boards[m].columns, m), prefix);
    } else {
      assert boards[..n] == boards;
    }
  }

  /** A prefix of `mid` is a prefix of `mid + rest`. */
  lemma PrefixOfPrefix<T>(whole: seq<T>, mid: seq<T>, rest: seq<T>, prefix: seq<T>)
    requires whole == mid + rest
    requires |prefix| <= |mid| && mid[..|prefix|] == prefix
    ensures |prefix| <= |whole| && whole[..|prefix|] == prefix
  {
    assert whole[..|mid|] == mid;
  }

  /** Column `c` of board `b` is created with order `c` under board `b`. */
  lemma SeededColumnOrder(boards: seq<SeedBoard>, b: nat, c: nat)
    requires b < |boards| && c < |boards[b].columns|
    ensures var k := |SeededColumns(boards[..b])| + c;
            k < |SeededColumns(boards)| && SeededColumns(boards)[k] == ColumnRow(boards[b].columns[c].name, c, b)
  {
    SeededColumnsPrefix(boards, b + 1);
    assert boards[..b + 1][..b] == boards[..b];
    ColumnRowAt(boards[b].columns, b, c);
  }

  lemma {:induction false} ColumnRowAt(columns: seq<SeedColumn>, boardId: nat, c: nat)
    requires c < |columns|
    ensures ColumnRows(columns, boardId)[c] == ColumnRow(columns[c].name, c, boardId)
  {
    var m := |columns| - 1;
    if c < m {
      ColumnRowAt(columns[..m], boardId, c);
    }
  }

  lemma {:induction false} TaskRowAt(tasks: seq<SeedTask>, columnId: nat, t: nat)
    requires t < |tasks|
    ensures TaskRows(tasks, columnId)[t] == TaskRowOf(tasks[t], t, columnId)
  {
    var m := |tasks| - 1;
    if t < m {
      TaskRowAt(tasks[..m], columnId, t);
    }
  }

  lemma {:induction false} BoardTaskRowsPrefix(columns: seq<SeedColumn>, firstColumnId: nat, n: nat)
    requires n <= |columns|
    ensures var prefix := BoardTaskRows(columns[..n], firstColumnId);
            |prefix| <= |BoardTaskRows(columns, firstColumnId)| && BoardTaskRows(columns, firstColumnId)[..|prefix|] == prefix
  {
    if n < |columns| {
      var m := |columns| - 1;
      var mid := BoardTaskRows(columns[..m], firstColumnId);
      var prefix := BoardTaskRows(columns[..n], firstColumnId);
      BoardTaskRowsPrefix(columns[..m], firstColumnId, n);
      assert columns[..m][..n] == columns[..n];
      assert |prefix| <= |mid| && mid[..|prefix|] == prefix;
      PrefixOfPrefix(BoardTaskRows(columns, firstColumnId), mid, TaskRows(columns[m].tasks, firstColumnId + m), prefix);
    } else {
      assert columns[..n] == columns;
    }
  }

  lemma {:induction false} SeededTasksPrefix(boards: seq<SeedBoard>, n: nat)
    requires n <= |boards|
    ensures var prefix := SeededTasks(boards[..n]);
            |prefix| <= |SeededTasks(boards)| && SeededTasks(boards)[..|prefix|] == prefix
  {
    if n < |boards| {
      var m := |boards| - 1;
      var mid := SeededTasks(boards[..m]);
      var prefix := SeededTasks(boards[..n]);
      SeededTasksPrefix(boards[..m], n);
      assert boards[..m][..n] == boards[..n];
      assert |prefix| <= |mid| && mid[..|prefix|] == prefix;
      PrefixOfPrefix(SeededTasks(boards), mid, BoardTaskRows(boards[m].columns, |SeededColumns(boards[..m])|), prefix);
    } else {
      assert boards[..n] == boards;
    }
  }

  /** Row `j` of board `b`'s task rows sits after the task rows of the boards
      before it; with `BoardTaskRowAt`, task `t` of column `c` of board `b`
      is created with order `t` under that column's row. */
  lemma SeededTaskRowAt(boards: seq<SeedBoard>, b: nat, j: nat)
    requires b < |boards|
    requires j < |BoardTaskRows(boards[b].columns, |SeededColumns(boards[..b])|)|
    ensures var rows := BoardTaskRows(boards[b].columns, |SeededColumns(boards[..b])|);
            && |SeededTasks(boards[..b])| + j < |SeededTasks(boards)|
            && SeededTasks(boards)[|SeededTasks(boards[..b])| + j] == rows[j]
  {
    var before := SeededTasks(boards[..b]);
    var rows := BoardTaskRows(boards[b].columns, |SeededColumns(boards[..b])|);
    var whole := SeededTasks(boards);
    var upTo := SeededTasks(boards[..b + 1]);
    SeededTasksPrefix(boards, b + 1);
    assert |upTo| <= |whole| && whole[..|upTo|] == upTo;
    SeededTasksSnoc(boards, b);
    assert upTo == before + rows;
    PrefixAt(whole, before, rows, j);
  }

  lemma SeededTasksSnoc(boards: seq<SeedBoard>, b: nat)
    requires b < |boards|
    ensures SeededTasks(boards[..b + 1])
         == SeededTasks(boards[..b]) + BoardTaskRows(boards[b].columns, |SeededColumns(boards[..b])|)
  {
    assert boards[..b + 1][..b] == boards[..b];
  }

  /** An element of the middle part of a prefix of `whole`. */
  lemma PrefixAt<T>(whole: seq<T>, before: seq<T>, middle: seq<T>, j: nat)
    requires |before + middle| <= |whole| && whole[..|before + middle|] == before + middle
    requires j < |middle|
    ensures |before| + j < |whole| && whole[|before| + j] == middle[j]
  {
    assert whole[..|before + middle|][|before| + j] == (before + middle)[|before| + j];
  }

  /** Within one board's task rows, task `t` of column `c` follows the rows of
      the columns before it. */
  lemma BoardTaskRowAt(columns: seq<SeedColumn>, first: nat, c: nat, t: nat)
    requires c < |columns| && t < |columns[c].tasks|
    ensures var k := |BoardTaskRows(columns[..c], first)| + t;
            && k < |BoardTaskRows(columns, first)|
            && BoardTaskRows(columns, first)[k] == TaskRowOf(columns[c].tasks[t], t, first + c)
  {
    var before := BoardTaskRows(columns[..c], first);
    var rows := TaskRows(columns[c].tasks, first + c);
    BoardTaskRowsPrefix(columns, first, c + 1);
    assert columns[..c + 1][..c] == columns[..c];
    TaskRowAt(columns[c].tasks, first + c, t);
    assert BoardTaskRows(columns[..c + 1], first) == before + rows;
    PrefixAt(BoardTaskRows(columns, first), before, rows, t);
  }
}
