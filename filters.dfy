/** The board filters: which tasks a filter state lets through, the filter
    state's own operations, the label menu, and the filtered column list. */
module Filters {
  import opened Seqs
  import opened TaskBoard

  datatype BoardFilters = BoardFilters(priorities: seq<Priority>, labels: seq<string>, showEmpty: bool)

  /** `taskMatchesFilters`: a task passes when its priority is selected or no
      priority is, and it carries a selected label or no label is selected. */
  function TaskMatchesFilters(task: Task, filters: BoardFilters): (r: bool)
    ensures r <==>
              && (filters.priorities == [] || task.priority in filters.priorities)
              && (filters.labels == [] || exists l :: l in task.labels && l in filters.labels)
  {
    if |filters.priorities| > 0 && task.priority !in filters.priorities then false
    else if |filters.labels| == 0 then true
    else exists k :: 0 <= k < |task.labels| && task.labels[k] in filters.labels
  }

  /** `getDefaultBoardFilters`: nothing selected, empty columns shown, so
      every task passes. */
  function GetDefaultBoardFilters(): (r: BoardFilters)
    ensures r.showEmpty
    ensures forall task :: TaskMatchesFilters(task, r)
  {
    BoardFilters([], [], true)
  }

  /** `getBoardFilterCount`: one per selected priority and label, and one for
      hiding empty columns; zero exactly for the default state. */
  function GetBoardFilterCount(filters: BoardFilters): (n: nat)
    ensures n == 0 <==> filters == GetDefaultBoardFilters()
    ensures n >= |filters.priorities| + |filters.labels|
  {
    |filters.priorities| + |filters.labels| + (if filters.showEmpty then 0 else 1)
  }

  /** `getBoardFilterOptions`: each priority once, most pressing first. */
  function GetBoardFilterOptions(): (r: seq<Priority>)
    ensures Distinct(r) && |r| == 4
    ensures r[0] == Urgent && r[3] == Low
  {
    [Urgent, High, Medium, Low]
  }

  /** Every priority is offered. */
  lemma FilterOptionsCoverPriorities(p: Priority)
    ensures p in GetBoardFilterOptions()
  {
    var r := GetBoardFilterOptions();
    match p
    case Urgent => assert r[0] == p;
    case High => assert r[1] == p;
    case Medium => assert r[2] == p;
    case Low => assert r[3] == p;
  }

  /** `values.includes(value) ? values.filter((v) => v !== value) : [...values, value]`:
      flips the membership of `value` and of nothing else. */
  function Toggled<T(==,!new)>(values: seq<T>, value: T): (r: seq<T>)
    ensures value in r <==> value !in values
    ensures forall v :: v != value ==> (v in r <==> v in values)
    ensures Distinct(values) ==> Distinct(r)
  {
    if value in values then
      RemoveAllMembers(values, value);
      if Distinct(values) then
        RemoveAllDistinctKept(values, value);
        RemoveAll(values, value)
      else
        RemoveAll(values, value)
    else
      values + [value]
  }

  /** Toggling twice gives back the same members; when the value was not
      selected, it gives back the very same list. */
  lemma ToggledTwice<T(!new)>(values: seq<T>, value: T)
    ensures forall v :: v in Toggled(Toggled(values, value), value) <==> v in values
    ensures value !in values ==> Toggled(Toggled(values, value), value) == values
  {
    if value !in values {
      RemoveAllAppend(values, value, value);
      RemoveAllAbsent(values, value);
    }
  }

  /** `togglePriorityFilter`: flips one priority, leaves the rest of the state. */
  function TogglePriorityFilter(filters: BoardFilters, priority: Priority): (r: BoardFilters)
    ensures priority in r.priorities <==> priority !in filters.priorities
    ensures forall p :: p != priority ==> (p in r.priorities <==> p in filters.priorities)
    ensures r.labels == filters.labels && r.showEmpty == filters.showEmpty
  {
    filters.(priorities := Toggled(filters.priorities, priority))
  }

  /** `toggleLabelFilter`: flips one label, leaves the rest of the state. */
  function ToggleLabelFilter(filters: BoardFilters, labelName: string): (r: BoardFilters)
    ensures labelName in r.labels <==> labelName !in filters.labels
    ensures forall l :: l != labelName ==> (l in r.labels <==> l in filters.labels)
    ensures r.priorities == filters.priorities && r.showEmpty == filters.showEmpty
  {
    filters.(labels := Toggled(filters.labels, labelName))
  }

  /** Toggling the same priority twice restores the selection. */
  lemma TogglePriorityTwice(filters: BoardFilters, priority: Priority)
    ensures var r := TogglePriorityFilter(TogglePriorityFilter(filters, priority), priority);
            && (forall p :: p in r.priorities <==> p in filters.priorities)
            && r.labels == filters.labels && r.showEmpty == filters.showEmpty
            && (priority !in filters.priorities ==> r == filters)
  {
    ToggledTwice(filters.priorities, priority);
  }

  /** Toggling the same label twice restores the selection. */
  lemma ToggleLabelTwice(filters: BoardFilters, labelName: string)
    ensures var r := ToggleLabelFilter(ToggleLabelFilter(filters, labelName), labelName);
            && (forall l :: l in r.labels <==> l in filters.labels)
            && r.priorities == filters.priorities && r.showEmpty == filters.showEmpty
            && (labelName !in filters.labels ==> r == filters)
  {
    ToggledTwice(filters.labels, labelName);
  }

  /** `setShowEmptyColumns`: only the empty-column switch changes, and the count
      follows it. */
  function SetShowEmptyColumns(filters: BoardFilters, showEmpty: bool): (r: BoardFilters)
    ensures r.showEmpty == showEmpty
    ensures r.priorities == filters.priorities && r.labels == filters.labels
    ensures GetBoardFilterCount(r) + (if showEmpty then 1 else 0)
            == GetBoardFilterCount(filters) + (if filters.showEmpty then 1 else 0)
  {
    filters.(showEmpty := showEmpty)
  }

  /** `clearBoardFilters`: back to the defaults, so nothing is counted and
      every task passes. */
  function ClearBoardFilters(): (r: BoardFilters)
    ensures GetBoardFilterCount(r) == 0
    ensures r.showEmpty && forall task :: TaskMatchesFilters(task, r)
  {
    GetDefaultBoardFilters()
  }

  /** The labels of `tasks`, task after task. */
  function TaskLabels(tasks: seq<Task>): seq<string> {
    if tasks == [] then [] else TaskLabels(tasks[..|tasks| - 1]) + tasks[|tasks| - 1].labels
  }

  /** The labels used on the board, column after column. */
  function BoardLabels(columns: seq<Column>): seq<string> {
    if columns == [] then [] else BoardLabels(columns[..|columns| - 1]) + TaskLabels(columns[|columns| - 1].tasks)
  }

  /** Lexicographic order on character codes, standing in for `localeCompare`. */
  predicate LexLessEq(a: string, b: string)
    decreases |a|
  {
    a == [] || (b != [] && (a[0] < b[0] || (a[0] == b[0] && LexLessEq(a[1..], b[1..]))))
  }

  lemma {:induction false} LexTotal(a: string, b: string)
    ensures LexLessEq(a, b) || LexLessEq(b, a)
    decreases |a|
  {
    if a != [] && b != [] && a[0] == b[0] {
      LexTotal(a[1..], b[1..]);
    }
  }

  lemma {:induction false} LexTransitive(a: string, b: string, c: string)
    requires LexLessEq(a, b) && LexLessEq(b, c)
    ensures LexLessEq(a, c)
    decreases |a|
  {
    if a != [] && a[0] == b[0] && b[0] == c[0] {
      LexTransitive(a[1..], b[1..], c[1..]);
    }
  }

  lemma {:induction false} LexAntisymmetric(a: string, b: string)
    requires LexLessEq(a, b) && LexLessEq(b, a)
    ensures a == b
    decreases |a|
  {
    if a != [] {
      LexAntisymmetric(a[1..], b[1..]);
      assert a == [a[0]] + a[1..] && b == [b[0]] + b[1..];
    }
  }

  lemma {:induction false} LexReflexive(a: string)
    ensures LexLessEq(a, a)
    decreases |a|
  {
    if a != [] {
      LexReflexive(a[1..]);
    }
  }

  predicate Sorted(s: seq<string>) {
    forall i, j :: 0 <= i < j < |s| ==> LexLessEq(s[i], s[j])
  }

  /** `x` put into the sorted `s` in front of the first element not below it. */
  function InsertSorted(s: seq<string>, x: string): (r: seq<string>)
    requires Sorted(s)
    ensures Sorted(r)
    ensures multiset(r) == multiset(s) + multiset{x}
  {
    if s == [] then [x]
    else if LexLessEq(x, s[0]) then
      BelowSorted(x, s);
      assert s == [s[0]] + s[1..];
      [x] + s
    else
      LexTotal(x, s[0]);
      var rest := InsertSorted(s[1..], x);
      assert s == [s[0]] + s[1..];
      AboveInserted(s, x, rest);
      [s[0]] + rest
  }

  /** A string no greater than the first of a sorted list is no greater than any of it. */
  lemma BelowSorted(x: string, s: seq<string>)
    requires Sorted(s) && s != [] && LexLessEq(x, s[0])
    ensures forall j :: 0 <= j < |s| ==> LexLessEq(x, s[j])
  {
    forall j | 0 <= j < |s| ensures LexLessEq(x, s[j]) {
      if j > 0 { LexTransitive(x, s[0], s[j]); }
    }
  }

  /** The first of a sorted list is no greater than anything of the rest with `x` added. */
  lemma AboveInserted(s: seq<string>, x: string, rest: seq<string>)
    requires Sorted(s) && s != [] && LexLessEq(s[0], x)
    requires multiset(rest) == multiset(s[1..]) + multiset{x}
    ensures forall j :: 0 <= j < |rest| ==> LexLessEq(s[0], rest[j])
  {
    forall j | 0 <= j < |rest| ensures LexLessEq(s[0], rest[j]) {
      assert rest[j] in multiset(rest);
      assert rest[j] == x || rest[j] in multiset(s[1..]);
      if rest[j] != x {
        var k :| 0 <= k < |s[1..]| && s[1..][k] == rest[j];
        assert s[k + 1] == rest[j];
      }
    }
  }

  /** `[...labels].sort((a, b) => a.localeCompare(b))`, as an insertion sort. */
  function SortLabels(s: seq<string>): (r: seq<string>)
    ensures Sorted(r)
    ensures multiset(r) == multiset(s)
  {
    if s == [] then []
    else
      assert s == s[..|s| - 1] + [s[|s| - 1]];
      InsertSorted(SortLabels(s[..|s| - 1]), s[|s| - 1])
  }

  /** A sorted list without repeats is determined by its members. */
  lemma {:induction false} SortedDistinctUnique(xs: seq<string>, ys: seq<string>)
    requires Sorted(xs) && Distinct(xs) && Sorted(ys) && Distinct(ys)
    requires forall l :: l in xs <==> l in ys
    ensures xs == ys
    decreases |xs|
  {
    if xs == [] {
      assert forall k :: 0 <= k < |ys| ==> ys[k] in xs;
    } else {
      assert ys != [] by { assert xs[0] in ys; }
      assert xs[0] == ys[0] by {
        assert xs[0] in ys && ys[0] in xs;
        var i :| 0 <= i < |xs| && xs[i] == ys[0];
        var j :| 0 <= j < |ys| && ys[j] == xs[0];
        LexReflexive(xs[0]);
        LexReflexive(ys[0]);
        assert LexLessEq(xs[0], ys[0]) by { if i > 0 { assert LexLessEq(xs[0], xs[i]); } }
        assert LexLessEq(ys[0], xs[0]) by { if j > 0 { assert LexLessEq(ys[0], ys[j]); } }
        LexAntisymmetric(xs[0], ys[0]);
      }
      var xt, yt := xs[1..], ys[1..];
      forall l ensures l in xt <==> l in yt {
        assert xs == [xs[0]] + xt && ys == [ys[0]] + yt;
        assert xs[0] !in xt by { assert forall k :: 0 <= k < |xt| ==> xt[k] == xs[k + 1]; }
        assert ys[0] !in yt by { assert forall k :: 0 <= k < |yt| ==> yt[k] == ys[k + 1]; }
        assert l in xs <==> l == xs[0] || l in xt;
        assert l in ys <==> l == ys[0] || l in yt;
      }
      SortedDistinctUnique(xt, yt);
      assert xs == [xs[0]] + xt && ys == [ys[0]] + yt;
    }
  }

  /** `collectBoardLabels`: every label used on the board, each once, in order. */
  method CollectBoardLabels(board: Board) returns (labels: seq<string>)
    ensures Distinct(labels) && Sorted(labels)
    ensures forall l :: l in labels <==> l in BoardLabels(board.columns)
  {
    var seen: seq<string> := [];
    var c := 0;
    while c < |board.columns|
      invariant 0 <= c <= |board.columns|
      invariant Distinct(seen)
      invariant forall l :: l in seen <==> l in BoardLabels(board.columns[..c])
    {
      var column := board.columns[c];
      seen := AddTaskLabels(seen, column.tasks, BoardLabels(board.columns[..c]));
      assert board.columns[..c + 1][..c] == board.columns[..c];
      c := c + 1;
    }
    assert board.columns[..c] == board.columns;
    labels := SortLabels(seen);
    DistinctCounts(seen);
    DistinctCounts(labels);
    assert forall l :: l in labels <==> l in seen by {
      forall l ensures l in labels <==> l in seen {
        assert l in labels <==> l in multiset(labels);
      }
    }
  }

  /** The inner loops of `collectBoardLabels`: adds the labels of `tasks` to the
      set `seen`, which holds the labels of `before`. */
  method AddTaskLabels(seen: seq<string>, tasks: seq<Task>, ghost before: seq<string>) returns (r: seq<string>)
    requires Distinct(seen)
    requires forall l :: l in seen <==> l in before
    ensures Distinct(r)
    ensures forall l :: l in r <==> l in before + TaskLabels(tasks)
  {
    r := seen;
    var t := 0;
    while t < |tasks|
      invariant 0 <= t <= |tasks|
      invariant Distinct(r)
      invariant forall l :: l in r <==> l in before + TaskLabels(tasks[..t])
    {
      var task := tasks[t];
      var k := 0;
      while k < |task.labels|
        invariant 0 <= k <= |task.labels|
        invariant Distinct(r)
        invariant forall l :: l in r <==> l in before + TaskLabels(tasks[..t]) + task.labels[..k]
      {
        var labelName := task.labels[k];
        if labelName !in r {
          r := r + [labelName];
        }
        assert task.labels[..k + 1] == task.labels[..k] + [labelName];
        k := k + 1;
      }
      assert task.labels[..k] == task.labels;
      assert tasks[..t + 1][..t] == tasks[..t];
      t := t + 1;
    }
    assert tasks[..t] == tasks;
  }

  /** The tasks of `tasks` that pass the filters, in order. */
  function MatchingTasks(tasks: seq<Task>, filters: BoardFilters): (r: seq<Task>)
    ensures IsSubsequence(r, tasks)
    ensures forall t :: t in r <==> t in tasks && TaskMatchesFilters(t, filters)
  {
    if tasks == [] then []
    else
      var last := tasks[|tasks| - 1];
      var kept := MatchingTasks(tasks[..|tasks| - 1], filters);
      assert tasks == tasks[..|tasks| - 1] + [last];
      if TaskMatchesFilters(last, filters) then
        SubsequenceExtendBoth(kept, tasks[..|tasks| - 1], last);
        kept + [last]
      else
        SubsequenceExtend(kept, tasks[..|tasks| - 1], last);
        kept
  }

  /** Every column, in place, with only its matching tasks. */
  function NarrowedColumns(columns: seq<Column>, filters: BoardFilters): (r: seq<Column>)
    ensures |r| == |columns|
    ensures forall k :: 0 <= k < |columns| ==> r[k] == columns[k].(tasks := MatchingTasks(columns[k].tasks, filters))
  {
    seq(|columns|, k requires 0 <= k < |columns| => columns[k].(tasks := MatchingTasks(columns[k].tasks, filters)))
  }

  /** The columns `filterBoardColumns` returns: the narrowed columns in their
      order; with `showEmpty` all of them, otherwise exactly those left with
      at least one task. */
  function FilteredColumns(columns: seq<Column>, filters: BoardFilters): (r: seq<Column>)
    ensures IsSubsequence(r, NarrowedColumns(columns, filters))
    ensures filters.showEmpty ==> r == NarrowedColumns(columns, filters)
  {
    if columns == [] then []
    else
      var n := |columns| - 1;
      var prefix := FilteredColumns(columns[..n], filters);
      var last := columns[n].(tasks := MatchingTasks(columns[n].tasks, filters));
      NarrowedSnoc(columns, filters);
      if filters.showEmpty || |last.tasks| > 0 then
        SubsequenceExtendBoth(prefix, NarrowedColumns(columns[..n], filters), last);
        prefix + [last]
      else
        SubsequenceExtend(prefix, NarrowedColumns(columns[..n], filters), last);
        prefix
  }

  lemma NarrowedSnoc(columns: seq<Column>, filters: BoardFilters)
    requires columns != []
    ensures var n := |columns| - 1;
            NarrowedColumns(columns, filters)
            == NarrowedColumns(columns[..n], filters) + [columns[n].(tasks := MatchingTasks(columns[n].tasks, filters))]
  {
  }

  /** A column is kept exactly when it is a narrowed column and, unless empty
      columns are shown, still holds a task. */
  lemma {:induction false} FilteredColumnsMembers(columns: seq<Column>, filters: BoardFilters)
    ensures forall c :: c in FilteredColumns(columns, filters) <==>
                        c in NarrowedColumns(columns, filters) && (filters.showEmpty || |c.tasks| > 0)
  {
    if columns != [] {
      var n := |columns| - 1;
      FilteredColumnsMembers(columns[..n], filters);
      NarrowedSnoc(columns, filters);
    }
  }

  /** `filterBoardColumns`. */
  method FilterBoardColumns(board: Board, filters: BoardFilters) returns (filteredColumns: seq<Column>)
    ensures filteredColumns == FilteredColumns(board.columns, filters)
  {
    filteredColumns := [];
    var c := 0;
    while c < |board.columns|
      invariant 0 <= c <= |board.columns|
      invariant filteredColumns == FilteredColumns(board.columns[..c], filters)
    {
      var column := board.columns[c];
      var tasks := CollectMatchingTasks(column.tasks, filters);
      if filters.showEmpty || |tasks| > 0 {
        filteredColumns := filteredColumns + [column.(tasks := tasks)];
      }
      assert board.columns[..c + 1][..c] == board.columns[..c];
      c := c + 1;
    }
    assert board.columns[..c] == board.columns;
  }

  /** The inner loop of `filterBoardColumns`: pushes the matching tasks. */
  method CollectMatchingTasks(tasks: seq<Task>, filters: BoardFilters) returns (r: seq<Task>)
    ensures r == MatchingTasks(tasks, filters)
  {
    r := [];
    var t := 0;
    while t < |tasks|
      invariant 0 <= t <= |tasks|
      invariant r == MatchingTasks(tasks[..t], filters)
    {
      var task := tasks[t];
      if TaskMatchesFilters(task, filters) {
        r := r + [task];
      }
      assert tasks[..t + 1][..t] == tasks[..t];
      t := t + 1;
    }
    assert tasks[..t] == tasks;
  }
}
