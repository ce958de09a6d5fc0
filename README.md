# Kanban board: task moves, ordering and form parsing

A model of the core of a kanban web app. Boards own ordered columns and columns own ordered tasks. Tasks are dragged between columns. The page reorders its columns at once, and the server then re-ranks the affected columns in its task table. Around that core sit several small pieces of pure logic: board filters, the task and board forms' text parsers, the validation schemas, error flattening, board and task lookups, the theme switch, and the seed script.

One Dafny module per source file:

- `Dnd` covers `app/lib/board/dnd.ts`: drag id codecs, drop targets and `moveTask`.
- `TaskActions` covers `app/lib/actions/task-actions.ts`. The server store is a class `TaskStore`. Its task table is a map from task id to row, and each row keeps its column and its rank (`order`). It also holds a label table and an assignee table.
- `BoardPage` covers `app/components/board-page/board-page.tsx`: placeholder logic, item ordering, local delete, and a class holding the page's state (`columns`, `activeTaskId`, `selectedTaskId`, `editingTaskId`).
- `Filters`, `TaskForms` (create and edit forms), `BoardCreateForm`, `Schemas`, `ValidationUtils`, `TaskBoard`, `ThemeSwitch` and `Seed` cover the remaining core files.
- `Seqs`, `Text` and `Wrappers` are shared helpers:
  - `Seqs`: remove, insert, remove-all and dedup on sequences;
  - `Text`: the JavaScript string operations the source uses (`trim`, `split`, `join`, first-occurrence `replace`, upper case);
  - `Wrappers`: `Option` and `Result`.

The page's optimistic move is tied to the server's re-ranking by lemmas:

- A drop onto a task of the same column, or into another column, leaves the page showing exactly the order the server writes for the request the page sends.
- A drop onto the empty area of the task's own column is the exception. The page keeps its columns as they were, but the request carries the column's length, so the server moves the task to the end of its column. `BoardPage.OwnColumnDropMovesToEndOnServer` states both halves and that the two orders differ unless the task was already last.

## Model

| member | source | states |
|---|---|---|
| Dnd.FromTaskId | app/lib/board/dnd.ts:15 | on a task drag id, the decoded id is what follows the task prefix |
| Dnd.FromColumnId | app/lib/board/dnd.ts:17 | on a column drag id, the decoded id is what follows the column prefix |
| Dnd.ToTaskId | app/lib/board/dnd.ts:11-15 | an encoded task id is a task drag id, never a column drag id, and decodes back to the original id |
| Dnd.ToColumnId | app/lib/board/dnd.ts:13-17 | an encoded column id is a column drag id, never a task drag id, and decodes back to the original id |
| Dnd.IsTaskDragId | app/lib/board/dnd.ts:20 | an id is a task drag id exactly when it is the task prefix followed by some text, and then it does not start with the column prefix |
| Dnd.IsColumnDragId | app/lib/board/dnd.ts:21 | an id is a column drag id exactly when it is the column prefix followed by some text, and then it does not start with the task prefix |
| Dnd.DragIdKindsAreDisjoint | app/lib/board/dnd.ts:7-8 | no id is both a task drag id and a column drag id |
| Dnd.OwnerIndex | app/lib/board/dnd.ts:24-25 | -1 exactly when no column has the task; otherwise the first column, in column order, that holds it |
| Dnd.FindColumnForTask | app/lib/board/dnd.ts:24-25 | none exactly when no column holds the task; otherwise the first column holding it |
| Dnd.FindTaskById | app/lib/board/dnd.ts:28-34 | none exactly when no column holds the id; otherwise the first task with that id in the owning column |
| Dnd.GetDropTarget | app/lib/board/dnd.ts:37-48 | a column id resolves to that column and no task; a task id to its owning column (or none) and the task; anything else to neither |
| Dnd.ReorderInColumn | app/lib/board/dnd.ts:78-90 | array-move within one column: the moved task lands at the over-task's old index, the others keep their relative order, other columns are unchanged |
| Dnd.TransferBetweenColumns | app/lib/board/dnd.ts:93-112 | the task leaves the source, is inserted at the given index of the target, other columns are unchanged |
| Dnd.FindInsertIndex | app/lib/board/dnd.ts:102-105 | before the over-task when it is in the target column, otherwise at the end |
| Dnd.MoveTask | app/lib/board/dnd.ts:51-113 | the number of columns, their order, ids and names never change |
| Dnd.MoveTaskNoOps | app/lib/board/dnd.ts:56-76 | returns the input when the active id is not a task id, the task is in no column, the target is unresolved or not listed, or the drop is on the task's own column |
| Dnd.MoveTaskOntoItself | app/lib/board/dnd.ts:78-90 | dropping a task on itself changes nothing |
| Dnd.MoveTaskWithinColumn | app/lib/board/dnd.ts:78-90 | a same-column drop onto a task is the array move from the task's index to the over-task's index |
| Dnd.MoveTaskAcrossColumns | app/lib/board/dnd.ts:93-112 | a cross-column drop removes the task from the source and inserts it before the over-task, or at the end |
| Dnd.ReorderKeepsTasks | app/lib/board/dnd.ts:78-90 | the same-column move keeps the board's multiset of tasks |
| Dnd.TransferKeepsTasks | app/lib/board/dnd.ts:93-112 | the cross-column move keeps the board's multiset of tasks |
| Dnd.MoveTaskPreservesTasks | app/lib/board/dnd.ts:51-113 | `moveTask` never loses or duplicates a task |
| Dnd.MoveTaskPreservesIds | app/lib/board/dnd.ts:51-113 | the multiset of task ids is preserved |
| TaskActions.Clamp | app/lib/actions/task-actions.ts:72 | the index is clamped into [0, length] and kept when already inside |
| TaskActions.SpliceIn | app/lib/actions/task-actions.ts:72-73 | the task sits at the clamped index and removing it gives back the list |
| TaskActions.SpliceInDistinct | app/lib/actions/task-actions.ts:64-73 | splicing a new id into distinct ids keeps them distinct; the members are the old ids and the task |
| TaskActions.Resequenced | app/lib/actions/task-actions.ts:16-30 | the writes of `resequenceColumn` touch no key outside the table |
| TaskActions.ResequencedRows | app/lib/actions/task-actions.ts:22-29 | each listed task gets its position as rank (and the column when asked); every other row is unchanged |
| TaskActions.DenseIsOrdered | app/lib/actions/task-actions.ts:22-29 | a column ranked 0..n-1 in list order reads back in that order |
| TaskActions.RankSortedUnique | app/lib/actions/task-actions.ts:49-53 | two rank-sorted lists of the same ids are equal |
| TaskActions.OrderedViewUnique | app/lib/actions/task-actions.ts:49-53 | a column with distinct ranks has exactly one rank-ordered reading |
| TaskActions.ResequenceWholeColumn | app/lib/actions/task-actions.ts:22-29 | rewriting all of a column's tasks leaves it dense in the new order |
| TaskActions.WithinColumnMove | app/lib/actions/task-actions.ts:64-77 | the same-column move leaves the column dense with the task spliced at the clamped index, other rows unchanged and ranks unique |
| TaskActions.CrossMoveIdsHold | app/lib/actions/task-actions.ts:64-73 | the source list without the task and the target list with it are distinct, disjoint and from the right columns |
| TaskActions.AcrossColumnsRows | app/lib/actions/task-actions.ts:80-81 | after both writes, source tasks carry their new ranks, target tasks their ranks and the target column, others are unchanged |
| TaskActions.AcrossColumnsDense | app/lib/actions/task-actions.ts:80-81 | after both writes, both columns are dense in their new orders |
| TaskActions.AcrossColumnsUnique | app/lib/actions/task-actions.ts:80-81 | after both writes, no two tasks of a column share a rank |
| TaskActions.AcrossColumnsMove | app/lib/actions/task-actions.ts:64-81 | the cross-column move does what the move predicate says and keeps ranks unique |
| TaskActions.ConnectOrCreate | app/lib/actions/task-actions.ts:135-147 | the assignee table gains exactly the new names; existing entries keep their initials |
| TaskActions.ConnectOrCreateFirstWins | app/lib/actions/task-actions.ts:135-147 | a name new to the table gets the initials of its first entry in the list |
| TaskActions.Upsert | app/lib/actions/task-actions.ts:205-213 | the table gains the given names; names not given keep their initials |
| TaskActions.UpsertLastWins | app/lib/actions/task-actions.ts:205-213 | each given name ends with the initials of its last entry in the list |
| TaskActions.UpsertAppend | app/lib/actions/task-actions.ts:205-213 | one more entry is one more write to the table |
| TaskActions.AddAboveKeepsRanks | app/lib/actions/task-actions.ts:109-123 | a new task ranked above all of its column keeps ranks unique |
| TaskActions.RewriteKeepsRanks | app/lib/actions/task-actions.ts:176-221 | rewriting a task without changing its column or rank keeps ranks unique |
| TaskActions.PatchRow | app/lib/actions/task-actions.ts:176-184 | given fields are written, omitted ones and an empty due date leave the row's value, rank and column untouched |
| TaskActions.TaskStore.LowestRanked | app/lib/actions/task-actions.ts:49-53 | the candidate with the lowest rank |
| TaskActions.TaskStore.FindColumnTasks | app/lib/actions/task-actions.ts:49-62 | exactly the column's tasks, in ascending rank order |
| TaskActions.TaskStore.ResequenceColumn | app/lib/actions/task-actions.ts:16-30 | the table becomes the sequence of writes; the label and assignee tables are unchanged |
| TaskActions.TaskStore.MoveTaskAction | app/lib/actions/task-actions.ts:32-86 | an unknown task changes nothing; otherwise the rewritten columns end dense with the task spliced at the clamped index, the task takes the target column, no id is lost or added, ranks stay unique |
| TaskActions.TaskStore.NextOrder | app/lib/actions/task-actions.ts:109-115 | one past the highest rank of the column, 0 for an empty column |
| TaskActions.TaskStore.CreateTaskAction | app/lib/actions/task-actions.ts:99-152 | the new task ranks one past the column's highest (0 in an empty column), with priority default medium, description default "", and labels and assignees connected or created by name; nothing else changes |
| TaskActions.TaskStore.UpdateTaskAction | app/lib/actions/task-actions.ts:165-226 | fails and changes nothing for an unknown task; otherwise given fields are written, given labels or assignees replace the task's links entirely, omitted ones are kept |
| TaskActions.TaskStore.ReplaceLabels | app/lib/actions/task-actions.ts:186-201 | the task's labels become exactly the given list; missing labels are created |
| TaskActions.TaskStore.ReplaceAssignees | app/lib/actions/task-actions.ts:203-221 | the task's assignees become exactly the given list; the table takes each given entry's initials |
| TaskActions.TaskStore.DeleteTaskAction | app/lib/actions/task-actions.ts:233-239 | only that task is removed; sibling ranks are not renumbered |
| BoardPage.DecodeTaskDragId | app/components/board-page/board-page.tsx:175-194 | an id that is a task drag id decodes to what follows the prefix; anything else to none |
| BoardPage.GetPlaceholderState | app/components/board-page/board-page.tsx:175-194 | shown only while a task is dragged over this column or one of its tasks; at the over-task's index, or at the column's length over the column |
| BoardPage.ItemsStep | app/components/board-page/board-page.tsx:205-249 | one loop step keeps the cards in order and the placeholder count at most one |
| BoardPage.BuildColumnItems | app/components/board-page/board-page.tsx:197-250 | every task in order, plus exactly one placeholder at its index when drawn and none otherwise; an empty column without placeholder gives no items |
| BoardPage.WithoutTask | app/components/board-page/board-page.tsx:252-259 | no task with the id remains; the rest keep their order |
| BoardPage.WithoutTaskMembers | app/components/board-page/board-page.tsx:252-259 | exactly the tasks with other ids are kept |
| BoardPage.RemoveTaskFromColumns | app/components/board-page/board-page.tsx:252-259 | every column stays, with its id and name; no column holds the task afterwards |
| BoardPage.RemoveAbsentTask | app/components/board-page/board-page.tsx:252-259 | removing a task no column holds changes nothing |
| BoardPage.RemoveTaskIdempotent | app/components/board-page/board-page.tsx:252-259 | removing twice is removing once |
| BoardPage.WithoutTaskIds | app/components/board-page/board-page.tsx:252-259 | the ids left are the old ids with that id removed |
| BoardPage.LocalDeleteMatchesServer | app/components/board-page/board-page.tsx:416-423 | after an accepted delete, each column the page shows is the server's rank order without the task |
| BoardPage.DropRequest | app/components/board-page/board-page.tsx:514-562 | no request without an over, for a non-task drag id, or for an unresolved target; otherwise the target column and the over-task's index, or the column's length |
| BoardPage.RequestIndexIsInsertIndex | app/components/board-page/board-page.tsx:540-552 | the index the request carries is the index `moveTask` inserts at |
| BoardPage.PlaceholderOverColumnAtRequestedIndex | app/components/board-page/board-page.tsx:175-194 | a placeholder shown over a column sits where the request puts the task |
| BoardPage.PlaceholderOverTaskAtRequestedIndex | app/components/board-page/board-page.tsx:175-194 | a placeholder shown over a task sits at the index the request carries |
| BoardPage.ReorderRequest | app/components/board-page/board-page.tsx:540-552 | a same-column drop onto a task requests the over-task's index |
| BoardPage.ReorderIds | app/components/board-page/board-page.tsx:544-545 | the page's new order is the server's splice of the task at that index |
| BoardPage.OptimisticReorderMatchesServer | app/components/board-page/board-page.tsx:544-552 | for a same-column drop, the page's new order is exactly the order the server writes |
| BoardPage.TransferIds | app/components/board-page/board-page.tsx:544-545 | the page's new source and target orders are the server's lists without and with the task |
| BoardPage.OptimisticTransferMatchesServer | app/components/board-page/board-page.tsx:544-552 | for a cross-column drop, both columns the page shows are the orders the server writes |
| BoardPage.OwnColumnDrop | app/components/board-page/board-page.tsx:540-552 | a drop on the own column's empty area keeps the page's columns and requests the column's length |
| BoardPage.SpliceAtEnd | app/lib/actions/task-actions.ts:64-73 | the server puts the task last; the order changes unless it was already last |
| BoardPage.OwnColumnDropMovesToEndOnServer | app/components/board-page/board-page.tsx:540-552 | the page keeps the order but the server moves the task to the end, so the two disagree unless the task was last |
| BoardPage.BoardPage.constructor | app/components/board-page/board-page.tsx:335-341 | the board's columns, nothing dragged, selected or edited |
| BoardPage.BoardPage.HandleTaskOpen | app/components/board-page/board-page.tsx:399-401 | selects the task, nothing else changes |
| BoardPage.BoardPage.HandleTaskEdit | app/components/board-page/board-page.tsx:406-408 | marks the task for editing, nothing else changes |
| BoardPage.BoardPage.HandleDragStart | app/components/board-page/board-page.tsx:507-512 | the active task is set only for a task drag id |
| BoardPage.BoardPage.HandleDragEnd | app/components/board-page/board-page.tsx:514-562 | every path clears the active task; without a request the columns stay; with one the columns become `moveTask` of the old columns and the snapshot is kept |
| BoardPage.BoardPage.CompleteMove | app/components/board-page/board-page.tsx:555-558 | a failed move restores exactly the snapshot |
| BoardPage.BoardPage.HandleDragCancel | app/components/board-page/board-page.tsx:564-566 | clears the active task, nothing else changes |
| BoardPage.BoardPage.RunTaskDelete | app/components/board-page/board-page.tsx:410-426 | on failure nothing changes; on success the task is removed and selection and edit target are cleared only if they were that task |
| Filters.TaskMatchesFilters | app/lib/board/filters.ts:14-27 | a task passes iff its priority is selected or none are, and it shares a label with the selection or none are selected |
| Filters.GetDefaultBoardFilters | app/lib/board/filters.ts:30-34 | shows empty columns and every task passes |
| Filters.GetBoardFilterCount | app/lib/board/filters.ts:37-40 | zero exactly for the defaults; at least the number of selected priorities and labels |
| Filters.GetBoardFilterOptions | app/lib/board/filters.ts:43 | the four priorities, each once, most pressing first |
| Filters.FilterOptionsCoverPriorities | app/lib/board/filters.ts:11 | every priority is offered |
| Filters.Toggled | app/lib/board/filters.ts:50-52 | flips the value's membership and keeps every other member |
| Filters.ToggledTwice | app/lib/board/filters.ts:50-52 | toggling twice restores the members, and the list itself when the value was absent |
| Filters.TogglePriorityFilter | app/lib/board/filters.ts:46-55 | flips one priority; labels and the empty-column switch are unchanged |
| Filters.ToggleLabelFilter | app/lib/board/filters.ts:58-67 | flips one label; priorities and the empty-column switch are unchanged |
| Filters.TogglePriorityTwice | app/lib/board/filters.ts:46-55 | toggling one priority twice restores the selection |
| Filters.ToggleLabelTwice | app/lib/board/filters.ts:58-67 | toggling one label twice restores the selection |
| Filters.SetShowEmptyColumns | app/lib/board/filters.ts:70-76 | only the empty-column switch changes, and the count moves by one accordingly |
| Filters.ClearBoardFilters | app/lib/board/filters.ts:80-81 | whatever came before, nothing is counted and every task passes |
| Filters.LexTotal | app/lib/board/filters.ts:94 | the label order is total |
| Filters.LexTransitive | app/lib/board/filters.ts:94 | the label order is transitive |
| Filters.LexAntisymmetric | app/lib/board/filters.ts:94 | the label order is antisymmetric |
| Filters.InsertSorted | app/lib/board/filters.ts:94 | inserting into a sorted list keeps it sorted and adds exactly the element |
| Filters.SortLabels | app/lib/board/filters.ts:94 | sorted, and a permutation of the input |
| Filters.SortedDistinctUnique | app/lib/board/filters.ts:84-95 | a sorted list without repeats is determined by its members |
| Filters.CollectBoardLabels | app/lib/board/filters.ts:84-95 | every label used on the board, each exactly once, sorted |
| Filters.AddTaskLabels | app/lib/board/filters.ts:87-91 | the set after the inner loops holds exactly the old members and the tasks' labels |
| Filters.MatchingTasks | app/lib/board/filters.ts:105-111 | an order-preserving subsequence holding exactly the matching tasks |
| Filters.NarrowedColumns | app/lib/board/filters.ts:104-118 | each column in place with only its matching tasks |
| Filters.FilteredColumns | app/lib/board/filters.ts:98-122 | an order-preserving subsequence of the narrowed columns; all of them when empty columns are shown |
| Filters.FilteredColumnsMembers | app/lib/board/filters.ts:113-118 | a column is kept iff it is a narrowed column and empty columns are shown or it has a matching task |
| Filters.FilterBoardColumns | app/lib/board/filters.ts:98-122 | the loop computes the filtered columns |
| Filters.CollectMatchingTasks | app/lib/board/filters.ts:105-111 | the inner loop computes the matching tasks |
| TaskForms.GetInitials | app/components/task-create-form/task-create-form.tsx:32-39 | at most two characters |
| TaskForms.InitialsOfOneWord | app/components/task-create-form/task-create-form.tsx:35 | a one-word name gives its first two characters, upper-cased |
| TaskForms.InitialsOfWords | app/components/task-create-form/task-create-form.tsx:37-38 | a name of several words gives the first character of the first word and of the last word, upper-cased |
| TaskForms.InitialsNotBlank | app/components/task-create-form/task-create-form.tsx:32-39 | a non-blank name gives non-blank initials |
| TaskForms.InitialsOfTrimmed | app/components/task-create-form/task-create-form.tsx:33 | padding around the name does not change the initials |
| TaskForms.NonEmpty | app/components/task-create-form/task-create-form.tsx:45 | a subsequence of the input with no empty item, whose length is the input's length less its empty items: every non-empty item, as often as it occurs, in order |
| TaskForms.NonEmptyKeepsRepeats | app/components/task-create-form/task-create-form.tsx:45 | the kept items are the input's items with the empty ones removed, counted with repetition |
| TaskForms.ParseCommaList | app/components/task-create-form/task-create-form.tsx:41-45 | trimmed, non-empty, comma-free items: a subsequence of the trimmed pieces that omits exactly the empty ones, so every non-empty piece is kept, as often as it occurs, in input order |
| TaskForms.ParseCommaListKeepsRepeats | app/components/task-create-form/task-create-form.tsx:41-45 | a repeated piece such as `bug, bug` comes back as often as it was typed |
| TaskForms.ParseBlank | app/components/task-create-form/task-create-form.tsx:41-45 | blank input yields no items |
| TaskForms.ParseCommaListOfJoin | app/components/task-edit-form/task-edit-form.tsx:28-32 | list items joined with ", " read back as the same items |
| TaskForms.ParseCommaListStable | app/components/task-create-form/task-create-form.tsx:41-45 | re-parsing the joined result of a parse gives the same items |
| TaskForms.ParseAssigneeEntry | app/components/task-create-form/task-create-form.tsx:49-58 | none iff the trimmed text before the first colon is empty; otherwise a trimmed, non-empty, colon-free name |
| TaskForms.EntryWithInitials | app/components/task-create-form/task-create-form.tsx:50-57 | "Name : XY" gives the trimmed name and initials; text after a second colon is ignored |
| TaskForms.EntryWithBlankInitials | app/components/task-create-form/task-create-form.tsx:56 | blank initials fall back to the name's initials |
| TaskForms.EntryWithoutInitials | app/components/task-create-form/task-create-form.tsx:56 | a name alone gets the initials derived from it |
| TaskForms.EntryWithoutName | app/components/task-create-form/task-create-form.tsx:53 | an entry with nothing before its first colon is dropped |
| TaskForms.Present | app/components/task-create-form/task-create-form.tsx:59 | the values, wrapped again, form a subsequence of the input as long as its number of present results: all present values, in order |
| TaskForms.PresentKeepsAll | app/components/task-create-form/task-create-form.tsx:59 | no present value is dropped |
| TaskForms.ParseEntries | app/components/task-create-form/task-create-form.tsx:49-59 | every kept assignee has a trimmed non-empty name and non-blank initials; the result is every entry that parses, in order |
| TaskForms.ParseAssignees | app/components/task-create-form/task-create-form.tsx:47-59 | the parse of every comma item that reads as an assignee, in item order, and nothing else; each has a trimmed non-empty name and non-blank initials |
| TaskForms.ParseAssigneesKeepsEntries | app/components/task-create-form/task-create-form.tsx:47-59 | every comma item that reads as an assignee is returned |
| TaskForms.LabelsPrefill | app/components/task-edit-form/task-edit-form.tsx:178 | trimmed, non-empty, comma-free labels come back unchanged when the prefilled field is parsed |
| TaskForms.AssigneesPrefill | app/components/task-edit-form/task-edit-form.tsx:190-192 | for assignees whose fields are trimmed, non-empty and free of `,` and `:`, the comma list of the prefilled field is exactly their `name:initials` entries |
| TaskForms.EntryRoundTrip | app/components/task-edit-form/task-edit-form.tsx:190-192 | one prefilled `name:initials` entry reads back as that name and initials |
| TaskForms.AssigneesPrefillRoundTrip | app/components/task-edit-form/task-edit-form.tsx:190-192 | assignees whose fields are trimmed, non-empty and free of `,` and `:` come back unchanged |
| TaskForms.DueDatePrefill | app/components/task-edit-form/task-edit-form.tsx:149 | the first ten characters of the stored date, or all of a shorter one |
| TaskForms.DueDatePrefillIdempotent | app/components/task-edit-form/task-edit-form.tsx:149 | prefilling a prefilled date changes nothing |
| TaskForms.FieldText | app/components/task-create-form/task-create-form.tsx:82-84 | the text is trimmed |
| TaskForms.OptionalDate | app/components/task-create-form/task-create-form.tsx:101 | an empty date is sent as undefined, any other as itself |
| TaskForms.CreateTaskPayload | app/components/task-create-form/task-create-form.tsx:76-105 | texts trimmed, priority default medium, column default the first column's id (or ""), empty due date undefined, parsed labels and assignees |
| TaskForms.EditTaskPayload | app/components/task-edit-form/task-edit-form.tsx:59-85 | the same fields for the task's id; an empty due date is sent as undefined |
| TaskForms.ParsedListsAreFilled | app/components/task-create-form/task-create-form.tsx:89-92 | parsed labels and assignees never trip the schema's blank checks |
| TaskForms.CreatePayloadAccepted | app/components/task-create-form/task-create-form.tsx:76-105 | the create form's payload passes the task create schema iff title and column are filled, the priority is valid and the date passes |
| TaskForms.EditFormDefaults | app/components/task-edit-form/task-edit-form.tsx:112-192 | each field shows the stored value, the date cut to ten characters |
| TaskForms.UnchangedEditRoundTrip | app/components/task-edit-form/task-edit-form.tsx:59-85 | submitting the edit form unchanged sends back the task's priority, labels and assignees |
| BoardCreateForm.BoardPayload | app/components/board-create-form/board-create-form.tsx:30-45 | name and description trimmed; the columns are the parsed list, or the defaults when it is empty; never empty |
| BoardCreateForm.BlankColumnsGiveDefaults | app/components/board-create-form/board-create-form.tsx:44 | a blank or missing column field gives Backlog, In Progress, Done |
| BoardCreateForm.PayloadColumnsAreItems | app/components/board-create-form/board-create-form.tsx:33-37 | every submitted column name is trimmed, non-empty and comma-free |
| BoardCreateForm.DefaultColumnsAreItems | app/components/board-create-form/board-create-form.tsx:9 | the default names are list items |
| BoardCreateForm.TrimmedPayloadAccepted | app/lib/validation/schemas.ts:8-12 | a trimmed payload passes iff its name is non-empty, and passes unchanged |
| BoardCreateForm.BoardPayloadAccepted | app/components/board-create-form/board-create-form.tsx:30-45 | the form's payload passes the board create schema iff the name is not blank |
| Schemas.ParsePriority | app/lib/validation/schemas.ts:3 | exactly urgent, high, medium and low are accepted, each as its priority |
| Schemas.PriorityRoundTrip | app/lib/validation/schemas.ts:3 | every priority survives the trip through its name |
| Schemas.HasValidDate | app/lib/validation/schemas.ts:5-6 | an absent or empty date passes whatever the parser says; any other text passes exactly when it parses as a date |
| Schemas.BlankIssues | app/lib/validation/schemas.ts:11 | no issue iff no element is blank |
| Schemas.OptionalBlankIssues | app/lib/validation/schemas.ts:39 | no issue iff the list is absent or has no blank element |
| Schemas.AssigneeIssues | app/lib/validation/schemas.ts:40-47 | no issue iff every name and every initials is non-blank |
| Schemas.FieldErrors | app/lib/validation/schemas.ts:29-48 | exactly the fields with at least one issue, with their issues |
| Schemas.ParseBoardCreate | app/lib/validation/schemas.ts:8-12 | accepted iff the name and every given column are non-blank; accepted values are trimmed |
| Schemas.ParseBoardUpdate | app/lib/validation/schemas.ts:14-23 | accepted iff the board id is non-blank, a given name non-blank, and a name or description is given; a rejection carries the form-level message exactly when neither is given, even alongside field errors, and a field error exactly for a blank id or a blank given name |
| Schemas.ParseBoardDelete | app/lib/validation/schemas.ts:25-27 | accepted iff the board id is non-blank; otherwise the board-required message |
| Schemas.CreateIssues | app/lib/validation/schemas.ts:29-48 | the issues of each checked field, by field |
| Schemas.ParseTaskCreate | app/lib/validation/schemas.ts:29-48 | accepted iff board, column and title are non-blank, the date passes, a given priority is valid and the lists have no blanks; priority defaults to medium |
| Schemas.ParseTaskMove | app/lib/validation/schemas.ts:50-55 | accepted iff the three ids are non-blank and the index is a non-negative integer |
| Schemas.TaskMoveIdempotent | app/lib/validation/schemas.ts:50-55 | an accepted move is accepted again unchanged |
| Schemas.ParseTaskUpdate | app/lib/validation/schemas.ts:57-87 | accepted iff the ids are non-blank, each given field passes, and some field is given; a rejection carries the form-level message exactly when no field is given, even alongside field errors, and otherwise has field errors |
| Schemas.EmptyUpdateRejected | app/lib/validation/schemas.ts:78-87 | an update with valid ids naming nothing to change is rejected at form level only |
| Schemas.BlankBoardEmptyUpdateReportsBoth | app/lib/validation/schemas.ts:57-87 | a blank board id and nothing to change give both the board message and the form-level message |
| Schemas.ParseTaskDelete | app/lib/validation/schemas.ts:89-92 | accepted iff both ids are non-blank; accepted ids are trimmed |
| ValidationUtils.FormatZodErrors | app/lib/validation/utils.ts:3-18 | the loop and the form write compute the formatted record |
| ValidationUtils.AbsentField | app/lib/validation/utils.ts:7-11 | a key no entry names is not in the field record |
| ValidationUtils.FieldReportsFirstMessage | app/lib/validation/utils.ts:7-11 | each field with a message maps to its first message |
| ValidationUtils.EmptyFieldAbsent | app/lib/validation/utils.ts:8 | a field with no messages is absent |
| ValidationUtils.FormKeyReportsFormErrors | app/lib/validation/utils.ts:13-15 | with form-level errors, `form` holds the first of them, even over a field named `form`; with no field named `form`, the key is present iff there are form errors |
| ValidationUtils.UnknownKeyAbsent | app/lib/validation/utils.ts:3-18 | only the entries' fields and `form` can appear as keys |
| TaskBoard.TaskIndex | app/components/board-page/board-page.tsx:540-542 | -1 iff no task has the id; otherwise the first position holding it |
| TaskBoard.ColumnIndex | app/lib/board/dnd.ts:66-71 | -1 iff no column has the id; otherwise the first position holding it |
| TaskBoard.GetBoardById | app/lib/data/task-board.ts:169-170 | the first board with that id, or none |
| TaskBoard.GetTaskById | app/lib/data/task-board.ts:172-192 | none when the board does not exist; otherwise the first column, in order, holding the task, with that task; none when no column has it |
| TaskBoard.CountBoardTasks | app/lib/data/task-board.ts:194-195 | the count is the number of tasks on the board |
| TaskBoard.CountIsNumberOfTasks | app/lib/data/task-board.ts:194-195 | the sum of the columns' task counts is the number of tasks on the board |
| TaskBoard.FlattenUpdate | app/lib/data/task-board.ts:194-195 | replacing one column changes the board's tasks by exactly that column's tasks |
| ThemeSwitch.ActiveTheme | app/components/theme-switch/theme-switch.tsx:13 | an unset theme is treated as system |
| ThemeSwitch.NextTheme | app/components/theme-switch/theme-switch.tsx:15-27 | light gives dark, dark gives system, anything else light |
| ThemeSwitch.NextDiffers | app/components/theme-switch/theme-switch.tsx:15-27 | the next theme always differs from the current one |
| ThemeSwitch.ThreeStepsReturn | app/components/theme-switch/theme-switch.tsx:15-27 | three steps return every mode to itself |
| ThemeSwitch.ClicksCycle | app/components/theme-switch/theme-switch.tsx:13-27 | from any stored theme, three clicks after the first return to the first click's mode |
| Seed.AddEachIsDedup | prisma/seed.ts:144-149 | adding to a set in order keeps each element once, in first-appearance order |
| Seed.AddLabels | prisma/seed.ts:148-150 | the innermost loop adds one task's labels |
| Seed.AddTaskLabels | prisma/seed.ts:147-151 | the loop over a column's tasks adds their labels |
| Seed.CollectUniqueLabels | prisma/seed.ts:143-155 | every used label exactly once, in first-appearance order |
| Seed.CollectedLabels | prisma/seed.ts:143-155 | the result is distinct, holds exactly the used labels, and lists them by first appearance |
| Seed.TaskLabelCollected | prisma/seed.ts:228-231 | every label a seeded task names is among the collected labels |
| Seed.Put | prisma/seed.ts:164 | a new name is appended; a known name keeps its place and takes the new assignee |
| Seed.UniqueNames | prisma/seed.ts:158-170 | one entry per name, in first-appearance order |
| Seed.UniqueKeepsLast | prisma/seed.ts:158-170 | each entry holds the last assignee seen with its name, so its initials come from the last occurrence |
| Seed.PutAssignees | prisma/seed.ts:163-165 | the innermost loop sets one task's assignees |
| Seed.PutTaskAssignees | prisma/seed.ts:162-166 | the loop over a column's tasks sets their assignees |
| Seed.CollectUniqueAssignees | prisma/seed.ts:158-170 | the map's entries after every `set`, in insertion order |
| Seed.TaskAssigneeCollected | prisma/seed.ts:233-236 | every assignee a seeded task names has an entry under that name |
| Seed.CreateTasks | prisma/seed.ts:219-240 | one column's task rows are created with orders 0..n-1 in list order |
| Seed.CreateColumns | prisma/seed.ts:210-241 | one board's column rows are created with their positions as order, each followed by its tasks |
| Seed.SeedBoardsAndTasks | prisma/seed.ts:201-243 | the boards, columns and tasks are created in order |
| Seed.SeededColumnOrder | prisma/seed.ts:210-216 | column c of board b is created with order c under board b |
| Seed.BoardTaskRowAt | prisma/seed.ts:219-227 | task t of column c is created with order t under column c |
| Seed.SeededTaskRowAt | prisma/seed.ts:219-227 | the rows of a board's tasks come after those of the boards before it |

## Left out

- Concurrency and atomicity: the writes of `moveTaskAction` go to `prisma` rather than to the transaction, and they run in parallel (`Promise.all`). The model runs one move at a time with writes in list order, and claims no atomicity.
- Overlapping React transitions, several moves in flight, and dnd-kit sensors. `HandleDragEnd` applies `moveTask` to the current columns, and `CompleteMove` is the end of the same move.
- Action results: the shown move, create and delete actions return nothing, while the page reads `result.ok` and `result.message`. The server's answer is an `ok: bool` input of `CompleteMove` and `RunTaskDelete`, and the toast message is not modelled.
- UI rendering, dialogs, toasts, router refreshes and `revalidatePath`: presentation and framework effects. Of `buildColumnItems`, only the order of items is kept.
- Task duplication (`runTaskDuplicate`) and board deletion on the page: outside the move, delete and selection core.
- Prisma, SQLite and the seed script's `clearDatabase`: the store is an in-memory map. Seeding starts from empty tables, and a created row's id is its position in its table.
- Task ids created by the database: `CreateTaskAction` takes the new id as a parameter that must not already be in the table.
- `Date.parse`: date validity is a predicate parameter `dateOk`. `new Date(dueDate)` is kept as the string. `new Date()` is a `now` parameter.
- `localeCompare`: replaced by lexicographic order on character codes, which is total, so the sort and uniqueness proofs rest only on that.
- `toUpperCase`: ASCII upper case only.
- Zod internals: each schema is a function to a parsed value or to a flattened rejection, with the schema's own messages.
- Move inputs that are not integers: the server's `toIndex` is an `int`. The schema model takes the index as a real and rejects fractions and negatives. NaN and infinities are not modelled.
- The `?? 'Invalid value.'` and `?? 'Invalid input.'` fallbacks in `formatZodErrors`: they are unreachable after the length checks and are not modelled.
- The create and edit forms define the same parsers twice. They are modelled once, in `TaskForms`.
- TaskActions.TaskStore.MoveTaskAction: requires that no two tasks of one column share a rank. The source does not check this, but the dense rewrite is only well defined under it, and every action keeps it.
- TaskActions.TaskStore.NextOrder: requires unique ranks, like the move. `findFirst` ordered by rank descending returns the highest rank whatever the ties.
- TaskActions.TaskStore.CreateTaskAction: requires unique ranks and a fresh id. Label and assignee link rows are kept as name lists on the task row, so link ids are not modelled.
- Dnd.MoveTask: its own contract states only the shape (column count, ids and names). Its behaviour is stated by `MoveTaskNoOps`, `MoveTaskWithinColumn`, `MoveTaskAcrossColumns` and the preservation lemmas.
- TaskForms.GetInitials: its own contract states only the length. The content is stated by `InitialsOfOneWord` and `InitialsOfWords`.
- TaskForms.GetInitials: a string here is a sequence of Unicode characters, while JavaScript slices and indexes UTF-16 code units. The two agree only on text within the Basic Multilingual Plane. For a name starting with a character outside it, such as an emoji, the source takes half of a surrogate pair or one character where the model takes two: `"😀x"` gives `"😀"` in the source and `"😀X"` here. `DueDatePrefill`'s `slice(0, 10)` and the `trim` and `split` helpers count the same way.
