/** The zod schemas that guard the board and task actions, each stated as a
    function from an input to the parsed value or to the rejection that
    `error.flatten()` would present. */
module Schemas {
  import opened Wrappers
  import opened Text
  import opened TaskBoard
  import opened TaskActions

  /** An issue's message: the schema's own text where it gives one, otherwise
      zod's built-in message for the check that failed. */
  datatype Message =
    | Custom(text: string)
    | TooShort     // a string shorter than `min(1)` after trimming
    | NotInteger   // a number failing `int()`
    | TooSmall     // a number below `min(0)`
    | InvalidEnum  // a value outside `z.enum`

  /** The top-level fields the schemas check, each under its payload key. */
  datatype Field =
    | BoardIdField | NameField | ColumnsField | ColumnIdField | TaskIdField | TitleField
    | DueDateField | PriorityField | LabelsField | AssigneesField | ToColumnIdField | ToIndexField
  {
    function Key(): string {
      match this
      case BoardIdField => "boardId"
      case NameField => "name"
      case ColumnsField => "columns"
      case ColumnIdField => "columnId"
      case TaskIdField => "taskId"
      case TitleField => "title"
      case DueDateField => "dueDate"
      case PriorityField => "priority"
      case LabelsField => "labels"
      case AssigneesField => "assignees"
      case ToColumnIdField => "toColumnId"
      case ToIndexField => "toIndex"
    }
  }

  /** A rejected input, flattened: the messages under each top-level field
      (only fields with at least one issue appear) and the object-level ones. */
  datatype Rejection = Rejection(fieldErrors: map<Field, seq<Message>>, formErrors: seq<Message>)

  const BoardRequired := Custom("Board is required.")
  const BoardNameRequired := Custom("Board name is required.")
  const ColumnRequired := Custom("Column is required.")
  const TaskRequired := Custom("Task is required.")
  const TitleRequired := Custom("Task title is required.")
  const InvalidDueDate := Custom("Due date must be a valid date.")
  const AssigneeNameRequired := Custom("Assignee name is required.")
  const InitialsRequired := Custom("Initials are required.")
  const NothingToUpdate := Custom("At least one field must be updated.")

  /** The wire name of a priority. */
  function PriorityName(p: Priority): string {
    match p
    case Urgent => "urgent"
    case High => "high"
    case Medium => "medium"
    case Low => "low"
  }

  /** `prioritySchema`: exactly the four names are accepted, each as its priority. */
  function ParsePriority(s: string): (r: Option<Priority>)
    ensures r.Some? <==> s == "urgent" || s == "high" || s == "medium" || s == "low"
    ensures r.Some? ==> PriorityName(r.value) == s
  {
    if s == "urgent" then Some(Urgent)
    else if s == "high" then Some(High)
    else if s == "medium" then Some(Medium)
    else if s == "low" then Some(Low)
    else None
  }

  /** Every priority survives the trip through its name. */
  lemma PriorityRoundTrip(p: Priority)
    ensures ParsePriority(PriorityName(p)) == Some(p)
  {
  }

  /** `hasValidDate`: absent and empty values pass; any other value must be
      one `Date.parse` reads, which the model takes as the predicate `dateOk`. */
  predicate HasValidDate(value: Option<string>, dateOk: string -> bool): (r: bool)
    ensures value.None? || value.value == "" ==> r
    ensures value.Some? && value.value != "" ==> (r <==> dateOk(value.value))
  {
    value.None? || value.value == "" || dateOk(value.value)
  }

  predicate IsInteger(x: real) {
    x.Floor as real == x
  }

  /** The issues of `z.string().trim().min(1, message)`. */
  function TextIssues(s: string, message: Message): seq<Message> {
    if IsBlank(s) then [message] else []
  }

  /** The issues of the same check made `optional()`. */
  function OptionalTextIssues(s: Option<string>, message: Message): seq<Message> {
    if s.Some? then TextIssues(s.value, message) else []
  }

  /** `z.array(z.string().trim().min(1))`: one issue per blank element. */
  function BlankIssues(xs: seq<string>): (r: seq<Message>)
    ensures r == [] <==> forall i :: 0 <= i < |xs| ==> !IsBlank(xs[i])
    ensures |r| <= |xs|
  {
    if xs == [] then [] else TextIssues(xs[0], TooShort) + BlankIssues(xs[1..])
  }

  /** No given element is blank. */
  predicate AllFilled(xs: Option<seq<string>>) {
    xs.None? || forall i :: 0 <= i < |xs.value| ==> !IsBlank(xs.value[i])
  }

  /** No given assignee has a blank name or blank initials. */
  predicate AssigneesFilled(xs: Option<seq<AssigneeInput>>) {
    xs.None? || forall i :: 0 <= i < |xs.value| ==> !IsBlank(xs.value[i].name) && !IsBlank(xs.value[i].initials)
  }

  function OptionalBlankIssues(xs: Option<seq<string>>): (r: seq<Message>)
    ensures r == [] <==> AllFilled(xs)
  {
    if xs.Some? then BlankIssues(xs.value) else []
  }

  /** The assignee array: for each entry, its name's issue, then its initials' issue. */
  function AssigneeIssues(xs: seq<AssigneeInput>): (r: seq<Message>)
    ensures r == [] <==> forall i :: 0 <= i < |xs| ==> !IsBlank(xs[i].name) && !IsBlank(xs[i].initials)
  {
    if xs == [] then []
    else TextIssues(xs[0].name, AssigneeNameRequired) + TextIssues(xs[0].initials, InitialsRequired)
         + AssigneeIssues(xs[1..])
  }

  function OptionalAssigneeIssues(xs: Option<seq<AssigneeInput>>): (r: seq<Message>)
    ensures r == [] <==> AssigneesFilled(xs)
  {
    if xs.Some? then AssigneeIssues(xs.value) else []
  }

  /** A priority that is given must be one of the four names. */
  function PriorityIssues(priority: Option<string>): seq<Message> {
    if priority.Some? && ParsePriority(priority.value).None? then [InvalidEnum] else []
  }

  function DateIssues(value: Option<string>, dateOk: string -> bool): seq<Message> {
    if HasValidDate(value, dateOk) then [] else [InvalidDueDate]
  }

  /** `toIndex: z.number().int().min(0)`: both checks run and each reports its own issue. */
  function IndexIssues(x: real): seq<Message> {
    (if IsInteger(x) then [] else [NotInteger]) + (if x >= 0.0 then [] else [TooSmall])
  }

  /** The flattened field errors: each checked field that has at least one
      issue, with its issues. */
  function FieldErrors(issues: map<Field, seq<Message>>): (r: map<Field, seq<Message>>)
    ensures forall f :: f in r <==> f in issues && issues[f] != []
    ensures forall f :: f in r ==> r[f] == issues[f]
  {
    map f | f in issues && issues[f] != [] :: issues[f]
  }

  function TrimAssignees(xs: seq<AssigneeInput>): (r: seq<AssigneeInput>)
    ensures |r| == |xs|
    ensures forall i :: 0 <= i < |xs| ==> r[i] == AssigneeInput(Trim(xs[i].name), Trim(xs[i].initials))
  {
    seq(|xs|, i requires 0 <= i < |xs| => AssigneeInput(Trim(xs[i].name), Trim(xs[i].initials)))
  }

  function TrimOption(s: Option<string>): (r: Option<string>)
    ensures r.Some? <==> s.Some?
    ensures r.Some? ==> r.value == Trim(s.value)
  {
    if s.Some? then Some(Trim(s.value)) else None
  }

  /** An optional list of texts, each trimmed. */
  function TrimEach(xs: Option<seq<string>>): (r: Option<seq<string>>)
    ensures r.Some? <==> xs.Some?
    ensures r.Some? ==> r.value == TrimAll(xs.value)
  {
    if xs.Some? then Some(TrimAll(xs.value)) else None
  }

  function TrimAssigneeList(xs: Option<seq<AssigneeInput>>): (r: Option<seq<AssigneeInput>>)
    ensures r.Some? <==> xs.Some?
    ensures r.Some? ==> r.value == TrimAssignees(xs.value)
  {
    if xs.Some? then Some(TrimAssignees(xs.value)) else None
  }

  // ---------------------------------------------------------------------------
  // Boards

  datatype BoardCreateInput = BoardCreateInput(name: string, description: Option<string>, columns: Option<seq<string>>)

  /** `boardCreateSchema`: the name must be non-blank and so must every column
      name given; the accepted value holds the trimmed texts. */
  function ParseBoardCreate(input: BoardCreateInput): (r: Result<BoardCreateInput, Rejection>)
    ensures r.Success? <==> !IsBlank(input.name) &&
                            AllFilled(input.columns)
    ensures r.Success? ==>
              && r.value.name == Trim(input.name)
              && r.value.description == TrimOption(input.description)
              && r.value.columns == TrimEach(input.columns)
    ensures r.Failure? ==>
              && r.error.formErrors == []
              && (NameField in r.error.fieldErrors <==> IsBlank(input.name))
              && (NameField in r.error.fieldErrors ==> r.error.fieldErrors[NameField] == [BoardNameRequired])
  {
    var name := TextIssues(input.name, BoardNameRequired);
    var columns := OptionalBlankIssues(input.columns);
    if name == [] && columns == [] then
      Success(BoardCreateInput(Trim(input.name), TrimOption(input.description),
                               TrimEach(input.columns)))
    else
      var fieldErrors := FieldErrors(map[NameField := name, ColumnsField := columns]);
      assert NameField in fieldErrors <==> name != [];
      assert NameField in fieldErrors ==> fieldErrors[NameField] == name;
      Failure(Rejection(fieldErrors, []))
  }

  datatype BoardUpdateInput = BoardUpdateInput(boardId: string, name: Option<string>, description: Option<string>)

  /** `boardUpdateSchema`: a non-blank board id, a non-blank name when one is
      given, and at least one of name and description. */
  function ParseBoardUpdate(input: BoardUpdateInput): (r: Result<BoardUpdateInput, Rejection>)
    ensures r.Success? <==> !IsBlank(input.boardId) && (input.name.None? || !IsBlank(input.name.value))
                            && (input.name.Some? || input.description.Some?)
    ensures r.Success? ==> r.value == BoardUpdateInput(Trim(input.boardId), TrimOption(input.name), TrimOption(input.description))
    ensures r.Failure? ==>
              && r.error.formErrors == (if input.name.None? && input.description.None? then [NothingToUpdate] else [])
              && (BoardIdField in r.error.fieldErrors <==> IsBlank(input.boardId))
              && (NameField in r.error.fieldErrors <==> input.name.Some? && IsBlank(input.name.value))
  {
    var boardId := TextIssues(input.boardId, BoardRequired);
    var name := OptionalTextIssues(input.name, BoardNameRequired);
    // A failed `min(1)` only marks the object dirty, so the refinement still runs.
    var formErrors := if input.name.None? && input.description.None? then [NothingToUpdate] else [];
    if boardId != [] || name != [] then
      var fieldErrors := FieldErrors(map[BoardIdField := boardId, NameField := name]);
      assert BoardIdField in fieldErrors <==> boardId != [];
      assert NameField in fieldErrors <==> name != [];
      Failure(Rejection(fieldErrors, formErrors))
    else if formErrors != [] then
      Failure(Rejection(map[], formErrors))
    else
      Success(BoardUpdateInput(Trim(input.boardId), TrimOption(input.name), TrimOption(input.description)))
  }

  /** `boardDeleteSchema`: a non-blank board id, trimmed. */
  function ParseBoardDelete(boardId: string): (r: Result<string, Rejection>)
    ensures r.Success? <==> !IsBlank(boardId)
    ensures r.Success? ==> r.value == Trim(boardId)
    ensures r.Failure? ==> r.error == Rejection(map[BoardIdField := [BoardRequired]], [])
  {
    if IsBlank(boardId) then Failure(Rejection(map[BoardIdField := [BoardRequired]], []))
    else Success(Trim(boardId))
  }

  // ---------------------------------------------------------------------------
  // Tasks

  /** A task create payload as the form sends it: the priority is still a string. */
  datatype TaskCreateInput = TaskCreateInput(
    boardId: string,
    columnId: string,
    title: string,
    description: Option<string>,
    dueDate: Option<string>,
    priority: Option<string>,
    labels: Option<seq<string>>,
    assignees: Option<seq<AssigneeInput>>)

  /** What `taskCreateSchema` hands to `createTaskAction`. */
  datatype TaskCreate = TaskCreate(
    boardId: string,
    columnId: string,
    title: string,
    description: Option<string>,
    dueDate: Option<string>,
    priority: Priority,
    labels: Option<seq<string>>,
    assignees: Option<seq<AssigneeInput>>)

  /** The issues of each field `taskCreateSchema` checks. */
  function CreateIssues(input: TaskCreateInput, dateOk: string -> bool): (r: map<Field, seq<Message>>)
    ensures BoardIdField in r && r[BoardIdField] == TextIssues(input.boardId, BoardRequired)
    ensures ColumnIdField in r && r[ColumnIdField] == TextIssues(input.columnId, ColumnRequired)
    ensures TitleField in r && r[TitleField] == TextIssues(input.title, TitleRequired)
    ensures DueDateField in r && r[DueDateField] == DateIssues(input.dueDate, dateOk)
    ensures PriorityField in r && r[PriorityField] == PriorityIssues(input.priority)
    ensures LabelsField in r && r[LabelsField] == OptionalBlankIssues(input.labels)
    ensures AssigneesField in r && r[AssigneesField] == OptionalAssigneeIssues(input.assignees)
  {
    map[BoardIdField := TextIssues(input.boardId, BoardRequired),
        ColumnIdField := TextIssues(input.columnId, ColumnRequired),
        TitleField := TextIssues(input.title, TitleRequired),
        DueDateField := DateIssues(input.dueDate, dateOk),
        PriorityField := PriorityIssues(input.priority),
        LabelsField := OptionalBlankIssues(input.labels),
        AssigneesField := OptionalAssigneeIssues(input.assignees)]
  }

  /** `taskCreateSchema`: board, column and title must be non-blank, the due
      date valid, the priority one of the four (medium when absent), and every
      label, assignee name and initials non-blank. The accepted value holds
      trimmed texts; the due date is not trimmed. */
  function ParseTaskCreate(input: TaskCreateInput, dateOk: string -> bool): (r: Result<TaskCreate, Rejection>)
    ensures r.Success? <==>
              && !IsBlank(input.boardId) && !IsBlank(input.columnId) && !IsBlank(input.title)
              && HasValidDate(input.dueDate, dateOk)
              && (input.priority.None? || ParsePriority(input.priority.value).Some?)
              && AllFilled(input.labels) && AssigneesFilled(input.assignees)
    ensures r.Success? ==>
              && r.value.boardId == Trim(input.boardId)
              && r.value.columnId == Trim(input.columnId)
              && r.value.title == Trim(input.title)
              && r.value.description == TrimOption(input.description)
              && r.value.dueDate == input.dueDate
              && (input.priority.None? ==> r.value.priority == Medium)
              && (input.priority.Some? ==> PriorityName(r.value.priority) == input.priority.value)
              && r.value.labels == TrimEach(input.labels)
              && r.value.assignees == TrimAssigneeList(input.assignees)
    ensures r.Failure? ==> r.error.formErrors == [] &&
                           (TitleField in r.error.fieldErrors <==> IsBlank(input.title))
  {
    var issues := CreateIssues(input, dateOk);
    if && issues[BoardIdField] == [] && issues[ColumnIdField] == [] && issues[TitleField] == []
       && issues[DueDateField] == [] && issues[PriorityField] == [] && issues[LabelsField] == []
       && issues[AssigneesField] == []
    then
      assert input.priority.Some? ==> ParsePriority(input.priority.value).Some?;
      Success(TaskCreate(Trim(input.boardId), Trim(input.columnId), Trim(input.title), TrimOption(input.description),
                         input.dueDate,
                         if input.priority.Some? then ParsePriority(input.priority.value).value else Medium,
                         TrimEach(input.labels),
                         TrimAssigneeList(input.assignees)))
    else
      Failure(Rejection(FieldErrors(issues), []))
  }

  datatype TaskMoveInput = TaskMoveInput(boardId: string, taskId: string, toColumnId: string, toIndex: real)

  datatype TaskMove = TaskMove(boardId: string, taskId: string, toColumnId: string, toIndex: nat)

  /** `taskMoveSchema`: the three ids must be non-blank and `toIndex` a whole
      number no smaller than zero. */
  function ParseTaskMove(input: TaskMoveInput): (r: Result<TaskMove, Rejection>)
    ensures r.Success? <==> !IsBlank(input.boardId) && !IsBlank(input.taskId) && !IsBlank(input.toColumnId)
                            && IsInteger(input.toIndex) && input.toIndex >= 0.0
    ensures r.Success? ==> r.value.boardId == Trim(input.boardId) && r.value.taskId == Trim(input.taskId)
                           && r.value.toColumnId == Trim(input.toColumnId) && r.value.toIndex as real == input.toIndex
    ensures r.Failure? ==> (ToIndexField in r.error.fieldErrors <==> !IsInteger(input.toIndex) || input.toIndex < 0.0)
  {
    var boardId := TextIssues(input.boardId, TooShort);
    var taskId := TextIssues(input.taskId, TooShort);
    var toColumnId := TextIssues(input.toColumnId, TooShort);
    var toIndex := IndexIssues(input.toIndex);
    if boardId == [] && taskId == [] && toColumnId == [] && toIndex == [] then
      Success(TaskMove(Trim(input.boardId), Trim(input.taskId), Trim(input.toColumnId), input.toIndex.Floor as nat))
    else
      var fieldErrors := FieldErrors(map[BoardIdField := boardId, TaskIdField := taskId, ToColumnIdField := toColumnId, ToIndexField := toIndex]);
      assert ToIndexField in fieldErrors <==> toIndex != [];
      Failure(Rejection(fieldErrors, []))
  }

  /** An accepted move, sent again, is accepted unchanged: the schema is idempotent. */
  lemma TaskMoveIdempotent(input: TaskMoveInput)
    requires ParseTaskMove(input).Success?
    ensures var m := ParseTaskMove(input).value;
            ParseTaskMove(TaskMoveInput(m.boardId, m.taskId, m.toColumnId, m.toIndex as real)) == Success(m)
  {
    var m := ParseTaskMove(input).value;
    BlankIffTrimEmpty(input.boardId);
    BlankIffTrimEmpty(input.taskId);
    BlankIffTrimEmpty(input.toColumnId);
    TrimOfTrimmed(m.boardId);
    TrimOfTrimmed(m.taskId);
    TrimOfTrimmed(m.toColumnId);
    BlankIffTrimEmpty(m.boardId);
    BlankIffTrimEmpty(m.taskId);
    BlankIffTrimEmpty(m.toColumnId);
  }

  /** A task update payload as the forms send it. */
  datatype TaskUpdateInput = TaskUpdateInput(
    boardId: string,
    taskId: string,
    title: Option<string>,
    description: Option<string>,
    dueDate: Option<string>,
    priority: Option<string>,
    labels: Option<seq<string>>,
    assignees: Option<seq<AssigneeInput>>)

  datatype TaskUpdate = TaskUpdate(
    boardId: string,
    taskId: string,
    title: Option<string>,
    description: Option<string>,
    dueDate: Option<string>,
    priority: Option<Priority>,
    labels: Option<seq<string>>,
    assignees: Option<seq<AssigneeInput>>)

  /** Some field other than the two ids is present. */
  predicate UpdatesSomething(input: TaskUpdateInput) {
    || input.title.Some? || input.description.Some? || input.dueDate.Some?
    || input.priority.Some? || input.labels.Some? || input.assignees.Some?
  }

  /** `taskUpdateSchema`: the ids must be non-blank, each given field must pass
      its check, and at least one field must be given; a payload that names
      nothing to change is rejected with a form-level message. */
  function ParseTaskUpdate(input: TaskUpdateInput, dateOk: string -> bool): (r: Result<TaskUpdate, Rejection>)
    ensures r.Success? <==>
              && !IsBlank(input.boardId) && !IsBlank(input.taskId)
              && (input.title.None? || !IsBlank(input.title.value))
              && HasValidDate(input.dueDate, dateOk)
              && (input.priority.None? || ParsePriority(input.priority.value).Some?)
              && AllFilled(input.labels) && AssigneesFilled(input.assignees)
              && UpdatesSomething(input)
    ensures r.Success? ==>
              && r.value.boardId == Trim(input.boardId) && r.value.taskId == Trim(input.taskId)
              && r.value.title == TrimOption(input.title)
              && r.value.description == TrimOption(input.description)
              && r.value.dueDate == input.dueDate
              && (r.value.priority.Some? <==> input.priority.Some?)
              && (input.priority.Some? ==> PriorityName(r.value.priority.value) == input.priority.value)
              && r.value.labels == TrimEach(input.labels)
              && r.value.assignees == TrimAssigneeList(input.assignees)
    ensures r.Failure? ==> r.error.formErrors == (if UpdatesSomething(input) then [] else [NothingToUpdate])
    ensures r.Failure? && UpdatesSomething(input) ==> |r.error.fieldErrors| > 0
  {
    var boardId := TextIssues(input.boardId, BoardRequired);
    var taskId := TextIssues(input.taskId, TaskRequired);
    var title := OptionalTextIssues(input.title, TitleRequired);
    var dueDate := DateIssues(input.dueDate, dateOk);
    var priority := PriorityIssues(input.priority);
    var labels := OptionalBlankIssues(input.labels);
    var assignees := OptionalAssigneeIssues(input.assignees);
    if boardId != [] || taskId != [] || title != [] || dueDate != [] || priority != [] || labels != [] || assignees != [] then
      var fieldErrors := FieldErrors(map[BoardIdField := boardId, TaskIdField := taskId, TitleField := title, DueDateField := dueDate,
                                             PriorityField := priority, LabelsField := labels, AssigneesField := assignees]);
      assert boardId != [] ==> BoardIdField in fieldErrors;
      assert taskId != [] ==> TaskIdField in fieldErrors;
      assert title != [] ==> TitleField in fieldErrors;
      assert dueDate != [] ==> DueDateField in fieldErrors;
      assert priority != [] ==> PriorityField in fieldErrors;
      assert labels != [] ==> LabelsField in fieldErrors;
      assert assignees != [] ==> AssigneesField in fieldErrors;
      // Failed `min(1)` and refine checks only mark the object dirty, so the
      // refinement still runs; an invalid priority aborts it, but a priority
      // that is given already counts as an update.
      Failure(Rejection(fieldErrors, if UpdatesSomething(input) then [] else [NothingToUpdate]))
    else if !UpdatesSomething(input) then
      Failure(Rejection(map[], [NothingToUpdate]))
    else
      Success(TaskUpdate(Trim(input.boardId), Trim(input.taskId), TrimOption(input.title), TrimOption(input.description),
                         input.dueDate,
                         if input.priority.Some? then ParsePriority(input.priority.value) else None,
                         TrimEach(input.labels),
                         TrimAssigneeList(input.assignees)))
  }

  /** An update with valid ids that names nothing to change is rejected at form level only. */
  lemma EmptyUpdateRejected(boardId: string, taskId: string, dateOk: string -> bool)
    requires !IsBlank(boardId) && !IsBlank(taskId)
    ensures ParseTaskUpdate(TaskUpdateInput(boardId, taskId, None, None, None, None, None, None), dateOk)
            == Failure(Rejection(map[], [NothingToUpdate]))
  {
  }

  /** A blank board id and nothing to change: both the field message and the
      form-level message are reported. */
  lemma BlankBoardEmptyUpdateReportsBoth(boardId: string, taskId: string, dateOk: string -> bool)
    requires IsBlank(boardId) && !IsBlank(taskId)
    ensures ParseTaskUpdate(TaskUpdateInput(boardId, taskId, None, None, None, None, None, None), dateOk)
            == Failure(Rejection(map[BoardIdField := [BoardRequired]], [NothingToUpdate]))
  {
    var issues := map[BoardIdField := [BoardRequired], TaskIdField := [], TitleField := [], DueDateField := [],
                      PriorityField := [], LabelsField := [], AssigneesField := []];
    assert FieldErrors(issues) == map[BoardIdField := [BoardRequired]];
  }

  datatype TaskDeleteInput = TaskDeleteInput(boardId: string, taskId: string)

  /** `taskDeleteSchema`: both ids non-blank, trimmed. */
  function ParseTaskDelete(input: TaskDeleteInput): (r: Result<TaskDeleteInput, Rejection>)
    ensures r.Success? <==> !IsBlank(input.boardId) && !IsBlank(input.taskId)
    ensures r.Success? ==> r.value == TaskDeleteInput(Trim(input.boardId), Trim(input.taskId))
    ensures r.Failure? ==> r.error.formErrors == [] &&
                           (BoardIdField in r.error.fieldErrors <==> IsBlank(input.boardId)) &&
                           (TaskIdField in r.error.fieldErrors <==> IsBlank(input.taskId))
  {
    var boardId := TextIssues(input.boardId, BoardRequired);
    var taskId := TextIssues(input.taskId, TaskRequired);
    if boardId == [] && taskId == [] then Success(TaskDeleteInput(Trim(input.boardId), Trim(input.taskId)))
    else
      var fieldErrors := FieldErrors(map[BoardIdField := boardId, TaskIdField := taskId]);
      assert BoardIdField in fieldErrors <==> boardId != [];
      assert TaskIdField in fieldErrors <==> taskId != [];
      Failure(Rejection(fieldErrors, []))
  }
}
