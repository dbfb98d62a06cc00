/** The three task endpoints (`getTasks`, `createTask`, `completeTask`):
    each validates its input in order, calls the task model, and answers
    with an envelope. A failure inside the model becomes a 500 reply. The
    shared `taskModel` is passed in as `model`. */
module TaskController {
  import opened Wrappers
  import opened JsText
  import opened Values
  import opened Sql
  import opened StandIn
  import opened Base
  import opened Tasks
  import opened Response

  /** The `data` of a reply: one task or a list of tasks. */
  datatype Payload = OneTask(task: Task) | TaskList(tasks: seq<Task>)

  /** The JSON body of a create request; a field that is missing or null
      is `None`. */
  datatype CreateBody = CreateBody(title: Option<string>, description: Option<string>)

  /** `!field || !field.trim()`. */
  predicate Blank(field: Option<string>) {
    field.None? || Trim(field.value) == []
  }

  /** The catch block of every handler: the error's message, or the
      default one when that message is empty. */
  function Failure(message: string): (r: Reply<Payload>)
    ensures r.statusCode == 500 && r.body.isError && WellFormed(r.body) && r.body.data.None?
    ensures r.body.message != []
    ensures message != [] ==> r.body.message == message
    ensures message == [] ==> r.body.message == "Internal server error"
  {
    Error(if message == [] then "Internal server error" else message, 500)
  }

  /** The fixed texts around the id in the 404 and 400 messages. */
  const IdPrefix := "Task with id "
  const NotFoundSuffix := " not found"
  const CompletedSuffix := " is already completed"

  /** The 404 message for a missing id. */
  function NotFoundMessage(id: int): string {
    IdPrefix + IntToString(id) + NotFoundSuffix
  }

  /** The 404 message names the id: it reads back from between the
      message's fixed texts. */
  lemma NotFoundMessageNamesId(id: int)
    ensures var r := NotFoundMessage(id);
      |r| > |IdPrefix| + |NotFoundSuffix| && r[..|IdPrefix|] == IdPrefix && r[|r| - |NotFoundSuffix|..] == NotFoundSuffix
      && ParseInt(r[|IdPrefix|..|r| - |NotFoundSuffix|]) == Some(id)
  {
    NumberBetween(IdPrefix, id, NotFoundSuffix);
  }

  /** The 400 message for a task that is already completed. */
  function CompletedMessage(id: int): string {
    IdPrefix + IntToString(id) + CompletedSuffix
  }

  /** The 400 message for a completed task names the id the same way. */
  lemma CompletedMessageNamesId(id: int)
    ensures var r := CompletedMessage(id);
      |r| > |IdPrefix| + |CompletedSuffix| && r[..|IdPrefix|] == IdPrefix && r[|r| - |CompletedSuffix|..] == CompletedSuffix
      && ParseInt(r[|IdPrefix|..|r| - |CompletedSuffix|]) == Some(id)
  {
    NumberBetween(IdPrefix, id, CompletedSuffix);
  }

  /** The stand-in table and the statements sent to it, at one moment. */
  datatype Table = Table(rows: map<int, Row>, nextId: int, clock: int, log: seq<Query>)

  /** The table inside the task model, as a value. */
  ghost function TableOf(b: BaseModel<Task>): Table
    reads b
  {
    Table(b.rows, b.nextId, b.clock, b.log)
  }

  /** `getTasks`: the five latest uncompleted tasks. */
  method GetTasks(model: TaskModel) returns (reply: Reply<Payload>)
    requires model.Valid()
    modifies model.base`log
    ensures model.base.log == old(model.base.log) + [FindQuery("task", Uncompleted(), Latest(5))]
    ensures |old(model.base.log)| in model.base.faults ==> reply == Failure(model.base.faults[|old(model.base.log)|])
    ensures |old(model.base.log)| !in model.base.faults ==>
      var tasks := MapRows(MapToEntity, Select(model.base.rows, model.base.nextId, Uncompleted(), Latest(5)));
      reply == Success(TaskList(tasks), "Tasks retrieved successfully")
      && |tasks| == Min(|Matching(model.base.rows, model.base.nextId, Uncompleted())|, 5)
      && forall t :: t in tasks ==> !t.isCompleted
  {
    var found := model.FindLatestUncompleted(5);
    match found {
      case Ok(tasks) =>
        LatestCount(model.base.rows, model.base.nextId, 5);
        LatestAreUncompleted(model.base.rows, model.base.nextId, 5);
        reply := Success(TaskList(tasks), "Tasks retrieved successfully");
      case Err(m) =>
        reply := Failure(m);
    }
  }

  /** What `taskModel.create` does to the table for a new task whose INSERT
      is statement `|t.log|`: a failing INSERT writes nothing; otherwise
      the row goes in under the next id, `NOW()` advances, and the reload
      is sent, whether or not it then fails. */
  ghost predicate TaskInserted(t: Table, faults: map<nat, string>, title: string, description: string, t': Table) {
    var insert := InsertQuery("task", NewTaskData(title, description, false));
    if |t.log| in faults then
      t' == t.(log := t.log + [insert])
    else
      t' == Table(t.rows[t.nextId := InsertedTask(t.nextId, title, description, t.clock)], t.nextId + 1, t.clock + 1,
                  t.log + [insert, FindByIdQuery("task", t.nextId)])
  }

  /** The task `createTask` reports when the INSERT and the reload both
      succeed on table `t`. */
  function NewTask(t: Table, title: string, description: string): Task {
    Task(Int(t.nextId), Str(title), Str(description), false, Time(t.clock), Time(t.clock))
  }

  /** The row a create writes on table `t` maps back to that task. */
  lemma InsertedTaskMapsBack(t: Table, title: string, description: string)
    ensures MapToEntity(InsertedTask(t.nextId, title, description, t.clock)) == NewTask(t, title, description)
  {
    CreatedTask(t.nextId, title, description, false, t.clock);
    InsertedTaskIsInsert(t.nextId, title, description, t.clock);
  }

  /** `createTask`: checks the title, then the description, then creates
      the task with both trimmed and not completed. */
  method CreateTask(model: TaskModel, body: CreateBody) returns (reply: Reply<Payload>)
    requires model.Valid()
    modifies model.base`rows, model.base`nextId, model.base`clock, model.base`log
    ensures model.Valid()
    ensures Blank(body.title) ==>
      reply == BadRequest("Title is required") && TableOf(model.base) == old(TableOf(model.base))
    ensures !Blank(body.title) && Blank(body.description) ==>
      reply == BadRequest("Description is required") && TableOf(model.base) == old(TableOf(model.base))
    ensures !Blank(body.title) && !Blank(body.description) ==>
      TaskInserted(old(TableOf(model.base)), model.base.faults, Trim(body.title.value), Trim(body.description.value),
                   TableOf(model.base))
    ensures !Blank(body.title) && !Blank(body.description) ==>
      var n, faults := |old(model.base.log)|, model.base.faults;
      reply == if n in faults then Failure(faults[n])
               else if n + 1 in faults then Failure(faults[n + 1])
               else Success(OneTask(NewTask(old(TableOf(model.base)), Trim(body.title.value), Trim(body.description.value))),
                            "Task created successfully", 201)
  {
    if Blank(body.title) {
      return BadRequest("Title is required");
    }
    if Blank(body.description) {
      return BadRequest("Description is required");
    }
    TrimmedTrim(body.title.value);
    TrimmedTrim(body.description.value);
    reply := InsertTask(model, Trim(body.title.value), Trim(body.description.value));
  }

  /** The create step of `createTask`, with the two texts already
      validated and trimmed. */
  method InsertTask(model: TaskModel, title: string, description: string) returns (reply: Reply<Payload>)
    requires model.Valid()
    modifies model.base`rows, model.base`nextId, model.base`clock, model.base`log
    ensures model.Valid()
    ensures TaskInserted(old(TableOf(model.base)), model.base.faults, title, description, TableOf(model.base))
    ensures var n, faults := |old(model.base.log)|, model.base.faults;
      reply == if n in faults then Failure(faults[n])
               else if n + 1 in faults then Failure(faults[n + 1])
               else Success(OneTask(NewTask(old(TableOf(model.base)), title, description)), "Task created successfully", 201)
  {
    var created := CreateRow(model, title, description);
    match created {
      case Ok(task) =>
        reply := Success(OneTask(task), "Task created successfully", 201);
      case Err(m) =>
        reply := Failure(m);
    }
  }

  /** `taskModel.create` with the data of a new task: the row added and
      the task reloaded from it. */
  method CreateRow(model: TaskModel, title: string, description: string) returns (created: Result<Task>)
    requires model.Valid()
    modifies model.base`rows, model.base`nextId, model.base`clock, model.base`log
    ensures model.Valid()
    ensures TaskInserted(old(TableOf(model.base)), model.base.faults, title, description, TableOf(model.base))
    ensures var n, faults := |old(model.base.log)|, model.base.faults;
      created == if n in faults then Err(faults[n])
                 else if n + 1 in faults then Err(faults[n + 1])
                 else Ok(NewTask(old(TableOf(model.base)), title, description))
  {
    ghost var t := TableOf(model.base);
    ghost var row := InsertedTask(t.nextId, title, description, t.clock);
    CreatedTask(t.nextId, title, description, false, t.clock);
    InsertedTaskIsInsert(t.nextId, title, description, t.clock);
    InsertedTaskMapsBack(t, title, description);
    created := model.base.Create(NewTaskData(title, description, false));
    if |t.log| !in model.base.faults {
      assert model.base.rows == t.rows[t.nextId := row];
      assert model.base.nextId == t.nextId + 1 && model.base.clock == t.clock + 1;
    }
  }

  /** `completeTask`: parses the id, looks the task up, refuses a task
      that is already completed, and otherwise marks it completed. */
  method CompleteTask(model: TaskModel, idParam: string) returns (reply: Reply<Payload>)
    requires model.Valid()
    modifies model.base`rows, model.base`clock, model.base`log
    ensures model.Valid()
    ensures ParseInt(idParam).None? ==>
      reply == BadRequest("Invalid task id") && TableOf(model.base) == old(TableOf(model.base))
    ensures ParseInt(idParam).Some? ==>
      CompletedById(old(TableOf(model.base)), model.base.faults, ParseInt(idParam).value, TableOf(model.base), reply)
  {
    var parsed := ParseInt(idParam);
    if parsed.None? {
      return BadRequest("Invalid task id");
    }
    reply := CompleteById(model, parsed.value);
  }

  /** The change `completeTask` makes after the id is parsed, starting
      from table `t`: the lookup is sent first; a failing lookup, a missing
      task and a completed task end there, and otherwise the update step
      follows. */
  ghost predicate CompletedById(t: Table, faults: map<nat, string>, id: int, t': Table, reply: Reply<Payload>) {
    var looked := t.(log := t.log + [FindByIdQuery("task", id)]);
    if |t.log| in faults then
      t' == looked && reply == Failure(faults[|t.log|])
    else if id !in t.rows then
      t' == looked && reply == NotFound(NotFoundMessage(id))
    else if MapToEntity(t.rows[id]).isCompleted then
      t' == looked && reply == BadRequest(CompletedMessage(id))
    else
      MarkedCompleted(looked, faults, id, t', reply)
  }

  /** The fields `completeTask` updates. */
  const CompletedFields: seq<Field> := [Field("isCompleted", Bool(true))]

  /** What `taskModel.update` with `CompletedFields` does to the table,
      its UPDATE being statement `|t.log|`: a failing UPDATE writes
      nothing; otherwise only that task's row changes, to `MarkedRow`,
      `NOW()` advances, and the reload is sent, whether or not it then
      fails. */
  ghost predicate TaskMarked(t: Table, faults: map<nat, string>, id: int, t': Table)
    requires id in t.rows
  {
    var update := UpdateQuery("task", id, CompletedFields).value;
    if |t.log| in faults then
      t' == t.(log := t.log + [update])
    else
      t' == t.(rows := t.rows[id := MarkedRow(t.rows[id], t.clock)], clock := t.clock + 1,
               log := t.log + [update, FindByIdQuery("task", id)])
  }

  /** The task `completeTask` reports when the UPDATE and the reload both
      succeed on table `t`: the one found, now completed, with the
      update's `NOW()` as `updatedAt`. */
  function CompletedTaskOf(t: Table, id: int): Task
    requires id in t.rows
  {
    MapToEntity(t.rows[id]).(isCompleted := true, updatedAt := Time(t.clock))
  }

  /** The update step of `completeTask` for a task found not completed:
      the table as `TaskMarked` says, and the reply carrying the task as
      reloaded, or the error of the first statement that fails. */
  ghost predicate MarkedCompleted(t: Table, faults: map<nat, string>, id: int, t': Table, reply: Reply<Payload>)
    requires id in t.rows
  {
    var n := |t.log|;
    TaskMarked(t, faults, id, t')
    && reply == if n in faults then Failure(faults[n])
                else if n + 1 in faults then Failure(faults[n + 1])
                else Success(OneTask(CompletedTaskOf(t, id)), "Task completed successfully")
  }

  /** The steps of `completeTask` after the id is parsed. */
  method CompleteById(model: TaskModel, id: int) returns (reply: Reply<Payload>)
    requires model.Valid()
    modifies model.base`rows, model.base`clock, model.base`log
    ensures model.Valid()
    ensures CompletedById(old(TableOf(model.base)), model.base.faults, id, TableOf(model.base), reply)
  {
    var found := model.base.FindById(id);
    match found {
      case Err(m) =>
        reply := Failure(m);
      case Ok(None) =>
        assert id !in model.base.rows;
        reply := NotFound(NotFoundMessage(id));
      case Ok(Some(task)) =>
        assert id in model.base.rows && task == MapToEntity(model.base.rows[id]);
        if task.isCompleted {
          reply := BadRequest(CompletedMessage(id));
        } else {
          reply := MarkCompleted(model, id);
        }
    }
  }

  /** The update step of `completeTask`, for a task found not completed. */
  method MarkCompleted(model: TaskModel, id: int) returns (reply: Reply<Payload>)
    requires model.Valid() && id in model.base.rows
    modifies model.base`rows, model.base`clock, model.base`log
    ensures model.Valid()
    ensures MarkedCompleted(old(TableOf(model.base)), model.base.faults, id, TableOf(model.base), reply)
  {
    ghost var t := TableOf(model.base);
    var updated := CompleteRow(model, id);
    assert TaskMarked(t, model.base.faults, id, TableOf(model.base));
    match updated {
      case Ok(task) =>
        reply := Success(OneTask(task), "Task completed successfully");
      case Err(m) =>
        reply := Failure(m);
    }
  }

  /** `taskModel.update(id, { isCompleted: true })`: the row rewritten and
      the task reloaded from it. */
  method CompleteRow(model: TaskModel, id: int) returns (updated: Result<Task>)
    requires model.Valid() && id in model.base.rows
    modifies model.base`rows, model.base`clock, model.base`log
    ensures model.Valid()
    ensures TaskMarked(old(TableOf(model.base)), model.base.faults, id, TableOf(model.base))
    ensures var n, faults := |old(model.base.log)|, model.base.faults;
      updated == if n in faults then Err(faults[n])
                 else if n + 1 in faults then Err(faults[n + 1])
                 else Ok(CompletedTaskOf(old(TableOf(model.base)), id))
  {
    ghost var t := TableOf(model.base);
    ghost var marked := MarkedRow(t.rows[id], t.clock);
    ghost var update := UpdateQuery("task", id, CompletedFields).value;
    MarkedRowIsUpdate(t.rows[id], t.clock);
    CompletedTask(t.rows[id], true, t.clock);
    updated := model.base.Update(id, CompletedFields);
    if |t.log| in model.base.faults {
      assert model.base.rows == t.rows && model.base.clock == t.clock && model.base.log == t.log + [update];
    } else {
      assert model.base.rows == t.rows[id := marked] && model.base.clock == t.clock + 1;
      assert model.base.log == t.log + [update, FindByIdQuery("task", id)];
      assert updated == if |t.log| + 1 in model.base.faults then Err(model.base.faults[|t.log| + 1])
                        else Ok(MapToEntity(marked));
    }
  }

  /** A create whose INSERT succeeds but whose reload fails still writes
      the task: retrying it with the same body writes a second task with
      the same title and description under the following id. */
  lemma CreateRetryAfterFailedReload(t: Table, faults: map<nat, string>, title: string, description: string,
                                     t1: Table, t2: Table)
    requires |t.log| !in faults && |t.log| + 1 in faults
    requires TaskInserted(t, faults, title, description, t1) && TaskInserted(t1, faults, title, description, t2)
    requires |t1.log| !in faults
    ensures t.nextId in t2.rows && t.nextId + 1 in t2.rows
    ensures MapToEntity(t2.rows[t.nextId]).title == MapToEntity(t2.rows[t.nextId + 1]).title == Str(title)
    ensures MapToEntity(t2.rows[t.nextId]).description == MapToEntity(t2.rows[t.nextId + 1]).description == Str(description)
  {
    var first := InsertedTask(t.nextId, title, description, t.clock);
    assert t1.rows == t.rows[t.nextId := first] && t1.nextId == t.nextId + 1 && t1.clock == t.clock + 1;
    var second := InsertedTask(t1.nextId, title, description, t1.clock);
    assert t2.rows == t1.rows[t1.nextId := second];
    assert t2.rows[t.nextId] == first && t2.rows[t.nextId + 1] == second;
    InsertedTaskMapsBack(t, title, description);
    InsertedTaskMapsBack(t1, title, description);
  }

  /** A complete whose UPDATE succeeds but whose reload fails answers 500
      and still marks the task: retrying it is refused as already
      completed. */
  lemma CompleteRetryAfterFailedReload(t: Table, faults: map<nat, string>, id: int,
                                       t1: Table, reply1: Reply<Payload>, t2: Table, reply2: Reply<Payload>)
    requires id in t.rows && !MapToEntity(t.rows[id]).isCompleted
    requires |t.log| !in faults && |t.log| + 1 !in faults && |t.log| + 2 in faults && |t.log| + 3 !in faults
    requires CompletedById(t, faults, id, t1, reply1) && CompletedById(t1, faults, id, t2, reply2)
    ensures reply1.statusCode == 500
    ensures reply2 == BadRequest(CompletedMessage(id))
  {
    var looked := t.(log := t.log + [FindByIdQuery("task", id)]);
    assert MarkedCompleted(looked, faults, id, t1, reply1);
    assert TaskMarked(looked, faults, id, t1);
    var marked := MarkedRow(t.rows[id], t.clock);
    assert t1.rows == t.rows[id := marked] && |t1.log| == |t.log| + 3;
    assert reply1 == Failure(faults[|t.log| + 2]);
    MarkedRowIsUpdate(t.rows[id], t.clock);
    CompletedTask(t.rows[id], true, t.clock);
    assert MapToEntity(t1.rows[id]).isCompleted;
  }

  /** Every row `createTask` writes is a task row, so a table of task rows
      stays one. */
  lemma CreateTaskKeepsTable(rows: map<int, Row>, id: int, body: CreateBody, now: int)
    requires TaskTable(rows) && !Blank(body.title) && !Blank(body.description)
    ensures TaskTable(rows[id := InsertedTask(id, Trim(body.title.value), Trim(body.description.value), now)])
  {
    TrimmedTrim(body.title.value);
    TrimmedTrim(body.description.value);
    NewTaskRow(id, Trim(body.title.value), Trim(body.description.value), now);
    InsertedTaskIsInsert(id, Trim(body.title.value), Trim(body.description.value), now);
  }

  /** The row `completeTask` rewrites stays a task row, so a table of task
      rows stays one. */
  lemma CompleteTaskKeepsTable(rows: map<int, Row>, id: int, now: int)
    requires TaskTable(rows) && id in rows
    ensures TaskTable(rows[id := MarkedRow(rows[id], now)])
  {
    CompletedRow(rows[id], now);
    MarkedRowIsUpdate(rows[id], now);
  }
}
