/** The task table: the `Task` entity, its row mapping, and `TaskModel`,
    the mapper over table `task` with its one extra query. */
module Tasks {
  import opened Wrappers
  import opened JsText
  import opened Naming
  import opened Values
  import opened Sql
  import opened StandIn
  import opened Base

  /** A task as the mapper hands it out. The typed fields of the source are
      whatever the row holds; only `isCompleted` is converted. The two
      timestamps stay the column values (parsing them into dates is not
      modelled). */
  datatype Task = Task(id: Value, title: Value, description: Value, isCompleted: bool, createdAt: Value, updatedAt: Value)

  /** `TaskModel.mapToEntity`: reads the six columns, `is_completed` through
      JavaScript truthiness. */
  function MapToEntity(row: Row): Task {
    Task(Get(row, "id"), Get(row, "title"), Get(row, "description"), Truthy(Get(row, "is_completed")),
         Get(row, "created_at"), Get(row, "updated_at"))
  }

  /** The task depends on the six task columns only: any other column of
      the row is dropped. */
  lemma MapToEntitySixColumns(a: Row, b: Row)
    requires forall c :: c in ["id", "title", "description", "is_completed", "created_at", "updated_at"] ==> Get(a, c) == Get(b, c)
    ensures MapToEntity(a) == MapToEntity(b)
  {
    assert "id" in ["id", "title", "description", "is_completed", "created_at", "updated_at"];
  }

  /** `Boolean(row.is_completed)`: 0, false, NULL and a missing column read
      as not completed, any other number as completed. */
  lemma CompletionFlag(row: Row)
    ensures Get(row, "is_completed") in [Int(0), Bool(false), Null, Undefined] ==> !MapToEntity(row).isCompleted
    ensures Get(row, "is_completed").Int? && Get(row, "is_completed").i != 0 ==> MapToEntity(row).isCompleted
    ensures Get(row, "is_completed") == Bool(true) ==> MapToEntity(row).isCompleted
  {
  }

  /** The columns of the task fields. */
  lemma TitleColumn() ensures CamelToSnake("title") == "title" {
    CamelToSnakeLowerOnly("title");
  }

  lemma DescriptionColumn() ensures CamelToSnake("description") == "description" {
    CamelToSnakeLowerOnly("description");
  }

  lemma IsCompletedColumn() ensures CamelToSnake("isCompleted") == "is_completed" {
    CamelToSnakeTwoWords("isCompleted", "is", 'C', "ompleted", "is_completed");
  }

  lemma CreatedAtColumn() ensures CamelToSnake("createdAt") == "created_at" {
    CamelToSnakeTwoWords("createdAt", "created", 'A', "t", "created_at");
  }

  lemma UpdatedAtColumn() ensures CamelToSnake("updatedAt") == "updated_at" {
    CamelToSnakeTwoWords("updatedAt", "updated", 'A', "t", "updated_at");
  }

  lemma IdColumn() ensures CamelToSnake("id") == "id" {
    CamelToSnakeLowerOnly("id");
  }

  /** The task's property names hold no underscore. */
  lemma TaskKeysNoUnderscore()
    ensures NoUnderscore("id") && NoUnderscore("title") && NoUnderscore("description")
    ensures NoUnderscore("isCompleted") && NoUnderscore("createdAt") && NoUnderscore("updatedAt")
  {
  }

  /** `TaskModel.mapToEntity` overrides the default mapping and agrees with
      it: each task field is the default entity's property of that name,
      except that `isCompleted` is made a boolean. */
  lemma MapToEntityRefinesDefault(row: Row)
    requires DistinctNames(row) && SnakeColumns(row)
    ensures var e := DefaultEntity(row);
      MapToEntity(row) == Task(Prop(e, "id"), Prop(e, "title"), Prop(e, "description"),
                               Truthy(Prop(e, "isCompleted")), Prop(e, "createdAt"), Prop(e, "updatedAt"))
  {
    TaskKeysNoUnderscore();
    IdColumn();
    TitleColumn();
    DescriptionColumn();
    IsCompletedColumn();
    CreatedAtColumn();
    UpdatedAtColumn();
    DefaultEntityProp(row, "id", "id");
    DefaultEntityProp(row, "title", "title");
    DefaultEntityProp(row, "description", "description");
    DefaultEntityProp(row, "isCompleted", "is_completed");
    DefaultEntityProp(row, "createdAt", "created_at");
    DefaultEntityProp(row, "updatedAt", "updated_at");
  }

  /** The data a new task is created with. */
  function NewTaskData(title: string, description: string, isCompleted: bool): seq<Field> {
    [Field("title", Str(title)), Field("description", Str(description)), Field("isCompleted", Bool(isCompleted))]
  }

  /** Creating a task and mapping the inserted row back gives the task with
      exactly the values written: the boolean survives its trip through the
      0/1 column, and both timestamps are the insert's `NOW()`. */
  lemma CreatedTask(id: int, title: string, description: string, isCompleted: bool, now: int)
    ensures Writable(NewTaskData(title, description, isCompleted))
    ensures MapToEntity(InsertedRow(id, NewTaskData(title, description, isCompleted), now))
         == Task(Int(id), Str(title), Str(description), isCompleted, Time(now), Time(now))
    ensures Get(InsertedRow(id, NewTaskData(title, description, isCompleted), now), "is_completed")
         == Int(if isCompleted then 1 else 0)
  {
    TitleColumn();
    DescriptionColumn();
    IsCompletedColumn();
    CreatedTaskFor(id, "title", "description", "isCompleted", title, description, isCompleted, now);
  }

  /** The row `createTask` inserts: the new id, the two texts, 0 for not
      completed, and both timestamps the insert's `NOW()`. */
  function InsertedTask(id: int, title: string, description: string, now: int): Row {
    [Field("id", Int(id)), Field("title", Str(title)), Field("description", Str(description)),
     Field("is_completed", Int(0)), Field("created_at", Time(now)), Field("updated_at", Time(now))]
  }

  /** The insert `createTask` runs writes exactly `InsertedTask`. */
  lemma InsertedTaskIsInsert(id: int, title: string, description: string, now: int)
    ensures InsertedRow(id, NewTaskData(title, description, false), now) == InsertedTask(id, title, description, now)
  {
    TitleColumn();
    DescriptionColumn();
    IsCompletedColumn();
    InsertedTaskFor(id, "title", "description", "isCompleted", title, description, now);
  }

  /** `InsertedTaskIsInsert` for any three field names with the task's
      columns. */
  lemma InsertedTaskFor(id: int, titleName: string, descriptionName: string, flagName: string,
                        title: string, description: string, now: int)
    requires CamelToSnake(titleName) == "title" && CamelToSnake(descriptionName) == "description"
    requires CamelToSnake(flagName) == "is_completed"
    ensures InsertedRow(id, [Field(titleName, Str(title)), Field(descriptionName, Str(description)), Field(flagName, Bool(false))], now)
         == InsertedTask(id, title, description, now)
  {
    var data := [Field(titleName, Str(title)), Field(descriptionName, Str(description)), Field(flagName, Bool(false))];
    assert Stored(Str(title)) == Str(title) && Stored(Str(description)) == Str(description);
    assert Stored(Bool(false)) == Int(0);
    InsertedThreeRow(id, data, now, "title", "description", "is_completed");
  }

  /** `CreatedTask` for any three field names with the task's columns. */
  lemma CreatedTaskFor(id: int, titleName: string, descriptionName: string, flagName: string,
                       title: string, description: string, isCompleted: bool, now: int)
    requires CamelToSnake(titleName) == "title" && CamelToSnake(descriptionName) == "description"
    requires CamelToSnake(flagName) == "is_completed"
    ensures var data := [Field(titleName, Str(title)), Field(descriptionName, Str(description)), Field(flagName, Bool(isCompleted))];
      Writable(data) && MapToEntity(InsertedRow(id, data, now)) == Task(Int(id), Str(title), Str(description), isCompleted, Time(now), Time(now))
      && Get(InsertedRow(id, data, now), "is_completed") == Int(if isCompleted then 1 else 0)
  {
    var data := [Field(titleName, Str(title)), Field(descriptionName, Str(description)), Field(flagName, Bool(isCompleted))];
    InsertedThree(id, data, now, "title", "description", "is_completed");
  }

  /** Setting `isCompleted` on a task row gives the same task, now with
      the new flag and the update's `NOW()` as `updatedAt`. */
  lemma CompletedTask(row: Row, isCompleted: bool, now: int)
    ensures Writable([Field("isCompleted", Bool(isCompleted))])
    ensures MapToEntity(UpdatedRow(row, [Field("isCompleted", Bool(isCompleted))], now))
         == MapToEntity(row).(isCompleted := isCompleted, updatedAt := Time(now))
    ensures Get(UpdatedRow(row, [Field("isCompleted", Bool(isCompleted))], now), "is_completed")
         == Int(if isCompleted then 1 else 0)
  {
    IsCompletedColumn();
    CompletedTaskFor(row, "isCompleted", isCompleted, now);
  }

  /** `CompletedTask` for any field name with the column `is_completed`. */
  lemma CompletedTaskFor(row: Row, flagName: string, isCompleted: bool, now: int)
    requires CamelToSnake(flagName) == "is_completed"
    ensures Writable([Field(flagName, Bool(isCompleted))])
    ensures MapToEntity(UpdatedRow(row, [Field(flagName, Bool(isCompleted))], now))
         == MapToEntity(row).(isCompleted := isCompleted, updatedAt := Time(now))
    ensures Get(UpdatedRow(row, [Field(flagName, Bool(isCompleted))], now), "is_completed")
         == Int(if isCompleted then 1 else 0)
  {
    var data := [Field(flagName, Bool(isCompleted))];
    UpdatedRowColumns(row, data, now);
    UpdatedRowKeeps(row, data, now, "id");
    UpdatedRowKeeps(row, data, now, "title");
    UpdatedRowKeeps(row, data, now, "description");
    UpdatedRowKeeps(row, data, now, "created_at");
  }

  /** The row `completeTask` leaves: `is_completed` set to 1 and
      `updated_at` to the update's `NOW()`, every other column unchanged. */
  function MarkedRow(row: Row, now: int): Row {
    Assign(Assign(row, "is_completed", Int(1)), "updated_at", Time(now))
  }

  /** The update `completeTask` runs writes exactly `MarkedRow`. */
  lemma MarkedRowIsUpdate(row: Row, now: int)
    ensures UpdatedRow(row, [Field("isCompleted", Bool(true))], now) == MarkedRow(row, now)
  {
    IsCompletedColumn();
    OneFieldUpdate(row, "isCompleted", Bool(true), now);
  }

  /** A trimmed, non-blank text. */
  predicate Trimmed(s: string) {
    s != [] && Trim(s) == s
  }

  /** What every row written through the task endpoints holds: a trimmed,
      non-blank title and description, and a 0/1 completion flag. */
  predicate TaskRow(row: Row) {
    var t := MapToEntity(row);
    t.title.Str? && Trimmed(t.title.s) && t.description.Str? && Trimmed(t.description.s)
    && (Get(row, "is_completed") == Int(0) || Get(row, "is_completed") == Int(1))
  }

  predicate TaskTable(rows: map<int, Row>) {
    forall k :: k in rows ==> TaskRow(rows[k])
  }

  /** A task created from trimmed, non-blank text is a task row. */
  lemma NewTaskRow(id: int, title: string, description: string, now: int)
    requires Trimmed(title) && Trimmed(description)
    ensures TaskRow(InsertedRow(id, NewTaskData(title, description, false), now))
  {
    CreatedTask(id, title, description, false, now);
  }

  /** Trimming non-blank text gives trimmed, non-blank text. */
  lemma TrimmedTrim(s: string)
    requires Trim(s) != []
    ensures Trimmed(Trim(s))
  {
    TrimIdempotent(s);
  }

  /** Completing a task row keeps it a task row. */
  lemma CompletedRow(row: Row, now: int)
    requires TaskRow(row)
    ensures TaskRow(UpdatedRow(row, [Field("isCompleted", Bool(true))], now))
  {
    CompletedTask(row, true, now);
  }

  /** The condition and options of `findLatestUncompleted`. */
  function Uncompleted(): seq<Field> {
    [Field("isCompleted", Bool(false))]
  }

  function Latest(count: int): FindOptions {
    FindOptions(Some("createdAt"), Some(Desc), Some(count))
  }

  /** The text of a `find` with one condition and a descending order. */
  lemma OneConditionQuery(table: string, name: string, column: string, v: Value,
                          orderBy: string, orderColumn: string, limit: Option<int>)
    requires CamelToSnake(name) == column && CamelToSnake(orderBy) == orderColumn && orderBy != ""
    ensures FindQuery(table, [Field(name, v)], FindOptions(Some(orderBy), Some(Desc), limit))
         == Query("SELECT * FROM " + table + (" WHERE " + (column + " = ?")) + (" ORDER BY " + orderColumn + " " + "DESC")
                  + LimitClause(limit), [v])
  {
    var conditions := [Field(name, v)];
    assert Assignments(conditions) == [column + " = ?"];
  }

  /** The statement `findLatestUncompleted` sends. */
  lemma LatestUncompletedQuery(count: int)
    ensures FindQuery("task", Uncompleted(), Latest(count))
         == Query("SELECT * FROM task" + " WHERE is_completed = ?" + " ORDER BY created_at DESC" + LimitClause(Some(count)),
                  [Bool(false)])
  {
    IsCompletedColumn();
    CreatedAtColumn();
    OneConditionQuery("task", "isCompleted", "is_completed", Bool(false), "createdAt", "created_at", Some(count));
    SelectText();
    WhereText();
    OrderText();
  }

  lemma SelectText() ensures "SELECT * FROM " + "task" == "SELECT * FROM task" {}
  lemma WhereText() ensures " WHERE " + ("is_completed" + " = ?") == " WHERE is_completed = ?" {}
  lemma OrderText() ensures " ORDER BY " + "created_at" + " " + "DESC" == " ORDER BY created_at DESC" {}

  /** A row that `is_completed = false` selects maps to an uncompleted task. */
  lemma FlaggedFalse(rows: map<int, Row>, hi: int, name: string, options: FindOptions)
    requires CamelToSnake(name) == "is_completed"
    ensures forall t :: t in MapRows(MapToEntity, Select(rows, hi, [Field(name, Bool(false))], options)) ==>
      !t.isCompleted && exists k :: 1 <= k < hi && k in rows && MapToEntity(rows[k]) == t
  {
    var conditions := [Field(name, Bool(false))];
    var s := Select(rows, hi, conditions, options);
    SelectSound(rows, hi, conditions, options);
    forall t | t in MapRows(MapToEntity, s)
      ensures !t.isCompleted && exists k :: 1 <= k < hi && k in rows && MapToEntity(rows[k]) == t
    {
      var i :| 0 <= i < |s| && MapToEntity(s[i]) == t;
      assert s[i] in s;
      assert SqlEquals(Get(s[i], CamelToSnake(conditions[0].name)), conditions[0].value);
    }
  }

  /** Every task `findLatestUncompleted` returns is a task of the table
      that is not completed. */
  lemma LatestAreUncompleted(rows: map<int, Row>, hi: int, count: int)
    ensures forall t :: t in MapRows(MapToEntity, Select(rows, hi, Uncompleted(), Latest(count))) ==>
      !t.isCompleted && exists k :: 1 <= k < hi && k in rows && MapToEntity(rows[k]) == t
  {
    IsCompletedColumn();
    FlaggedFalse(rows, hi, "isCompleted", Latest(count));
  }

  /** They come newest first. */
  lemma LatestNewestFirst(rows: map<int, Row>, hi: int, count: int)
    ensures var tasks := MapRows(MapToEntity, Select(rows, hi, Uncompleted(), Latest(count)));
      forall i, j :: 0 <= i < j < |tasks| ==> KeyLe(tasks[j].createdAt, tasks[i].createdAt)
  {
    CreatedAtColumn();
    assert Ordering(Latest(count)) == Some(("created_at", Desc));
    SelectSorted(rows, hi, Uncompleted(), Latest(count));
  }

  /** A count from 1 to 1000 returns that many tasks, or every uncompleted
      task when there are fewer; a count of 0 sets no limit at all. */
  lemma LatestCount(rows: map<int, Row>, hi: int, count: int)
    ensures 1 <= count <= 1000 ==>
      |Select(rows, hi, Uncompleted(), Latest(count))| == Min(|Matching(rows, hi, Uncompleted())|, count)
    ensures count == 0 ==>
      forall k :: 1 <= k < hi && k in rows && Matches(rows[k], Uncompleted()) ==>
        rows[k] in Select(rows, hi, Uncompleted(), Latest(count))
  {
    if count == 0 {
      SelectComplete(rows, hi, Uncompleted(), Latest(count));
    } else if count <= 1000 {
      SelectBound(rows, hi, Uncompleted(), Latest(count));
    }
  }

  /** `TaskModel`: the mapper over table `task` with `MapToEntity` in place
      of the default mapping. The database it is constructed with is the
      stand-in table inside `base`. */
  class TaskModel {
    const base: BaseModel<Task>

    /** The inherited mapper is over table `task` with the task mapping. */
    ghost predicate Valid()
      reads this, base
    {
      base.tableName == "task" && base.mapToEntity == MapToEntity && base.Valid()
    }

    constructor(now: int, faults: map<nat, string>)
      ensures fresh(base)
      ensures base.tableName == "task" && base.mapToEntity == MapToEntity && base.faults == faults
      ensures base.rows == map[] && base.nextId == 1 && base.clock == now && base.log == []
      ensures Valid()
    {
      base := new BaseModel("task", MapToEntity, now, faults);
    }

    /** `findLatestUncompleted`: up to `count` uncompleted tasks, newest
        first (see the lemmas above for what that result holds). */
    method FindLatestUncompleted(count: int) returns (r: Result<seq<Task>>)
      modifies base`log
      ensures base.log == old(base.log) + [FindQuery(base.tableName, Uncompleted(), Latest(count))]
      ensures |old(base.log)| in base.faults ==> r == Err(base.faults[|old(base.log)|])
      ensures |old(base.log)| !in base.faults ==>
        r == Ok(MapRows(base.mapToEntity, Select(base.rows, base.nextId, Uncompleted(), Latest(count))))
    {
      r := base.Find(Uncompleted(), Latest(count));
    }
  }
}
