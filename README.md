# Task tracker core, modelled in Dafny

The system is a small task tracker.

- **Backend.** An Express server over one MySQL table `task`.
  - A generic table mapper `BaseModel<T>` builds parameterised SQL statements. It translates between camelCase field names and snake_case column names, and maps result rows to entities.
  - `TaskModel` specialises it for the `task` table. It adds the query for the latest uncompleted tasks and a row mapping that turns `is_completed` into a boolean.
  - Three controller handlers (`getTasks`, `createTask`, `completeTask`) validate their input, call the model, and answer with a fixed JSON envelope built by `ResponseHelper`.
- **Frontend.** A React app.
  - `App` holds the task list, a loading flag and an error message.
  - `TaskForm` holds the two input fields and a submitting flag.

The model has these parts, one module per concern:

| module | file | what it holds |
|---|---|---|
| `Wrappers` | `wrappers.dfy` | `Option` and `Result` |
| `JsText` | `jstext.dfy` | the JavaScript string operations the core relies on: `trim`, `parseInt(s, 10)` and `String(n)`, with `parseInt` proved to invert `String` on integers taken as exact |
| `Naming` | `naming.dfy` | `camelToSnake` and `snakeToCamel`, with both round trips |
| `Values` | `values.dfy` | dynamically typed values, rows and truthiness |
| `Sql` | `sql.dfy` | the statement builders of `BaseModel`, as pure functions returning the SQL text and the bound values |
| `Binding` | `binding.dfy` | proofs that every statement has exactly one `?` marker per bound value, each bound where its column is named |
| `StandIn` | `standin.dfy` | an in-memory stand-in for the MySQL table: a map from id to row, with the SELECT semantics (filter, stable sort, limit) |
| `Base` | `basemodel.dfy` | `BaseModel<T>` as a class over the stand-in table; it records every statement handed to the driver |
| `Tasks` | `task.dfy` | the `Task` entity, its row mapping, `TaskModel` and what `findLatestUncompleted` returns |
| `Response` | `response.dfy` | the envelope helpers |
| `TaskController` | `controller.dfy` | the three handlers as methods that change the shared task model and return `(statusCode, envelope)` |
| `Ui`, `TaskFormState`, `AppState` | `ui.dfy`, `taskform.dfy`, `app.dfy` | the frontend state: `TaskForm` and `App` as classes whose methods are the handlers |

Each handler is split at its `await`. The part before the API call and the part after it are separate methods, and where the call settles is a parameter.

The stand-in table is an assumption of the model, not behaviour of the source; the source hands every statement to the `mysql2` driver. Its assumptions:
- a SELECT scans rows in id order, keeps the rows whose columns equal the bound values, sorts them stably by the ORDER BY column, and keeps the first LIMIT rows;
- a boolean is stored as 0 or 1;
- an INSERT takes the next AUTO_INCREMENT id;
- `NOW()` reads a logical clock that every INSERT and UPDATE advances (a DELETE does not);
- the driver's failures are a map `faults`, fixed when the model is constructed: the statement at position `n` of the log throws with message `faults[n]`, standing for any error the driver throws, and every other statement succeeds. Each statement of a write can therefore fail on its own, including the reload after an INSERT or UPDATE that went through.

## Model

| member | source | states |
|---|---|---|
| JsText.TrimStart | backend/src/controllers/taskController.ts:22 | the result is a suffix of the input, everything dropped is whitespace, and the result starts with a non-whitespace character or is empty |
| JsText.TrimEnd | backend/src/controllers/taskController.ts:22 | the result is a prefix of the input, everything dropped is whitespace, and the result ends with a non-whitespace character or is empty |
| JsText.TrimSlice | backend/src/controllers/taskController.ts:31-32 | `s.trim()` is a contiguous slice of `s`, and everything around it is whitespace |
| JsText.TrimEmptyIffBlank | backend/src/controllers/taskController.ts:22-28 | `s.trim()` is empty exactly when every character of `s` is whitespace |
| JsText.TrimIdempotent | frontend/src/components/TaskForm.tsx:16-22 | a trimmed text has no whitespace at either end, and trimming it again changes nothing |
| JsText.LeadingDigits | backend/src/controllers/taskController.ts:45 | the longest prefix made of decimal digits |
| JsText.ParseInt | backend/src/controllers/taskController.ts:45-48 | `parseInt(s, 10)` is NaN exactly when no digit follows the leading whitespace and the optional sign |
| JsText.NatToString | backend/src/models/BaseModel.ts:70 | the decimal rendering is non-empty and made of digits only, and starts with `0` exactly for zero, so it has no leading zeros |
| JsText.IntToString | backend/src/controllers/taskController.ts:52 | `String(i)` is non-empty, starts with a minus sign exactly when `i` is negative, and is decimal digits after that |
| JsText.DigitsValueOfNatToString | backend/src/models/BaseModel.ts:68 | reading the digits of a rendered natural number gives that number |
| JsText.ParseIntOfIntToString | backend/src/models/BaseModel.ts:68 | `parseInt(String(i), 10) == i` for every integer `i`, JavaScript numbers taken as exact integers |
| JsText.NumberBetween | backend/src/controllers/taskController.ts:52-56 | a number written between two fixed texts reads back with `parseInt` from between them |
| Naming.CamelToSnake | backend/src/models/BaseModel.ts:183-185 | the result has no upper-case letter; its length is the input's length plus its number of upper-case letters |
| Naming.CamelToSnakeChars | backend/src/models/BaseModel.ts:183-185 | every character of the column name is from the input, `_` or a lower-case letter |
| Naming.CamelToSnakeAppend | backend/src/models/BaseModel.ts:183-185 | the translation works letter by letter: translating two names joined is joining their translations |
| Naming.CamelToSnakeLowerOnly | backend/src/models/BaseModel.ts:183-185 | a name without upper-case letters is its own column name |
| Naming.CamelToSnakeTwoWords | backend/src/models/BaseModel.ts:183-185 | a two-word name `aUb` becomes `a_ub` |
| Naming.SnakeToCamel | backend/src/models/BaseModel.ts:176-178 | the result is never longer than the input |
| Naming.SnakeToCamelOfCamelToSnake | backend/src/models/BaseModel.ts:176-185 | `snakeToCamel(camelToSnake(s)) == s` for every name without an underscore |
| Naming.CamelToSnakeOfSnakeToCamel | backend/src/models/BaseModel.ts:176-185 | `camelToSnake(snakeToCamel(c)) == c` for every snake_case column name |
| Naming.SnakeToCamelInjective | backend/src/models/BaseModel.ts:176-178 | distinct snake_case column names get distinct property names |
| Naming.UnderscoreBreaksRoundTrip | backend/src/models/BaseModel.ts:176-185 | the round trip fails for a name with an underscore: `a_b` comes back as `aB` |
| Values.Get | backend/src/models/Task.ts:37-42 | `row[name]` is the first field with that name, or `undefined` when there is none |
| Values.GetAt | backend/src/models/Task.ts:37-42 | a field not shadowed by an earlier field of the same name is what `row[name]` returns |
| Sql.SafeLimit | backend/src/models/BaseModel.ts:66-69 | the clamped limit lies in [1, 1000], equals the limit when that is already in range, is 1000 above the range and 1 below it |
| Sql.LimitClause | backend/src/models/BaseModel.ts:65-71 | there is no LIMIT clause exactly when the limit is absent or 0 |
| Sql.LimitClauseReadsBack | backend/src/models/BaseModel.ts:65-71 | for a limit other than 0 the clause starts with ` LIMIT ` and the number after it reads back as the clamped limit |
| Sql.FindQuery | backend/src/models/BaseModel.ts:44-74 | the statement reads the table and binds the condition values in key order; with no condition, ordering or limit it is `SELECT * FROM <table>` |
| Sql.KeyedQuery | backend/src/models/BaseModel.ts:21-24 | a statement keyed by id (`findById`, `delete` and `exists` build one) starts with its head, ends in `WHERE id = ?`, and binds the id as its one value |
| Sql.InsertQuery | backend/src/models/BaseModel.ts:83-94 | the statement inserts into the table and binds the field values in key order |
| Sql.UpdateQuery | backend/src/models/BaseModel.ts:112-115 | no fields gives the error `No fields to update`, and only then |
| Sql.UpdateQueryShape | backend/src/models/BaseModel.ts:117-126 | a non-empty update targets the table and binds the field values in key order, then the id |
| Binding.BindMarkerFree | backend/src/models/BaseModel.ts:74 | binding values to text without markers leaves the text unchanged |
| Binding.BindAppend | backend/src/models/BaseModel.ts:74 | binding to two joined texts binds the first values to the first text's markers and the rest to the second's |
| Binding.BindJoin | backend/src/models/BaseModel.ts:49-54 | in a joined list of `prefix ?` parts, the k-th value is bound right after the k-th prefix |
| Binding.WhereBinding | backend/src/models/BaseModel.ts:48-55 | the WHERE clause has one marker per condition, and the condition values bind in key order, each after its `column = ` |
| Binding.FindBinding | backend/src/models/BaseModel.ts:44-74 | the `find` statement has as many markers as bound values, and binding puts each condition value after its column, with ORDER BY and LIMIT unchanged |
| Binding.InsertBinding | backend/src/models/BaseModel.ts:83-94 | the INSERT statement has one marker per field, the values bind in field order, and the column list is the translated field names |
| Binding.SetListBinding | backend/src/models/BaseModel.ts:118-120 | the SET list has one marker per field, each field's value bound after its column |
| Binding.UpdateBinding | backend/src/models/BaseModel.ts:112-126 | a non-empty update builds a statement whose markers take the field values in order and then the id, with the SET list ending in `updated_at = NOW()` |
| Binding.FindByIdBinding | backend/src/models/BaseModel.ts:21-24 | `Sql.FindByIdQuery` is `SELECT * FROM <table> WHERE id = ?` with one marker, bound to the id |
| Binding.DeleteBinding | backend/src/models/BaseModel.ts:140-143 | `Sql.DeleteQuery` is `DELETE FROM <table> WHERE id = ?` with one marker, bound to the id |
| Binding.ExistsBinding | backend/src/models/BaseModel.ts:152-155 | `Sql.ExistsQuery` is `SELECT COUNT(*) as count FROM <table> WHERE id = ?` with one marker, bound to the id |
| StandIn.StoredReadsBack | backend/src/models/BaseModel.ts:89-94 | writing a value keeps its truthiness, writing it again changes nothing, and the stored value matches a condition bound to the value written, unless that is NULL or unset |
| StandIn.Scan | backend/src/models/BaseModel.ts:74 | the scanned rows are exactly the table's rows with ids in range |
| StandIn.Filter | backend/src/models/BaseModel.ts:74 | the kept rows are exactly the scanned rows that match every condition |
| StandIn.StrLeTotal | backend/src/models/BaseModel.ts:61 | any two strings are ordered one way or the other |
| StandIn.StrLeTrans | backend/src/models/BaseModel.ts:61 | the string order is transitive |
| StandIn.Insert | backend/src/models/BaseModel.ts:61 | inserting adds exactly one row and keeps a sorted list sorted |
| StandIn.Sort | backend/src/models/BaseModel.ts:61 | the sort is a permutation of its input and is sorted |
| StandIn.Ordered | backend/src/models/BaseModel.ts:58-62 | ORDER BY permutes the rows, and sorts them when an ordering is given |
| StandIn.Limited | backend/src/models/BaseModel.ts:65-71 | LIMIT keeps a prefix: all rows without a limit, otherwise as many as the clamped limit allows |
| StandIn.SelectSound | backend/src/models/BaseModel.ts:74 | every row `Select` returns is a row of the table that matches every condition |
| StandIn.SelectSorted | backend/src/models/BaseModel.ts:58-62 | with a non-empty `orderBy`, `Select` returns the rows sorted on the column the name translates to, in the given direction or else ascending (`Sql.Ordering`) |
| StandIn.SelectBound | backend/src/models/BaseModel.ts:65-71 | with a limit, the number of rows is the smaller of the matching rows and the clamped limit |
| StandIn.SelectComplete | backend/src/models/BaseModel.ts:74 | without a limit, every matching row comes back |
| StandIn.SelectKeepsFirst | backend/src/models/BaseModel.ts:58-71 | a matching row that the limit drops may not come before any row that is kept |
| Base.StoredColumnsMatchInsert | backend/src/models/BaseModel.ts:85-94 | the stored columns are the INSERT's column list in order, each holding the stored form of the value bound to its marker |
| Base.InsertedRowColumns | backend/src/models/BaseModel.ts:89-94 | the inserted row (`Base.InsertedRow`) holds the new id, each written field's stored value under its column, and `NOW()` in both timestamps |
| Base.InsertedThree | backend/src/models/BaseModel.ts:89-94 | the same, for the three-field inserts the task table uses |
| Base.InsertedThreeRow | backend/src/models/BaseModel.ts:89-94 | the exact row an insert of three fields adds |
| Base.Assign | backend/src/models/BaseModel.ts:123-126 | after `SET column = v`, the column reads `v` and every other column is unchanged |
| Base.AssignAll | backend/src/models/BaseModel.ts:123-126 | the SET list leaves every column it does not name unchanged |
| Base.AssignAllGet | backend/src/models/BaseModel.ts:123-126 | with distinct columns, each column the SET list names reads its new value |
| Base.OneFieldUpdate | backend/src/models/BaseModel.ts:118-126 | an update of one field sets its column and then `updated_at` |
| Base.UpdatedRowColumns | backend/src/models/BaseModel.ts:118-126 | after an update (`Base.UpdatedRow`), each written field's column holds its stored value and `updated_at` holds `NOW()` |
| Base.UpdatedRowKeeps | backend/src/models/BaseModel.ts:118-126 | an update leaves every other column unchanged |
| Base.UpdatedRowKeepsId | backend/src/models/BaseModel.ts:110-126 | an update never changes a row's id |
| Base.MapToEntityDefault | backend/src/models/BaseModel.ts:163-171 | the `for…in` loop builds exactly the default entity |
| Base.DefaultEntityKeys | backend/src/models/BaseModel.ts:163-171 | the default entity's (`Base.DefaultEntity`) keys are exactly the camelCase names of the row's columns |
| Base.DefaultEntityProp | backend/src/models/BaseModel.ts:163-171 | for distinct snake_case columns, the default entity's property for a name without an underscore is what the row holds under its column |
| Base.DefaultEntityValues | backend/src/models/BaseModel.ts:163-171 | for distinct snake_case columns, each column's value stands unchanged under its camelCase name |
| Base.BaseModel.constructor | backend/src/models/BaseModel.ts:12-15 | the mapper is over the given table and an empty table, with the given driver failures |
| Base.BaseModel.FindById | backend/src/models/BaseModel.ts:20-31 | sends the lookup statement, and returns the entity of the row with that id, null when there is none, or the driver's error |
| Base.BaseModel.Find | backend/src/models/BaseModel.ts:36-76 | sends the `find` statement, and returns the entities of the rows that SELECT returns, or the driver's error |
| Base.BaseModel.Create | backend/src/models/BaseModel.ts:82-102 | a failing INSERT leaves the table, next id and clock unchanged and returns its error; otherwise the table gains exactly the inserted row under the next id, the next id and clock advance, the reload by id is sent, and the result is the reload's error or that row mapped back |
| Base.BaseModel.Update | backend/src/models/BaseModel.ts:108-134 | no fields: fails with `No fields to update` before any statement; a failing UPDATE changes nothing and returns its error; otherwise only the row with that id changes, the clock advances, the reload is sent, and the result is the reload's error, the row reloaded, or `Failed to update record in <table>` when no row has that id |
| Base.BaseModel.RunUpdate | backend/src/models/BaseModel.ts:123-126 | the stand-in running the UPDATE: only the row with that id changes |
| Base.BaseModel.KeyedReadIsSelect | backend/src/models/BaseModel.ts:20-31 | on a valid table, the keyed lookup reads what the stand-in's SELECT returns for `WHERE id = ?` with no ORDER BY or LIMIT: the row with that id, or no row |
| Base.BaseModel.Delete | backend/src/models/BaseModel.ts:139-146 | the result is true exactly when a row with that id existed, and that row is removed |
| Base.BaseModel.Exists | backend/src/models/BaseModel.ts:151-158 | the result is true exactly when a row with that id exists |
| Tasks.MapToEntityRefinesDefault | backend/src/models/Task.ts:35-44 | for distinct snake_case columns, `Tasks.MapToEntity` reads each field from the default entity's property of the same name, with `Boolean(...)` on `isCompleted` |
| Tasks.MapToEntitySixColumns | backend/src/models/Task.ts:35-44 | the task depends only on the six task columns; any other column is dropped |
| Tasks.CompletionFlag | backend/src/models/Task.ts:40 | `is_completed` of 0, false, NULL or missing reads as not completed; any non-zero number or `true` reads as completed |
| Tasks.CreatedTask | backend/src/models/Task.ts:35-44 | creating a task and mapping back its inserted row gives exactly the values written, with the boolean surviving the 0/1 column |
| Tasks.InsertedTaskIsInsert | backend/src/models/BaseModel.ts:83-94 | the row a task insert adds is the new id, the two texts, 0, and `NOW()` twice |
| Tasks.CompletedTask | backend/src/models/Task.ts:35-44 | updating `isCompleted` on a row gives the same task with the new flag and the update's `NOW()` |
| Tasks.MarkedRowIsUpdate | backend/src/models/BaseModel.ts:118-126 | the update `{ isCompleted: true }` sets `is_completed` to 1 and `updated_at` to `NOW()` |
| Tasks.NewTaskRow | backend/src/controllers/taskController.ts:30-34 | a task created from trimmed, non-blank texts is a task row |
| Tasks.TrimmedTrim | backend/src/controllers/taskController.ts:31-32 | trimming a non-blank text gives a trimmed, non-blank text |
| Tasks.CompletedRow | backend/src/controllers/taskController.ts:59-61 | completing a task row keeps it a task row |
| Tasks.OneConditionQuery | backend/src/models/BaseModel.ts:44-71 | the exact text of a `find` with one condition and a descending order |
| Tasks.LatestUncompletedQuery | backend/src/models/Task.ts:21-29 | `findLatestUncompleted` sends `SELECT * FROM task WHERE is_completed = ? ORDER BY created_at DESC` with its LIMIT, bound to `[false]` |
| Tasks.FlaggedFalse | backend/src/models/Task.ts:21-29 | a row selected by `is_completed = false` maps to an uncompleted task |
| Tasks.LatestAreUncompleted | backend/src/models/Task.ts:21-29 | every task returned is a task of the table and not completed |
| Tasks.LatestNewestFirst | backend/src/models/Task.ts:21-29 | the tasks come in non-increasing `createdAt` order |
| Tasks.LatestCount | backend/src/models/Task.ts:21-29 | a count from 1 to 1000 returns that many tasks, or all uncompleted tasks when there are fewer; a count of 0 sets no limit |
| Tasks.TaskModel.constructor | backend/src/models/Task.ts:14-16 | the mapper is over table `task`, with the task mapping and the given driver failures |
| Tasks.TaskModel.FindLatestUncompleted | backend/src/models/Task.ts:21-29 | sends exactly the `find` with `{ isCompleted: false }`, ordered by `createdAt` descending and limited to `count` |
| Response.Success | backend/src/utils/response.ts:11-24 | an envelope that is not an error, with status `success`, the data unchanged, and the given message and status code |
| Response.Error | backend/src/utils/response.ts:26-39 | an error envelope, with status `error`, and the given message, status code and data |
| Response.BadRequest | backend/src/utils/response.ts:41-47 | an error envelope with status code 400 |
| Response.NotFound | backend/src/utils/response.ts:49-55 | an error envelope with status code 404 |
| Response.Defaults | backend/src/utils/response.ts:11-55 | the defaults: 200 `Success`; 500 `Internal server error` with null data; `Bad request`; `Resource not found` |
| TaskController.Failure | backend/src/controllers/taskController.ts:37-40 | a caught error gives a 500 error envelope with no data, carrying its message, or `Internal server error` when the message is empty |
| TaskController.NotFoundMessageNamesId | backend/src/controllers/taskController.ts:52 | the 404 message (`TaskController.NotFoundMessage`) is `Task with id `, the id, ` not found`, and the id reads back from it with `parseInt` |
| TaskController.CompletedMessageNamesId | backend/src/controllers/taskController.ts:56 | the 400 message (`TaskController.CompletedMessage`) is `Task with id `, the id, ` is already completed`, and the id reads back from it with `parseInt` |
| TaskController.GetTasks | backend/src/controllers/taskController.ts:8-16 | asks for the 5 latest uncompleted tasks and answers `Tasks retrieved successfully` with at most 5 tasks, none completed; a model error gives 500 |
| TaskController.CreateTask | backend/src/controllers/taskController.ts:18-41 | a blank title gives 400 `Title is required`, checked before the description; a blank description gives 400 `Description is required`; neither changes the table, next id, clock or log; otherwise the create goes as for `TaskController.CreateRow`, with both texts trimmed and not completed, and the reply is 500 with the error of the INSERT or of the reload, whichever fails first, or else 201 `Task created successfully` with the new task |
| TaskController.InsertTask | backend/src/controllers/taskController.ts:30-39 | the create step: the table as for `TaskController.CreateRow`, and 500 with the first failing statement's error, or else the 201 reply carrying the new task |
| TaskController.CreateRow | backend/src/controllers/taskController.ts:30-34 | `taskModel.create` with an incomplete new task (`TaskController.TaskInserted`): a failing INSERT changes nothing but the log; otherwise exactly the new row is added under the next id, the next id and clock advance by one, and the INSERT and the reload by that id are logged; the result is the first failing statement's error, or the new task with both timestamps the insert's `NOW()` |
| TaskController.CreateRetryAfterFailedReload | backend/src/models/BaseModel.ts:89-100 | when the INSERT succeeds and its reload fails, the task is written anyway, so a retry with the same body writes a second task with the same texts under the following id |
| TaskController.CompleteTask | backend/src/controllers/taskController.ts:43-68 | an id that `parseInt` cannot read gives 400 `Invalid task id` with nothing changed or sent; otherwise the steps go as for `TaskController.CompleteById` |
| TaskController.CompleteById | backend/src/controllers/taskController.ts:50-63 | the steps after the parse (`TaskController.CompletedById`): the lookup is sent; a failing lookup gives 500, an unknown id 404 `Task with id <id> not found`, a completed task 400 `Task with id <id> is already completed`, each with only the lookup logged and the table and clock unchanged; otherwise the update step follows as for `TaskController.MarkCompleted` |
| TaskController.MarkCompleted | backend/src/controllers/taskController.ts:59-63 | updating a task found not completed (`TaskController.MarkedCompleted`): the table as for `TaskController.CompleteRow`, and 500 with the first failing statement's error, or else 200 `Task completed successfully` with the task found, now completed and with the update's `NOW()` as `updatedAt` |
| TaskController.CompleteRow | backend/src/controllers/taskController.ts:59-61 | `taskModel.update` with `isCompleted: true` (`TaskController.TaskMarked`): a failing UPDATE changes nothing but the log; otherwise only that task's row changes, to completed with the update's `NOW()`, the clock advances by one, and the UPDATE and the reload are logged; the result is the first failing statement's error or the task found, now completed |
| TaskController.CompleteRetryAfterFailedReload | backend/src/controllers/taskController.ts:50-67 | when the UPDATE succeeds and its reload fails, the reply is 500 but the task is completed, so a retry is refused with 400 `Task with id <id> is already completed` |
| TaskController.CreateTaskKeepsTable | backend/src/controllers/taskController.ts:30-34 | a table of task rows (trimmed, non-blank texts and a 0/1 flag) stays one after a create |
| TaskController.CompleteTaskKeepsTable | backend/src/controllers/taskController.ts:59-61 | a table of task rows stays one after a complete |
| TaskFormState.TaskForm.constructor | frontend/src/components/TaskForm.tsx:9-11 | both fields empty, not submitting |
| TaskFormState.TaskForm.SubmitDisabled | frontend/src/components/TaskForm.tsx:58 | the button is disabled exactly while submitting or while a field is all whitespace |
| TaskFormState.TaskForm.Submit | frontend/src/components/TaskForm.tsx:13-22 | with a blank title or description, `onSubmit` is not called and nothing changes; otherwise it is called once with both values trimmed and `isSubmitting` is set; whenever the button is enabled the call happens |
| TaskFormState.TaskForm.Settle | frontend/src/components/TaskForm.tsx:22-27 | `isSubmitting` is cleared whatever the outcome; the fields are cleared only when `onSubmit` resolved |
| AppState.PrependCapped | frontend/src/App.tsx:35 | the new list has at most 5 tasks, starts with the new task, and continues with a prefix of the previous list; it is the whole previous list when that held fewer than 5 |
| AppState.RemoveById | frontend/src/App.tsx:46 | no task with that id remains, every other task stays as often as it was there, the order is kept, and an id not in the list changes nothing |
| AppState.FailureBanner | frontend/src/App.tsx:24-58 | a failed call shows the error banner unless what it threw is an `Error` with an empty message (the error text, `Ui.ErrorText`, is then empty) |
| AppState.CreateAllNewest | frontend/src/App.tsx:35 | after several creates the list holds the newest tasks first, then the earlier list, 5 at most |
| AppState.App.constructor | frontend/src/App.tsx:9-11 | no tasks, loading, no error |
| AppState.App.StartFetch | frontend/src/App.tsx:19-20 | before the fetch: loading, error cleared |
| AppState.App.FinishFetch | frontend/src/App.tsx:21-27 | loading ends either way; success replaces the list; failure keeps the list and shows the error, with fallback `An error occurred` |
| AppState.App.BeginAction | frontend/src/App.tsx:32 | the error is cleared before the API call |
| AppState.App.FinishCreate | frontend/src/App.tsx:33-38 | success prepends and caps the list; failure keeps the list and shows the error, with fallback `Failed to create task`; the handler itself always resolves |
| AppState.App.FinishComplete | frontend/src/App.tsx:44-49 | success removes the task by id; failure keeps the list and shows the error, with fallback `Failed to complete task` |
| AppState.SubmitCreate | frontend/src/App.tsx:61 | the form wired to `handleCreate`, changing nothing but the list, the error and the form: a blank field changes nothing; otherwise the fields are always cleared and submitting ends, whatever the API answers, while the list and the error follow the answer |

## Left out

- Timestamps are opaque ordered numbers. `new Date(...)` in `TaskModel.mapToEntity` (backend/src/models/Task.ts:41-42) is not modelled, so `createdAt`/`updatedAt` are the column values.
- Fractional, NaN and non-numeric limits are not modelled. `find` takes an integer or no limit, so `parseInt(String(limit), 10)` on anything other than an integer is left out.
- `undefined` among bound values, the driver's string escaping, and MySQL's type coercion in comparisons are not modelled. Comparisons follow the stand-in's rules.
- The stand-in table is an assumption, not the MySQL server. Rows with equal ORDER BY keys come back in id order, which MySQL does not promise. That is why the ordering lemmas state only the sort order.
- A row's column order is whatever the stand-in writes. The default `mapToEntity` is stated for any column order.
- Concurrency, the async scheduling of `await`, and `console.error` logging are left out. Each backend handler is one atomic step. Each frontend handler is two steps split at its `await`.
- `Omit<T, "id" | "createdAt" | "updatedAt">` is a compile-time type in the source. Here it is the `Writable` requirement of `Create` and `Update`.
- Request bodies are modelled only as optional strings. A falsy non-string title or description (`0`, `false`) gets the same 400 reply as a missing one. A truthy non-string makes `.trim()` throw, giving a 500 reply. Neither case is modelled.
- backend/src/config/database.ts and backend/src/index.ts are not part of this model. They hold the pool configuration, the DDL, the Express bootstrap, CORS, Swagger and `/health`, all I/O.
- backend/src/config/swagger.ts is not part of this model; it is static documentation.
- frontend/src/api/taskApi.ts is not part of this model. Its outcome is the `Settled` parameter of each frontend step.
- frontend/src/components/TaskList.tsx, frontend/src/components/TaskCard.tsx and the JSX of `App` and `TaskForm` are rendering only.
- frontend/src/types/task.ts is not part of this model. `UiTask` assumes the fields the backend sends.
- The tests under backend/src/__tests__ are not modelled; they need a live database and mocks.
- Base.BaseModel.Create: against the stand-in a reload by id that does not fail always finds the inserted row, so `Failed to create record in <table>` never arises there. The same reload step (`Base.BaseModel.Reloaded`) gives `Update` its `Failed to update record in <table>` error, which `Update`'s contract states.
- Sql.SafeLimit: JavaScript numbers are doubles, and the model takes them as exact integers. From 1e21 on, `String(limit)` is in exponent notation, so `parseInt` reads only its first digit: a limit of 1e21 gives `LIMIT 1` in the source, where the model gives 1000.
- JsText.IntToString: `String(n)` is modelled on exact integers. For a number of magnitude 1e21 or more JavaScript uses exponent notation (`1e+21`), which the model does not produce.
- JsText.ParseIntOfIntToString: the round trip is stated for exact integers. In JavaScript, `parseInt` rounds a result above 2^53 to the nearest double, and from 1e21 on the round trip through `String` fails.
- TaskController.CompleteTask: the parsed id is an exact integer. In the source an id above 2^53 is rounded by `parseInt`, and an id of 1e21 or more is written as `1e+21` in the 404 and 400 messages.
- Naming.SnakeToCamel: the contract bounds only its length. What it computes is stated through the round-trip and injectivity lemmas.

## Notes on the source

- A thrown value's message is handled differently in the two parts.
  - Backend handlers use `error.message || "Internal server error"`, so an error with an empty message gets the default text (`TaskController.Failure`).
  - Frontend handlers use `err instanceof Error ? err.message : fallback`, so an `Error` with an empty message shows an empty message (`Ui.ErrorText`).
- `TaskForm` clears its fields only when `onSubmit` resolves, and keeps them when it rejects (`TaskFormState.TaskForm.Settle`). Since `App.handleCreate` catches every error, the promise it returns always resolves. In the assembled app the fields are therefore cleared after every submission that passes the guard, including a failed create (`AppState.SubmitCreate`).
- `create` and `update` each send two statements, the write and the reload, with no transaction around them. When the write goes through and the reload fails, the handler answers 500 although the change is stored. A client that retries `createTask` then gets a second copy of the task (`TaskController.CreateRetryAfterFailedReload`), and one that retries `completeTask` gets 400 `already completed` (`TaskController.CompleteRetryAfterFailedReload`).
