/** The generic table mapper `BaseModel<T>`: each operation builds its
    statement, hands it to the driver (here: records it in `log` and runs
    it against the stand-in table), and turns the rows that come back into
    entities with `mapToEntity`. */
module Base {
  import opened Wrappers
  import opened JsText
  import opened Naming
  import opened Values
  import opened Sql
  import opened StandIn

  /** The keys of a JavaScript object are distinct. */
  predicate DistinctNames(fields: seq<Field>) {
    forall i, j :: 0 <= i < j < |fields| ==> fields[i].name != fields[j].name
  }

  /** The columns the mapper sets itself. */
  predicate Reserved(column: string) {
    column == "id" || column == "created_at" || column == "updated_at"
  }

  /** `Omit<T, "id" | "createdAt" | "updatedAt">`: the data written by
      `create` and `update` never names one of the reserved columns. */
  predicate Writable(data: seq<Field>) {
    forall k :: 0 <= k < |data| ==> !Reserved(CamelToSnake(data[k].name))
  }

  /** Distinct fields may still name one column ("aB" and "a_b"). */
  predicate DistinctColumns(data: seq<Field>) {
    forall i, j :: 0 <= i < j < |data| ==> CamelToSnake(data[i].name) != CamelToSnake(data[j].name)
  }

  /** The columns written for `data`, as the table stores them. */
  function StoredColumns(data: seq<Field>): (r: Row)
    ensures |r| == |data|
    ensures forall k :: 0 <= k < |data| ==> r[k] == Field(CamelToSnake(data[k].name), Stored(data[k].value))
  {
    seq(|data|, k requires 0 <= k < |data| => Field(CamelToSnake(data[k].name), Stored(data[k].value)))
  }

  /** The columns the stand-in writes for an insert are the ones the
      INSERT statement names, in order, each holding the stored form of the
      value bound at its position. */
  lemma StoredColumnsMatchInsert(table: string, data: seq<Field>)
    ensures |StoredColumns(data)| == |Columns(data)| == |InsertQuery(table, data).params|
    ensures forall k :: 0 <= k < |data| ==>
      StoredColumns(data)[k].name == Columns(data)[k]
      && StoredColumns(data)[k].value == Stored(InsertQuery(table, data).params[k])
  {
  }

  /** The row an INSERT adds: the new id, the given columns, and both
      timestamps set to the statement's `NOW()`. */
  function InsertedRow(id: int, data: seq<Field>, now: int): Row {
    [Field("id", Int(id))] + StoredColumns(data) + [Field("created_at", Time(now)), Field("updated_at", Time(now))]
  }

  /** The inserted row holds the new id, the stored form of every value
      written, and the statement's `NOW()` in both timestamps. */
  lemma InsertedRowColumns(id: int, data: seq<Field>, now: int)
    requires Writable(data) && DistinctColumns(data)
    ensures Get(InsertedRow(id, data, now), "id") == Int(id)
    ensures Get(InsertedRow(id, data, now), "created_at") == Time(now)
    ensures Get(InsertedRow(id, data, now), "updated_at") == Time(now)
    ensures forall k :: 0 <= k < |data| ==>
      Get(InsertedRow(id, data, now), CamelToSnake(data[k].name)) == Stored(data[k].value)
  {
    var columns := StoredColumns(data);
    var stamps := [Field("created_at", Time(now)), Field("updated_at", Time(now))];
    var row := InsertedRow(id, data, now);
    assert row == [Field("id", Int(id))] + (columns + stamps);
    assert forall k :: 0 <= k < |columns| ==> columns[k].name != "created_at" && columns[k].name != "updated_at" by {
      forall k | 0 <= k < |columns| ensures columns[k].name != "created_at" && columns[k].name != "updated_at" {
        assert !Reserved(CamelToSnake(data[k].name));
      }
    }
    GetAppend(columns, stamps, "created_at");
    GetAppend(columns, stamps, "updated_at");
    assert Get(stamps, "updated_at") == Time(now) by {
      assert stamps[1..] == [Field("updated_at", Time(now))];
    }
    forall k | 0 <= k < |data|
      ensures Get(row, CamelToSnake(data[k].name)) == Stored(data[k].value)
    {
      var n := CamelToSnake(data[k].name);
      assert !Reserved(n);
      assert columns[k].name == n;
      GetAt(columns, k);
      GetAppend(columns, stamps, n);
    }
  }

  /** `InsertedRowColumns` for three fields with distinct, unreserved
      columns `a`, `b` and `c`. */
  lemma InsertedThree(id: int, data: seq<Field>, now: int, a: string, b: string, c: string)
    requires |data| == 3
    requires CamelToSnake(data[0].name) == a && CamelToSnake(data[1].name) == b && CamelToSnake(data[2].name) == c
    requires !Reserved(a) && !Reserved(b) && !Reserved(c) && a != b && a != c && b != c
    ensures Writable(data)
    ensures Get(InsertedRow(id, data, now), "id") == Int(id)
    ensures Get(InsertedRow(id, data, now), "created_at") == Time(now)
    ensures Get(InsertedRow(id, data, now), "updated_at") == Time(now)
    ensures Get(InsertedRow(id, data, now), a) == Stored(data[0].value)
    ensures Get(InsertedRow(id, data, now), b) == Stored(data[1].value)
    ensures Get(InsertedRow(id, data, now), c) == Stored(data[2].value)
  {
    InsertedRowColumns(id, data, now);
  }

  /** The row an insert of three fields adds, column by column, in the
      order the statement names them. */
  lemma InsertedThreeRow(id: int, data: seq<Field>, now: int, a: string, b: string, c: string)
    requires |data| == 3
    requires CamelToSnake(data[0].name) == a && CamelToSnake(data[1].name) == b && CamelToSnake(data[2].name) == c
    ensures InsertedRow(id, data, now)
         == [Field("id", Int(id)), Field(a, Stored(data[0].value)), Field(b, Stored(data[1].value)),
             Field(c, Stored(data[2].value)), Field("created_at", Time(now)), Field("updated_at", Time(now))]
  {
    assert StoredColumns(data) == [Field(a, Stored(data[0].value)), Field(b, Stored(data[1].value)), Field(c, Stored(data[2].value))];
  }

  /** Sets column `name` of `row` to `v`, adding the column if it is missing. */
  function Assign(row: Row, name: string, v: Value): (r: Row)
    ensures Get(r, name) == v
    ensures forall n :: n != name ==> Get(r, n) == Get(row, n)
  {
    if row == [] then [Field(name, v)]
    else if row[0].name == name then [Field(name, v)] + row[1..]
    else [row[0]] + Assign(row[1..], name, v)
  }

  /** Sets every column of `columns`, in order. */
  function AssignAll(row: Row, columns: Row): (r: Row)
    ensures forall n :: (forall k :: 0 <= k < |columns| ==> columns[k].name != n) ==> Get(r, n) == Get(row, n)
    decreases |columns|
  {
    if columns == [] then row
    else AssignAll(Assign(row, columns[0].name, columns[0].value), columns[1..])
  }

  lemma {:induction false} AssignAllGet(row: Row, columns: Row, k: int)
    requires 0 <= k < |columns| && DistinctNames(columns)
    ensures Get(AssignAll(row, columns), columns[k].name) == columns[k].value
    decreases |columns|
  {
    var next := Assign(row, columns[0].name, columns[0].value);
    if k == 0 {
      assert forall j :: 0 <= j < |columns[1..]| ==> columns[1..][j].name != columns[0].name by {
        forall j | 0 <= j < |columns[1..]| ensures columns[1..][j].name != columns[0].name {
          assert columns[1..][j] == columns[j + 1];
        }
      }
    } else {
      assert columns[1..][k - 1] == columns[k];
      assert DistinctNames(columns[1..]) by {
        forall i, j | 0 <= i < j < |columns[1..]| ensures columns[1..][i].name != columns[1..][j].name {
          assert columns[1..][i] == columns[i + 1] && columns[1..][j] == columns[j + 1];
        }
      }
      AssignAllGet(next, columns[1..], k - 1);
    }
  }

  /** The row after `UPDATE ... SET <data>, updated_at = NOW()`. */
  function UpdatedRow(row: Row, data: seq<Field>, now: int): Row {
    Assign(AssignAll(row, StoredColumns(data)), "updated_at", Time(now))
  }

  /** An update of one field is one assignment followed by `updated_at`. */
  lemma OneFieldUpdate(row: Row, name: string, v: Value, now: int)
    ensures UpdatedRow(row, [Field(name, v)], now) == Assign(Assign(row, CamelToSnake(name), Stored(v)), "updated_at", Time(now))
  {
    var columns := StoredColumns([Field(name, v)]);
    var once := Assign(row, CamelToSnake(name), Stored(v));
    assert |columns| == 1 && columns[0] == Field(CamelToSnake(name), Stored(v));
    assert columns[1..] == [];
    assert AssignAll(row, columns) == AssignAll(once, []) == once;
  }

  /** An update sets each of its columns to the stored form of its value
      and sets `updated_at`. */
  lemma UpdatedRowColumns(row: Row, data: seq<Field>, now: int)
    requires DistinctColumns(data) && Writable(data)
    ensures Get(UpdatedRow(row, data, now), "updated_at") == Time(now)
    ensures forall k :: 0 <= k < |data| ==>
      Get(UpdatedRow(row, data, now), CamelToSnake(data[k].name)) == Stored(data[k].value)
  {
    var columns := StoredColumns(data);
    assert DistinctNames(columns);
    forall k | 0 <= k < |data|
      ensures Get(UpdatedRow(row, data, now), CamelToSnake(data[k].name)) == Stored(data[k].value)
    {
      AssignAllGet(row, columns, k);
      assert CamelToSnake(data[k].name) != "updated_at" by { assert !Reserved(CamelToSnake(data[k].name)); }
    }
  }

  /** An update leaves every other column as it was. */
  lemma UpdatedRowKeeps(row: Row, data: seq<Field>, now: int, column: string)
    requires column != "updated_at" && forall k :: 0 <= k < |data| ==> CamelToSnake(data[k].name) != column
    ensures Get(UpdatedRow(row, data, now), column) == Get(row, column)
  {
  }

  /** The rows `rows.map(row => this.mapToEntity(row))`. */
  function MapRows<T>(f: Row -> T, rows: seq<Row>): (r: seq<T>)
    ensures |r| == |rows| && forall k :: 0 <= k < |rows| ==> r[k] == f(rows[k])
  {
    seq(|rows|, k requires 0 <= k < |rows| => f(rows[k]))
  }

  /** The default `mapToEntity`: every column under its camelCase name,
      a later column overwriting an earlier one that maps to the same name. */
  function DefaultEntity(row: Row): map<string, Value>
    decreases |row|
  {
    if row == [] then map[]
    else DefaultEntity(row[..|row| - 1])[SnakeToCamel(row[|row| - 1].name) := row[|row| - 1].value]
  }

  /** The default `mapToEntity` as the source writes it, a loop over the
      row's keys. */
  method MapToEntityDefault(row: Row) returns (entity: map<string, Value>)
    ensures entity == DefaultEntity(row)
  {
    entity := map[];
    var i := 0;
    while i < |row|
      invariant 0 <= i <= |row|
      invariant entity == DefaultEntity(row[..i])
    {
      assert row[..i + 1][..i] == row[..i];
      entity := entity[SnakeToCamel(row[i].name) := row[i].value];
      i := i + 1;
    }
    assert row[..|row|] == row;
  }

  predicate SnakeColumns(row: Row) {
    forall k :: 0 <= k < |row| ==> IsSnakeName(row[k].name)
  }

  /** The default entity has one key per column: its camelCase name. */
  lemma {:induction false} DefaultEntityKeys(row: Row)
    ensures forall n :: n in DefaultEntity(row) <==> exists k :: 0 <= k < |row| && SnakeToCamel(row[k].name) == n
    decreases |row|
  {
    if row != [] {
      var m := |row| - 1;
      var init := row[..m];
      DefaultEntityKeys(init);
      assert forall k :: 0 <= k < m ==> init[k] == row[k];
    }
  }

  /** For a row with distinct snake_case column names no column overwrites
      another: each column's value is found under its camelCase name. */
  lemma {:induction false} DefaultEntityValues(row: Row)
    requires DistinctNames(row) && SnakeColumns(row)
    ensures forall k :: 0 <= k < |row| ==>
      SnakeToCamel(row[k].name) in DefaultEntity(row) && DefaultEntity(row)[SnakeToCamel(row[k].name)] == row[k].value
    decreases |row|
  {
    if row != [] {
      var m := |row| - 1;
      var init := row[..m];
      assert forall k :: 0 <= k < m ==> init[k] == row[k];
      DefaultEntityValues(init);
      forall k | 0 <= k < m ensures SnakeToCamel(row[k].name) != SnakeToCamel(row[m].name) {
        SnakeToCamelInjective(row[k].name, row[m].name);
      }
    }
  }

  /** The error text of an update whose reload finds nothing. */
  lemma UpdateFailureText(table: string)
    ensures "Failed to " + "update" + " record in " + table == "Failed to update record in " + table
  {
  }

  /** `entity[key]`: the value under `key`, or `undefined` when the
      entity has no such key. */
  function Prop(entity: map<string, Value>, key: string): (v: Value)
    ensures key !in entity ==> v == Undefined
    ensures key in entity ==> v == entity[key]
  {
    if key in entity then entity[key] else Undefined
  }

  /** Reading a property of the default entity reads the column its name
      translates to: the value when the row has that column, `undefined`
      when it does not. */
  lemma DefaultEntityProp(row: Row, key: string, column: string)
    requires DistinctNames(row) && SnakeColumns(row)
    requires NoUnderscore(key) && CamelToSnake(key) == column
    ensures Prop(DefaultEntity(row), key) == Get(row, column)
  {
    DefaultEntityKeys(row);
    SnakeToCamelOfCamelToSnake(key);
    if key in DefaultEntity(row) {
      var k :| 0 <= k < |row| && SnakeToCamel(row[k].name) == key;
      CamelToSnakeOfSnakeToCamel(row[k].name);
      DefaultEntityValues(row);
      GetAt(row, k);
    }
  }

  class BaseModel<T> {
    const tableName: string
    /** `mapToEntity`, which a subclass may override. */
    const mapToEntity: Row -> T
    /** The stand-in table: rows by id, and the next AUTO_INCREMENT id. */
    var rows: map<int, Row>
    var nextId: int
    /** The value `NOW()` takes in the next statement that writes. */
    var clock: int
    /** The driver's failures: the statement at position `n` of `log`
        throws with message `faults[n]`, and every other one succeeds. */
    const faults: map<nat, string>
    /** Every statement handed to the driver, in order. */
    var log: seq<Query>

    /** Every row is stored under the id it holds, below the next id. */
    predicate Valid()
      reads this
    {
      1 <= nextId && forall k :: k in rows ==> 1 <= k < nextId && Get(rows[k], "id") == Int(k)
    }

    constructor(tableName: string, mapToEntity: Row -> T, now: int, faults: map<nat, string>)
      ensures this.tableName == tableName && this.mapToEntity == mapToEntity && this.faults == faults
      ensures rows == map[] && nextId == 1 && clock == now && log == []
      ensures Valid()
    {
      this.tableName := tableName;
      this.mapToEntity := mapToEntity;
      this.faults := faults;
      rows := map[];
      nextId := 1;
      clock := now;
      log := [];
    }

    /** `findById`: the entity of the row with that id, or none. */
    method FindById(id: int) returns (r: Result<Option<T>>)
      modifies this`log
      ensures log == old(log) + [FindByIdQuery(tableName, id)]
      ensures |old(log)| in faults ==> r == Err(faults[|old(log)|])
      ensures |old(log)| !in faults ==> r == Ok(if id in rows then Some(mapToEntity(rows[id])) else None)
    {
      var n := |log|;
      log := log + [FindByIdQuery(tableName, id)];
      if n in faults {
        return Err(faults[n]);
      }
      var found := if id in rows then [rows[id]] else [];
      if |found| == 0 {
        return Ok(None);
      }
      return Ok(Some(mapToEntity(found[0])));
    }

    /** `find`: builds the statement clause by clause, then maps every row
        the stand-in returns for it. */
    method Find(conditions: seq<Field>, options: FindOptions) returns (r: Result<seq<T>>)
      modifies this`log
      ensures log == old(log) + [FindQuery(tableName, conditions, options)]
      ensures |old(log)| in faults ==> r == Err(faults[|old(log)|])
      ensures |old(log)| !in faults ==> r == Ok(MapRows(mapToEntity, Select(rows, nextId, conditions, options)))
    {
      var values: seq<Value> := [];
      var whereText := "";
      if |conditions| > 0 {
        var clauses: seq<string> := [];
        var i := 0;
        while i < |conditions|
          invariant 0 <= i <= |conditions|
          invariant values == ValuesOf(conditions)[..i]
          invariant clauses == Assignments(conditions)[..i]
        {
          assert ValuesOf(conditions)[..i + 1] == ValuesOf(conditions)[..i] + [conditions[i].value];
          assert Assignments(conditions)[..i + 1] == Assignments(conditions)[..i] + [Assignment(conditions[i])];
          values := values + [conditions[i].value];
          clauses := clauses + [CamelToSnake(conditions[i].name) + " = ?"];
          i := i + 1;
        }
        assert values == ValuesOf(conditions);
        assert clauses == Assignments(conditions);
        whereText := " WHERE " + Join(clauses, " AND ");
      }
      assert values == ValuesOf(conditions);
      var orderText := "";
      if options.orderBy.Some? && options.orderBy.value != "" {
        var direction := options.orderDirection.GetOr(Asc);
        orderText := " ORDER BY " + CamelToSnake(options.orderBy.value) + " " + DirectionText(direction);
      }
      var limitText := "";
      if options.limit.Some? && options.limit.value != 0 {
        var safeLimit := SafeLimit(options.limit.value);
        limitText := " LIMIT " + IntToString(safeLimit);
      }
      var query := "SELECT * FROM " + tableName + whereText + orderText + limitText;
      var n := |log|;
      log := log + [Query(query, values)];
      if n in faults {
        return Err(faults[n]);
      }
      var found := Select(rows, nextId, conditions, options);
      return Ok(MapRows(mapToEntity, found));
    }

    /** The reload after a write: the entity, or the error the source
        throws when the row cannot be read back. */
    function Reloaded(found: Result<Option<T>>, action: string): (r: Result<T>)
      ensures found.Err? ==> r == Err(found.message)
      ensures found.Ok? && found.value.None? ==> r == Err("Failed to " + action + " record in " + tableName)
      ensures found.Ok? && found.value.Some? ==> r == Ok(found.value.value)
    {
      match found
      case Err(m) => Err(m)
      case Ok(None) => Err("Failed to " + action + " record in " + tableName)
      case Ok(Some(entity)) => Ok(entity)
    }

    /** `create`: inserts a row with the next id, then reloads it. A
        failing INSERT writes nothing; a failing reload leaves the row
        written and still reports the error. */
    method Create(data: seq<Field>) returns (r: Result<T>)
      requires Valid() && Writable(data)
      modifies this`rows, this`nextId, this`clock, this`log
      ensures Valid()
      ensures |old(log)| in faults ==>
        r == Err(faults[|old(log)|]) && rows == old(rows) && nextId == old(nextId)
        && clock == old(clock) && log == old(log) + [InsertQuery(tableName, data)]
      ensures |old(log)| !in faults ==>
        rows == old(rows)[old(nextId) := InsertedRow(old(nextId), data, old(clock))]
        && nextId == old(nextId) + 1 && clock == old(clock) + 1
        && log == old(log) + [InsertQuery(tableName, data), FindByIdQuery(tableName, old(nextId))]
      ensures |old(log)| !in faults && |old(log)| + 1 in faults ==> r == Err(faults[|old(log)| + 1])
      ensures |old(log)| !in faults && |old(log)| + 1 !in faults ==>
        r == Ok(mapToEntity(InsertedRow(old(nextId), data, old(clock))))
    {
      var n := |log|;
      log := log + [InsertQuery(tableName, data)];
      if n in faults {
        return Err(faults[n]);
      }
      var insertId := nextId;
      var row := InsertedRow(insertId, data, clock);
      assert Get(row, "id") == Int(insertId);
      rows := rows[insertId := row];
      nextId := nextId + 1;
      clock := clock + 1;
      var created := FindById(insertId);
      r := Reloaded(created, "create");
    }

    /** `update`: refuses an empty change before any statement, otherwise
        sets the columns and `updated_at`, then reloads the row. A failing
        reload leaves the row updated and still reports the error. */
    method Update(id: int, data: seq<Field>) returns (r: Result<T>)
      requires Valid() && Writable(data)
      modifies this`rows, this`clock, this`log
      ensures Valid()
      ensures |data| == 0 ==> r == Err("No fields to update") && rows == old(rows) && clock == old(clock) && log == old(log)
      ensures |data| > 0 && |old(log)| in faults ==>
        r == Err(faults[|old(log)|]) && rows == old(rows) && clock == old(clock)
        && log == old(log) + [UpdateQuery(tableName, id, data).value]
      ensures |data| > 0 && |old(log)| !in faults ==>
        clock == old(clock) + 1 && log == old(log) + [UpdateQuery(tableName, id, data).value, FindByIdQuery(tableName, id)]
        && (id in old(rows) ==> rows == old(rows)[id := UpdatedRow(old(rows)[id], data, old(clock))])
        && (id !in old(rows) ==> rows == old(rows))
      ensures |data| > 0 && |old(log)| !in faults && |old(log)| + 1 in faults ==> r == Err(faults[|old(log)| + 1])
      ensures |data| > 0 && |old(log)| !in faults && |old(log)| + 1 !in faults && id in old(rows) ==>
        r == Ok(mapToEntity(rows[id]))
      ensures |data| > 0 && |old(log)| !in faults && |old(log)| + 1 !in faults && id !in old(rows) ==>
        r == Err("Failed to update record in " + tableName)
    {
      if |data| == 0 {
        return Err("No fields to update");
      }
      var values := ValuesOf(data);
      values := values + [Int(id)];
      var query := "UPDATE " + tableName + " SET " + Join(Assignments(data), ", ") + ", updated_at = NOW() WHERE id = ?";
      assert Query(query, values) == UpdateQuery(tableName, id, data).value;
      var n := |log|;
      log := log + [Query(query, values)];
      if n in faults {
        return Err(faults[n]);
      }
      RunUpdate(id, data);
      var updated := FindById(id);
      UpdateFailureText(tableName);
      r := Reloaded(updated, "update");
    }

    /** The stand-in executing the UPDATE statement: the row with that id,
        if any, gets the new columns and `updated_at`. */
    method RunUpdate(id: int, data: seq<Field>)
      requires Valid() && Writable(data)
      modifies this`rows, this`clock
      ensures Valid() && clock == old(clock) + 1
      ensures id in old(rows) ==> rows == old(rows)[id := UpdatedRow(old(rows)[id], data, old(clock))]
      ensures id !in old(rows) ==> rows == old(rows)
    {
      if id in rows {
        var row := UpdatedRow(rows[id], data, clock);
        UpdatedRowKeepsId(rows[id], data, clock);
        rows := rows[id := row];
      }
      clock := clock + 1;
    }

    /** `delete`: true exactly when a row was removed. */
    method Delete(id: int) returns (r: Result<bool>)
      requires Valid()
      modifies this`rows, this`log
      ensures Valid()
      ensures log == old(log) + [DeleteQuery(tableName, id)]
      ensures |old(log)| in faults ==> r == Err(faults[|old(log)|]) && rows == old(rows)
      ensures |old(log)| !in faults ==> r == Ok(id in old(rows)) && rows == old(rows) - {id}
    {
      var n := |log|;
      log := log + [DeleteQuery(tableName, id)];
      if n in faults {
        return Err(faults[n]);
      }
      var affectedRows := if id in rows then 1 else 0;
      rows := rows - {id};
      return Ok(affectedRows > 0);
    }

      /** The keyed statements read the table the way SELECT does: on a
        valid table, `SELECT * FROM t WHERE id = ?` with no ORDER BY or
        LIMIT returns the row `FindById`, `Delete` and `Exists` look at,
        or no row. */
    lemma KeyedReadIsSelect(id: int)
      requires Valid()
      ensures Select(rows, nextId, ById(id), FindOptions(None, None, None)) == if id in rows then [rows[id]] else []
    {
      ScanById(rows, 1, nextId, id);
    }

    /** `exists`: true exactly when a row has that id. */
    method Exists(id: int) returns (r: Result<bool>)
      modifies this`log
      ensures log == old(log) + [ExistsQuery(tableName, id)]
      ensures |old(log)| in faults ==> r == Err(faults[|old(log)|])
      ensures |old(log)| !in faults ==> r == Ok(id in rows)
    {
      var n := |log|;
      log := log + [ExistsQuery(tableName, id)];
      if n in faults {
        return Err(faults[n]);
      }
      var count := if id in rows then 1 else 0;
      return Ok(count > 0);
    }
  }

  /** The condition a keyed statement (`WHERE id = ?`) applies. */
  function ById(id: int): seq<Field> {
    [Field("id", Int(id))]
  }

  /** A row holding id `k` matches `ById(id)` exactly when `k == id`. */
  lemma MatchesById(row: Row, k: int, id: int)
    requires Get(row, "id") == Int(k)
    ensures Matches(row, ById(id)) <==> k == id
  {
    CamelToSnakeLowerOnly("id");
    assert ById(id)[0] == Field("id", Int(id));
    assert SqlEquals(Int(k), Int(id)) <==> k == id;
  }

  /** Over rows stored under the id they hold, the scan from `lo` to `hi`
      filtered by `ById(id)` is that one row when its id lies in range,
      and nothing otherwise. */
  lemma {:induction false} ScanById(rows: map<int, Row>, lo: int, hi: int, id: int)
    requires forall k :: k in rows ==> Get(rows[k], "id") == Int(k)
    ensures Filter(Scan(rows, lo, hi), ById(id)) == if lo <= id < hi && id in rows then [rows[id]] else []
    decreases hi - lo
  {
    if lo < hi {
      ScanById(rows, lo + 1, hi, id);
      var rest := Scan(rows, lo + 1, hi);
      if lo in rows {
        MatchesById(rows[lo], lo, id);
        var s := [rows[lo]] + rest;
        assert Scan(rows, lo, hi) == s && s[0] == rows[lo] && s[1..] == rest;
        assert Filter(s, ById(id)) == (if lo == id then [rows[lo]] else []) + Filter(rest, ById(id));
      } else {
        assert Scan(rows, lo, hi) == rest;
      }
    }
  }

  /** An update never touches the id column. */
  lemma UpdatedRowKeepsId(row: Row, data: seq<Field>, now: int)
    requires Writable(data)
    ensures Get(UpdatedRow(row, data, now), "id") == Get(row, "id")
  {
    assert forall k :: 0 <= k < |StoredColumns(data)| ==> StoredColumns(data)[k].name != "id";
  }
}
