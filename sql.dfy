/** The SQL statements the generic mapper sends to the driver, built as
    pure functions from the operation's arguments: the statement text with
    `?` markers, and the values bound to those markers in order
    (`BaseModel.findById`, `find`, `create`, `update`, `delete`, `exists`). */
module Sql {
  import opened Wrappers
  import opened JsText
  import opened Naming
  import opened Values

  datatype Direction = Asc | Desc

  /** The options object of `find`; every member may be left out. */
  datatype FindOptions = FindOptions(orderBy: Option<string>, orderDirection: Option<Direction>, limit: Option<int>)

  /** A statement and the values bound to its `?` markers, in order. */
  datatype Query = Query(sql: string, params: seq<Value>)

  /** `Math.max(1, Math.min(1000, parseInt(String(n), 10) || 10))`. */
  function SafeLimit(n: int): (k: int)
    ensures 1 <= k <= 1000
    ensures 1 <= n <= 1000 ==> k == n
    ensures n > 1000 ==> k == 1000
    ensures n < 0 ==> k == 1
  {
    ParseIntOfIntToString(n);
    var parsed := ParseInt(IntToString(n));
    var chosen := if parsed.None? || parsed.value == 0 then 10 else parsed.value;
    Max(1, Min(1000, chosen))
  }

  /** The LIMIT clause: present only when a limit other than 0 is given. */
  function LimitClause(limit: Option<int>): (r: string)
    ensures r == "" <==> limit.None? || limit.value == 0
  {
    if limit.None? || limit.value == 0 then "" else " LIMIT " + IntToString(SafeLimit(limit.value))
  }

  /** The number after `LIMIT` reads back as the clamped limit. */
  lemma LimitClauseReadsBack(n: int)
    requires n != 0
    ensures |LimitClause(Some(n))| > 7 && LimitClause(Some(n))[..7] == " LIMIT "
    ensures ParseInt(LimitClause(Some(n))[7..]) == Some(SafeLimit(n))
  {
    var k := SafeLimit(n);
    var clause := " LIMIT " + IntToString(k);
    assert LimitClause(Some(n)) == clause;
    NumberAfter(" LIMIT ", k);
  }

  /** A number written after a fixed text reads back from the end of that text. */
  lemma NumberAfter(p: string, k: int)
    ensures |p + IntToString(k)| > |p| && (p + IntToString(k))[..|p|] == p
    ensures ParseInt((p + IntToString(k))[|p|..]) == Some(k)
  {
    ParseIntOfIntToString(k);
    assert (p + IntToString(k))[|p|..] == IntToString(k);
  }

  /** `col = ?` for a field, with the field name translated to its column. */
  function Assignment(f: Field): string {
    CamelToSnake(f.name) + " = ?"
  }

  function Assignments(fields: seq<Field>): (r: seq<string>)
    ensures |r| == |fields|
  {
    seq(|fields|, k requires 0 <= k < |fields| => Assignment(fields[k]))
  }

  function Columns(fields: seq<Field>): (r: seq<string>)
    ensures |r| == |fields|
  {
    seq(|fields|, k requires 0 <= k < |fields| => CamelToSnake(fields[k].name))
  }

  function ValuesOf(fields: seq<Field>): (r: seq<Value>)
    ensures |r| == |fields|
  {
    seq(|fields|, k requires 0 <= k < |fields| => fields[k].value)
  }

  function Markers(n: nat): (r: seq<string>)
    ensures |r| == n
  {
    seq(n, k => "?")
  }

  function WhereClause(conditions: seq<Field>): string {
    if |conditions| == 0 then "" else " WHERE " + Join(Assignments(conditions), " AND ")
  }

  function DirectionText(d: Direction): string {
    match d
    case Asc => "ASC"
    case Desc => "DESC"
  }

  /** The column and direction `find` orders by, if any: an empty `orderBy`
      counts as absent, and the direction defaults to ascending. */
  function Ordering(options: FindOptions): (r: Option<(string, Direction)>)
    ensures r.Some? <==> options.orderBy.Some? && options.orderBy.value != ""
    ensures r.Some? ==> r.value.0 == CamelToSnake(options.orderBy.value)
    ensures r.Some? && options.orderDirection.None? ==> r.value.1 == Asc
    ensures r.Some? && options.orderDirection.Some? ==> r.value.1 == options.orderDirection.value
  {
    if options.orderBy.Some? && options.orderBy.value != "" then
      Some((CamelToSnake(options.orderBy.value), options.orderDirection.GetOr(Asc)))
    else None
  }

  function OrderClause(options: FindOptions): string {
    match Ordering(options)
    case None => ""
    case Some((column, direction)) => " ORDER BY " + column + " " + DirectionText(direction)
  }

  /** `find`: reads the table, binds the condition values in key order,
      and with no condition, ordering or limit reads every row. */
  function FindQuery(table: string, conditions: seq<Field>, options: FindOptions): (q: Query)
    ensures "SELECT * FROM " + table <= q.sql
    ensures |q.params| == |conditions| && forall k :: 0 <= k < |conditions| ==> q.params[k] == conditions[k].value
    ensures conditions == [] && options.orderBy.None? && options.limit.None? ==> q.sql == "SELECT * FROM " + table
  {
    Query("SELECT * FROM " + table + WhereClause(conditions) + OrderClause(options) + LimitClause(options.limit),
          ValuesOf(conditions))
  }

  /** A statement keyed by id: `head` followed by the `id = ?` that ends
      it, with the id the one value bound. */
  function KeyedQuery(head: string, id: int): (q: Query)
    ensures head <= q.sql
    ensures q.params == [Int(id)] && |q.sql| >= 13 && q.sql[|q.sql| - 13..] == " WHERE id = ?"
  {
    assert (head + " WHERE id = ?")[|head|..] == " WHERE id = ?";
    Query(head + " WHERE id = ?", [Int(id)])
  }

  /** `findById`: reads the table by id. */
  function FindByIdQuery(table: string, id: int): Query {
    KeyedQuery("SELECT * FROM " + table, id)
  }

  /** `create`: writes into the table and binds the field values in key
      order. */
  function InsertQuery(table: string, data: seq<Field>): (q: Query)
    ensures "INSERT INTO " + table + " (" <= q.sql
    ensures |q.params| == |data| && forall k :: 0 <= k < |data| ==> q.params[k] == data[k].value
  {
    Query("INSERT INTO " + table + " (" + Join(Columns(data), ", ") + ") VALUES (" + Join(Markers(|data|), ", ") + ")",
          ValuesOf(data))
  }

  /** The UPDATE statement, or the error `update` throws before any query
      when it is given no field. */
  function UpdateQuery(table: string, id: int, data: seq<Field>): (r: Result<Query>)
    ensures r.Err? <==> |data| == 0
    ensures r.Err? ==> r.message == "No fields to update"
  {
    if |data| == 0 then Err("No fields to update")
    else Ok(Query("UPDATE " + table + " SET " + Join(Assignments(data), ", ") + ", updated_at = NOW() WHERE id = ?",
                  ValuesOf(data) + [Int(id)]))
  }

  /** A built `UPDATE` targets `table`, binds the new values in field
      order and the id last. */
  lemma UpdateQueryShape(table: string, id: int, data: seq<Field>)
    requires data != []
    ensures "UPDATE " + table + " SET " <= UpdateQuery(table, id, data).value.sql
    ensures |UpdateQuery(table, id, data).value.params| == |data| + 1
    ensures UpdateQuery(table, id, data).value.params[|data|] == Int(id)
    ensures forall k :: 0 <= k < |data| ==> UpdateQuery(table, id, data).value.params[k] == data[k].value
  {
  }

  /** `delete`: removes from the table by id. */
  function DeleteQuery(table: string, id: int): Query {
    KeyedQuery("DELETE FROM " + table, id)
  }

  /** `exists`: counts the rows of the table with that id. */
  function ExistsQuery(table: string, id: int): Query {
    KeyedQuery("SELECT COUNT(*) as count FROM " + table, id)
  }
}
