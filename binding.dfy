/** How the driver pairs the bound values with the `?` markers of a
    statement, and the proof that every statement the mapper builds has
    exactly one marker per bound value, each standing where its field's
    column is named. */
module Binding {
  import opened Wrappers
  import opened JsText
  import opened Naming
  import opened Values
  import opened Sql

  /** No `?` in the text. */
  predicate MarkerFree(s: string) {
    '?' !in s
  }

  lemma MarkerFreeCount(s: string)
    requires MarkerFree(s)
    ensures Count('?', s) == 0
  {
  }

  /** The driver accepts a statement only when it has as many markers as
      bound values. */
  predicate Consistent(q: Query) {
    Count('?', q.sql) == |q.params|
  }

  /** The text a bound value stands for once inlined (string escaping is
      not modelled). */
  function Render(v: Value): string {
    match v
    case Undefined => "NULL"
    case Null => "NULL"
    case Bool(b) => if b then "true" else "false"
    case Int(i) => IntToString(i)
    case Str(s) => "'" + s + "'"
    case Time(t) => IntToString(t)
  }

  /** Replaces the markers of `sql`, left to right, by the bound values in
      order; markers beyond the last value are left in place. */
  function Bind(sql: string, params: seq<Value>): string
    decreases |sql|
  {
    if sql == [] then []
    else if sql[0] == '?' && params != [] then Render(params[0]) + Bind(sql[1..], params[1..])
    else [sql[0]] + Bind(sql[1..], params)
  }

  lemma {:induction false} BindMarkerFree(s: string, params: seq<Value>)
    requires MarkerFree(s)
    ensures Bind(s, params) == s
  {
    if s != [] {
      BindMarkerFree(s[1..], params);
    }
  }

  /** Binding a concatenation: the first part consumes as many values as it
      has markers, the second part the rest. */
  lemma BindAppend(a: string, b: string, params: seq<Value>)
    requires Count('?', a) <= |params|
    ensures Bind(a + b, params) == Bind(a, params[..Count('?', a)]) + Bind(b, params[Count('?', a)..])
  {
    var n := Count('?', a);
    assert params == params[..n] + params[n..];
    BindSplit(a, b, params[..n], params[n..]);
  }

  /** Binding a concatenation: the first part consumes exactly its own
      values, the second part the rest. */
  lemma {:induction false} BindSplit(a: string, b: string, ps: seq<Value>, qs: seq<Value>)
    requires Count('?', a) == |ps|
    ensures Bind(a + b, ps + qs) == Bind(a, ps) + Bind(b, qs)
  {
    if a == [] {
      assert a + b == b;
      assert ps + qs == qs;
    } else {
      CountCons(a);
      assert (a + b)[0] == a[0] && (a + b)[1..] == a[1..] + b;
      if a[0] == '?' {
        assert (ps + qs)[0] == ps[0] && (ps + qs)[1..] == ps[1..] + qs;
        BindSplit(a[1..], b, ps[1..], qs);
        var r, x, y := Render(ps[0]), Bind(a[1..], ps[1..]), Bind(b, qs);
        assert r + (x + y) == (r + x) + y;
      } else {
        BindSplit(a[1..], b, ps, qs);
        var x, y := Bind(a[1..], ps), Bind(b, qs);
        assert [a[0]] + (x + y) == ([a[0]] + x) + y;
      }
    }
  }

  /** Counting markers one character at a time. */
  lemma CountCons(a: string)
    requires a != []
    ensures Count('?', a) == (if a[0] == '?' then 1 else 0) + Count('?', a[1..])
  {
    assert a == [a[0]] + a[1..];
    assert multiset(a) == multiset([a[0]]) + multiset(a[1..]);
  }

  lemma CamelToSnakeMarkerFree(s: string)
    requires MarkerFree(s)
    ensures MarkerFree(CamelToSnake(s))
  {
    CamelToSnakeChars(s);
  }

  /** Parts each ending in one marker after a marker-free prefix. */
  function Marked(prefixes: seq<string>): (r: seq<string>)
    ensures |r| == |prefixes|
  {
    seq(|prefixes|, k requires 0 <= k < |prefixes| => prefixes[k] + "?")
  }

  /** The same parts with the marker replaced by its bound value. */
  function Inlined(prefixes: seq<string>, params: seq<Value>): (r: seq<string>)
    requires |prefixes| == |params|
    ensures |r| == |prefixes|
  {
    seq(|prefixes|, k requires 0 <= k < |prefixes| => prefixes[k] + Render(params[k]))
  }

  /** A joined list of marked parts holds one marker per part. */
  lemma {:induction false} CountJoin(prefixes: seq<string>, sep: string)
    requires MarkerFree(sep)
    requires forall k :: 0 <= k < |prefixes| ==> MarkerFree(prefixes[k])
    ensures Count('?', Join(Marked(prefixes), sep)) == |prefixes|
  {
    var parts := Marked(prefixes);
    if |prefixes| == 0 {
      assert Join(parts, sep) == [];
    } else if |prefixes| == 1 {
      assert Join(parts, sep) == parts[0];
      assert parts[0] == prefixes[0] + "?";
    } else {
      assert parts[1..] == Marked(prefixes[1..]);
      CountJoin(prefixes[1..], sep);
      var rest := Join(parts[1..], sep);
      assert Join(parts, sep) == parts[0] + (sep + rest);
      assert parts[0] == prefixes[0] + "?";
    }
  }

  /** One marked part takes the first value. */
  lemma MarkedPart(p: string, v: Value, rest: seq<Value>)
    requires MarkerFree(p)
    ensures Count('?', p + "?") == 1
    ensures Bind(p + "?", [v] + rest) == p + Render(v)
  {
    BindAfterFree(p, "?", [v] + rest);
    assert "?"[1..] == [];
  }

  lemma JoinStep(p: string, v: Value, sep: string, rest: string, vs: seq<Value>)
    requires MarkerFree(p) && MarkerFree(sep) && Count('?', rest) == |vs|
    ensures Bind((p + "?") + (sep + rest), [v] + vs) == (p + Render(v)) + (sep + Bind(rest, vs))
  {
    var ps := [v] + vs;
    MarkedPart(p, v, []);
    BindAppend(p + "?", sep + rest, ps);
    assert ps[..1] == [v] + [];
    assert ps[1..] == vs;
    BindAfterFree(sep, rest, vs);
  }

  lemma JoinCons(parts: seq<string>, sep: string)
    requires |parts| >= 2
    ensures Join(parts, sep) == parts[0] + (sep + Join(parts[1..], sep))
  {
  }

  lemma MarkedCons(prefixes: seq<string>)
    requires |prefixes| >= 1
    ensures Marked(prefixes)[0] == prefixes[0] + "?"
    ensures Marked(prefixes)[1..] == Marked(prefixes[1..])
  {
  }

  lemma InlinedCons(prefixes: seq<string>, params: seq<Value>)
    requires |prefixes| == |params| >= 1
    ensures Inlined(prefixes, params)[0] == prefixes[0] + Render(params[0])
    ensures Inlined(prefixes, params)[1..] == Inlined(prefixes[1..], params[1..])
  {
  }

  lemma BindJoinOne(prefixes: seq<string>, params: seq<Value>, sep: string)
    requires |prefixes| == |params| == 1 && MarkerFree(prefixes[0])
    ensures Bind(Join(Marked(prefixes), sep), params) == Join(Inlined(prefixes, params), sep)
  {
    MarkedCons(prefixes);
    InlinedCons(prefixes, params);
    MarkedPart(prefixes[0], params[0], []);
    assert params == [params[0]] + [];
  }

  lemma BindJoinCons(prefixes: seq<string>, params: seq<Value>, sep: string)
    requires |prefixes| == |params| >= 2
    requires MarkerFree(sep) && MarkerFree(prefixes[0])
    requires Count('?', Join(Marked(prefixes[1..]), sep)) == |prefixes| - 1
    requires Bind(Join(Marked(prefixes[1..]), sep), params[1..]) == Join(Inlined(prefixes[1..], params[1..]), sep)
    ensures Bind(Join(Marked(prefixes), sep), params) == Join(Inlined(prefixes, params), sep)
  {
    MarkedCons(prefixes);
    InlinedCons(prefixes, params);
    JoinCons(Marked(prefixes), sep);
    JoinCons(Inlined(prefixes, params), sep);
    JoinStep(prefixes[0], params[0], sep, Join(Marked(prefixes[1..]), sep), params[1..]);
    assert [params[0]] + params[1..] == params;
  }

  /** Binding a joined list of marked parts puts the k-th value into the
      k-th part. */
  lemma {:induction false} BindJoin(prefixes: seq<string>, params: seq<Value>, sep: string)
    requires |prefixes| == |params|
    requires MarkerFree(sep)
    requires forall k :: 0 <= k < |prefixes| ==> MarkerFree(prefixes[k])
    ensures Bind(Join(Marked(prefixes), sep), params) == Join(Inlined(prefixes, params), sep)
  {
    if |prefixes| == 0 {
      assert Join(Marked(prefixes), sep) == [];
      assert Join(Inlined(prefixes, params), sep) == [];
    } else if |prefixes| == 1 {
      BindJoinOne(prefixes, params, sep);
    } else {
      BindJoin(prefixes[1..], params[1..], sep);
      CountJoin(prefixes[1..], sep);
      BindJoinCons(prefixes, params, sep);
    }
  }

  lemma MarkerFreeAppend(a: string, b: string)
    requires MarkerFree(a) && MarkerFree(b)
    ensures MarkerFree(a + b)
  {
  }

  lemma {:induction false} JoinMarkerFree(parts: seq<string>, sep: string)
    requires MarkerFree(sep)
    requires forall k :: 0 <= k < |parts| ==> MarkerFree(parts[k])
    ensures MarkerFree(Join(parts, sep))
  {
    if |parts| > 1 {
      JoinMarkerFree(parts[1..], sep);
      MarkerFreeAppend(parts[0], sep);
      MarkerFreeAppend(parts[0] + sep, Join(parts[1..], sep));
    }
  }

  /** A marker-free prefix is copied as it is. */
  lemma BindAfterFree(a: string, b: string, params: seq<Value>)
    requires MarkerFree(a)
    ensures Bind(a + b, params) == a + Bind(b, params)
    ensures Count('?', a + b) == Count('?', b)
  {
    BindMarkerFree(a, []);
    BindAppend(a, b, params);
    assert params[..0] == [] && params[0..] == params;
  }

  /** A marker-free suffix after a part that consumes every value is
      copied as it is. */
  lemma BindBeforeFree(a: string, b: string, params: seq<Value>)
    requires MarkerFree(b) && Count('?', a) == |params|
    ensures Bind(a + b, params) == Bind(a, params) + b
    ensures Count('?', a + b) == |params|
  {
    BindMarkerFree(b, []);
    BindAppend(a, b, params);
    assert params[..|params|] == params && params[|params|..] == [];
  }

  predicate NamesMarkerFree(fields: seq<Field>) {
    forall k :: 0 <= k < |fields| ==> MarkerFree(fields[k].name)
  }

  /** `col = ` for each field: what precedes each marker of a WHERE or SET list. */
  function ColumnPrefixes(fields: seq<Field>): (r: seq<string>)
    ensures |r| == |fields|
  {
    seq(|fields|, k requires 0 <= k < |fields| => CamelToSnake(fields[k].name) + " = ")
  }

  lemma AssignmentsAreMarked(fields: seq<Field>)
    requires NamesMarkerFree(fields)
    ensures Assignments(fields) == Marked(ColumnPrefixes(fields))
    ensures forall k :: 0 <= k < |fields| ==> MarkerFree(ColumnPrefixes(fields)[k])
  {
    forall k | 0 <= k < |fields|
      ensures Assignments(fields)[k] == Marked(ColumnPrefixes(fields))[k]
      ensures MarkerFree(ColumnPrefixes(fields)[k])
    {
      var column := CamelToSnake(fields[k].name);
      CamelToSnakeMarkerFree(fields[k].name);
      assert column + " = ?" == (column + " = ") + "?";
      MarkerFreeAppend(column, " = ");
    }
  }

  /** The WHERE clause with each condition's value written in place of its marker. */
  function InlinedWhere(conditions: seq<Field>): string {
    if |conditions| == 0 then ""
    else " WHERE " + Join(Inlined(ColumnPrefixes(conditions), ValuesOf(conditions)), " AND ")
  }

  lemma IntToStringMarkerFree(i: int)
    ensures MarkerFree(IntToString(i))
  {
    var r := IntToString(i);
    assert forall k :: 0 <= k < |r| ==> r[k] != '?';
  }

  lemma LimitMarkerFree(limit: Option<int>)
    ensures MarkerFree(LimitClause(limit))
  {
    if limit.Some? && limit.value != 0 {
      LimitTextMarkerFree(SafeLimit(limit.value));
    }
  }

  lemma LimitTextMarkerFree(k: int)
    ensures MarkerFree(" LIMIT " + IntToString(k))
  {
    IntToStringMarkerFree(k);
    MarkerFreeAppend(" LIMIT ", IntToString(k));
  }

  lemma OrderMarkerFree(options: FindOptions)
    requires options.orderBy.Some? ==> MarkerFree(options.orderBy.value)
    ensures MarkerFree(OrderClause(options))
  {
    match Ordering(options)
    case None =>
      assert OrderClause(options) == "";
    case Some((column, direction)) =>
      var dir := DirectionText(direction);
      assert OrderClause(options) == " ORDER BY " + column + " " + dir;
      CamelToSnakeMarkerFree(options.orderBy.value);
      MarkerFreeAppend(" ORDER BY ", column);
      MarkerFreeAppend(" ORDER BY " + column, " ");
      MarkerFreeAppend(" ORDER BY " + column + " ", dir);
  }

  /** A part that consumes every value, between marker-free text. */
  lemma Framed(a: string, m: string, b: string, params: seq<Value>)
    requires MarkerFree(a) && MarkerFree(b) && Count('?', m) == |params|
    ensures Count('?', a + m + b) == |params|
    ensures Bind(a + m + b, params) == a + Bind(m, params) + b
  {
    BindAfterFree(a, m, params);
    BindBeforeFree(a + m, b, params);
  }

  /** The same, with the marker-free text after the part in two pieces. */
  lemma Framed2(a: string, m: string, b: string, c: string, params: seq<Value>)
    requires MarkerFree(a) && MarkerFree(b) && MarkerFree(c) && Count('?', m) == |params|
    ensures Count('?', a + m + b + c) == |params|
    ensures Bind(a + m + b + c, params) == a + Bind(m, params) + b + c
  {
    MarkerFreeAppend(b, c);
    Framed(a, m, b + c, params);
    assert a + m + b + c == a + m + (b + c);
    assert a + Bind(m, params) + b + c == a + Bind(m, params) + (b + c);
  }

  /** Two parts bound one after the other. */
  lemma BindSequence(x: string, y: string, ps: seq<Value>, qs: seq<Value>)
    requires Count('?', x) == |ps| && Count('?', y) == |qs|
    ensures Count('?', x + y) == |ps| + |qs|
    ensures Bind(x + y, ps + qs) == Bind(x, ps) + Bind(y, qs)
  {
    BindAppend(x, y, ps + qs);
    assert (ps + qs)[..|ps|] == ps && (ps + qs)[|ps|..] == qs;
  }

  /** Marker-free text and one marker, bound to an id. */
  lemma KeyMarker(key: string, id: int)
    requires MarkerFree(key)
    ensures Count('?', key + "?") == 1
    ensures Bind(key + "?", [Int(id)]) == key + IntToString(id)
  {
    MarkedPart(key, Int(id), []);
    assert [Int(id)] + [] == [Int(id)];
  }

  /** A marker-free head, a part consuming `ps`, then marker-free text and
      a last marker bound to an id. */
  lemma KeyedAfter(a: string, m: string, key: string, tail: string, ps: seq<Value>, id: int)
    requires MarkerFree(a) && MarkerFree(key) && Count('?', m) == |ps| && tail == key + "?"
    ensures Count('?', a + m + tail) == |ps| + 1
    ensures Bind(a + m + tail, ps + [Int(id)]) == a + Bind(m, ps) + key + IntToString(id)
  {
    BindAfterFree(a, m, ps);
    KeyMarker(key, id);
    BindSequence(a + m, tail, ps, [Int(id)]);
    var b := Bind(m, ps);
    var i := IntToString(id);
    assert (a + b) + (key + i) == a + b + key + i;
  }

  /** A marker-free head, then marker-free text and a last marker bound to
      an id. */
  lemma KeyedTail(head: string, key: string, tail: string, id: int)
    requires MarkerFree(head) && MarkerFree(key) && tail == key + "?"
    ensures Count('?', head + tail) == 1
    ensures Bind(head + tail, [Int(id)]) == head + key + IntToString(id)
  {
    BindAfterFree(head, tail, [Int(id)]);
    KeyMarker(key, id);
    assert head + (key + IntToString(id)) == head + key + IntToString(id);
  }

  /** The WHERE clause has one marker per condition, and binding puts
      each condition's value after its own column. */
  lemma WhereBinding(conditions: seq<Field>)
    requires NamesMarkerFree(conditions)
    ensures Count('?', WhereClause(conditions)) == |conditions|
    ensures Bind(WhereClause(conditions), ValuesOf(conditions)) == InlinedWhere(conditions)
  {
    var params := ValuesOf(conditions);
    if |conditions| == 0 {
      assert WhereClause(conditions) == "";
      BindMarkerFree("", params);
    } else {
      var list := Join(Assignments(conditions), " AND ");
      assert WhereClause(conditions) == " WHERE " + list;
      AssignmentsAreMarked(conditions);
      CountJoin(ColumnPrefixes(conditions), " AND ");
      BindJoin(ColumnPrefixes(conditions), params, " AND ");
      BindAfterFree(" WHERE ", list, params);
    }
  }

  /** `find`: one marker per condition, and the k-th bound value is the
      k-th condition's value, compared with that condition's column. */
  lemma FindBinding(table: string, conditions: seq<Field>, options: FindOptions)
    requires MarkerFree(table) && NamesMarkerFree(conditions)
    requires options.orderBy.Some? ==> MarkerFree(options.orderBy.value)
    ensures Consistent(FindQuery(table, conditions, options))
    ensures Bind(FindQuery(table, conditions, options).sql, ValuesOf(conditions))
         == "SELECT * FROM " + table + InlinedWhere(conditions) + OrderClause(options) + LimitClause(options.limit)
  {
    MarkerFreeAppend("SELECT * FROM ", table);
    OrderMarkerFree(options);
    LimitMarkerFree(options.limit);
    WhereBinding(conditions);
    Framed2("SELECT * FROM " + table, WhereClause(conditions), OrderClause(options), LimitClause(options.limit), ValuesOf(conditions));
  }

  /** `create`: as many markers as fields, the k-th bound value being the
      k-th field's value. */
  lemma InsertBinding(table: string, data: seq<Field>)
    requires MarkerFree(table) && NamesMarkerFree(data)
    ensures Consistent(InsertQuery(table, data))
    ensures Bind(InsertQuery(table, data).sql, ValuesOf(data))
         == "INSERT INTO " + table + " (" + Join(Columns(data), ", ") + ") VALUES ("
            + Join(Inlined(seq(|data|, k => ""), ValuesOf(data)), ", ") + ")"
  {
    var params := ValuesOf(data);
    var empty: seq<string> := seq(|data|, k => "");
    var columns := Join(Columns(data), ", ");
    forall k | 0 <= k < |data| ensures MarkerFree(Columns(data)[k]) {
      CamelToSnakeMarkerFree(data[k].name);
    }
    JoinMarkerFree(Columns(data), ", ");
    var head := "INSERT INTO " + table + " (" + columns + ") VALUES (";
    MarkerFreeAppend("INSERT INTO ", table);
    MarkerFreeAppend("INSERT INTO " + table, " (");
    MarkerFreeAppend("INSERT INTO " + table + " (", columns);
    MarkerFreeAppend("INSERT INTO " + table + " (" + columns, ") VALUES (");
    forall k | 0 <= k < |data| ensures Markers(|data|)[k] == Marked(empty)[k] && MarkerFree(empty[k]) {
      assert empty[k] == [];
      assert [] + "?" == "?";
    }
    assert Markers(|data|) == Marked(empty);
    CountJoin(empty, ", ");
    BindJoin(empty, params, ", ");
    Framed(head, Join(Markers(|data|), ", "), ")", params);
  }

  /** The SET list has one marker per field, each bound after its column. */
  lemma SetListBinding(data: seq<Field>)
    requires NamesMarkerFree(data)
    ensures Count('?', Join(Assignments(data), ", ")) == |data|
    ensures Bind(Join(Assignments(data), ", "), ValuesOf(data)) == Join(Inlined(ColumnPrefixes(data), ValuesOf(data)), ", ")
  {
    AssignmentsAreMarked(data);
    CountJoin(ColumnPrefixes(data), ", ");
    BindJoin(ColumnPrefixes(data), ValuesOf(data), ", ");
  }

  /** The end of an UPDATE: the timestamp, then the id's marker. */
  lemma UpdateTail(head: string, setList: string, id: int, ps: seq<Value>)
    requires MarkerFree(head) && Count('?', setList) == |ps|
    ensures Count('?', head + setList + ", updated_at = NOW() WHERE id = ?") == |ps| + 1
    ensures Bind(head + setList + ", updated_at = NOW() WHERE id = ?", ps + [Int(id)])
         == head + Bind(setList, ps) + ", updated_at = NOW() WHERE id = " + IntToString(id)
  {
    KeyedAfter(head, setList, ", updated_at = NOW() WHERE id = ", ", updated_at = NOW() WHERE id = ?", ps, id);
  }

  /** `update`: one marker per field and one for the id, bound in that order. */
  lemma UpdateBinding(table: string, id: int, data: seq<Field>)
    requires MarkerFree(table) && NamesMarkerFree(data) && |data| > 0
    ensures UpdateQuery(table, id, data).Ok?
    ensures Consistent(UpdateQuery(table, id, data).value)
    ensures Bind(UpdateQuery(table, id, data).value.sql, UpdateQuery(table, id, data).value.params)
         == "UPDATE " + table + " SET " + Join(Inlined(ColumnPrefixes(data), ValuesOf(data)), ", ")
            + ", updated_at = NOW() WHERE id = " + IntToString(id)
  {
    var head := "UPDATE " + table + " SET ";
    var setList := Join(Assignments(data), ", ");
    var q := UpdateQuery(table, id, data).value;
    assert q.sql == head + setList + ", updated_at = NOW() WHERE id = ?";
    assert q.params == ValuesOf(data) + [Int(id)];
    SetListBinding(data);
    UpdateHeadMarkerFree(table);
    UpdateTail(head, setList, id, ValuesOf(data));
  }

  /** An UPDATE's text before its SET list has no marker. */
  lemma UpdateHeadMarkerFree(table: string)
    requires MarkerFree(table)
    ensures MarkerFree("UPDATE " + table + " SET ")
  {
    MarkerFreeAppend("UPDATE ", table);
    MarkerFreeAppend("UPDATE " + table, " SET ");
  }

  /** A statement keyed by id ends in one marker, bound to the id. */
  lemma KeyedBinding(head: string, id: int)
    requires MarkerFree(head)
    ensures Consistent(KeyedQuery(head, id))
    ensures Bind(KeyedQuery(head, id).sql, [Int(id)]) == head + " WHERE id = " + IntToString(id)
  {
    KeyedTail(head, " WHERE id = ", " WHERE id = ?", id);
  }

  /** `findById` binds the id to its only marker. */
  lemma FindByIdBinding(table: string, id: int)
    requires MarkerFree(table)
    ensures Consistent(FindByIdQuery(table, id))
    ensures Bind(FindByIdQuery(table, id).sql, [Int(id)]) == "SELECT * FROM " + table + " WHERE id = " + IntToString(id)
  {
    assert FindByIdQuery(table, id) == KeyedQuery("SELECT * FROM " + table, id);
    MarkerFreeAppend("SELECT * FROM ", table);
    KeyedBinding("SELECT * FROM " + table, id);
  }

  /** `delete` binds the id to its only marker. */
  lemma DeleteBinding(table: string, id: int)
    requires MarkerFree(table)
    ensures Consistent(DeleteQuery(table, id))
    ensures Bind(DeleteQuery(table, id).sql, [Int(id)]) == "DELETE FROM " + table + " WHERE id = " + IntToString(id)
  {
    assert DeleteQuery(table, id) == KeyedQuery("DELETE FROM " + table, id);
    MarkerFreeAppend("DELETE FROM ", table);
    KeyedBinding("DELETE FROM " + table, id);
  }

  /** `exists` binds the id to its only marker. */
  lemma ExistsBinding(table: string, id: int)
    requires MarkerFree(table)
    ensures Consistent(ExistsQuery(table, id))
    ensures Bind(ExistsQuery(table, id).sql, [Int(id)]) == "SELECT COUNT(*) as count FROM " + table + " WHERE id = " + IntToString(id)
  {
    assert ExistsQuery(table, id) == KeyedQuery("SELECT COUNT(*) as count FROM " + table, id);
    MarkerFreeAppend("SELECT COUNT(*) as count FROM ", table);
    KeyedBinding("SELECT COUNT(*) as count FROM " + table, id);
  }
}
