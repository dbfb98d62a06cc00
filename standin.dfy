/** The stand-in for the MySQL table behind the mapper: a map from id to
    row, read the way the mapper's statements read it. This is an
    assumption of the model, not behaviour of the source: the source hands
    every statement to the database driver.

    - A SELECT scans the rows in id order, keeps the rows whose columns
      equal the bound condition values, sorts them stably by the ORDER BY
      column (so rows with equal keys stay in id order), and keeps the first
      LIMIT rows.
    - Stored booleans read back as the integers 0 and 1 (a BOOLEAN column
      is a TINYINT), and NULL equals nothing.
    - NULL sorts before numbers, numbers before strings; strings compare
      by code unit. */
module StandIn {
  import opened Wrappers
  import opened JsText
  import opened Naming
  import opened Values
  import opened Sql

  /** The value a column holds after a value is written to it. */
  function Stored(v: Value): (r: Value)
    ensures r.Bool? == false
    ensures !v.Bool? ==> r == v
    ensures v.Bool? ==> r == Int(if v.b then 1 else 0)
  {
    match v
    case Bool(b) => Int(if b then 1 else 0)
    case _ => v
  }

  /** `column = ?` with a bound value: NULL (and an unset value) equal
      nothing; a bound boolean compares as 0 or 1. */
  predicate SqlEquals(column: Value, bound: Value) {
    var x := Stored(column);
    var y := Stored(bound);
    !(x.Null? || x.Undefined? || y.Null? || y.Undefined?) && x == y
  }

  /** Writing a value and reading it back: its truthiness survives,
      writing what was read back stores it unchanged, and a stored value
      other than NULL matches a condition bound to the value written. */
  lemma StoredReadsBack(v: Value)
    ensures Truthy(Stored(v)) == Truthy(v)
    ensures Stored(Stored(v)) == Stored(v)
    ensures !v.Null? && !v.Undefined? ==> SqlEquals(Stored(v), v)
  {
  }

  /** Every condition holds: the column named after the field has the
      field's value. */
  predicate Matches(row: Row, conditions: seq<Field>) {
    forall k :: 0 <= k < |conditions| ==> SqlEquals(Get(row, CamelToSnake(conditions[k].name)), conditions[k].value)
  }

  /** The rows with ids `lo`, `lo + 1`, ... up to `hi`, in id order. */
  function Scan(rows: map<int, Row>, lo: int, hi: int): (r: seq<Row>)
    ensures forall x :: x in r <==> exists k :: lo <= k < hi && k in rows && rows[k] == x
    decreases hi - lo
  {
    if lo >= hi then []
    else (if lo in rows then [rows[lo]] else []) + Scan(rows, lo + 1, hi)
  }

  /** The rows that match, in the order given. */
  function Filter(rows: seq<Row>, conditions: seq<Field>): (r: seq<Row>)
    ensures |r| <= |rows|
    ensures forall x :: x in r <==> x in rows && Matches(x, conditions)
  {
    if rows == [] then []
    else (if Matches(rows[0], conditions) then [rows[0]] else []) + Filter(rows[1..], conditions)
  }

  function Rank(v: Value): nat {
    match v
    case Undefined => 0
    case Null => 0
    case Str(_) => 2
    case _ => 1
  }

  function Magnitude(v: Value): int {
    match v
    case Bool(b) => if b then 1 else 0
    case Int(i) => i
    case Time(t) => t
    case _ => 0
  }

  /** Code-unit order on strings: a prefix comes first. */
  predicate StrLe(a: string, b: string) {
    a == [] || (b != [] && (a[0] < b[0] || (a[0] == b[0] && StrLe(a[1..], b[1..]))))
  }

  lemma {:induction false} StrLeTotal(a: string, b: string)
    ensures StrLe(a, b) || StrLe(b, a)
  {
    if a != [] && b != [] && a[0] == b[0] {
      StrLeTotal(a[1..], b[1..]);
    }
  }

  lemma {:induction false} StrLeTrans(a: string, b: string, c: string)
    requires StrLe(a, b) && StrLe(b, c)
    ensures StrLe(a, c)
  {
    if a != [] && b != [] && c != [] && a[0] == b[0] && b[0] == c[0] {
      StrLeTrans(a[1..], b[1..], c[1..]);
    }
  }

  /** The order ORDER BY ... ASC sorts a column by. */
  predicate KeyLe(a: Value, b: Value) {
    Rank(a) < Rank(b)
    || (Rank(a) == Rank(b) && (if Rank(a) == 2 then StrLe(a.s, b.s) else Magnitude(a) <= Magnitude(b)))
  }

  lemma KeyLeTotal(a: Value, b: Value)
    ensures KeyLe(a, b) || KeyLe(b, a)
  {
    if Rank(a) == Rank(b) == 2 {
      StrLeTotal(a.s, b.s);
    }
  }

  lemma KeyLeTrans(a: Value, b: Value, c: Value)
    requires KeyLe(a, b) && KeyLe(b, c)
    ensures KeyLe(a, c)
  {
    if Rank(a) == Rank(b) == Rank(c) == 2 {
      StrLeTrans(a.s, b.s, c.s);
    }
  }

  /** `x` may come before `y` when sorting by `column` in direction `dir`. */
  predicate InOrder(x: Row, y: Row, column: string, dir: Direction) {
    match dir
    case Asc => KeyLe(Get(x, column), Get(y, column))
    case Desc => KeyLe(Get(y, column), Get(x, column))
  }

  lemma InOrderTotal(x: Row, y: Row, column: string, dir: Direction)
    ensures InOrder(x, y, column, dir) || InOrder(y, x, column, dir)
  {
    KeyLeTotal(Get(x, column), Get(y, column));
  }

  lemma InOrderTrans(x: Row, y: Row, z: Row, column: string, dir: Direction)
    requires InOrder(x, y, column, dir) && InOrder(y, z, column, dir)
    ensures InOrder(x, z, column, dir)
  {
    match dir
    case Asc => KeyLeTrans(Get(x, column), Get(y, column), Get(z, column));
    case Desc => KeyLeTrans(Get(z, column), Get(y, column), Get(x, column));
  }

  predicate Sorted(s: seq<Row>, column: string, dir: Direction) {
    forall i, j :: 0 <= i < j < |s| ==> InOrder(s[i], s[j], column, dir)
  }

  /** Inserts `x` before the first row it may precede. */
  function Insert(x: Row, s: seq<Row>, column: string, dir: Direction): (r: seq<Row>)
    ensures multiset(r) == multiset(s) + multiset{x}
    ensures Sorted(s, column, dir) ==> Sorted(r, column, dir)
  {
    if s == [] then [x]
    else if InOrder(x, s[0], column, dir) then
      InsertFront(x, s, column, dir);
      [x] + s
    else
      var rest := Insert(x, s[1..], column, dir);
      assert s == [s[0]] + s[1..];
      InOrderTotal(x, s[0], column, dir);
      InsertBehind(s[0], x, s[1..], rest, column, dir);
      [s[0]] + rest
  }

  lemma InsertFront(x: Row, s: seq<Row>, column: string, dir: Direction)
    requires s != [] && InOrder(x, s[0], column, dir)
    ensures Sorted(s, column, dir) ==> Sorted([x] + s, column, dir)
  {
    if Sorted(s, column, dir) {
      var r := [x] + s;
      forall i, j | 0 <= i < j < |r| ensures InOrder(r[i], r[j], column, dir) {
        assert r[j] == s[j - 1];
        if i == 0 {
          if j > 1 {
            assert InOrder(s[0], s[j - 1], column, dir);
            InOrderTrans(x, s[0], s[j - 1], column, dir);
          }
        } else {
          assert r[i] == s[i - 1];
        }
      }
    }
  }

  lemma InsertBehind(h: Row, x: Row, t: seq<Row>, rest: seq<Row>, column: string, dir: Direction)
    requires InOrder(h, x, column, dir)
    requires multiset(rest) == multiset(t) + multiset{x}
    requires Sorted(t, column, dir) ==> Sorted(rest, column, dir)
    ensures Sorted([h] + t, column, dir) ==> Sorted([h] + rest, column, dir)
  {
    var ht := [h] + t;
    if Sorted(ht, column, dir) {
      assert Sorted(t, column, dir) by {
        forall i, j | 0 <= i < j < |t| ensures InOrder(t[i], t[j], column, dir) {
          assert t[i] == ht[i + 1] && t[j] == ht[j + 1];
        }
      }
      var r := [h] + rest;
      forall i, j | 0 <= i < j < |r| ensures InOrder(r[i], r[j], column, dir) {
        var y := r[j];
        assert y == rest[j - 1];
        if i == 0 {
          assert y in multiset(rest);
          if y != x {
            assert y in multiset(t);
            var k :| 0 <= k < |t| && t[k] == y;
            assert ht[k + 1] == y;
            assert InOrder(ht[0], ht[k + 1], column, dir);
          }
        } else {
          assert r[i] == rest[i - 1];
        }
      }
    }
  }

  /** A stable insertion sort. */
  function Sort(s: seq<Row>, column: string, dir: Direction): (r: seq<Row>)
    ensures multiset(r) == multiset(s) && |r| == |s|
    ensures Sorted(r, column, dir)
  {
    if s == [] then []
    else
      assert s == [s[0]] + s[1..];
      Insert(s[0], Sort(s[1..], column, dir), column, dir)
  }

  /** The ORDER BY clause, applied. */
  function Ordered(s: seq<Row>, options: FindOptions): (r: seq<Row>)
    ensures multiset(r) == multiset(s) && |r| == |s|
    ensures Ordering(options).Some? ==> Sorted(r, Ordering(options).value.0, Ordering(options).value.1)
  {
    match Ordering(options)
    case None => s
    case Some((column, dir)) => Sort(s, column, dir)
  }

  /** The LIMIT clause, applied: none when the limit is absent or 0. */
  function Limited(s: seq<Row>, limit: Option<int>): (r: seq<Row>)
    ensures r <= s
    ensures limit.None? || limit.value == 0 ==> r == s
    ensures limit.Some? && limit.value != 0 ==> |r| == Min(|s|, SafeLimit(limit.value))
  {
    if limit.None? || limit.value == 0 then s else s[..Min(|s|, SafeLimit(limit.value))]
  }

  /** What `SELECT * FROM t WHERE ... ORDER BY ... LIMIT ...` returns over
      the rows with ids below `hi`. */
  function Select(rows: map<int, Row>, hi: int, conditions: seq<Field>, options: FindOptions): seq<Row> {
    Limited(Ordered(Filter(Scan(rows, 1, hi), conditions), options), options.limit)
  }

  /** The matching rows of the table, before ordering and limiting. */
  function Matching(rows: map<int, Row>, hi: int, conditions: seq<Field>): seq<Row> {
    Filter(Scan(rows, 1, hi), conditions)
  }

  /** Every row returned is a row of the table that matches every condition. */
  lemma SelectSound(rows: map<int, Row>, hi: int, conditions: seq<Field>, options: FindOptions)
    ensures forall x :: x in Select(rows, hi, conditions, options) ==>
      Matches(x, conditions) && exists k :: 1 <= k < hi && k in rows && rows[k] == x
  {
    var m := Matching(rows, hi, conditions);
    var o := Ordered(m, options);
    forall x | x in Select(rows, hi, conditions, options)
      ensures Matches(x, conditions) && exists k :: 1 <= k < hi && k in rows && rows[k] == x
    {
      assert x in o;
      assert x in multiset(o);
      assert x in m;
    }
  }

  /** With ORDER BY, the rows come in that order. */
  lemma SelectSorted(rows: map<int, Row>, hi: int, conditions: seq<Field>, options: FindOptions)
    requires Ordering(options).Some?
    ensures Sorted(Select(rows, hi, conditions, options), Ordering(options).value.0, Ordering(options).value.1)
  {
    var o := Ordered(Matching(rows, hi, conditions), options);
    var r := Select(rows, hi, conditions, options);
    assert forall i :: 0 <= i < |r| ==> r[i] == o[i];
  }

  /** With a LIMIT, at most the clamped number of rows comes back, and
      fewer only when fewer rows match. */
  lemma SelectBound(rows: map<int, Row>, hi: int, conditions: seq<Field>, options: FindOptions)
    requires options.limit.Some? && options.limit.value != 0
    ensures |Select(rows, hi, conditions, options)|
         == Min(|Matching(rows, hi, conditions)|, SafeLimit(options.limit.value))
  {
  }

  /** Without a LIMIT, every matching row of the table comes back. */
  lemma SelectComplete(rows: map<int, Row>, hi: int, conditions: seq<Field>, options: FindOptions)
    requires options.limit.None? || options.limit.value == 0
    ensures forall k :: 1 <= k < hi && k in rows && Matches(rows[k], conditions) ==>
      rows[k] in Select(rows, hi, conditions, options)
  {
    var m := Matching(rows, hi, conditions);
    forall k | 1 <= k < hi && k in rows && Matches(rows[k], conditions)
      ensures rows[k] in Select(rows, hi, conditions, options)
    {
      assert rows[k] in m;
      assert rows[k] in multiset(m);
      assert rows[k] in multiset(Ordered(m, options));
    }
  }

  /** With ORDER BY and a LIMIT, a matching row that is left out may not
      precede any row that is kept. */
  lemma SelectKeepsFirst(rows: map<int, Row>, hi: int, conditions: seq<Field>, options: FindOptions, k: int)
    requires Ordering(options).Some?
    requires 1 <= k < hi && k in rows && Matches(rows[k], conditions)
    requires rows[k] !in Select(rows, hi, conditions, options)
    ensures forall x :: x in Select(rows, hi, conditions, options) ==>
      InOrder(x, rows[k], Ordering(options).value.0, Ordering(options).value.1)
  {
    var m := Matching(rows, hi, conditions);
    var o := Ordered(m, options);
    var r := Select(rows, hi, conditions, options);
    assert rows[k] in m;
    assert rows[k] in multiset(m);
    assert rows[k] in multiset(o);
    var j :| 0 <= j < |o| && o[j] == rows[k];
    assert forall i :: 0 <= i < |r| ==> r[i] == o[i];
    assert j >= |r|;
    forall x | x in r
      ensures InOrder(x, rows[k], Ordering(options).value.0, Ordering(options).value.1)
    {
      var i :| 0 <= i < |r| && r[i] == x;
      assert o[i] == x;
    }
  }
}
