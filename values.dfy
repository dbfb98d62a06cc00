/** The dynamically typed values that travel between the mapper, the SQL
    driver and JSON bodies, and the rows the driver returns. */
module Values {

  /** A JavaScript value as far as the core inspects one. `Time` is a
      timestamp, kept as an opaque ordered number. */
  datatype Value = Undefined | Null | Bool(b: bool) | Int(i: int) | Str(s: string) | Time(t: int)

  /** One property of an object: a condition, a field to write, or a column
      of a row. The order of a sequence of fields is the object's key order. */
  datatype Field = Field(name: string, value: Value)

  /** A row as the driver returns it: an object whose keys are the table's
      column names in order. */
  type Row = seq<Field>

  /** `row[name]`: the value of the first field called `name`, or
      `undefined` when the row has no such field. */
  function Get(row: Row, name: string): (v: Value)
    ensures (forall k :: 0 <= k < |row| ==> row[k].name != name) ==> v == Undefined
    ensures row != [] && row[0].name == name ==> v == row[0].value
  {
    if row == [] then Undefined
    else if row[0].name == name then row[0].value
    else Get(row[1..], name)
  }

  lemma GetAppend(a: Row, b: Row, name: string)
    ensures (forall k :: 0 <= k < |a| ==> a[k].name != name) ==> Get(a + b, name) == Get(b, name)
    ensures (exists k :: 0 <= k < |a| && a[k].name == name) ==> Get(a + b, name) == Get(a, name)
  {
    if a != [] {
      assert (a + b)[0] == a[0];
      assert (a + b)[1..] == a[1..] + b;
      GetAppend(a[1..], b, name);
      if a[0].name != name && exists k :: 0 <= k < |a| && a[k].name == name {
        var k :| 0 <= k < |a| && a[k].name == name;
        assert a[1..][k - 1].name == name;
      }
    } else {
      assert a + b == b;
    }
  }

  /** A field that no earlier field shadows is what `Get` returns. */
  lemma {:induction false} GetAt(row: Row, k: int)
    requires 0 <= k < |row| && forall j :: 0 <= j < k ==> row[j].name != row[k].name
    ensures Get(row, row[k].name) == row[k].value
  {
    if k > 0 {
      assert forall j :: 0 <= j < k - 1 ==> row[1..][j] == row[j + 1];
      GetAt(row[1..], k - 1);
    }
  }

  /** `Boolean(v)`: JavaScript truthiness. A timestamp reads back as a
      `Date` object, which is truthy. */
  predicate Truthy(v: Value) {
    match v
    case Undefined => false
    case Null => false
    case Bool(b) => b
    case Int(i) => i != 0
    case Str(s) => s != []
    case Time(_) => true
  }
}
