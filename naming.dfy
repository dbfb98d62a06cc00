/** The mechanical translation between application field names (camelCase)
    and storage column names (snake_case) used by the generic mapper
    (`BaseModel.camelToSnake` and `BaseModel.snakeToCamel`). */
module Naming {

  predicate IsUpper(c: char) { 'A' <= c <= 'Z' }
  predicate IsLower(c: char) { 'a' <= c <= 'z' }

  function ToLower(c: char): (r: char)
    requires IsUpper(c)
    ensures IsLower(r)
  {
    (c as int + 32) as char
  }

  function ToUpper(c: char): (r: char)
    requires IsLower(c)
    ensures IsUpper(r)
  {
    (c as int - 32) as char
  }

  /** How many ASCII upper-case letters `s` holds. */
  function CountUpper(s: string): nat {
    if s == [] then 0 else (if IsUpper(s[0]) then 1 else 0) + CountUpper(s[1..])
  }

  /** `str.replace(/[A-Z]/g, l => "_" + l.toLowerCase())`: every upper-case
      letter becomes an underscore followed by its lower-case form; the
      result holds no upper-case letter and is one character longer per
      upper-case letter of the input. Every other character is kept. */
  function CamelToSnake(s: string): (r: string)
    ensures |r| == |s| + CountUpper(s)
    ensures forall k :: 0 <= k < |r| ==> !IsUpper(r[k])
  {
    if s == [] then []
    else (if IsUpper(s[0]) then ['_', ToLower(s[0])] else [s[0]]) + CamelToSnake(s[1..])
  }

  /** Every other character is kept: each character of the result is one
      of the input's, an underscore, or a lower-case letter. */
  lemma {:induction false} CamelToSnakeChars(s: string)
    ensures forall c :: c in CamelToSnake(s) ==> c in s || c == '_' || IsLower(c)
  {
    if s != [] {
      CamelToSnakeChars(s[1..]);
      var head := if IsUpper(s[0]) then ['_', ToLower(s[0])] else [s[0]];
      assert CamelToSnake(s) == head + CamelToSnake(s[1..]);
      forall c | c in CamelToSnake(s) ensures c in s || c == '_' || IsLower(c) {
        if c !in head && c in s[1..] {
          assert s == [s[0]] + s[1..];
        }
      }
    }
  }

  /** `str.replace(/_([a-z])/g, (_, l) => l.toUpperCase())`: scanning from
      the left, every underscore immediately followed by a lower-case letter
      is replaced, together with that letter, by the letter's upper-case
      form; matches do not overlap. */
  function SnakeToCamel(s: string): (r: string)
    ensures |r| <= |s|
  {
    if |s| >= 2 && s[0] == '_' && IsLower(s[1]) then [ToUpper(s[1])] + SnakeToCamel(s[2..])
    else if s == [] then []
    else [s[0]] + SnakeToCamel(s[1..])
  }

  predicate NoUnderscore(s: string) {
    forall k :: 0 <= k < |s| ==> s[k] != '_'
  }

  /** A column name that `SnakeToCamel` can translate back faithfully:
      no upper-case letter, and every underscore starts a new lower-case word. */
  predicate IsSnakeName(s: string) {
    s == [] ||
    (!IsUpper(s[0]) && (s[0] == '_' ==> |s| >= 2 && IsLower(s[1])) && IsSnakeName(s[1..]))
  }

  /** Round trip: a field name without underscores survives the translation
      to a column name and back, however it mixes letters, digits and case. */
  lemma {:induction false} SnakeToCamelOfCamelToSnake(s: string)
    requires NoUnderscore(s)
    ensures SnakeToCamel(CamelToSnake(s)) == s
  {
    if s != [] {
      var rest := CamelToSnake(s[1..]);
      SnakeToCamelOfCamelToSnake(s[1..]);
      if IsUpper(s[0]) {
        var t := ['_', ToLower(s[0])] + rest;
        assert CamelToSnake(s) == t;
        assert t[2..] == rest;
        assert ToUpper(ToLower(s[0])) == s[0];
      } else {
        var t := [s[0]] + rest;
        assert CamelToSnake(s) == t;
        assert t[1..] == rest;
      }
    }
  }

  /** The other round trip: a well-formed snake_case column name survives
      the translation to a field name and back. */
  lemma {:induction false} CamelToSnakeOfSnakeToCamel(s: string)
    requires IsSnakeName(s)
    ensures CamelToSnake(SnakeToCamel(s)) == s
  {
    if s != [] {
      if s[0] == '_' {
        assert s[1..][1..] == s[2..];
        CamelToSnakeOfSnakeToCamel(s[2..]);
        var u := [ToUpper(s[1])] + SnakeToCamel(s[2..]);
        assert SnakeToCamel(s) == u;
        assert u[1..] == SnakeToCamel(s[2..]);
        assert ToLower(ToUpper(s[1])) == s[1];
        assert CamelToSnake(u) == ['_', s[1]] + s[2..];
        assert s == ['_', s[1]] + s[2..];
      } else {
        CamelToSnakeOfSnakeToCamel(s[1..]);
        var u := [s[0]] + SnakeToCamel(s[1..]);
        assert SnakeToCamel(s) == u;
        assert u[1..] == SnakeToCamel(s[1..]);
        assert s == [s[0]] + s[1..];
      }
    }
  }

  /** Distinct well-formed column names give distinct field names, so the
      default row mapping never merges two columns. */
  lemma SnakeToCamelInjective(a: string, b: string)
    requires IsSnakeName(a) && IsSnakeName(b) && a != b
    ensures SnakeToCamel(a) != SnakeToCamel(b)
  {
    CamelToSnakeOfSnakeToCamel(a);
    CamelToSnakeOfSnakeToCamel(b);
  }

  /** The "no underscore" condition of the first round trip cannot be
      dropped: a field name that already holds an underscore is changed. */
  lemma UnderscoreBreaksRoundTrip()
    ensures SnakeToCamel(CamelToSnake("a_b")) == "aB"
  {
    assert CamelToSnake("a_b") == "a_b";
    assert SnakeToCamel("a_b") == "a" + SnakeToCamel("_b");
    assert SnakeToCamel("_b") == "B";
  }

  /** The translation works character by character: translating two
      joined texts translates each of them. */
  lemma {:induction false} CamelToSnakeAppend(a: string, b: string)
    ensures CamelToSnake(a + b) == CamelToSnake(a) + CamelToSnake(b)
  {
    if a == [] {
      assert a + b == b;
    } else {
      assert (a + b)[0] == a[0] && (a + b)[1..] == a[1..] + b;
      CamelToSnakeAppend(a[1..], b);
    }
  }

  /** A text without upper-case letters is left as it is. */
  lemma {:induction false} CamelToSnakeLowerOnly(s: string)
    requires forall k :: 0 <= k < |s| ==> !IsUpper(s[k])
    ensures CamelToSnake(s) == s
  {
    if s != [] {
      assert forall k :: 0 <= k < |s| - 1 ==> s[1..][k] == s[k + 1];
      CamelToSnakeLowerOnly(s[1..]);
    }
  }

  /** A camelCase name of two words: the upper-case letter that starts the
      second word becomes an underscore and its lower-case form. */
  lemma CamelToSnakeTwoWords(name: string, a: string, u: char, b: string, column: string)
    requires forall k :: 0 <= k < |a| ==> !IsUpper(a[k])
    requires forall k :: 0 <= k < |b| ==> !IsUpper(b[k])
    requires IsUpper(u) && name == a + [u] + b && column == a + ['_', ToLower(u)] + b
    ensures CamelToSnake(name) == column
  {
    var au := a + [u];
    CamelToSnakeAppend(au, b);
    CamelToSnakeAppend(a, [u]);
    CamelToSnakeLowerOnly(a);
    CamelToSnakeLowerOnly(b);
    assert [u][1..] == [];
    assert CamelToSnake([u]) == ['_', ToLower(u)];
  }
}
