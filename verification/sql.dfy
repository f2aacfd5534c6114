/** The corner of SQL the queries stand on: three-valued truth, nullable comparison, literals. */
module Sql {
  import opened Options

  datatype Tri = True | False | Unknown

  function And(a: Tri, b: Tri): Tri {
    if a == False || b == False then False else if a == True && b == True then True else Unknown
  }

  function Or(a: Tri, b: Tri): Tri {
    if a == True || b == True then True else if a == False && b == False then False else Unknown
  }

  function Test(b: bool): Tri {
    if b then True else False
  }

  /** `a = b`, either side possibly NULL. */
  function Equal<T(==)>(a: Option<T>, b: Option<T>): Tri {
    if a.None? || b.None? then Unknown else Test(a.value == b.value)
  }

  function IsNull<T>(a: Option<T>): Tri {
    Test(a.None?)
  }

  /** `x = ANY(xs)`: the array may be NULL and so may its elements. */
  function EqualAny<T(==)>(x: T, xs: Option<seq<Option<T>>>): Tri {
    if xs.None? then Unknown
    else if Some(x) in xs.value then True
    else if None in xs.value then Unknown
    else False
  }

  // ----- String literals -----

  /** `_literal`: quotes doubled, the whole in quotes. */
  function Literal(value: string): string {
    "'" + Doubled(value) + "'"
  }

  function Doubled(value: string): string {
    if value == [] then []
    else (if value[0] == '\'' then "''" else [value[0]]) + Doubled(value[1..])
  }

  /** What the server reads after an opening quote: the value, up to the first undoubled quote. */
  function ReadBody(text: string): Option<(string, string)> {
    if text == [] then None
    else if text[0] != '\'' then
      var rest := ReadBody(text[1..]);
      if rest.None? then None else Some(([text[0]] + rest.value.0, rest.value.1))
    else if |text| >= 2 && text[1] == '\'' then
      var rest := ReadBody(text[2..]);
      if rest.None? then None else Some((['\''] + rest.value.0, rest.value.1))
    else Some(([], text[1..]))
  }

  function ReadLiteral(text: string): Option<(string, string)> {
    if text == [] || text[0] != '\'' then None else ReadBody(text[1..])
  }

  lemma {:induction false} BodyRoundTrip(value: string, rest: string)
    requires rest == [] || rest[0] != '\''
    ensures ReadBody(Doubled(value) + ['\''] + rest) == Some((value, rest))
  {
    var text := Doubled(value) + ['\''] + rest;
    if value == [] {
      assert text == ['\''] + rest;
    } else {
      BodyRoundTrip(value[1..], rest);
      var tail := Doubled(value[1..]) + ['\''] + rest;
      if value[0] == '\'' {
        assert text[..2] == "''" && text[2..] == tail;
      } else {
        assert text[0] == value[0] && text[1..] == tail;
      }
      assert [value[0]] + value[1..] == value;
    }
  }

  /** No value can end its own literal: whatever it holds, the server reads it back whole and the
      statement continues where the writer meant it to. */
  lemma LiteralRoundTrip(value: string, rest: string)
    requires rest == [] || rest[0] != '\''
    ensures ReadLiteral(Literal(value) + rest) == Some((value, rest))
  {
    BodyRoundTrip(value, rest);
    assert (Literal(value) + rest)[1..] == Doubled(value) + ['\''] + rest;
  }
}
