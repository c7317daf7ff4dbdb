/** What the insert and select forms share: the fields a form's data object
    fills, and the single-quoted literals the builders write. */
module FormValues {
  import opened JsStrings
  import opened Schema

  /** A schema field together with the non-empty text the form holds for it. */
  datatype Assignment = Assignment(field: Field, value: string)

  /** The builders' filter `v !== undefined && v !== null && v !== ''`. */
  predicate Present(v: JsValue) {
    v.Str? && v.s != ""
  }

  /** The fields, in schema order, whose value in `data` passes that filter,
      each with its value. */
  function Provided(fields: seq<Field>, data: map<string, JsValue>): (r: seq<Assignment>)
    ensures |r| <= |fields|
    decreases |fields|
  {
    if fields == [] then []
    else
      var f := fields[|fields| - 1];
      var v := Get(data, f.name);
      Provided(fields[..|fields| - 1], data) + (if Present(v) then [Assignment(f, v.s)] else [])
  }

  /** A field is provided exactly when its value is a non-empty string, and
      then with that string. */
  lemma {:induction false} ProvidedExactly(fields: seq<Field>, data: map<string, JsValue>, a: Assignment)
    ensures a in Provided(fields, data) <==>
      a.field in fields && Get(data, a.field.name) == Str(a.value) && a.value != ""
    decreases |fields|
  {
    if fields != [] {
      var init := fields[..|fields| - 1];
      assert fields == init + [fields[|fields| - 1]];
      ProvidedExactly(init, data, a);
    }
  }

  /** Provision keeps schema order: the fields of `a + b` give the provided
      fields of `a` followed by those of `b`. */
  lemma {:induction false} ProvidedAppend(a: seq<Field>, b: seq<Field>, data: map<string, JsValue>)
    ensures Provided(a + b, data) == Provided(a, data) + Provided(b, data)
    decreases |b|
  {
    if b == [] {
      assert a + b == a;
    } else {
      var last := b[|b| - 1];
      assert (a + b)[..|a + b| - 1] == a + b[..|b| - 1];
      ProvidedAppend(a, b[..|b| - 1], data);
    }
  }

  /** `filters.length > 0 ? `WHERE ${filters.join(' AND ')}` : ''`. */
  function WhereClause(filters: seq<string>): string {
    if |filters| > 0 then "WHERE " + Join(filters, " AND ") else ""
  }

  /** The `LIKE '%v%'` pattern literal, with every quote of `v` doubled. */
  function LikeLiteral(v: string): string {
    "'%" + EscapeQuotes(v) + "%'"
  }

  /** The engine reads the pattern `%v%` back from that literal, quotes
      included. */
  lemma LikeLiteralReadsBack(v: string)
    ensures ReadLiteral(LikeLiteral(v)) == Some("%" + v + "%")
  {
    EscapeAppend("%" + v, "%");
    EscapeAppend("%", v);
    assert EscapeQuotes("%") == "%";
    assert EscapeQuotes("%" + v + "%") == "%" + EscapeQuotes(v) + "%";
    assert LikeLiteral(v) == QuoteLiteral("%" + v + "%");
    QuoteRoundTrip("%" + v + "%");
  }
}
