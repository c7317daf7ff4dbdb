/** The INSERT form: reading the inputs into a data object, and building the
    statement from the fields the user filled. */
module InsertForm {
  import opened JsStrings
  import opened Schema
  import opened FormValues

  /** `getFormData` on one field: an empty input becomes `null`; a boolean
      becomes 1 for `'1'` and 0 for anything else. The integer and float
      parsers are kept opaque: their text passes through unchanged, and a
      missing input (`parseInt(undefined)`) reads `NaN`. */
  function Convert(f: Field, raw: JsValue): (v: JsValue)
    ensures raw == Str("") ==> v == Null
    ensures raw != Str("") && raw != Null && f.ftype == Boolean ==> v == (if raw == Str("1") then Str("1") else Str("0"))
    ensures raw != Str("") && !IsBare(f.ftype) ==> v == raw
    ensures v != Str("")
  {
    var value := if raw == Str("") then Null else raw;
    if (f.ftype == Int || f.ftype == Float) && value != Null then
      (if value.Str? then value else Str("NaN"))
    else if f.ftype == Boolean && value != Null then
      (if value == Str("1") then Str("1") else Str("0"))
    else value
  }

  /** The data object after the `forEach` has assigned every field in order;
      a later field with the same name overwrites an earlier one. */
  function FormData(fields: seq<Field>, elements: map<string, string>): (data: map<string, JsValue>)
    ensures data.Keys == set f | f in fields :: f.name
    decreases |fields|
  {
    if fields == [] then map[]
    else
      var f := fields[|fields| - 1];
      FormData(fields[..|fields| - 1], elements)[f.name := Convert(f, ElementValue(elements, f.name))]
  }

  /** A field's entry is the conversion of its own input, unless a later
      field of the same name overwrote it. */
  lemma {:induction false} FormDataLastWins(fields: seq<Field>, elements: map<string, string>, k: int)
    requires 0 <= k < |fields|
    requires forall j :: k < j < |fields| ==> fields[j].name != fields[k].name
    ensures FormData(fields, elements)[fields[k].name] == Convert(fields[k], ElementValue(elements, fields[k].name))
    decreases |fields|
  {
    if k < |fields| - 1 {
      FormDataLastWins(fields[..|fields| - 1], elements, k);
    }
  }

  /** An input left empty never produces an entry the insert includes. */
  lemma {:induction false} FormDataBlankIsNull(fields: seq<Field>, elements: map<string, string>, name: string)
    requires ElementValue(elements, name) == Str("")
    requires name in FormData(fields, elements)
    ensures FormData(fields, elements)[name] == Null
    decreases |fields|
  {
    var init := fields[..|fields| - 1];
    if fields[|fields| - 1].name != name {
      assert name in FormData(init, elements);
      FormDataBlankIsNull(init, elements, name);
    }
  }

  /** Reading the form then building the insert never includes a field whose
      input was left empty. */
  lemma BlankInputsOmitted(fields: seq<Field>, elements: map<string, string>, a: Assignment)
    requires a in Provided(fields, FormData(fields, elements))
    ensures ElementValue(elements, a.field.name) != Str("")
  {
    var data := FormData(fields, elements);
    ProvidedExactly(fields, data, a);
    if ElementValue(elements, a.field.name) == Str("") {
      FormDataBlankIsNull(fields, elements, a.field.name);
    }
  }

  method GetFormData(fields: seq<Field>, elements: map<string, string>) returns (data: map<string, JsValue>)
    ensures data == FormData(fields, elements)
  {
    data := map[];
    for i := 0 to |fields|
      invariant data == FormData(fields[..i], elements)
    {
      var field := fields[i];
      var value := ElementValue(elements, field.name);
      if value == Str("") {
        value := Null;
      }
      if (field.ftype == Int || field.ftype == Float) && value != Null {
        value := if value.Str? then value else Str("NaN");
      }
      if field.ftype == Boolean && value != Null {
        value := if value == Str("1") then Str("1") else Str("0");
      }
      data := data[field.name := value];
      assert fields[..i + 1][..i] == fields[..i];
    }
    assert fields[..|fields|] == fields;
  }

  /** How a provided value is written in the VALUES list. */
  function InsertValue(f: Field, v: string): string {
    if IsBare(f.ftype) then v
    else if f.ftype == Date then (if v != "" then "'" + v + "'" else "NULL")
    else QuoteLiteral(v)
  }

  /** Numbers and booleans are written bare, a date between quotes, and any
      other value as a literal from which the engine reads it back exactly. */
  lemma InsertValueReadsBack(f: Field, v: string)
    requires v != ""
    ensures IsBare(f.ftype) ==> InsertValue(f, v) == v
    ensures f.ftype == Date ==> InsertValue(f, v) == "'" + v + "'"
    ensures f.ftype == Other ==> ReadLiteral(InsertValue(f, v)) == Some(v)
  {
    if f.ftype == Other {
      QuoteRoundTrip(v);
    }
  }

  /** The column list: one name per provided field. */
  function Columns(cols: seq<Assignment>): (r: seq<string>)
    ensures |r| == |cols|
  {
    seq(|cols|, k requires 0 <= k < |cols| => cols[k].field.name)
  }

  /** The value list, position for position with `Columns`. */
  function Values(cols: seq<Assignment>): (r: seq<string>)
    ensures |r| == |cols|
  {
    seq(|cols|, k requires 0 <= k < |cols| => InsertValue(cols[k].field, cols[k].value))
  }

  /** The two lists stay aligned: the k-th value is the k-th named column's
      own data, written as that column's type demands. */
  lemma InsertAligned(fields: seq<Field>, data: map<string, JsValue>, k: int)
    requires 0 <= k < |Provided(fields, data)|
    ensures var cols := Provided(fields, data);
      |Columns(cols)| == |Values(cols)| && cols[k].field in fields &&
      Columns(cols)[k] == cols[k].field.name && Get(data, Columns(cols)[k]).Str? &&
      Values(cols)[k] == InsertValue(cols[k].field, Get(data, Columns(cols)[k]).s)
  {
    ProvidedExactly(fields, data, Provided(fields, data)[k]);
  }

  /** The statement `buildInsertSQL` returns, with its placeholder form when
      no field is provided. */
  function InsertSql(tableName: string, fields: seq<Field>, data: map<string, JsValue>): string {
    var cols := Provided(fields, data);
    if cols == [] then "INSERT INTO " + tableName + " (...) VALUES (...);"
    else "INSERT INTO " + tableName + " (" + Join(Columns(cols), ", ") + ") VALUES (" + Join(Values(cols), ", ") + ");"
  }

  method BuildInsertSql(tableName: string, fields: seq<Field>, data: map<string, JsValue>) returns (sql: string)
    ensures sql == InsertSql(tableName, fields, data)
    ensures Provided(fields, data) == [] ==> sql == "INSERT INTO " + tableName + " (...) VALUES (...);"
  {
    var names: seq<string> := [];
    var values: seq<string> := [];
    for i := 0 to |fields|
      invariant names == Columns(Provided(fields[..i], data))
      invariant values == Values(Provided(fields[..i], data))
    {
      var field := fields[i];
      var v := Get(data, field.name);
      assert fields[..i + 1][..i] == fields[..i];
      if v.Str? && v.s != "" {
        names := names + [field.name];
        if IsBare(field.ftype) {
          values := values + [v.s];
        } else if field.ftype == Date {
          values := values + [if v.s != "" then "'" + v.s + "'" else "NULL"];
        } else {
          values := values + ["'" + EscapeQuotes(v.s) + "'"];
        }
      }
    }
    assert fields[..|fields|] == fields;
    if |names| == 0 {
      return "INSERT INTO " + tableName + " (...) VALUES (...);";
    }
    sql := "INSERT INTO " + tableName + " (" + Join(names, ", ") + ") VALUES (" + Join(values, ", ") + ");";
  }
}
