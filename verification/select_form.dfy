/** The SELECT form: every filled input becomes one filter of the WHERE
    clause. */
module SelectForm {
  import opened JsStrings
  import opened Schema
  import opened FormValues

  /** The data object `getFormData` builds: every schema field is a key, an
      empty input becomes `null`, and a later field of the same name
      overwrites an earlier one. */
  function FormData(fields: seq<Field>, elements: map<string, string>): (data: map<string, JsValue>)
    ensures data.Keys == set f | f in fields :: f.name
    ensures forall name :: name in data ==> data[name] != Str("")
    decreases |fields|
  {
    if fields == [] then map[]
    else
      var f := fields[|fields| - 1];
      var value := ElementValue(elements, f.name);
      FormData(fields[..|fields| - 1], elements)[f.name := if value == Str("") then Null else value]
  }

  /** Every key holds its element's value, with `''` read as `null`. */
  lemma {:induction false} FormDataValue(fields: seq<Field>, elements: map<string, string>, name: string)
    requires name in FormData(fields, elements)
    ensures FormData(fields, elements)[name] ==
      (if ElementValue(elements, name) == Str("") then Null else ElementValue(elements, name))
    decreases |fields|
  {
    var init := fields[..|fields| - 1];
    if fields[|fields| - 1].name != name {
      assert name in FormData(init, elements);
      FormDataValue(init, elements, name);
    }
  }

  method GetFormData(fields: seq<Field>, elements: map<string, string>) returns (data: map<string, JsValue>)
    ensures data == FormData(fields, elements)
  {
    data := map[];
    for i := 0 to |fields|
      invariant data == FormData(fields[..i], elements)
    {
      var field := fields[i];
      var value := ElementValue(elements, field.name);
      if value == Str("") {
        value := Null;
      }
      data := data[field.name := value];
      assert fields[..i + 1][..i] == fields[..i];
    }
    assert fields[..|fields|] == fields;
  }

  /** The filter one provided field contributes. */
  function Filter(a: Assignment): string {
    var name := a.field.name;
    if a.field.ftype == Int || a.field.ftype == Float then name + " = " + a.value
    else if a.field.ftype == Boolean then name + " = " + a.value
    else if a.field.ftype == Date then name + " = '" + a.value + "'"
    else name + " LIKE " + LikeLiteral(a.value)
  }

  /** Numbers and booleans compare for equality with the bare value, dates
      with the quoted value, and text matches the pattern `%v%` read back
      from its literal. */
  lemma FilterForms(a: Assignment)
    ensures IsBare(a.field.ftype) ==> Filter(a) == a.field.name + " = " + a.value
    ensures a.field.ftype == Date ==> Filter(a) == a.field.name + " = '" + a.value + "'"
    ensures a.field.ftype == Other ==>
      exists lit :: Filter(a) == a.field.name + " LIKE " + lit && ReadLiteral(lit) == Some("%" + a.value + "%")
  {
    if a.field.ftype == Other {
      LikeLiteralReadsBack(a.value);
      assert Filter(a) == a.field.name + " LIKE " + LikeLiteral(a.value);
    }
  }

  /** The filters in schema order, one per provided field. */
  function Filters(cols: seq<Assignment>): (r: seq<string>)
    ensures |r| == |cols|
    ensures forall k :: 0 <= k < |cols| ==> r[k] == Filter(cols[k])
  {
    seq(|cols|, k requires 0 <= k < |cols| => Filter(cols[k]))
  }

  lemma FiltersSnoc(cols: seq<Assignment>, a: Assignment)
    ensures Filters(cols + [a]) == Filters(cols) + [Filter(a)]
  {
  }

  function SelectSql(tableName: string, fields: seq<Field>, data: map<string, JsValue>): string {
    "SELECT * FROM " + tableName + " " + WhereClause(Filters(Provided(fields, data))) + ";"
  }

  /** With nothing provided the statement has no WHERE clause; otherwise the
      clause holds one filter per provided field, in schema order. */
  lemma SelectShape(tableName: string, fields: seq<Field>, data: map<string, JsValue>)
    ensures Provided(fields, data) == [] ==> SelectSql(tableName, fields, data) == "SELECT * FROM " + tableName + " ;"
    ensures Provided(fields, data) != [] ==>
      SelectSql(tableName, fields, data) ==
        "SELECT * FROM " + tableName + " WHERE " + Join(Filters(Provided(fields, data)), " AND ") + ";"
  {
    var filters := Filters(Provided(fields, data));
    if Provided(fields, data) == [] {
      assert WhereClause(filters) == "";
    } else {
      assert WhereClause(filters) == "WHERE " + Join(filters, " AND ");
    }
  }

  method BuildSelectSql(tableName: string, fields: seq<Field>, data: map<string, JsValue>) returns (sql: string)
    ensures sql == SelectSql(tableName, fields, data)
  {
    var filters: seq<string> := [];
    for i := 0 to |fields|
      invariant filters == Filters(Provided(fields[..i], data))
    {
      var field := fields[i];
      var v := Get(data, field.name);
      assert fields[..i + 1][..i] == fields[..i];
      if v != Null && v != Str("") && v != Undefined {
        var filter;
        if field.ftype == Int || field.ftype == Float {
          filter := field.name + " = " + v.s;
        } else if field.ftype == Boolean {
          filter := field.name + " = " + v.s;
        } else if field.ftype == Date {
          filter := field.name + " = '" + v.s + "'";
        } else {
          filter := field.name + " LIKE '%" + EscapeQuotes(v.s) + "%'";
        }
        assert filter == Filter(Assignment(field, v.s));
        FiltersSnoc(Provided(fields[..i], data), Assignment(field, v.s));
        filters := filters + [filter];
      }
    }
    assert fields[..|fields|] == fields;
    var whereClause := if |filters| > 0 then "WHERE " + Join(filters, " AND ") else "";
    sql := "SELECT * FROM " + tableName + " " + whereClause + ";";
  }
}
