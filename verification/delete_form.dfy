/** The DELETE form: one input per primary-key field, and a statement that
    names every key or nothing at all. */
module DeleteForm {
  import opened JsStrings
  import opened Schema

  /** `schema.fields.filter(f => f.pk)`. */
  function PkFields(fields: seq<Field>): (r: seq<Field>)
    ensures forall f :: f in r <==> f in fields && f.pk
    ensures |r| <= |fields|
    decreases |fields|
  {
    if fields == [] then []
    else
      var f := fields[|fields| - 1];
      PkFields(fields[..|fields| - 1]) + (if f.pk then [f] else [])
  }

  /** The filter keeps schema order. */
  lemma {:induction false} PkFieldsAppend(a: seq<Field>, b: seq<Field>)
    ensures PkFields(a + b) == PkFields(a) + PkFields(b)
    decreases |b|
  {
    if b == [] {
      assert a + b == a;
    } else {
      assert (a + b)[..|a + b| - 1] == a + b[..|b| - 1];
      PkFieldsAppend(a, b[..|b| - 1]);
    }
  }

  /** `!data[name]` on the object `Object.fromEntries(new FormData(form))`:
      the key is absent or its text is empty. */
  predicate Missing(data: map<string, string>, name: string) {
    name !in data || data[name] == ""
  }

  /** One `name = value` condition. `Number(value)` is not modelled: whether
      it is NaN is the parameter `notNumber`. */
  function Condition(name: string, value: string, notNumber: string -> bool): string {
    name + " = " + (if notNumber(value) then "'" + value + "'" else value)
  }

  /** The conditions, one per key field in order. */
  function Conditions(pkFields: seq<Field>, data: map<string, string>, notNumber: string -> bool): (r: seq<string>)
    requires forall f :: f in pkFields ==> f.name in data
    ensures |r| == |pkFields|
    ensures forall k :: 0 <= k < |pkFields| ==> r[k] == Condition(pkFields[k].name, data[pkFields[k].name], notNumber)
  {
    seq(|pkFields|, k requires 0 <= k < |pkFields| => Condition(pkFields[k].name, data[pkFields[k].name], notNumber))
  }

  /** `buildDeleteSQL`. */
  function DeleteSql(tableName: string, data: map<string, string>, pkFields: seq<Field>, notNumber: string -> bool): string {
    if tableName == "" || exists f :: f in pkFields && Missing(data, f.name) then ""
    else "DELETE FROM " + tableName + " WHERE " + Join(Conditions(pkFields, data, notNumber), " AND ") + ";"
  }

  /** The builder gives up, returning `''`, exactly when the table name is
      empty or some key has no value; otherwise the statement deletes by
      every key. */
  lemma DeleteEmptyIff(tableName: string, data: map<string, string>, pkFields: seq<Field>, notNumber: string -> bool)
    ensures DeleteSql(tableName, data, pkFields, notNumber) == "" <==>
      tableName == "" || exists f :: f in pkFields && Missing(data, f.name)
    ensures DeleteSql(tableName, data, pkFields, notNumber) != "" ==>
      (forall f :: f in pkFields ==> f.name in data && data[f.name] != "") &&
      DeleteSql(tableName, data, pkFields, notNumber) ==
        "DELETE FROM " + tableName + " WHERE " + Join(Conditions(pkFields, data, notNumber), " AND ") + ";"
  {
    var sql := DeleteSql(tableName, data, pkFields, notNumber);
    if !(tableName == "" || exists f :: f in pkFields && Missing(data, f.name)) {
      assert sql[0] == 'D';
    }
  }
}
