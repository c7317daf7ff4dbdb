/** The schema document every form is generated from: tables in the order of
    the JSON object's keys, each an ordered list of field descriptors. */
module Schema {
  import opened JsStrings

  /** The `type` string of a field. The forms test it against `'int'`,
      `'float'`, `'boolean'` and `'date'`; every other string is handled as
      text ("string e outros"). */
  datatype FieldType = Int | Float | Boolean | Date | Other

  function TypeOf(name: string): (t: FieldType)
    ensures t == Other <==> name !in {"int", "float", "boolean", "date"}
  {
    if name == "int" then Int
    else if name == "float" then Float
    else if name == "boolean" then Boolean
    else if name == "date" then Date
    else Other
  }

  /** Types whose values the builders write without quotes. */
  predicate IsBare(t: FieldType) {
    t == Int || t == Float || t == Boolean
  }

  /** `fk: { tabela, campo }`: the referenced table and field. */
  datatype ForeignKey = ForeignKey(table: string, field: string)

  datatype Field = Field(name: string, ftype: FieldType, pk: bool, fk: Option<ForeignKey>)

  datatype Table = Table(name: string, fields: seq<Field>)

  type Schema = seq<Table>

  /** `dbSchema[name]`: a JSON object has one entry per key, so the first
      table with the name is the one. */
  function Find(schema: Schema, name: string): (r: Option<Table>)
    ensures r.Some? <==> exists i :: 0 <= i < |schema| && schema[i].name == name
    ensures r.Some? ==> r.value in schema && r.value.name == name
    decreases |schema|
  {
    if schema == [] then None
    else if schema[0].name == name then Some(schema[0])
    else Find(schema[1..], name)
  }

  /** Keys of a JSON object are distinct. */
  predicate DistinctNames(schema: Schema) {
    forall i, j :: 0 <= i < j < |schema| ==> schema[i].name != schema[j].name
  }

  /** With distinct names, `Find` returns the one table carrying the name. */
  lemma {:induction false} FindUnique(schema: Schema, i: nat)
    requires DistinctNames(schema) && i < |schema|
    ensures Find(schema, schema[i].name) == Some(schema[i])
    decreases |schema|
  {
    if i > 0 {
      assert schema[0].name != schema[i].name;
      assert DistinctNames(schema[1..]) by {
        forall a, b | 0 <= a < b < |schema| - 1 ensures schema[1..][a].name != schema[1..][b].name {
          assert schema[a + 1].name != schema[b + 1].name;
        }
      }
      FindUnique(schema[1..], i - 1);
    }
  }
}
