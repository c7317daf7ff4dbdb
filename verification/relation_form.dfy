/** The direct relation form: the foreign keys leaving and entering one table,
    the `dir|fromTable|fromField|toTable|toField` value of each choice, and the
    two-table JOIN query built from a choice. */
module RelationForm {
  import opened JsStrings
  import opened Schema
  import opened RelationGraph

  datatype Direction = Out | In

  /** `{ fromTable, fromField, toTable, toField, direction }`. */
  datatype Relation = Relation(fromTable: string, fromField: string, toTable: string, toField: string, direction: Direction)

  /** The relation a foreign-key field of `table` contributes to `fkOut`. */
  function OutRelation(table: string, f: Field): Relation
    requires f.fk.Some?
  {
    Relation(table, f.name, f.fk.value.table, f.fk.value.field, Out)
  }

  /** The relation a foreign-key field of `tbl` into `table` contributes to `fkIn`. */
  function InRelation(tbl: string, f: Field, table: string): Relation
    requires f.fk.Some?
  {
    Relation(tbl, f.name, table, f.fk.value.field, In)
  }

  /** `fields.filter(f => f.fk).map(...)`. */
  function FkOutOf(table: string, fields: seq<Field>): (r: seq<Relation>)
    ensures |r| <= |fields|
    ensures forall rel :: rel in r <==> exists j :: 0 <= j < |fields| && fields[j].fk.Some? && rel == OutRelation(table, fields[j])
    decreases |fields|
  {
    if fields == [] then []
    else
      var init := FkOutOf(table, fields[..|fields| - 1]);
      var f := fields[|fields| - 1];
      assert forall j :: 0 <= j < |fields| - 1 ==> fields[..|fields| - 1][j] == fields[j];
      if f.fk.Some? then init + [OutRelation(table, f)] else init
  }

  /** The filter keeps field order: the relations of a concatenation are the
      relations of each part, one after the other. */
  lemma {:induction false} FkOutKeepsOrder(table: string, a: seq<Field>, b: seq<Field>)
    ensures FkOutOf(table, a + b) == FkOutOf(table, a) + FkOutOf(table, b)
    decreases |b|
  {
    if b == [] {
      assert a + b == a;
    } else {
      var b0 := b[..|b| - 1];
      var f := b[|b| - 1];
      var last := if f.fk.Some? then [OutRelation(table, f)] else [];
      FkOutKeepsOrder(table, a, b0);
      assert (a + b)[..|a + b| - 1] == a + b0;
      assert (a + b)[|a + b| - 1] == f;
      assert FkOutOf(table, a + b) == FkOutOf(table, a + b0) + last;
      assert FkOutOf(table, b) == FkOutOf(table, b0) + last;
      assert FkOutOf(table, a) + (FkOutOf(table, b0) + last) == (FkOutOf(table, a) + FkOutOf(table, b0)) + last;
    }
  }

  /** The `fkIn` entries one table's fields contribute, in field order. */
  function FkInFields(tbl: string, fields: seq<Field>, table: string): (r: seq<Relation>)
    ensures forall rel :: rel in r <==> exists j :: 0 <= j < |fields| && References(fields[j], table) && rel == InRelation(tbl, fields[j], table)
    decreases |fields|
  {
    if fields == [] then []
    else
      var init := FkInFields(tbl, fields[..|fields| - 1], table);
      var f := fields[|fields| - 1];
      assert forall j :: 0 <= j < |fields| - 1 ==> fields[..|fields| - 1][j] == fields[j];
      if References(f, table) then init + [InRelation(tbl, f, table)] else init
  }

  /** The `fkIn` list: every foreign key of the schema into `table`, tables in
      schema order and fields in field order. */
  function FkInOf(schema: Schema, table: string): seq<Relation>
    decreases |schema|
  {
    if schema == [] then []
    else
      var t := schema[|schema| - 1];
      FkInOf(schema[..|schema| - 1], table) + FkInFields(t.name, t.fields, table)
  }

  /** `fkIn` has one entry for each field of any table whose foreign key
      targets `table`, each pointing at `table` with direction `in`. */
  lemma {:induction false} FkInExactly(schema: Schema, table: string, rel: Relation)
    ensures rel in FkInOf(schema, table) <==>
      exists i, j :: 0 <= i < |schema| && 0 <= j < |schema[i].fields| &&
        References(schema[i].fields[j], table) && rel == InRelation(schema[i].name, schema[i].fields[j], table)
    decreases |schema|
  {
    if schema != [] {
      var init := schema[..|schema| - 1];
      var n := |schema| - 1;
      FkInExactly(init, table, rel);
      if exists i, j :: 0 <= i < |schema| && 0 <= j < |schema[i].fields| &&
           References(schema[i].fields[j], table) && rel == InRelation(schema[i].name, schema[i].fields[j], table) {
        var i, j :| 0 <= i < |schema| && 0 <= j < |schema[i].fields| &&
          References(schema[i].fields[j], table) && rel == InRelation(schema[i].name, schema[i].fields[j], table);
        if i < n {
          assert init[i] == schema[i];
        }
      }
      if rel in FkInOf(init, table) {
        var i, j :| 0 <= i < |init| && 0 <= j < |init[i].fields| &&
          References(init[i].fields[j], table) && rel == InRelation(init[i].name, init[i].fields[j], table);
        assert init[i] == schema[i];
      }
    }
  }

  /** `getRelationsForTable(tableName)`. */
  method GetRelationsForTable(schema: Schema, tableName: string) returns (fkOut: seq<Relation>, fkIn: seq<Relation>)
    ensures Find(schema, tableName).None? ==> fkOut == [] && fkIn == []
    ensures Find(schema, tableName).Some? ==>
      fkOut == FkOutOf(tableName, Find(schema, tableName).value.fields) && fkIn == FkInOf(schema, tableName)
  {
    var table := Find(schema, tableName);
    if table.None? {
      return [], [];
    }
    fkOut := FkOutOf(tableName, table.value.fields);
    fkIn := [];
    for i := 0 to |schema|
      invariant fkIn == FkInOf(schema[..i], tableName)
    {
      var tbl := schema[i].name;
      var fields := schema[i].fields;
      ghost var before := fkIn;
      for j := 0 to |fields|
        invariant fkIn == before + FkInFields(tbl, fields[..j], tableName)
      {
        var f := fields[j];
        assert fields[..j + 1][..j] == fields[..j];
        if f.fk.Some? && f.fk.value.table == tableName {
          fkIn := fkIn + [Relation(tbl, f.name, tableName, f.fk.value.field, In)];
        }
      }
      assert fields[..|fields|] == fields;
      assert schema[..i + 1][..i] == schema[..i];
    }
    assert schema[..|schema|] == schema;
  }

  /** Every `fkIn` entry is an `fk_in` edge the relationship graph of the
      advanced builder stores under the same table, with the field roles
      swapped as that graph records them. */
  lemma FkInAgreesWithGraph(schema: Schema, table: string, rel: Relation)
    requires rel in FkInOf(schema, table)
    ensures HasEdge(GraphOf(schema), table, Edge(rel.fromTable, FkIn, rel.toField, rel.fromField))
  {
    FkInExactly(schema, table, rel);
    var i, j :| 0 <= i < |schema| && 0 <= j < |schema[i].fields| &&
      References(schema[i].fields[j], table) && rel == InRelation(schema[i].name, schema[i].fields[j], table);
    var e := Edge(rel.fromTable, FkIn, rel.toField, rel.fromField);
    assert Produces(schema[i].name, schema[i].fields[j], table, e);
    assert FieldsProduce(schema[i].name, schema[i].fields, table, e);
    GraphOfEdges(schema, table, e);
  }

  /** Every `fkOut` entry is an `fk_out` edge of the relationship graph. */
  lemma FkOutAgreesWithGraph(schema: Schema, table: string, rel: Relation)
    requires Find(schema, table).Some? && rel in FkOutOf(table, Find(schema, table).value.fields)
    ensures HasEdge(GraphOf(schema), table, Edge(rel.toTable, FkOut, rel.fromField, rel.toField))
  {
    var t := Find(schema, table).value;
    var i :| 0 <= i < |schema| && schema[i] == t;
    var j :| 0 <= j < |t.fields| && t.fields[j].fk.Some? && rel == OutRelation(table, t.fields[j]);
    var e := Edge(rel.toTable, FkOut, rel.fromField, rel.toField);
    assert Produces(schema[i].name, schema[i].fields[j], table, e);
    assert FieldsProduce(schema[i].name, schema[i].fields, table, e);
    GraphOfEdges(schema, table, e);
  }

  // ---------------------------------------------------------------------------
  // The option value

  function DirName(d: Direction): string {
    match d
    case Out => "out"
    case In => "in"
  }

  /** The `value` of the `<option>` for a relation. */
  function Encode(r: Relation): string {
    Join([DirName(r.direction), r.fromTable, r.fromField, r.toTable, r.toField], "|")
  }

  /** `const [dir, fromTable, fromField, toTable, toField] = value.split('|')`:
      missing parts are `undefined`. */
  datatype Choice = Choice(dir: string, fromTable: Option<string>, fromField: Option<string>,
                           toTable: Option<string>, toField: Option<string>)

  function Destructure(value: string): Choice {
    var parts := Split(value, '|');
    Choice(parts[0], At(parts, 1), At(parts, 2), At(parts, 3), At(parts, 4))
  }

  predicate PipeFree(r: Relation) {
    '|' !in r.fromTable && '|' !in r.fromField && '|' !in r.toTable && '|' !in r.toField
  }

  /** Splitting an option value on `|` gives back the five components of the
      relation when no name holds a `|`. */
  lemma DestructureEncode(r: Relation)
    requires PipeFree(r)
    ensures Destructure(Encode(r)) == Choice(DirName(r.direction), Some(r.fromTable), Some(r.fromField), Some(r.toTable), Some(r.toField))
  {
    var parts := [DirName(r.direction), r.fromTable, r.fromField, r.toTable, r.toField];
    SplitJoin(parts, '|');
  }

  // ---------------------------------------------------------------------------
  // buildRelationSQL

  const ChooseBoth := "-- Selecione a tabela e o relacionamento."
  const InvalidRelation := "-- Relacionamento inválido."

  /** Prefix every checked column value with a table name. */
  function Qualify(table: string, values: seq<string>): (r: seq<string>)
    ensures |r| == |values| && forall k :: 0 <= k < |values| ==> r[k] == table + "." + values[k]
  {
    seq(|values|, k requires 0 <= k < |values| => table + "." + values[k])
  }

  /** The table whose columns are the secondary ones: the target of an `out`
      relation, the source of an `in` relation. */
  function Secondary(c: Choice): Option<string> {
    if c.dir == "out" then c.toTable else c.fromTable
  }

  /** The FROM/JOIN part for a choice whose two field names are present. */
  function JoinPart(table1: string, c: Choice): string {
    if c.dir == "out" then
      "FROM " + table1 + " JOIN " + ShowOpt(c.toTable) + " ON " + table1 + "." + ShowOpt(c.fromField) + " = " + ShowOpt(c.toTable) + "." + ShowOpt(c.toField)
    else
      "FROM " + table1 + " JOIN " + ShowOpt(c.fromTable) + " ON " + ShowOpt(c.fromTable) + "." + ShowOpt(c.fromField) + " = " + table1 + "." + ShowOpt(c.toField)
  }

  /** `buildRelationSQL(form)` for the primary table, the chosen option value
      and the values of the checked primary and secondary column boxes. */
  function BuildRelationSql(table1: string, relVal: string, checked1: seq<string>, checked2: seq<string>): string {
    if table1 == "" || relVal == "" then ChooseBoth
    else
      var c := Destructure(relVal);
      var allColumns := Qualify(table1, checked1) + Qualify(ShowOpt(Secondary(c)), checked2);
      if !Filled(c.fromField) || !Filled(c.toField) then InvalidRelation
      else
        // The template literal: a newline, the statement, `;` and a newline.
        var statement := "SELECT " + Join(allColumns, ", ") + "\n" + JoinPart(table1, c);
        Trim("\n" + statement + ";\n")
  }

  /** The first message comes back exactly when the table or the relation is
      not chosen, the second exactly when a chosen relation lacks one of its
      two field names. */
  lemma BuildRelationSqlSentinels(table1: string, relVal: string, checked1: seq<string>, checked2: seq<string>)
    ensures BuildRelationSql(table1, relVal, checked1, checked2) == ChooseBoth <==> table1 == "" || relVal == ""
    ensures BuildRelationSql(table1, relVal, checked1, checked2) == InvalidRelation <==>
      table1 != "" && relVal != "" && (!Filled(Destructure(relVal).fromField) || !Filled(Destructure(relVal).toField))
  {
    assert ChooseBoth[3] == 'S' && InvalidRelation[3] == 'R';
    if table1 != "" && relVal != "" {
      var c := Destructure(relVal);
      if Filled(c.fromField) && Filled(c.toField) {
        StatementIsSelect(table1, relVal, checked1, checked2);
      }
    }
  }

  /** Past both checks the result is the trimmed template, which starts with
      `S`. */
  lemma StatementIsSelect(table1: string, relVal: string, checked1: seq<string>, checked2: seq<string>)
    requires table1 != "" && relVal != ""
    requires Filled(Destructure(relVal).fromField) && Filled(Destructure(relVal).toField)
    ensures |BuildRelationSql(table1, relVal, checked1, checked2)| > 0
    ensures BuildRelationSql(table1, relVal, checked1, checked2)[0] == 'S'
  {
    var c := Destructure(relVal);
    var allColumns := Qualify(table1, checked1) + Qualify(ShowOpt(Secondary(c)), checked2);
    var body := "SELECT " + Join(allColumns, ", ") + "\n" + JoinPart(table1, c);
    TrimTemplate(body);
    assert BuildRelationSql(table1, relVal, checked1, checked2) == body + ";";
  }

  /** Trimming the template removes exactly its leading and trailing newline. */
  lemma TrimTemplate(body: string)
    requires |body| > 0 && body[0] == 'S'
    ensures Trim("\n" + body + ";\n") == body + ";"
  {
    var s := "\n" + body + ";\n";
    assert IsJsSpace(s[0]);
    assert s[1..] == body + ";\n";
    assert TrimStart(s[1..]) == body + ";\n";
    var t := body + ";\n";
    assert IsJsSpace(t[|t| - 1]);
    assert t[..|t| - 1] == body + ";";
    assert TrimEnd(body + ";") == body + ";";
  }

  /** A query is produced exactly when both fields of the choice are present;
      it selects the primary columns qualified by the primary table, then the
      secondary columns qualified by the other table, and joins the two on
      the chosen foreign key in the direction the choice names. */
  lemma BuildRelationSqlQuery(table1: string, relVal: string, checked1: seq<string>, checked2: seq<string>)
    requires table1 != "" && relVal != ""
    ensures var c := Destructure(relVal);
      BuildRelationSql(table1, relVal, checked1, checked2) ==
        if !Filled(c.fromField) || !Filled(c.toField) then InvalidRelation
        else "SELECT " + Join(Qualify(table1, checked1) + Qualify(ShowOpt(Secondary(c)), checked2), ", ") + "\n" + JoinPart(table1, c) + ";"
  {
    var c := Destructure(relVal);
    var allColumns := Qualify(table1, checked1) + Qualify(ShowOpt(Secondary(c)), checked2);
    var body := "SELECT " + Join(allColumns, ", ") + "\n" + JoinPart(table1, c);
    TrimTemplate(body);
  }

  /** For a well-formed option value the query joins the primary table to the
      target of an `out` relation, or to the source of an `in` relation, on
      the relation's own fields. */
  lemma BuildRelationSqlJoin(table1: string, r: Relation, checked1: seq<string>, checked2: seq<string>)
    requires table1 != "" && PipeFree(r) && r.fromField != "" && r.toField != ""
    ensures BuildRelationSql(table1, Encode(r), checked1, checked2) ==
      "SELECT " + Join(Qualify(table1, checked1) + Qualify(if r.direction == Out then r.toTable else r.fromTable, checked2), ", ") + "\n" +
      (if r.direction == Out
       then "FROM " + table1 + " JOIN " + r.toTable + " ON " + table1 + "." + r.fromField + " = " + r.toTable + "." + r.toField
       else "FROM " + table1 + " JOIN " + r.fromTable + " ON " + r.fromTable + "." + r.fromField + " = " + table1 + "." + r.toField) + ";"
  {
    DestructureEncode(r);
    assert Encode(r) != "" by {
      assert |Encode(r)| >= |DirName(r.direction)|;
    }
    BuildRelationSqlQuery(table1, Encode(r), checked1, checked2);
  }
}
