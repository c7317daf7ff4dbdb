/** The relationship graph of the advanced join builder: for every table, the
    ordered adjacency of foreign-key edges leaving (`fk_out`) and entering
    (`fk_in`) it. The adjacency is a sequence because the source stores freshly
    built edge objects in a `Set`, which keeps duplicates and iterates in
    insertion order. */
module RelationGraph {
  import opened JsStrings
  import opened Schema

  datatype EdgeKind = FkOut | FkIn

  /** `{ table, type, fromField, toField }`: `table` is the neighbour. */
  datatype Edge = Edge(table: string, kind: EdgeKind, fromField: string, toField: string)

  type Graph = map<string, seq<Edge>>

  /** `relationshipGraph.get(t) || new Set()`: an absent table has no edges. */
  function Adjacent(g: Graph, t: string): seq<Edge> {
    if t in g then g[t] else []
  }

  predicate HasEdge(g: Graph, t: string, e: Edge) {
    t in g && e in g[t]
  }

  /** The edge a foreign-key field puts under its own table. */
  function OutEdge(f: Field): Edge
    requires f.fk.Some?
  {
    Edge(f.fk.value.table, FkOut, f.name, f.fk.value.field)
  }

  /** The edge a foreign-key field of `owner` puts under the referenced table. */
  function InEdge(owner: string, f: Field): Edge
    requires f.fk.Some?
  {
    Edge(owner, FkIn, f.fk.value.field, f.name)
  }

  /** The edge that points back from `e`'s neighbour to `owner`. */
  function Inverse(owner: string, e: Edge): Edge {
    Edge(owner, if e.kind == FkOut then FkIn else FkOut, e.toField, e.fromField)
  }

  /** `if (!has(t)) set(t, new Set())`. */
  function Touch(g: Graph, t: string): Graph {
    if t in g then g else g[t := []]
  }

  /** One field of the loop of `buildRelationshipGraph`: a foreign key adds its
      `fk_out` edge under the owner, creates the target's entry if needed and
      adds the `fk_in` edge under the target. */
  function AddFkField(g: Graph, owner: string, f: Field): Graph {
    if f.fk.None? then g
    else
      var g1 := g[owner := Adjacent(g, owner) + [OutEdge(f)]];
      var g2 := Touch(g1, f.fk.value.table);
      g2[f.fk.value.table := g2[f.fk.value.table] + [InEdge(owner, f)]]
  }

  function AddFields(g: Graph, owner: string, fields: seq<Field>): Graph
    decreases |fields|
  {
    if fields == [] then g
    else AddFkField(AddFields(g, owner, fields[..|fields| - 1]), owner, fields[|fields| - 1])
  }

  /** Tables in schema order; each gets its entry before its fields are read. */
  function AddTables(g: Graph, tables: seq<Table>): Graph
    decreases |tables|
  {
    if tables == [] then g
    else
      var t := tables[|tables| - 1];
      AddFields(Touch(AddTables(g, tables[..|tables| - 1]), t.name), t.name, t.fields)
  }

  /** The graph `buildRelationshipGraph` leaves behind, starting from a cleared map. */
  function GraphOf(schema: Schema): Graph {
    AddTables(map[], schema)
  }

  // ---------------------------------------------------------------------------
  // What the graph contains, stated against the schema

  /** Field `f` of table `owner` accounts for edge `e` stored under `t`. */
  predicate Produces(owner: string, f: Field, t: string, e: Edge) {
    f.fk.Some? && ((t == owner && e == OutEdge(f)) || (t == f.fk.value.table && e == InEdge(owner, f)))
  }

  predicate FieldsProduce(owner: string, fields: seq<Field>, t: string, e: Edge) {
    exists j :: 0 <= j < |fields| && Produces(owner, fields[j], t, e)
  }

  predicate SchemaProduces(schema: Schema, t: string, e: Edge) {
    exists i :: 0 <= i < |schema| && FieldsProduce(schema[i].name, schema[i].fields, t, e)
  }

  /** Field `f` is a foreign key into table `t`. */
  predicate References(f: Field, t: string) {
    f.fk.Some? && f.fk.value.table == t
  }

  /** Field `f` of `owner` makes `buildRelationshipGraph` create an entry for `t`. */
  predicate Touches(owner: string, f: Field, t: string) {
    f.fk.Some? && (t == owner || t == f.fk.value.table)
  }

  predicate FieldsTouch(owner: string, fields: seq<Field>, t: string) {
    exists j :: 0 <= j < |fields| && Touches(owner, fields[j], t)
  }

  /** `t` is a table of the schema or the target of one of its foreign keys. */
  predicate Mentioned(schema: Schema, t: string) {
    (exists i :: 0 <= i < |schema| && schema[i].name == t) ||
    (exists i, j :: 0 <= i < |schema| && 0 <= j < |schema[i].fields| && References(schema[i].fields[j], t))
  }

  /** Every edge points back: an `fk_out` edge from T to U with fields (f, uf)
      has the `fk_in` edge from U to T with fields (uf, f), and the other way round. */
  ghost predicate Symmetric(g: Graph) {
    forall t, e :: HasEdge(g, t, e) ==> HasEdge(g, e.table, Inverse(t, e))
  }

  lemma AddFkFieldEdges(g: Graph, owner: string, f: Field)
    ensures forall t, e :: HasEdge(AddFkField(g, owner, f), t, e) <==> HasEdge(g, t, e) || Produces(owner, f, t, e)
    ensures AddFkField(g, owner, f).Keys == g.Keys + (if f.fk.Some? then {owner, f.fk.value.table} else {})
  {
    if f.fk.Some? {
      var g1 := g[owner := Adjacent(g, owner) + [OutEdge(f)]];
      var g2 := Touch(g1, f.fk.value.table);
      var tgt := f.fk.value.table;
      assert forall t, e :: HasEdge(g1, t, e) <==> HasEdge(g, t, e) || (t == owner && e == OutEdge(f));
      assert forall t, e :: HasEdge(g2, t, e) <==> HasEdge(g1, t, e);
    }
  }

  lemma {:induction false} AddFieldsEdges(g: Graph, owner: string, fields: seq<Field>)
    ensures forall t, e :: HasEdge(AddFields(g, owner, fields), t, e) <==> HasEdge(g, t, e) || FieldsProduce(owner, fields, t, e)
    ensures forall t :: t in AddFields(g, owner, fields) <==> t in g || FieldsTouch(owner, fields, t)
    decreases |fields|
  {
    if fields != [] {
      var init := fields[..|fields| - 1];
      var last := fields[|fields| - 1];
      AddFieldsEdges(g, owner, init);
      AddFkFieldEdges(AddFields(g, owner, init), owner, last);
      forall t, e ensures FieldsProduce(owner, fields, t, e) <==> FieldsProduce(owner, init, t, e) || Produces(owner, last, t, e) {
        if FieldsProduce(owner, fields, t, e) {
          var j :| 0 <= j < |fields| && Produces(owner, fields[j], t, e);
          if j < |init| { assert init[j] == fields[j]; }
        }
        if FieldsProduce(owner, init, t, e) {
          var j :| 0 <= j < |init| && Produces(owner, init[j], t, e);
          assert fields[j] == init[j];
        }
      }
      forall t ensures FieldsTouch(owner, fields, t) <==> FieldsTouch(owner, init, t) || Touches(owner, last, t) {
        if FieldsTouch(owner, fields, t) {
          var j :| 0 <= j < |fields| && Touches(owner, fields[j], t);
          if j < |init| { assert init[j] == fields[j]; }
        }
        if FieldsTouch(owner, init, t) {
          var j :| 0 <= j < |init| && Touches(owner, init[j], t);
          assert fields[j] == init[j];
        }
      }
    }
  }

  lemma SchemaProducesSnoc(tables: seq<Table>, t: string, e: Edge)
    requires tables != []
    ensures SchemaProduces(tables, t, e) <==>
      SchemaProduces(tables[..|tables| - 1], t, e) || FieldsProduce(tables[|tables| - 1].name, tables[|tables| - 1].fields, t, e)
  {
    var init := tables[..|tables| - 1];
    if SchemaProduces(tables, t, e) {
      var i :| 0 <= i < |tables| && FieldsProduce(tables[i].name, tables[i].fields, t, e);
      if i < |init| { assert init[i] == tables[i]; }
    }
    if SchemaProduces(init, t, e) {
      var i :| 0 <= i < |init| && FieldsProduce(init[i].name, init[i].fields, t, e);
      assert tables[i] == init[i];
    }
  }

  lemma MentionedSnoc(tables: seq<Table>, t: string)
    requires tables != []
    ensures Mentioned(tables, t) <==>
      Mentioned(tables[..|tables| - 1], t) || t == tables[|tables| - 1].name || FieldsTouch(tables[|tables| - 1].name, tables[|tables| - 1].fields, t)
  {
    var init := tables[..|tables| - 1];
    var last := tables[|tables| - 1];
    if exists i :: 0 <= i < |tables| && tables[i].name == t {
      var i :| 0 <= i < |tables| && tables[i].name == t;
      if i < |init| { assert init[i] == tables[i]; }
    }
    if exists i, j :: 0 <= i < |tables| && 0 <= j < |tables[i].fields| && References(tables[i].fields[j], t) {
      var i, j :| 0 <= i < |tables| && 0 <= j < |tables[i].fields| && References(tables[i].fields[j], t);
      if i < |init| { assert init[i] == tables[i]; } else { assert Touches(last.name, last.fields[j], t); }
    }
    if exists i :: 0 <= i < |init| && init[i].name == t {
      var i :| 0 <= i < |init| && init[i].name == t;
      assert tables[i] == init[i];
    }
    if exists i, j :: 0 <= i < |init| && 0 <= j < |init[i].fields| && References(init[i].fields[j], t) {
      var i, j :| 0 <= i < |init| && 0 <= j < |init[i].fields| && References(init[i].fields[j], t);
      assert tables[i] == init[i];
    }
    if FieldsTouch(last.name, last.fields, t) && t != last.name {
      var j :| 0 <= j < |last.fields| && Touches(last.name, last.fields[j], t);
      assert References(tables[|tables| - 1].fields[j], t);
    }
  }

  lemma {:induction false} AddTablesEdges(g: Graph, tables: seq<Table>)
    ensures forall t, e :: HasEdge(AddTables(g, tables), t, e) <==> HasEdge(g, t, e) || SchemaProduces(tables, t, e)
    decreases |tables|
  {
    if tables != [] {
      var init := tables[..|tables| - 1];
      var last := tables[|tables| - 1];
      AddTablesEdges(g, init);
      var g0 := AddTables(g, init);
      var g1 := Touch(g0, last.name);
      assert forall t, e :: HasEdge(g1, t, e) <==> HasEdge(g0, t, e);
      AddFieldsEdges(g1, last.name, last.fields);
      forall t, e ensures SchemaProduces(tables, t, e) <==> SchemaProduces(init, t, e) || FieldsProduce(last.name, last.fields, t, e) {
        SchemaProducesSnoc(tables, t, e);
      }
    }
  }

  lemma {:induction false} AddTablesKeys(g: Graph, tables: seq<Table>)
    ensures forall t :: t in AddTables(g, tables) <==> t in g || Mentioned(tables, t)
    decreases |tables|
  {
    if tables != [] {
      var init := tables[..|tables| - 1];
      var last := tables[|tables| - 1];
      AddTablesKeys(g, init);
      var g1 := Touch(AddTables(g, init), last.name);
      AddFieldsEdges(g1, last.name, last.fields);
      forall t ensures Mentioned(tables, t) <==> (Mentioned(init, t) || t == last.name || FieldsTouch(last.name, last.fields, t)) {
        MentionedSnoc(tables, t);
      }
    }
  }

  /** The edges of the built graph are exactly those the schema's foreign keys
      account for: the `fk_out` edge under the owning table and the `fk_in`
      edge under the referenced one. */
  lemma GraphOfEdges(schema: Schema, t: string, e: Edge)
    ensures HasEdge(GraphOf(schema), t, e) <==> SchemaProduces(schema, t, e)
  {
    AddTablesEdges(map[], schema);
  }

  /** Every schema table has an adjacency entry, and so does every
      foreign-key target, even one the schema does not declare; no other
      table has one. */
  lemma GraphOfKeys(schema: Schema, t: string)
    ensures t in GraphOf(schema) <==> Mentioned(schema, t)
  {
    AddTablesKeys(map[], schema);
  }

  /** The built graph is symmetric. */
  lemma GraphOfSymmetric(schema: Schema)
    ensures Symmetric(GraphOf(schema))
  {
    var g := GraphOf(schema);
    AddTablesEdges(map[], schema);
    forall t, e | HasEdge(g, t, e) ensures HasEdge(g, e.table, Inverse(t, e)) {
      var i :| 0 <= i < |schema| && FieldsProduce(schema[i].name, schema[i].fields, t, e);
      var j :| 0 <= j < |schema[i].fields| && Produces(schema[i].name, schema[i].fields[j], t, e);
      assert Produces(schema[i].name, schema[i].fields[j], e.table, Inverse(t, e));
      assert SchemaProduces(schema, e.table, Inverse(t, e));
    }
  }

  /** In a symmetric graph every edge leads to a table that has an entry. */
  lemma SymmetricTargetsAreKeys(g: Graph, t: string, e: Edge)
    requires Symmetric(g) && HasEdge(g, t, e)
    ensures e.table in g
  {
    assert HasEdge(g, e.table, Inverse(t, e));
  }

  /** In a symmetric graph "some edge of `a` leads to `b`" and "some edge of
      `b` leads to `a`" are the same question: the two lookups the join
      synthesis makes for `fk_out` and `fk_in` edges agree. */
  lemma SymmetricLinks(g: Graph, a: string, b: string)
    requires Symmetric(g)
    ensures (exists e :: e in Adjacent(g, a) && e.table == b) <==> (exists e :: e in Adjacent(g, b) && e.table == a)
  {
    if exists e :: e in Adjacent(g, a) && e.table == b {
      var e :| e in Adjacent(g, a) && e.table == b;
      assert HasEdge(g, a, e);
      assert Inverse(a, e) in Adjacent(g, b);
    }
    if exists e :: e in Adjacent(g, b) && e.table == a {
      var e :| e in Adjacent(g, b) && e.table == a;
      assert HasEdge(g, b, e);
      assert Inverse(b, e) in Adjacent(g, a);
    }
  }
}
