/** The state of the advanced join builder (the schema, the selected tables,
    the join paths and the relationship graph, module-level variables of the
    page) and the handlers that change it. */
module AdvancedRelationForm {
  import opened JsStrings
  import opened Schema
  import opened RelationGraph
  import opened PathSearch
  import opened JoinSynthesis

  /** `selectedTables.delete(x)` on the ordered set of selected tables. */
  function Without(s: seq<string>, x: string): (r: seq<string>)
    ensures forall y :: y in r <==> y in s && y != x
    ensures |r| <= |s|
    decreases |s|
  {
    if s == [] then []
    else if s[0] == x then Without(s[1..], x)
    else [s[0]] + Without(s[1..], x)
  }

  lemma {:induction false} WithoutKeepsDistinct(s: seq<string>, x: string)
    requires NoDuplicates(s)
    ensures NoDuplicates(Without(s, x))
    decreases |s|
  {
    if s != [] {
      assert NoDuplicates(s[1..]) by {
        forall i, j | 0 <= i < j < |s| - 1 ensures s[1..][i] != s[1..][j] {
          assert s[i + 1] != s[j + 1];
        }
      }
      WithoutKeepsDistinct(s[1..], x);
      if s[0] != x {
        var rest := Without(s[1..], x);
        assert s[0] !in s[1..] by {
          forall k | 0 <= k < |s| - 1 ensures s[1..][k] != s[0] {
            assert s[0] != s[k + 1];
          }
        }
        var r := [s[0]] + rest;
        forall i, j | 0 <= i < j < |r| ensures r[i] != r[j] {
          assert r[j] == rest[j - 1];
          if i > 0 { assert r[i] == rest[i - 1]; }
        }
      }
    }
  }

  /** `joinPaths.filter(path => !path.some(relation => relation.table === t))`. */
  function Avoiding(paths: seq<Path>, t: string): (r: seq<Path>)
    ensures forall p :: p in r <==> p in paths && !Visits(p, t)
    ensures |r| <= |paths|
    decreases |paths|
  {
    if paths == [] then []
    else if Visits(paths[0], t) then Avoiding(paths[1..], t)
    else [paths[0]] + Avoiding(paths[1..], t)
  }

  /** The position `splice(index, 1)` starts at: a negative index counts from
      the end, an index past the end removes nothing. */
  function SpliceStart(len: nat, index: int): (k: nat)
    ensures k <= len
    ensures 0 <= index <= len ==> k == index
    ensures index < 0 && len + index >= 0 ==> k == len + index
  {
    if index < 0 then (if len + index < 0 then 0 else len + index)
    else if index > len then len
    else index
  }

  /** `for (const rel of rels) if (rel.table === t) { found; break; }`. */
  method ScanTargets(rels: seq<Edge>, t: string) returns (found: bool)
    ensures found == HasTarget(rels, t)
  {
    found := false;
    var k := 0;
    while k < |rels|
      invariant 0 <= k <= |rels|
      invariant !found ==> forall i :: 0 <= i < k ==> rels[i].table != t
      invariant found ==> HasTarget(rels, t)
      decreases |rels| - k
    {
      if rels[k].table == t {
        found := true;
        break;
      }
      k := k + 1;
    }
  }

  /** One test of that search: for `fk_out`, the joined table's adjacency
      (when it has one) leads to the relation's table; for `fk_in`, the
      relation's table's adjacency leads to the joined table. */
  method LinksTo(g: Graph, joinedTable: string, relation: Edge) returns (linked: bool)
    ensures linked == Links(g, joinedTable, relation)
  {
    linked := false;
    if relation.kind == FkOut {
      if joinedTable in g {
        linked := ScanTargets(g[joinedTable], relation.table);
      }
    } else {
      if relation.table in g {
        linked := ScanTargets(g[relation.table], joinedTable);
      }
    }
  }

  /** The search for `sourceTable` over the joined tables in join order. A
      match on an empty table name leaves a falsy value and the search goes on. */
  method FindSourceTable(g: Graph, joinedTables: seq<string>, relation: Edge) returns (sourceTable: Option<string>)
    ensures Filled(sourceTable) ==> FirstLinked(g, joinedTables, relation) == sourceTable
    ensures !Filled(sourceTable) ==> FirstLinked(g, joinedTables, relation) == None
  {
    sourceTable := None;
    var k := 0;
    while k < |joinedTables|
      invariant 0 <= k <= |joinedTables|
      invariant !Filled(sourceTable)
      invariant FirstLinked(g, joinedTables, relation) == FirstLinked(g, joinedTables[k..], relation)
      decreases |joinedTables| - k
    {
      var joinedTable := joinedTables[k];
      var linked := LinksTo(g, joinedTable, relation);
      assert joinedTables[k..][0] == joinedTable;
      assert joinedTables[k..][1..] == joinedTables[k + 1..];
      if linked {
        sourceTable := Some(joinedTable);
      }
      if Filled(sourceTable) {
        break;
      }
      k := k + 1;
    }
    assert joinedTables[|joinedTables|..] == [];
  }

  class JoinBuilder {
    var schema: Schema
    var selected: seq<string>
    var joinPaths: seq<Path>
    var graph: Graph

    /** `selectedTables` is a set: no table is selected twice. */
    ghost predicate Valid()
      reads this
    {
      NoDuplicates(selected)
    }

    constructor ()
      ensures schema == [] && selected == [] && joinPaths == [] && graph == map[]
      ensures Valid()
    {
      schema := [];
      selected := [];
      joinPaths := [];
      graph := map[];
    }

    /** `buildRelationshipGraph()`: clear the graph, then for every table in
        schema order create its entry and add the two edges of every
        foreign-key field. */
    method BuildRelationshipGraph()
      modifies this
      ensures graph == GraphOf(schema)
      ensures schema == old(schema) && selected == old(selected) && joinPaths == old(joinPaths)
    {
      graph := map[];
      for i := 0 to |schema|
        invariant schema == old(schema) && selected == old(selected) && joinPaths == old(joinPaths)
        invariant graph == AddTables(map[], schema[..i])
      {
        var table := schema[i];
        if table.name !in graph {
          graph := graph[table.name := []];
        }
        ghost var touched := graph;
        for j := 0 to |table.fields|
          invariant schema == old(schema) && selected == old(selected) && joinPaths == old(joinPaths)
          invariant graph == AddFields(touched, table.name, table.fields[..j])
          invariant table.name in graph
        {
          var field := table.fields[j];
          assert table.fields[..j + 1][..j] == table.fields[..j];
          if field.fk.Some? {
            var fk := field.fk.value;
            graph := graph[table.name := graph[table.name] + [Edge(fk.table, FkOut, field.name, fk.field)]];
            if fk.table !in graph {
              graph := graph[fk.table := []];
            }
            graph := graph[fk.table := graph[fk.table] + [Edge(table.name, FkIn, fk.field, field.name)]];
          }
        }
        assert table.fields[..|table.fields|] == table.fields;
        assert schema[..i + 1][..i] == schema[..i];
      }
      assert schema[..|schema|] == schema;
    }

    /** `loadSchema()` once the schema document has been fetched. */
    method LoadSchema(fetched: Schema)
      modifies this
      ensures schema == fetched && graph == GraphOf(fetched)
      ensures selected == old(selected) && joinPaths == old(joinPaths)
    {
      schema := fetched;
      BuildRelationshipGraph();
    }

    /** The "add table" handler: a non-empty name not selected yet is appended. */
    method AddTable(tableName: string)
      requires Valid()
      modifies this
      ensures Valid()
      ensures tableName != "" && tableName !in old(selected) ==> selected == old(selected) + [tableName]
      ensures tableName == "" || tableName in old(selected) ==> selected == old(selected)
      ensures schema == old(schema) && joinPaths == old(joinPaths) && graph == old(graph)
    {
      if tableName != "" && tableName !in selected {
        NoDuplicatesSnoc(selected, tableName);
        selected := selected + [tableName];
      }
    }

    /** The "clear tables" handler. */
    method ClearTables()
      modifies this
      ensures Valid()
      ensures selected == [] && joinPaths == []
      ensures schema == old(schema) && graph == old(graph)
    {
      selected := [];
      joinPaths := [];
    }

    /** The "clear relationships" handler. */
    method ClearRelations()
      modifies this
      ensures joinPaths == []
      ensures schema == old(schema) && selected == old(selected) && graph == old(graph)
    {
      joinPaths := [];
    }

    /** The "remove table" handler: the table leaves the selection and every
        join path passing through it is dropped. */
    method RemoveTable(table: string)
      requires Valid()
      modifies this
      ensures Valid()
      ensures selected == Without(old(selected), table) && table !in selected
      ensures joinPaths == Avoiding(old(joinPaths), table)
      ensures forall p :: p in joinPaths ==> !Visits(p, table)
      ensures schema == old(schema) && graph == old(graph)
    {
      WithoutKeepsDistinct(selected, table);
      selected := Without(selected, table);
      joinPaths := Avoiding(joinPaths, table);
    }

    /** The "remove relationship" handler: `joinPaths.splice(index, 1)`. */
    method RemoveRelationship(index: int)
      modifies this
      ensures var k := SpliceStart(|old(joinPaths)|, index);
        if k < |old(joinPaths)| then joinPaths == old(joinPaths)[..k] + old(joinPaths)[k + 1..]
        else joinPaths == old(joinPaths)
      ensures schema == old(schema) && selected == old(selected) && graph == old(graph)
    {
      var k := SpliceStart(|joinPaths|, index);
      if k < |joinPaths| {
        joinPaths := joinPaths[..k] + joinPaths[k + 1..];
      }
    }

    /** `autoDetectRelationships()`: with two or more selected tables the
        join paths are replaced by `findOptimalJoinPaths` of the selection. */
    method AutoDetect()
      modifies this
      ensures schema == old(schema) && selected == old(selected) && graph == old(graph)
      ensures |selected| < 2 ==> joinPaths == old(joinPaths)
      ensures |selected| >= 2 ==> exists n :: JoinPlanPaths(graph, selected, joinPaths, n)
    {
      if |selected| < 2 {
        return;
      }
      var tables := selected;
      joinPaths := [];
      var connectedPaths := FindOptimalJoinPaths(graph, tables);
      joinPaths := connectedPaths;
    }

    /** `generateAdvancedSQL(form)` for the checked column values `columns`. */
    method GenerateAdvancedSql(columns: seq<string>) returns (sql: string)
      ensures sql == AdvancedSql(graph, selected, joinPaths, columns)
    {
      if |selected| == 0 {
        return NoTables;
      }
      if |columns| == 0 {
        return NoColumns;
      }
      var sqlColumns := RenderColumns(columns);
      var tables := selected;
      sql := "SELECT\n  " + Join(sqlColumns, ",\n  ") + "\n";
      var from := FromPart(tables);
      sql := sql + from;
      sql := sql + "\nLIMIT 100;";
    }

    /** The FROM part of `generateAdvancedSQL`. */
    method FromPart(tables: seq<string>) returns (from: string)
      requires tables != []
      ensures from == FromClause(graph, tables, joinPaths)
    {
      if |tables| == 1 {
        from := "FROM " + tables[0];
      } else if |joinPaths| == 0 {
        from := "FROM " + tables[0];
        from := from + "\n-- AVISO: Múltiplas tabelas selecionadas mas sem relacionamentos definidos";
        from := from + "\n-- Use \"Auto-detectar\" para encontrar relacionamentos automaticamente";
        assert from == "FROM " + tables[0] + NoRelationsWarning;
      } else {
        var firstTable := tables[0];
        from := JoinClauses(firstTable, "FROM " + firstTable + "\n");
      }
    }

    /** The nested loop of `generateAdvancedSQL` over the relations of the
        join paths, appending one JOIN clause per relation it keeps. */
    method JoinClauses(firstTable: string, sql0: string) returns (sql: string)
      ensures sql == sql0 + RenderJoins(PlanPaths(graph, firstTable, InitialPlan(firstTable), joinPaths).clauses)
    {
      sql := sql0;
      var joinedTables := [firstTable];
      var processedJoins: set<string> := {};
      ghost var clauses: seq<JoinClause> := [];
      for i := 0 to |joinPaths|
        invariant Plan(joinedTables, processedJoins, clauses) == PlanPaths(graph, firstTable, InitialPlan(firstTable), joinPaths[..i])
        invariant sql == sql0 + RenderJoins(clauses)
      {
        var path := joinPaths[i];
        ghost var before := Plan(joinedTables, processedJoins, clauses);
        for k := 0 to |path|
          invariant Plan(joinedTables, processedJoins, clauses) == PlanEdges(graph, firstTable, before, path[..k])
          invariant sql == sql0 + RenderJoins(clauses)
        {
          assert path[..k + 1][..k] == path[..k];
          joinedTables, processedJoins, clauses, sql :=
            JoinRelation(firstTable, path[k], joinedTables, processedJoins, clauses, sql0, sql);
        }
        assert path[..|path|] == path;
        assert joinPaths[..i + 1][..i] == joinPaths[..i];
      }
      assert joinPaths[..|joinPaths|] == joinPaths;
    }

    /** One relation of that loop: skipped when its key was processed or its
        table is joined, otherwise written as a JOIN to its source table. */
    method JoinRelation(firstTable: string, relation: Edge, joinedTables0: seq<string>, processedJoins0: set<string>,
                        ghost clauses0: seq<JoinClause>, ghost prefix: string, sql0: string)
      returns (joinedTables: seq<string>, processedJoins: set<string>, ghost clauses: seq<JoinClause>, sql: string)
      requires sql0 == prefix + RenderJoins(clauses0)
      ensures Plan(joinedTables, processedJoins, clauses) ==
        PlanEdge(graph, firstTable, Plan(joinedTables0, processedJoins0, clauses0), relation)
      ensures sql == prefix + RenderJoins(clauses)
    {
      joinedTables, processedJoins, clauses, sql := joinedTables0, processedJoins0, clauses0, sql0;
      var joinKey := relation.table + "-" + relation.fromField + "-" + relation.toField;
      if joinKey !in processedJoins && relation.table !in joinedTables {
        var sourceTable := FindSourceTable(graph, joinedTables, relation);
        if !Filled(sourceTable) {
          sourceTable := Some(firstTable);
        }
        var source := sourceTable.value;
        var clause := JoinClause(relation, source);
        sql := sql + RenderJoin(clause);
        assert (clauses + [clause])[..|clauses|] == clauses;
        joinedTables := joinedTables + [relation.table];
        processedJoins := processedJoins + {joinKey};
        clauses := clauses + [clause];
      }
    }
  }
}
