/** What `generateAdvancedSQL` produces: the SELECT list with aliases for
    column names selected from several tables, and the JOIN plan read off the
    join paths. The plan is a fold over the edges of the paths in order; the
    method that builds the text with loops lives with the builder's state. */
module JoinSynthesis {
  import opened JsStrings
  import opened Schema
  import opened RelationGraph
  import opened PathSearch

  const NoTables := "-- Selecione pelo menos uma tabela"
  const NoColumns := "-- Selecione pelo menos uma coluna"
  const NoRelationsWarning :=
    "\n-- AVISO: Múltiplas tabelas selecionadas mas sem relacionamentos definidos" +
    "\n-- Use \"Auto-detectar\" para encontrar relacionamentos automaticamente"
  const LimitClause := "\nLIMIT 100;"

  // ---------------------------------------------------------------------------
  // The SELECT list

  /** `column.split('.')[1]`: `undefined` when the value has no dot. */
  function BareName(column: string): Option<string> {
    At(Split(column, '.'), 1)
  }

  /** `columnCounts.get(name)`: how many selected columns share the bare name. */
  function CountName(columns: seq<string>, name: Option<string>): nat
    decreases |columns|
  {
    if columns == [] then 0
    else (if BareName(columns[0]) == name then 1 else 0) + CountName(columns[1..], name)
  }

  /** One entry of the SELECT list: `t.c AS t_c` when another selected column
      has the same bare name, the column as it is otherwise. */
  function RenderColumn(columns: seq<string>, column: string): string {
    if CountName(columns, BareName(column)) > 1 then
      column + " AS " + Split(column, '.')[0] + "_" + ShowOpt(BareName(column))
    else column
  }

  function RenderColumns(columns: seq<string>): (r: seq<string>)
    ensures |r| == |columns|
  {
    seq(|columns|, i requires 0 <= i < |columns| => RenderColumn(columns, columns[i]))
  }

  /** The count is at least two exactly when two positions carry the name. */
  lemma CountNameTwice(columns: seq<string>, name: Option<string>)
    ensures CountName(columns, name) > 1 <==>
      exists i, j :: 0 <= i < j < |columns| && BareName(columns[i]) == name && BareName(columns[j]) == name
  {
    if exists i, j :: 0 <= i < j < |columns| && BareName(columns[i]) == name && BareName(columns[j]) == name {
      var i, j :| 0 <= i < j < |columns| && BareName(columns[i]) == name && BareName(columns[j]) == name;
      TwoPositionsCount(columns, name, i, j);
    }
    if CountName(columns, name) > 1 {
      var i, j := CountTwoPositions(columns, name);
    }
  }

  lemma {:induction false} TwoPositionsCount(columns: seq<string>, name: Option<string>, i: int, j: int)
    requires 0 <= i < j < |columns| && BareName(columns[i]) == name && BareName(columns[j]) == name
    ensures CountName(columns, name) > 1
    decreases |columns|
  {
    var tail := columns[1..];
    assert BareName(tail[j - 1]) == name;
    if i == 0 {
      CountNameOnce(tail, name);
    } else {
      TwoPositionsCount(tail, name, i - 1, j - 1);
    }
  }

  lemma {:induction false} CountTwoPositions(columns: seq<string>, name: Option<string>) returns (i: int, j: int)
    requires CountName(columns, name) > 1
    ensures 0 <= i < j < |columns| && BareName(columns[i]) == name && BareName(columns[j]) == name
    decreases |columns|
  {
    var tail := columns[1..];
    if BareName(columns[0]) == name {
      CountNameOnce(tail, name);
      var k :| 0 <= k < |tail| && BareName(tail[k]) == name;
      i, j := 0, k + 1;
    } else {
      var a, b := CountTwoPositions(tail, name);
      i, j := a + 1, b + 1;
    }
  }

  lemma {:induction false} CountNameOnce(columns: seq<string>, name: Option<string>)
    ensures CountName(columns, name) > 0 <==> exists i :: 0 <= i < |columns| && BareName(columns[i]) == name
    decreases |columns|
  {
    if columns != [] {
      CountNameOnce(columns[1..], name);
      if exists i :: 0 <= i < |columns| && BareName(columns[i]) == name {
        var i :| 0 <= i < |columns| && BareName(columns[i]) == name;
        if i > 0 {
          assert BareName(columns[1..][i - 1]) == name;
        }
      }
      if CountName(columns[1..], name) > 0 {
        var i :| 0 <= i < |columns[1..]| && BareName(columns[1..][i]) == name;
        assert BareName(columns[i + 1]) == name;
      }
    }
  }

  /** A selected column gets an alias exactly when some other selected column
      has the same bare name; the alias is `<table>_<name>`. */
  lemma AliasIffShared(columns: seq<string>, k: nat)
    requires k < |columns|
    ensures RenderColumns(columns)[k] != columns[k] <==>
      exists j :: 0 <= j < |columns| && j != k && BareName(columns[j]) == BareName(columns[k])
    ensures RenderColumns(columns)[k] != columns[k] ==>
      RenderColumns(columns)[k] == columns[k] + " AS " + Split(columns[k], '.')[0] + "_" + ShowOpt(BareName(columns[k]))
  {
    var name := BareName(columns[k]);
    CountNameTwice(columns, name);
    if exists j :: 0 <= j < |columns| && j != k && BareName(columns[j]) == name {
      var j :| 0 <= j < |columns| && j != k && BareName(columns[j]) == name;
      if j < k {
        assert BareName(columns[j]) == name && BareName(columns[k]) == name;
      } else {
        assert BareName(columns[k]) == name && BareName(columns[j]) == name;
      }
    }
    if CountName(columns, name) > 1 {
      var i, j :| 0 <= i < j < |columns| && BareName(columns[i]) == name && BareName(columns[j]) == name;
      if i == k {
        assert j != k;
      } else {
        assert i != k;
      }
    }
  }

  // ---------------------------------------------------------------------------
  // The JOIN plan

  /** `${relation.table}-${relation.fromField}-${relation.toField}`. */
  function JoinKey(e: Edge): string {
    e.table + "-" + e.fromField + "-" + e.toField
  }

  /** Some edge of the adjacency leads to `t`. */
  predicate HasTarget(edges: seq<Edge>, t: string) {
    exists e :: e in edges && e.table == t
  }

  /** The lookup that decides whether an already joined table can be the
      source of `e`: for `fk_out`, an edge of the joined table leads to `e`'s
      table; for `fk_in`, an edge of `e`'s table leads to the joined table. */
  predicate Links(g: Graph, joinedTable: string, e: Edge) {
    if e.kind == FkOut then HasTarget(Adjacent(g, joinedTable), e.table)
    else HasTarget(Adjacent(g, e.table), joinedTable)
  }

  /** The first joined table, in join order, that is a non-empty string and
      links to `e`: an empty name is falsy and does not stop the search. */
  function FirstLinked(g: Graph, joined: seq<string>, e: Edge): (r: Option<string>)
    ensures r.Some? ==> r.value in joined && r.value != "" && Links(g, r.value, e)
    ensures r.None? ==> forall t :: t in joined && t != "" ==> !Links(g, t, e)
    decreases |joined|
  {
    if joined == [] then None
    else if joined[0] != "" && Links(g, joined[0], e) then Some(joined[0])
    else FirstLinked(g, joined[1..], e)
  }

  /** The source table of a JOIN: the first linked joined table, or the first
      selected table when there is none. */
  function SourceOf(g: Graph, joined: seq<string>, e: Edge, first: string): string {
    match FirstLinked(g, joined, e)
    case Some(t) => t
    case None => first
  }

  /** One JOIN of the plan: the edge followed and the table it is joined to. */
  datatype JoinClause = JoinClause(edge: Edge, source: string)

  /** `joinedTables` (in insertion order), `processedJoins`, and the JOIN
      clauses written so far. */
  datatype Plan = Plan(joined: seq<string>, processed: set<string>, clauses: seq<JoinClause>)

  function InitialPlan(first: string): Plan {
    Plan([first], {}, [])
  }

  /** One relation of the nested loop: skipped when its key was processed or
      its table is joined already, otherwise joined to its source. */
  function PlanEdge(g: Graph, first: string, plan: Plan, e: Edge): Plan {
    if JoinKey(e) in plan.processed || e.table in plan.joined then plan
    else Plan(plan.joined + [e.table], plan.processed + {JoinKey(e)},
              plan.clauses + [JoinClause(e, SourceOf(g, plan.joined, e, first))])
  }

  function PlanEdges(g: Graph, first: string, plan: Plan, edges: seq<Edge>): Plan
    decreases |edges|
  {
    if edges == [] then plan
    else PlanEdge(g, first, PlanEdges(g, first, plan, edges[..|edges| - 1]), edges[|edges| - 1])
  }

  function PlanPaths(g: Graph, first: string, plan: Plan, paths: seq<Path>): Plan
    decreases |paths|
  {
    if paths == [] then plan
    else PlanEdges(g, first, PlanPaths(g, first, plan, paths[..|paths| - 1]), paths[|paths| - 1])
  }

  /** `JOIN t ON s.from = t.to` for `fk_out`, `JOIN t ON t.to = s.from` otherwise. */
  function RenderJoin(c: JoinClause): string {
    "JOIN " + c.edge.table + " ON " +
    (if c.edge.kind == FkOut then c.source + "." + c.edge.fromField + " = " + c.edge.table + "." + c.edge.toField
     else c.edge.table + "." + c.edge.toField + " = " + c.source + "." + c.edge.fromField) + "\n"
  }

  function RenderJoins(clauses: seq<JoinClause>): string
    decreases |clauses|
  {
    if clauses == [] then ""
    else RenderJoins(clauses[..|clauses| - 1]) + RenderJoin(clauses[|clauses| - 1])
  }

  /** The SELECT list, one rendered column per line. */
  function SelectHead(columns: seq<string>): string {
    "SELECT\n  " + Join(RenderColumns(columns), ",\n  ") + "\n"
  }

  /** The FROM part: the first selected table alone, with the advisory
      comments when several tables have no join paths, or followed by the
      JOIN clauses of the plan. */
  function FromClause(g: Graph, tables: seq<string>, paths: seq<Path>): string
    requires tables != []
  {
    if |tables| == 1 then "FROM " + tables[0]
    else if paths == [] then "FROM " + tables[0] + NoRelationsWarning
    else "FROM " + tables[0] + "\n" + RenderJoins(PlanPaths(g, tables[0], InitialPlan(tables[0]), paths).clauses)
  }

  /** The SQL `generateAdvancedSQL` returns for the selected tables (in
      selection order), the join paths and the checked columns. */
  function AdvancedSql(g: Graph, tables: seq<string>, paths: seq<Path>, columns: seq<string>): string {
    if tables == [] then NoTables
    else if columns == [] then NoColumns
    else SelectHead(columns) + FromClause(g, tables, paths) + LimitClause
  }

  /** The two sentinels come back exactly when nothing is selected; every
      other statement is a SELECT that ends with the row limit. */
  lemma AdvancedSqlSentinels(g: Graph, tables: seq<string>, paths: seq<Path>, columns: seq<string>)
    ensures AdvancedSql(g, tables, paths, columns) == NoTables <==> tables == []
    ensures AdvancedSql(g, tables, paths, columns) == NoColumns <==> tables != [] && columns == []
    ensures tables != [] && columns != [] ==>
      var sql := AdvancedSql(g, tables, paths, columns);
      |sql| >= |LimitClause| + 7 && sql[..7] == "SELECT\n" && sql[|sql| - |LimitClause|..] == LimitClause
  {
    var sql := AdvancedSql(g, tables, paths, columns);
    if tables != [] && columns != [] {
      var head := SelectHead(columns);
      assert sql == head + FromClause(g, tables, paths) + LimitClause;
      assert sql[0] == head[0] == 'S' && NoTables[0] == '-' && NoColumns[0] == '-';
    }
  }

  // ---------------------------------------------------------------------------
  // What the plan guarantees

  function ClauseTables(clauses: seq<JoinClause>): (r: seq<string>)
    ensures |r| == |clauses|
    ensures forall k :: 0 <= k < |clauses| ==> r[k] == clauses[k].edge.table
  {
    seq(|clauses|, k requires 0 <= k < |clauses| => clauses[k].edge.table)
  }

  predicate NoDuplicates(s: seq<string>) {
    forall i, j :: 0 <= i < j < |s| ==> s[i] != s[j]
  }

  /** Every clause is joined to the first table or to a table joined before
      it, and that table links to it unless it is the fallback. */
  ghost predicate SourcesEarlier(g: Graph, first: string, joined: seq<string>, clauses: seq<JoinClause>)
    requires |joined| == |clauses| + 1
  {
    forall k :: 0 <= k < |clauses| ==>
      clauses[k].source in joined[..k + 1] &&
      (clauses[k].source == first || Links(g, clauses[k].source, clauses[k].edge))
  }

  ghost function Keys(clauses: seq<JoinClause>): set<string> {
    set k | 0 <= k < |clauses| :: JoinKey(clauses[k].edge)
  }

  /** The invariant of the plan: the joined tables are the first table then
      the clause tables, all different; every clause has an earlier source;
      the processed keys are the clause keys. */
  ghost predicate Coherent(g: Graph, first: string, plan: Plan) {
    plan.joined == [first] + ClauseTables(plan.clauses) &&
    NoDuplicates(plan.joined) &&
    SourcesEarlier(g, first, plan.joined, plan.clauses) &&
    plan.processed == Keys(plan.clauses)
  }

  lemma KeysSnoc(clauses: seq<JoinClause>, c: JoinClause)
    ensures Keys(clauses + [c]) == Keys(clauses) + {JoinKey(c.edge)}
  {
    var all := clauses + [c];
    forall k | 0 <= k < |clauses| ensures all[k] == clauses[k] { }
    assert all[|clauses|] == c;
  }

  lemma NoDuplicatesSnoc(s: seq<string>, x: string)
    requires NoDuplicates(s) && x !in s
    ensures NoDuplicates(s + [x])
  {
    var t := s + [x];
    forall i, j | 0 <= i < j < |t| ensures t[i] != t[j] {
      assert t[i] == s[i];
      if j < |s| { assert t[j] == s[j]; }
    }
  }

  lemma SourcesSnoc(g: Graph, first: string, joined: seq<string>, clauses: seq<JoinClause>, c: JoinClause)
    requires |joined| == |clauses| + 1 && SourcesEarlier(g, first, joined, clauses)
    requires c.source in joined && (c.source == first || Links(g, c.source, c.edge))
    ensures SourcesEarlier(g, first, joined + [c.edge.table], clauses + [c])
  {
    var js := joined + [c.edge.table];
    var cs := clauses + [c];
    forall k | 0 <= k < |cs|
      ensures cs[k].source in js[..k + 1] && (cs[k].source == first || Links(g, cs[k].source, cs[k].edge))
    {
      if k < |clauses| {
        assert cs[k] == clauses[k];
        assert js[..k + 1] == joined[..k + 1];
      } else {
        assert js[..k + 1] == joined;
      }
    }
  }

  lemma SourceOfJoined(g: Graph, joined: seq<string>, e: Edge, first: string)
    requires first in joined
    ensures SourceOf(g, joined, e, first) in joined
    ensures SourceOf(g, joined, e, first) == first || Links(g, SourceOf(g, joined, e, first), e)
  {
  }

  lemma PlanEdgeCoherent(g: Graph, first: string, plan: Plan, e: Edge)
    requires Coherent(g, first, plan)
    ensures Coherent(g, first, PlanEdge(g, first, plan, e))
  {
    if !(JoinKey(e) in plan.processed || e.table in plan.joined) {
      var c := JoinClause(e, SourceOf(g, plan.joined, e, first));
      assert ClauseTables(plan.clauses + [c]) == ClauseTables(plan.clauses) + [e.table];
      NoDuplicatesSnoc(plan.joined, e.table);
      SourceOfJoined(g, plan.joined, e, first);
      SourcesSnoc(g, first, plan.joined, plan.clauses, c);
      KeysSnoc(plan.clauses, c);
    }
  }

  lemma {:induction false} PlanEdgesCoherent(g: Graph, first: string, plan: Plan, edges: seq<Edge>)
    requires Coherent(g, first, plan)
    ensures Coherent(g, first, PlanEdges(g, first, plan, edges))
    decreases |edges|
  {
    if edges != [] {
      PlanEdgesCoherent(g, first, plan, edges[..|edges| - 1]);
      PlanEdgeCoherent(g, first, PlanEdges(g, first, plan, edges[..|edges| - 1]), edges[|edges| - 1]);
    }
  }

  lemma {:induction false} PlanPathsCoherent(g: Graph, first: string, plan: Plan, paths: seq<Path>)
    requires Coherent(g, first, plan)
    ensures Coherent(g, first, PlanPaths(g, first, plan, paths))
    decreases |paths|
  {
    if paths != [] {
      PlanPathsCoherent(g, first, plan, paths[..|paths| - 1]);
      PlanEdgesCoherent(g, first, PlanPaths(g, first, plan, paths[..|paths| - 1]), paths[|paths| - 1]);
    }
  }

  /** The plan of `generateAdvancedSQL`: no table is joined twice or joined
      when it is the FROM table, and every JOIN is attached to the FROM table
      or to a table joined before it. */
  lemma PlanIsCoherent(g: Graph, first: string, paths: seq<Path>)
    ensures Coherent(g, first, PlanPaths(g, first, InitialPlan(first), paths))
  {
    PlanPathsCoherent(g, first, InitialPlan(first), paths);
  }

  /** An edge is accounted for when its table is joined or its key was processed. */
  predicate Covered(plan: Plan, e: Edge) {
    e.table in plan.joined || JoinKey(e) in plan.processed
  }

  lemma PlanEdgeGrows(g: Graph, first: string, plan: Plan, e: Edge)
    ensures Covered(PlanEdge(g, first, plan, e), e)
    ensures forall x :: Covered(plan, x) ==> Covered(PlanEdge(g, first, plan, e), x)
  {
  }

  lemma {:induction false} PlanEdgesCover(g: Graph, first: string, plan: Plan, edges: seq<Edge>)
    ensures forall e :: e in edges ==> Covered(PlanEdges(g, first, plan, edges), e)
    ensures forall x :: Covered(plan, x) ==> Covered(PlanEdges(g, first, plan, edges), x)
    decreases |edges|
  {
    if edges != [] {
      var init := edges[..|edges| - 1];
      PlanEdgesCover(g, first, plan, init);
      PlanEdgeGrows(g, first, PlanEdges(g, first, plan, init), edges[|edges| - 1]);
      assert forall e :: e in edges ==> e in init || e == edges[|edges| - 1];
    }
  }

  lemma {:induction false} PlanPathsCover(g: Graph, first: string, plan: Plan, paths: seq<Path>)
    ensures forall p, e :: p in paths && e in p ==> Covered(PlanPaths(g, first, plan, paths), e)
    decreases |paths|
  {
    if paths != [] {
      var init := paths[..|paths| - 1];
      PlanPathsCover(g, first, plan, init);
      PlanEdgesCover(g, first, PlanPaths(g, first, plan, init), paths[|paths| - 1]);
      assert forall p :: p in paths ==> p in init || p == paths[|paths| - 1];
    }
  }

  /** No name used in the key holds a dash. */
  predicate DashFree(e: Edge) {
    '-' !in e.table && '-' !in e.fromField && '-' !in e.toField
  }

  lemma JoinKeyParts(e: Edge)
    ensures Join([e.table, e.fromField, e.toField], "-") == JoinKey(e)
  {
    var parts := [e.table, e.fromField, e.toField];
    assert parts[1..][1..] == [e.toField];
    assert Join(parts[1..], "-") == e.fromField + "-" + e.toField;
    assert e.table + "-" + (e.fromField + "-" + e.toField) == JoinKey(e);
  }

  /** Without dashes in the names, the join key determines the edge's table. */
  lemma JoinKeyDeterminesTable(a: Edge, b: Edge)
    requires DashFree(a) && DashFree(b) && JoinKey(a) == JoinKey(b)
    ensures a.table == b.table
  {
    var pa := [a.table, a.fromField, a.toField];
    var pb := [b.table, b.fromField, b.toField];
    JoinKeyParts(a);
    JoinKeyParts(b);
    SplitJoin(pa, '-');
    SplitJoin(pb, '-');
  }

  /** When no table or field name holds a dash, every table some join path
      passes through is the FROM table or the table of a JOIN clause. */
  lemma PlanJoinsEveryPathTable(g: Graph, first: string, paths: seq<Path>, p: Path, e: Edge)
    requires p in paths && e in p
    requires forall q, x :: q in paths && x in q ==> DashFree(x)
    ensures e.table in PlanPaths(g, first, InitialPlan(first), paths).joined
  {
    var plan := PlanPaths(g, first, InitialPlan(first), paths);
    PlanPathsCover(g, first, InitialPlan(first), paths);
    PlanIsCoherent(g, first, paths);
    PlanOnlyPathEdges(g, first, InitialPlan(first), paths);
    if JoinKey(e) in plan.processed {
      var k :| 0 <= k < |plan.clauses| && JoinKey(plan.clauses[k].edge) == JoinKey(e);
      JoinKeyDeterminesTable(plan.clauses[k].edge, e);
      assert plan.joined[k + 1] == e.table;
    }
  }

  /** Every clause of the plan follows an edge of some join path. */
  lemma {:induction false} PlanOnlyPathEdges(g: Graph, first: string, plan: Plan, paths: seq<Path>)
    requires plan.clauses == []
    ensures forall c :: c in PlanPaths(g, first, plan, paths).clauses ==> exists p :: p in paths && c.edge in p
    decreases |paths|
  {
    if paths != [] {
      var init := paths[..|paths| - 1];
      PlanOnlyPathEdges(g, first, plan, init);
      PlanEdgesFrom(g, first, PlanPaths(g, first, plan, init), paths[|paths| - 1]);
      forall c | c in PlanPaths(g, first, plan, paths).clauses
        ensures exists p :: p in paths && c.edge in p
      {
        if c in PlanPaths(g, first, plan, init).clauses {
          var p :| p in init && c.edge in p;
          assert p in paths;
        } else {
          assert paths[|paths| - 1] in paths;
        }
      }
    }
  }

  lemma {:induction false} PlanEdgesFrom(g: Graph, first: string, plan: Plan, edges: seq<Edge>)
    ensures forall c :: c in PlanEdges(g, first, plan, edges).clauses ==> c in plan.clauses || c.edge in edges
    decreases |edges|
  {
    if edges != [] {
      var init := edges[..|edges| - 1];
      PlanEdgesFrom(g, first, plan, init);
      assert forall e :: e in init ==> e in edges;
    }
  }

  /** On the graph built from a schema the `fk_out` and `fk_in` lookups ask
      the same question, so the source chosen for an edge does not depend on
      its direction. */
  lemma LinksIgnoreDirection(schema: Schema, joinedTable: string, e: Edge)
    ensures Links(GraphOf(schema), joinedTable, e) <==> Links(GraphOf(schema), joinedTable, e.(kind := FkOut))
  {
    GraphOfSymmetric(schema);
    SymmetricLinks(GraphOf(schema), joinedTable, e.table);
  }
}
