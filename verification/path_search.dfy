/** The three breadth-first searches of the advanced join builder over the
    relationship graph. Each keeps a FIFO queue of `{table, path}` entries
    (the path taken so far) and reads adjacencies in their stored order, so
    the order of the results is the order the source produces. */
module PathSearch {
  import opened JsStrings
  import opened RelationGraph

  /** A join path: the edges taken one after the other from a start table. */
  type Path = seq<Edge>

  /** The table a path has reached: its start while it is empty. */
  function EndOf(start: string, p: Path): string {
    if p == [] then start else p[|p| - 1].table
  }

  /** Each edge is taken from the adjacency of the table the previous edge
      reached (the start table for the first edge). */
  ghost predicate IsWalk(g: Graph, start: string, p: Path)
    decreases |p|
  {
    p == [] || (IsWalk(g, start, p[..|p| - 1]) && p[|p| - 1] in Adjacent(g, EndOf(start, p[..|p| - 1])))
  }

  /** No two edges of the path lead to the same table. */
  predicate DistinctTargets(p: Path) {
    forall i, j :: 0 <= i < j < |p| ==> p[i].table != p[j].table
  }

  /** `path.some(p => p.table === t)`. */
  predicate Visits(p: Path, t: string) {
    exists i :: 0 <= i < |p| && p[i].table == t
  }

  lemma WalkExtend(g: Graph, start: string, p: Path, e: Edge)
    requires IsWalk(g, start, p) && e in Adjacent(g, EndOf(start, p))
    ensures IsWalk(g, start, p + [e])
  {
    assert (p + [e])[..|p|] == p;
  }

  lemma ExtendDistinct(p: Path, e: Edge)
    requires DistinctTargets(p) && !Visits(p, e.table)
    ensures DistinctTargets(p + [e])
  {
    var q := p + [e];
    forall i, j | 0 <= i < j < |q| ensures q[i].table != q[j].table {
      if j == |p| {
        assert q[i] == p[i];
      } else {
        assert q[i] == p[i] && q[j] == p[j];
      }
    }
  }

  lemma ExtendAvoids(p: Path, e: Edge, t: string)
    requires !Visits(p, t) && e.table != t
    ensures !Visits(p + [e], t)
  {
    var q := p + [e];
    forall i | 0 <= i < |q| ensures q[i].table != t {
      if i < |p| { assert q[i] == p[i]; }
    }
  }

  /** Every edge of a walk leaves the table the edges before it reached. */
  lemma {:induction false} WalkAt(g: Graph, start: string, p: Path, k: int)
    requires IsWalk(g, start, p) && 0 <= k < |p|
    ensures p[k] in Adjacent(g, EndOf(start, p[..k]))
    decreases |p|
  {
    var init := p[..|p| - 1];
    if k < |p| - 1 {
      WalkAt(g, start, init, k);
      assert init[k] == p[k] && init[..k] == p[..k];
    } else {
      assert p[..k] == init;
    }
  }

  // ---------------------------------------------------------------------------
  // findAllPaths

  datatype Entry = Entry(table: string, path: Path)

  /** A path `findAllPaths(start, end, maxDepth)` may return: 1 to maxDepth
      edges walked from `start`, the last one reaching `end`, no table reached
      twice and `end` reached only by the last edge. */
  ghost predicate FoundPath(g: Graph, start: string, end: string, maxDepth: int, p: Path) {
    1 <= |p| <= maxDepth && IsWalk(g, start, p) && p[|p| - 1].table == end &&
    DistinctTargets(p) && !Visits(p[..|p| - 1], end)
  }

  ghost predicate AllFound(g: Graph, start: string, end: string, maxDepth: int, paths: seq<Path>) {
    forall p :: p in paths ==> FoundPath(g, start, end, maxDepth, p)
  }

  /** An entry of the queue of `findAllPaths`: a walk from `start` through
      distinct tables, none of them `end`. */
  ghost predicate Pending(g: Graph, start: string, end: string, q: Entry) {
    q.table == EndOf(start, q.path) && IsWalk(g, start, q.path) && DistinctTargets(q.path) && !Visits(q.path, end)
  }

  ghost predicate AllPending(g: Graph, start: string, end: string, queue: seq<Entry>) {
    forall q :: q in queue ==> Pending(g, start, end, q)
  }

  /** The queue holds entries of BFS level `level` followed by entries of the
      next level, none deeper than `top`. */
  ghost predicate Layered(queue: seq<Entry>, level: int, top: int) {
    (forall i :: 0 <= i < |queue| ==> level <= |queue[i].path| <= level + 1 && |queue[i].path| <= top) &&
    (forall i, j :: 0 <= i < j < |queue| ==> |queue[i].path| <= |queue[j].path|)
  }

  function CountAt(queue: seq<Entry>, level: int): nat
    decreases |queue|
  {
    if queue == [] then 0
    else (if |queue[0].path| == level then 1 else 0) + CountAt(queue[1..], level)
  }

  lemma {:induction false} CountAtSnoc(queue: seq<Entry>, x: Entry, level: int)
    ensures CountAt(queue + [x], level) == CountAt(queue, level) + (if |x.path| == level then 1 else 0)
    decreases |queue|
  {
    if queue != [] {
      assert (queue + [x])[1..] == queue[1..] + [x];
      CountAtSnoc(queue[1..], x, level);
    }
  }

  lemma LayeredPush(queue: seq<Entry>, level: int, top: int, x: Entry)
    requires Layered(queue, level, top) && |x.path| == level + 1 <= top
    ensures Layered(queue + [x], level, top)
  {
    var q := queue + [x];
    forall i | 0 <= i < |q| ensures level <= |q[i].path| <= level + 1 && |q[i].path| <= top {
      if i < |queue| { assert q[i] == queue[i]; }
    }
    forall i, j | 0 <= i < j < |q| ensures |q[i].path| <= |q[j].path| {
      assert q[i] == queue[i];
      if j < |queue| { assert q[j] == queue[j]; }
    }
  }

  lemma LayeredPop(queue: seq<Entry>, level: int, top: int)
    requires Layered(queue, level, top) && |queue| > 0
    ensures Layered(queue[1..], level, top)
  {
    var q := queue[1..];
    forall i | 0 <= i < |q| ensures level <= |q[i].path| <= level + 1 && |q[i].path| <= top {
      assert q[i] == queue[i + 1];
    }
    forall i, j | 0 <= i < j < |q| ensures |q[i].path| <= |q[j].path| {
      assert q[i] == queue[i + 1] && q[j] == queue[j + 1];
    }
  }

  lemma LayeredNextLevel(queue: seq<Entry>, level: int, top: int)
    requires Layered(queue, level, top) && |queue| > 0 && |queue[0].path| == level + 1
    ensures Layered(queue, level + 1, top)
  {
    forall i | 0 < i < |queue| ensures level + 1 <= |queue[i].path| {
      assert |queue[0].path| <= |queue[i].path|;
    }
  }

  lemma ReachEnd(g: Graph, start: string, end: string, maxDepth: int, current: Entry, e: Edge)
    requires Pending(g, start, end, current) && |current.path| < maxDepth
    requires e in Adjacent(g, current.table) && e.table == end
    ensures FoundPath(g, start, end, maxDepth, current.path + [e])
  {
    var p := current.path + [e];
    WalkExtend(g, start, current.path, e);
    ExtendDistinct(current.path, e);
    assert p[..|p| - 1] == current.path;
  }

  lemma ReachNext(g: Graph, start: string, end: string, current: Entry, e: Edge)
    requires Pending(g, start, end, current)
    requires e in Adjacent(g, current.table) && e.table != end && !Visits(current.path, e.table)
    ensures Pending(g, start, end, Entry(e.table, current.path + [e]))
  {
    WalkExtend(g, start, current.path, e);
    ExtendDistinct(current.path, e);
    ExtendAvoids(current.path, e, end);
  }

  /** `a` is a proper prefix of `p`. */
  predicate ProperPrefix(a: Path, p: Path) {
    |a| < |p| && a == p[..|a|]
  }

  /** A path is already found, or the path of a queued entry leads into it. */
  ghost predicate Covered(paths: seq<Path>, queue: seq<Entry>, p: Path) {
    p in paths || exists q :: q in queue && ProperPrefix(q.path, p)
  }

  /** Every path `findAllPaths` may return is covered. */
  ghost predicate AllCovered(g: Graph, start: string, end: string, maxDepth: int, paths: seq<Path>, queue: seq<Entry>) {
    forall p :: FoundPath(g, start, end, maxDepth, p) ==> Covered(paths, queue, p)
  }

  /** What expanding `current` leaves behind for one of its edges `e`: the
      closed path when `e` reaches `end`, the extended entry when it leads to
      a table not yet on the path. */
  ghost predicate Handled(current: Entry, e: Edge, end: string, paths: seq<Path>, queue: seq<Entry>) {
    (e.table == end ==> current.path + [e] in paths) &&
    (e.table != end && !Visits(current.path, e.table) ==> Entry(e.table, current.path + [e]) in queue)
  }

  /** Once every edge of `current` is handled, every path to be found that
      runs through the path of `current` is covered. */
  lemma ExpandCovers(g: Graph, start: string, end: string, maxDepth: int, current: Entry,
                     paths: seq<Path>, queue: seq<Entry>, p: Path)
    requires Pending(g, start, end, current)
    requires forall e :: e in Adjacent(g, current.table) ==> Handled(current, e, end, paths, queue)
    requires FoundPath(g, start, end, maxDepth, p) && ProperPrefix(current.path, p)
    ensures Covered(paths, queue, p)
  {
    var k := |current.path|;
    WalkAt(g, start, p, k);
    var e := p[k];
    assert current.path + [e] == p[..k + 1];
    if k == |p| - 1 {
      assert Handled(current, e, end, paths, queue);
      assert p == current.path + [e];
    } else {
      assert p[..|p| - 1][k] == e;
      assert !Visits(current.path, e.table) by {
        forall i | 0 <= i < k ensures current.path[i].table != e.table {
          assert current.path[i] == p[i];
        }
      }
      assert Handled(current, e, end, paths, queue);
      var q := Entry(e.table, current.path + [e]);
      assert q in queue && ProperPrefix(q.path, p);
    }
  }

  /** Dequeuing `queue0[0]` and expanding it keeps every path covered. */
  lemma CoverAfterPop(g: Graph, start: string, end: string, maxDepth: int,
                      paths0: seq<Path>, queue0: seq<Entry>, paths: seq<Path>, queue: seq<Entry>)
    requires queue0 != [] && AllCovered(g, start, end, maxDepth, paths0, queue0)
    requires forall p :: p in paths0 ==> p in paths
    requires forall q :: q in queue0[1..] ==> q in queue
    requires forall p :: FoundPath(g, start, end, maxDepth, p) && ProperPrefix(queue0[0].path, p) ==> Covered(paths, queue, p)
    ensures AllCovered(g, start, end, maxDepth, paths, queue)
  {
    forall p | FoundPath(g, start, end, maxDepth, p) ensures Covered(paths, queue, p) {
      if p !in paths0 {
        var q :| q in queue0 && ProperPrefix(q.path, p);
        if q != queue0[0] {
          var i :| 0 <= i < |queue0| && queue0[i] == q;
          assert queue0[1..][i - 1] == q;
        }
      }
    }
  }

  /** The body of the BFS loop of `findAllPaths` for one dequeued entry below
      `maxDepth`: an edge reaching `end` closes a path, an edge to a table
      not yet on the path extends it at the back of the queue. */
  method ExpandAll(g: Graph, start: string, end: string, maxDepth: int, current: Entry,
                   paths0: seq<Path>, queue0: seq<Entry>, ghost top: int)
    returns (paths: seq<Path>, queue: seq<Entry>)
    requires Pending(g, start, end, current) && |current.path| < maxDepth <= top
    requires AllFound(g, start, end, maxDepth, paths0) && AllPending(g, start, end, queue0)
    requires Layered(queue0, |current.path|, top)
    ensures AllFound(g, start, end, maxDepth, paths) && AllPending(g, start, end, queue)
    ensures Layered(queue, |current.path|, top)
    ensures CountAt(queue, |current.path|) == CountAt(queue0, |current.path|)
    ensures forall p :: p in paths0 ==> p in paths
    ensures forall q :: q in queue0 ==> q in queue
    ensures forall p :: FoundPath(g, start, end, maxDepth, p) && ProperPrefix(current.path, p) ==> Covered(paths, queue, p)
  {
    paths, queue := paths0, queue0;
    var relations := Adjacent(g, current.table);
    for k := 0 to |relations|
      invariant AllFound(g, start, end, maxDepth, paths) && AllPending(g, start, end, queue)
      invariant Layered(queue, |current.path|, top)
      invariant CountAt(queue, |current.path|) == CountAt(queue0, |current.path|)
      invariant forall p :: p in paths0 ==> p in paths
      invariant forall q :: q in queue0 ==> q in queue
      invariant forall j :: 0 <= j < k ==> Handled(current, relations[j], end, paths, queue)
    {
      var relation := relations[k];
      if relation.table == end {
        ReachEnd(g, start, end, maxDepth, current, relation);
        paths := paths + [current.path + [relation]];
      } else if !Visits(current.path, relation.table) {
        var next := Entry(relation.table, current.path + [relation]);
        ReachNext(g, start, end, current, relation);
        CountAtSnoc(queue, next, |current.path|);
        LayeredPush(queue, |current.path|, top, next);
        queue := queue + [next];
      }
    }
    forall p | FoundPath(g, start, end, maxDepth, p) && ProperPrefix(current.path, p)
      ensures Covered(paths, queue, p)
    {
      ExpandCovers(g, start, end, maxDepth, current, paths, queue, p);
    }
  }

  /** `findAllPaths(startTable, endTable, maxDepth)`. */
  method FindAllPaths(g: Graph, start: string, end: string, maxDepth: int) returns (paths: seq<Path>)
    ensures start == end ==> paths == [[]]
    ensures start != end ==> forall p :: p in paths ==> FoundPath(g, start, end, maxDepth, p)
    ensures start != end ==> forall p :: FoundPath(g, start, end, maxDepth, p) ==> p in paths
  {
    if start == end {
      return [[]];
    }
    paths := [];
    var queue := [Entry(start, [])];
    forall p | FoundPath(g, start, end, maxDepth, p) ensures Covered(paths, queue, p) {
      assert queue[0] in queue && ProperPrefix(queue[0].path, p);
    }
    ghost var level := 0;
    ghost var top := if maxDepth > 0 then maxDepth else 0;
    while |queue| > 0
      invariant AllFound(g, start, end, maxDepth, paths) && AllPending(g, start, end, queue)
      invariant AllCovered(g, start, end, maxDepth, paths, queue)
      invariant 0 <= level <= top && Layered(queue, level, top)
      invariant |queue| > 0 ==> |queue[0].path| == level
      decreases top - level, CountAt(queue, level)
    {
      var current := queue[0];
      assert current in queue;
      LayeredPop(queue, level, top);
      ghost var paths0, queue0 := paths, queue;
      queue := queue[1..];
      if |current.path| < maxDepth {
        paths, queue := ExpandAll(g, start, end, maxDepth, current, paths, queue, top);
      }
      CoverAfterPop(g, start, end, maxDepth, paths0, queue0, paths, queue);
      if |queue| > 0 && |queue[0].path| != level {
        LayeredNextLevel(queue, level, top);
        level := level + 1;
      }
    }
  }

  // ---------------------------------------------------------------------------
  // getConnectedTables

  /** Some path `findAllPaths(from, to, maxDepth)` returns exists. */
  ghost predicate HasPath(g: Graph, from: string, to: string, maxDepth: int) {
    exists p :: FoundPath(g, from, to, maxDepth, p)
  }

  /** The other tables of the schema, in schema order, that some path of at
      most `maxDepth` edges leads to. */
  ghost function ConnectedNames(g: Graph, tableNames: seq<string>, tableName: string, maxDepth: int): seq<string>
    decreases |tableNames|
  {
    if tableNames == [] then []
    else
      var t := tableNames[|tableNames| - 1];
      ConnectedNames(g, tableNames[..|tableNames| - 1], tableName, maxDepth) +
        (if t != tableName && HasPath(g, tableName, t, maxDepth) then [t] else [])
  }

  /** A table is listed exactly when it is another schema table with a path. */
  lemma {:induction false} ConnectedNamesExactly(g: Graph, tableNames: seq<string>, tableName: string, maxDepth: int, t: string)
    ensures t in ConnectedNames(g, tableNames, tableName, maxDepth) <==>
      t in tableNames && t != tableName && HasPath(g, tableName, t, maxDepth)
    decreases |tableNames|
  {
    if tableNames != [] {
      var init := tableNames[..|tableNames| - 1];
      ConnectedNamesExactly(g, init, tableName, maxDepth, t);
      assert tableNames == init + [tableNames[|tableNames| - 1]];
    }
  }

  /** `connected` is what `getConnectedTables` has gathered after scanning
      `names`: each other table of `names` with a path, in order, with all
      of its paths. */
  ghost predicate ConnectedUpTo(g: Graph, names: seq<string>, tableName: string, maxDepth: int,
                                connected: seq<(string, seq<Path>)>) {
    |connected| == |ConnectedNames(g, names, tableName, maxDepth)| &&
    forall k :: 0 <= k < |connected| ==>
      connected[k].0 in names && connected[k].0 != tableName && connected[k].1 != [] &&
      connected[k].0 == ConnectedNames(g, names, tableName, maxDepth)[k] &&
      (forall p :: p in connected[k].1 ==> FoundPath(g, tableName, connected[k].0, maxDepth, p)) &&
      (forall p :: FoundPath(g, tableName, connected[k].0, maxDepth, p) ==> p in connected[k].1)
  }

  /** Scanning one more table `t` whose paths are exactly `paths`. */
  lemma ConnectedStep(g: Graph, names: seq<string>, tableName: string, maxDepth: int,
                      connected: seq<(string, seq<Path>)>, t: string, paths: seq<Path>)
    requires ConnectedUpTo(g, names, tableName, maxDepth, connected)
    requires t != tableName ==> (|paths| > 0 <==> HasPath(g, tableName, t, maxDepth))
    requires t != tableName ==> forall p :: p in paths <==> FoundPath(g, tableName, t, maxDepth, p)
    ensures ConnectedUpTo(g, names + [t], tableName, maxDepth,
      if t != tableName && |paths| > 0 then connected + [(t, paths)] else connected)
  {
    assert (names + [t])[..|names|] == names;
    var next := if t != tableName && |paths| > 0 then connected + [(t, paths)] else connected;
    forall k | 0 <= k < |next| ensures next[k].0 in names + [t] {
      if k < |connected| {
        assert next[k] == connected[k];
      }
    }
  }

  /** `getConnectedTables(tableName, maxDepth)`: every other table of the
      schema with at least one path from `tableName`, with all its paths. */
  method GetConnectedTables(g: Graph, tableNames: seq<string>, tableName: string, maxDepth: int)
    returns (connected: seq<(string, seq<Path>)>)
    ensures forall k :: 0 <= k < |connected| ==>
      connected[k].0 in tableNames && connected[k].0 != tableName && connected[k].1 != [] &&
      forall p :: p in connected[k].1 ==> FoundPath(g, tableName, connected[k].0, maxDepth, p)
    ensures |connected| == |ConnectedNames(g, tableNames, tableName, maxDepth)|
    ensures forall k :: 0 <= k < |connected| ==>
      connected[k].0 == ConnectedNames(g, tableNames, tableName, maxDepth)[k] &&
      forall p :: FoundPath(g, tableName, connected[k].0, maxDepth, p) ==> p in connected[k].1
  {
    connected := [];
    for i := 0 to |tableNames|
      invariant ConnectedUpTo(g, tableNames[..i], tableName, maxDepth, connected)
    {
      var other := tableNames[i];
      assert tableNames[..i + 1] == tableNames[..i] + [other];
      var paths: seq<Path> := [];
      if other != tableName {
        paths := FindAllPaths(g, tableName, other, maxDepth);
        assert |paths| > 0 <==> HasPath(g, tableName, other, maxDepth) by {
          if |paths| > 0 {
            assert FoundPath(g, tableName, other, maxDepth, paths[0]);
          }
        }
      }
      ConnectedStep(g, tableNames[..i], tableName, maxDepth, connected, other, paths);
      if other != tableName && |paths| > 0 {
        connected := connected + [(other, paths)];
      }
    }
    assert tableNames[..|tableNames|] == tableNames;
  }

  // ---------------------------------------------------------------------------
  // findPathThroughIntermediate

  datatype Step = Step(table: string, path: Path, depth: nat)

  /** Every table some edge of the graph leads to. */
  ghost function Targets(g: Graph): set<string> {
    set t, e | t in g && e in g[t] :: e.table
  }

  lemma InTargets(g: Graph, t: string, e: Edge)
    requires e in Adjacent(g, t)
    ensures e.table in Targets(g)
  {
    assert t in g && e in g[t];
  }

  lemma SubsetCard(a: set<string>, b: set<string>, x: string)
    requires a <= b && x in b && x !in a
    ensures |a| < |b|
  {
    assert b == a + (b - a);
    assert x in b - a;
  }

  /** Adding `x` to `visited` leaves fewer tables of `universe` to visit. */
  lemma VisitShrinks(universe: set<string>, before: set<string>, after: set<string>)
    requires before <= after && after != before
    ensures |universe - after| <= |universe - before|
    ensures after <= universe ==> |universe - after| < |universe - before|
  {
    var x :| x in after && x !in before;
    assert universe - after <= universe - before;
    if after <= universe {
      SubsetCard(universe - after, universe - before, x);
    } else {
      if universe - after != universe - before {
        var y :| y in universe - before && y !in universe - after;
        SubsetCard(universe - after, universe - before, y);
      }
    }
  }

  /** A path `findPathThroughIntermediate(start, end, maxDepth)` may return. */
  ghost predicate BridgePath(g: Graph, start: string, end: string, maxDepth: int, p: Path) {
    1 <= |p| <= maxDepth && IsWalk(g, start, p) && p[|p| - 1].table == end &&
    DistinctTargets(p) && !Visits(p[..|p| - 1], end)
  }

  ghost predicate AllBridge(g: Graph, start: string, end: string, maxDepth: int, paths: seq<Path>) {
    forall p :: p in paths ==> BridgePath(g, start, end, maxDepth, p)
  }

  /** Every table the path reaches has been visited. */
  ghost predicate Inside(p: Path, visited: set<string>) {
    forall i :: 0 <= i < |p| ==> p[i].table in visited
  }

  ghost predicate BridgeStep(g: Graph, start: string, end: string, s: Step) {
    s.depth == |s.path| && s.table == EndOf(start, s.path) && IsWalk(g, start, s.path) &&
    DistinctTargets(s.path) && !Visits(s.path, end)
  }

  ghost predicate BridgeQueue(g: Graph, start: string, end: string, visited: set<string>, queue: seq<Step>) {
    forall s :: s in queue ==> BridgeStep(g, start, end, s) && Inside(s.path, visited)
  }

  lemma BridgeQueueGrow(g: Graph, start: string, end: string, visited: set<string>, queue: seq<Step>, x: string)
    requires BridgeQueue(g, start, end, visited, queue)
    ensures BridgeQueue(g, start, end, visited + {x}, queue)
  {
  }

  lemma BridgeQueuePush(g: Graph, start: string, end: string, visited: set<string>, queue: seq<Step>, x: Step)
    requires BridgeQueue(g, start, end, visited, queue) && BridgeStep(g, start, end, x) && Inside(x.path, visited)
    ensures BridgeQueue(g, start, end, visited, queue + [x])
  {
    forall s | s in queue + [x] ensures BridgeStep(g, start, end, s) && Inside(s.path, visited) {
      if s != x {
        assert s in queue;
      }
    }
  }

  lemma BridgeClose(g: Graph, start: string, end: string, maxDepth: int, current: Step, e: Edge)
    requires BridgeStep(g, start, end, current) && current.depth < maxDepth
    requires e in Adjacent(g, current.table) && e.table == end
    ensures BridgePath(g, start, end, maxDepth, current.path + [e])
  {
    var p := current.path + [e];
    WalkExtend(g, start, current.path, e);
    ExtendDistinct(current.path, e);
    assert p[..|p| - 1] == current.path;
  }

  lemma BridgeNext(g: Graph, start: string, end: string, visited0: set<string>, visited: set<string>, current: Step, e: Edge)
    requires BridgeStep(g, start, end, current) && Inside(current.path, visited0) && visited0 <= visited
    requires e in Adjacent(g, current.table) && e.table != end && e.table !in visited
    ensures BridgeStep(g, start, end, Step(e.table, current.path + [e], current.depth + 1))
    ensures Inside(current.path + [e], visited + {e.table})
  {
    var p := current.path + [e];
    WalkExtend(g, start, current.path, e);
    ExtendDistinct(current.path, e);
    ExtendAvoids(current.path, e, end);
    forall i | 0 <= i < |p| ensures p[i].table in visited + {e.table} {
      if i < |current.path| { assert p[i] == current.path[i]; }
    }
  }

  // The reach argument shared by the two searches with a global `visited`
  // set: a ghost map `dist` records the depth at which each table was first
  // seen, and every seen table below the depth bound has been expanded or is
  // still queued at that depth.

  /** The queue holds steps of BFS level `level` followed by steps of the
      next level. */
  ghost predicate StepLayered(queue: seq<Step>, level: int) {
    (forall i :: 0 <= i < |queue| ==> level <= queue[i].depth <= level + 1) &&
    (forall i, j :: 0 <= i < j < |queue| ==> queue[i].depth <= queue[j].depth)
  }

  lemma StepLayeredPush(queue: seq<Step>, level: int, x: Step)
    requires StepLayered(queue, level) && x.depth == level + 1
    ensures StepLayered(queue + [x], level)
  {
    var q := queue + [x];
    forall i | 0 <= i < |q| ensures level <= q[i].depth <= level + 1 {
      if i < |queue| { assert q[i] == queue[i]; }
    }
    forall i, j | 0 <= i < j < |q| ensures q[i].depth <= q[j].depth {
      assert q[i] == queue[i];
      if j < |queue| { assert q[j] == queue[j]; }
    }
  }

  lemma StepLayeredPop(queue: seq<Step>, level: int)
    requires StepLayered(queue, level) && |queue| > 0
    ensures StepLayered(queue[1..], level)
  {
    var q := queue[1..];
    forall i | 0 <= i < |q| ensures level <= q[i].depth <= level + 1 {
      assert q[i] == queue[i + 1];
    }
    forall i, j | 0 <= i < j < |q| ensures q[i].depth <= q[j].depth {
      assert q[i] == queue[i + 1] && q[j] == queue[j + 1];
    }
  }

  lemma StepLayeredNext(queue: seq<Step>, level: int)
    requires StepLayered(queue, level) && |queue| > 0 && queue[0].depth == level + 1
    ensures StepLayered(queue, level + 1)
  {
    forall i | 0 < i < |queue| ensures level + 1 <= queue[i].depth {
      assert queue[0].depth <= queue[i].depth;
    }
  }

  /** Some queued step is at table `t` with depth `d`. */
  ghost predicate Queued(queue: seq<Step>, t: string, d: int) {
    exists s :: s in queue && s.table == t && s.depth == d
  }

  lemma QueuedGrow(queue: seq<Step>, more: seq<Step>, t: string, d: int)
    requires Queued(queue, t, d) && forall s :: s in queue ==> s in more
    ensures Queued(more, t, d)
  {
    var s :| s in queue && s.table == t && s.depth == d;
    assert s in more;
  }

  /** `dist` keeps every depth `dist0` recorded. */
  ghost predicate Extends(dist0: map<string, nat>, dist: map<string, nat>) {
    forall t :: t in dist0 ==> t in dist && dist[t] == dist0[t]
  }

  /** Edge `e`, taken from a table at depth `d`, is done with: it reaches
      `end` and a path was found, or it leads to a table seen by depth
      `d + 1`. */
  ghost predicate EdgeDone(end: string, dist: map<string, nat>, found: bool, e: Edge, d: int) {
    (e.table == end ==> found) && (e.table != end ==> e.table in dist && dist[e.table] <= d + 1)
  }

  /** Every edge out of `u`, at depth `d`, is done with. */
  ghost predicate ClosedAt(g: Graph, end: string, dist: map<string, nat>, found: bool, u: string, d: int) {
    forall e :: e in Adjacent(g, u) ==> EdgeDone(end, dist, found, e, d)
  }

  lemma ClosedGrows(g: Graph, end: string, dist0: map<string, nat>, found0: bool,
                    dist: map<string, nat>, found: bool, u: string, d: int)
    requires ClosedAt(g, end, dist0, found0, u, d) && Extends(dist0, dist) && (found0 ==> found)
    ensures ClosedAt(g, end, dist, found, u, d)
  {
    forall e | e in Adjacent(g, u) ensures EdgeDone(end, dist, found, e, d) {
      assert EdgeDone(end, dist0, found0, e, d);
    }
  }

  /** Every table seen below `maxDepth` is expanded already, or waits in the
      queue at the depth it was first seen. */
  ghost predicate Frontier(g: Graph, end: string, maxDepth: int, dist: map<string, nat>, found: bool, queue: seq<Step>) {
    forall u :: u in dist && dist[u] < maxDepth ==> ClosedAt(g, end, dist, found, u, dist[u]) || Queued(queue, u, dist[u])
  }

  /** Dequeuing `queue0[0]` and expanding it, when it sits at the depth its
      table was first seen, keeps the frontier. */
  lemma FrontierStep(g: Graph, end: string, maxDepth: int, dist0: map<string, nat>, found0: bool, queue0: seq<Step>,
                     dist: map<string, nat>, found: bool, queue: seq<Step>)
    requires queue0 != [] && Frontier(g, end, maxDepth, dist0, found0, queue0)
    requires Extends(dist0, dist) && (found0 ==> found)
    requires forall s :: s in queue0[1..] ==> s in queue
    requires forall t :: t in dist && t !in dist0 ==> Queued(queue, t, dist[t])
    requires queue0[0].depth < maxDepth ==> ClosedAt(g, end, dist, found, queue0[0].table, queue0[0].depth)
    ensures Frontier(g, end, maxDepth, dist, found, queue)
  {
    forall u | u in dist && dist[u] < maxDepth
      ensures ClosedAt(g, end, dist, found, u, dist[u]) || Queued(queue, u, dist[u])
    {
      if u in dist0 {
        if ClosedAt(g, end, dist0, found0, u, dist0[u]) {
          ClosedGrows(g, end, dist0, found0, dist, found, u, dist0[u]);
        } else {
          var s :| s in queue0 && s.table == u && s.depth == dist0[u];
          if s != queue0[0] {
            var i :| 0 <= i < |queue0| && queue0[i] == s;
            assert queue0[1..][i - 1] == s;
            assert Queued(queue, u, dist[u]);
          }
        }
      }
    }
  }

  /** With the queue empty, the frontier closes every walk: each table a walk
      reaches before `end` was seen no deeper than its position. */
  lemma {:induction false} FrontierReach(g: Graph, start: string, end: string, maxDepth: int,
                                         dist: map<string, nat>, found: bool, p: Path, i: nat)
    requires Frontier(g, end, maxDepth, dist, found, []) && start in dist && dist[start] == 0
    requires IsWalk(g, start, p) && i < |p| <= maxDepth
    ensures found || (EndOf(start, p[..i]) in dist && dist[EndOf(start, p[..i])] <= i)
    decreases i
  {
    if i > 0 {
      FrontierReach(g, start, end, maxDepth, dist, found, p, i - 1);
      var u := EndOf(start, p[..i - 1]);
      if u in dist && dist[u] <= i - 1 {
        WalkAt(g, start, p, i - 1);
        assert ClosedAt(g, end, dist, found, u, dist[u]) || Queued([], u, dist[u]);
        assert EdgeDone(end, dist, found, p[i - 1], dist[u]);
        assert p[..i][..i - 1] == p[..i - 1];
      }
    }
  }

  /** A walk of 1 to `maxDepth` edges from `start` to `end`. */
  ghost predicate WalkTo(g: Graph, start: string, end: string, maxDepth: int, p: Path) {
    1 <= |p| <= maxDepth && IsWalk(g, start, p) && p[|p| - 1].table == end
  }

  /** With the queue empty, any walk to `end` within the bound means a path
      was found. */
  lemma FrontierFinds(g: Graph, start: string, end: string, maxDepth: int,
                      dist: map<string, nat>, found: bool, p: Path)
    requires Frontier(g, end, maxDepth, dist, found, []) && start in dist && dist[start] == 0
    requires WalkTo(g, start, end, maxDepth, p)
    ensures found
  {
    var i := |p| - 1;
    FrontierReach(g, start, end, maxDepth, dist, found, p, i);
    var u := EndOf(start, p[..i]);
    if u in dist && dist[u] <= i {
      WalkAt(g, start, p, i);
      assert ClosedAt(g, end, dist, found, u, dist[u]) || Queued([], u, dist[u]);
      assert EdgeDone(end, dist, found, p[i], dist[u]);
    }
  }

  /** Every edge of `es`, taken from a table at depth `d`, is done with. */
  ghost predicate AllDone(end: string, dist: map<string, nat>, found: bool, es: seq<Edge>, d: int) {
    forall e :: e in es ==> EdgeDone(end, dist, found, e, d)
  }

  lemma AllDoneGrows(end: string, dist0: map<string, nat>, found0: bool, dist: map<string, nat>, found: bool,
                     es: seq<Edge>, e: Edge, d: int)
    requires AllDone(end, dist0, found0, es, d) && Extends(dist0, dist) && (found0 ==> found)
    requires EdgeDone(end, dist, found, e, d)
    ensures AllDone(end, dist, found, es + [e], d)
  {
    forall x | x in es ensures EdgeDone(end, dist, found, x, d) {
      assert EdgeDone(end, dist0, found0, x, d);
    }
  }

  /** The depth bookkeeping while one step is expanded: `dist` extends the
      depths `dist0` had, holds exactly the visited tables and the start,
      and every table first seen now sits in the queue one level down. */
  ghost predicate Seen(dist0: map<string, nat>, dist: map<string, nat>, visited: set<string>, start: string,
                       queue: seq<Step>, level: int) {
    Extends(dist0, dist) && dist.Keys == visited + {start} &&
    (forall t :: t in dist && t !in dist0 ==> dist[t] == level + 1 && Queued(queue, t, dist[t])) &&
    (forall t :: t in dist ==> dist[t] <= level + 1)
  }

  /** `dist` with `t` first seen at depth `d`, unless it was seen before. */
  ghost function Mark(dist: map<string, nat>, t: string, d: nat): map<string, nat> {
    if t in dist then dist else dist[t := d]
  }

  lemma SeenVisit(dist0: map<string, nat>, dist: map<string, nat>, visited: set<string>, start: string,
                  queue: seq<Step>, level: nat, next: Step)
    requires Seen(dist0, dist, visited, start, queue, level) && next.depth == level + 1
    ensures Seen(dist0, Mark(dist, next.table, level + 1), visited + {next.table}, start, queue + [next], level)
    ensures Extends(dist, Mark(dist, next.table, level + 1))
  {
    var dist' := Mark(dist, next.table, level + 1);
    var queue' := queue + [next];
    assert next in queue';
    forall t | t in dist' && t !in dist0 ensures Queued(queue', t, dist'[t]) {
      if t in dist {
        QueuedGrow(queue, queue', t, dist[t]);
      }
    }
  }

  /** Visiting one more table of `universe`, other than `end`. */
  lemma VisitOne(visited0: set<string>, visited: set<string>, universe: set<string>, x: string, end: string)
    requires visited0 <= visited <= universe && x in universe && x !in visited && end !in visited && x != end
    ensures visited0 <= visited + {x} <= universe && end !in visited + {x} && visited + {x} != visited0
  {
    assert x in visited + {x};
  }

  /** `universe` holds every table some edge leads to. */
  ghost predicate Bounds(g: Graph, universe: set<string>) {
    forall t, e :: e in Adjacent(g, t) ==> e.table in universe
  }

  lemma TargetsBound(g: Graph)
    ensures Bounds(g, Targets(g))
  {
    forall t, e | e in Adjacent(g, t) ensures e.table in Targets(g) {
      InTargets(g, t, e);
    }
  }

  /** An edge of the step being expanded that leads to a table not yet
      visited and other than `end`: the table is marked and queued. */
  method BridgeVisit(g: Graph, ghost universe: set<string>, start: string, end: string, maxDepth: int, current: Step, e: Edge,
                     ghost done: seq<Edge>, ghost queue0: seq<Step>, ghost visited0: set<string>,
                     ghost dist0: map<string, nat>, ghost level: nat,
                     paths: seq<Path>, queueIn: seq<Step>, visitedIn: set<string>, ghost distIn: map<string, nat>)
    returns (queue: seq<Step>, visited: set<string>, ghost dist: map<string, nat>)
    requires Bounds(g, universe) && BridgeStep(g, start, end, current) && Inside(current.path, visited0) && current.depth < maxDepth
    requires current.depth == level && e in Adjacent(g, current.table) && e.table != end && e.table !in visitedIn
    requires visited0 <= visitedIn <= universe && end !in visitedIn
    requires BridgeQueue(g, start, end, visitedIn, queueIn)
    requires Seen(dist0, distIn, visitedIn, start, queueIn, level) && StepLayered(queueIn, level)
    requires forall s :: s in queue0 ==> s in queueIn
    requires AllDone(end, distIn, paths != [], done, current.depth)
    ensures visited0 <= visited <= universe && end !in visited && visited != visited0
    ensures BridgeQueue(g, start, end, visited, queue)
    ensures Seen(dist0, dist, visited, start, queue, level) && StepLayered(queue, level)
    ensures forall s :: s in queue0 ==> s in queue
    ensures AllDone(end, dist, paths != [], done + [e], current.depth)
  {
    assert e.table in universe;
    VisitOne(visited0, visitedIn, universe, e.table, end);
    BridgeNext(g, start, end, visited0, visitedIn, current, e);
    BridgeQueueGrow(g, start, end, visitedIn, queueIn, e.table);
    var next := Step(e.table, current.path + [e], current.depth + 1);
    BridgeQueuePush(g, start, end, visitedIn + {e.table}, queueIn, next);
    StepLayeredPush(queueIn, level, next);
    SeenVisit(dist0, distIn, visitedIn, start, queueIn, level, next);
    visited := visitedIn + {e.table};
    dist := Mark(distIn, e.table, level + 1);
    queue := queueIn + [next];
    AllDoneGrows(end, distIn, paths != [], dist, paths != [], done, e, current.depth);
  }

  /** One edge `e` of the step being expanded: an edge reaching `end` closes
      a path, an edge to a table not yet visited marks it and queues it one
      level down. The ghost `paths0` … `dist0` are the state before the step
      was expanded, and `done` the edges handled already. */
  method BridgeEdge(g: Graph, ghost universe: set<string>, start: string, end: string, maxDepth: int, current: Step, e: Edge,
                    ghost done: seq<Edge>, ghost paths0: seq<Path>, ghost queue0: seq<Step>, ghost visited0: set<string>,
                    ghost dist0: map<string, nat>, ghost level: nat,
                    pathsIn: seq<Path>, queueIn: seq<Step>, visitedIn: set<string>, ghost distIn: map<string, nat>)
    returns (paths: seq<Path>, queue: seq<Step>, visited: set<string>, ghost dist: map<string, nat>)
    requires Bounds(g, universe) && BridgeStep(g, start, end, current) && Inside(current.path, visited0) && current.depth < maxDepth
    requires current.depth == level && e in Adjacent(g, current.table)
    requires visited0 <= visitedIn <= universe && end !in visitedIn
    requires visitedIn == visited0 ==> |queueIn| == |queue0|
    requires BridgeQueue(g, start, end, visitedIn, queueIn) && AllBridge(g, start, end, maxDepth, pathsIn)
    requires Seen(dist0, distIn, visitedIn, start, queueIn, level) && StepLayered(queueIn, level)
    requires (paths0 != [] ==> pathsIn != []) && forall s :: s in queue0 ==> s in queueIn
    requires AllDone(end, distIn, pathsIn != [], done, current.depth)
    ensures visited0 <= visited <= universe && end !in visited
    ensures visited == visited0 ==> |queue| == |queue0|
    ensures BridgeQueue(g, start, end, visited, queue) && AllBridge(g, start, end, maxDepth, paths)
    ensures Seen(dist0, dist, visited, start, queue, level) && StepLayered(queue, level)
    ensures (paths0 != [] ==> paths != []) && forall s :: s in queue0 ==> s in queue
    ensures AllDone(end, dist, paths != [], done + [e], current.depth)
  {
    paths, queue, visited, dist := pathsIn, queueIn, visitedIn, distIn;
    if e.table == end {
      BridgeClose(g, start, end, maxDepth, current, e);
      paths := paths + [current.path + [e]];
      AllDoneGrows(end, distIn, pathsIn != [], dist, true, done, e, current.depth);
    } else if e.table !in visited {
      queue, visited, dist := BridgeVisit(g, universe, start, end, maxDepth, current, e, done, queue0, visited0, dist0, level,
        paths, queue, visited, dist);
    } else {
      AllDoneGrows(end, dist, paths != [], dist, paths != [], done, e, current.depth);
    }
  }

  /** The body of the BFS loop of `findPathThroughIntermediate` for one
      dequeued step below `maxDepth`. */
  method BridgeExpand(g: Graph, ghost universe: set<string>, start: string, end: string, maxDepth: int, current: Step,
                      paths0: seq<Path>, queue0: seq<Step>, visited0: set<string>,
                      ghost dist0: map<string, nat>, ghost level: nat)
    returns (paths: seq<Path>, queue: seq<Step>, visited: set<string>, ghost dist: map<string, nat>)
    requires Bounds(g, universe) && BridgeStep(g, start, end, current) && Inside(current.path, visited0) && current.depth < maxDepth
    requires visited0 <= universe && end !in visited0
    requires BridgeQueue(g, start, end, visited0, queue0) && AllBridge(g, start, end, maxDepth, paths0)
    requires Seen(dist0, dist0, visited0, start, queue0, level) && current.depth == level && StepLayered(queue0, level)
    ensures visited0 <= visited <= universe && end !in visited
    ensures visited == visited0 ==> |queue| == |queue0|
    ensures BridgeQueue(g, start, end, visited, queue) && AllBridge(g, start, end, maxDepth, paths)
    ensures Seen(dist0, dist, visited, start, queue, level) && StepLayered(queue, level)
    ensures (paths0 != [] ==> paths != []) && forall s :: s in queue0 ==> s in queue
    ensures ClosedAt(g, end, dist, paths != [], current.table, current.depth)
  {
    paths, queue, visited, dist := paths0, queue0, visited0, dist0;
    var relations := Adjacent(g, current.table);
    for k := 0 to |relations|
      invariant visited0 <= visited <= universe && end !in visited
      invariant visited == visited0 ==> |queue| == |queue0|
      invariant BridgeQueue(g, start, end, visited, queue) && AllBridge(g, start, end, maxDepth, paths)
      invariant Seen(dist0, dist, visited, start, queue, level) && StepLayered(queue, level)
      invariant (paths0 != [] ==> paths != []) && forall s :: s in queue0 ==> s in queue
      invariant AllDone(end, dist, paths != [], relations[..k], current.depth)
    {
      assert relations[..k + 1] == relations[..k] + [relations[k]];
      paths, queue, visited, dist := BridgeEdge(g, universe, start, end, maxDepth, current, relations[k], relations[..k],
        paths0, queue0, visited0, dist0, level, paths, queue, visited, dist);
    }
    assert relations[..|relations|] == relations;
  }

  /** The state of `findPathThroughIntermediate` between two dequeues:
      queued steps and found paths are sound, and the ghost depths `dist`
      keep the frontier. */
  ghost predicate BridgeState(g: Graph, universe: set<string>, start: string, end: string, maxDepth: int, paths: seq<Path>, queue: seq<Step>,
                              visited: set<string>, dist: map<string, nat>, level: nat) {
    visited <= universe && end !in visited &&
    BridgeQueue(g, start, end, visited, queue) && AllBridge(g, start, end, maxDepth, paths) &&
    dist.Keys == visited + {start} && dist[start] == 0 &&
    StepLayered(queue, level) && (|queue| > 0 ==> queue[0].depth == level) &&
    (forall t :: t in dist ==> dist[t] <= level + 1) &&
    Frontier(g, end, maxDepth, dist, paths != [], queue)
  }

  /** The state before the first dequeue: only the start step, at depth 0. */
  lemma BridgeStart(g: Graph, universe: set<string>, start: string, end: string, maxDepth: int)
    ensures BridgeState(g, universe, start, end, maxDepth, [], [Step(start, [], 0)], {}, map[start := 0], 0)
  {
    var queue := [Step(start, [], 0)];
    assert queue[0] in queue;
    assert Queued(queue, start, 0);
  }

  /** Once the queue is empty, every walk to `end` within the bound means a
      path was found. */
  lemma BridgeDone(g: Graph, universe: set<string>, start: string, end: string, maxDepth: int,
                   paths: seq<Path>, visited: set<string>, dist: map<string, nat>, level: nat)
    requires BridgeState(g, universe, start, end, maxDepth, paths, [], visited, dist, level)
    ensures forall p :: WalkTo(g, start, end, maxDepth, p) ==> paths != []
  {
    forall p | WalkTo(g, start, end, maxDepth, p) ensures paths != [] {
      FrontierFinds(g, start, end, maxDepth, dist, paths != [], p);
    }
  }

  /** One turn of the BFS loop of `findPathThroughIntermediate`: dequeue a
      step and, below `maxDepth`, expand it. */
  method BridgeRound(g: Graph, ghost universe: set<string>, start: string, end: string, maxDepth: int,
                     paths0: seq<Path>, queue0: seq<Step>, visited0: set<string>,
                     ghost dist0: map<string, nat>, ghost level0: nat)
    returns (paths: seq<Path>, queue: seq<Step>, visited: set<string>, ghost dist: map<string, nat>, ghost level: nat)
    requires Bounds(g, universe) && |queue0| > 0 && BridgeState(g, universe, start, end, maxDepth, paths0, queue0, visited0, dist0, level0)
    ensures BridgeState(g, universe, start, end, maxDepth, paths, queue, visited, dist, level)
    ensures visited0 <= visited && (visited == visited0 ==> |queue| < |queue0|)
  {
    var current := queue0[0];
    assert current in queue0;
    StepLayeredPop(queue0, level0);
    paths, queue, visited, dist, level := paths0, queue0[1..], visited0, dist0, level0;
    if current.depth < maxDepth {
      paths, queue, visited, dist := BridgeExpand(g, universe, start, end, maxDepth, current, paths, queue, visited, dist, level);
    }
    FrontierStep(g, end, maxDepth, dist0, paths0 != [], queue0, dist, paths != [], queue);
    if |queue| > 0 && queue[0].depth != level {
      StepLayeredNext(queue, level);
      level := level + 1;
    }
  }

  /** `findPathThroughIntermediate(startTable, endTable, maxDepth)`: one BFS
      whose `visited` set is shared by all paths and may pass through any
      table; every edge reaching `endTable` closes a path. */
  method FindPathThroughIntermediate(g: Graph, start: string, end: string, maxDepth: int) returns (paths: seq<Path>)
    ensures forall p :: p in paths ==> BridgePath(g, start, end, maxDepth, p)
    ensures forall p :: WalkTo(g, start, end, maxDepth, p) ==> paths != []
  {
    paths := [];
    var queue := [Step(start, [], 0)];
    var visited: set<string> := {};
    ghost var universe := Targets(g);
    TargetsBound(g);
    ghost var dist: map<string, nat> := map[start := 0];
    ghost var level: nat := 0;
    BridgeStart(g, universe, start, end, maxDepth);
    while |queue| > 0
      invariant BridgeState(g, universe, start, end, maxDepth, paths, queue, visited, dist, level)
      decreases |universe - visited|, |queue|
    {
      ghost var before := visited;
      paths, queue, visited, dist, level := BridgeRound(g, universe, start, end, maxDepth, paths, queue, visited, dist, level);
      if visited != before {
        VisitShrinks(universe, before, visited);
      }
    }
    BridgeDone(g, universe, start, end, maxDepth, paths, visited, dist, level);
  }

  // ---------------------------------------------------------------------------
  // findOptimalJoinPaths

  /** The tables a set of paths makes reachable from `start`: `start` and
      every table some edge of them leads to. */
  function Reached(start: string, paths: seq<Path>): set<string> {
    {start} + set p, e | p in paths && e in p :: e.table
  }

  /** The last tables of the recorded paths. */
  ghost function LastTables(paths: seq<Path>): set<string> {
    set p: Path | p in paths && p != [] :: p[|p| - 1].table
  }

  /** A path the shared BFS of `findOptimalJoinPaths` records: one to three
      edges walked from the first selected table through selected tables
      only, ending somewhere other than the first. */
  ghost predicate SharedPath(g: Graph, tables: seq<string>, p: Path)
    requires |tables| >= 1
  {
    1 <= |p| <= 3 && IsWalk(g, tables[0], p) && (forall e :: e in p ==> e.table in tables) &&
    p[|p| - 1].table != tables[0]
  }

  /** No two non-empty paths end at the same table. */
  ghost predicate DistinctLasts(paths: seq<Path>) {
    forall i, j :: 0 <= i < j < |paths| && paths[i] != [] && paths[j] != [] ==>
      paths[i][|paths[i]| - 1].table != paths[j][|paths[j]| - 1].table
  }

  /** What the shared BFS records: its paths, each ending at a different
      selected table. */
  ghost predicate SharedBfsPaths(g: Graph, tables: seq<string>, paths: seq<Path>)
    requires |tables| >= 1
  {
    (forall p :: p in paths ==> SharedPath(g, tables, p)) && DistinctLasts(paths)
  }

  /** What the fallback adds for a selected table the BFS did not reach: a path
      of one or two edges from the first selected table ending at it. */
  ghost predicate FallbackPath(g: Graph, tables: seq<string>, shared: seq<Path>, p: Path)
    requires |tables| >= 1
  {
    1 <= |p| <= 2 && IsWalk(g, tables[0], p) &&
    p[|p| - 1].table in tables && p[|p| - 1].table !in Reached(tables[0], shared)
  }

  ghost predicate OptimalStep(g: Graph, tables: seq<string>, s: Step) {
    |tables| >= 1 && s.depth == |s.path| && s.depth <= 3 && s.table == EndOf(tables[0], s.path) &&
    IsWalk(g, tables[0], s.path) && forall e :: e in s.path ==> e.table in tables
  }

  ghost predicate OptimalQueue(g: Graph, tables: seq<string>, queue: seq<Step>) {
    forall s :: s in queue ==> OptimalStep(g, tables, s)
  }

  lemma LastTablesSnoc(paths: seq<Path>, p: Path)
    requires p != []
    ensures LastTables(paths + [p]) == LastTables(paths) + {p[|p| - 1].table}
  {
    var ps: seq<Path> := paths + [p];
    forall q: Path | q in ps ensures q in paths || q == p { }
    assert p in ps;
  }

  lemma DistinctLastsSnoc(paths: seq<Path>, p: Path)
    requires DistinctLasts(paths) && p != [] && p[|p| - 1].table !in LastTables(paths)
    ensures DistinctLasts(paths + [p])
  {
    var ps: seq<Path> := paths + [p];
    forall i, j | 0 <= i < j < |ps| && ps[i] != [] && ps[j] != []
      ensures ps[i][|ps[i]| - 1].table != ps[j][|ps[j]| - 1].table
    {
      assert ps[i] == paths[i];
      if j == |paths| {
        assert paths[i] in paths;
      } else {
        assert ps[j] == paths[j];
      }
    }
  }

  lemma SharedSnoc(g: Graph, tables: seq<string>, paths: seq<Path>, p: Path)
    requires |tables| >= 1 && SharedBfsPaths(g, tables, paths) && SharedPath(g, tables, p)
    requires p[|p| - 1].table !in LastTables(paths)
    ensures SharedBfsPaths(g, tables, paths + [p])
  {
    DistinctLastsSnoc(paths, p);
    assert forall q :: q in paths + [p] ==> q in paths || q == p;
  }

  lemma SharedPush(g: Graph, tables: seq<string>, paths: seq<Path>, visited: set<string>, current: Step, e: Edge)
    requires |tables| >= 1 && SharedBfsPaths(g, tables, paths) && visited == {tables[0]} + LastTables(paths)
    requires OptimalStep(g, tables, current) && current.depth <= 2
    requires e in Adjacent(g, current.table) && e.table in tables && e.table !in visited
    ensures SharedBfsPaths(g, tables, paths + [current.path + [e]])
    ensures visited + {e.table} == {tables[0]} + LastTables(paths + [current.path + [e]])
    ensures OptimalStep(g, tables, Step(e.table, current.path + [e], current.depth + 1))
  {
    var p: Path := current.path + [e];
    OptimalExtend(g, tables, current, e);
    SharedSnoc(g, tables, paths, p);
    LastTablesSnoc(paths, p);
  }

  /** A queued step extended by one edge to a selected table is a step too. */
  lemma OptimalExtend(g: Graph, tables: seq<string>, current: Step, e: Edge)
    requires OptimalStep(g, tables, current) && current.depth <= 2
    requires e in Adjacent(g, current.table) && e.table in tables
    ensures OptimalStep(g, tables, Step(e.table, current.path + [e], current.depth + 1))
  {
    var p: Path := current.path + [e];
    WalkExtend(g, tables[0], current.path, e);
    assert forall x :: x in p ==> x in current.path || x == e;
    assert |p| == current.depth + 1;
    assert EndOf(tables[0], p) == e.table;
  }

  lemma OptimalQueuePush(g: Graph, tables: seq<string>, queue: seq<Step>, x: Step)
    requires OptimalQueue(g, tables, queue) && OptimalStep(g, tables, x)
    ensures OptimalQueue(g, tables, queue + [x])
  {
    forall s | s in queue + [x] ensures OptimalStep(g, tables, s) {
      if s != x {
        assert s in queue;
      }
    }
  }

  /** Visiting one more table of `universe`. */
  lemma AddOne(visited0: set<string>, visited: set<string>, universe: set<string>, x: string)
    requires visited0 <= visited <= universe && x in universe && x !in visited
    ensures visited0 <= visited + {x} <= universe && visited + {x} != visited0
  {
    assert x in visited + {x};
  }

  /** `universe` holds every selected table. */
  ghost predicate Covers(universe: set<string>, tables: seq<string>) {
    forall t :: t in tables ==> t in universe
  }

  // The reach argument of the shared BFS, as for `findPathThroughIntermediate`
  // but over selected tables only and with no end table.

  /** Edge `e`, taken from a table at depth `d`, is done with: a selected
      table it leads to was seen by depth `d + 1`. */
  ghost predicate SharedDone(tables: seq<string>, dist: map<string, nat>, e: Edge, d: int) {
    e.table in tables ==> e.table in dist && dist[e.table] <= d + 1
  }

  /** The first `n` edges of `es` are done with. */
  ghost predicate SharedAllDone(tables: seq<string>, dist: map<string, nat>, es: seq<Edge>, n: int, d: int) {
    forall i :: 0 <= i < n && i < |es| ==> SharedDone(tables, dist, es[i], d)
  }

  lemma SharedAllDoneGrows(tables: seq<string>, dist0: map<string, nat>, dist: map<string, nat>, es: seq<Edge>, n: nat, d: int)
    requires n < |es| && SharedAllDone(tables, dist0, es, n, d) && Extends(dist0, dist) && SharedDone(tables, dist, es[n], d)
    ensures SharedAllDone(tables, dist, es, n + 1, d)
  {
    forall i | 0 <= i < n ensures SharedDone(tables, dist, es[i], d) {
      assert SharedDone(tables, dist0, es[i], d);
    }
  }

  /** Every edge out of `u`, at depth `d`, is done with. */
  ghost predicate SharedClosedAt(g: Graph, tables: seq<string>, dist: map<string, nat>, u: string, d: int) {
    forall e :: e in Adjacent(g, u) ==> SharedDone(tables, dist, e, d)
  }

  lemma SharedClosedGrows(g: Graph, tables: seq<string>, dist0: map<string, nat>, dist: map<string, nat>, u: string, d: int)
    requires SharedClosedAt(g, tables, dist0, u, d) && Extends(dist0, dist)
    ensures SharedClosedAt(g, tables, dist, u, d)
  {
    forall e | e in Adjacent(g, u) ensures SharedDone(tables, dist, e, d) {
      assert SharedDone(tables, dist0, e, d);
    }
  }

  /** Every table seen at depth 2 or less is expanded already, or waits in
      the queue at the depth it was first seen. */
  ghost predicate SharedFrontier(g: Graph, tables: seq<string>, dist: map<string, nat>, queue: seq<Step>) {
    forall u :: u in dist && dist[u] <= 2 ==> SharedClosedAt(g, tables, dist, u, dist[u]) || Queued(queue, u, dist[u])
  }

  lemma SharedFrontierStep(g: Graph, tables: seq<string>, dist0: map<string, nat>, queue0: seq<Step>,
                           dist: map<string, nat>, queue: seq<Step>)
    requires queue0 != [] && SharedFrontier(g, tables, dist0, queue0) && Extends(dist0, dist)
    requires forall s :: s in queue0[1..] ==> s in queue
    requires forall t :: t in dist && t !in dist0 ==> Queued(queue, t, dist[t])
    requires queue0[0].depth <= 2 ==> SharedClosedAt(g, tables, dist, queue0[0].table, queue0[0].depth)
    ensures SharedFrontier(g, tables, dist, queue)
  {
    forall u | u in dist && dist[u] <= 2
      ensures SharedClosedAt(g, tables, dist, u, dist[u]) || Queued(queue, u, dist[u])
    {
      if u in dist0 {
        if SharedClosedAt(g, tables, dist0, u, dist0[u]) {
          SharedClosedGrows(g, tables, dist0, dist, u, dist0[u]);
        } else {
          var s :| s in queue0 && s.table == u && s.depth == dist0[u];
          if s != queue0[0] {
            var i :| 0 <= i < |queue0| && queue0[i] == s;
            assert queue0[1..][i - 1] == s;
            assert Queued(queue, u, dist[u]);
          }
        }
      }
    }
  }

  /** With the queue empty, each table a walk of at most three edges through
      selected tables reaches was seen no deeper than its position. */
  lemma {:induction false} SharedReach(g: Graph, tables: seq<string>, dist: map<string, nat>, p: Path, i: nat)
    requires |tables| >= 1 && SharedFrontier(g, tables, dist, []) && tables[0] in dist && dist[tables[0]] == 0
    requires IsWalk(g, tables[0], p) && |p| <= 3 && (forall e :: e in p ==> e.table in tables) && i <= |p|
    ensures EndOf(tables[0], p[..i]) in dist && dist[EndOf(tables[0], p[..i])] <= i
    decreases i
  {
    if i > 0 {
      SharedReach(g, tables, dist, p, i - 1);
      var u := EndOf(tables[0], p[..i - 1]);
      WalkAt(g, tables[0], p, i - 1);
      assert SharedClosedAt(g, tables, dist, u, dist[u]) || Queued([], u, dist[u]);
      assert p[i - 1] in p;
      assert SharedDone(tables, dist, p[i - 1], dist[u]);
    }
  }

  /** Every selected table that a walk of one to three edges through selected
      tables leads to from the first one is the end of a shared path. */
  ghost predicate BfsComplete(g: Graph, tables: seq<string>, shared: seq<Path>)
    requires |tables| >= 1
  {
    forall p: Path :: SharedPath(g, tables, p) ==> p[|p| - 1].table in LastTables(shared)
  }

  /** The state of the shared BFS between two dequeues. */
  ghost predicate SharedState(g: Graph, tables: seq<string>, universe: set<string>, paths: seq<Path>, queue: seq<Step>,
                              visited: set<string>, dist: map<string, nat>, level: nat)
    requires |tables| >= 1
  {
    visited <= universe && visited == {tables[0]} + LastTables(paths) &&
    SharedBfsPaths(g, tables, paths) && OptimalQueue(g, tables, queue) &&
    dist.Keys == visited + {tables[0]} && dist[tables[0]] == 0 &&
    StepLayered(queue, level) && (|queue| > 0 ==> queue[0].depth == level) &&
    (forall t :: t in dist ==> dist[t] <= level + 1) &&
    SharedFrontier(g, tables, dist, queue)
  }

  /** An edge of the step being expanded that leads to a selected table not
      yet visited: the path to it is recorded and the table queued. */
  method SharedVisit(g: Graph, tables: seq<string>, ghost universe: set<string>, current: Step,
                     relations: seq<Edge>, k: nat, ghost queue0: seq<Step>, ghost visited0: set<string>,
                     ghost dist0: map<string, nat>, ghost level: nat,
                     pathsIn: seq<Path>, queueIn: seq<Step>, visitedIn: set<string>, ghost distIn: map<string, nat>)
    returns (paths: seq<Path>, queue: seq<Step>, visited: set<string>, ghost dist: map<string, nat>)
    requires |tables| >= 1 && Covers(universe, tables) && OptimalStep(g, tables, current)
    requires current.depth <= 2 && current.depth == level
    requires relations == Adjacent(g, current.table) && k < |relations|
    requires relations[k].table in tables && relations[k].table !in visitedIn
    requires visited0 <= visitedIn <= universe && visitedIn == {tables[0]} + LastTables(pathsIn)
    requires SharedBfsPaths(g, tables, pathsIn) && OptimalQueue(g, tables, queueIn)
    requires Seen(dist0, distIn, visitedIn, tables[0], queueIn, level) && StepLayered(queueIn, level)
    requires forall s :: s in queue0 ==> s in queueIn
    requires SharedAllDone(tables, distIn, relations, k, current.depth)
    ensures visited0 <= visited <= universe && visited == {tables[0]} + LastTables(paths) && visited != visited0
    ensures SharedBfsPaths(g, tables, paths) && OptimalQueue(g, tables, queue)
    ensures Seen(dist0, dist, visited, tables[0], queue, level) && StepLayered(queue, level)
    ensures forall s :: s in queue0 ==> s in queue
    ensures SharedAllDone(tables, dist, relations, k + 1, current.depth)
  {
    var e := relations[k];
    var newPath := current.path + [e];
    SharedPush(g, tables, pathsIn, visitedIn, current, e);
    AddOne(visited0, visitedIn, universe, e.table);
    var next := Step(e.table, newPath, current.depth + 1);
    OptimalQueuePush(g, tables, queueIn, next);
    StepLayeredPush(queueIn, level, next);
    SeenVisit(dist0, distIn, visitedIn, tables[0], queueIn, level, next);
    paths := pathsIn + [newPath];
    visited := visitedIn + {e.table};
    dist := Mark(distIn, e.table, level + 1);
    queue := queueIn + [next];
    SharedAllDoneGrows(tables, distIn, dist, relations, k, current.depth);
  }

  /** One edge of the step being expanded: recorded and queued when it leads
      to a selected table not yet visited, skipped otherwise. */
  method SharedEdge(g: Graph, tables: seq<string>, ghost universe: set<string>, current: Step,
                    relations: seq<Edge>, k: nat, ghost queue0: seq<Step>, ghost visited0: set<string>,
                    ghost dist0: map<string, nat>, ghost level: nat,
                    pathsIn: seq<Path>, queueIn: seq<Step>, visitedIn: set<string>, ghost distIn: map<string, nat>)
    returns (paths: seq<Path>, queue: seq<Step>, visited: set<string>, ghost dist: map<string, nat>)
    requires |tables| >= 1 && Covers(universe, tables) && OptimalStep(g, tables, current)
    requires current.depth <= 2 && current.depth == level
    requires relations == Adjacent(g, current.table) && k < |relations|
    requires visited0 <= visitedIn <= universe && visitedIn == {tables[0]} + LastTables(pathsIn)
    requires visitedIn == visited0 ==> |queueIn| == |queue0|
    requires SharedBfsPaths(g, tables, pathsIn) && OptimalQueue(g, tables, queueIn)
    requires Seen(dist0, distIn, visitedIn, tables[0], queueIn, level) && StepLayered(queueIn, level)
    requires forall s :: s in queue0 ==> s in queueIn
    requires SharedAllDone(tables, distIn, relations, k, current.depth)
    ensures visited0 <= visited <= universe && visited == {tables[0]} + LastTables(paths)
    ensures visited == visited0 ==> |queue| == |queue0|
    ensures SharedBfsPaths(g, tables, paths) && OptimalQueue(g, tables, queue)
    ensures Seen(dist0, dist, visited, tables[0], queue, level) && StepLayered(queue, level)
    ensures forall s :: s in queue0 ==> s in queue
    ensures SharedAllDone(tables, dist, relations, k + 1, current.depth)
  {
    paths, queue, visited, dist := pathsIn, queueIn, visitedIn, distIn;
    if relations[k].table in tables && relations[k].table !in visited {
      paths, queue, visited, dist := SharedVisit(g, tables, universe, current, relations, k, queue0, visited0, dist0, level,
        paths, queue, visited, dist);
    } else {
      SharedAllDoneGrows(tables, dist, dist, relations, k, current.depth);
    }
  }

  /** The body of the BFS loop of `findOptimalJoinPaths` for one dequeued
      step at depth 2 or less: every edge to a selected table not yet visited
      is recorded as a path and queued. */
  method SharedExpand(g: Graph, tables: seq<string>, ghost universe: set<string>, current: Step,
                      paths0: seq<Path>, queue0: seq<Step>, visited0: set<string>,
                      ghost dist0: map<string, nat>, ghost level: nat)
    returns (paths: seq<Path>, queue: seq<Step>, visited: set<string>, ghost dist: map<string, nat>)
    requires |tables| >= 1 && Covers(universe, tables) && OptimalStep(g, tables, current)
    requires current.depth <= 2 && current.depth == level
    requires visited0 <= universe && visited0 == {tables[0]} + LastTables(paths0)
    requires SharedBfsPaths(g, tables, paths0) && OptimalQueue(g, tables, queue0)
    requires Seen(dist0, dist0, visited0, tables[0], queue0, level) && StepLayered(queue0, level)
    ensures visited0 <= visited <= universe && visited == {tables[0]} + LastTables(paths)
    ensures visited == visited0 ==> |queue| == |queue0|
    ensures SharedBfsPaths(g, tables, paths) && OptimalQueue(g, tables, queue)
    ensures Seen(dist0, dist, visited, tables[0], queue, level) && StepLayered(queue, level)
    ensures forall s :: s in queue0 ==> s in queue
    ensures SharedClosedAt(g, tables, dist, current.table, current.depth)
  {
    paths, queue, visited, dist := paths0, queue0, visited0, dist0;
    var relations := Adjacent(g, current.table);
    for k := 0 to |relations|
      invariant visited0 <= visited <= universe && visited == {tables[0]} + LastTables(paths)
      invariant visited == visited0 ==> |queue| == |queue0|
      invariant SharedBfsPaths(g, tables, paths) && OptimalQueue(g, tables, queue)
      invariant Seen(dist0, dist, visited, tables[0], queue, level) && StepLayered(queue, level)
      invariant forall s :: s in queue0 ==> s in queue
      invariant SharedAllDone(tables, dist, relations, k, current.depth)
    {
      paths, queue, visited, dist := SharedEdge(g, tables, universe, current, relations, k,
        queue0, visited0, dist0, level, paths, queue, visited, dist);
    }
  }

  /** The state before the first dequeue: the first selected table alone,
      visited, at depth 0. */
  lemma SharedStart(g: Graph, tables: seq<string>, universe: set<string>)
    requires |tables| >= 1 && Covers(universe, tables)
    ensures SharedState(g, tables, universe, [], [Step(tables[0], [], 0)], {tables[0]}, map[tables[0] := 0], 0)
  {
    var queue := [Step(tables[0], [], 0)];
    assert queue[0] in queue;
    assert Queued(queue, tables[0], 0);
    assert LastTables([]) == {};
  }

  /** Once the queue is empty, a table a shared path leads to was visited. */
  lemma SharedFinishOne(g: Graph, tables: seq<string>, paths: seq<Path>, dist: map<string, nat>, p: Path)
    requires |tables| >= 1 && SharedFrontier(g, tables, dist, []) && tables[0] in dist && dist[tables[0]] == 0
    requires dist.Keys == {tables[0]} + LastTables(paths) + {tables[0]}
    requires SharedPath(g, tables, p)
    ensures p[|p| - 1].table in LastTables(paths)
  {
    SharedReach(g, tables, dist, p, |p|);
    assert p[..|p|] == p;
  }

  /** Once the queue is empty, the shared BFS is complete. */
  lemma SharedFinish(g: Graph, tables: seq<string>, universe: set<string>, paths: seq<Path>,
                     visited: set<string>, dist: map<string, nat>, level: nat)
    requires |tables| >= 1 && SharedState(g, tables, universe, paths, [], visited, dist, level)
    ensures BfsComplete(g, tables, paths)
  {
    assert SharedFrontier(g, tables, dist, []);
    assert dist.Keys == {tables[0]} + LastTables(paths) + {tables[0]};
    forall p: Path | SharedPath(g, tables, p) ensures p[|p| - 1].table in LastTables(paths) {
      SharedFinishOne(g, tables, paths, dist, p);
    }
  }

  /** One turn of the shared BFS loop: dequeue a step and, at depth 2 or
      less, expand it. */
  method SharedRound(g: Graph, tables: seq<string>, ghost universe: set<string>,
                     paths0: seq<Path>, queue0: seq<Step>, visited0: set<string>,
                     ghost dist0: map<string, nat>, ghost level0: nat)
    returns (paths: seq<Path>, queue: seq<Step>, visited: set<string>, ghost dist: map<string, nat>, ghost level: nat)
    requires |tables| >= 1 && Covers(universe, tables) && |queue0| > 0
    requires SharedState(g, tables, universe, paths0, queue0, visited0, dist0, level0)
    ensures SharedState(g, tables, universe, paths, queue, visited, dist, level)
    ensures visited0 <= visited && (visited == visited0 ==> |queue| < |queue0|)
  {
    var current := queue0[0];
    assert current in queue0;
    StepLayeredPop(queue0, level0);
    paths, queue, visited, dist, level := paths0, queue0[1..], visited0, dist0, level0;
    if current.depth <= 2 {
      paths, queue, visited, dist := SharedExpand(g, tables, universe, current, paths, queue, visited, dist, level);
    }
    SharedFrontierStep(g, tables, dist0, queue0, dist, queue);
    if |queue| > 0 && queue[0].depth != level {
      StepLayeredNext(queue, level);
      level := level + 1;
    }
  }

  /** The shared BFS of `findOptimalJoinPaths` (lines 535-564): from the
      first selected table, through selected tables only, every table reached
      for the first time at depth 3 or less closes a path. */
  method SharedBfs(g: Graph, tables: seq<string>) returns (paths: seq<Path>)
    requires |tables| >= 1
    ensures SharedBfsPaths(g, tables, paths) && BfsComplete(g, tables, paths)
  {
    paths := [];
    var startTable := tables[0];
    var queue := [Step(startTable, [], 0)];
    var visited: set<string> := {startTable};
    ghost var universe := set t | t in tables;
    ghost var dist: map<string, nat> := map[startTable := 0];
    ghost var level: nat := 0;
    SharedStart(g, tables, universe);
    while |queue| > 0
      invariant SharedState(g, tables, universe, paths, queue, visited, dist, level)
      decreases |universe - visited|, |queue|
    {
      ghost var before := visited;
      paths, queue, visited, dist, level := SharedRound(g, tables, universe, paths, queue, visited, dist, level);
      if visited != before {
        VisitShrinks(universe, before, visited);
      }
    }
    SharedFinish(g, tables, universe, paths, visited, dist, level);
  }

  lemma FallbackAppend(g: Graph, tables: seq<string>, shared: seq<Path>, paths: seq<Path>, more: seq<Path>, table: string)
    requires |tables| >= 1 && |shared| <= |paths| && paths[..|shared|] == shared
    requires forall i :: |shared| <= i < |paths| ==> FallbackPath(g, tables, shared, paths[i])
    requires table in tables && table !in Reached(tables[0], shared)
    requires AllBridge(g, tables[0], table, 2, more)
    ensures (paths + more)[..|shared|] == shared
    ensures forall i :: |shared| <= i < |paths + more| ==> FallbackPath(g, tables, shared, (paths + more)[i])
  {
    var all := paths + more;
    assert all[..|shared|] == paths[..|shared|];
    forall i | |shared| <= i < |all| ensures FallbackPath(g, tables, shared, all[i]) {
      if i < |paths| {
        assert all[i] == paths[i];
      } else {
        assert all[i] == more[i - |paths|];
        assert more[i - |paths|] in more;
      }
    }
  }

  /** Some path of `paths` ends at `t`. */
  ghost predicate EndsAt(paths: seq<Path>, t: string) {
    exists p: Path :: p in paths && p != [] && p[|p| - 1].table == t
  }

  /** Some walk of one to `maxDepth` edges leads from `from` to `to`. */
  ghost predicate Walkable(g: Graph, from: string, to: string, maxDepth: int) {
    exists p :: WalkTo(g, from, to, maxDepth, p)
  }

  /** Every selected table the shared BFS left unreached that a walk of one
      or two edges leads to from the first selected table ends a fallback
      path. */
  ghost predicate FallbackComplete(g: Graph, tables: seq<string>, shared: seq<Path>, more: seq<Path>, upTo: int)
    requires |tables| >= 1
  {
    forall j :: 0 <= j < upTo && j < |tables| && tables[j] !in Reached(tables[0], shared) && Walkable(g, tables[0], tables[j], 2) ==>
      EndsAt(more, tables[j])
  }

  lemma FallbackCompleteStep(g: Graph, tables: seq<string>, shared: seq<Path>, more: seq<Path>, extra: seq<Path>, u: int)
    requires |tables| >= 1 && 0 <= u < |tables| && FallbackComplete(g, tables, shared, more, u)
    requires tables[u] !in Reached(tables[0], shared) && Walkable(g, tables[0], tables[u], 2) ==> EndsAt(extra, tables[u])
    ensures FallbackComplete(g, tables, shared, more + extra, u + 1)
  {
    forall j | 0 <= j < u + 1 && j < |tables| && tables[j] !in Reached(tables[0], shared) && Walkable(g, tables[0], tables[j], 2)
      ensures EndsAt(more + extra, tables[j])
    {
      if j < u {
        var p: Path :| p in more && p != [] && p[|p| - 1].table == tables[j];
        assert p in more + extra;
      } else {
        var p: Path :| p in extra && p != [] && p[|p| - 1].table == tables[j];
        assert p in more + extra;
      }
    }
  }

  /** What `findOptimalJoinPaths` returns, split after its first `n` paths:
      the shared BFS part, sound and complete for selected tables within
      three edges through selected tables, then the fallback paths, which
      reach every other selected table a walk of one or two edges leads to. */
  ghost predicate JoinPlanPaths(g: Graph, tables: seq<string>, paths: seq<Path>, n: int)
    requires |tables| >= 1
  {
    0 <= n <= |paths| &&
    SharedBfsPaths(g, tables, paths[..n]) && BfsComplete(g, tables, paths[..n]) &&
    (forall i :: n <= i < |paths| ==> FallbackPath(g, tables, paths[..n], paths[i])) &&
    FallbackComplete(g, tables, paths[..n], paths[n..], |tables|)
  }

  /** One turn of the fallback loop of `findOptimalJoinPaths` (lines
      567-591): a selected table the shared BFS did not reach gets the paths
      `findPathThroughIntermediate(tables[0], table, 2)` returns. */
  method FallbackStep(g: Graph, tables: seq<string>, ghost shared: seq<Path>, connectedTables: set<string>,
                      pathsIn: seq<Path>, u: int)
    returns (paths: seq<Path>)
    requires |tables| >= 1 && 0 <= u < |tables| && connectedTables == Reached(tables[0], shared)
    requires |shared| <= |pathsIn| && pathsIn[..|shared|] == shared
    requires forall i :: |shared| <= i < |pathsIn| ==> FallbackPath(g, tables, shared, pathsIn[i])
    requires FallbackComplete(g, tables, shared, pathsIn[|shared|..], u)
    ensures |shared| <= |paths| && paths[..|shared|] == shared
    ensures forall i :: |shared| <= i < |paths| ==> FallbackPath(g, tables, shared, paths[i])
    ensures FallbackComplete(g, tables, shared, paths[|shared|..], u + 1)
  {
    paths := pathsIn;
    var table := tables[u];
    if table !in connectedTables {
      // `Array.from(connectedTables)[0]` is the start table, inserted first.
      var intermediatePaths := FindPathThroughIntermediate(g, tables[0], table, 2);
      if |intermediatePaths| > 0 {
        assert intermediatePaths[0] in intermediatePaths;
        FallbackCompleteStep(g, tables, shared, paths[|shared|..], intermediatePaths, u);
        FallbackAppend(g, tables, shared, paths, intermediatePaths, table);
        assert (paths + intermediatePaths)[|shared|..] == paths[|shared|..] + intermediatePaths;
        paths := paths + intermediatePaths;
        return;
      }
      assert !Walkable(g, tables[0], table, 2);
    }
    FallbackCompleteStep(g, tables, shared, paths[|shared|..], [], u);
    assert paths[|shared|..] + [] == paths[|shared|..];
  }

  /** `findOptimalJoinPaths(tables)`: the shared BFS from `tables[0]`, then
      one `findPathThroughIntermediate(tables[0], t, 2)` per selected table
      it left unreached, appended in selection order. */
  method FindOptimalJoinPaths(g: Graph, tables: seq<string>) returns (paths: seq<Path>)
    ensures |tables| < 2 ==> paths == []
    ensures |tables| >= 2 ==> exists n :: JoinPlanPaths(g, tables, paths, n)
  {
    if |tables| < 2 {
      return [];
    }
    paths := SharedBfs(g, tables);
    ghost var shared := paths;
    var connectedTables := Reached(tables[0], paths);
    for u := 0 to |tables|
      invariant |shared| <= |paths| && paths[..|shared|] == shared
      invariant forall i :: |shared| <= i < |paths| ==> FallbackPath(g, tables, shared, paths[i])
      invariant FallbackComplete(g, tables, shared, paths[|shared|..], u)
    {
      paths := FallbackStep(g, tables, shared, connectedTables, paths, u);
    }
    assert JoinPlanPaths(g, tables, paths, |shared|);
  }
}
