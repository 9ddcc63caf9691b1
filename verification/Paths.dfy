/**
 Breadth-first search over a transition graph (internal/graph/graph.go,
 ShortestPath and reconstructPath), proved on any finite graph.
 */
module Paths {
  import opened Wrappers
  import opened Rollout
  import opened Graphs

  /** What the search relies on: rows within the graph, edges filed under their source. */
  ghost predicate Searchable(g: Graph) {
    && g.start < |g.nodes|
    && |g.adjacency| == |g.nodes|
    && forall i, e :: 0 <= i < |g.adjacency| && e in g.adjacency[i] ==> e.src == i && e.dst < |g.nodes|
  }

  ghost predicate IsEdge(g: Graph, e: Edge) {
    e.src < |g.adjacency| && e in g.adjacency[e.src]
  }

  /** A run of the graph from its start to node v. */
  ghost predicate IsPath(g: Graph, path: seq<Edge>, v: nat)
    decreases |path|
  {
    if path == [] then
      v == g.start
    else
      var last := path[|path| - 1];
      last.dst == v && IsEdge(g, last) && IsPath(g, path[..|path| - 1], last.src)
  }

  ghost predicate Reachable(g: Graph, v: nat) {
    exists path :: IsPath(g, path, v)
  }

  function Labels(path: seq<Edge>): seq<TransitionEvent> {
    seq(|path|, i requires 0 <= i < |path| => path[i].event)
  }

  /** n is the length of a shortest run to v. */
  ghost predicate IsDistance(g: Graph, v: nat, n: nat) {
    && (exists path :: IsPath(g, path, v) && |path| == n)
    && forall path :: IsPath(g, path, v) ==> n <= |path|
  }

  /** The length of what ShortestPath returns: the distance, and 0 for an unreachable node. */
  ghost function PathLength(g: Graph, v: nat): nat {
    if n: nat :| IsDistance(g, v, n) then n else 0
  }

  lemma DistanceUnique(g: Graph, v: nat, n: nat)
    requires IsDistance(g, v, n)
    ensures PathLength(g, v) == n
  {
  }

  /** The events are the labels of a shortest run to v. */
  ghost predicate IsShortestRun(g: Graph, events: seq<TransitionEvent>, v: nat) {
    && IsDistance(g, v, |events|)
    && exists path :: IsPath(g, path, v) && Labels(path) == events
  }

  datatype Visit = Visit(via: Edge, found: bool)

  const NOT_VISITED := Visit(Edge(0, 0, TransitionEvent(EventUnknown, "")), false)

  // ---- the search invariant ----

  /** Every visited node records the edge it was found by, and its level. */
  ghost predicate Tree(g: Graph, visited: seq<Visit>, level: seq<nat>) {
    && |visited| == |level| == |g.nodes|
    && g.start < |g.nodes| && visited[g.start].found && level[g.start] == 0
    && forall v :: 0 <= v < |visited| && visited[v].found && v != g.start ==>
         var e := visited[v].via;
         && e.dst == v && IsEdge(g, e) && e.src < |visited|
         && visited[e.src].found && level[v] == level[e.src] + 1
  }

  /** No run to a visited node is shorter than its level. */
  ghost predicate LevelsMinimal(g: Graph, visited: seq<Visit>, level: seq<nat>)
    requires |visited| == |level|
  {
    forall path, v: nat :: IsPath(g, path, v) && v < |visited| && visited[v].found ==> level[v] <= |path|
  }

  /** The queue holds visited nodes by level, spanning at most two levels. */
  ghost predicate QueueOrdered(visited: seq<Visit>, level: seq<nat>, queue: seq<nat>, d: nat)
    requires |visited| == |level|
  {
    && (forall i :: 0 <= i < |queue| ==>
          queue[i] < |visited| && visited[queue[i]].found && d <= level[queue[i]] <= d + 1)
    && forall i, j :: 0 <= i < j < |queue| ==> level[queue[i]] <= level[queue[j]]
  }

  /** Successors of every finished node are visited. */
  ghost predicate Expanded(g: Graph, visited: seq<Visit>, pending: seq<nat>)
    requires |visited| == |g.adjacency|
  {
    forall v, e :: 0 <= v < |visited| && visited[v].found && v !in pending && e in g.adjacency[v] && e.dst < |visited| ==>
      visited[e.dst].found
  }

  /**
   A run either ends in a visited node or is longer than the least pending level:
   it leaves the visited nodes through a pending one.
   */
  lemma {:induction false} RunsLeaveThroughPending(
      g: Graph, visited: seq<Visit>, level: seq<nat>, pending: seq<nat>, d: nat, path: seq<Edge>, v: nat)
    requires Searchable(g) && Tree(g, visited, level) && LevelsMinimal(g, visited, level)
    requires Expanded(g, visited, pending)
    requires forall p :: p in pending ==> p < |level| && d <= level[p]
    requires IsPath(g, path, v)
    ensures v < |visited| && (visited[v].found || d + 1 <= |path|)
    decreases |path|
  {
    if path != [] {
      var last := path[|path| - 1];
      RunsLeaveThroughPending(g, visited, level, pending, d, path[..|path| - 1], last.src);
    }
  }

  /** The run recorded for a visited node. */
  ghost function TreeRun(g: Graph, visited: seq<Visit>, level: seq<nat>, v: nat): (path: seq<Edge>)
    requires Tree(g, visited, level) && v < |visited| && visited[v].found
    ensures IsPath(g, path, v) && |path| == level[v]
    decreases level[v]
  {
    if v == g.start then
      []
    else
      var e := visited[v].via;
      var prefix := TreeRun(g, visited, level, e.src);
      assert (prefix + [e])[..|prefix|] == prefix;
      prefix + [e]
  }

  lemma LevelIsDistance(g: Graph, visited: seq<Visit>, level: seq<nat>, v: nat)
    requires Tree(g, visited, level) && LevelsMinimal(g, visited, level)
    requires v < |visited| && visited[v].found
    ensures IsDistance(g, v, level[v])
  {
    var path := TreeRun(g, visited, level, v);
  }

  /** Walks the recorded edges back from the target. */
  method ReconstructPath(g: Graph, visited: seq<Visit>, target: nat, ghost level: seq<nat>)
    returns (events: seq<TransitionEvent>)
    requires Tree(g, visited, level) && target < |visited| && visited[target].found
    ensures events == Labels(TreeRun(g, visited, level, target))
  {
    hide Labels, IsEdge, IsPath;
    LabelsOfEmpty();
    events := [];
    var cur := target;
    while cur != g.start
      invariant 0 <= cur < |visited| && visited[cur].found
      invariant Labels(TreeRun(g, visited, level, target)) == Labels(TreeRun(g, visited, level, cur)) + events
      decreases level[cur]
    {
      var e := visited[cur].via;
      LabelsSnoc(TreeRun(g, visited, level, e.src), e);
      events := [e.event] + events;
      cur := e.src;
    }
  }

  lemma LabelsOfEmpty()
    ensures Labels([]) == []
  {
  }

  lemma LabelsSnoc(path: seq<Edge>, e: Edge)
    ensures Labels(path + [e]) == Labels(path) + [e.event]
  {
  }

  // ---- the steps of the search ----

  function Unvisited(visited: seq<Visit>): nat {
    if visited == [] then
      0
    else
      Unvisited(visited[..|visited| - 1]) + (if visited[|visited| - 1].found then 0 else 1)
  }

  lemma {:induction false} VisitLowersUnvisited(visited: seq<Visit>, v: nat, x: Visit)
    requires v < |visited| && !visited[v].found && x.found
    ensures Unvisited(visited[v := x]) < Unvisited(visited)
    decreases |visited|
  {
    var n := |visited| - 1;
    if v < n {
      VisitLowersUnvisited(visited[..n], v, x);
      assert visited[v := x][..n] == visited[..n][v := x];
    } else {
      assert visited[v := x][..n] == visited[..n];
    }
  }

  lemma StartTree(g: Graph, visited: seq<Visit>, level: seq<nat>)
    requires Searchable(g) && |visited| == |level| == |g.nodes|
    requires forall v :: 0 <= v < |visited| ==> (visited[v].found <==> v == g.start) && level[v] == 0
    ensures Searching(g, visited, level, [g.start], [g.start], 0)
  {
  }

  /** The state of the search while the nodes of pending are unfinished. */
  ghost predicate Searching(g: Graph, visited: seq<Visit>, level: seq<nat>, queue: seq<nat>, pending: seq<nat>, d: nat)
    requires Searchable(g)
  {
    && Tree(g, visited, level)
    && LevelsMinimal(g, visited, level)
    && QueueOrdered(visited, level, queue, d)
    && Expanded(g, visited, pending)
  }

  lemma DiscoverMinimal(g: Graph, visited: seq<Visit>, level: seq<nat>, pending: seq<nat>, d: nat, e: Edge)
    requires Searchable(g) && Tree(g, visited, level) && LevelsMinimal(g, visited, level)
    requires Expanded(g, visited, pending) && forall p :: p in pending ==> p < |level| && d <= level[p]
    requires e.dst < |visited| && !visited[e.dst].found
    ensures LevelsMinimal(g, visited[e.dst := Visit(e, true)], level[e.dst := d + 1])
  {
    var visited', level' := visited[e.dst := Visit(e, true)], level[e.dst := d + 1];
    forall path, v: nat | IsPath(g, path, v) && v < |visited'| && visited'[v].found
      ensures level'[v] <= |path|
    {
      RunsLeaveThroughPending(g, visited, level, pending, d, path, v);
    }
  }

  lemma DiscoverTree(g: Graph, visited: seq<Visit>, level: seq<nat>, e: Edge)
    requires Searchable(g) && Tree(g, visited, level) && IsEdge(g, e)
    requires visited[e.src].found && !visited[e.dst].found
    ensures Tree(g, visited[e.dst := Visit(e, true)], level[e.dst := level[e.src] + 1])
  {
  }

  lemma DiscoverExpanded(g: Graph, visited: seq<Visit>, pending: seq<nat>, pending': seq<nat>, e: Edge)
    requires Searchable(g) && |visited| == |g.nodes| && Expanded(g, visited, pending)
    requires e.dst < |visited|
    requires forall v :: v in pending' <==> v in pending || v == e.dst
    ensures Expanded(g, visited[e.dst := Visit(e, true)], pending')
  {
  }

  /** Discovering e.dst from the node being expanded keeps the whole invariant. */
  lemma Discover(g: Graph, visited: seq<Visit>, level: seq<nat>, queue: seq<nat>, cur: nat, d: nat, e: Edge)
    requires Searchable(g) && Searching(g, visited, level, queue, [cur] + queue, d)
    requires cur < |visited| && visited[cur].found && level[cur] == d
    requires e in g.adjacency[cur] && !visited[e.dst].found
    ensures Searching(g, visited[e.dst := Visit(e, true)], level[e.dst := d + 1],
                      queue + [e.dst], [cur] + (queue + [e.dst]), d)
  {
    hide LevelsMinimal, Tree, Expanded;
    TreeShape(g, visited, level);
    assert e.src == cur;
    assert forall p :: p in [cur] + queue ==> p < |level| && d <= level[p];
    DiscoverTree(g, visited, level, e);
    DiscoverMinimal(g, visited, level, [cur] + queue, d, e);
    DiscoverExpanded(g, visited, [cur] + queue, [cur] + (queue + [e.dst]), e);
  }

  ghost predicate RowVisited(visited: seq<Visit>, row: seq<Edge>, i: nat) {
    forall j :: 0 <= j < i && j < |row| ==> row[j].dst < |visited| && visited[row[j].dst].found
  }

  lemma RowVisitedGrows(visited: seq<Visit>, row: seq<Edge>, i: nat, e: Edge)
    requires RowVisited(visited, row, i) && e.dst < |visited|
    ensures RowVisited(visited[e.dst := Visit(e, true)], row, i)
  {
  }

  lemma RowDone(g: Graph, visited: seq<Visit>, cur: nat, queue: seq<nat>)
    requires Searchable(g) && |visited| == |g.nodes| && cur < |visited|
    requires Expanded(g, visited, [cur] + queue)
    requires RowVisited(visited, g.adjacency[cur], |g.adjacency[cur]|)
    ensures Expanded(g, visited, queue)
  {
  }

  lemma PopQueue(g: Graph, visited: seq<Visit>, level: seq<nat>, queue: seq<nat>, d: nat)
    requires Searchable(g) && Searching(g, visited, level, queue, queue, d) && queue != []
    ensures |visited| == |level| == |g.nodes| && queue[0] < |visited| && visited[queue[0]].found
    ensures Searching(g, visited, level, queue[1..], [queue[0]] + queue[1..], level[queue[0]])
  {
    assert queue == [queue[0]] + queue[1..];
  }

  lemma TreeShape(g: Graph, visited: seq<Visit>, level: seq<nat>)
    requires Tree(g, visited, level)
    ensures |visited| == |level| == |g.nodes|
  {
  }

  lemma TreeRunIsShortest(g: Graph, visited: seq<Visit>, level: seq<nat>, v: nat)
    requires Tree(g, visited, level) && LevelsMinimal(g, visited, level)
    requires v < |visited| && visited[v].found && v != g.start
    ensures IsShortestRun(g, Labels(TreeRun(g, visited, level, v)), v)
    ensures |Labels(TreeRun(g, visited, level, v))| == PathLength(g, v) > 0
    ensures Reachable(g, v)
  {
    LevelIsDistance(g, visited, level, v);
    DistanceUnique(g, v, level[v]);
  }

  lemma NothingPending(g: Graph, visited: seq<Visit>, level: seq<nat>, v: nat, d: nat)
    requires Searchable(g) && Searching(g, visited, level, [], [], d)
    ensures Reachable(g, v) ==> v < |visited| && visited[v].found
  {
    forall path | IsPath(g, path, v) ensures v < |visited| && visited[v].found {
      RunsLeaveThroughPending(g, visited, level, [], |path|, path, v);
    }
  }

  lemma StartRun(g: Graph)
    ensures IsDistance(g, g.start, 0)
    ensures IsShortestRun(g, [], g.start)
    ensures PathLength(g, g.start) == 0
  {
    assert IsPath(g, [], g.start);
    assert Labels([]) == [];
    DistanceUnique(g, g.start, 0);
  }

  // ---- which shortest run is found ----

  /** Every row lists its edges by strictly ascending destination. */
  ghost predicate RowsAscend(g: Graph) {
    forall i, j, k :: 0 <= i < |g.adjacency| && 0 <= j < k < |g.adjacency[i]| ==> g.adjacency[i][j].dst < g.adjacency[i][k].dst
  }

  ghost predicate LessFrom(p: seq<Edge>, q: seq<Edge>, k: nat) {
    k < |p| && k < |q| && p[..k] == q[..k] && p[k].dst < q[k].dst
  }

  /** Where the runs part, p goes to the lower node. */
  ghost predicate PathLess(p: seq<Edge>, q: seq<Edge>) {
    exists k: nat :: LessFrom(p, q, k)
  }

  /** No run to v is shorter, and none as short goes to a lower node where they part. */
  ghost predicate IsLeastPath(g: Graph, path: seq<Edge>, v: nat) {
    && IsPath(g, path, v)
    && forall q :: IsPath(g, q, v) ==> |path| < |q| || (|path| == |q| && !PathLess(q, path))
  }

  /** The events are the labels of the least shortest run to v. */
  ghost predicate IsLeastRun(g: Graph, events: seq<TransitionEvent>, v: nat) {
    exists path :: IsLeastPath(g, path, v) && Labels(path) == events
  }

  lemma PathLessTransitive(p: seq<Edge>, q: seq<Edge>, r: seq<Edge>)
    requires PathLess(p, q) && PathLess(q, r)
    ensures PathLess(p, r)
  {
    var j: nat :| LessFrom(p, q, j);
    var k: nat :| LessFrom(q, r, k);
    var m := if j < k then j else k;
    assert p[..m] == p[..j][..m] && q[..m] == q[..j][..m] == q[..k][..m] && r[..m] == r[..k][..m];
    assert j < k ==> q[j] == q[..k][j] == r[..k][j] == r[j];
    assert k < j ==> p[k] == p[..j][k] == q[..j][k] == q[k];
    assert LessFrom(p, r, m);
  }

  lemma PathLessIrreflexive(p: seq<Edge>)
    ensures !PathLess(p, p)
  {
  }

  lemma PathLessExtends(p: seq<Edge>, q: seq<Edge>, a: seq<Edge>, b: seq<Edge>)
    requires PathLess(p, q)
    ensures PathLess(p + a, q + b)
  {
    var k: nat :| LessFrom(p, q, k);
    assert (p + a)[..k] == p[..k] && (q + b)[..k] == q[..k];
    assert LessFrom(p + a, q + b, k);
  }

  lemma PathLessPrefix(p: seq<Edge>, q: seq<Edge>, a: Edge, b: Edge)
    requires |p| == |q| && PathLess(p + [a], q + [b])
    ensures PathLess(p, q) || (p == q && a.dst < b.dst)
  {
    var k: nat :| LessFrom(p + [a], q + [b], k);
    if k < |p| {
      assert (p + [a])[..k] == p[..k] && (q + [b])[..k] == q[..k];
      assert LessFrom(p, q, k);
    } else {
      assert (p + [a])[..k] == p && (q + [b])[..k] == q;
    }
  }

  /** Of two runs as long, one is less, unless they are the same. */
  lemma {:induction false} PathLessTotal(g: Graph, p: seq<Edge>, u: nat, q: seq<Edge>, v: nat)
    requires Searchable(g) && RowsAscend(g) && IsPath(g, p, u) && IsPath(g, q, v) && |p| == |q|
    ensures p == q || PathLess(p, q) || PathLess(q, p)
    decreases |p|
  {
    if p != [] {
      var n := |p| - 1;
      var a, b := p[n], q[n];
      PathLessTotal(g, p[..n], a.src, q[..n], b.src);
      assert p == p[..n] + [a] && q == q[..n] + [b];
      if p[..n] == q[..n] {
        SameEnd(g, p[..n], a.src, b.src);
        if a != b {
          EdgesPart(g, a, b);
          assert LessFrom(p, q, n) || LessFrom(q, p, n);
        }
      } else if PathLess(p[..n], q[..n]) {
        PathLessExtends(p[..n], q[..n], [a], [b]);
      } else {
        PathLessExtends(q[..n], p[..n], [b], [a]);
      }
    }
  }

  lemma SameEnd(g: Graph, p: seq<Edge>, u: nat, v: nat)
    requires IsPath(g, p, u) && IsPath(g, p, v)
    ensures u == v
  {
  }

  lemma EdgesPart(g: Graph, a: Edge, b: Edge)
    requires Searchable(g) && RowsAscend(g) && IsEdge(g, a) && IsEdge(g, b) && a.src == b.src && a != b
    ensures a.dst != b.dst
  {
    var row := g.adjacency[a.src];
    var j :| 0 <= j < |row| && row[j] == a;
    var k :| 0 <= k < |row| && row[k] == b;
    assert j < k || k < j;
  }

  /** There is one least run to a node. */
  lemma LeastPathUnique(g: Graph, p: seq<Edge>, q: seq<Edge>, v: nat)
    requires Searchable(g) && RowsAscend(g) && IsLeastPath(g, p, v) && IsLeastPath(g, q, v)
    ensures p == q
  {
    hide PathLess;
    PathLessTotal(g, p, v, q, v);
  }

  /** The run recorded for every visited node. */
  ghost predicate Recorded(g: Graph, visited: seq<Visit>, level: seq<nat>, run: seq<seq<Edge>>) {
    && |run| == |visited| == |level|
    && forall v :: 0 <= v < |visited| && visited[v].found ==> RecordedAt(g, visited[v].via, level[v], run, v)
  }

  ghost predicate RecordedAt(g: Graph, via: Edge, depth: nat, run: seq<seq<Edge>>, v: nat)
    requires v < |run|
  {
    && IsPath(g, run[v], v) && |run[v]| == depth
    && (v != g.start ==> via.src < |run| && run[v] == run[via.src] + [via])
  }

  ghost predicate LeastRuns(g: Graph, visited: seq<Visit>, run: seq<seq<Edge>>)
    requires |run| == |visited|
  {
    forall v, q :: 0 <= v < |visited| && visited[v].found && IsPath(g, q, v) && |q| == |run[v]| ==> !PathLess(q, run[v])
  }

  ghost predicate RunBefore(run: seq<seq<Edge>>, u: nat, v: nat)
    requires u < |run| && v < |run|
  {
    |run[u]| < |run[v]| || (|run[u]| == |run[v]| && PathLess(run[u], run[v]))
  }

  /** Nodes wait in the order of their runs. */
  ghost predicate InOrder(run: seq<seq<Edge>>, pending: seq<nat>) {
    && (forall i :: 0 <= i < |pending| ==> pending[i] < |run|)
    && forall i, j :: 0 <= i < j < |pending| ==> RunBefore(run, pending[i], pending[j])
  }

  /** A waiting node a level below the first was found from one no later than the first. */
  ghost predicate FoundEarlier(run: seq<seq<Edge>>, pending: seq<nat>)
    requires forall i :: 0 <= i < |pending| ==> pending[i] < |run|
  {
    forall w :: w in pending && |run[w]| == |run[pending[0]]| + 1 ==> !PathLess(run[pending[0]], run[w][..|run[w]| - 1])
  }

  /** Nothing was found yet from a waiting node, but through the first i edges of the first one. */
  ghost predicate Scanned(g: Graph, visited: seq<Visit>, pending: seq<nat>, i: nat) {
    pending != [] ==>
      && pending[0] < |g.adjacency| && i <= |g.adjacency[pending[0]]|
      && forall v :: 0 <= v < |visited| && visited[v].found && v != g.start ==>
           && visited[v].via.src !in pending[1..]
           && (visited[v].via.src == pending[0] ==> visited[v].via in g.adjacency[pending[0]][..i])
  }

  /** What the search keeps about the order of runs, with i edges of the first pending node scanned. */
  ghost predicate Lexical(g: Graph, visited: seq<Visit>, level: seq<nat>, run: seq<seq<Edge>>, pending: seq<nat>, i: nat) {
    && Recorded(g, visited, level, run)
    && LeastRuns(g, visited, run)
    && InOrder(run, pending)
    && FoundEarlier(run, pending)
    && Scanned(g, visited, pending, i)
  }

  lemma StartLexical(g: Graph, visited: seq<Visit>, level: seq<nat>)
    requires Searchable(g) && |visited| == |level| == |g.nodes|
    requires forall v :: 0 <= v < |visited| ==> (visited[v].found <==> v == g.start) && level[v] == 0
    ensures Lexical(g, visited, level, seq(|g.nodes|, _ => []), [g.start], 0)
  {
    var run: seq<seq<Edge>> := seq(|g.nodes|, _ => []);
    PathLessIrreflexive([]);
  }

  lemma DiscoverRecorded(g: Graph, visited: seq<Visit>, level: seq<nat>, run: seq<seq<Edge>>, e: Edge)
    requires Searchable(g) && Tree(g, visited, level) && Recorded(g, visited, level, run)
    requires e.src < |visited| && e.dst < |visited|
    requires IsEdge(g, e) && visited[e.src].found && !visited[e.dst].found
    ensures Recorded(g, visited[e.dst := Visit(e, true)], level[e.dst := level[e.src] + 1], run[e.dst := run[e.src] + [e]])
  {
    hide Searchable, Tree, IsEdge, IsPath;
    FoundBefore(g, visited, level, e);
    assert RecordedAt(g, visited[e.src].via, level[e.src], run, e.src);
    PathSnoc(g, run[e.src], e);
    hide RecordedAt;
    var visited', level', run' := visited[e.dst := Visit(e, true)], level[e.dst := level[e.src] + 1], run[e.dst := run[e.src] + [e]];
    assert run'[e.src] == run[e.src];
    forall v | 0 <= v < |visited'| && visited'[v].found ensures RecordedAt(g, visited'[v].via, level'[v], run', v) {
      if v == e.dst {
        NewRecorded(g, e, level[e.src] + 1, run', v);
      } else {
        OldRecorded(g, visited[v].via, level[v], run, v, e.dst, run[e.src] + [e]);
      }
    }
  }

  lemma NewRecorded(g: Graph, e: Edge, depth: nat, run: seq<seq<Edge>>, v: nat)
    requires v < |run| && e.src < |run| && run[v] == run[e.src] + [e] && IsPath(g, run[v], v) && |run[v]| == depth
    ensures RecordedAt(g, e, depth, run, v)
  {
    hide IsPath;
  }

  lemma OldRecorded(g: Graph, via: Edge, depth: nat, run: seq<seq<Edge>>, v: nat, w: nat, path: seq<Edge>)
    requires v < |run| && w < |run| && v != w && RecordedAt(g, via, depth, run, v)
    requires v != g.start ==> via.src != w
    ensures RecordedAt(g, via, depth, run[w := path], v)
  {
    hide IsPath;
  }

  lemma PathSnoc(g: Graph, path: seq<Edge>, e: Edge)
    requires IsPath(g, path, e.src) && IsEdge(g, e)
    ensures IsPath(g, path + [e], e.dst)
  {
    assert (path + [e])[..|path|] == path;
  }

  /** What a visited node was found through is not the node found next. */
  lemma FoundBefore(g: Graph, visited: seq<Visit>, level: seq<nat>, e: Edge)
    requires Searchable(g) && Tree(g, visited, level) && IsEdge(g, e) && e.src < |visited| && !visited[e.dst].found
    ensures |visited| == |level| == |g.nodes| && e.dst < |visited| && g.start != e.dst
    ensures forall v :: 0 <= v < |visited| && visited[v].found && v != g.start ==> visited[v].via.src != e.dst
  {
  }

  lemma PendingLevels(visited: seq<Visit>, level: seq<nat>, queue: seq<nat>, cur: nat, d: nat)
    requires |visited| == |level| && QueueOrdered(visited, level, queue, d)
    requires cur < |level| && visited[cur].found && level[cur] == d
    ensures forall p :: p in [cur] + queue ==> p < |level| && visited[p].found && d <= level[p]
  {
  }

  /** A shortest run to a node not yet found comes through a waiting node of the head's level. */
  lemma ComesThroughPending(g: Graph, visited: seq<Visit>, level: seq<nat>, queue: seq<nat>, cur: nat, d: nat, v: nat, q: seq<Edge>)
    requires Searchable(g) && Searching(g, visited, level, queue, [cur] + queue, d)
    requires cur < |visited| && visited[cur].found && level[cur] == d
    requires v < |visited| && !visited[v].found && IsPath(g, q, v) && |q| == d + 1
    ensures var u := q[d].src;
            && u in [cur] + queue && u < |visited| && visited[u].found && level[u] == d
            && IsPath(g, q[..d], u) && q[d].dst == v
  {
    hide QueueOrdered;
    PendingLevels(visited, level, queue, cur, d);
    RunsLeaveThroughPending(g, visited, level, [cur] + queue, d, q[..d], q[d].src);
    assert q[d] in g.adjacency[q[d].src];
  }

  lemma DiscoverLeast(g: Graph, visited: seq<Visit>, level: seq<nat>, run: seq<seq<Edge>>, queue: seq<nat>,
                      cur: nat, d: nat, e: Edge, q: seq<Edge>)
    requires Searchable(g) && Searching(g, visited, level, queue, [cur] + queue, d)
    requires cur < |visited| && visited[cur].found && level[cur] == d
    requires Recorded(g, visited, level, run) && LeastRuns(g, visited, run) && InOrder(run, [cur] + queue)
    requires e.dst < |visited| && !visited[e.dst].found && IsPath(g, q, e.dst) && |q| == d + 1
    ensures !PathLess(q, run[cur] + [e])
  {
    hide Searching, Searchable, IsPath, PathLess, LeastRuns, InOrder, RecordedAt;
    ComesThroughPending(g, visited, level, queue, cur, d, e.dst, q);
    RecordedLength(g, visited, level, run, q[d].src);
    RecordedLength(g, visited, level, run, cur);
    LeastAt(g, visited, run, q[d].src, q[..d]);
    hide *;
    NotLessThanHead(run, [cur] + queue, q[d].src, q[..d]);
    NotLessByPrefix(q[..d], run[cur], q[d], e);
    assert q == q[..d] + [q[d]];
  }

  lemma NotLessByPrefix(p: seq<Edge>, r: seq<Edge>, a: Edge, b: Edge)
    requires |p| == |r| && !PathLess(p, r) && a.dst == b.dst
    ensures !PathLess(p + [a], r + [b])
  {
    hide PathLess;
    if PathLess(p + [a], r + [b]) {
      PathLessPrefix(p, r, a, b);
    }
  }

  lemma RecordedLength(g: Graph, visited: seq<Visit>, level: seq<nat>, run: seq<seq<Edge>>, u: nat)
    requires Recorded(g, visited, level, run) && u < |visited| && visited[u].found
    ensures |run| == |visited| == |level| && |run[u]| == level[u]
  {
  }

  lemma LeastAt(g: Graph, visited: seq<Visit>, run: seq<seq<Edge>>, u: nat, p: seq<Edge>)
    requires |run| == |visited| && LeastRuns(g, visited, run)
    requires u < |visited| && visited[u].found && IsPath(g, p, u) && |p| == |run[u]|
    ensures !PathLess(p, run[u])
  {
  }

  lemma NotLessThanHead(run: seq<seq<Edge>>, pending: seq<nat>, u: nat, p: seq<Edge>)
    requires InOrder(run, pending) && u in pending && u < |run| && |p| == |run[u]| == |run[pending[0]]|
    requires !PathLess(p, run[u])
    ensures !PathLess(p, run[pending[0]])
  {
    hide PathLess;
    var i :| 0 <= i < |pending| && pending[i] == u;
    if i > 0 && PathLess(p, run[pending[0]]) {
      assert RunBefore(run, pending[0], pending[i]);
      PathLessTransitive(p, run[pending[0]], run[u]);
    }
  }

  lemma DiscoverLeastRuns(g: Graph, visited: seq<Visit>, level: seq<nat>, run: seq<seq<Edge>>, queue: seq<nat>,
                          cur: nat, d: nat, e: Edge)
    requires Searchable(g) && Searching(g, visited, level, queue, [cur] + queue, d)
    requires cur < |visited| && visited[cur].found && level[cur] == d
    requires Recorded(g, visited, level, run) && LeastRuns(g, visited, run) && InOrder(run, [cur] + queue)
    requires e in g.adjacency[cur] && !visited[e.dst].found
    ensures LeastRuns(g, visited[e.dst := Visit(e, true)], run[e.dst := run[cur] + [e]])
  {
    TreeShape(g, visited, level);
    hide Searching, InOrder, PathLess, IsPath;
    var visited', run' := visited[e.dst := Visit(e, true)], run[e.dst := run[cur] + [e]];
    forall v, q | 0 <= v < |visited'| && visited'[v].found && IsPath(g, q, v) && |q| == |run'[v]|
      ensures !PathLess(q, run'[v])
    {
      if v == e.dst {
        DiscoverLeast(g, visited, level, run, queue, cur, d, e, q);
      }
    }
  }

  /** The run of a node just found is later than those of the nodes waiting as deep. */
  lemma FoundAfter(g: Graph, visited: seq<Visit>, level: seq<nat>, run: seq<seq<Edge>>, queue: seq<nat>,
                   cur: nat, d: nat, i: nat, w: nat)
    requires Searchable(g) && RowsAscend(g) && Searching(g, visited, level, queue, [cur] + queue, d)
    requires cur < |visited| && visited[cur].found && level[cur] == d
    requires Lexical(g, visited, level, run, [cur] + queue, i) && i < |g.adjacency[cur]|
    requires w in [cur] + queue && |run[w]| == d + 1
    ensures PathLess(run[w], run[cur] + [g.adjacency[cur][i]])
  {
    PendingLevels(visited, level, queue, cur, d);
    var e, via := g.adjacency[cur][i], visited[w].via;
    StartIsFirst(g, visited, level);
    assert w != g.start;
    assert run[w] == run[via.src] + [via] && visited[via.src].found;
    var before := run[via.src];
    assert run[w][..|run[w]| - 1] == before;
    assert !PathLess(run[cur], before) && via.src !in queue && (via.src == cur ==> via in g.adjacency[cur][..i]);
    assert IsPath(g, before, via.src) && IsPath(g, run[cur], cur);
    hide Searching, Lexical, InOrder, Recorded, IsPath;
    PathLessTotal(g, before, via.src, run[cur], cur);
    if before == run[cur] {
      SameEnd(g, before, via.src, cur);
      var j :| 0 <= j < i && g.adjacency[cur][j] == via;
      assert (before + [via])[..d] == before == (run[cur] + [e])[..d];
      assert LessFrom(before + [via], run[cur] + [e], d);
    } else {
      PathLessExtends(before, run[cur], [via], [e]);
    }
  }

  lemma StartIsFirst(g: Graph, visited: seq<Visit>, level: seq<nat>)
    requires Tree(g, visited, level)
    ensures g.start < |level| && level[g.start] == 0
    ensures forall v :: 0 <= v < |visited| && visited[v].found && v != g.start ==>
      visited[v].via.src < |visited| && visited[visited[v].via.src].found
  {
  }

  lemma DiscoverInOrder(g: Graph, visited: seq<Visit>, level: seq<nat>, run: seq<seq<Edge>>, queue: seq<nat>,
                        cur: nat, d: nat, i: nat, e: Edge)
    requires Searchable(g) && RowsAscend(g) && Searching(g, visited, level, queue, [cur] + queue, d)
    requires cur < |visited| && visited[cur].found && level[cur] == d
    requires Lexical(g, visited, level, run, [cur] + queue, i) && i < |g.adjacency[cur]|
    requires e == g.adjacency[cur][i] && !visited[e.dst].found
    ensures InOrder(run[e.dst := run[cur] + [e]], [cur] + (queue + [e.dst]))
  {
    TreeShape(g, visited, level);
    PendingLevels(visited, level, queue, cur, d);
    QueueLevels(visited, level, queue, d);
    forall w | w in [cur] + queue ensures w != e.dst && RunBeforeNew(run, w, run[cur] + [e]) {
      assert |run[w]| == level[w] <= d + 1;
      if |run[w]| == d + 1 {
        FoundAfter(g, visited, level, run, queue, cur, d, i, w);
      }
    }
    hide *;
    assert [cur] + (queue + [e.dst]) == ([cur] + queue) + [e.dst];
    AppendInOrder(run, [cur] + queue, e.dst, run[cur] + [e]);
  }

  ghost predicate RunBeforeNew(run: seq<seq<Edge>>, w: nat, path: seq<Edge>) {
    w < |run| && (|run[w]| < |path| || (|run[w]| == |path| && PathLess(run[w], path)))
  }

  lemma AppendInOrder(run: seq<seq<Edge>>, pending: seq<nat>, v: nat, path: seq<Edge>)
    requires InOrder(run, pending) && v < |run|
    requires forall w :: w in pending ==> w != v && RunBeforeNew(run, w, path)
    ensures InOrder(run[v := path], pending + [v])
  {
    hide PathLess;
    var run', pending' := run[v := path], pending + [v];
    forall k, l | 0 <= k < l < |pending'| ensures RunBefore(run', pending'[k], pending'[l]) {
      assert pending'[k] == pending[k] && pending[k] in pending;
      if l < |pending| {
        assert pending[l] in pending && RunBefore(run, pending[k], pending[l]);
      }
    }
  }

  lemma QueueLevels(visited: seq<Visit>, level: seq<nat>, queue: seq<nat>, d: nat)
    requires |visited| == |level| && QueueOrdered(visited, level, queue, d)
    ensures forall w :: w in queue ==> w < |level| && level[w] <= d + 1
  {
  }

  lemma DiscoverFoundEarlier(run: seq<seq<Edge>>, queue: seq<nat>, cur: nat, v: nat, e: Edge)
    requires cur < |run| && InOrder(run, [cur] + queue) && FoundEarlier(run, [cur] + queue) && v < |run| && v !in [cur] + queue
    requires InOrder(run[v := run[cur] + [e]], [cur] + (queue + [v]))
    ensures FoundEarlier(run[v := run[cur] + [e]], [cur] + (queue + [v]))
  {
    hide PathLess;
    var run', pending' := run[v := run[cur] + [e]], [cur] + (queue + [v]);
    assert pending'[0] == cur == ([cur] + queue)[0];
    PathLessIrreflexive(run[cur]);
    assert run'[v][..|run'[v]| - 1] == run[cur];
    forall w | w in pending' && |run'[w]| == |run'[cur]| + 1 ensures !PathLess(run'[cur], run'[w][..|run'[w]| - 1]) {
      if w != v {
        assert w in [cur] + queue;
      }
    }
  }

  lemma DiscoverScanned(g: Graph, visited: seq<Visit>, level: seq<nat>, queue: seq<nat>, cur: nat, i: nat, e: Edge)
    requires Searchable(g) && Tree(g, visited, level) && cur < |visited| && visited[cur].found
    requires Scanned(g, visited, [cur] + queue, i) && i < |g.adjacency[cur]| && cur !in queue
    requires e == g.adjacency[cur][i] && !visited[e.dst].found
    ensures Scanned(g, visited[e.dst := Visit(e, true)], [cur] + (queue + [e.dst]), i + 1)
  {
    var row, pending' := g.adjacency[cur], [cur] + (queue + [e.dst]);
    assert ([cur] + queue)[1..] == queue && pending'[1..] == queue + [e.dst];
    assert row[..i + 1] == row[..i] + [e];
    assert e in row && e.src == cur;
  }

  lemma SkipScanned(g: Graph, visited: seq<Visit>, queue: seq<nat>, cur: nat, i: nat)
    requires Scanned(g, visited, [cur] + queue, i) && cur < |g.adjacency| && i < |g.adjacency[cur]|
    ensures Scanned(g, visited, [cur] + queue, i + 1)
  {
    var row := g.adjacency[cur];
    assert row[..i + 1] == row[..i] + [row[i]];
  }

  lemma HeadWaitsOnce(run: seq<seq<Edge>>, queue: seq<nat>, cur: nat)
    requires cur < |run| && InOrder(run, [cur] + queue)
    ensures cur !in queue
  {
    PathLessIrreflexive(run[cur]);
    forall i | 0 <= i < |queue| ensures queue[i] != cur {
      assert RunBefore(run, ([cur] + queue)[0], ([cur] + queue)[i + 1]);
    }
  }

  /** Discovering a node from the head of the queue keeps the order of runs. */
  lemma DiscoverLexical(g: Graph, visited: seq<Visit>, level: seq<nat>, run: seq<seq<Edge>>, queue: seq<nat>,
                        cur: nat, d: nat, i: nat, e: Edge)
    requires Searchable(g) && RowsAscend(g) && Searching(g, visited, level, queue, [cur] + queue, d)
    requires cur < |visited| && visited[cur].found && level[cur] == d
    requires Lexical(g, visited, level, run, [cur] + queue, i) && i < |g.adjacency[cur]|
    requires e == g.adjacency[cur][i] && !visited[e.dst].found
    ensures Lexical(g, visited[e.dst := Visit(e, true)], level[e.dst := d + 1], run[e.dst := run[cur] + [e]],
                    [cur] + (queue + [e.dst]), i + 1)
  {
    TreeShape(g, visited, level);
    assert e in g.adjacency[cur] && e.src == cur;
    PendingLevels(visited, level, queue, cur, d);
    DiscoverInOrder(g, visited, level, run, queue, cur, d, i, e);
    DiscoverLeastRuns(g, visited, level, run, queue, cur, d, e);
    hide LeastRuns, RowsAscend, LevelsMinimal, QueueOrdered, Expanded;
    HeadWaitsOnce(run, queue, cur);
    DiscoverRecorded(g, visited, level, run, e);
    DiscoverFoundEarlier(run, queue, cur, e.dst, e);
    DiscoverScanned(g, visited, level, queue, cur, i, e);
  }

  /** A finished row leaves the order of runs to the next node waiting. */
  lemma RowDoneLexical(g: Graph, visited: seq<Visit>, level: seq<nat>, run: seq<seq<Edge>>, queue: seq<nat>, cur: nat, d: nat, i: nat)
    requires Searchable(g) && RowsAscend(g) && Searching(g, visited, level, queue, [cur] + queue, d)
    requires cur < |visited| && visited[cur].found && level[cur] == d
    requires Lexical(g, visited, level, run, [cur] + queue, i)
    ensures Lexical(g, visited, level, run, queue, 0)
  {
    TreeShape(g, visited, level);
    QueueLevels(visited, level, queue, d);
    PendingLevels(visited, level, queue, cur, d);
    hide LeastRuns, RowsAscend, LevelsMinimal, QueueOrdered, Expanded, IsPath;
    assert forall w :: w in queue ==> w in [cur] + queue && |run[w]| <= |run[cur]| + 1;
    NextInOrder(run, queue, cur);
    NextScanned(g, visited, queue, cur, i);
  }

  lemma NextInOrder(run: seq<seq<Edge>>, queue: seq<nat>, cur: nat)
    requires cur < |run| && InOrder(run, [cur] + queue) && FoundEarlier(run, [cur] + queue)
    requires forall w :: w in queue ==> w < |run| && |run[w]| <= |run[cur]| + 1
    ensures InOrder(run, queue) && FoundEarlier(run, queue)
  {
    hide PathLess;
    var pending := [cur] + queue;
    assert forall k :: 0 <= k < |queue| ==> queue[k] == pending[k + 1];
    if queue != [] {
      assert RunBefore(run, pending[0], pending[1]);
      forall w | w in queue && |run[w]| == |run[queue[0]]| + 1
        ensures !PathLess(run[queue[0]], run[w][..|run[w]| - 1])
      {
        assert w in pending && pending[0] == cur && queue[0] == pending[1];
        if PathLess(run[queue[0]], run[w][..|run[w]| - 1]) {
          PathLessTransitive(run[cur], run[queue[0]], run[w][..|run[w]| - 1]);
        }
      }
    }
  }

  lemma NextScanned(g: Graph, visited: seq<Visit>, queue: seq<nat>, cur: nat, i: nat)
    requires Scanned(g, visited, [cur] + queue, i) && forall w :: w in queue ==> w < |g.adjacency|
    ensures Scanned(g, visited, queue, 0)
  {
    assert ([cur] + queue)[1..] == queue;
    if queue != [] {
      assert queue[0] in queue;
    }
  }

  /** The recorded run is the one walked back, and it is the least. */
  lemma {:induction false} RecordedIsTreeRun(g: Graph, visited: seq<Visit>, level: seq<nat>, run: seq<seq<Edge>>, v: nat)
    requires Tree(g, visited, level) && Recorded(g, visited, level, run)
    requires v < |visited| && visited[v].found
    ensures TreeRun(g, visited, level, v) == run[v]
    decreases level[v]
  {
    if v != g.start {
      RecordedIsTreeRun(g, visited, level, run, visited[v].via.src);
    }
  }

  lemma StartIsLeast(g: Graph)
    ensures IsLeastRun(g, [], g.start)
  {
    var path: seq<Edge> := [];
    assert IsPath(g, path, g.start) && Labels(path) == [];
    assert IsLeastPath(g, path, g.start);
  }

  ghost predicate RecordsLeast(g: Graph, visited: seq<Visit>, level: seq<nat>, run: seq<seq<Edge>>) {
    Recorded(g, visited, level, run) && LeastRuns(g, visited, run)
  }

  lemma LexicalRecords(g: Graph, visited: seq<Visit>, level: seq<nat>, run: seq<seq<Edge>>, pending: seq<nat>, i: nat)
    requires Lexical(g, visited, level, run, pending, i)
    ensures |run| == |visited| && RecordsLeast(g, visited, level, run)
  {
  }

  lemma SkipLexical(g: Graph, visited: seq<Visit>, level: seq<nat>, run: seq<seq<Edge>>, queue: seq<nat>, cur: nat, i: nat)
    requires Lexical(g, visited, level, run, [cur] + queue, i) && cur < |g.adjacency| && i < |g.adjacency[cur]|
    ensures Lexical(g, visited, level, run, [cur] + queue, i + 1)
  {
    hide Recorded, LeastRuns, InOrder, FoundEarlier;
    SkipScanned(g, visited, queue, cur, i);
  }

  lemma RecordedIsLeast(g: Graph, visited: seq<Visit>, level: seq<nat>, run: seq<seq<Edge>>, v: nat)
    requires Tree(g, visited, level) && LevelsMinimal(g, visited, level) && v < |visited| && visited[v].found
    requires RecordsLeast(g, visited, level, run)
    ensures IsLeastRun(g, Labels(TreeRun(g, visited, level, v)), v)
  {
    RecordedIsTreeRun(g, visited, level, run, v);
    assert IsLeastPath(g, run[v], v);
  }

  /** Breadth-first search: a shortest run, or nothing for the start and unreachable nodes. */
  method ShortestPath(g: Graph, target: nat) returns (events: seq<TransitionEvent>)
    requires Searchable(g)
    ensures |events| == PathLength(g, target)
    ensures events == [] <==> target == g.start || !Reachable(g, target)
    ensures Reachable(g, target) ==> IsShortestRun(g, events, target)
    ensures RowsAscend(g) && Reachable(g, target) ==> IsLeastRun(g, events, target)
  {
    hide Lexical, RowsAscend, IsLeastRun, Searching, LevelsMinimal, Tree, Expanded, IsDistance, IsShortestRun, Labels, Reachable;
    if target == g.start {
      StartRun(g);
      StartIsLeast(g);
      return [];
    }
    var visited := new Visit[|g.nodes|](_ => NOT_VISITED);
    visited[g.start] := NOT_VISITED.(found := true);
    ghost var level: seq<nat> := seq(|g.nodes|, _ => 0);
    var queue := [g.start];
    ghost var d := 0;
    ghost var run: seq<seq<Edge>> := seq(|g.nodes|, _ => []);
    StartTree(g, visited[..], level);
    StartLexical(g, visited[..], level);
    while queue != []
      invariant Searching(g, visited[..], level, queue, queue, d)
      invariant RowsAscend(g) ==> Lexical(g, visited[..], level, run, queue, 0)
      invariant target < |g.nodes| ==> !visited[target].found
      decreases Unvisited(visited[..]), |queue|
    {
      PopQueue(g, visited[..], level, queue, d);
      var cur := queue[0];
      d := level[cur];
      var hit: bool;
      assert [cur] + queue[1..] == queue;
      queue, hit, level, run := Expand(g, visited, queue[1..], cur, target, level, run);
      if hit {
        TreeRunIsShortest(g, visited[..], level, target);
        if RowsAscend(g) {
          RecordedIsLeast(g, visited[..], level, run, target);
        }
        events := ReconstructPath(g, visited[..], target, level);
        return;
      }
    }
    NothingPending(g, visited[..], level, target, d);
    Unreached(g, target);
    return [];
  }

  /** Scans the edges leaving cur, visiting and enqueuing the new nodes until the target shows up. */
  method Expand(g: Graph, visited: array<Visit>, queue0: seq<nat>, cur: nat, target: nat,
                ghost level0: seq<nat>, ghost run0: seq<seq<Edge>>)
    returns (queue: seq<nat>, hit: bool, ghost level: seq<nat>, ghost run: seq<seq<Edge>>)
    requires Searchable(g) && visited.Length == |level0| == |g.nodes|
    requires cur < visited.Length && visited[cur].found
    requires Searching(g, visited[..], level0, queue0, [cur] + queue0, level0[cur])
    requires RowsAscend(g) ==> Lexical(g, visited[..], level0, run0, [cur] + queue0, 0)
    requires target < visited.Length ==> !visited[target].found
    modifies visited
    ensures |level| == |level0|
    ensures hit ==> target < visited.Length && visited[target].found
    ensures hit ==> Tree(g, visited[..], level) && LevelsMinimal(g, visited[..], level)
    ensures hit && RowsAscend(g) ==> RecordsLeast(g, visited[..], level, run)
    ensures !hit && RowsAscend(g) ==> Lexical(g, visited[..], level, run, queue, 0)
    ensures !hit && target < visited.Length ==> !visited[target].found
    ensures !hit ==> Searching(g, visited[..], level, queue, queue, level0[cur])
    ensures !hit ==> Unvisited(visited[..]) < Unvisited(old(visited[..]))
                     || (Unvisited(visited[..]) == Unvisited(old(visited[..])) && |queue| == |queue0|)
  {
    hide Lexical, RowsAscend, RecordsLeast, LevelsMinimal, Tree, QueueOrdered, Expanded;
    queue, level, run := queue0, level0, run0;
    var row := g.adjacency[cur];
    ghost var d, seen := level0[cur], visited[..];
    for i := 0 to |row|
      invariant visited[..] == seen && |level| == |level0| && seen[cur].found && level[cur] == d
      invariant Searching(g, seen, level, queue, [cur] + queue, d)
      invariant RowsAscend(g) ==> Lexical(g, seen, level, run, [cur] + queue, i)
      invariant RowVisited(seen, row, i)
      invariant target < |seen| ==> !seen[target].found
      invariant Unvisited(seen) < Unvisited(old(visited[..]))
                || (Unvisited(seen) == Unvisited(old(visited[..])) && |queue| == |queue0|)
    {
      var e := row[i];
      assert e in row;
      if !visited[e.dst].found {
        if RowsAscend(g) {
          LexicalRecords(g, seen, level, run, [cur] + queue, i);
          DiscoverLexical(g, seen, level, run, queue, cur, d, i, e);
          LexicalRecords(g, seen[e.dst := Visit(e, true)], level[e.dst := d + 1], run[e.dst := run[cur] + [e]],
                         [cur] + (queue + [e.dst]), i + 1);
          run := run[e.dst := run[cur] + [e]];
        }
        Discover(g, seen, level, queue, cur, d, e);
        VisitLowersUnvisited(seen, e.dst, Visit(e, true));
        visited[e.dst] := Visit(e, true);
        RowVisitedGrows(seen, row, i, e);
        level, seen := level[e.dst := d + 1], seen[e.dst := Visit(e, true)];
        if e.dst == target {
          return queue, true, level, run;
        }
        queue := queue + [e.dst];
      } else if RowsAscend(g) {
        SkipLexical(g, seen, level, run, queue, cur, i);
      }
    }
    if RowsAscend(g) {
      RowDoneLexical(g, seen, level, run, queue, cur, d, |row|);
    }
    RowDone(g, seen, cur, queue);
    return queue, false, level, run;
  }

  lemma Unreached(g: Graph, v: nat)
    ensures !Reachable(g, v) ==> PathLength(g, v) == 0
  {
  }
}
