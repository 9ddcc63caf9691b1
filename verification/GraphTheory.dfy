/**
 What the built graph guarantees: it is the rollout machine, node for state and
 edge for move, and it is graded, so the breadth-first distance of a node is the
 number of things that have happened when the rollout stands there.
 */
module GraphTheory {
  import opened Wrappers
  import opened Ordering
  import opened Rollout
  import opened Replay
  import opened Numbering
  import opened Machines
  import opened Graphs
  import opened Paths

  lemma RowMember(row: seq<Edge>, edges: seq<Edge>, i: nat, e: Edge)
    requires IsRow(row, edges, i)
    ensures e in row <==> e.src == i && e in edges
  {
    assert e in row <==> multiset(row)[e] > 0;
    assert e in edges <==> multiset(edges)[e] > 0;
  }

  /** The search sees exactly the moves of the machine. */
  lemma GraphSearchable(m: Machine, g: Graph)
    requires GraphOf(m, g)
    ensures Searchable(g)
    ensures forall e :: IsEdge(g, e) <==> IsStep(m, e)
  {
    hide IsNode, IsRow, IsStep;
    StartValid(m);
    EncodeRoundTrip(m, StartOf(m));
    StepsStayInside(m);
    forall i, e | 0 <= i < |g.adjacency| ensures e in g.adjacency[i] <==> e.src == i && IsStep(m, e) {
      RowMember(g.adjacency[i], g.edges, i, e);
    }
  }

  /**
   The built graph is the machine: states and node numbers are in bijection, each
   node describes its state, edges join exactly the states one move apart, no two
   edges run in parallel, and there are 3^W 2^D + A nodes.
   */
  lemma BuiltGraphIsMachine(m: Machine, g: Graph)
    requires GraphOf(m, g)
    ensures |g.nodes| == Pow(3, |m.progressions|) * Pow(2, |m.during|) + |m.after|
    ensures forall i :: 0 <= i < |g.nodes| ==> Valid(m, Decode(m, i)) && Encode(m, Decode(m, i)) == i
    ensures forall p :: Valid(m, p) ==>
      && Encode(m, p) < |g.nodes|
      && Decode(m, Encode(m, p)) == p
      && var s := g.nodes[Encode(m, p)];
         s.id == Encode(m, p) && CanonicalOf(LiveAt(m, p), s.live) && s.schemaState == SchemaStateAt(m, p)
    ensures forall p, q :: Valid(m, p) && Valid(m, q) ==>
      ((exists event :: Edge(Encode(m, p), Encode(m, q), event) in g.edges) <==>
       (exists move :: Enabled(m, p, move) && Next(m, p, move) == q))
    ensures NoParallelEdges(g.edges)
  {
    NodeCountFormula(m);
    forall i | 0 <= i < |g.nodes| ensures Valid(m, Decode(m, i)) && Encode(m, Decode(m, i)) == i {
      DecodeRoundTrip(m, i);
    }
    forall p | Valid(m, p)
      ensures Encode(m, p) < |g.nodes| && Decode(m, Encode(m, p)) == p
      ensures var s := g.nodes[Encode(m, p)];
              s.id == Encode(m, p) && CanonicalOf(LiveAt(m, p), s.live) && s.schemaState == SchemaStateAt(m, p)
    {
      NodeOf(m, g, p);
    }
    forall p, q | Valid(m, p) && Valid(m, q)
      ensures (exists event :: Edge(Encode(m, p), Encode(m, q), event) in g.edges) <==>
              (exists move :: Enabled(m, p, move) && Next(m, p, move) == q)
    {
      EdgeIffMove(m, g, p, q);
    }
  }

  lemma NodeOf(m: Machine, g: Graph, p: Progress)
    requires GraphOf(m, g) && Valid(m, p)
    ensures Encode(m, p) < |g.nodes| && Decode(m, Encode(m, p)) == p
    ensures var s := g.nodes[Encode(m, p)];
            s.id == Encode(m, p) && CanonicalOf(LiveAt(m, p), s.live) && s.schemaState == SchemaStateAt(m, p)
  {
    hide IsStep, IsAdjacency, CanonicalOf, SchemaStateAt, LiveAt, Encode, Decode;
    EncodeRoundTrip(m, p);
    assert IsNode(m, Encode(m, p), g.nodes[Encode(m, p)]);
  }

  lemma EdgeIffMove(m: Machine, g: Graph, p: Progress, q: Progress)
    requires GraphOf(m, g) && Valid(m, p) && Valid(m, q)
    ensures (exists event :: Edge(Encode(m, p), Encode(m, q), event) in g.edges) <==>
            (exists move :: Enabled(m, p, move) && Next(m, p, move) == q)
  {
    hide IsNode, IsAdjacency, Encode, Enabled, Next;
    if event :| Edge(Encode(m, p), Encode(m, q), event) in g.edges {
      var h: Hop :| IsHop(m, h) && Edge(Encode(m, p), Encode(m, q), event) == EdgeFor(m, h);
      EncodeInjective(m, h.p, p);
      EncodeInjective(m, Next(m, h.p, h.move), q);
    }
    if move :| Enabled(m, p, move) && Next(m, p, move) == q {
      var e := EdgeFor(m, Hop(p, move));
      assert IsStep(m, e);
      assert Edge(Encode(m, p), Encode(m, q), e.event) in g.edges;
    }
  }

  // ---- the order of a row ----

  lemma NoEdgeTwice(edges: seq<Edge>)
    requires NoParallelEdges(edges)
    ensures Distinct(edges)
  {
  }

  lemma NoParallelMembers(edges: seq<Edge>, a: Edge, b: Edge)
    requires NoParallelEdges(edges) && a in edges && b in edges && a.src == b.src && a.dst == b.dst
    ensures a == b
  {
    var i :| 0 <= i < |edges| && edges[i] == a;
    var j :| 0 <= j < |edges| && edges[j] == b;
    assert !(i < j) && !(j < i);
  }

  lemma RowAscends(edges: seq<Edge>, row: seq<Edge>, src: nat, j: nat, k: nat)
    requires NoParallelEdges(edges) && Sorted(EdgeLess, row) && IsRow(row, edges, src) && j < k < |row|
    ensures row[j].dst < row[k].dst
  {
    var a, b := row[j], row[k];
    RowMember(row, edges, src, a);
    RowMember(row, edges, src, b);
    assert a in row && b in row && !EdgeLess(b, a);
    NoEdgeTwice(edges);
    DistinctCounts(edges, a);
    assert multiset(row)[a] == multiset(edges)[a];
    if a.dst == b.dst {
      NoParallelMembers(edges, a, b);
      TwiceInMultiset(row, j, k);
    }
  }

  /**
   In a built graph the search meets the edges of a node by strictly ascending target:
   no two lead to one node, so event kinds and details never decide the order.
   */
  lemma BuiltRowsAscend(m: Machine, g: Graph)
    requires GraphOf(m, g)
    ensures RowsAscend(g)
  {
    hide IsNode, IsStep, EdgeLess, IsRow;
    forall i, j, k | 0 <= i < |g.adjacency| && 0 <= j < k < |g.adjacency[i]|
      ensures g.adjacency[i][j].dst < g.adjacency[i][k].dst
    {
      RowAscends(g.edges, g.adjacency[i], i, j, k);
    }
  }

  // ---- the size of a plan ----

  lemma {:induction false} PowGrows(b: nat, e: nat, f: nat)
    requires b >= 1 && e <= f
    ensures Pow(b, e) <= Pow(b, f)
    decreases f
  {
    if e < f {
      PowGrows(b, e, f - 1);
      assert Pow(b, f) == b * Pow(b, f - 1) && b * Pow(b, f - 1) >= Pow(b, f - 1);
    }
  }

  /**
   The plans that are built: 3^W 2^D states before the after-migrations must not exceed two
   hundred thousand. Without during-migrations that is up to 11 workloads; with one workload,
   up to 16 during-migrations.
   */
  lemma SizeLimit(m: Machine)
    requires ThreeSteps(m)
    ensures m.LatticeSize() <= MAX_GRAPH_NODES <==> Pow(3, |m.progressions|) * Pow(2, |m.during|) <= 200_000
    ensures m.during == [] ==> (m.LatticeSize() <= MAX_GRAPH_NODES <==> |m.progressions| <= 11)
    ensures |m.progressions| == 1 ==> (m.LatticeSize() <= MAX_GRAPH_NODES <==> |m.during| <= 16)
  {
    SizeOfThrees(m.Radix());
    PowersHere();
    if m.during == [] {
      if |m.progressions| <= 11 { PowGrows(3, |m.progressions|, 11); } else { PowGrows(3, 12, |m.progressions|); }
    }
    if |m.progressions| == 1 {
      if |m.during| <= 16 { PowGrows(2, |m.during|, 16); } else { PowGrows(2, 17, |m.during|); }
    }
  }

  lemma PowersHere()
    ensures Pow(3, 1) == 3 && Pow(2, 0) == 1 && Pow(3, 11) == 177_147 && Pow(3, 12) == 531_441
    ensures Pow(2, 16) == 65_536 && Pow(2, 17) == 131_072
  {
    assert Pow(3, 4) == 81 && Pow(3, 8) == 6_561 && Pow(3, 10) == 59_049;
    assert Pow(2, 4) == 16 && Pow(2, 8) == 256 && Pow(2, 12) == 4_096 && Pow(2, 14) == 16_384;
  }

  // ---- what an edge tells ----

  /** The text names a version, as its service and version joined by an at sign. */
  ghost predicate Names(detail: string, lv: LiveVersion) {
    exists before, after :: detail == before + (lv.serviceName + "@" + lv.version) + after
  }

  /**
   The event of a move: a replica becomes ready exactly when the step brings the new
   version, the last one terminates exactly when it takes the old one away, and a
   migration's commit names it.
   */
  ghost predicate Tells(workloads: seq<WorkloadChange>, m: Machine, h: Hop)
    requires ThreeSteps(m) && IsHop(m, h) && |workloads| == |m.progressions|
  {
    var event := EventOf(m, h.p, h.move);
    match h.move
    case Advance(w) =>
      var was, next := m.progressions[w][h.p.steps[w]].live, m.progressions[w][h.p.steps[w] + 1].live;
      var before, after := Old(workloads[w]), New(workloads[w]);
      && (event.kind == EventNewReplicaReady || event.kind == EventOldReplicaTerminated)
      && (event.kind == EventNewReplicaReady ==> Names(event.detail, after))
      && (event.kind == EventOldReplicaTerminated ==> Names(event.detail, before))
      && (before != after ==>
            && (event.kind == EventNewReplicaReady <==> after in next && after !in was)
            && (event.kind == EventOldReplicaTerminated <==> before in was && before !in next))
    case CommitDuring(k) =>
      event == TransitionEvent(EventMigrationOpCommitted, "migration \"" + m.during[k].id + "\" commits")
    case CommitAfter =>
      event == TransitionEvent(EventMigrationOpCommitted, "migration \"" + m.after[h.p.after].id + "\" commits")
  }

  lemma HopTells(workloads: seq<WorkloadChange>, m: Machine, h: Hop)
    requires ThreeSteps(m) && IsHop(m, h) && m.progressions == ProgressionsOf(workloads)
    ensures Tells(workloads, m, h)
  {
    if h.move.Advance? {
      var wc := workloads[h.move.w];
      ProgressionTells(wc, h.p.steps[h.move.w]);
    }
  }

  lemma ProgressionTells(wc: WorkloadChange, step: nat)
    requires step + 1 < 3
    ensures var event := Progression(wc)[step + 1].eventFromPrev;
            && (event.kind == EventNewReplicaReady ==> Names(event.detail, New(wc)))
            && (event.kind == EventOldReplicaTerminated ==> Names(event.detail, Old(wc)))
  {
    hide Label;
    var before, after := Label(Old(wc)), Label(New(wc));
    NamesIt("a ", New(wc), " replica becomes ready while " + before + " remains live");
    NamesIt("the last ", Old(wc), " replica terminates");
    NamesIt("", Old(wc), " fully terminates before " + after + " starts");
    NamesIt("", New(wc), " becomes ready");
    assert "a " + after + " replica becomes ready while " + before + " remains live" ==
           "a " + after + (" replica becomes ready while " + before + " remains live");
    assert before + " fully terminates before " + after + " starts" == "" + before + (" fully terminates before " + after + " starts");
    assert after + " becomes ready" == "" + after + " becomes ready";
  }

  lemma NamesIt(before: string, lv: LiveVersion, after: string)
    ensures Names(before + Label(lv) + after, lv)
  {
  }

  /** Every edge of a built graph is one move, and its event tells which. */
  lemma EdgesTell(workloads: seq<WorkloadChange>, m: Machine, g: Graph, e: Edge) returns (h: Hop)
    requires GraphOf(m, g) && m.progressions == ProgressionsOf(workloads) && e in g.edges
    ensures IsHop(m, h) && e == EdgeFor(m, h) && Tells(workloads, m, h)
  {
    hide IsNode, IsAdjacency, Encode, Tells;
    h :| IsHop(m, h) && e == EdgeFor(m, h);
    HopTells(workloads, m, h);
  }

  // ---- the grading ----

  /** Every run to a node is as long as the node's rank. */
  lemma {:induction false} RunLengthIsRank(m: Machine, g: Graph, path: seq<Edge>, v: nat)
    requires GraphOf(m, g) && IsPath(g, path, v)
    ensures v < |g.nodes| && |path| == Rank(Decode(m, v))
    decreases |path|
  {
    hide IsNode, IsAdjacency, Encode, Decode, Enabled, Next, Rank;
    GraphSearchable(m, g);
    if path == [] {
      StartValid(m);
      EncodeRoundTrip(m, StartOf(m));
      RankOfEnds(m);
    } else {
      var last := path[|path| - 1];
      RunLengthIsRank(m, g, path[..|path| - 1], last.src);
      var h: Hop :| IsHop(m, h) && last == EdgeFor(m, h);
      EncodeRoundTrip(m, h.p);
      EncodeRoundTrip(m, Next(m, h.p, h.move));
      MoveRaisesRank(m, h.p, h.move);
    }
  }

  /** A run to any state, following predecessors back to the start. */
  lemma {:induction false} RunTo(m: Machine, g: Graph, p: Progress) returns (path: seq<Edge>)
    requires GraphOf(m, g) && Valid(m, p)
    ensures IsPath(g, path, Encode(m, p))
    decreases Rank(p)
  {
    hide IsNode, IsAdjacency, Encode, Enabled, Next, Rank;
    GraphSearchable(m, g);
    if p == StartOf(m) {
      path := [];
    } else {
      var q, move := Predecessor(m, p);
      MoveRaisesRank(m, q, move);
      var prefix := RunTo(m, g, q);
      var e := EdgeFor(m, Hop(q, move));
      assert IsStep(m, e);
      path := prefix + [e];
      assert path[..|path| - 1] == prefix;
    }
  }

  lemma {:induction false} RankBound(m: Machine, p: Progress)
    requires ThreeSteps(m) && Valid(m, p)
    ensures Rank(p) <= Rank(TargetOf(m))
  {
    RankOfEnds(m);
    SumBound(p.steps, 2);
    CountBound(p.during);
  }

  lemma {:induction false} SumBound(s: seq<nat>, x: nat)
    requires forall w :: 0 <= w < |s| ==> s[w] <= x
    ensures Sum(s) <= x * |s|
    decreases |s|
  {
    if s != [] {
      SumBound(s[..|s| - 1], x);
      assert x * |s| == x * (|s| - 1) + x;
    }
  }

  lemma {:induction false} CountBound(bits: seq<bool>)
    ensures Count(bits) <= |bits|
    decreases |bits|
  {
    if bits != [] {
      CountBound(bits[..|bits| - 1]);
    }
  }

  /** Any run to a state extends to a run to the target. */
  lemma {:induction false} RunOnToTarget(m: Machine, g: Graph, p: Progress, path: seq<Edge>) returns (full: seq<Edge>)
    requires GraphOf(m, g) && Valid(m, p) && IsPath(g, path, Encode(m, p))
    ensures IsPath(g, full, g.target) && path <= full
    decreases Rank(TargetOf(m)) - Rank(p)
  {
    hide IsNode, IsAdjacency, Encode, Enabled, Next, Rank;
    GraphSearchable(m, g);
    if p == TargetOf(m) {
      full := path;
    } else {
      var move := Successor(m, p);
      var q := Next(m, p, move);
      MoveRaisesRank(m, p, move);
      RankBound(m, q);
      var e := EdgeFor(m, Hop(p, move));
      assert IsStep(m, e);
      assert (path + [e])[..|path|] == path;
      full := RunOnToTarget(m, g, q, path + [e]);
    }
  }

  ghost predicate OnRunToTarget(g: Graph, v: nat) {
    exists path, full :: IsPath(g, path, v) && IsPath(g, full, g.target) && path <= full
  }

  /**
   The graph is graded: every edge raises the rank by one, every node is at
   distance its rank and lies on a run to the target, which is 2W + D + A away.
   */
  lemma GradedGraph(m: Machine, g: Graph)
    requires GraphOf(m, g)
    ensures forall e :: e in g.edges ==>
      e.src < |g.nodes| && e.dst < |g.nodes| && Rank(Decode(m, e.dst)) == Rank(Decode(m, e.src)) + 1
    ensures forall v :: 0 <= v < |g.nodes| ==> PathLength(g, v) == Rank(Decode(m, v)) && OnRunToTarget(g, v)
    ensures PathLength(g, g.target) == 2 * |m.progressions| + |m.during| + |m.after|
  {
    hide IsNode, IsAdjacency, Encode, Decode, Rank, IsStep, PathLength, OnRunToTarget, IsPath;
    forall e | e in g.edges
      ensures e.src < |g.nodes| && e.dst < |g.nodes| && Rank(Decode(m, e.dst)) == Rank(Decode(m, e.src)) + 1
    {
      StepRaisesRank(m, e);
    }
    forall v: nat | v < |g.nodes| ensures PathLength(g, v) == Rank(Decode(m, v)) && OnRunToTarget(g, v) {
      var path := DistanceIsRank(m, g, v);
      EveryNodeOnRun(m, g, v, path);
    }
    StartValid(m);
    EncodeRoundTrip(m, TargetOf(m));
    RankOfEnds(m);
  }

  lemma StepRaisesRank(m: Machine, e: Edge)
    requires ThreeSteps(m) && IsStep(m, e)
    ensures e.src < m.NodeCount() && e.dst < m.NodeCount()
    ensures Rank(Decode(m, e.dst)) == Rank(Decode(m, e.src)) + 1
  {
    hide Encode, Decode, Enabled, Next, Rank;
    var h: Hop :| IsHop(m, h) && e == EdgeFor(m, h);
    EncodeRoundTrip(m, h.p);
    EncodeRoundTrip(m, Next(m, h.p, h.move));
    MoveRaisesRank(m, h.p, h.move);
  }

  lemma EveryNodeOnRun(m: Machine, g: Graph, v: nat, path: seq<Edge>)
    requires GraphOf(m, g) && v < |g.nodes| && IsPath(g, path, v)
    ensures OnRunToTarget(g, v)
  {
    hide IsNode, IsAdjacency, Encode, Decode, IsStep, IsPath;
    DecodeRoundTrip(m, v);
    var full := RunOnToTarget(m, g, Decode(m, v), path);
  }

  lemma DistanceIsRank(m: Machine, g: Graph, v: nat) returns (path: seq<Edge>)
    requires GraphOf(m, g) && v < |g.nodes|
    ensures IsPath(g, path, v)
    ensures IsDistance(g, v, Rank(Decode(m, v))) && PathLength(g, v) == Rank(Decode(m, v))
  {
    hide IsNode, IsAdjacency, Encode, Decode, Enabled, Next, Rank;
    DecodeRoundTrip(m, v);
    path := RunTo(m, g, Decode(m, v));
    forall other | IsPath(g, other, v) ensures |other| == Rank(Decode(m, v)) {
      RunLengthIsRank(m, g, other, v);
    }
    DistanceUnique(g, v, Rank(Decode(m, v)));
  }
}
