/**
 Repeated builds and searches from the same plan give the same results: nodes, shortest
 paths, verdicts, gaps and counterexamples are determined by the plan and the contract files.
 */
module Determinism {
  import opened Wrappers
  import opened Verdicts
  import opened Rollout
  import opened Machines
  import opened Graphs
  import opened GraphTheory
  import opened Paths
  import opened Checks
  import opened Engine
  import opened Pipeline

  lemma {:induction false} SamePaths(m: Machine, g: Graph, h: Graph, path: seq<Edge>, v: nat)
    requires GraphOf(m, g) && GraphOf(m, h)
    ensures IsPath(g, path, v) <==> IsPath(h, path, v)
    decreases |path|
  {
    GraphSearchable(m, g);
    GraphSearchable(m, h);
    hide IsStep, IsNode, IsAdjacency, IsEdge;
    if path != [] {
      var last := path[|path| - 1];
      assert IsEdge(g, last) <==> IsEdge(h, last);
      SamePaths(m, g, h, path[..|path| - 1], last.src);
    }
  }

  /** The path the search returns depends on the plan alone. */
  lemma RunDetermined(m: Machine, g: Graph, h: Graph, v: nat, a: seq<TransitionEvent>, b: seq<TransitionEvent>)
    requires GraphOf(m, g) && GraphOf(m, h) && IsLeastRun(g, a, v) && IsLeastRun(h, b, v)
    ensures a == b
  {
    var p :| IsLeastPath(g, p, v) && Labels(p) == a;
    var q :| IsLeastPath(h, q, v) && Labels(q) == b;
    hide GraphOf, PathLess;
    forall path ensures IsPath(g, path, v) <==> IsPath(h, path, v) {
      SamePaths(m, g, h, path, v);
    }
    assert IsLeastPath(g, q, v);
    GraphSearchable(m, g);
    BuiltRowsAscend(m, g);
    LeastPathUnique(g, p, q, v);
  }

  /** Whatever the search returned in two graphs of one machine, it returned the same. */
  lemma PathDetermined(m: Machine, g: Graph, h: Graph, v: nat, a: seq<TransitionEvent>, b: seq<TransitionEvent>)
    requires GraphOf(m, g) && GraphOf(m, h) && v < |g.nodes| && v < |h.nodes| && LeadsTo(g, a, v) && LeadsTo(h, b, v)
    ensures a == b && PathLength(g, v) == PathLength(h, v)
  {
    hide GraphOf, IsLeastRun, IsShortestRun, RowsAscend;
    var p := DistanceIsRank(m, g, v);
    var q := DistanceIsRank(m, h, v);
    BuiltRowsAscend(m, g);
    BuiltRowsAscend(m, h);
    RunDetermined(m, g, h, v, a, b);
  }

  /** The counterexample to show, among given bad states, is determined: which state, and the path to it. */
  lemma CounterexampleDetermined(m: Machine, g: Graph, h: Graph, ids: iset<nat>, c: Counterexample, d: Counterexample)
    requires GraphOf(m, g) && GraphOf(m, h) && BestCounterexample(g, ids, c) && BestCounterexample(h, ids, d)
    ensures c == d
  {
    hide GraphOf, LeadsTo;
    SameNodes(m, g, h);
    var v, w := c.violatingState.id, d.violatingState.id;
    var p := DistanceIsRank(m, g, v);
    var q := DistanceIsRank(m, h, v);
    var r := DistanceIsRank(m, g, w);
    var s := DistanceIsRank(m, h, w);
    assert Nearer(g, v, w) && Nearer(h, w, v);
    PathDetermined(m, g, h, v, c.path, d.path);
  }

  /** The state shown is a bad one before which least has happened, and of those the lowest numbered. */
  lemma CounterexampleIsEarliest(m: Machine, g: Graph, ids: iset<nat>, c: Counterexample, id: nat)
    requires GraphOf(m, g) && BestCounterexample(g, ids, c) && id in ids && id < |g.nodes|
    ensures var shown := c.violatingState.id;
            || Rank(Decode(m, shown)) < Rank(Decode(m, id))
            || (Rank(Decode(m, shown)) == Rank(Decode(m, id)) && shown <= id)
  {
    hide GraphOf, LeadsTo, Rank, Decode;
    var p := DistanceIsRank(m, g, c.violatingState.id);
    var q := DistanceIsRank(m, g, id);
    assert Nearer(g, c.violatingState.id, id);
  }

  /** Two right diagnostics of one check on graphs of one plan agree in verdict, gaps and counterexample. */
  lemma DiagnosticDetermined(m: Machine, g: Graph, h: Graph, check: Check, vacuousWhenNoOp: bool, services: Services,
                             a: Diagnostic, b: Diagnostic)
    requires GraphOf(m, g) && GraphOf(m, h)
    requires Decides(check, vacuousWhenNoOp, g, services, a) && Decides(check, vacuousWhenNoOp, h, services, b)
    ensures a.verdict == b.verdict && a.missingEvidence == b.missingEvidence && a.counterexample == b.counterexample
  {
    hide GraphOf, CheckVerdict, GapIn, BestCounterexample;
    SameNodes(m, g, h);
    assert forall gap :: gap in a.missingEvidence <==> gap in b.missingEvidence;
    if a.verdict == VerdictUnsafe {
      CounterexampleDetermined(m, g, h, ViolatingIDs(check, services, g.nodes), a.counterexample.value, b.counterexample.value);
    }
  }
}
