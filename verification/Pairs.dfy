/**
 RP-DB-001..005 see a graph only as its set of (live version, schema state) pairs.
 From that: independence of the rollout strategy, a small check that stands in for
 the whole graph, and monotonicity in the set of pairs.
 */
module Pairs {
  import opened Wrappers
  import opened Verdicts
  import opened Schemas
  import opened Rollout
  import opened Replay
  import opened Numbering
  import opened Machines
  import opened Graphs
  import opened GraphTheory
  import opened Checks

  ghost predicate Occurs(nodes: seq<RolloutState>, lv: LiveVersion, ss: SchemaState) {
    exists s :: s in nodes && lv in s.live && s.schemaState == ss
  }

  /** Every schema state of the list occurs with some live version. */
  ghost predicate Covered(nodes: seq<RolloutState>) {
    forall s :: s in nodes ==> exists lv :: Occurs(nodes, lv, s.schemaState)
  }

  ghost predicate PairsWithin(a: seq<RolloutState>, b: seq<RolloutState>) {
    forall lv, ss :: Occurs(a, lv, ss) ==> Occurs(b, lv, ss)
  }

  // ---- verdicts from pairs ----

  ghost predicate PairViolates(check: Check, services: Services, lv: LiveVersion, ss: SchemaState) {
    && !ss.indeterminate && KeyOf(lv) in services
    && exists col, cause :: Offends(check, services[KeyOf(lv)], ss, col, cause)
  }

  ghost predicate PairGap(check: Check, services: Services, lv: LiveVersion, ss: SchemaState) {
    || ss.indeterminate
    || (exists gap :: PriorTypeGap(check, ss, gap))
    || (exists gap :: VersionGap(check, services, lv, ss, gap))
  }

  lemma ViolationFromPairs(check: Check, services: Services, nodes: seq<RolloutState>)
    ensures AnyViolation(check, services, nodes) <==>
      exists lv, ss :: Occurs(nodes, lv, ss) && PairViolates(check, services, lv, ss)
  {
    hide Offends;
    if v :| ViolationIn(check, services, nodes, v) {
      var s :| s in nodes && IsViolation(check, services, s, v);
      assert Occurs(nodes, v.live, s.schemaState) && PairViolates(check, services, v.live, s.schemaState);
    }
    if lv, ss :| Occurs(nodes, lv, ss) && PairViolates(check, services, lv, ss) {
      var s :| s in nodes && lv in s.live && s.schemaState == ss;
      var col, cause :| Offends(check, services[KeyOf(lv)], ss, col, cause);
      assert IsViolation(check, services, s, Violation(s.id, lv, col, cause));
      assert ViolationIn(check, services, nodes, Violation(s.id, lv, col, cause));
    }
  }

  lemma GapFromPair(check: Check, services: Services, nodes: seq<RolloutState>, lv: LiveVersion, ss: SchemaState)
    requires Occurs(nodes, lv, ss) && PairGap(check, services, lv, ss)
    ensures AnyGap(check, services, nodes)
  {
    hide VersionGap, PriorTypeGap;
    var s :| s in nodes && lv in s.live && s.schemaState == ss;
    var gap: Gap;
    if ss.indeterminate {
      gap := UnknownSchema(s.id);
    } else if g :| PriorTypeGap(check, ss, g) {
      gap := g;
    } else {
      gap :| VersionGap(check, services, lv, ss, gap);
    }
    assert IsGap(check, services, s, gap);
    assert GapIn(check, services, nodes, gap);
  }

  lemma GapOfState(check: Check, services: Services, s: RolloutState, gap: Gap) returns (lv: Option<LiveVersion>)
    requires IsGap(check, services, s, gap)
    ensures lv.Some? ==> lv.value in s.live && PairGap(check, services, lv.value, s.schemaState)
    ensures lv.None? ==> forall x :: PairGap(check, services, x, s.schemaState)
  {
    hide VersionGap, PriorTypeGap;
    lv := None;
    if !s.schemaState.indeterminate && !PriorTypeGap(check, s.schemaState, gap) {
      var x :| x in s.live && VersionGap(check, services, x, s.schemaState, gap);
      lv := Some(x);
    }
  }

  lemma PairFromGap(check: Check, services: Services, nodes: seq<RolloutState>) returns (lv: LiveVersion, ss: SchemaState)
    requires Covered(nodes) && AnyGap(check, services, nodes)
    ensures Occurs(nodes, lv, ss) && PairGap(check, services, lv, ss)
  {
    hide IsGap, PairGap;
    var gap :| GapIn(check, services, nodes, gap);
    var s :| s in nodes && IsGap(check, services, s, gap);
    ss := s.schemaState;
    var found := GapOfState(check, services, s, gap);
    if found.Some? {
      lv := found.value;
    } else {
      lv :| Occurs(nodes, lv, ss);
    }
  }

  lemma CommittedPair(nodes: seq<RolloutState>, lv: LiveVersion, ss: SchemaState)
    requires Occurs(nodes, lv, ss) && ss.committedOps != []
    ensures AnyCommittedOp(nodes)
  {
    var s :| s in nodes && lv in s.live && s.schemaState == ss;
    var j :| 0 <= j < |nodes| && nodes[j] == s;
  }

  lemma OpFromPair(a: seq<RolloutState>, b: seq<RolloutState>)
    requires Covered(a) && PairsWithin(a, b)
    ensures AnyCommittedOp(a) ==> AnyCommittedOp(b)
  {
    hide Occurs;
    if i :| 0 <= i < |a| && a[i].schemaState.committedOps != [] {
      var s := a[i];
      assert s in a;
      var lv :| Occurs(a, lv, s.schemaState);
      CommittedPair(b, lv, s.schemaState);
    }
  }

  /** Fewer pairs, no worse verdict. */
  lemma FewerPairsNoWorse(check: Check, vacuousWhenNoOp: bool, services: Services, a: seq<RolloutState>, b: seq<RolloutState>)
    requires Covered(a) && PairsWithin(a, b)
    ensures Dominance(CheckVerdict(check, vacuousWhenNoOp, services, a)) <=
            Dominance(CheckVerdict(check, vacuousWhenNoOp, services, b))
  {
    hide AnyViolation, AnyGap, Occurs, PairViolates, PairGap;
    OpFromPair(a, b);
    ViolationFromPairs(check, services, a);
    ViolationFromPairs(check, services, b);
    if AnyGap(check, services, a) {
      var lv, ss := PairFromGap(check, services, a);
      GapFromPair(check, services, b, lv, ss);
    }
  }

  /** The verdict is a function of the set of pairs. */
  lemma SamePairsSameVerdict(check: Check, vacuousWhenNoOp: bool, services: Services, a: seq<RolloutState>, b: seq<RolloutState>)
    requires Covered(a) && Covered(b) && PairsWithin(a, b) && PairsWithin(b, a)
    ensures CheckVerdict(check, vacuousWhenNoOp, services, a) == CheckVerdict(check, vacuousWhenNoOp, services, b)
  {
    hide CheckVerdict;
    FewerPairsNoWorse(check, vacuousWhenNoOp, services, a, b);
    FewerPairsNoWorse(check, vacuousWhenNoOp, services, b, a);
  }

  // ---- the pairs of a plan's graph ----

  /** The schema state with exactly the during-migrations of bits and the first n after-migrations committed. */
  ghost function StateWith(m: Machine, bits: seq<bool>, n: nat): SchemaState
    requires |bits| == |m.during| && n <= |m.after|
  {
    Commit(m.base, Trail(Select(m.during, bits) + m.after[..n]))
  }

  ghost predicate DuringPair(m: Machine, workloads: seq<WorkloadChange>, lv: LiveVersion, ss: SchemaState, w: nat, bits: seq<bool>) {
    w < |workloads| && |bits| == |m.during|
    && (lv == Old(workloads[w]) || lv == New(workloads[w])) && ss == StateWith(m, bits, 0)
  }

  ghost predicate AfterPair(m: Machine, workloads: seq<WorkloadChange>, lv: LiveVersion, ss: SchemaState, w: nat, n: nat) {
    w < |workloads| && 0 < n <= |m.after| && lv == New(workloads[w]) && ss == StateWith(m, m.AllDuring(), n)
  }

  /**
   The pairs of a rollout, with no mention of how versions coexist: before completion
   either version of a workload with any set of during-migrations, after it the new
   versions with each prefix of the after-migrations.
   */
  ghost predicate PlanPair(m: Machine, workloads: seq<WorkloadChange>, lv: LiveVersion, ss: SchemaState) {
    || (exists w: nat, bits: seq<bool> :: DuringPair(m, workloads, lv, ss, w, bits))
    || (exists w: nat, n: nat :: AfterPair(m, workloads, lv, ss, w, n))
  }

  /** The graph was built for these workload changes. */
  ghost predicate BuiltFor(m: Machine, workloads: seq<WorkloadChange>, g: Graph) {
    m.progressions == ProgressionsOf(workloads) && GraphOf(m, g)
  }

  lemma NodePair(m: Machine, workloads: seq<WorkloadChange>, p: Progress, lv: LiveVersion)
    requires m.progressions == ProgressionsOf(workloads) && ThreeSteps(m) && Valid(m, p)
    requires lv in LiveAt(m, p)
    ensures PlanPair(m, workloads, lv, SchemaStateAt(m, p))
  {
    hide Commit, Trail, Select;
    LiveForMember(m.progressions, p.steps, lv);
    var w :| 0 <= w < |p.steps| && lv in m.progressions[w][p.steps[w]].live;
    var ss := SchemaStateAt(m, p);
    if p.after == 0 {
      assert DuringPair(m, workloads, lv, ss, w, p.during);
    } else {
      assert p.steps[w] == 2;
      assert AfterPair(m, workloads, lv, ss, w, p.after);
    }
  }

  lemma DuringProgress(m: Machine, workloads: seq<WorkloadChange>, lv: LiveVersion, ss: SchemaState, w: nat, bits: seq<bool>)
    returns (p: Progress)
    requires m.progressions == ProgressionsOf(workloads) && ThreeSteps(m) && DuringPair(m, workloads, lv, ss, w, bits)
    ensures Valid(m, p) && |p.steps| == |m.progressions| && lv in LiveAt(m, p) && SchemaStateAt(m, p) == ss
  {
    hide Commit, Trail, Select, LiveFor;
    var step := if lv == Old(workloads[w]) then 0 else 2;
    p := Progress(m.NoStep()[w := step], bits, 0);
    assert lv in m.progressions[w][p.steps[w]].live;
    LiveForMember(m.progressions, p.steps, lv);
  }

  lemma AfterProgress(m: Machine, workloads: seq<WorkloadChange>, lv: LiveVersion, ss: SchemaState, w: nat, n: nat)
    returns (p: Progress)
    requires m.progressions == ProgressionsOf(workloads) && ThreeSteps(m) && AfterPair(m, workloads, lv, ss, w, n)
    ensures Valid(m, p) && |p.steps| == |m.progressions| && lv in LiveAt(m, p) && SchemaStateAt(m, p) == ss
  {
    hide Commit, Trail, Select, LiveFor;
    p := Progress(m.LastSteps(), m.AllDuring(), n);
    assert lv in m.progressions[w][p.steps[w]].live;
    LiveForMember(m.progressions, p.steps, lv);
  }

  lemma PairNode(m: Machine, workloads: seq<WorkloadChange>, g: Graph, lv: LiveVersion, ss: SchemaState)
    requires BuiltFor(m, workloads, g) && PlanPair(m, workloads, lv, ss)
    ensures Occurs(g.nodes, lv, ss)
  {
    hide IsStep, IsAdjacency, IsNode, Encode, Decode, DuringPair, AfterPair, Valid, LiveAt, SchemaStateAt;
    var p: Progress;
    if w: nat, bits: seq<bool> :| DuringPair(m, workloads, lv, ss, w, bits) {
      p := DuringProgress(m, workloads, lv, ss, w, bits);
    } else {
      var w: nat, n: nat :| AfterPair(m, workloads, lv, ss, w, n);
      p := AfterProgress(m, workloads, lv, ss, w, n);
    }
    NodeOf(m, g, p);
    assert g.nodes[Encode(m, p)] in g.nodes;
  }

  /** The pairs of a built graph are the pairs of its plan, and every schema state has one. */
  lemma GraphPairs(m: Machine, workloads: seq<WorkloadChange>, g: Graph)
    requires BuiltFor(m, workloads, g)
    ensures forall lv, ss :: Occurs(g.nodes, lv, ss) <==> PlanPair(m, workloads, lv, ss)
    ensures |workloads| > 0 ==> Covered(g.nodes)
  {
    hide IsStep, IsAdjacency, Encode, Decode, PlanPair, SchemaStateAt, LiveAt, Valid;
    forall lv, ss ensures Occurs(g.nodes, lv, ss) <==> PlanPair(m, workloads, lv, ss) {
      if Occurs(g.nodes, lv, ss) {
        var s :| s in g.nodes && lv in s.live && s.schemaState == ss;
        var i :| 0 <= i < |g.nodes| && g.nodes[i] == s;
        assert IsNode(m, i, s);
        DecodeRoundTrip(m, i);
        NodePair(m, workloads, Decode(m, i), lv);
      }
      if PlanPair(m, workloads, lv, ss) {
        PairNode(m, workloads, g, lv, ss);
      }
    }
    if |workloads| > 0 {
      forall s | s in g.nodes ensures exists lv :: Occurs(g.nodes, lv, s.schemaState) {
        var i :| 0 <= i < |g.nodes| && g.nodes[i] == s;
        assert IsNode(m, i, s);
        DecodeRoundTrip(m, i);
        StatePair(m, workloads, Decode(m, i));
        PairNode(m, workloads, g, New(workloads[0]), s.schemaState);
      }
    }
  }

  lemma StatePair(m: Machine, workloads: seq<WorkloadChange>, p: Progress)
    requires m.progressions == ProgressionsOf(workloads) && ThreeSteps(m) && Valid(m, p) && |workloads| > 0
    ensures PlanPair(m, workloads, New(workloads[0]), SchemaStateAt(m, p))
  {
    hide Commit, Trail, Select;
    if p.after == 0 {
      assert DuringPair(m, workloads, New(workloads[0]), SchemaStateAt(m, p), 0, p.during);
    } else {
      assert AfterPair(m, workloads, New(workloads[0]), SchemaStateAt(m, p), 0, p.after);
    }
  }

  // ---- the small check ----

  /**
   One state per workload and set of during-migrations, with both versions live,
   and one per after-migration: W 2^D + A states.
   */
  ghost function CompactNodes(m: Machine, workloads: seq<WorkloadChange>): (nodes: seq<RolloutState>)
    ensures |nodes| == |workloads| * Pow(2, |m.during|) + |m.after|
  {
    var v := Pow(2, |m.during|);
    PowPositive(2, |m.during|);
    seq(|workloads| * v, i requires 0 <= i < |workloads| * v => CompactState(m, workloads, i))
    + seq(|m.after|, n requires 0 <= n < |m.after| =>
        RolloutState(|workloads| * v + n, NewVersions(workloads), StateWith(m, m.AllDuring(), n + 1)))
  }

  ghost function CompactState(m: Machine, workloads: seq<WorkloadChange>, i: nat): RolloutState
    requires i < |workloads| * Pow(2, |m.during|)
  {
    var v := Pow(2, |m.during|);
    PowPositive(2, |m.during|);
    QuotientBound(i, v, |workloads|);
    RolloutState(i, [Old(workloads[i / v]), New(workloads[i / v])], StateWith(m, Bits(i % v, |m.during|), 0))
  }

  function NewVersions(workloads: seq<WorkloadChange>): seq<LiveVersion> {
    seq(|workloads|, w requires 0 <= w < |workloads| => New(workloads[w]))
  }

  lemma CompactHasDuring(m: Machine, workloads: seq<WorkloadChange>, lv: LiveVersion, ss: SchemaState, w: nat, bits: seq<bool>)
    requires DuringPair(m, workloads, lv, ss, w, bits)
    ensures Occurs(CompactNodes(m, workloads), lv, ss)
  {
    hide Commit, Trail, Select;
    var v := Pow(2, |m.during|);
    MaskRoundTrip(bits);
    DivModUnique(w, v, Mask(bits));
    PairBound(w, v, Mask(bits), |workloads|);
    var i := w * v + Mask(bits);
    assert CompactNodes(m, workloads)[i] == CompactState(m, workloads, i);
    assert CompactNodes(m, workloads)[i] in CompactNodes(m, workloads);
  }

  lemma CompactHasAfter(m: Machine, workloads: seq<WorkloadChange>, lv: LiveVersion, ss: SchemaState, w: nat, n: nat)
    requires AfterPair(m, workloads, lv, ss, w, n)
    ensures Occurs(CompactNodes(m, workloads), lv, ss)
  {
    hide Commit, Trail, Select, Pow;
    var i := |workloads| * Pow(2, |m.during|) + (n - 1);
    var nodes := CompactNodes(m, workloads);
    assert nodes[i].schemaState == ss;
    assert NewVersions(workloads)[w] == lv;
    assert nodes[i] in nodes;
  }

  lemma CompactOnlyPairs(m: Machine, workloads: seq<WorkloadChange>, i: nat, lv: LiveVersion)
    requires i < |CompactNodes(m, workloads)| && lv in CompactNodes(m, workloads)[i].live
    ensures PlanPair(m, workloads, lv, CompactNodes(m, workloads)[i].schemaState)
  {
    hide Commit, Trail, Select;
    var v := Pow(2, |m.during|);
    var nodes := CompactNodes(m, workloads);
    PowPositive(2, |m.during|);
    if i < |workloads| * v {
      QuotientBound(i, v, |workloads|);
      assert nodes[i] == CompactState(m, workloads, i);
      assert DuringPair(m, workloads, lv, nodes[i].schemaState, i / v, Bits(i % v, |m.during|));
    } else {
      var w :| 0 <= w < |workloads| && NewVersions(workloads)[w] == lv;
      assert AfterPair(m, workloads, lv, nodes[i].schemaState, w, i - |workloads| * v + 1);
    }
  }

  lemma CompactPairs(m: Machine, workloads: seq<WorkloadChange>)
    ensures forall lv, ss :: Occurs(CompactNodes(m, workloads), lv, ss) <==> PlanPair(m, workloads, lv, ss)
    ensures |workloads| > 0 ==> Covered(CompactNodes(m, workloads))
  {
    hide CompactNodes, DuringPair, AfterPair;
    var nodes := CompactNodes(m, workloads);
    forall lv, ss ensures Occurs(nodes, lv, ss) <==> PlanPair(m, workloads, lv, ss) {
      if Occurs(nodes, lv, ss) {
        var s :| s in nodes && lv in s.live && s.schemaState == ss;
        var i :| 0 <= i < |nodes| && nodes[i] == s;
        CompactOnlyPairs(m, workloads, i, lv);
      }
      if w: nat, bits: seq<bool> :| DuringPair(m, workloads, lv, ss, w, bits) {
        CompactHasDuring(m, workloads, lv, ss, w, bits);
      }
      if w: nat, n: nat :| AfterPair(m, workloads, lv, ss, w, n) {
        CompactHasAfter(m, workloads, lv, ss, w, n);
      }
    }
    if |workloads| > 0 {
      forall s | s in nodes ensures exists lv :: Occurs(nodes, lv, s.schemaState) {
        var i :| 0 <= i < |nodes| && nodes[i] == s;
        var lv := CompactLive(m, workloads, i);
        assert Occurs(nodes, lv, s.schemaState);
      }
    }
  }

  lemma CompactLive(m: Machine, workloads: seq<WorkloadChange>, i: nat) returns (lv: LiveVersion)
    requires |workloads| > 0 && i < |CompactNodes(m, workloads)|
    ensures lv in CompactNodes(m, workloads)[i].live
  {
    hide Commit, Trail, Select;
    if i < |workloads| * Pow(2, |m.during|) {
      assert CompactNodes(m, workloads)[i] == CompactState(m, workloads, i);
      lv := CompactState(m, workloads, i).live[0];
    } else {
      lv := NewVersions(workloads)[0];
    }
  }

  /** Scanning W 2^D + A states decides RP-DB-001..005 exactly as scanning all 3^W 2^D + A nodes does. */
  lemma CompactCheckDecides(m: Machine, workloads: seq<WorkloadChange>, g: Graph, check: Check, vacuousWhenNoOp: bool, services: Services)
    requires BuiltFor(m, workloads, g) && |workloads| > 0
    ensures CheckVerdict(check, vacuousWhenNoOp, services, CompactNodes(m, workloads)) ==
            CheckVerdict(check, vacuousWhenNoOp, services, g.nodes)
  {
    hide CompactNodes, CheckVerdict, PlanPair, Occurs, Covered;
    GraphPairs(m, workloads, g);
    CompactPairs(m, workloads);
    SamePairsSameVerdict(check, vacuousWhenNoOp, services, CompactNodes(m, workloads), g.nodes);
  }
}
