/**
 Rollback safety: the rollback graph (internal/graph/graph.go, BuildRollback) and
 RP-DB-007 and RP-ROLLBACK-001..003 (internal/invariant/rollback_plan.go).
 */
module Rollback {
  import opened Wrappers
  import opened Verdicts
  import opened Schemas
  import opened Rollout
  import opened Replay
  import opened Numbering
  import opened Machines
  import opened Graphs
  import opened GraphTheory
  import opened Trails
  import opened Provenance
  import opened Paths
  import opened Checks
  import opened Engine
  import opened Family
  import opened RollbackClass

  // ---- the rollback graph ----

  function RollbackChange(forward: RolloutPlan): WorkloadChange
    requires forward.rollbackTarget.Some? && |forward.workloads| > 0
  {
    WorkloadChange(forward.rollbackTarget.value.workload, forward.workloads[0].toVersion,
                   forward.rollbackTarget.value.toVersion)
  }

  /** The operational rollback: one workload change back, on the schema the forward plan left. */
  function RollbackPlan(forward: RolloutPlan, left: SchemaState): RolloutPlan
    requires forward.rollbackTarget.Some? && |forward.workloads| > 0
  {
    RolloutPlan(left.schema, [RollbackChange(forward)], [], None, [])
  }

  /** The machine of the rollback: no migrations, but the forward plan's whole trail as history. */
  function RollbackMachine(forward: RolloutPlan, left: SchemaState): Machine
    requires forward.rollbackTarget.Some? && |forward.workloads| > 0
  {
    MachineOf(RollbackPlan(forward, left), left.committedOps, left.indeterminate)
  }

  predicate RollbackBuildable(forward: RolloutPlan) {
    && forward.rollbackTarget.Some?
    && |forward.workloads| == 1
    && forward.workloads[0].toVersion != "" && forward.rollbackTarget.value.toVersion != ""
  }

  method BuildRollback(forward: RolloutPlan, forwardGraph: Graph) returns (r: Result<(RolloutPlan, Graph), BuildError>)
    requires forwardGraph.target < |forwardGraph.nodes|
    ensures r.Ok? <==> RollbackBuildable(forward)
    ensures r.Err? ==> r.error == if forward.rollbackTarget.None? then NoRollbackTarget
                                  else if |forward.workloads| != 1 then NotOneWorkload else InvalidPlan
    ensures r.Ok? ==>
      && r.value.0 == RollbackPlan(forward, forwardGraph.nodes[forwardGraph.target].schemaState)
      && GraphOf(RollbackMachine(forward, forwardGraph.nodes[forwardGraph.target].schemaState), r.value.1)
  {
    hide GraphOf;
    if forward.rollbackTarget.None? {
      return Err(NoRollbackTarget);
    }
    if |forward.workloads| != 1 {
      return Err(NotOneWorkload);
    }
    var left := forwardGraph.nodes[forwardGraph.target].schemaState;
    var rbPlan := RollbackPlan(forward, left);
    if !PlanValid(rbPlan) {
      assert rbPlan.workloads[0].fromVersion == "" || rbPlan.workloads[0].toVersion == "";
      return Err(InvalidPlan);
    }
    assert rbPlan.workloads[0].fromVersion != "" && rbPlan.workloads[0].toVersion != "";
    RollbackIsSmall(forward, left);
    var g := BuildOn(rbPlan, left.committedOps, left.indeterminate);
    return Ok((rbPlan, g.value));
  }

  lemma RollbackIsSmall(forward: RolloutPlan, left: SchemaState)
    requires forward.rollbackTarget.Some? && |forward.workloads| > 0
    ensures RollbackMachine(forward, left).NodeCount() == RollbackMachine(forward, left).LatticeSize() == 3
    ensures PhasesKnown(RollbackPlan(forward, left))
  {
    var m := RollbackMachine(forward, left);
    SizeOfThrees(m.Radix());
    assert Pow(3, 1) == 3 * Pow(3, 0);
  }

  /** Every state of the rollback stands on exactly what the forward plan left, trail and flag included. */
  lemma RollbackStates(forward: RolloutPlan, left: SchemaState, p: Progress)
    requires forward.rollbackTarget.Some? && |forward.workloads| > 0
    requires Valid(RollbackMachine(forward, left), p)
    ensures SchemaStateAt(RollbackMachine(forward, left), p) == left
  {
    var m := RollbackMachine(forward, left);
    assert CommittedAt(m, p) == [];
  }

  lemma RollbackNodes(forward: RolloutPlan, left: SchemaState, g: Graph)
    requires forward.rollbackTarget.Some? && |forward.workloads| > 0
    requires GraphOf(RollbackMachine(forward, left), g)
    ensures forall i :: 0 <= i < |g.nodes| ==> g.nodes[i].schemaState == left
    ensures |g.nodes| == 3
    ensures exists s :: s in g.nodes && New(RollbackChange(forward)) in s.live
  {
    hide IsStep, IsAdjacency, Valid, SchemaStateAt, LiveAt;
    var m := RollbackMachine(forward, left);
    RollbackIsSmall(forward, left);
    forall i | 0 <= i < |g.nodes| ensures g.nodes[i].schemaState == left {
      assert IsNode(m, i, g.nodes[i]);
      DecodeRoundTrip(m, i);
      RollbackStates(forward, left, Decode(m, i));
    }
    StartValid(m);
    NodeOf(m, g, TargetOf(m));
    RollbackEndsNew(forward, left);
    assert g.nodes[Encode(m, TargetOf(m))] in g.nodes;
  }

  /** So the rollback's trails replay from the forward plan's base schema, with every forward operation in them. */
  lemma RollbackNodesReplay(forward: RolloutPlan, g: Graph, rg: Graph)
    requires forward.rollbackTarget.Some? && |forward.workloads| > 0
    requires GraphOf(MachineOf(forward, [], false), g) && g.target < |g.nodes|
    requires GraphOf(RollbackMachine(forward, g.nodes[g.target].schemaState), rg)
    ensures forall i :: 0 <= i < |rg.nodes| ==> TrailAgrees(forward.baseSchema, rg.nodes[i].schemaState)
  {
    hide GraphOf, TrailAgrees, MachineOf;
    NodesReplay(forward, g);
    RollbackNodes(forward, g.nodes[g.target].schemaState, rg);
  }

  /** And the prior types in them are right. */
  lemma RollbackNodesPriorTypes(forward: RolloutPlan, g: Graph, rg: Graph)
    requires forward.rollbackTarget.Some? && |forward.workloads| > 0 && WellFormed(forward.baseSchema)
    requires GraphOf(MachineOf(forward, [], false), g) && g.target < |g.nodes|
    requires GraphOf(RollbackMachine(forward, g.nodes[g.target].schemaState), rg)
    ensures forall i :: 0 <= i < |rg.nodes| ==> PriorTypesRight(forward.baseSchema, rg.nodes[i].schemaState)
  {
    hide GraphOf, PriorTypesRight, MachineOf;
    NodesPriorTypes(forward, g);
    RollbackNodes(forward, g.nodes[g.target].schemaState, rg);
  }

  lemma RollbackEndsNew(forward: RolloutPlan, left: SchemaState)
    requires forward.rollbackTarget.Some? && |forward.workloads| > 0
    ensures var m := RollbackMachine(forward, left);
            Valid(m, TargetOf(m)) && New(RollbackChange(forward)) in LiveAt(m, TargetOf(m))
  {
    var m := RollbackMachine(forward, left);
    StartValid(m);
    var steps := TargetOf(m).steps;
    LiveForMember(m.progressions, steps, New(RollbackChange(forward)));
    assert steps[0] == 2;
    assert New(RollbackChange(forward)) in m.progressions[0][steps[0]].live;
  }

  // ---- RP-DB-007 and RP-ROLLBACK-001 ----

  function TargetKey(forward: RolloutPlan): ServiceKey
    requires forward.rollbackTarget.Some?
  {
    ServiceKey(forward.rollbackTarget.value.workload.serviceName, forward.rollbackTarget.value.toVersion)
  }

  /** Some version live anywhere in the graph declares that it writes col. */
  ghost predicate SomeLiveVersionWrites(nodes: seq<RolloutState>, services: Services, col: ColumnRef) {
    exists s, lv :: s in nodes && lv in s.live && KeyOf(lv) in services && services[KeyOf(lv)].WritesColumn(col)
  }

  method AnyLiveVersionWritesColumn(g: Graph, services: Services, col: ColumnRef) returns (found: bool)
    ensures found <==> SomeLiveVersionWrites(g.nodes, services, col)
  {
    for i := 0 to |g.nodes|
      invariant forall s, lv :: s in g.nodes[..i] && lv in s.live && KeyOf(lv) in services ==>
        !services[KeyOf(lv)].WritesColumn(col)
    {
      var s := g.nodes[i];
      assert g.nodes[..i + 1] == g.nodes[..i] + [s];
      for j := 0 to |s.live|
        invariant forall lv :: lv in s.live[..j] && KeyOf(lv) in services ==> !services[KeyOf(lv)].WritesColumn(col)
      {
        assert s.live[..j + 1] == s.live[..j] + [s.live[j]];
        var key := KeyOf(s.live[j]);
        if key in services && services[key].WritesColumn(col) {
          assert s in g.nodes && s.live[j] in s.live;
          return true;
        }
      }
      assert s.live[..|s.live|] == s.live;
    }
    assert g.nodes[..|g.nodes|] == g.nodes;
    return false;
  }

  /** A committed removal the rollback target depends on and that cannot be undone without loss. */
  ghost predicate Irrecoverable(nodes: seq<RolloutState>, services: Services, svc: Service, op: MigrationOp) {
    && RemovesColumn(op) && svc.TouchesTable(op.table) && DependsOn(svc, op.TargetColumn())
    && (op.reversibility == Irreversible
        || (op.reversibility == ConditionallyReversible && SomeLiveVersionWrites(nodes, services, op.TargetColumn())))
  }

  /** What is missing to judge one committed removal. */
  ghost predicate RemovalGap(key: ServiceKey, svc: Service, cop: CommittedOp, gap: Gap) {
    && RemovesColumn(cop.op)
    && if !svc.TouchesTable(cop.op.table) then
         gap == TableNotMentioned(key, cop.op.table)
       else
         && DependsOn(svc, cop.op.TargetColumn()) && cop.op.reversibility == ReversibilityUnknown
         && gap == ReversibilityUnclassified(cop.op.TargetColumn(), cop.migrationID)
  }

  ghost predicate AnyIrrecoverable(nodes: seq<RolloutState>, services: Services, svc: Service, trail: seq<CommittedOp>) {
    exists cop :: cop in trail && Irrecoverable(nodes, services, svc, cop.op)
  }

  ghost predicate RemovalGapIn(key: ServiceKey, svc: Service, trail: seq<CommittedOp>, gap: Gap) {
    exists cop :: cop in trail && RemovalGap(key, svc, cop, gap)
  }

  ghost predicate IrreversibleGap(forward: RolloutPlan, trail: seq<CommittedOp>, services: Services, gap: Gap)
    requires forward.rollbackTarget.Some?
  {
    var key := TargetKey(forward);
    if key !in services then gap == NoContract(key) else RemovalGapIn(key, services[key], trail, gap)
  }

  ghost function IrreversibleVerdict(forward: RolloutPlan, nodes: seq<RolloutState>, trail: seq<CommittedOp>, services: Services): Verdict
    requires forward.rollbackTarget.Some?
  {
    VerdictFor(
      TargetKey(forward) in services && AnyIrrecoverable(nodes, services, services[TargetKey(forward)], trail),
      exists gap :: IrreversibleGap(forward, trail, services, gap))
  }

  /** A version live somewhere declares that it writes col. */
  ghost predicate DeclaredWritten(nodes: seq<RolloutState>, services: Services, col: ColumnRef) {
    exists s, lv :: s in nodes && lv in s.live && KeyOf(lv) in services && col in services[KeyOf(lv)].schemaWrites
  }

  /** The version declares the removed column, which is gone for good or may have been written to. */
  ghost predicate LosesNeeded(nodes: seq<RolloutState>, services: Services, svc: Service, op: MigrationOp) {
    && NeedsRemoved(svc, op)
    && (op.reversibility == Irreversible
        || (op.reversibility == ConditionallyReversible && DeclaredWritten(nodes, services, op.TargetColumn())))
  }

  /** Nothing says whether the version needs the column, or whether its removal can be undone. */
  ghost predicate CannotJudge(svc: Service, op: MigrationOp) {
    RemovesUnmentioned(svc, op) || (NeedsRemoved(svc, op) && op.reversibility == ReversibilityUnknown)
  }

  lemma RemovalJudged(nodes: seq<RolloutState>, services: Services, svc: Service, op: MigrationOp)
    ensures Irrecoverable(nodes, services, svc, op) <==> LosesNeeded(nodes, services, svc, op)
  {
    OneMeans(op, svc);
  }

  lemma RemovalGapped(key: ServiceKey, svc: Service, cop: CommittedOp)
    ensures (exists gap :: RemovalGap(key, svc, cop, gap)) <==> CannotJudge(svc, cop.op)
  {
    OneMeans(cop.op, svc);
    if CannotJudge(svc, cop.op) {
      var gap := if RemovesUnmentioned(svc, cop.op) then TableNotMentioned(key, cop.op.table)
                 else ReversibilityUnclassified(cop.op.TargetColumn(), cop.migrationID);
      assert RemovalGap(key, svc, cop, gap);
    }
  }

  /**
   The verdict case by case, in terms of what the target version declares: UNSAFE exactly
   when a committed removal takes a declared column for good, or for good if written to and
   some live version declares that it writes it; else UNKNOWN exactly when a removal cannot
   be judged; without a contract file for the target, UNKNOWN.
   */
  lemma IrreversibleMeans(forward: RolloutPlan, nodes: seq<RolloutState>, trail: seq<CommittedOp>, services: Services)
    requires forward.rollbackTarget.Some?
    ensures var target := forward.rollbackTarget.value;
            var key := ServiceKey(target.workload.serviceName, target.toVersion);
            IrreversibleVerdict(forward, nodes, trail, services) ==
            if key !in services then VerdictUnknown
            else VerdictFor(exists cop :: cop in trail && LosesNeeded(nodes, services, services[key], cop.op),
                            exists cop :: cop in trail && CannotJudge(services[key], cop.op))
  {
    hide Irrecoverable, LosesNeeded, RemovalGap, CannotJudge;
    var key := TargetKey(forward);
    if key !in services {
      assert IrreversibleGap(forward, trail, services, NoContract(key));
    } else {
      var svc := services[key];
      forall op ensures Irrecoverable(nodes, services, svc, op) <==> LosesNeeded(nodes, services, svc, op) {
        RemovalJudged(nodes, services, svc, op);
      }
      if gap :| IrreversibleGap(forward, trail, services, gap) {
        var cop :| cop in trail && RemovalGap(key, svc, cop, gap);
        RemovalGapped(key, svc, cop);
      }
      if cop :| cop in trail && CannotJudge(svc, cop.op) {
        RemovalGapped(key, svc, cop);
        var gap :| RemovalGap(key, svc, cop, gap);
        assert RemovalGapIn(key, svc, trail, gap);
        assert IrreversibleGap(forward, trail, services, gap);
      }
    }
  }

  ghost predicate DecidesIrreversible(forward: RolloutPlan, g: Graph, services: Services, d: Diagnostic)
    requires forward.rollbackTarget.Some? && g.target < |g.nodes|
  {
    var left := g.nodes[g.target];
    && !d.advisory
    && d.verdict == IrreversibleVerdict(forward, g.nodes, left.schemaState.committedOps, services)
    && (forall gap :: gap in d.missingEvidence <==>
          d.verdict == VerdictUnknown && IrreversibleGap(forward, left.schemaState.committedOps, services, gap))
    && (d.counterexample.Some? <==> d.verdict == VerdictUnsafe)
    && (d.verdict == VerdictUnsafe ==> d.counterexample.value.violatingState == left)
  }

  method ScanRemovals(g: Graph, services: Services, key: ServiceKey, svc: Service, trail: seq<CommittedOp>)
    returns (bad: bool, gaps: set<Gap>)
    ensures bad <==> AnyIrrecoverable(g.nodes, services, svc, trail)
    ensures forall gap :: gap in gaps <==> RemovalGapIn(key, svc, trail, gap)
  {
    hide SomeLiveVersionWrites, AnyIrrecoverable, RemovalGapIn;
    bad, gaps := false, {};
    RemovalNone(g.nodes, services, key, svc);
    for i := 0 to |trail|
      invariant bad <==> AnyIrrecoverable(g.nodes, services, svc, trail[..i])
      invariant forall gap :: gap in gaps <==> RemovalGapIn(key, svc, trail[..i], gap)
    {
      var cop := trail[i];
      RemovalSnoc(g.nodes, services, key, svc, trail[..i], cop);
      assert trail[..i + 1] == trail[..i] + [cop];
      if cop.op.kind == OpDropColumn || cop.op.kind == OpRenameColumn {
        var target := cop.op.TargetColumn();
        if !svc.TouchesTable(target.table) {
          gaps := gaps + {TableNotMentioned(key, target.table)};
        } else if svc.ReadsColumn(target) || svc.WritesColumn(target) {
          match cop.op.reversibility
          case Irreversible => bad := true;
          case ConditionallyReversible =>
            var written := AnyLiveVersionWritesColumn(g, services, target);
            bad := bad || written;
          case Reversible =>
          case ReversibilityUnknown => gaps := gaps + {ReversibilityUnclassified(target, cop.migrationID)};
        }
      }
    }
    assert trail[..|trail|] == trail;
  }

  lemma RemovalNone(nodes: seq<RolloutState>, services: Services, key: ServiceKey, svc: Service)
    ensures !AnyIrrecoverable(nodes, services, svc, [])
    ensures forall gap :: !RemovalGapIn(key, svc, [], gap)
  {
  }

  lemma RemovalSnoc(nodes: seq<RolloutState>, services: Services, key: ServiceKey, svc: Service, trail: seq<CommittedOp>, cop: CommittedOp)
    ensures AnyIrrecoverable(nodes, services, svc, trail + [cop]) <==>
      AnyIrrecoverable(nodes, services, svc, trail) || Irrecoverable(nodes, services, svc, cop.op)
    ensures forall gap :: RemovalGapIn(key, svc, trail + [cop], gap) <==>
      RemovalGapIn(key, svc, trail, gap) || RemovalGap(key, svc, cop, gap)
  {
    hide Irrecoverable, RemovalGap;
    assert cop in trail + [cop];
    assert forall x :: x in trail ==> x in trail + [cop];
  }

  method EvaluateIrreversibleBeforeRollback(id: string, forward: RolloutPlan, g: Graph, services: Services)
    returns (d: Diagnostic)
    requires forward.rollbackTarget.Some? && g.target < |g.nodes|
    ensures d.invariantID == id && DecidesIrreversible(forward, g, services, d)
  {
    hide AnyIrrecoverable, RemovalGapIn;
    var key := TargetKey(forward);
    var left := g.nodes[g.target];
    if key !in services {
      assert IrreversibleGap(forward, left.schemaState.committedOps, services, NoContract(key));
      return UnknownDiagnostic(id, {NoContract(key)});
    }
    var bad, gaps := ScanRemovals(g, services, key, services[key], left.schemaState.committedOps);
    assert forall gap :: gap in gaps <==> IrreversibleGap(forward, left.schemaState.committedOps, services, gap);
    if bad {
      return Diagnostic(id, VerdictUnsafe, Some(Counterexample([], left)), {}, RollbackUnknown, false);
    }
    if gaps != {} {
      return UnknownDiagnostic(id, gaps);
    }
    return SafeDiagnostic(id);
  }

  // ---- RP-ROLLBACK-002 ----

  /** The worst verdict of RP-DB-001..005 over the given states, none of them vacuous. */
  ghost function FamilyVerdict(services: Services, nodes: seq<RolloutState>): Verdict {
    VerdictFor(
      exists i :: 0 <= i < 5 && CheckVerdict(CheckAt(i), false, services, nodes) == VerdictUnsafe,
      exists i :: 0 <= i < 5 && CheckVerdict(CheckAt(i), false, services, nodes) == VerdictUnknown)
  }

  /** The first UNSAFE diagnostic's counterexample, as the source's loop keeps it. */
  function FirstCounterexample(diags: seq<Diagnostic>): (c: Option<Counterexample>)
    ensures (exists i :: 0 <= i < |diags| && diags[i].verdict == VerdictUnsafe && diags[i].counterexample.Some?) ==>
      exists i :: 0 <= i < |diags| && diags[i].verdict == VerdictUnsafe && diags[i].counterexample == c && c.Some?
  {
    if diags == [] then None
    else if diags[0].verdict == VerdictUnsafe && diags[0].counterexample.Some? then diags[0].counterexample
    else
      var c := FirstCounterexample(diags[1..]);
      assert forall i :: 0 <= i < |diags[1..]| ==> diags[1..][i] == diags[i + 1];
      c
  }

  function AllGaps(diags: seq<Diagnostic>): set<Gap> {
    set i, gap | 0 <= i < |diags| && gap in diags[i].missingEvidence :: gap
  }

  ghost predicate DecidesOldVersion(forward: RolloutPlan, left: SchemaState, services: Services, d: Diagnostic, rg: Graph)
    requires forward.rollbackTarget.Some?
  {
    && !d.advisory
    && (!RollbackBuildable(forward) ==> d == UnknownDiagnostic("RP-ROLLBACK-002", {NoRollbackGraph}))
    && (RollbackBuildable(forward) ==>
          && GraphOf(RollbackMachine(forward, left), rg)
          && d.verdict == FamilyVerdict(services, rg.nodes)
          && (d.counterexample.Some? <==> d.verdict == VerdictUnsafe)
          && (d.verdict == VerdictUnsafe ==> FamilyCounterexample(services, rg, d.counterexample.value))
          && (forall gap :: gap in d.missingEvidence <==>
                d.verdict == VerdictUnknown && FamilyGap(services, rg.nodes, gap)))
  }

  method EvaluateOldVersionAgainstCurrentSchema(forward: RolloutPlan, forwardGraph: Graph, services: Services)
    returns (d: Diagnostic, ghost rg: Graph)
    requires forward.rollbackTarget.Some? && forwardGraph.target < |forwardGraph.nodes|
    ensures d.invariantID == "RP-ROLLBACK-002"
    ensures DecidesOldVersion(forward, forwardGraph.nodes[forwardGraph.target].schemaState, services, d, rg)
  {
    hide GraphOf, FamilyVerdict, FamilyGap, FamilyCounterexample, FirstCounterexample, Scannable, RollbackMachine, AllGaps;
    var built := BuildRollback(forward, forwardGraph);
    if built.Err? {
      return UnknownDiagnostic("RP-ROLLBACK-002", {NoRollbackGraph}), forwardGraph;
    }
    var (rbPlan, g) := built.value;
    rg := g;
    GraphScannable(RollbackMachine(forward, forwardGraph.nodes[forwardGraph.target].schemaState), g);
    var sub := EvaluateColumnFamily(rbPlan, g, services, false);
    var verdict := VerdictSafe;
    for i := 0 to |sub|
      invariant verdict == VerdictFor(AnyUnsafe(sub[..i]), AnyUnknown(sub[..i]))
    {
      AggregateSnoc(sub[..i], sub[i]);
      assert sub[..i + 1] == sub[..i] + [sub[i]];
      verdict := Combine(verdict, sub[i].verdict);
    }
    assert sub[..|sub|] == sub;
    FamilySummary(rbPlan, g, services, sub);
    match verdict
    case VerdictUnsafe =>
      d := Diagnostic("RP-ROLLBACK-002", VerdictUnsafe, FirstCounterexample(sub), {}, RollbackUnknown, false);
    case VerdictUnknown => d := UnknownDiagnostic("RP-ROLLBACK-002", AllGaps(sub));
    case VerdictSafe => d := SafeDiagnostic("RP-ROLLBACK-002");
  }

  ghost predicate FamilyGap(services: Services, nodes: seq<RolloutState>, gap: Gap) {
    exists i :: 0 <= i < 5 && CheckVerdict(CheckAt(i), false, services, nodes) == VerdictUnknown
                && GapIn(CheckAt(i), services, nodes, gap)
  }

  ghost predicate FamilyCounterexample(services: Services, g: Graph, c: Counterexample) {
    exists i :: 0 <= i < 5 && BestCounterexample(g, ViolatingIDs(CheckAt(i), services, g.nodes), c)
  }

  /** What the six diagnostics of a plan without declared links amount to together. */
  lemma FamilySummary(plan: RolloutPlan, g: Graph, services: Services, sub: seq<Diagnostic>)
    requires g.target < |g.nodes|
    requires DecidesFamily(plan, g, services, false, sub) && plan.expandContractLinks == []
    ensures VerdictFor(AnyUnsafe(sub), AnyUnknown(sub)) == FamilyVerdict(services, g.nodes)
    ensures AnyUnsafe(sub) ==> FirstCounterexample(sub).Some? && FamilyCounterexample(services, g, FirstCounterexample(sub).value)
    ensures forall gap :: gap in AllGaps(sub) <==> FamilyGap(services, g.nodes, gap)
  {
    hide CheckVerdict, GapIn, BestCounterexample, ViolatingIDs, CheckAt, FirstCounterexample;
    assert sub[5].verdict == VerdictSafe;
    assert forall i :: 0 <= i < 5 ==> sub[i].verdict == CheckVerdict(CheckAt(i), false, services, g.nodes);
    if AnyUnsafe(sub) {
      var k :| 0 <= k < |sub| && sub[k].verdict == VerdictUnsafe && !sub[k].advisory;
      assert sub[k].counterexample.Some?;
      var i :| 0 <= i < |sub| && sub[i].verdict == VerdictUnsafe && sub[i].counterexample == FirstCounterexample(sub);
      assert i < 5;
      assert CheckVerdict(CheckAt(i), false, services, g.nodes) == VerdictUnsafe;
    }
    forall gap ensures gap in AllGaps(sub) <==> FamilyGap(services, g.nodes, gap) {
      if gap in AllGaps(sub) {
        var i :| 0 <= i < |sub| && gap in sub[i].missingEvidence;
        assert i < 5;
        assert Decides(CheckAt(i), false, g, services, sub[i]);
      }
      if FamilyGap(services, g.nodes, gap) {
        var i :| 0 <= i < 5 && CheckVerdict(CheckAt(i), false, services, g.nodes) == VerdictUnknown
                 && GapIn(CheckAt(i), services, g.nodes, gap);
        assert Decides(CheckAt(i), false, g, services, sub[i]);
        assert gap in sub[i].missingEvidence;
      }
    }
  }

  // ---- RP-ROLLBACK-003 ----

  function VerdictToRollback(v: Verdict): RollbackVerdict {
    match v
    case VerdictSafe => RollbackSafe
    case VerdictUnsafe => RollbackUnsafe
    case VerdictUnknown => RollbackUnknown
  }

  /** r is the worst of the classes of the trail's operations and of RP-ROLLBACK-002's verdict; UNKNOWN without a contract. */
  ghost predicate IsRollbackClass(forward: RolloutPlan, left: SchemaState, services: Services, rollback002: Verdict, r: RollbackVerdict)
    requires forward.rollbackTarget.Some?
  {
    if TargetKey(forward) !in services then
      r == RollbackUnknown
    else
      var trail, svc := left.committedOps, services[TargetKey(forward)];
      && (forall i :: 0 <= i < |trail| ==> RollbackDominance(OpClass(trail[i].op, svc)) <= RollbackDominance(r))
      && RollbackDominance(VerdictToRollback(rollback002)) <= RollbackDominance(r)
      && (r == VerdictToRollback(rollback002) || exists i :: 0 <= i < |trail| && OpClass(trail[i].op, svc) == r)
  }

  lemma WorstIsRollbackClass(forward: RolloutPlan, left: SchemaState, services: Services, rollback002: Verdict, cls: RollbackVerdict)
    requires forward.rollbackTarget.Some? && TargetKey(forward) in services
    requires IsWorstClass(left.committedOps, services[TargetKey(forward)], cls)
    ensures IsRollbackClass(forward, left, services, rollback002, CombineRollback(cls, VerdictToRollback(rollback002)))
  {
    hide OpClass;
  }

  lemma RollbackClassUnique(forward: RolloutPlan, left: SchemaState, services: Services, rollback002: Verdict,
                            a: RollbackVerdict, b: RollbackVerdict)
    requires forward.rollbackTarget.Some?
    requires IsRollbackClass(forward, left, services, rollback002, a) && IsRollbackClass(forward, left, services, rollback002, b)
    ensures a == b
  {
    hide OpClass;
  }

  /** A diagnostic that is right about RP-ROLLBACK-001 and 002 together. */
  ghost predicate DecidesRollbackAggregate(forward: RolloutPlan, left: SchemaState, services: Services,
                                           rollback001: Diagnostic, rollback002: Diagnostic, d: Diagnostic)
    requires forward.rollbackTarget.Some?
  {
    && d.invariantID == "RP-ROLLBACK-003" && !d.advisory && d.missingEvidence == {}
    && IsRollbackClass(forward, left, services, rollback002.verdict, d.rollbackVerdict)
    && (d.verdict == VerdictUnsafe <==> rollback001.verdict == VerdictUnsafe || rollback002.verdict == VerdictUnsafe)
    && (d.verdict == VerdictSafe <==>
          rollback001.verdict == rollback002.verdict == VerdictSafe && d.rollbackVerdict != RollbackConditionallySafe)
    && (rollback001.verdict == VerdictUnsafe ==> d.counterexample == rollback001.counterexample)
    && (rollback001.verdict != VerdictUnsafe && rollback002.verdict == VerdictUnsafe ==>
          d.counterexample == rollback002.counterexample)
    && (d.verdict != VerdictUnsafe ==> d.counterexample.None?)
  }

  method EvaluateRollbackAggregate(forward: RolloutPlan, forwardGraph: Graph, services: Services,
                                   rollback001: Diagnostic, rollback002: Diagnostic)
    returns (d: Diagnostic)
    requires forward.rollbackTarget.Some? && forwardGraph.target < |forwardGraph.nodes|
    ensures DecidesRollbackAggregate(forward, forwardGraph.nodes[forwardGraph.target].schemaState, services, rollback001, rollback002, d)
  {
    hide IsWorstClass, IsRollbackClass;
    var key := TargetKey(forward);
    var left := forwardGraph.nodes[forwardGraph.target].schemaState;
    var rb := RollbackUnknown;
    if key in services {
      var c := EvaluateRollback(left.committedOps, services[key]);
      rb := CombineRollback(c, VerdictToRollback(rollback002.verdict));
      WorstIsRollbackClass(forward, left, services, rollback002.verdict, c);
    } else {
      NoContractIsUnknownClass(forward, left, services, rollback002.verdict);
    }
    var overall := Combine(rollback001.verdict, rollback002.verdict);
    if rb == RollbackConditionallySafe && overall == VerdictSafe {
      overall := VerdictUnknown;
    }
    var shown := if rollback001.verdict == VerdictUnsafe then rollback001.counterexample
                 else if rollback002.verdict == VerdictUnsafe then rollback002.counterexample
                 else None;
    d := Diagnostic("RP-ROLLBACK-003", overall, shown, {}, rb, false);
  }

  lemma NoContractIsUnknownClass(forward: RolloutPlan, left: SchemaState, services: Services, rollback002: Verdict)
    requires forward.rollbackTarget.Some? && TargetKey(forward) !in services
    ensures IsRollbackClass(forward, left, services, rollback002, RollbackUnknown)
  {
  }

  /** The four rollback diagnostics are right about a declared target. */
  ghost predicate DecidesRollbackPlan(forward: RolloutPlan, g: Graph, services: Services, diags: seq<Diagnostic>, rg: Graph)
    requires forward.rollbackTarget.Some? && g.target < |g.nodes|
  {
    var left := g.nodes[g.target].schemaState;
    && |diags| == 4
    && diags[0].invariantID == "RP-DB-007" && DecidesIrreversible(forward, g, services, diags[0])
    && diags[1].invariantID == "RP-ROLLBACK-001" && DecidesIrreversible(forward, g, services, diags[1])
    && diags[2].invariantID == "RP-ROLLBACK-002" && DecidesOldVersion(forward, left, services, diags[2], rg)
    && DecidesRollbackAggregate(forward, left, services, diags[1], diags[2], diags[3])
  }

  /** RP-DB-007 and RP-ROLLBACK-001..003; all SAFE, as not applicable, when no target is declared. */
  method EvaluateRollbackPlan(forward: RolloutPlan, forwardGraph: Graph, services: Services)
    returns (diags: seq<Diagnostic>, ghost rg: Graph)
    requires forwardGraph.target < |forwardGraph.nodes|
    ensures |diags| == 4
    ensures forward.rollbackTarget.None? ==> forall i :: 0 <= i < 4 ==> diags[i] == SafeDiagnostic(diags[i].invariantID)
    ensures forward.rollbackTarget.Some? ==> DecidesRollbackPlan(forward, forwardGraph, services, diags, rg)
  {
    hide DecidesIrreversible, DecidesOldVersion, DecidesRollbackAggregate;
    rg := forwardGraph;
    if forward.rollbackTarget.None? {
      return [SafeDiagnostic("RP-DB-007"), SafeDiagnostic("RP-ROLLBACK-001"),
              SafeDiagnostic("RP-ROLLBACK-002"), SafeDiagnostic("RP-ROLLBACK-003")], rg;
    }
    var irreversible := EvaluateIrreversibleBeforeRollback("RP-DB-007", forward, forwardGraph, services);
    var rollback001 := EvaluateIrreversibleBeforeRollback("RP-ROLLBACK-001", forward, forwardGraph, services);
    var rollback002;
    rollback002, rg := EvaluateOldVersionAgainstCurrentSchema(forward, forwardGraph, services);
    var aggregate := EvaluateRollbackAggregate(forward, forwardGraph, services, rollback001, rollback002);
    diags := [irreversible, rollback001, rollback002, aggregate];
  }

  /** RP-DB-007 and RP-ROLLBACK-001 and 002 name a gap when UNKNOWN; 002 shows a run of the rollback graph. */
  lemma RollbackExplained(forward: RolloutPlan, g: Graph, services: Services, diags: seq<Diagnostic>, rg: Graph)
    requires forward.rollbackTarget.Some? && g.target < |g.nodes|
    requires DecidesRollbackPlan(forward, g, services, diags, rg)
    ensures forall i :: 0 <= i < 3 ==> NamesGap(diags[i])
    ensures ShowsRun(rg, diags[2])
  {
    hide DecidesIrreversible, DecidesRollbackAggregate, GraphOf, FamilyVerdict, FamilyGap, FamilyCounterexample, RollbackMachine;
    var left := g.nodes[g.target].schemaState;
    IrreversibleNamesGap(forward, g, services, diags[0]);
    IrreversibleNamesGap(forward, g, services, diags[1]);
    if RollbackBuildable(forward) {
      SummaryExplained(RollbackMachine(forward, left), services, diags[2], rg);
    } else {
      assert NoRollbackGraph in diags[2].missingEvidence;
    }
  }

  lemma IrreversibleNamesGap(forward: RolloutPlan, g: Graph, services: Services, d: Diagnostic)
    requires forward.rollbackTarget.Some? && g.target < |g.nodes| && DecidesIrreversible(forward, g, services, d)
    ensures NamesGap(d)
  {
    hide AnyIrrecoverable, IrreversibleGap;
    if d.verdict == VerdictUnknown {
      var gap :| IrreversibleGap(forward, g.nodes[g.target].schemaState.committedOps, services, gap);
      assert gap in d.missingEvidence;
    }
  }

  /** A diagnostic that sums up the column family over a built graph. */
  lemma SummaryExplained(m: Machine, services: Services, d: Diagnostic, rg: Graph)
    requires GraphOf(m, rg) && d.verdict == FamilyVerdict(services, rg.nodes)
    requires d.counterexample.Some? <==> d.verdict == VerdictUnsafe
    requires d.verdict == VerdictUnsafe ==> FamilyCounterexample(services, rg, d.counterexample.value)
    requires forall gap :: gap in d.missingEvidence <==> d.verdict == VerdictUnknown && FamilyGap(services, rg.nodes, gap)
    ensures NamesGap(d) && ShowsRun(rg, d)
  {
    hide GraphOf, CheckVerdict, IsShortestRun, ViolatingIDs, FamilyGap;
    if d.verdict == VerdictUnsafe {
      var i :| 0 <= i < 5 && BestCounterexample(rg, ViolatingIDs(CheckAt(i), services, rg.nodes), d.counterexample.value);
      CounterexampleIsRun(m, rg, ViolatingIDs(CheckAt(i), services, rg.nodes), d.counterexample.value);
    } else if d.verdict == VerdictUnknown {
      var gap := FamilyHasGap(services, rg.nodes);
      assert gap in d.missingEvidence;
    }
  }

  lemma FamilyHasGap(services: Services, nodes: seq<RolloutState>) returns (gap: Gap)
    requires FamilyVerdict(services, nodes) == VerdictUnknown
    ensures FamilyGap(services, nodes, gap)
  {
    hide GapIn, AnyViolation;
    var i :| 0 <= i < 5 && CheckVerdict(CheckAt(i), false, services, nodes) == VerdictUnknown;
    gap :| GapIn(CheckAt(i), services, nodes, gap);
  }
}
