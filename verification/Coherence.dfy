/**
 RP-ROLLBACK-003 reports two verdicts (internal/invariant/rollback_plan.go): a
 tri-state one and a four-state classification. When they agree.
 */
module Coherence {
  import opened Wrappers
  import opened Verdicts
  import opened Schemas
  import opened Rollout
  import opened Replay
  import opened Machines
  import opened Graphs
  import opened Trails
  import opened Checks
  import opened Engine
  import opened Family
  import opened RollbackClass
  import opened Rollback
  import opened Pairs

  ghost predicate ClassifiedTrail(trail: seq<CommittedOp>) {
    forall i :: 0 <= i < |trail| ==> Classified(trail[i].op)
  }

  /** A committed rename away from a column svc still uses. */
  ghost predicate DependedRename(trail: seq<CommittedOp>, svc: Service) {
    exists i :: 0 <= i < |trail| && trail[i].op.kind == OpRenameColumn && DependsOn(svc, trail[i].op.TargetColumn())
  }

  /** A rename the target still depends on keeps RP-ROLLBACK-002 from being SAFE. */
  lemma DependedRenameBlocks(plan: RolloutPlan, left: SchemaState, services: Services, d: Diagnostic, rg: Graph)
    requires plan.rollbackTarget.Some? && DecidesOldVersion(plan, left, services, d, rg)
    requires TargetKey(plan) in services && DependedRename(left.committedOps, services[TargetKey(plan)])
    ensures d.verdict != VerdictSafe
  {
    hide GraphOf, FamilyGap, FamilyCounterexample, RollbackMachine, CheckVerdict;
    if RollbackBuildable(plan) {
      RollbackNodes(plan, left, rg);
      var s :| s in rg.nodes && New(RollbackChange(plan)) in s.live;
      var svc := services[TargetKey(plan)];
      var i :| 0 <= i < |left.committedOps| && left.committedOps[i].op.kind == OpRenameColumn
               && DependsOn(svc, left.committedOps[i].op.TargetColumn());
      RenameNotSafe(services, rg.nodes, s, New(RollbackChange(plan)), left.committedOps[i]);
      assert CheckVerdict(CheckAt(4), false, services, rg.nodes) != VerdictSafe;
    }
  }

  lemma RenameNotSafe(services: Services, nodes: seq<RolloutState>, s: RolloutState, lv: LiveVersion, cop: CommittedOp)
    requires s in nodes && lv in s.live && KeyOf(lv) in services
    requires cop in s.schemaState.committedOps && cop.op.kind == OpRenameColumn
    requires DependsOn(services[KeyOf(lv)], cop.op.TargetColumn())
    ensures CheckVerdict(CheckRenames, false, services, nodes) != VerdictSafe
  {
    if s.schemaState.indeterminate {
      assert IsGap(CheckRenames, services, s, UnknownSchema(s.id));
      assert GapIn(CheckRenames, services, nodes, UnknownSchema(s.id));
    } else {
      var v := Violation(s.id, lv, cop.op.TargetColumn(), Some(cop));
      assert IsViolation(CheckRenames, services, s, v);
      assert ViolationIn(CheckRenames, services, nodes, v);
    }
  }

  lemma UnsafeClassIsIrrecoverable(nodes: seq<RolloutState>, services: Services, svc: Service, trail: seq<CommittedOp>, cls: RollbackVerdict)
    requires ClassifiedTrail(trail) && IsWorstClass(trail, svc, cls)
    ensures cls == RollbackUnsafe <==> AnyIrrecoverable(nodes, services, svc, trail)
  {
    hide SomeLiveVersionWrites;
    if cls == RollbackUnsafe {
      var i :| 0 <= i < |trail| && OpClass(trail[i].op, svc) == cls;
      assert Irrecoverable(nodes, services, svc, trail[i].op);
    }
    if AnyIrrecoverable(nodes, services, svc, trail) {
      var cop :| cop in trail && Irrecoverable(nodes, services, svc, cop.op);
      var i :| 0 <= i < |trail| && trail[i] == cop;
      assert Classified(trail[i].op);
      assert OpClass(trail[i].op, svc) == RollbackUnsafe;
    }
  }

  lemma SafeClassNoGap(key: ServiceKey, svc: Service, trail: seq<CommittedOp>)
    requires IsWorstClass(trail, svc, RollbackSafe)
    ensures forall gap :: !RemovalGapIn(key, svc, trail, gap)
  {
    forall cop, gap | cop in trail ensures !RemovalGap(key, svc, cop, gap) {
      var i :| 0 <= i < |trail| && trail[i] == cop;
      assert RollbackDominance(OpClass(trail[i].op, svc)) <= 0;
    }
  }

  lemma NotSafeClassHasReason(nodes: seq<RolloutState>, services: Services, key: ServiceKey, svc: Service,
                              trail: seq<CommittedOp>, cls: RollbackVerdict)
    requires ClassifiedTrail(trail) && IsWorstClass(trail, svc, cls) && cls != RollbackSafe
    ensures cls == RollbackUnsafe || DependedRename(trail, svc) || exists gap :: RemovalGapIn(key, svc, trail, gap)
    ensures cls == RollbackConditionallySafe ==> DependedRename(trail, svc)
  {
    var i :| 0 <= i < |trail| && OpClass(trail[i].op, svc) == cls;
    assert Classified(trail[i].op);
    if !svc.TouchesTable(trail[i].op.table) {
      assert RemovalGap(key, svc, trail[i], TableNotMentioned(key, trail[i].op.table));
      assert RemovalGapIn(key, svc, trail, TableNotMentioned(key, trail[i].op.table));
    }
  }

  lemma {:induction false} WorstClassExists(trail: seq<CommittedOp>, svc: Service) returns (cls: RollbackVerdict)
    ensures IsWorstClass(trail, svc, cls)
    decreases |trail|
  {
    cls := RollbackSafe;
    if trail != [] {
      var n := |trail| - 1;
      cls := WorstClassExists(trail[..n], svc);
      WorstClassExtends(trail, n, svc, cls);
      assert trail[..n + 1] == trail;
      cls := CombineRollback(cls, OpClass(trail[n].op, svc));
    }
  }

  /** The four-state class joins that of the trail and RP-ROLLBACK-002's verdict. */
  lemma RollbackClassIsJoin(plan: RolloutPlan, left: SchemaState, services: Services, rollback002: Verdict, r: RollbackVerdict)
    returns (cls: RollbackVerdict)
    requires plan.rollbackTarget.Some? && TargetKey(plan) in services
    requires IsRollbackClass(plan, left, services, rollback002, r)
    ensures IsWorstClass(left.committedOps, services[TargetKey(plan)], cls)
    ensures r == CombineRollback(cls, VerdictToRollback(rollback002))
  {
    hide IsWorstClass, IsRollbackClass;
    cls := WorstClassExists(left.committedOps, services[TargetKey(plan)]);
    WorstIsRollbackClass(plan, left, services, rollback002, cls);
    RollbackClassUnique(plan, left, services, rollback002, r, CombineRollback(cls, VerdictToRollback(rollback002)));
  }

  /**
   With a contract for the target and operations classified by the parser, the two
   verdicts of RP-ROLLBACK-003 agree on SAFE and on UNSAFE, and CONDITIONALLY_SAFE
   is never reported.
   */
  lemma RollbackCoherence(plan: RolloutPlan, g: Graph, services: Services, diags: seq<Diagnostic>, rg: Graph)
    requires plan.rollbackTarget.Some? && g.target < |g.nodes|
    requires DecidesRollbackPlan(plan, g, services, diags, rg)
    requires TargetKey(plan) in services && ClassifiedTrail(g.nodes[g.target].schemaState.committedOps)
    ensures diags[3].verdict == VerdictSafe <==> diags[3].rollbackVerdict == RollbackSafe
    ensures diags[3].verdict == VerdictUnsafe <==> diags[3].rollbackVerdict == RollbackUnsafe
    ensures diags[3].rollbackVerdict != RollbackConditionallySafe
  {
    hide DecidesOldVersion, IsWorstClass, IsRollbackClass, AnyIrrecoverable, RemovalGapIn, DependedRename, ClassifiedTrail;
    var left := g.nodes[g.target].schemaState;
    var svc := services[TargetKey(plan)];
    var cls := RollbackClassIsJoin(plan, left, services, diags[2].verdict, diags[3].rollbackVerdict);
    if DependedRename(left.committedOps, svc) {
      DependedRenameBlocks(plan, left, services, diags[2], rg);
    }
    UnsafeClassIsIrrecoverable(g.nodes, services, svc, left.committedOps, cls);
    if cls == RollbackSafe {
      SafeClassNoGap(TargetKey(plan), svc, left.committedOps);
      assert diags[1].verdict == VerdictSafe;
    } else {
      NotSafeClassHasReason(g.nodes, services, TargetKey(plan), svc, left.committedOps, cls);
      GapMakesUnknown(plan, g, services, diags[1]);
    }
  }

  lemma GapMakesUnknown(plan: RolloutPlan, g: Graph, services: Services, d: Diagnostic)
    requires plan.rollbackTarget.Some? && g.target < |g.nodes|
    requires DecidesIrreversible(plan, g, services, d) && TargetKey(plan) in services
    ensures (exists gap :: RemovalGapIn(TargetKey(plan), services[TargetKey(plan)], g.nodes[g.target].schemaState.committedOps, gap)) ==>
      d.verdict != VerdictSafe
  {
    hide RemovalGapIn, AnyIrrecoverable;
    var trail := g.nodes[g.target].schemaState.committedOps;
    if gap :| RemovalGapIn(TargetKey(plan), services[TargetKey(plan)], trail, gap) {
      assert IrreversibleGap(plan, trail, services, gap);
    }
  }

  // ---- without a contract for the target ----

  /** The version being rolled back, whose contract the rollback graph also consults. */
  function Abandoned(plan: RolloutPlan): LiveVersion
    requires plan.rollbackTarget.Some? && |plan.workloads| > 0
  {
    Old(RollbackChange(plan))
  }

  /** The abandoned version has a contract, and fails one of the five checks on the schema the forward plan leaves. */
  ghost predicate AbandonedFails(plan: RolloutPlan, left: SchemaState, services: Services)
    requires plan.rollbackTarget.Some? && |plan.workloads| > 0
  {
    exists check :: PairViolates(check, services, Abandoned(plan), left)
  }

  lemma RollbackLive(plan: RolloutPlan, left: SchemaState, rg: Graph)
    requires plan.rollbackTarget.Some? && |plan.workloads| > 0
    requires GraphOf(RollbackMachine(plan, left), rg)
    ensures forall lv, ss :: Occurs(rg.nodes, lv, ss) <==>
      ss == left && (lv == Old(RollbackChange(plan)) || lv == New(RollbackChange(plan)))
  {
    hide GraphOf, StateWith, Occurs;
    var m, workloads := RollbackMachine(plan, left), RollbackPlan(plan, left).workloads;
    GraphPairs(m, workloads, rg);
    RollbackStateWith(plan, left);
    forall lv, ss | lv in {Old(workloads[0]), New(workloads[0])} && ss == left ensures PlanPair(m, workloads, lv, ss) {
      assert DuringPair(m, workloads, lv, ss, 0, []);
    }
  }

  lemma RollbackStateWith(plan: RolloutPlan, left: SchemaState)
    requires plan.rollbackTarget.Some? && |plan.workloads| > 0
    ensures var m := RollbackMachine(plan, left); m.during == [] && m.after == [] && StateWith(m, [], 0) == left
  {
    var m := RollbackMachine(plan, left);
    assert Select(m.during, []) + m.after[..0] == [];
  }

  /** Without a contract for the target, only the abandoned version can make RP-ROLLBACK-002 UNSAFE. */
  lemma OnlyAbandonedFails(plan: RolloutPlan, left: SchemaState, services: Services, nodes: seq<RolloutState>)
    requires plan.rollbackTarget.Some? && |plan.workloads| > 0 && TargetKey(plan) !in services
    requires forall lv, ss :: Occurs(nodes, lv, ss) <==>
      ss == left && (lv == Old(RollbackChange(plan)) || lv == New(RollbackChange(plan)))
    ensures FamilyVerdict(services, nodes) == VerdictUnsafe <==> AbandonedFails(plan, left, services)
  {
    hide Occurs, AnyViolation, AnyGap, Offends;
    assert KeyOf(New(RollbackChange(plan))) == TargetKey(plan);
    assert Occurs(nodes, Abandoned(plan), left);
    forall check
      ensures CheckVerdict(check, false, services, nodes) == VerdictUnsafe <==> PairViolates(check, services, Abandoned(plan), left)
    {
      ViolationFromPairs(check, services, nodes);
    }
    if check :| PairViolates(check, services, Abandoned(plan), left) {
      var i := CheckNumber(check);
      assert CheckVerdict(CheckAt(i), false, services, nodes) == VerdictUnsafe;
    }
  }

  /** The family holds every check there is. */
  lemma CheckNumber(check: Check) returns (i: nat)
    ensures i < 5 && CheckAt(i) == check
  {
    match check
    case CheckExistence(Reads) => i := 0;
    case CheckExistence(Writes) => i := 1;
    case CheckTypes => i := 2;
    case CheckNotNull => i := 3;
    case CheckRenames => i := 4;
  }

  /**
   Without a contract for the target the class is UNKNOWN, and the two verdicts disagree
   exactly when the rollback graph can be built and the abandoned version fails a check.
   */
  lemma CoherenceWithoutContract(plan: RolloutPlan, g: Graph, services: Services, diags: seq<Diagnostic>, rg: Graph)
    requires plan.rollbackTarget.Some? && g.target < |g.nodes|
    requires DecidesRollbackPlan(plan, g, services, diags, rg)
    requires TargetKey(plan) !in services
    ensures diags[3].rollbackVerdict == RollbackUnknown && diags[3].verdict != VerdictSafe
    ensures (diags[3].verdict == VerdictUnsafe <==> diags[3].rollbackVerdict == RollbackUnsafe) <==>
            !(RollbackBuildable(plan) && AbandonedFails(plan, g.nodes[g.target].schemaState, services))
  {
    hide GraphOf, FamilyVerdict, FamilyGap, FamilyCounterexample, AbandonedFails, RollbackMachine;
    var left := g.nodes[g.target].schemaState;
    assert IrreversibleGap(plan, left.committedOps, services, NoContract(TargetKey(plan)));
    assert diags[1].verdict == VerdictUnknown;
    if RollbackBuildable(plan) {
      RollbackLive(plan, left, rg);
      OnlyAbandonedFails(plan, left, services, rg.nodes);
    }
  }

  // ---- a parsed plan's trail is classified ----

  ghost predicate ClassifiedPlan(plan: RolloutPlan) {
    forall i, j :: 0 <= i < |plan.migrations| && 0 <= j < |plan.migrations[i].migration.operations| ==>
      Classified(plan.migrations[i].migration.operations[j])
  }

  lemma {:induction false} TrailOp(ms: seq<Migration>, t: TaggedOp) returns (m: Migration)
    requires t in Trail(ms)
    ensures m in ms && t.op in m.operations
    decreases |ms|
  {
    var n := |ms| - 1;
    if t in Tagged(ms[n]) {
      m := ms[n];
    } else {
      m := TrailOp(ms[..n], t);
    }
  }

  lemma TargetTrailClassified(plan: RolloutPlan, g: Graph)
    requires GraphOf(MachineOf(plan, [], false), g) && ClassifiedPlan(plan)
    ensures g.target < |g.nodes| && ClassifiedTrail(g.nodes[g.target].schemaState.committedOps)
  {
    hide IsStep, IsAdjacency, Encode, Decode, Commit, Trail, Select, OfPhase, CanonicalOf, LiveAt, Classified;
    var m := MachineOf(plan, [], false);
    GraphScannable(m, g);
    StartValid(m);
    EncodeRoundTrip(m, TargetOf(m));
    assert IsNode(m, g.target, g.nodes[g.target]);
    var p := TargetOf(m);
    var before := OfPhase(plan.migrations, PhaseBeforeRollout);
    var ss := g.nodes[g.target].schemaState;
    CommitGrowsTrail(SchemaState(plan.baseSchema, [], false), Trail(before));
    CommitGrowsTrail(m.base, Trail(CommittedAt(m, p)));
    assert Tags(ss.committedOps) == Trail(before) + Trail(CommittedAt(m, p));
    forall i | 0 <= i < |ss.committedOps| ensures Classified(ss.committedOps[i].op) {
      var t := Tags(ss.committedOps)[i];
      var x: Migration, phase: MigrationPhase;
      if t in Trail(before) {
        x := TrailOp(before, t);
        phase := PhaseBeforeRollout;
      } else {
        x := TrailOp(CommittedAt(m, p), t);
        phase := CommittedIsPlanned(m, p, x);
      }
      OfPhaseMember(plan.migrations, phase, x);
      PlannedOpClassified(plan, x, phase, t.op);
    }
  }

  lemma CommittedIsPlanned(m: Machine, p: Progress, x: Migration) returns (phase: MigrationPhase)
    requires ThreeSteps(m) && Valid(m, p) && x in CommittedAt(m, p)
    ensures phase == PhaseDuringRollout || phase == PhaseAfterRollout
    ensures if phase == PhaseDuringRollout then x in m.during else x in m.after
  {
    if x in Select(m.during, p.during) {
      SelectMember(m.during, p.during, x);
      phase := PhaseDuringRollout;
    } else {
      phase := PhaseAfterRollout;
    }
  }

  lemma PlannedOpClassified(plan: RolloutPlan, x: Migration, phase: MigrationPhase, op: MigrationOp)
    requires ClassifiedPlan(plan) && MigrationTiming(x, phase) in plan.migrations && op in x.operations
    ensures Classified(op)
  {
    hide Classified;
    var i :| 0 <= i < |plan.migrations| && plan.migrations[i] == MigrationTiming(x, phase);
    var j :| 0 <= j < |x.operations| && x.operations[j] == op;
    assert Classified(plan.migrations[i].migration.operations[j]);
  }
}
