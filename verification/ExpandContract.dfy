/**
 RP-DB-006 (internal/invariant/rpdb006.go): a structural check on the declared
 phase of contract migrations, and exactly when it agrees with reachability.
 */
module ExpandContract {
  import opened Wrappers
  import opened Verdicts
  import opened Ordering
  import opened Schemas
  import opened Rollout
  import opened Replay
  import opened Machines
  import opened Graphs
  import opened GraphTheory
  import opened Trails
  import opened Paths
  import opened Checks
  import opened Engine

  const RPDB006 := "RP-DB-006"

  /** The link's contract step is not declared to commit after the rollout. */
  predicate LinkViolates(plan: RolloutPlan, link: ExpandContractLink) {
    var timing := LastWithID(plan.migrations, link.contractMigrationID);
    timing.None? || timing.value.phase != PhaseAfterRollout
  }

  /** A link is honoured exactly when the last migration of its contract ID is declared after the rollout. */
  lemma LinkHonouredExactly(plan: RolloutPlan, link: ExpandContractLink)
    ensures !LinkViolates(plan, link) <==>
      exists i: nat :: IsLastWithID(plan.migrations, link.contractMigrationID, i)
                       && plan.migrations[i].phase == PhaseAfterRollout
  {
    var id := link.contractMigrationID;
    if LastWithID(plan.migrations, id).Some? {
      var i := LastOccurrence(plan.migrations, id);
      LastWithIDIsLast(plan.migrations, id, i);
    }
    forall i: nat | IsLastWithID(plan.migrations, id, i)
      ensures LastWithID(plan.migrations, id) == Some(plan.migrations[i])
    {
      LastWithIDIsLast(plan.migrations, id, i);
    }
  }

  function ExpandContractVerdict(plan: RolloutPlan): Verdict {
    if exists i :: 0 <= i < |plan.expandContractLinks| && LinkViolates(plan, plan.expandContractLinks[i]) then
      VerdictUnsafe
    else
      VerdictSafe
  }

  predicate Carries(s: RolloutState, id: string) {
    exists k :: 0 <= k < |s.schemaState.committedOps| && s.schemaState.committedOps[k].migrationID == id
  }

  /** The states whose trail holds an operation of migration id. */
  ghost function CarryingIDs(nodes: seq<RolloutState>, id: string): iset<nat> {
    iset i | 0 <= i < |nodes| && Carries(nodes[i], id)
  }

  method PhaseByID(migrations: seq<MigrationTiming>) returns (phases: map<string, MigrationPhase>)
    ensures forall id :: id in phases <==> LastWithID(migrations, id).Some?
    ensures forall id :: id in phases ==> phases[id] == LastWithID(migrations, id).value.phase
  {
    phases := map[];
    for i := 0 to |migrations|
      invariant forall id :: id in phases <==> LastWithID(migrations[..i], id).Some?
      invariant forall id :: id in phases ==> phases[id] == LastWithID(migrations[..i], id).value.phase
    {
      assert migrations[..i + 1][..i] == migrations[..i];
      phases := phases[migrations[i].migration.id := migrations[i].phase];
    }
    assert migrations[..|migrations|] == migrations;
  }

  method ViolatingContracts(plan: RolloutPlan) returns (ids: seq<string>)
    ensures forall id :: id in ids <==>
      exists link :: link in plan.expandContractLinks && LinkViolates(plan, link) && link.contractMigrationID == id
    ensures ids == [] <==> ExpandContractVerdict(plan) == VerdictSafe
  {
    var phases := PhaseByID(plan.migrations);
    ids := [];
    var links := plan.expandContractLinks;
    for i := 0 to |links|
      invariant forall id :: id in ids ==>
        exists link :: link in links && LinkViolates(plan, link) && link.contractMigrationID == id
      invariant forall j :: 0 <= j < i && LinkViolates(plan, links[j]) ==> links[j].contractMigrationID in ids
    {
      var id := links[i].contractMigrationID;
      if id !in phases || phases[id] != PhaseAfterRollout {
        assert links[i] in links && LinkViolates(plan, links[i]);
        ids := ids + [id];
      }
    }
    if ids != [] {
      assert ids[0] in ids;
    }
  }

  /** An offending link of the least contract ID. */
  ghost predicate IsLeastViolating(plan: RolloutPlan, link: ExpandContractLink) {
    && link in plan.expandContractLinks && LinkViolates(plan, link)
    && forall other :: other in plan.expandContractLinks && LinkViolates(plan, other) ==>
         !StringLess(other.contractMigrationID, link.contractMigrationID)
  }

  /** A diagnostic that is right about RP-DB-006, and shows the least offending contract ID. */
  ghost predicate DecidesExpandContract(plan: RolloutPlan, g: Graph, d: Diagnostic)
    requires g.target < |g.nodes|
  {
    && d.invariantID == RPDB006 && !d.advisory && d.missingEvidence == {}
    && d.verdict == ExpandContractVerdict(plan)
    && (d.counterexample.Some? <==> d.verdict == VerdictUnsafe)
    && (d.verdict == VerdictUnsafe ==> exists link ::
          IsLeastViolating(plan, link) && ShowsCarrying(g, link.contractMigrationID, d.counterexample.value))
  }

  /**
   Reports the least offending contract ID, showing the nearest state that carries
   one of its operations, or the graph's target when no state does.
   */
  method EvaluateExpandContractSequence(plan: RolloutPlan, g: Graph) returns (d: Diagnostic)
    requires Scannable(g) && g.target < |g.nodes|
    ensures DecidesExpandContract(plan, g, d)
  {
    hide LinkViolates, ShowsCarrying;
    if |plan.expandContractLinks| == 0 {
      return SafeDiagnostic(RPDB006);
    }
    var violating := ViolatingContracts(plan);
    if violating == [] {
      return SafeDiagnostic(RPDB006);
    }
    var contractID := SortBy(StringLess, violating)[0];
    SortByElements(StringLess, violating, contractID);
    LeastFirst(violating);
    ghost var link :| link in plan.expandContractLinks && LinkViolates(plan, link) && link.contractMigrationID == contractID;
    assert IsLeastViolating(plan, link);
    var c := ShowCarrying(g, contractID);
    d := Diagnostic(RPDB006, VerdictUnsafe, Some(c), {}, RollbackUnknown, false);
  }

  lemma LeastFirst(ids: seq<string>)
    requires ids != []
    ensures SortBy(StringLess, ids) != []
    ensures forall id :: id in ids ==> !StringLess(id, SortBy(StringLess, ids)[0])
  {
    var sorted := SortBy(StringLess, ids);
    StringLessIsWeakOrder();
    SortBySorted(StringLess, ids);
    SortByElements(StringLess, ids, ids[0]);
    forall id | id in ids ensures !StringLess(id, sorted[0]) {
      SortByElements(StringLess, ids, id);
      var i :| 0 <= i < |sorted| && sorted[i] == id;
      if i == 0 && StringLess(id, id) {
        StringLessAsymmetric(id, id);
      }
    }
  }

  lemma StringLessIsWeakOrder()
    ensures StrictWeakOrder(StringLess)
  {
    forall a, b | StringLess(a, b) ensures !StringLess(b, a) {
      StringLessAsymmetric(a, b);
    }
    forall a, b, c | StringLess(a, b) && StringLess(b, c) ensures StringLess(a, c) {
      StringLessTransitive(a, b, c);
    }
    forall a, b, c | !StringLess(a, b) && !StringLess(b, c) ensures !StringLess(a, c) {
      StringLessTotal(a, b);
      StringLessTotal(b, c);
      if StringLess(a, c) && a != b && b != c {
        StringLessTransitive(c, b, a);
        StringLessAsymmetric(a, c);
      }
    }
  }

  /** What the report shows for migration id. */
  ghost predicate ShowsCarrying(g: Graph, id: string, c: Counterexample)
    requires g.target < |g.nodes|
  {
    if CarryingIDs(g.nodes, id) != iset{} then
      BestCounterexample(g, CarryingIDs(g.nodes, id), c)
    else
      c.violatingState == g.nodes[g.target] && LeadsTo(g, c.path, g.target)
  }

  method ShowCarrying(g: Graph, id: string) returns (c: Counterexample)
    requires Scannable(g) && g.target < |g.nodes|
    ensures ShowsCarrying(g, id, c)
  {
    var ids := CarryingStates(g, id);
    if ids == [] {
      var path := ShortestPath(g, g.target);
      assert CarryingIDs(g.nodes, id) == iset{};
      return Counterexample(path, g.nodes[g.target]);
    }
    var best := ShortestByStateID(g, ids);
    var stateID := ids[best];
    assert stateID in ids;
    var path := ShortestPath(g, stateID);
    return Counterexample(path, g.nodes[stateID]);
  }

  method CarryingStates(g: Graph, id: string) returns (ids: seq<nat>)
    requires Scannable(g)
    ensures forall i :: i in ids <==> i in CarryingIDs(g.nodes, id)
  {
    ids := [];
    for i := 0 to |g.nodes|
      invariant forall j :: j in ids <==> 0 <= j < i && Carries(g.nodes[j], id)
    {
      if Carries(g.nodes[i], id) {
        ids := ids + [g.nodes[i].id];
      }
    }
  }

  // ---- how exact the structural check is ----

  /** A state before rollout completion already carries an operation of a contract migration. */
  ghost predicate EarlyContractOp(plan: RolloutPlan, g: Graph)
    requires GraphOf(MachineOf(plan, [], false), g)
  {
    var m := MachineOf(plan, [], false);
    exists i, link ::
      && 0 <= i < |g.nodes| && !Complete(m, Decode(m, i))
      && link in plan.expandContractLinks && Carries(g.nodes[i], link.contractMigrationID)
  }

  /** A contract ID whose last migration is declared after the rollout hides an earlier one that is not. */
  ghost predicate ShadowedContract(plan: RolloutPlan) {
    exists link, timing ::
      && link in plan.expandContractLinks && timing in plan.migrations
      && timing.migration.id == link.contractMigrationID
      && timing.migration.operations != [] && timing.phase != PhaseAfterRollout
      && !LinkViolates(plan, link)
  }

  /** An operation of id is carried before completion exactly when a migration of that ID is not an after-migration. */
  lemma EarlyCarry(plan: RolloutPlan, g: Graph, id: string)
    requires PlanValid(plan) && GraphOf(MachineOf(plan, [], false), g)
    ensures var m := MachineOf(plan, [], false);
            (exists i :: 0 <= i < |g.nodes| && !Complete(m, Decode(m, i)) && Carries(g.nodes[i], id)) <==>
            (exists timing :: timing in plan.migrations && timing.migration.id == id
                              && timing.migration.operations != [] && timing.phase != PhaseAfterRollout)
  {
    hide Carries, IsNode, IsStep, IsAdjacency, PlanValid, LinkValid;
    var m := MachineOf(plan, [], false);
    if i :| 0 <= i < |g.nodes| && !Complete(m, Decode(m, i)) && Carries(g.nodes[i], id) {
      var timing := CarriedEarly(plan, g, id, i);
    }
    if timing :| timing in plan.migrations && timing.migration.id == id
                 && timing.migration.operations != [] && timing.phase != PhaseAfterRollout
    {
      var i := CarriesEarly(plan, g, timing);
    }
  }

  lemma NodeCarries(plan: RolloutPlan, g: Graph, i: nat, id: string)
    requires GraphOf(MachineOf(plan, [], false), g) && i < |g.nodes|
    ensures var m := MachineOf(plan, [], false);
            && Valid(m, Decode(m, i))
            && (Carries(g.nodes[i], id) <==>
                Mentions(OfPhase(plan.migrations, PhaseBeforeRollout), id) || Mentions(CommittedAt(m, Decode(m, i)), id))
  {
    hide IsStep, IsAdjacency, Decode, Mentions, CommittedAt, CanonicalOf, LiveAt, SchemaStateAt, MachineOf;
    var m := MachineOf(plan, [], false);
    assert IsNode(m, i, g.nodes[i]);
    DecodeRoundTrip(m, i);
    NodeTrail(plan, Decode(m, i), id);
    var trail := g.nodes[i].schemaState.committedOps;
    assert Carries(g.nodes[i], id) <==> exists cop :: cop in trail && cop.migrationID == id by {
      if cop :| cop in trail && cop.migrationID == id {
        var k :| 0 <= k < |trail| && trail[k] == cop;
      }
      if k :| 0 <= k < |trail| && trail[k].migrationID == id {
        assert trail[k] in trail;
      }
    }
  }

  lemma CarriedEarly(plan: RolloutPlan, g: Graph, id: string, i: nat) returns (timing: MigrationTiming)
    requires GraphOf(MachineOf(plan, [], false), g) && i < |g.nodes|
    requires var m := MachineOf(plan, [], false); !Complete(m, Decode(m, i)) && Carries(g.nodes[i], id)
    ensures timing in plan.migrations && timing.migration.id == id
    ensures timing.migration.operations != [] && timing.phase != PhaseAfterRollout
  {
    hide Carries, IsNode, IsStep, IsAdjacency, Decode;
    var m := MachineOf(plan, [], false);
    NodeCarries(plan, g, i, id);
    var p := Decode(m, i);
    var before := OfPhase(plan.migrations, PhaseBeforeRollout);
    if x :| x in before && x.id == id && x.operations != [] {
      OfPhaseMember(plan.migrations, PhaseBeforeRollout, x);
      timing := MigrationTiming(x, PhaseBeforeRollout);
    } else {
      assert p.after == 0 && m.after[..0] == [];
      var x :| x in CommittedAt(m, p) && x.id == id && x.operations != [];
      SelectMember(m.during, p.during, x);
      var k :| 0 <= k < |m.during| && p.during[k] && m.during[k] == x;
      assert x in m.during;
      OfPhaseMember(plan.migrations, PhaseDuringRollout, x);
      timing := MigrationTiming(x, PhaseDuringRollout);
    }
  }

  lemma CarriesEarly(plan: RolloutPlan, g: Graph, timing: MigrationTiming) returns (i: nat)
    requires PlanValid(plan) && GraphOf(MachineOf(plan, [], false), g)
    requires timing in plan.migrations && timing.migration.operations != [] && timing.phase != PhaseAfterRollout
    ensures i < |g.nodes|
    ensures var m := MachineOf(plan, [], false); !Complete(m, Decode(m, i)) && Carries(g.nodes[i], timing.migration.id)
  {
    hide Carries, IsNode, IsStep, IsAdjacency, LinkValid;
    var m := MachineOf(plan, [], false);
    var x := timing.migration;
    assert timing.phase != PhaseUnknown;
    OfPhaseMember(plan.migrations, timing.phase, x);
    var p := StartOf(m);
    if timing.phase == PhaseDuringRollout {
      assert x in m.during;
      var k :| 0 <= k < |m.during| && m.during[k] == x;
      p := p.(during := p.during[k := true]);
      SelectMember(m.during, p.during, x);
      assert x in CommittedAt(m, p);
    }
    assert p.steps[0] != m.LastSteps()[0];
    assert !Complete(m, p);
    NodeOf(m, g, p);
    i := Encode(m, p);
    NodeCarries(plan, g, i, x.id);
  }

  /** An offending contract migration really is carried before completion. */
  lemma ViolatingLinkIsEarly(plan: RolloutPlan, link: ExpandContractLink)
    requires PlanValid(plan) && link in plan.expandContractLinks && LinkViolates(plan, link)
    ensures exists timing :: timing in plan.migrations && timing.migration.id == link.contractMigrationID
                             && timing.migration.operations != [] && timing.phase != PhaseAfterRollout
  {
    assert LinkValid(plan.migrations, link);
    var timing := LastWithID(plan.migrations, link.contractMigrationID).value;
    assert timing.migration.operations != [];
  }

  /**
   For a valid plan, an UNSAFE verdict always has an early contract operation behind
   it, and a SAFE one hides such an operation exactly when a contract ID is shadowed.
   */
  lemma ExpandContractExact(plan: RolloutPlan, g: Graph)
    requires PlanValid(plan) && GraphOf(MachineOf(plan, [], false), g)
    ensures ExpandContractVerdict(plan) == VerdictUnsafe ==> EarlyContractOp(plan, g)
    ensures ExpandContractVerdict(plan) == VerdictSafe ==> (EarlyContractOp(plan, g) <==> ShadowedContract(plan))
  {
    hide Carries, IsNode, IsStep, IsAdjacency, PlanValid, Complete, Decode, GraphOf, MachineOf;
    MachineHasThreeSteps(plan, [], false);
    if EarlyContractOp(plan, g) && ExpandContractVerdict(plan) == VerdictSafe {
      var m := MachineOf(plan, [], false);
      var i, link :|
        && 0 <= i < |g.nodes| && !Complete(m, Decode(m, i))
        && link in plan.expandContractLinks && Carries(g.nodes[i], link.contractMigrationID);
      EarlyCarry(plan, g, link.contractMigrationID);
      assert !LinkViolates(plan, link);
    }
    if ShadowedContract(plan) {
      var link, timing :|
        && link in plan.expandContractLinks && timing in plan.migrations
        && timing.migration.id == link.contractMigrationID
        && timing.migration.operations != [] && timing.phase != PhaseAfterRollout
        && !LinkViolates(plan, link);
      EarlyCarry(plan, g, link.contractMigrationID);
    }
    if ExpandContractVerdict(plan) == VerdictUnsafe {
      var i :| 0 <= i < |plan.expandContractLinks| && LinkViolates(plan, plan.expandContractLinks[i]);
      ViolatingLinkIsEarly(plan, plan.expandContractLinks[i]);
      EarlyCarry(plan, g, plan.expandContractLinks[i].contractMigrationID);
    }
  }

  ghost predicate UniqueIDs(migrations: seq<MigrationTiming>) {
    forall i, j :: 0 <= i < j < |migrations| ==> migrations[i].migration.id != migrations[j].migration.id
  }

  /** With unique migration IDs the structural check decides reachability. */
  lemma ExpandContractDecides(plan: RolloutPlan, g: Graph)
    requires PlanValid(plan) && GraphOf(MachineOf(plan, [], false), g) && UniqueIDs(plan.migrations)
    ensures ExpandContractVerdict(plan) == VerdictSafe <==> !EarlyContractOp(plan, g)
  {
    hide PlanValid, EarlyContractOp, GraphOf, MachineOf;
    ExpandContractExact(plan, g);
    forall link, timing | link in plan.expandContractLinks && timing in plan.migrations
                          && timing.migration.id == link.contractMigrationID && !LinkViolates(plan, link)
      ensures timing.phase == PhaseAfterRollout
    {
      var last := LastWithID(plan.migrations, link.contractMigrationID).value;
      var i :| 0 <= i < |plan.migrations| && plan.migrations[i] == timing;
      var j :| 0 <= j < |plan.migrations| && plan.migrations[j] == last;
      assert i == j;
    }
  }

  // ---- a shadowed contract ----

  function AddOp(): MigrationOp {
    MigrationOp(OpAddColumn, "t", "b", "", "text", true, None, NonDestructive, Reversible)
  }

  function RelaxOp(): MigrationOp {
    MigrationOp(OpDropNotNull, "t", "b", "", "", false, None, NonDestructive, ConditionallyReversible)
  }

  /** The contract file c is declared during and after the rollout. */
  function ShadowedPlan(): RolloutPlan {
    var wl := Workload("w", "svc", 1, RolloutStrategy(StrategyRecreate, IntOrPercent(false, 0, 0), IntOrPercent(false, 0, 0)));
    var e, c := Migration("e", [AddOp()]), Migration("c", [RelaxOp()]);
    RolloutPlan(Schema(map[]), [WorkloadChange(wl, "v1", "v2")],
      [MigrationTiming(e, PhaseBeforeRollout), MigrationTiming(c, PhaseDuringRollout), MigrationTiming(c, PhaseAfterRollout)],
      None, [ExpandContractLink("e", "c")])
  }

  lemma ShadowedLink()
    ensures var plan := ShadowedPlan();
            PlanValid(plan) && ShadowedContract(plan) && ExpandContractVerdict(plan) == VerdictSafe
  {
    hide LastWithID;
    var plan := ShadowedPlan();
    var t, link := plan.migrations, plan.expandContractLinks[0];
    LastWithIDIsLast(t, "e", 0);
    LastWithIDIsLast(t, "c", 2);
    assert t[0].migration.operations[0].kind == OpAddColumn && t[2].migration.operations[0].kind == OpDropNotNull;
    assert LinkValid(t, link);
    assert link in plan.expandContractLinks && t[1] in t && !LinkViolates(plan, link);
  }

  /**
   A valid plan with a shadowed contract: the same file declared during and after the
   rollout, dropping a NOT NULL that an added column never had. Nothing in it fails.
   */
  lemma ShadowedContractExists() returns (plan: RolloutPlan)
    ensures PlanValid(plan) && ShadowedContract(plan) && ExpandContractVerdict(plan) == VerdictSafe
    ensures ThreeSteps(MachineOf(plan, [], false)) && Valid(MachineOf(plan, [], false), TargetOf(MachineOf(plan, [], false)))
    ensures !SchemaStateAt(MachineOf(plan, [], false), TargetOf(MachineOf(plan, [], false))).indeterminate
  {
    hide SchemaStateAt, FoldApply, Apply, Commit, PlanValid, ShadowedContract, ExpandContractVerdict, OfPhase, Valid, MachineOf;
    plan := ShadowedPlan();
    ShadowedLink();
    var t := plan.migrations;
    AddThenRelax(AddOp(), RelaxOp());
    OnePerPhase(plan, t[0].migration, t[1].migration, t[2].migration);
    ShadowedTarget(plan, t[0].migration, AddOp(), t[1].migration, RelaxOp());
  }

  lemma OnePerPhase(plan: RolloutPlan, b: Migration, d: Migration, a: Migration)
    requires plan.migrations ==
             [MigrationTiming(b, PhaseBeforeRollout), MigrationTiming(d, PhaseDuringRollout), MigrationTiming(a, PhaseAfterRollout)]
    ensures OfPhase(plan.migrations, PhaseBeforeRollout) == [b]
    ensures OfPhase(plan.migrations, PhaseDuringRollout) == [d]
    ensures OfPhase(plan.migrations, PhaseAfterRollout) == [a]
  {
    var t := plan.migrations;
    assert t[..2][..1] == t[..1] && t[..1][..0] == [];
    forall phase ensures OfPhase(t[..1], phase) == if phase == PhaseBeforeRollout then [b] else [] {
    }
    forall phase ensures OfPhase(t[..2], phase) == OfPhase(t[..1], phase) + (if phase == PhaseDuringRollout then [d] else []) {
    }
  }

  lemma AddThenRelax(add: MigrationOp, relax: MigrationOp)
    requires add.kind == OpAddColumn && relax.kind == OpDropNotNull && add.TargetColumn() == relax.TargetColumn()
    ensures FoldApply(Schema(map[]), [add]).Ok?
    ensures FoldApply(FoldApply(Schema(map[]), [add]).value, [relax, relax]).Ok?
  {
    hide FoldApply;
    var empty: seq<MigrationOp> := [];
    FoldApplyNone(Schema(map[]));
    FoldApplySnoc(Schema(map[]), empty, add);
    assert empty + [add] == [add];
    var s := FoldApply(Schema(map[]), [add]).value;
    FoldApplyNone(s);
    FoldApplySnoc(s, empty, relax);
    FoldApplySnoc(s, [relax], relax);
    assert empty + [relax] == [relax] && [relax] + [relax] == [relax, relax];
  }

  lemma FoldApplyNone(s: Schema)
    ensures FoldApply(s, []) == Ok(s)
  {
  }

  lemma ShadowedTarget(plan: RolloutPlan, e: Migration, add: MigrationOp, c: Migration, relax: MigrationOp)
    requires OfPhase(plan.migrations, PhaseBeforeRollout) == [e]
    requires OfPhase(plan.migrations, PhaseDuringRollout) == [c] && OfPhase(plan.migrations, PhaseAfterRollout) == [c]
    requires e.operations == [add] && c.operations == [relax] && FoldApply(plan.baseSchema, [add]).Ok?
    requires FoldApply(FoldApply(plan.baseSchema, [add]).value, [relax, relax]).Ok?
    ensures ThreeSteps(MachineOf(plan, [], false)) && Valid(MachineOf(plan, [], false), TargetOf(MachineOf(plan, [], false)))
    ensures !SchemaStateAt(MachineOf(plan, [], false), TargetOf(MachineOf(plan, [], false))).indeterminate
  {
    hide FoldApply, Commit, Trail, OfPhase;
    var m := MachineOf(plan, [], false);
    StartValid(m);
    assert m.AllDuring() == [true] && [c][..0] == [] && [true][..0] == [];
    assert Select([c], [true]) == [c];
    assert CommittedAt(m, TargetOf(m)) == [c, c];
    TwoTagged(c, relax);
    TrailSingle(e);
    CommitIsFold(SchemaState(plan.baseSchema, [], false), Trail([e]));
    assert OpsOf(Trail([e])) == [add];
    CommitIsFold(m.base, Trail([c, c]));
  }

  lemma TwoTagged(c: Migration, op: MigrationOp)
    requires c.operations == [op]
    ensures OpsOf(Trail([c, c])) == [op, op]
  {
    TrailAppend([c], [c]);
    TrailSingle(c);
    assert [c] + [c] == [c, c];
  }
}
