/**
 "During the rollout" is the most demanding phase: taking a migration out of it, in
 list order, leaves a subset of the states, so no verdict gets worse; taking it out
 of turn can always add one.
 */
module Phases {
  import opened Wrappers
  import opened Verdicts
  import opened Schemas
  import opened Rollout
  import opened Replay
  import opened Machines
  import opened Graphs
  import opened GraphTheory
  import opened Checks
  import opened Api
  import opened Order
  import opened Pairs
  import Confluence

  function MovedTo(plan: RolloutPlan, i: nat, phase: MigrationPhase): RolloutPlan
    requires i < |plan.migrations|
  {
    plan.(migrations := plan.migrations[i := plan.migrations[i].(phase := phase)])
  }

  /** Entry i is the last during-migration, and no after-migration is listed before it. */
  ghost predicate LastDuring(timings: seq<MigrationTiming>, i: nat) {
    && i < |timings| && timings[i].phase == PhaseDuringRollout
    && (forall j :: i < j < |timings| ==> timings[j].phase != PhaseDuringRollout)
    && (forall j :: 0 <= j < i ==> timings[j].phase != PhaseAfterRollout)
  }

  /** Entry i is the first during-migration, and no before-migration is listed after it. */
  ghost predicate FirstDuring(timings: seq<MigrationTiming>, i: nat) {
    && i < |timings| && timings[i].phase == PhaseDuringRollout
    && (forall j :: 0 <= j < i ==> timings[j].phase != PhaseDuringRollout)
    && (forall j :: i < j < |timings| ==> timings[j].phase != PhaseBeforeRollout)
  }

  /** The moves out of the rollout that keep the list order. */
  ghost predicate CanMove(timings: seq<MigrationTiming>, i: nat, to: MigrationPhase) {
    || (to == PhaseAfterRollout && LastDuring(timings, i))
    || (to == PhaseBeforeRollout && FirstDuring(timings, i))
  }

  // ---- splitting a list of migrations by phase ----

  lemma {:induction false} OfPhaseAppend(a: seq<MigrationTiming>, b: seq<MigrationTiming>, phase: MigrationPhase)
    ensures OfPhase(a + b, phase) == OfPhase(a, phase) + OfPhase(b, phase)
    decreases |b|
  {
    if b == [] {
      assert a + b == a;
    } else {
      var n := |b| - 1;
      OfPhaseAppend(a, b[..n], phase);
      assert (a + b)[..|a + b| - 1] == a + b[..n];
    }
  }

  lemma {:induction false} OfPhaseNone(timings: seq<MigrationTiming>, phase: MigrationPhase)
    requires forall j :: 0 <= j < |timings| ==> timings[j].phase != phase
    ensures OfPhase(timings, phase) == []
    decreases |timings|
  {
    if timings != [] {
      OfPhaseNone(timings[..|timings| - 1], phase);
    }
  }

  lemma OfPhaseSplit(timings: seq<MigrationTiming>, i: nat, phase: MigrationPhase)
    requires i < |timings|
    ensures OfPhase(timings, phase) ==
            OfPhase(timings[..i], phase) + (if timings[i].phase == phase then [timings[i].migration] else [])
            + OfPhase(timings[i + 1..], phase)
  {
    hide OfPhase;
    assert timings == (timings[..i] + [timings[i]]) + timings[i + 1..];
    OfPhaseAppend(timings[..i] + [timings[i]], timings[i + 1..], phase);
    OfPhaseAppend(timings[..i], [timings[i]], phase);
    OfPhaseOne(timings[i], phase);
  }

  lemma OfPhaseOne(timing: MigrationTiming, phase: MigrationPhase)
    ensures OfPhase([timing], phase) == if timing.phase == phase then [timing.migration] else []
  {
    assert [timing][..0] == [];
  }

  /** How the three lists change when entry i moves to another phase. */
  lemma MovedPhases(plan: RolloutPlan, i: nat, to: MigrationPhase, phase: MigrationPhase)
    requires i < |plan.migrations|
    ensures OfPhase(MovedTo(plan, i, to).migrations, phase) ==
            OfPhase(plan.migrations[..i], phase) + (if to == phase then [plan.migrations[i].migration] else [])
            + OfPhase(plan.migrations[i + 1..], phase)
  {
    hide OfPhase;
    var moved := MovedTo(plan, i, to).migrations;
    OfPhaseSplit(moved, i, phase);
    assert moved[..i] == plan.migrations[..i] && moved[i + 1..] == plan.migrations[i + 1..];
  }

  lemma {:induction false} SelectCons(x: Migration, ms: seq<Migration>, b: bool, bits: seq<bool>)
    requires |bits| == |ms|
    ensures Select([x] + ms, [b] + bits) == (if b then [x] else []) + Select(ms, bits)
    decreases |ms|
  {
    if ms == [] {
      assert [x] + ms == [x] && [b] + bits == [b] && [x][..0] == [] && [b][..0] == [];
    } else {
      var n := |ms| - 1;
      SelectCons(x, ms[..n], b, bits[..n]);
      assert ([x] + ms)[..n + 1] == [x] + ms[..n] && ([b] + bits)[..n + 1] == [b] + bits[..n];
    }
  }

  lemma SelectSnoc(ms: seq<Migration>, x: Migration, bits: seq<bool>, b: bool)
    requires |bits| == |ms|
    ensures Select(ms + [x], bits + [b]) == Select(ms, bits) + (if b then [x] else [])
  {
    assert (ms + [x])[..|ms|] == ms && (bits + [b])[..|bits|] == bits;
  }

  // ---- states of one machine that another also reaches ----

  /** Some state of m has these live steps and this schema state. */
  ghost predicate Reaches(m: Machine, steps: seq<nat>, ss: SchemaState) {
    ThreeSteps(m) && exists p :: Valid(m, p) && p.steps == steps && SchemaStateAt(m, p) == ss
  }

  /** Every state of n is one of m: the same step of every workload, with the same schema state. */
  ghost predicate StatesWithin(n: Machine, m: Machine) {
    ThreeSteps(n) && forall p :: Valid(n, p) ==> Reaches(m, p.steps, SchemaStateAt(n, p))
  }

  /** Every state of a is one of b: the same live set, with the same schema state. */
  ghost predicate NodesWithin(a: seq<RolloutState>, b: seq<RolloutState>) {
    forall s :: s in a ==> exists t :: t in b && t.live == s.live && t.schemaState == s.schemaState
  }

  lemma NodesFromStates(n: Machine, h: Graph, m: Machine, g: Graph)
    requires GraphOf(n, h) && GraphOf(m, g) && n.progressions == m.progressions && StatesWithin(n, m)
    ensures NodesWithin(h.nodes, g.nodes)
  {
    hide IsStep, IsAdjacency, Encode, Decode, SchemaStateAt, Valid, CanonicalOf, LiveFor;
    forall s | s in h.nodes ensures exists t :: t in g.nodes && t.live == s.live && t.schemaState == s.schemaState {
      var i :| 0 <= i < |h.nodes| && h.nodes[i] == s;
      assert IsNode(n, i, s);
      DecodeRoundTrip(n, i);
      var p := Decode(n, i);
      assert Reaches(m, p.steps, SchemaStateAt(n, p));
      var q :| Valid(m, q) && q.steps == p.steps && SchemaStateAt(m, q) == SchemaStateAt(n, p);
      NodeOf(m, g, q);
      ValidShape(n, p);
      var t := g.nodes[Encode(m, q)];
      SameLive(LiveAt(n, p), s.live, t.live);
      assert t in g.nodes;
    }
  }

  lemma ValidShape(m: Machine, p: Progress)
    requires ThreeSteps(m) && Valid(m, p)
    ensures |p.steps| == |m.progressions|
  {
  }

  lemma SameLive(live: seq<LiveVersion>, a: seq<LiveVersion>, b: seq<LiveVersion>)
    requires CanonicalOf(live, a) && CanonicalOf(live, b)
    ensures a == b
  {
    CanonicalUnique(a, b);
  }

  lemma PairsFromNodes(a: seq<RolloutState>, b: seq<RolloutState>)
    requires NodesWithin(a, b)
    ensures PairsWithin(a, b)
  {
  }

  // ---- during to after ----

  /** m commits x as its last during-migration, n as its first after-migration. */
  ghost predicate Delayed(m: Machine, n: Machine, x: Migration) {
    m.base == n.base && m.progressions == n.progressions && m.during == n.during + [x] && n.after == [x] + m.after
  }

  lemma DelayedStates(m: Machine, n: Machine, x: Migration, p: Progress)
    requires ThreeSteps(n) && Delayed(m, n, x) && Valid(n, p)
    ensures Reaches(m, p.steps, SchemaStateAt(n, p))
  {
    hide Commit, Trail, Select;
    var q: Progress;
    if p.after == 0 {
      q := Progress(p.steps, p.during + [false], 0);
      SelectSnoc(n.during, x, p.during, false);
    } else {
      q := Progress(p.steps, m.AllDuring(), p.after - 1);
      SelectSnoc(n.during, x, p.during, true);
      assert m.AllDuring() == p.during + [true];
      assert n.after[..p.after] == [x] + m.after[..p.after - 1];
    }
    assert Valid(m, q);
    assert CommittedAt(m, q) == CommittedAt(n, p);
  }

  // ---- during to before ----

  /** m commits x as its first during-migration, n before the rollout. */
  ghost predicate Advanced(m: Machine, n: Machine, x: Migration) {
    && n.base == Commit(m.base, Trail([x])) && m.progressions == n.progressions
    && m.during == [x] + n.during && n.after == m.after
  }

  lemma AdvancedStates(m: Machine, n: Machine, x: Migration, p: Progress)
    requires ThreeSteps(n) && Advanced(m, n, x) && Valid(n, p)
    ensures Reaches(m, p.steps, SchemaStateAt(n, p))
  {
    hide Commit, Trail, Select;
    var q := Progress(p.steps, [true] + p.during, p.after);
    assert p.during == n.AllDuring() ==> q.during == m.AllDuring();
    assert Valid(m, q);
    SelectCons(x, n.during, true, p.during);
    var rest := CommittedAt(n, p);
    assert CommittedAt(m, q) == [x] + rest;
    TrailAppend([x], rest);
    CommitAppend(m.base, Trail([x]), Trail(rest));
  }

  // ---- the theorem ----

  lemma LastDuringDelays(plan: RolloutPlan, i: nat)
    requires LastDuring(plan.migrations, i)
    ensures Delayed(MachineOf(plan, [], false), MachineOf(MovedTo(plan, i, PhaseAfterRollout), [], false), plan.migrations[i].migration)
  {
    hide OfPhase, Commit, Trail;
    var t := plan.migrations;
    OfPhaseSplit(t, i, PhaseBeforeRollout);
    OfPhaseSplit(t, i, PhaseDuringRollout);
    OfPhaseSplit(t, i, PhaseAfterRollout);
    MovedPhases(plan, i, PhaseAfterRollout, PhaseBeforeRollout);
    MovedPhases(plan, i, PhaseAfterRollout, PhaseDuringRollout);
    MovedPhases(plan, i, PhaseAfterRollout, PhaseAfterRollout);
    OfPhaseNone(t[i + 1..], PhaseDuringRollout);
    OfPhaseNone(t[..i], PhaseAfterRollout);
  }

  lemma FirstDuringAdvances(plan: RolloutPlan, i: nat)
    requires FirstDuring(plan.migrations, i)
    ensures Advanced(MachineOf(plan, [], false), MachineOf(MovedTo(plan, i, PhaseBeforeRollout), [], false), plan.migrations[i].migration)
  {
    hide OfPhase, Commit, Trail;
    var t := plan.migrations;
    OfPhaseSplit(t, i, PhaseBeforeRollout);
    OfPhaseSplit(t, i, PhaseDuringRollout);
    OfPhaseSplit(t, i, PhaseAfterRollout);
    MovedPhases(plan, i, PhaseBeforeRollout, PhaseBeforeRollout);
    MovedPhases(plan, i, PhaseBeforeRollout, PhaseDuringRollout);
    MovedPhases(plan, i, PhaseBeforeRollout, PhaseAfterRollout);
    OfPhaseNone(t[..i], PhaseDuringRollout);
    OfPhaseNone(t[i + 1..], PhaseBeforeRollout);
    BaseAdvances(plan, i, OfPhase(t, PhaseBeforeRollout), t[i].migration);
  }

  lemma BaseAdvances(plan: RolloutPlan, i: nat, before: seq<Migration>, x: Migration)
    requires i < |plan.migrations| && OfPhase(plan.migrations, PhaseBeforeRollout) == before
    requires OfPhase(MovedTo(plan, i, PhaseBeforeRollout).migrations, PhaseBeforeRollout) == before + [x]
    ensures BaseState(MovedTo(plan, i, PhaseBeforeRollout), [], false) == Commit(BaseState(plan, [], false), Trail([x]))
  {
    hide Commit, Trail, OfPhase;
    TrailAppend(before, [x]);
    CommitAppend(SchemaState(plan.baseSchema, [], false), Trail(before), Trail([x]));
  }

  /** Such a move adds no state: every state of the moved plan is one of the plan. */
  lemma MoveAddsNoState(plan: RolloutPlan, i: nat, to: MigrationPhase)
    requires CanMove(plan.migrations, i, to)
    ensures StatesWithin(MachineOf(MovedTo(plan, i, to), [], false), MachineOf(plan, [], false))
  {
    hide Valid, SchemaStateAt, Delayed, Advanced, BaseState, OfPhase, Reaches;
    var m, n := MachineOf(plan, [], false), MachineOf(MovedTo(plan, i, to), [], false);
    var x := plan.migrations[i].migration;
    if to == PhaseAfterRollout {
      LastDuringDelays(plan, i);
      forall p | Valid(n, p) ensures Reaches(m, p.steps, SchemaStateAt(n, p)) {
        DelayedStates(m, n, x, p);
      }
    } else {
      FirstDuringAdvances(plan, i);
      forall p | Valid(n, p) ensures Reaches(m, p.steps, SchemaStateAt(n, p)) {
        AdvancedStates(m, n, x, p);
      }
    }
  }

  /**
   Moving the last during-migration to after the rollout, or the first one to before it,
   leaves a subset of the (live set, schema state) combinations, so it worsens no verdict
   of RP-DB-001..005, of RP-API or of RP-ORDER.
   */
  lemma DuringIsMostDemanding(plan: RolloutPlan, i: nat, to: MigrationPhase, g: Graph, h: Graph, services: Services, contracts: Contracts)
    requires PlanValid(plan) && CanMove(plan.migrations, i, to)
    requires GraphOf(MachineOf(plan, [], false), g)
    requires GraphOf(MachineOf(MovedTo(plan, i, to), [], false), h)
    ensures NodesWithin(h.nodes, g.nodes)
    ensures forall check, vacuousWhenNoOp ::
      Dominance(CheckVerdict(check, vacuousWhenNoOp, services, h.nodes)) <=
      Dominance(CheckVerdict(check, vacuousWhenNoOp, services, g.nodes))
    ensures forall finding ::
      Dominance(ApiVerdict(finding, services, contracts, h.nodes)) <= Dominance(ApiVerdict(finding, services, contracts, g.nodes))
    ensures Dominance(OrderVerdict(services, h.nodes)) <= Dominance(OrderVerdict(services, g.nodes))
  {
    hide GraphOf, CheckVerdict, Covered, PlanValid, BaseState, OfPhase, NodesWithin, PairsWithin, StatesWithin, PlanPair, Occurs,
         ApiVerdict, OrderVerdict;
    var m, n := MachineOf(plan, [], false), MachineOf(MovedTo(plan, i, to), [], false);
    MoveAddsNoState(plan, i, to);
    NodesFromStates(n, h, m, g);
    PairsFromNodes(h.nodes, g.nodes);
    ValidHasWorkload(plan);
    GraphPairs(n, plan.workloads, h);
    forall check, vacuousWhenNoOp
      ensures Dominance(CheckVerdict(check, vacuousWhenNoOp, services, h.nodes)) <=
              Dominance(CheckVerdict(check, vacuousWhenNoOp, services, g.nodes))
    {
      FewerPairsNoWorse(check, vacuousWhenNoOp, services, h.nodes, g.nodes);
    }
    forall finding
      ensures Dominance(ApiVerdict(finding, services, contracts, h.nodes)) <= Dominance(ApiVerdict(finding, services, contracts, g.nodes))
    {
      FewerLiveSetsNoWorseApi(finding, services, contracts, h.nodes, g.nodes);
    }
    FewerLiveSetsNoWorseOrder(services, h.nodes, g.nodes);
  }

  lemma FewerLiveSetsNoWorseApi(finding: ApiFinding, services: Services, contracts: Contracts, a: seq<RolloutState>, b: seq<RolloutState>)
    requires NodesWithin(a, b)
    ensures Dominance(ApiVerdict(finding, services, contracts, a)) <= Dominance(ApiVerdict(finding, services, contracts, b))
  {
    hide Breaks, ConsumerGap;
    if id :| id in ApiIDs(finding, services, contracts, a) {
      var v :| ApiViolationIn(services, contracts, a, v) && v.finding == finding && v.stateID == id;
      var s :| s in a && IsApiViolation(services, contracts, s, v);
      var t :| t in b && t.live == s.live && t.schemaState == s.schemaState;
      assert IsApiViolation(services, contracts, t, v.(stateID := t.id));
      assert ApiViolationIn(services, contracts, b, v.(stateID := t.id));
      assert t.id in ApiIDs(finding, services, contracts, b);
    }
    if gap :| ApiGapIn(services, contracts, a, gap) {
      var s :| s in a && IsApiGap(services, contracts, s, gap);
      var t :| t in b && t.live == s.live && t.schemaState == s.schemaState;
      assert IsApiGap(services, contracts, t, gap);
      assert ApiGapIn(services, contracts, b, gap);
    }
  }

  lemma FewerLiveSetsNoWorseOrder(services: Services, a: seq<RolloutState>, b: seq<RolloutState>)
    requires NodesWithin(a, b)
    ensures Dominance(OrderVerdict(services, a)) <= Dominance(OrderVerdict(services, b))
  {
    hide Below, OrderGap;
    if id :| id in OrderIDs(services, a) {
      var v :| OrderViolationIn(services, a, v) && v.stateID == id;
      var s :| s in a && IsOrderViolation(services, s, v);
      var t :| t in b && t.live == s.live && t.schemaState == s.schemaState;
      assert IsOrderViolation(services, t, v.(stateID := t.id));
      assert OrderViolationIn(services, b, v.(stateID := t.id));
      assert t.id in OrderIDs(services, b);
    }
    if gap :| OrderGapIn(services, a, gap) {
      var s :| s in a && IsOrderGap(services, s, gap);
      var t :| t in b && t.live == s.live && t.schemaState == s.schemaState;
      assert IsOrderGap(services, t, gap);
      assert OrderGapIn(services, b, gap);
    }
  }

  lemma ValidHasWorkload(plan: RolloutPlan)
    requires PlanValid(plan)
    ensures |plan.workloads| > 0
  {
  }

  // ---- without the list order ----

  /**
   The order condition is needed: of two during-migrations on one column, moving the
   first to after the rollout commits it second, where it fails. No state of the plan
   is indeterminate, but one of the moved plan is, so a SAFE check turns UNKNOWN.
   */
  lemma EarlierMoveAddsPairs() returns (plan: RolloutPlan)
    ensures PlanValid(plan) && |plan.migrations| == 2 && !LastDuring(plan.migrations, 0)
    ensures forall lv, ss :: PlanPair(MachineOf(plan, [], false), plan.workloads, lv, ss) ==> !ss.indeterminate
    ensures exists lv, ss :: PlanPair(MachineOf(MovedTo(plan, 0, PhaseAfterRollout), [], false), plan.workloads, lv, ss)
                             && ss.indeterminate
  {
    hide Commit, Trail, Select, Apply, OfPhase, StateWith;
    var strict := MigrationOp(OpSetNotNull, "t", "x", "", "", false, None, ConditionallyDestructive, Reversible);
    var drop := MigrationOp(OpDropColumn, "t", "x", "", "", false, None, Destructive, Irreversible);
    var a, d := Migration("a", [strict]), Migration("d", [drop]);
    var wl := Workload("w", "svc", 1, RolloutStrategy(StrategyRecreate, IntOrPercent(false, 0, 0), IntOrPercent(false, 0, 0)));
    var base := Schema(map["t" := Table("t", map["x" := Column("x", "text", true, None)])]);
    var ta, td := MigrationTiming(a, PhaseDuringRollout), MigrationTiming(d, PhaseDuringRollout);
    plan := RolloutPlan(base, [WorkloadChange(wl, "v1", "v2")], [ta, td], None, []);
    var m, n := MachineOf(plan, [], false), MachineOf(MovedTo(plan, 0, PhaseAfterRollout), [], false);
    Confluence.TwoDuring(plan, a, d);
    SetThenDrop(base, strict, drop);
    forall lv, ss | PlanPair(m, plan.workloads, lv, ss) ensures !ss.indeterminate {
      var w: nat, bits: seq<bool> :| DuringPair(m, plan.workloads, lv, ss, w, bits);
      SetDropState(m, a, strict, d, drop, bits);
    }
    assert MovedTo(plan, 0, PhaseAfterRollout).migrations == [ta.(phase := PhaseAfterRollout), td];
    AfterDuring(MovedTo(plan, 0, PhaseAfterRollout), a, d);
    DropSetState(n, a, strict, d, drop);
    var lv, ss := New(plan.workloads[0]), StateWith(n, n.AllDuring(), 1);
    assert AfterPair(n, plan.workloads, lv, ss, 0, 1);
    assert PlanPair(n, plan.workloads, lv, ss) && ss.indeterminate;
    assert plan.migrations[1].phase == PhaseDuringRollout;
  }

  lemma AfterDuring(plan: RolloutPlan, a: Migration, d: Migration)
    requires plan.migrations == [MigrationTiming(a, PhaseAfterRollout), MigrationTiming(d, PhaseDuringRollout)]
    ensures var m := MachineOf(plan, [], false);
            m.during == [d] && m.after == [a] && m.base == SchemaState(plan.baseSchema, [], false)
  {
    hide OfPhase;
    var t := plan.migrations;
    assert t == [t[0]] + [t[1]];
    forall phase ensures OfPhase(t, phase) == OfPhase([t[0]], phase) + OfPhase([t[1]], phase) {
      OfPhaseAppend([t[0]], [t[1]], phase);
      OfPhaseOne(t[0], phase);
      OfPhaseOne(t[1], phase);
    }
    OfPhaseOne(t[0], PhaseBeforeRollout);
    OfPhaseOne(t[1], PhaseBeforeRollout);
    OfPhaseOne(t[0], PhaseDuringRollout);
    OfPhaseOne(t[1], PhaseDuringRollout);
    OfPhaseOne(t[0], PhaseAfterRollout);
    OfPhaseOne(t[1], PhaseAfterRollout);
  }

  lemma SetThenDrop(base: Schema, strict: MigrationOp, drop: MigrationOp)
    requires strict.kind == OpSetNotNull && drop.kind == OpDropColumn && strict.TargetColumn() == drop.TargetColumn()
    requires HasColumn(base, strict.TargetColumn()) && WellFormed(base)
    ensures FoldApply(base, [strict]).Ok? && FoldApply(base, [drop]).Ok?
    ensures FoldApply(base, [strict, drop]).Ok? && FoldApply(base, [drop, strict]).Err?
  {
    Confluence.FoldOne(base, strict);
    Confluence.FoldOne(base, drop);
    FoldApplySnoc(base, [strict], drop);
    FoldApplySnoc(base, [drop], strict);
    assert [strict] + [drop] == [strict, drop] && [drop] + [strict] == [drop, strict];
  }

  lemma SetDropState(m: Machine, a: Migration, strict: MigrationOp, d: Migration, drop: MigrationOp, bits: seq<bool>)
    requires m.during == [a, d] && |bits| == 2 && a.operations == [strict] && d.operations == [drop] && !m.base.indeterminate
    requires FoldApply(m.base.schema, [strict]).Ok? && FoldApply(m.base.schema, [drop]).Ok?
    requires FoldApply(m.base.schema, [strict, drop]).Ok?
    ensures !StateWith(m, bits, 0).indeterminate
  {
    hide Commit, Trail, Select, FoldApply;
    var ms := (if bits[0] then [a] else []) + (if bits[1] then [d] else []);
    Confluence.TwoSelected(a, d, bits);
    assert ms + m.after[..0] == ms;
    CommitIsFold(m.base, Trail(ms));
    Confluence.TwoOps(a, strict, d, drop);
    OneOp(a, strict);
    assert FoldApply(m.base.schema, []).Ok? by {
      Nothing(m.base.schema);
    }
    assert OpsOf(Trail([])) == [] by {
      NoTrail();
    }
    assert ms == [] || ms == [a] || ms == [d] || ms == [a, d];
  }

  lemma Nothing(s: Schema)
    ensures FoldApply(s, []) == Ok(s)
  {
  }

  lemma NoTrail()
    ensures Trail([]) == [] && OpsOf([]) == []
  {
  }

  lemma OneOp(a: Migration, op: MigrationOp)
    requires a.operations == [op]
    ensures OpsOf(Trail([a])) == [op]
  {
    TrailSingle(a);
  }

  lemma DropSetState(n: Machine, a: Migration, strict: MigrationOp, d: Migration, drop: MigrationOp)
    requires n.during == [d] && n.after == [a] && a.operations == [strict] && d.operations == [drop]
    requires FoldApply(n.base.schema, [drop, strict]).Err?
    ensures StateWith(n, n.AllDuring(), 1).indeterminate
  {
    hide Commit, Trail, FoldApply;
    assert n.during[..0] == [] && n.AllDuring() == [true] && [true][..0] == [];
    assert Select(n.during, n.AllDuring()) == [d];
    assert [d] + n.after[..1] == [d, a];
    CommitIsFold(n.base, Trail([d, a]));
    Confluence.TwoOps(d, drop, a, strict);
  }
}
