/** The column-compatibility family as a whole, and aggregation (internal/invariant/rpdb.go). */
module Family {
  import opened Wrappers
  import opened Verdicts
  import opened Schemas
  import opened Rollout
  import opened Replay
  import opened Machines
  import opened Graphs
  import opened GraphTheory
  import opened Trails
  import opened Paths
  import opened Checks
  import opened Engine
  import opened ExpandContract

  const FAMILY_IDS := ["RP-DB-001", "RP-DB-002", "RP-DB-003", "RP-DB-004", "RP-DB-005"]

  /** RP-DB-001..005 in report order. */
  function CheckAt(i: nat): Check
    requires i < 5
  {
    if i == 0 then CheckExistence(Reads)
    else if i == 1 then CheckExistence(Writes)
    else if i == 2 then CheckTypes
    else if i == 3 then CheckNotNull
    else CheckRenames
  }

  /** The six diagnostics are right, each about its own invariant. */
  ghost predicate DecidesFamily(plan: RolloutPlan, g: Graph, services: Services, vacuousWhenNoOp: bool, diags: seq<Diagnostic>)
    requires g.target < |g.nodes|
  {
    && |diags| == 6
    && (forall i :: 0 <= i < 5 ==>
          diags[i].invariantID == FAMILY_IDS[i] && Decides(CheckAt(i), vacuousWhenNoOp, g, services, diags[i]))
    && DecidesExpandContract(plan, g, diags[5])
  }

  method EvaluateColumnFamily(plan: RolloutPlan, g: Graph, services: Services, vacuousWhenNoOp: bool)
    returns (diags: seq<Diagnostic>)
    requires Scannable(g) && g.target < |g.nodes|
    ensures DecidesFamily(plan, g, services, vacuousWhenNoOp, diags)
  {
    hide Scannable, DecidesExpandContract, Decides;
    var d1 := EvaluateCheck("RP-DB-001", CheckExistence(Reads), g, services, vacuousWhenNoOp);
    var d2 := EvaluateCheck("RP-DB-002", CheckExistence(Writes), g, services, vacuousWhenNoOp);
    var d3 := EvaluateCheck("RP-DB-003", CheckTypes, g, services, vacuousWhenNoOp);
    var d4 := EvaluateCheck("RP-DB-004", CheckNotNull, g, services, vacuousWhenNoOp);
    var d5 := EvaluateCheck("RP-DB-005", CheckRenames, g, services, vacuousWhenNoOp);
    var d6 := EvaluateExpandContractSequence(plan, g);
    return [d1, d2, d3, d4, d5, d6];
  }

  /** Evaluate: the family on a forward plan's graph, vacuous when nothing commits. */
  method Evaluate(plan: RolloutPlan, g: Graph, services: Services) returns (diags: seq<Diagnostic>)
    requires Scannable(g) && g.target < |g.nodes|
    ensures DecidesFamily(plan, g, services, true, diags)
  {
    diags := EvaluateColumnFamily(plan, g, services, true);
  }

  ghost predicate AnyUnsafe(diags: seq<Diagnostic>) {
    exists i :: 0 <= i < |diags| && diags[i].verdict == VerdictUnsafe && !diags[i].advisory
  }

  ghost predicate AnyUnknown(diags: seq<Diagnostic>) {
    exists i :: 0 <= i < |diags| && diags[i].verdict == VerdictUnknown
  }

  /** The overall verdict: UNSAFE dominates UNKNOWN dominates SAFE, advisory UNSAFE findings aside. */
  method Aggregate(diags: seq<Diagnostic>) returns (v: Verdict)
    ensures v == VerdictFor(AnyUnsafe(diags), AnyUnknown(diags))
  {
    v := VerdictSafe;
    for i := 0 to |diags|
      invariant v == VerdictFor(AnyUnsafe(diags[..i]), AnyUnknown(diags[..i]))
    {
      AggregateSnoc(diags[..i], diags[i]);
      assert diags[..i + 1] == diags[..i] + [diags[i]];
      if !(diags[i].advisory && diags[i].verdict == VerdictUnsafe) {
        v := Combine(v, diags[i].verdict);
      }
    }
    assert diags[..|diags|] == diags;
  }

  lemma AggregateSnoc(diags: seq<Diagnostic>, d: Diagnostic)
    ensures AnyUnsafe(diags + [d]) <==> AnyUnsafe(diags) || (d.verdict == VerdictUnsafe && !d.advisory)
    ensures AnyUnknown(diags + [d]) <==> AnyUnknown(diags) || d.verdict == VerdictUnknown
  {
    var all := diags + [d];
    assert all[|diags|] == d;
    assert forall i :: 0 <= i < |diags| ==> all[i] == diags[i];
  }

  /** An advisory finding never makes a run UNSAFE; any other UNSAFE does, and UNKNOWN is never lost to SAFE. */
  lemma AdvisoryNeverBlocks(diags: seq<Diagnostic>, d: Diagnostic)
    ensures var before, after := VerdictFor(AnyUnsafe(diags), AnyUnknown(diags)), VerdictFor(AnyUnsafe(diags + [d]), AnyUnknown(diags + [d]));
            after == if d.verdict == VerdictSafe || (d.advisory && d.verdict == VerdictUnsafe) then before
                     else if d.verdict == VerdictUnsafe || before == VerdictUnsafe then VerdictUnsafe
                     else VerdictUnknown
  {
    AggregateSnoc(diags, d);
  }

  /** A built graph can be scanned. */
  lemma GraphScannable(m: Machine, g: Graph)
    requires GraphOf(m, g)
    ensures Scannable(g) && g.target < |g.nodes|
  {
    hide IsStep, IsAdjacency, Valid, Encode, Decode, CanonicalOf, LiveAt, SchemaStateAt;
    GraphSearchable(m, g);
    StartValid(m);
    EncodeRoundTrip(m, TargetOf(m));
    assert forall i :: 0 <= i < |g.nodes| ==> IsNode(m, i, g.nodes[i]);
  }

  // ---- a plan that changes no schema ----

  ghost predicate ChangesNothing(plan: RolloutPlan) {
    forall t :: t in plan.migrations ==> t.migration.operations == []
  }

  lemma {:induction false} NoOperationsNoTrail(ms: seq<Migration>)
    requires forall m :: m in ms ==> m.operations == []
    ensures Trail(ms) == []
    decreases |ms|
  {
    if ms != [] {
      NoOperationsNoTrail(ms[..|ms| - 1]);
    }
  }

  lemma NothingCommitted(plan: RolloutPlan, g: Graph)
    requires ChangesNothing(plan) && GraphOf(MachineOf(plan, [], false), g)
    ensures forall i :: 0 <= i < |g.nodes| ==>
      g.nodes[i].schemaState.committedOps == [] && !g.nodes[i].schemaState.indeterminate
  {
    hide IsStep, IsAdjacency, Decode, CanonicalOf, LiveAt;
    var m := MachineOf(plan, [], false);
    forall i | 0 <= i < |g.nodes|
      ensures g.nodes[i].schemaState.committedOps == [] && !g.nodes[i].schemaState.indeterminate
    {
      assert IsNode(m, i, g.nodes[i]);
      DecodeRoundTrip(m, i);
      NothingCommittedAt(plan, Decode(m, i));
    }
  }

  lemma NothingCommittedAt(plan: RolloutPlan, p: Progress)
    requires ChangesNothing(plan) && Valid(MachineOf(plan, [], false), p)
    ensures SchemaStateAt(MachineOf(plan, [], false), p) == SchemaState(plan.baseSchema, [], false)
  {
    hide Valid, Trail, OfPhase, Select;
    var m := MachineOf(plan, [], false);
    forall phase, x | x in OfPhase(plan.migrations, phase) ensures x.operations == [] {
      OfPhaseMember(plan.migrations, phase, x);
    }
    NoOperationsNoTrail(OfPhase(plan.migrations, PhaseBeforeRollout));
    CommittedIsDeclared(m, p);
    NoOperationsNoTrail(CommittedAt(m, p));
  }

  lemma CommittedIsDeclared(m: Machine, p: Progress)
    requires ThreeSteps(m) && Valid(m, p)
    ensures forall x :: x in CommittedAt(m, p) ==> x in m.during || x in m.after
  {
    forall x | x in Select(m.during, p.during) ensures x in m.during {
      SelectMember(m.during, p.during, x);
    }
  }

  /**
   A plan that changes no schema passes RP-DB-001..005 whatever its contract files say or
   lack: what the base schema already breaks is not the plan's doing.
   */
  lemma ChangingNothingIsSafe(plan: RolloutPlan, g: Graph, services: Services, i: nat)
    requires ChangesNothing(plan) && GraphOf(MachineOf(plan, [], false), g) && i < 5
    ensures CheckVerdict(CheckAt(i), true, services, g.nodes) == VerdictSafe
  {
    hide GraphOf, ChangesNothing;
    NothingCommitted(plan, g);
    var check := CheckAt(i);
    if check.CheckTypes? || check.CheckRenames? {
      forall v ensures !ViolationIn(check, services, g.nodes, v) {
      }
      forall gap ensures !GapIn(check, services, g.nodes, gap) {
      }
    }
  }

  // ---- what a reader of a diagnostic can rely on ----

  /** An UNKNOWN says what is missing. */
  ghost predicate NamesGap(d: Diagnostic) {
    d.verdict == VerdictUnknown ==> d.missingEvidence != {}
  }

  /** The counterexample shows a node of g and a shortest real run of g to it. */
  ghost predicate ShowsRun(g: Graph, d: Diagnostic) {
    d.counterexample.Some? ==>
      var c := d.counterexample.value;
      && c.violatingState.id < |g.nodes| && c.violatingState == g.nodes[c.violatingState.id]
      && IsShortestRun(g, c.path, c.violatingState.id)
  }

  /** In a built graph every node is reachable, so what leads to a node is a run. */
  lemma LeadsToIsRun(m: Machine, g: Graph, path: seq<TransitionEvent>, id: nat)
    requires GraphOf(m, g) && id < |g.nodes| && LeadsTo(g, path, id)
    ensures IsShortestRun(g, path, id)
  {
    hide GraphOf, IsShortestRun, IsDistance, PathLength, IsPath;
    var run := DistanceIsRank(m, g, id);
    assert Reachable(g, id);
  }

  lemma CounterexampleIsRun(m: Machine, g: Graph, ids: iset<nat>, c: Counterexample)
    requires GraphOf(m, g) && BestCounterexample(g, ids, c)
    ensures IsShortestRun(g, c.path, c.violatingState.id)
  {
    hide GraphOf, LeadsTo;
    LeadsToIsRun(m, g, c.path, c.violatingState.id);
  }

  lemma CarryingIsRun(m: Machine, g: Graph, id: string, c: Counterexample)
    requires GraphOf(m, g) && g.target < |g.nodes| && ShowsCarrying(g, id, c)
    ensures c.violatingState.id < |g.nodes| && c.violatingState == g.nodes[c.violatingState.id]
    ensures IsShortestRun(g, c.path, c.violatingState.id)
  {
    hide GraphOf, LeadsTo, Scannable, IsShortestRun;
    GraphScannable(m, g);
    NodeIDs(g);
    LeadsToIsRun(m, g, c.path, c.violatingState.id);
  }

  lemma NodeIDs(g: Graph)
    requires Scannable(g)
    ensures forall i :: 0 <= i < |g.nodes| ==> g.nodes[i].id == i
  {
  }

  lemma CheckExplained(m: Machine, g: Graph, check: Check, vacuousWhenNoOp: bool, services: Services, d: Diagnostic)
    requires GraphOf(m, g) && Decides(check, vacuousWhenNoOp, g, services, d)
    ensures ShowsRun(g, d) && NamesGap(d)
  {
    hide GraphOf, GapIn, AnyViolation, ViolatingIDs, IsShortestRun;
    if d.counterexample.Some? {
      CounterexampleIsRun(m, g, ViolatingIDs(check, services, g.nodes), d.counterexample.value);
    }
    if d.verdict == VerdictUnknown {
      var gap :| GapIn(check, services, g.nodes, gap);
      assert gap in d.missingEvidence;
    }
  }

  lemma FamilyExplained(m: Machine, plan: RolloutPlan, g: Graph, services: Services, vacuousWhenNoOp: bool, diags: seq<Diagnostic>)
    requires GraphOf(m, g) && g.target < |g.nodes| && DecidesFamily(plan, g, services, vacuousWhenNoOp, diags)
    ensures forall i :: 0 <= i < 6 ==> ShowsRun(g, diags[i]) && NamesGap(diags[i])
  {
    hide GraphOf, Decides, ShowsCarrying, IsShortestRun, ShowsRun, NamesGap, IsLeastViolating;
    forall i | 0 <= i < 5 ensures ShowsRun(g, diags[i]) && NamesGap(diags[i]) {
      assert Decides(CheckAt(i), vacuousWhenNoOp, g, services, diags[i]);
      CheckExplained(m, g, CheckAt(i), vacuousWhenNoOp, services, diags[i]);
    }
    ExpandContractExplained(m, plan, g, diags[5]);
  }

  lemma ExpandContractExplained(m: Machine, plan: RolloutPlan, g: Graph, d: Diagnostic)
    requires GraphOf(m, g) && g.target < |g.nodes| && DecidesExpandContract(plan, g, d)
    ensures ShowsRun(g, d) && NamesGap(d)
  {
    hide GraphOf, ShowsCarrying, IsShortestRun, IsLeastViolating;
    if d.verdict == VerdictUnsafe {
      var link :| IsLeastViolating(plan, link) && ShowsCarrying(g, link.contractMigrationID, d.counterexample.value);
      CarryingIsRun(m, g, link.contractMigrationID, d.counterexample.value);
    }
  }
}
