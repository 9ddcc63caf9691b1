/**
 The whole verification run (internal/verify/verify.go) and its central promise:
 an overall SAFE leaves no hazard in any reachable state, forward or rolling back.
 */
module Pipeline {
  import opened Wrappers
  import opened Verdicts
  import opened Rollout
  import opened Machines
  import opened Graphs
  import opened Paths
  import opened Checks
  import opened Engine
  import opened ExpandContract
  import opened Family
  import opened Rollback
  import opened Api
  import opened Order
  import opened Oracles

  /** A check whose verdict is SAFE flags no state, unless it was not applicable. */
  lemma SafeFlagsNothing(check: Check, vacuousWhenNoOp: bool, services: Services, nodes: seq<RolloutState>, s: RolloutState)
    requires CheckVerdict(check, vacuousWhenNoOp, services, nodes) == VerdictSafe
    requires !NotApplicable(check, vacuousWhenNoOp, nodes) && s in nodes
    ensures !Flags(check, services, s)
  {
    FlagIsViolation(check, services, nodes, s);
  }

  lemma FlagIsViolation(check: Check, services: Services, nodes: seq<RolloutState>, s: RolloutState)
    requires s in nodes
    ensures Flags(check, services, s) ==> AnyViolation(check, services, nodes)
  {
    hide IsViolation;
    if v :| IsViolation(check, services, s, v) {
      assert ViolationIn(check, services, nodes, v);
    }
  }

  /** When RP-DB-001..005 are all SAFE on a list of states, the oracle finds nothing in it. */
  lemma SafeFamilyNoHazard(vacuousWhenNoOp: bool, services: Services, nodes: seq<RolloutState>)
    requires forall i :: 0 <= i < 5 ==> CheckVerdict(CheckAt(i), vacuousWhenNoOp, services, nodes) == VerdictSafe
    ensures !OracleHazard(services, nodes, vacuousWhenNoOp)
  {
    hide CheckVerdict, SchemaHazard, Flags;
    if vacuousWhenNoOp ==> AnyCommittedOp(nodes) {
      forall s | s in nodes ensures !SchemaHazard(services, s) {
        forall i | 0 <= i < 5 ensures !Flags(CheckAt(i), services, s) {
          SafeFlagsNothing(CheckAt(i), vacuousWhenNoOp, services, nodes, s);
        }
        UnflaggedNoHazard(services, s);
      }
    }
  }

  lemma UnflaggedNoHazard(services: Services, s: RolloutState)
    requires forall i :: 0 <= i < 5 ==> !Flags(CheckAt(i), services, s)
    ensures !SchemaHazard(services, s)
  {
    hide IsViolation, SchemaHazard;
    HazardIffFlagged(services, s);
    assert FlagsAbsentRename(services, s) ==> Flags(CheckRenames, services, s);
    assert !Flags(CheckAt(0), services, s) && !Flags(CheckAt(1), services, s) && !Flags(CheckAt(2), services, s);
    assert !Flags(CheckAt(3), services, s) && !Flags(CheckAt(4), services, s);
  }

  lemma SafeApiOrderNoHazard(services: Services, contracts: Contracts, nodes: seq<RolloutState>)
    requires forall finding :: ApiVerdict(finding, services, contracts, nodes) == VerdictSafe
    requires OrderVerdict(services, nodes) == VerdictSafe
    ensures !OracleApiOrderHazard(services, contracts, nodes)
  {
    hide ApiVerdict, OrderVerdict, ApiHazard, OrderHazard;
    if s :| s in nodes && exists clv, plv, c :: ApiHazard(services, contracts, s, clv, plv, c) {
      var clv, plv, c :| ApiHazard(services, contracts, s, clv, plv, c);
      var finding := ApiHazardIsFlagged(services, contracts, nodes, s, clv, plv, c);
    }
    if s :| s in nodes && exists clv, plv, dep :: OrderHazard(services, s, clv, plv, dep) {
      var clv, plv, dep :| OrderHazard(services, s, clv, plv, dep);
      OrderHazardIsFlagged(services, nodes, s, clv, plv, dep);
    }
  }

  /** The forward and, if declared, the rollback graph are free of what the oracles look for. */
  ghost predicate NoHazard(plan: RolloutPlan, g: Graph, services: Services, contracts: Contracts)
    requires g.target < |g.nodes|
  {
    && !OracleHazard(services, g.nodes, true)
    && !OracleApiOrderHazard(services, contracts, g.nodes)
    && (plan.rollbackTarget.Some? ==>
          && RollbackBuildable(plan)
          && forall rg :: GraphOf(RollbackMachine(plan, g.nodes[g.target].schemaState), rg) ==>
               !OracleHazard(services, rg.nodes, false))
  }

  /** Sixteen diagnostics, each right about its own invariant. */
  ghost predicate IsRun(plan: RolloutPlan, g: Graph, services: Services, contracts: Contracts, diags: seq<Diagnostic>)
    requires g.target < |g.nodes|
  {
    && |diags| == 16
    && DecidesFamily(plan, g, services, true, diags[..6])
    && (plan.rollbackTarget.Some? ==>
          exists rg :: DecidesRollbackPlan(plan, g, services, diags[6..10], rg) && ShowsRun(rg, diags[8]))
    && (plan.rollbackTarget.None? ==> forall i :: 6 <= i < 10 ==> diags[i] == SafeDiagnostic(diags[i].invariantID))
    && DecidesApi(MissingEndpoint, g, services, contracts, diags[10])
    && DecidesApi(MissingRequestField, g, services, contracts, diags[11])
    && DecidesApi(MissingResponseField, g, services, contracts, diags[12])
    && DecidesApiAggregate(g, services, contracts, diags[13])
    && DecidesOrder(g, services, diags[14]) && DecidesOrder(g, services, diags[15])
  }

  /**
   Every counterexample on the forward graph ends a shortest real run of it, save the
   rollback family's, and every UNKNOWN names a gap, save RP-ROLLBACK-003's.
   */
  ghost predicate Explained(g: Graph, diags: seq<Diagnostic>) {
    && |diags| == 16
    && (forall i :: 0 <= i < 16 && (i < 6 || 10 <= i) ==> ShowsRun(g, diags[i]))
    && forall i :: 0 <= i < 16 && i != 9 ==> NamesGap(diags[i])
  }

  lemma ApiExplained(m: Machine, g: Graph, services: Services, contracts: Contracts, api: seq<Diagnostic>)
    requires GraphOf(m, g) && |api| == 4
    requires DecidesApi(MissingEndpoint, g, services, contracts, api[0])
    requires DecidesApi(MissingRequestField, g, services, contracts, api[1])
    requires DecidesApi(MissingResponseField, g, services, contracts, api[2])
    requires DecidesApiAggregate(g, services, contracts, api[3])
    ensures forall i :: 0 <= i < 4 ==> ShowsRun(g, api[i]) && NamesGap(api[i])
  {
    hide GraphOf, DecidesApi, DecidesApiAggregate, ShowsRun, NamesGap;
    OneApiExplained(m, g, services, contracts, MissingEndpoint, api[0]);
    OneApiExplained(m, g, services, contracts, MissingRequestField, api[1]);
    OneApiExplained(m, g, services, contracts, MissingResponseField, api[2]);
    ApiAggregateExplained(m, g, services, contracts, api[3]);
  }

  lemma UnknownApiHasGap(finding: ApiFinding, services: Services, contracts: Contracts, nodes: seq<RolloutState>) returns (gap: Gap)
    requires ApiVerdict(finding, services, contracts, nodes) == VerdictUnknown
    ensures ApiGapIn(services, contracts, nodes, gap)
  {
    hide ApiGapIn, ApiIDs;
    gap :| ApiGapIn(services, contracts, nodes, gap);
  }

  lemma OneApiExplained(m: Machine, g: Graph, services: Services, contracts: Contracts, finding: ApiFinding, d: Diagnostic)
    requires GraphOf(m, g) && DecidesApi(finding, g, services, contracts, d)
    ensures ShowsRun(g, d) && NamesGap(d)
  {
    hide GraphOf, ApiVerdict, ApiGapIn, ApiIDs, IsShortestRun;
    if d.counterexample.Some? {
      CounterexampleIsRun(m, g, ApiIDs(finding, services, contracts, g.nodes), d.counterexample.value);
    }
    if d.verdict == VerdictUnknown {
      var gap := UnknownApiHasGap(finding, services, contracts, g.nodes);
      assert gap in d.missingEvidence;
    }
  }

  lemma ApiAggregateExplained(m: Machine, g: Graph, services: Services, contracts: Contracts, d: Diagnostic)
    requires GraphOf(m, g) && DecidesApiAggregate(g, services, contracts, d)
    ensures ShowsRun(g, d) && NamesGap(d)
  {
    hide GraphOf, ApiVerdict, ApiGapIn, ApiIDs, IsShortestRun, IsFirstUnsafe;
    if d.verdict == VerdictUnsafe {
      var finding :| IsFirstUnsafe(finding, services, contracts, g.nodes)
                     && BestCounterexample(g, ApiIDs(finding, services, contracts, g.nodes), d.counterexample.value);
      CounterexampleIsRun(m, g, ApiIDs(finding, services, contracts, g.nodes), d.counterexample.value);
    }
    if d.verdict == VerdictUnknown {
      var finding :| ApiVerdict(finding, services, contracts, g.nodes) == VerdictUnknown;
      var gap := UnknownApiHasGap(finding, services, contracts, g.nodes);
      assert gap in d.missingEvidence;
    }
  }

  lemma OrderExplained(m: Machine, g: Graph, services: Services, d: Diagnostic)
    requires GraphOf(m, g) && DecidesOrder(g, services, d)
    ensures ShowsRun(g, d) && NamesGap(d)
  {
    hide GraphOf, OrderGapIn, OrderIDs, IsShortestRun;
    if d.counterexample.Some? {
      CounterexampleIsRun(m, g, OrderIDs(services, g.nodes), d.counterexample.value);
    }
    if d.verdict == VerdictUnknown {
      var gap :| OrderGapIn(services, g.nodes, gap);
      assert gap in d.missingEvidence;
    }
  }

  lemma DecidesFamilyLength(plan: RolloutPlan, g: Graph, services: Services, vacuousWhenNoOp: bool, diags: seq<Diagnostic>)
    requires g.target < |g.nodes| && DecidesFamily(plan, g, services, vacuousWhenNoOp, diags)
    ensures |diags| == 6
  {
  }

  lemma AllExplained(g: Graph, forward: seq<Diagnostic>, rollback: seq<Diagnostic>, api: seq<Diagnostic>, order: seq<Diagnostic>)
    requires |forward| == 6 && |rollback| == 4 && |api| == 4 && |order| == 2
    requires forall i :: 0 <= i < 6 ==> ShowsRun(g, forward[i]) && NamesGap(forward[i])
    requires forall i :: 0 <= i < 3 ==> NamesGap(rollback[i])
    requires forall i :: 0 <= i < 4 ==> ShowsRun(g, api[i]) && NamesGap(api[i])
    requires forall i :: 0 <= i < 2 ==> ShowsRun(g, order[i]) && NamesGap(order[i])
    ensures Explained(g, forward + rollback + api + order)
  {
    hide ShowsRun, NamesGap;
    var all := forward + rollback + api + order;
    assert forall i :: 0 <= i < 6 ==> all[i] == forward[i];
    assert forall i :: 6 <= i < 10 ==> all[i] == rollback[i - 6];
    assert forall i :: 10 <= i < 14 ==> all[i] == api[i - 10];
    assert forall i :: 14 <= i < 16 ==> all[i] == order[i - 14];
  }

  lemma SafeNamesGap(id: string)
    ensures NamesGap(SafeDiagnostic(id))
  {
  }

  /**
   Runs every modelled invariant of a plan. Whatever the plan, the contract files
   and the API registry: if the overall verdict is SAFE, no reachable state of the
   forward graph or of the rollback graph is hazardous.
   */
  method VerifyPlan(plan: RolloutPlan, services: Services, contracts: Contracts)
    returns (r: Result<(Graph, seq<Diagnostic>, Verdict), BuildError>)
    ensures r.Ok? <==> PhasesKnown(plan) && MachineOf(plan, [], false).LatticeSize() <= MAX_GRAPH_NODES
    ensures r.Err? ==> r.error == if PhasesKnown(plan) then TooManyNodes else NoValidPhase
    ensures r.Ok? ==>
      var (g, diags, overall) := r.value;
      && GraphOf(MachineOf(plan, [], false), g)
      && g.target < |g.nodes|
      && IsRun(plan, g, services, contracts, diags) && Explained(g, diags)
      && overall == VerdictFor(AnyUnsafe(diags), AnyUnknown(diags))
      && (overall == VerdictSafe ==> NoHazard(plan, g, services, contracts))
  {
    hide GraphOf, MachineOf, Scannable, DecidesFamily, DecidesRollbackPlan, DecidesApi, DecidesApiAggregate, DecidesOrder, NoHazard,
         AnyUnsafe, AnyUnknown, ShowsRun, NamesGap, Explained;
    var built := Build(plan);
    if built.Err? {
      return Err(built.error);
    }
    var g := built.value;
    GraphScannable(MachineOf(plan, [], false), g);
    var forward := Evaluate(plan, g, services);
    var rollback, rg := EvaluateRollbackPlan(plan, g, services);
    var api := EvaluateAPI(g, services, contracts);
    var order := EvaluateOrder(g, services);
    DecidesFamilyLength(plan, g, services, true, forward);
    var diags := forward + rollback + api + order;
    var overall := Aggregate(diags);
    ghost var m := MachineOf(plan, [], false);
    FamilyExplained(m, plan, g, services, true, forward);
    if plan.rollbackTarget.Some? {
      RollbackExplained(plan, g, services, rollback, rg);
    } else {
      forall i | 0 <= i < 3 ensures NamesGap(rollback[i]) {
        SafeNamesGap(rollback[i].invariantID);
      }
    }
    ApiExplained(m, g, services, contracts, api);
    OrderExplained(m, g, services, order[0]);
    OrderExplained(m, g, services, order[1]);
    AllExplained(g, forward, rollback, api, order);
    assert diags[..6] == forward && diags[6..10] == rollback;
    if overall == VerdictSafe {
      SafeMeansNoHazard(plan, g, services, contracts, forward, rollback, api, order, rg);
    }
    return Ok((g, diags, overall));
  }

  lemma AllSafe(diags: seq<Diagnostic>)
    requires VerdictFor(AnyUnsafe(diags), AnyUnknown(diags)) == VerdictSafe
    ensures forall i :: 0 <= i < |diags| && !diags[i].advisory ==> diags[i].verdict == VerdictSafe
  {
  }

  lemma PartsSafe(a: seq<Diagnostic>, b: seq<Diagnostic>, c: seq<Diagnostic>, d: seq<Diagnostic>)
    requires VerdictFor(AnyUnsafe(a + b + c + d), AnyUnknown(a + b + c + d)) == VerdictSafe
    ensures forall i :: 0 <= i < |a| && !a[i].advisory ==> a[i].verdict == VerdictSafe
    ensures forall i :: 0 <= i < |b| && !b[i].advisory ==> b[i].verdict == VerdictSafe
    ensures forall i :: 0 <= i < |c| && !c[i].advisory ==> c[i].verdict == VerdictSafe
    ensures forall i :: 0 <= i < |d| && !d[i].advisory ==> d[i].verdict == VerdictSafe
  {
    var all := a + b + c + d;
    AllSafe(all);
    assert forall i :: 0 <= i < |a| ==> all[i] == a[i];
    assert forall i :: 0 <= i < |b| ==> all[|a| + i] == b[i];
    assert forall i :: 0 <= i < |c| ==> all[|a| + |b| + i] == c[i];
    assert forall i :: 0 <= i < |d| ==> all[|a| + |b| + |c| + i] == d[i];
  }

  /** No false SAFE: SAFE diagnostics of all families leave no hazard anywhere. */
  lemma SafeMeansNoHazard(plan: RolloutPlan, g: Graph, services: Services, contracts: Contracts,
                          forward: seq<Diagnostic>, rollback: seq<Diagnostic>, api: seq<Diagnostic>, order: seq<Diagnostic>,
                          rg: Graph)
    requires g.target < |g.nodes|
    requires DecidesFamily(plan, g, services, true, forward)
    requires |rollback| == 4
    requires plan.rollbackTarget.Some? ==> DecidesRollbackPlan(plan, g, services, rollback, rg)
    requires |api| == 4 && DecidesApi(MissingEndpoint, g, services, contracts, api[0])
    requires DecidesApi(MissingRequestField, g, services, contracts, api[1])
    requires DecidesApi(MissingResponseField, g, services, contracts, api[2])
    requires |order| == 2 && DecidesOrder(g, services, order[0])
    requires var diags := forward + rollback + api + order;
             VerdictFor(AnyUnsafe(diags), AnyUnknown(diags)) == VerdictSafe
    ensures NoHazard(plan, g, services, contracts)
  {
    hide CheckVerdict, ApiVerdict, OrderVerdict, GapIn, ApiGapIn, OrderGapIn, BestCounterexample, GraphOf, OracleHazard,
         OracleApiOrderHazard, AnyUnsafe, AnyUnknown, DecidesIrreversible, IsRollbackClass, DecidesExpandContract;
    PartsSafe(forward, rollback, api, order);
    assert forall i :: 0 <= i < 5 ==> Decides(CheckAt(i), true, g, services, forward[i]);
    SafeFamilyNoHazard(true, services, g.nodes);
    forall finding ensures ApiVerdict(finding, services, contracts, g.nodes) == VerdictSafe {
      assert finding == MissingEndpoint || finding == MissingRequestField || finding == MissingResponseField;
    }
    SafeApiOrderNoHazard(services, contracts, g.nodes);
    if plan.rollbackTarget.Some? {
      SafeRollbackNoHazard(plan, g.nodes[g.target].schemaState, services, rollback[2], rg);
    }
  }

  /**
   The source's run appends further diagnostics, of families not modelled here. Whatever
   they say, an overall SAFE still leaves no hazard.
   */
  lemma SafeWithMoreNoHazard(plan: RolloutPlan, g: Graph, services: Services, contracts: Contracts,
                             diags: seq<Diagnostic>, more: seq<Diagnostic>)
    requires g.target < |g.nodes| && IsRun(plan, g, services, contracts, diags)
    requires VerdictFor(AnyUnsafe(diags + more), AnyUnknown(diags + more)) == VerdictSafe
    ensures NoHazard(plan, g, services, contracts)
  {
    hide DecidesFamily, DecidesRollbackPlan, DecidesApi, DecidesApiAggregate, DecidesOrder, NoHazard, ShowsRun;
    FewerDiagnostics(diags, more);
    var forward, rollback, api, order := diags[..6], diags[6..10], diags[10..14], diags[14..];
    assert diags == forward + rollback + api + order;
    var rg := g;
    if plan.rollbackTarget.Some? {
      rg :| DecidesRollbackPlan(plan, g, services, rollback, rg) && ShowsRun(rg, diags[8]);
    }
    SafeMeansNoHazard(plan, g, services, contracts, forward, rollback, api, order, rg);
  }

  lemma FewerDiagnostics(diags: seq<Diagnostic>, more: seq<Diagnostic>)
    requires VerdictFor(AnyUnsafe(diags + more), AnyUnknown(diags + more)) == VerdictSafe
    ensures VerdictFor(AnyUnsafe(diags), AnyUnknown(diags)) == VerdictSafe
  {
    assert forall i :: 0 <= i < |diags| ==> (diags + more)[i] == diags[i];
  }

  /** No false SAFE on rollback: if RP-ROLLBACK-002 is SAFE, the rollback graph shows no hazard of any age. */
  lemma SafeRollbackNoHazard(plan: RolloutPlan, left: SchemaState, services: Services, d: Diagnostic, rg: Graph)
    requires plan.rollbackTarget.Some? && DecidesOldVersion(plan, left, services, d, rg)
    requires d.verdict == VerdictSafe
    ensures RollbackBuildable(plan)
    ensures forall g :: GraphOf(RollbackMachine(plan, left), g) ==> !OracleHazard(services, g.nodes, false)
  {
    hide GraphOf, CheckVerdict, GapIn, FamilyGap, FamilyCounterexample, OracleHazard;
    assert RollbackBuildable(plan);
    forall i | 0 <= i < 5 ensures CheckVerdict(CheckAt(i), false, services, rg.nodes) == VerdictSafe {
    }
    SafeFamilyNoHazard(false, services, rg.nodes);
    forall g | GraphOf(RollbackMachine(plan, left), g) ensures !OracleHazard(services, g.nodes, false) {
      SameNodes(RollbackMachine(plan, left), g, rg);
    }
  }

  /** A machine determines the nodes of its graph. */
  lemma SameNodes(m: Machine, a: Graph, b: Graph)
    requires GraphOf(m, a) && GraphOf(m, b)
    ensures a.nodes == b.nodes
  {
    hide IsStep, IsAdjacency, Decode, SchemaStateAt, LiveAt, Valid;
    forall i | 0 <= i < |a.nodes| ensures a.nodes[i] == b.nodes[i] {
      assert IsNode(m, i, a.nodes[i]) && IsNode(m, i, b.nodes[i]);
      CanonicalUnique(a.nodes[i].live, b.nodes[i].live);
    }
  }
}
