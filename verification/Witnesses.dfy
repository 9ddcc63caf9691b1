/**
 Small valid plans that show where a natural claim about the invariants stops holding.
 Each is the input of one theorem elsewhere that says exactly when the claim holds.
 */
module Witnesses {
  import opened Wrappers
  import opened Verdicts
  import opened Schemas
  import opened Rollout
  import opened Replay
  import opened Machines
  import opened Graphs
  import opened GraphTheory
  import Text
  import opened Versions
  import opened Checks
  import opened Engine
  import opened Family
  import opened Api
  import opened Order
  import opened RollbackClass
  import opened Rollback
  import opened Pairs
  import Phases
  import opened Independence
  import opened Coherence
  import opened Refinement
  import opened Meetings
  import opened Rolling

  // ---- a column dropped during the rollout ----

  const COLUMN := ColumnRef("t", "c")

  const RECREATE := RolloutStrategy(StrategyRecreate, IntOrPercent(false, 0, 0), IntOrPercent(false, 0, 0))
  const ROLLING := RolloutStrategy(StrategyRollingUpdate, IntOrPercent(false, 1, 0), IntOrPercent(false, 0, 0))
  const UNRECOGNISED := RolloutStrategy(StrategyUnknown, IntOrPercent(false, 0, 0), IntOrPercent(false, 0, 0))

  function DropOp(): MigrationOp {
    MigrationOp(OpDropColumn, "t", "c", "", "", false, None, Destructive, ConditionallyReversible)
  }

  /** v1 to v2 of one service, t.c dropped on the way, v1 to roll back to. */
  function DropPlan(): RolloutPlan {
    var wl := Workload("w", "svc", 1, RECREATE);
    RolloutPlan(
      Schema(map["t" := Table("t", map["c" := Column("c", "text", true, None)])]),
      [WorkloadChange(wl, "v1", "v2")],
      [MigrationTiming(Migration("drop", [DropOp()]), PhaseDuringRollout)],
      Some(RollbackTarget(wl, "v1")),
      [])
  }

  lemma DropPlanValid()
    ensures PlanValid(DropPlan()) && RollbackBuildable(DropPlan())
    ensures TargetKey(DropPlan()) == ServiceKey("svc", "v1")
  {
  }

  /** What the plan leaves: the column gone, and one operation in the trail. */
  lemma DropLeaves()
    ensures var m := MachineOf(DropPlan(), [], false);
            var left := StateWith(m, m.AllDuring(), |m.after|);
            && !left.indeterminate && !HasColumn(left.schema, COLUMN)
            && left.committedOps == [CommittedOp("drop", DropOp(), "")]
  {
    hide Commit, Apply, Trail;
    var plan := DropPlan();
    var d := plan.migrations[0].migration;
    var m := MachineOf(plan, [], false);
    OneDuring(plan, d);
    assert m.AllDuring() == [true] && [d][..0] == [] && [true][..0] == [];
    assert Select(m.during, m.AllDuring()) + m.after[..0] == [d];
    TrailSingle(d);
    assert Tagged(d) == [TaggedOp("drop", DropOp())];
    CommitDrop(m.base);
  }

  lemma CommitDrop(ss: SchemaState)
    requires ss == SchemaState(DropPlan().baseSchema, [], false)
    ensures var left := Commit(ss, [TaggedOp("drop", DropOp())]);
            && !left.indeterminate && !HasColumn(left.schema, COLUMN)
            && left.committedOps == [CommittedOp("drop", DropOp(), "")]
  {
    CommitOne(ss, TaggedOp("drop", DropOp()));
  }

  lemma OneDuring(plan: RolloutPlan, d: Migration)
    requires plan.migrations == [MigrationTiming(d, PhaseDuringRollout)]
    ensures var m := MachineOf(plan, [], false);
            m.during == [d] && m.after == [] && m.base == SchemaState(plan.baseSchema, [], false)
  {
    Phases.OfPhaseOne(plan.migrations[0], PhaseBeforeRollout);
    Phases.OfPhaseOne(plan.migrations[0], PhaseDuringRollout);
    Phases.OfPhaseOne(plan.migrations[0], PhaseAfterRollout);
  }

  lemma CommitOne(ss: SchemaState, t: TaggedOp)
    ensures Commit(ss, [t]) == CommitOp(ss, t)
  {
    assert [t][..0] == [];
  }

  /**
   Evidence can overturn a SAFE verdict of RP-ROLLBACK-001: the rollback target reads the
   dropped column, the drop is conditionally reversible, and the contract file of v2, once
   loaded, shows that it writes the column.
   */
  lemma EvidenceOverturnsSafe() returns (plan: RolloutPlan, a: Services, b: Services)
    ensures PlanValid(plan) && plan.rollbackTarget.Some? && MoreEvidence(a, b)
    ensures forall g :: GraphOf(MachineOf(plan, [], false), g) ==>
      && g.target < |g.nodes|
      && var trail := g.nodes[g.target].schemaState.committedOps;
         && IrreversibleVerdict(plan, g.nodes, trail, a) == VerdictSafe
         && IrreversibleVerdict(plan, g.nodes, trail, b) == VerdictUnsafe
  {
    hide GraphOf, MachineOf, IrreversibleVerdict, StateWith;
    plan := DropPlan();
    DropPlanValid();
    DropLeaves();
    a := map[ServiceKey("svc", "v1") := Service([COLUMN], [], [], [], [])];
    b := a[ServiceKey("svc", "v2") := Service([], [COLUMN], [], [], [])];
    forall g | GraphOf(MachineOf(plan, [], false), g)
      ensures g.target < |g.nodes|
      ensures IrreversibleVerdict(plan, g.nodes, g.nodes[g.target].schemaState.committedOps, a) == VerdictSafe
      ensures IrreversibleVerdict(plan, g.nodes, g.nodes[g.target].schemaState.committedOps, b) == VerdictUnsafe
    {
      TargetState(MachineOf(plan, [], false), g);
      NobodyWritesYet(g.nodes, a);
      V2IsLive(g);
      DropVerdicts(g.nodes, a, b);
    }
  }

  lemma NobodyWritesYet(nodes: seq<RolloutState>, a: Services)
    requires forall key :: key in a ==> a[key].schemaWrites == []
    ensures !SomeLiveVersionWrites(nodes, a, COLUMN)
  {
  }

  lemma V2IsLive(g: Graph)
    requires GraphOf(MachineOf(DropPlan(), [], false), g)
    ensures NodesMeet(g.nodes, LiveVersion("svc", "v2"), LiveVersion("svc", "v2"))
  {
    hide GraphOf, Progression;
    var plan := DropPlan();
    var v2 := LiveVersion("svc", "v2");
    assert MeetAt(plan.workloads, v2, v2, 0, 0);
    assert AlwaysMeet(plan.workloads, v2, v2);
    MeetExactly(MachineOf(plan, [], false), plan.workloads, g, v2, v2);
  }

  lemma DropVerdicts(nodes: seq<RolloutState>, a: Services, b: Services)
    requires a == map[ServiceKey("svc", "v1") := Service([COLUMN], [], [], [], [])]
    requires b == a[ServiceKey("svc", "v2") := Service([], [COLUMN], [], [], [])]
    requires !SomeLiveVersionWrites(nodes, a, COLUMN) && NodesMeet(nodes, LiveVersion("svc", "v2"), LiveVersion("svc", "v2"))
    ensures IrreversibleVerdict(DropPlan(), nodes, [CommittedOp("drop", DropOp(), "")], a) == VerdictSafe
    ensures IrreversibleVerdict(DropPlan(), nodes, [CommittedOp("drop", DropOp(), "")], b) == VerdictUnsafe
  {
    var plan, cop := DropPlan(), CommittedOp("drop", DropOp(), "");
    var svc := a[ServiceKey("svc", "v1")];
    assert svc.schemaReads[0].table == "t" && TargetKey(plan) == ServiceKey("svc", "v1");
    var s :| s in nodes && LiveVersion("svc", "v2") in s.live;
    var lv := LiveVersion("svc", "v2");
    assert KeyOf(lv) in b && b[KeyOf(lv)].WritesColumn(COLUMN);
    assert SomeLiveVersionWrites(nodes, b, COLUMN);
    assert cop in [cop] && Irrecoverable(nodes, b, svc, cop.op);
    assert forall gap :: !RemovalGapIn(TargetKey(plan), svc, [cop], gap);
    assert forall gap :: !IrreversibleGap(plan, [cop], a, gap);
  }

  /**
   The two verdicts of RP-ROLLBACK-003 can disagree: the target has no contract file, and
   the version being rolled back reads the dropped column.
   */
  lemma RollbackVerdictsDisagree() returns (plan: RolloutPlan, services: Services)
    ensures PlanValid(plan) && RollbackBuildable(plan) && TargetKey(plan) !in services
    ensures forall g :: GraphOf(MachineOf(plan, [], false), g) ==>
      g.target < |g.nodes| && AbandonedFails(plan, g.nodes[g.target].schemaState, services)
  {
    hide GraphOf, MachineOf, StateWith;
    plan := DropPlan();
    DropPlanValid();
    DropLeaves();
    services := map[ServiceKey("svc", "v2") := Service([COLUMN], [], [], [], [])];
    forall g | GraphOf(MachineOf(plan, [], false), g)
      ensures g.target < |g.nodes| && AbandonedFails(plan, g.nodes[g.target].schemaState, services)
    {
      TargetState(MachineOf(plan, [], false), g);
      ReaderFails(g.nodes[g.target].schemaState, services);
    }
  }

  lemma ReaderFails(left: SchemaState, services: Services)
    requires !left.indeterminate && !HasColumn(left.schema, COLUMN)
    requires left.committedOps == [CommittedOp("drop", DropOp(), "")]
    requires services == map[ServiceKey("svc", "v2") := Service([COLUMN], [], [], [], [])]
    ensures AbandonedFails(DropPlan(), left, services)
  {
    var cause := RemovingOp(left.committedOps, COLUMN);
    var svc := services[ServiceKey("svc", "v2")];
    assert !IsRename(cause);
    assert Offends(CheckExistence(Reads), svc, left, COLUMN, cause);
    assert PairViolates(CheckExistence(Reads), services, Abandoned(DropPlan()), left);
  }

  // ---- strategies ----

  const OPERATION := "GET /x"

  function ServingContract(): APIContract {
    APIContract(map[OPERATION := Endpoint(map[], map[])])
  }

  function Consumes(): seq<APIConsumption> {
    [APIConsumption("api", OPERATION, [], [])]
  }

  function DependsOnProvider(): seq<ServiceDependency> {
    [ServiceDependency("p", "1")]
  }

  /** A consumer and its provider, both rolled out; only the provider's strategy is open. */
  function ProviderPlan(strategy: RolloutStrategy): RolloutPlan {
    RolloutPlan(Schema(map[]),
      [WorkloadChange(Workload("p", "p", 1, strategy), "1", "2"), WorkloadChange(Workload("c", "c", 1, RECREATE), "1", "2")],
      [], None, [])
  }

  function ProviderServices(): Services {
    map[ServiceKey("p", "1") := Service([], [], [], ["api"], []),
        ServiceKey("p", "2") := Service([], [], [], ["api"], []),
        ServiceKey("c", "1") := Service([], [], DependsOnProvider(), [], Consumes()),
        ServiceKey("c", "2") := Service([], [], DependsOnProvider(), [], Consumes())]
  }

  function ProviderContracts(): Contracts {
    map[APIContractKey("api", "p", "1") := ServingContract(), APIContractKey("api", "p", "2") := ServingContract()]
  }

  lemma OneDigit(s: string, n: int)
    requires |s| == 1 && '0' <= s[0] <= '9' && n == s[0] as int - '0' as int
    ensures OrdinalsOf(s) == Some([n])
  {
    assert s == RenderVersion([n]);
    VersionRoundTrip([n]);
  }

  lemma AtLeastOne(n: int)
    requires n >= 1
    ensures !Less([n], [1])
  {
    forall k: nat ensures !LessAt([n], [1], k) {
      assert k == 0 || Segment([n], k) == Segment([1], k);
    }
  }

  lemma ProviderVersions(version: string)
    requires version == "1" || version == "2"
    ensures Comparable(version, "1") && !Below(version, "1")
  {
    OneDigit("1", 1);
    OneDigit("2", 2);
    AtLeastOne(1);
    AtLeastOne(2);
  }

  /** Whoever meets in such a plan is one of its four versions. */
  lemma WhoMeets(strategy: RolloutStrategy, x: LiveVersion, y: LiveVersion)
    requires AlwaysMeet(ProviderPlan(strategy).workloads, x, y) || MeetInShift(ProviderPlan(strategy).workloads, x, y)
    ensures KeyOf(x) in ProviderServices() && KeyOf(y) in ProviderServices()
  {
    hide Coexists;
  }

  lemma NoProviderClash(finding: ApiFinding, x: LiveVersion, y: LiveVersion)
    ensures !ApiClash(finding, ProviderServices(), ProviderContracts(), x, y)
  {
    var services, contracts := ProviderServices(), ProviderContracts();
    if KeyOf(x) in services {
      forall c, field | c in services[KeyOf(x)].apiConsumes && ContractKey(c, y) in contracts
        ensures !Breaks(finding, contracts[ContractKey(c, y)], c, field)
      {
        assert c == Consumes()[0];
      }
    }
  }

  /** With a rolling provider, every consumer always finds one. */
  lemma RollingIsClosed()
    ensures !ApiOpen(ProviderServices(), ProviderContracts(), ProviderPlan(ROLLING).workloads)
  {
    var services, contracts, workloads := ProviderServices(), ProviderContracts(), ProviderPlan(ROLLING).workloads;
    forall x ensures !ApiOpenFor(services, contracts, workloads, x) {
      if KeyOf(x) !in services {
        if AlwaysMeet(workloads, x, x) {
          WhoMeets(ROLLING, x, x);
        }
      } else {
        forall c | c in services[KeyOf(x)].apiConsumes ensures !Lacks(workloads, x, Providers(contracts, c.contractName)) {
          assert c == Consumes()[0];
          RollingProvides(x, Providers(contracts, "api"));
        }
      }
    }
  }

  lemma RollingProvides(x: LiveVersion, others: iset<LiveVersion>)
    requires LiveVersion("p", "1") in others && LiveVersion("p", "2") in others
    ensures x.serviceName == "c" ==> !Lacks(ProviderPlan(ROLLING).workloads, x, others)
  {
    var workloads := ProviderPlan(ROLLING).workloads;
    if x.serviceName == "c" {
      forall w: nat ensures !LacksAt(workloads, x, others, w) {
        assert Coexists(workloads[0]) && !CanLack(workloads[0], others);
        assert w < |workloads| && Belongs(workloads[w], x) ==> w != 0;
      }
    }
  }

  /** With a recreated provider, a consumer can stand alone. */
  lemma RecreateLacks(others: iset<LiveVersion>)
    requires LiveVersion("c", "1") !in others
    ensures Lacks(ProviderPlan(RECREATE).workloads, LiveVersion("c", "1"), others)
  {
    var workloads := ProviderPlan(RECREATE).workloads;
    assert LacksAt(workloads, LiveVersion("c", "1"), others, 1);
  }

  lemma RecreateIsOpen()
    ensures ApiOpen(ProviderServices(), ProviderContracts(), ProviderPlan(RECREATE).workloads)
    ensures OrderOpen(ProviderServices(), ProviderPlan(RECREATE).workloads)
  {
    var services, contracts, workloads := ProviderServices(), ProviderContracts(), ProviderPlan(RECREATE).workloads;
    var x := LiveVersion("c", "1");
    RecreateLacks(Providers(contracts, "api"));
    assert Consumes()[0] in services[KeyOf(x)].apiConsumes;
    assert ApiOpenFor(services, contracts, workloads, x);
    RecreateLacks(VersionsOf("p"));
    assert DependsOnProvider()[0] in services[KeyOf(x)].dependsOn;
    assert LacksDependency(services, workloads, x);
  }

  lemma ProviderOrderFine(x: LiveVersion, y: LiveVersion)
    requires KeyOf(y) in ProviderServices()
    ensures !OrderClash(ProviderServices(), x, y) && !OrderIncomparable(ProviderServices(), x, y)
  {
    hide Comparable, Below;
    var services := ProviderServices();
    if KeyOf(x) in services {
      forall dep | dep in services[KeyOf(x)].dependsOn && y.serviceName == dep.serviceName
        ensures Comparable(y.version, dep.minCompatibleVersion) && !Below(y.version, dep.minCompatibleVersion)
      {
        assert dep == DependsOnProvider()[0];
        ProviderVersions(y.version);
      }
    }
  }

  lemma RollingOrderIsClosed()
    ensures !OrderOpen(ProviderServices(), ProviderPlan(ROLLING).workloads)
  {
    hide OrderIncomparable, AlwaysMeet, MeetInShift, Lacks;
    var services, workloads := ProviderServices(), ProviderPlan(ROLLING).workloads;
    forall x, y | AlwaysMeet(workloads, x, y) || MeetInShift(workloads, x, y)
      ensures KeyOf(x) in services && !OrderIncomparable(services, x, y)
    {
      WhoMeets(ROLLING, x, y);
      ProviderOrderFine(x, y);
    }
    forall x ensures !LacksDependency(services, workloads, x) {
      if KeyOf(x) in services {
        forall dep | dep in services[KeyOf(x)].dependsOn ensures !Lacks(workloads, x, VersionsOf(dep.serviceName)) {
          assert dep == DependsOnProvider()[0];
          RollingProvides(x, VersionsOf("p"));
        }
      }
    }
  }

  lemma NothingBelow(strategy: RolloutStrategy)
    ensures !AlwaysBelow(ProviderServices(), ProviderPlan(strategy).workloads)
    ensures !ShiftBelow(ProviderServices(), ProviderPlan(strategy).workloads)
  {
    hide OrderClash, AlwaysMeet, MeetInShift;
    var workloads := ProviderPlan(strategy).workloads;
    forall x, y | AlwaysMeet(workloads, x, y) || MeetInShift(workloads, x, y) ensures !OrderClash(ProviderServices(), x, y) {
      WhoMeets(strategy, x, y);
      ProviderOrderFine(x, y);
    }
  }

  lemma UsageDeclared()
    ensures AnyAPIUsageDeclared(ProviderServices()) && AnyDependencyDeclared(ProviderServices())
  {
    var key := ServiceKey("c", "1");
    assert key in ProviderServices() && ProviderServices()[key].apiConsumes != [] && ProviderServices()[key].dependsOn != [];
  }

  /**
   A strategy can decide between SAFE and UNKNOWN: recreating the provider leaves the
   consumer alone for a while, so RP-API and RP-ORDER lack evidence they had.
   */
  lemma ProviderStrategyMatters(g: Graph, h: Graph)
    requires GraphOf(MachineOf(ProviderPlan(ROLLING), [], false), g)
    requires GraphOf(MachineOf(ProviderPlan(RECREATE), [], false), h)
    ensures PlanValid(ProviderPlan(ROLLING)) && SameButStrategy(ProviderPlan(ROLLING), ProviderPlan(RECREATE))
    ensures forall finding ::
      && ApiVerdict(finding, ProviderServices(), ProviderContracts(), g.nodes) == VerdictSafe
      && ApiVerdict(finding, ProviderServices(), ProviderContracts(), h.nodes) == VerdictUnknown
    ensures OrderVerdict(ProviderServices(), g.nodes) == VerdictSafe
    ensures OrderVerdict(ProviderServices(), h.nodes) == VerdictUnknown
  {
    hide GraphOf, ApiVerdict, OrderVerdict, ApiOpen, OrderOpen, AlwaysBelow, ShiftBelow, ApiClash, AnyAPIUsageDeclared,
         AnyDependencyDeclared, ProviderServices, ProviderContracts;
    var services, contracts := ProviderServices(), ProviderContracts();
    var p, q := ProviderPlan(ROLLING), ProviderPlan(RECREATE);
    UsageDeclared();
    RollingIsClosed();
    RecreateIsOpen();
    RollingOrderIsClosed();
    NothingBelow(ROLLING);
    NothingBelow(RECREATE);
    forall finding, x, y ensures !ApiClash(finding, services, contracts, x, y) {
      NoProviderClash(finding, x, y);
    }
    forall finding
      ensures ApiVerdict(finding, services, contracts, g.nodes) == VerdictSafe
      ensures ApiVerdict(finding, services, contracts, h.nodes) == VerdictUnknown
    {
      ApiVerdictExactly(MachineOf(p, [], false), p.workloads, g, finding, services, contracts);
      ApiVerdictExactly(MachineOf(q, [], false), q.workloads, h, finding, services, contracts);
    }
    OrderVerdictExactly(MachineOf(p, [], false), p.workloads, g, services);
    OrderVerdictExactly(MachineOf(q, [], false), q.workloads, h, services);
  }

  // ---- an unrecognised strategy ----

  /** One service whose new version relies on an endpoint the old one does not serve. */
  function ShiftPlan(strategy: RolloutStrategy, replicas: nat): RolloutPlan {
    RolloutPlan(Schema(map[]), [WorkloadChange(Workload("s", "s", replicas, strategy), "1", "2")], [], None, [])
  }

  function ShiftServices(): Services {
    map[ServiceKey("s", "1") := Service([], [], [], ["api"], []),
        ServiceKey("s", "2") := Service([], [], [], ["api"], Consumes())]
  }

  function ShiftContracts(): Contracts {
    map[APIContractKey("api", "s", "1") := APIContract(map[]), APIContractKey("api", "s", "2") := ServingContract()]
  }

  lemma ShiftClashes(strategy: RolloutStrategy, replicas: nat)
    ensures Coexists(ShiftPlan(strategy, replicas).workloads[0]) ==>
      ShiftClash(MissingEndpoint, ShiftServices(), ShiftContracts(), ShiftPlan(strategy, replicas).workloads)
    ensures !Coexists(ShiftPlan(strategy, replicas).workloads[0]) ==>
      !ShiftClash(MissingEndpoint, ShiftServices(), ShiftContracts(), ShiftPlan(strategy, replicas).workloads)
  {
    hide Coexists;
    var workloads := ShiftPlan(strategy, replicas).workloads;
    var x, y := LiveVersion("s", "2"), LiveVersion("s", "1");
    var c := Consumes()[0];
    assert c in ShiftServices()[KeyOf(x)].apiConsumes && ContractKey(c, y) in ShiftContracts();
    assert Breaks(MissingEndpoint, ShiftContracts()[ContractKey(c, y)], c, "");
    assert ApiClash(MissingEndpoint, ShiftServices(), ShiftContracts(), x, y);
    assert MeetAt(workloads, x, y, 0, 0);
  }

  lemma ShiftAloneIsFine(strategy: RolloutStrategy, replicas: nat)
    ensures !AlwaysClash(MissingEndpoint, ShiftServices(), ShiftContracts(), ShiftPlan(strategy, replicas).workloads)
    ensures !ApiOpen(ShiftServices(), ShiftContracts(), ShiftPlan(strategy, replicas).workloads)
  {
    hide Coexists;
    var services, contracts, workloads := ShiftServices(), ShiftContracts(), ShiftPlan(strategy, replicas).workloads;
    forall x, y | AlwaysMeet(workloads, x, y) ensures !ApiClash(MissingEndpoint, services, contracts, x, y) {
      assert x == y;
      forall c, field | c in services[KeyOf(x)].apiConsumes && ContractKey(c, y) in contracts
        ensures !Breaks(MissingEndpoint, contracts[ContractKey(c, y)], c, field)
      {
        assert c == Consumes()[0];
      }
    }
    forall x ensures !ApiOpenFor(services, contracts, workloads, x) {
      if KeyOf(x) in services {
        forall c | c in services[KeyOf(x)].apiConsumes ensures !Lacks(workloads, x, Providers(contracts, c.contractName)) {
          assert c == Consumes()[0];
          assert x in Providers(contracts, "api");
        }
      }
    }
  }

  /**
   A comment in the source says coexistence cannot be ruled out for an unrecognised
   strategy; the graph rules it out. This plan is then SAFE, and UNSAFE when rolling.
   */
  lemma UnrecognisedStrategyHidesClash(g: Graph, h: Graph)
    requires GraphOf(MachineOf(ShiftPlan(ROLLING, 1), [], false), g)
    requires GraphOf(MachineOf(ShiftPlan(UNRECOGNISED, 1), [], false), h)
    ensures PlanValid(ShiftPlan(ROLLING, 1)) && SameButStrategy(ShiftPlan(ROLLING, 1), ShiftPlan(UNRECOGNISED, 1))
    ensures ApiVerdict(MissingEndpoint, ShiftServices(), ShiftContracts(), g.nodes) == VerdictUnsafe
    ensures ApiVerdict(MissingEndpoint, ShiftServices(), ShiftContracts(), h.nodes) == VerdictSafe
  {
    hide GraphOf, ApiVerdict, ApiOpen, AlwaysClash, ShiftClash, ShiftServices, ShiftContracts, AnyAPIUsageDeclared;
    var services, contracts := ShiftServices(), ShiftContracts();
    var p, q := ShiftPlan(ROLLING, 1), ShiftPlan(UNRECOGNISED, 1);
    assert Coexists(p.workloads[0]) && !Coexists(q.workloads[0]);
    ShiftUsage();
    ShiftClashes(ROLLING, 1);
    ShiftClashes(UNRECOGNISED, 1);
    ShiftAloneIsFine(UNRECOGNISED, 1);
    ApiVerdictExactly(MachineOf(p, [], false), p.workloads, g, MissingEndpoint, services, contracts);
    ApiVerdictExactly(MachineOf(q, [], false), q.workloads, h, MissingEndpoint, services, contracts);
  }

  // ---- replicas that may be unavailable ----

  /** No surge, and so many replicas may be unavailable. */
  function Unavailable(count: int): RolloutStrategy {
    RolloutStrategy(StrategyRollingUpdate, IntOrPercent(false, 0, 0), IntOrPercent(false, count, 0))
  }

  /**
   With one of three replicas unavailable at a time the two versions meet, and the clash is
   found. With all three they are taken never to meet, and the plan is SAFE, although an
   update that stops the old replicas one by one runs both versions.
   */
  lemma AllUnavailableHidesClash(g: Graph, h: Graph)
    requires GraphOf(MachineOf(ShiftPlan(Unavailable(1), 3), [], false), g)
    requires GraphOf(MachineOf(ShiftPlan(Unavailable(3), 3), [], false), h)
    ensures PlanValid(ShiftPlan(Unavailable(1), 3)) && PlanValid(ShiftPlan(Unavailable(3), 3))
    ensures NodesMeet(g.nodes, LiveVersion("s", "1"), LiveVersion("s", "2"))
    ensures !NodesMeet(h.nodes, LiveVersion("s", "1"), LiveVersion("s", "2"))
    ensures MayOverlap(LimitsOf(Unavailable(3), 3))
    ensures ApiVerdict(MissingEndpoint, ShiftServices(), ShiftContracts(), g.nodes) == VerdictUnsafe
    ensures ApiVerdict(MissingEndpoint, ShiftServices(), ShiftContracts(), h.nodes) == VerdictSafe
  {
    hide GraphOf, ApiVerdict, ApiOpen, AlwaysClash, ShiftClash, ShiftServices, ShiftContracts, AnyAPIUsageDeclared,
         NodesMeet, MayOverlap, Reaches;
    var services, contracts := ShiftServices(), ShiftContracts();
    var p, q := ShiftPlan(Unavailable(1), 3), ShiftPlan(Unavailable(3), 3);
    assert Coexists(p.workloads[0]) && !Coexists(q.workloads[0]);
    OneWorkloadMeets(p, p.workloads[0], g);
    OneWorkloadMeets(q, q.workloads[0], h);
    OverlapExactly(LimitsOf(Unavailable(3), 3));
    ShiftUsage();
    ShiftClashes(Unavailable(1), 3);
    ShiftClashes(Unavailable(3), 3);
    ShiftAloneIsFine(Unavailable(3), 3);
    ApiVerdictExactly(MachineOf(p, [], false), p.workloads, g, MissingEndpoint, services, contracts);
    ApiVerdictExactly(MachineOf(q, [], false), q.workloads, h, MissingEndpoint, services, contracts);
  }

  lemma ShiftUsage()
    ensures AnyAPIUsageDeclared(ShiftServices())
  {
    assert ServiceKey("s", "1") in ShiftServices() && ShiftServices()[ServiceKey("s", "1")].apiProvides != [];
  }
}
