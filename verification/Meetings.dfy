/**
 What RP-API and RP-ORDER depend on: which versions are ever live together, and which
 are ever live with no provider beside them. Both can be read off the plan, and only
 there do rollout strategies enter.
 */
module Meetings {
  import opened Wrappers
  import opened Verdicts
  import opened Schemas
  import opened Rollout
  import opened Replay
  import opened Numbering
  import opened Machines
  import opened Graphs
  import opened GraphTheory
  import opened Versions
  import opened Checks
  import opened Engine
  import opened Api
  import opened Order
  import opened Pairs
  import opened Independence
  import opened Rolling

  predicate Belongs(wc: WorkloadChange, lv: LiveVersion) {
    lv == Old(wc) || lv == New(wc)
  }

  predicate Coexists(wc: WorkloadChange) {
    AllowsCoexistence(wc.workload.strategy, wc.workload.replicas)
  }

  // ---- versions that are live together ----

  ghost predicate NodesMeet(nodes: seq<RolloutState>, x: LiveVersion, y: LiveVersion) {
    exists s :: s in nodes && x in s.live && y in s.live
  }

  ghost predicate MeetAt(workloads: seq<WorkloadChange>, x: LiveVersion, y: LiveVersion, w: nat, u: nat) {
    && w < |workloads| && u < |workloads|
    && Belongs(workloads[w], x) && Belongs(workloads[u], y)
  }

  /** Versions of two workloads always meet, whatever the strategies; so does a version with itself. */
  ghost predicate AlwaysMeet(workloads: seq<WorkloadChange>, x: LiveVersion, y: LiveVersion) {
    exists w: nat, u: nat :: MeetAt(workloads, x, y, w, u) && (w != u || x == y)
  }

  /** The two versions of one workload meet only if its strategy lets them coexist. */
  ghost predicate MeetInShift(workloads: seq<WorkloadChange>, x: LiveVersion, y: LiveVersion) {
    exists w: nat :: MeetAt(workloads, x, y, w, w) && Coexists(workloads[w])
  }

  /** The versions live at a step of one workload. */
  lemma StepLive(wc: WorkloadChange, step: nat, lv: LiveVersion)
    requires step < 3
    ensures lv in Progression(wc)[step].live <==>
      || (step == 0 && lv == Old(wc)) || (step == 2 && lv == New(wc))
      || (step == 1 && Coexists(wc) && Belongs(wc, lv))
  {
  }

  lemma LiveInNode(m: Machine, workloads: seq<WorkloadChange>, g: Graph, p: Progress) returns (s: RolloutState)
    requires BuiltFor(m, workloads, g) && Valid(m, p)
    ensures s in g.nodes && |p.steps| == |workloads|
    ensures forall lv :: lv in s.live <==>
      exists w :: 0 <= w < |workloads| && p.steps[w] < 3 && lv in Progression(workloads[w])[p.steps[w]].live
  {
    hide IsStep, IsAdjacency, IsNode, Encode, Decode, SchemaStateAt, Progression;
    NodeOf(m, g, p);
    s := g.nodes[Encode(m, p)];
    forall lv ensures lv in s.live <==>
      exists w :: 0 <= w < |workloads| && p.steps[w] < 3 && lv in Progression(workloads[w])[p.steps[w]].live
    {
      LiveForMember(m.progressions, p.steps, lv);
    }
  }

  lemma NodeProgress(m: Machine, workloads: seq<WorkloadChange>, g: Graph, s: RolloutState) returns (p: Progress)
    requires BuiltFor(m, workloads, g) && s in g.nodes
    ensures Valid(m, p) && |p.steps| == |workloads| && forall w :: 0 <= w < |workloads| ==> p.steps[w] < 3
    ensures forall lv :: lv in s.live <==>
      exists w :: 0 <= w < |workloads| && lv in Progression(workloads[w])[p.steps[w]].live
  {
    hide IsStep, IsAdjacency, Encode, Decode, SchemaStateAt, Progression;
    var i :| 0 <= i < |g.nodes| && g.nodes[i] == s;
    assert IsNode(m, i, s);
    DecodeRoundTrip(m, i);
    p := Decode(m, i);
    forall lv ensures lv in s.live <==>
      exists w :: 0 <= w < |workloads| && lv in Progression(workloads[w])[p.steps[w]].live
    {
      LiveForMember(m.progressions, p.steps, lv);
    }
  }

  function StepFor(wc: WorkloadChange, lv: LiveVersion): nat {
    if lv == Old(wc) then 0 else 2
  }

  /** Which versions meet in a graph, read off the plan. */
  lemma MeetExactly(m: Machine, workloads: seq<WorkloadChange>, g: Graph, x: LiveVersion, y: LiveVersion)
    requires BuiltFor(m, workloads, g)
    ensures NodesMeet(g.nodes, x, y) <==> AlwaysMeet(workloads, x, y) || MeetInShift(workloads, x, y)
  {
    hide BuiltFor, Valid, Progression, Coexists;
    if s :| s in g.nodes && x in s.live && y in s.live {
      var p := NodeProgress(m, workloads, g, s);
      var w: nat :| w < |workloads| && x in Progression(workloads[w])[p.steps[w]].live;
      var u: nat :| u < |workloads| && y in Progression(workloads[u])[p.steps[u]].live;
      StepLive(workloads[w], p.steps[w], x);
      StepLive(workloads[u], p.steps[u], y);
      assert MeetAt(workloads, x, y, w, u);
    }
    if w: nat, u: nat :| MeetAt(workloads, x, y, w, u) && (w != u || x == y) {
      MeetWhere(m, workloads, g, x, y, w, StepFor(workloads[w], x), u, StepFor(workloads[u], y));
    }
    if w: nat :| MeetAt(workloads, x, y, w, w) && Coexists(workloads[w]) {
      MeetWhere(m, workloads, g, x, y, w, 1, w, 1);
    }
  }

  lemma MeetWhere(m: Machine, workloads: seq<WorkloadChange>, g: Graph, x: LiveVersion, y: LiveVersion, w: nat, i: nat, u: nat, j: nat)
    requires BuiltFor(m, workloads, g) && MeetAt(workloads, x, y, w, u) && i < 3 && j < 3 && (w == u ==> i == j)
    requires i == StepFor(workloads[w], x) || (i == 1 && Coexists(workloads[w]))
    requires j == StepFor(workloads[u], y) || (j == 1 && Coexists(workloads[u]))
    ensures NodesMeet(g.nodes, x, y)
  {
    hide Progression, Coexists, GraphOf;
    var steps := seq(|workloads|, k requires 0 <= k < |workloads| => if k == w then i else if k == u then j else 0);
    StepsValid(m, workloads, g, steps);
    var s := LiveInNode(m, workloads, g, Progress(steps, m.NoDuring(), 0));
    StepLive(workloads[w], i, x);
    StepLive(workloads[u], j, y);
    assert steps[w] == i && steps[u] == j;
  }

  lemma StepsValid(m: Machine, workloads: seq<WorkloadChange>, g: Graph, steps: seq<nat>)
    requires BuiltFor(m, workloads, g) && |steps| == |workloads| && forall k :: 0 <= k < |steps| ==> steps[k] < 3
    ensures Valid(m, Progress(steps, m.NoDuring(), 0))
  {
    hide Progression;
  }

  /**
   The two versions of a plan's one workload meet in its graph exactly when they are the
   same, or it rolls and the declared limits admit a replica more, or admit no moment
   without any. With replicas, that is what an update passes through.
   */
  lemma OneWorkloadMeets(plan: RolloutPlan, wc: WorkloadChange, g: Graph)
    requires plan.workloads == [wc] && GraphOf(MachineOf(plan, [], false), g)
    ensures var s, n := wc.workload.strategy, wc.workload.replicas;
            NodesMeet(g.nodes, Old(wc), New(wc)) <==>
            || wc.fromVersion == wc.toVersion
            || (s.typ == StrategyRollingUpdate && (AdmitsOneMore(s.maxSurge, n) || !AdmitsNone(s.maxUnavailable, n)))
    ensures var s, n := wc.workload.strategy, wc.workload.replicas;
            wc.fromVersion != wc.toVersion && s.typ == StrategyRollingUpdate && n > 0 ==>
            (NodesMeet(g.nodes, Old(wc), New(wc)) <==>
             Reaches(LimitsOf(s, n), Counts(n, 1)) || !Reaches(LimitsOf(s, n), Counts(0, 0)))
  {
    hide GraphOf, Progression, NodesMeet, AllowsCoexistence, Reaches, AdmitsOneMore, AdmitsNone;
    var s, n := wc.workload.strategy, wc.workload.replicas;
    MeetExactly(MachineOf(plan, [], false), plan.workloads, g, Old(wc), New(wc));
    assert MeetAt(plan.workloads, Old(wc), New(wc), 0, 0);
    CoexistenceDeclared(s, n);
    if s.typ == StrategyRollingUpdate && n > 0 {
      CoexistenceExactly(s, n);
    }
  }

  // ---- versions that are live with none of some others ----

  ghost predicate NodesLack(nodes: seq<RolloutState>, x: LiveVersion, others: iset<LiveVersion>) {
    exists s :: s in nodes && x in s.live && forall y :: y in s.live ==> y !in others
  }

  /** Some step of the workload has none of the others live. */
  ghost predicate CanLack(wc: WorkloadChange, others: iset<LiveVersion>) {
    !Coexists(wc) || Old(wc) !in others || New(wc) !in others
  }

  ghost predicate LacksAt(workloads: seq<WorkloadChange>, x: LiveVersion, others: iset<LiveVersion>, w: nat) {
    && w < |workloads| && Belongs(workloads[w], x) && x !in others
    && forall u :: 0 <= u < |workloads| && u != w ==> CanLack(workloads[u], others)
  }

  /** x is not one of the others, and every other workload has a step without them. */
  ghost predicate Lacks(workloads: seq<WorkloadChange>, x: LiveVersion, others: iset<LiveVersion>) {
    exists w: nat :: LacksAt(workloads, x, others, w)
  }

  ghost function LackStep(wc: WorkloadChange, others: iset<LiveVersion>): (step: nat)
    ensures step < 3
  {
    if Old(wc) !in others then 0 else if New(wc) !in others then 2 else 1
  }

  /** Which versions are ever live without any of the others, read off the plan. */
  lemma LackExactly(m: Machine, workloads: seq<WorkloadChange>, g: Graph, x: LiveVersion, others: iset<LiveVersion>)
    requires BuiltFor(m, workloads, g)
    ensures NodesLack(g.nodes, x, others) <==> Lacks(workloads, x, others)
  {
    hide BuiltFor, Valid, Progression, Coexists;
    if s :| s in g.nodes && x in s.live && forall y :: y in s.live ==> y !in others {
      var p := NodeProgress(m, workloads, g, s);
      var w: nat :| w < |workloads| && x in Progression(workloads[w])[p.steps[w]].live;
      StepLive(workloads[w], p.steps[w], x);
      forall u | 0 <= u < |workloads| && u != w ensures CanLack(workloads[u], others) {
        StepLive(workloads[u], p.steps[u], Old(workloads[u]));
        StepLive(workloads[u], p.steps[u], New(workloads[u]));
        assert Old(workloads[u]) in Progression(workloads[u])[p.steps[u]].live ==> Old(workloads[u]) in s.live;
        assert New(workloads[u]) in Progression(workloads[u])[p.steps[u]].live ==> New(workloads[u]) in s.live;
      }
      assert LacksAt(workloads, x, others, w);
    }
    if w: nat :| LacksAt(workloads, x, others, w) {
      LackWhere(m, workloads, g, x, others, w);
    }
  }

  lemma LackWhere(m: Machine, workloads: seq<WorkloadChange>, g: Graph, x: LiveVersion, others: iset<LiveVersion>, w: nat)
    requires BuiltFor(m, workloads, g) && LacksAt(workloads, x, others, w)
    ensures NodesLack(g.nodes, x, others)
  {
    hide Progression, Coexists, GraphOf;
    var steps: seq<nat> := seq(|workloads|, k requires 0 <= k < |workloads| =>
      if k == w then StepFor(workloads[w], x) else LackStep(workloads[k], others));
    StepsValid(m, workloads, g, steps);
    var s := LiveInNode(m, workloads, g, Progress(steps, m.NoDuring(), 0));
    StepLive(workloads[w], steps[w], x);
    assert x in s.live;
    forall y | y in s.live ensures y !in others {
      var u: nat :| u < |workloads| && y in Progression(workloads[u])[steps[u]].live;
      StepLive(workloads[u], steps[u], y);
    }
  }

  // ---- RP-API ----

  /** The consumer declares something that this version of a provider breaks. */
  ghost predicate ApiClash(finding: ApiFinding, services: Services, contracts: Contracts, x: LiveVersion, y: LiveVersion) {
    KeyOf(x) in services && exists c, field :: c in services[KeyOf(x)].apiConsumes && ContractKey(c, y) in contracts
                                               && Breaks(finding, contracts[ContractKey(c, y)], c, field)
  }

  ghost function Providers(contracts: Contracts, name: string): iset<LiveVersion> {
    iset lv: LiveVersion | APIContractKey(name, lv.serviceName, lv.version) in contracts
  }

  /** The versions of two workloads, or one with itself, clash: no strategy can keep them apart. */
  ghost predicate AlwaysClash(finding: ApiFinding, services: Services, contracts: Contracts, workloads: seq<WorkloadChange>) {
    exists x, y :: AlwaysMeet(workloads, x, y) && ApiClash(finding, services, contracts, x, y)
  }

  /** A workload whose own two versions clash lets them coexist. */
  ghost predicate ShiftClash(finding: ApiFinding, services: Services, contracts: Contracts, workloads: seq<WorkloadChange>) {
    exists x, y :: MeetInShift(workloads, x, y) && ApiClash(finding, services, contracts, x, y)
  }

  /** Some version has no contract file, or may be live without any provider of what it consumes. */
  ghost predicate ApiOpen(services: Services, contracts: Contracts, workloads: seq<WorkloadChange>) {
    exists x :: ApiOpenFor(services, contracts, workloads, x)
  }

  ghost predicate ApiOpenFor(services: Services, contracts: Contracts, workloads: seq<WorkloadChange>, x: LiveVersion) {
    if KeyOf(x) !in services then
      AlwaysMeet(workloads, x, x)
    else
      exists c :: c in services[KeyOf(x)].apiConsumes && Lacks(workloads, x, Providers(contracts, c.contractName))
  }

  lemma ApiUnsafeIsClash(finding: ApiFinding, services: Services, contracts: Contracts, nodes: seq<RolloutState>)
    ensures ApiIDs(finding, services, contracts, nodes) != iset{} <==>
      exists x, y :: NodesMeet(nodes, x, y) && ApiClash(finding, services, contracts, x, y)
  {
    hide Breaks;
    if id :| id in ApiIDs(finding, services, contracts, nodes) {
      var v :| ApiViolationIn(services, contracts, nodes, v) && v.finding == finding && v.stateID == id;
      var s :| s in nodes && IsApiViolation(services, contracts, s, v);
      assert NodesMeet(nodes, v.consumer, v.provider) && ApiClash(finding, services, contracts, v.consumer, v.provider);
    }
    if x, y :| NodesMeet(nodes, x, y) && ApiClash(finding, services, contracts, x, y) {
      var s :| s in nodes && x in s.live && y in s.live;
      var c, field :| c in services[KeyOf(x)].apiConsumes && ContractKey(c, y) in contracts
                      && Breaks(finding, contracts[ContractKey(c, y)], c, field);
      var v := ApiViolation(finding, s.id, x, y, c, field);
      assert IsApiViolation(services, contracts, s, v);
      assert ApiViolationIn(services, contracts, nodes, v);
      assert v.stateID in ApiIDs(finding, services, contracts, nodes);
    }
  }

  /** x leaves a gap in some state of the list. */
  ghost predicate ApiGapFor(services: Services, contracts: Contracts, nodes: seq<RolloutState>, x: LiveVersion) {
    if KeyOf(x) !in services then
      NodesMeet(nodes, x, x)
    else
      exists c :: c in services[KeyOf(x)].apiConsumes && NodesLack(nodes, x, Providers(contracts, c.contractName))
  }

  lemma ApiGapIsLack(services: Services, contracts: Contracts, nodes: seq<RolloutState>)
    ensures (exists gap :: ApiGapIn(services, contracts, nodes, gap)) <==>
      exists x :: ApiGapFor(services, contracts, nodes, x)
  {
    if gap :| ApiGapIn(services, contracts, nodes, gap) {
      var s :| s in nodes && IsApiGap(services, contracts, s, gap);
      var x :| x in s.live && ConsumerGap(services, contracts, s.live, x, gap);
      if KeyOf(x) in services {
        var c :| c in services[KeyOf(x)].apiConsumes && NobodyProvides(contracts, s.live, c.contractName);
        assert NodesLack(nodes, x, Providers(contracts, c.contractName));
      }
      assert ApiGapFor(services, contracts, nodes, x);
    }
    if x :| ApiGapFor(services, contracts, nodes, x) {
      if KeyOf(x) !in services {
        var s :| s in nodes && x in s.live;
        assert ConsumerGap(services, contracts, s.live, x, NoContract(KeyOf(x)));
        assert IsApiGap(services, contracts, s, NoContract(KeyOf(x)));
        assert ApiGapIn(services, contracts, nodes, NoContract(KeyOf(x)));
      } else {
        var c :| c in services[KeyOf(x)].apiConsumes && NodesLack(nodes, x, Providers(contracts, c.contractName));
        UnprovidedGap(services, contracts, nodes, x, c);
      }
    }
  }

  lemma UnprovidedGap(services: Services, contracts: Contracts, nodes: seq<RolloutState>, x: LiveVersion, c: APIConsumption)
    requires KeyOf(x) in services && c in services[KeyOf(x)].apiConsumes
    requires NodesLack(nodes, x, Providers(contracts, c.contractName))
    ensures exists gap :: ApiGapIn(services, contracts, nodes, gap)
  {
    var s :| s in nodes && x in s.live && forall y :: y in s.live ==> y !in Providers(contracts, c.contractName);
    assert NobodyProvides(contracts, s.live, c.contractName);
    var gap := NoProvider(c.contractName, KeyOf(x));
    assert ConsumerGap(services, contracts, s.live, x, gap);
    assert IsApiGap(services, contracts, s, gap);
    assert ApiGapIn(services, contracts, nodes, gap);
  }

  /** The verdicts of RP-API-001..003, read off the plan without its graph. */
  lemma ApiVerdictExactly(m: Machine, workloads: seq<WorkloadChange>, g: Graph, finding: ApiFinding, services: Services, contracts: Contracts)
    requires BuiltFor(m, workloads, g)
    ensures ApiVerdict(finding, services, contracts, g.nodes) ==
            if !AnyAPIUsageDeclared(services) then VerdictSafe
            else VerdictFor(AlwaysClash(finding, services, contracts, workloads) || ShiftClash(finding, services, contracts, workloads),
                            ApiOpen(services, contracts, workloads))
  {
    hide BuiltFor, ApiClash, NodesMeet, AlwaysMeet, MeetInShift, NodesLack, Lacks, ApiGapIn, ApiIDs;
    ApiUnsafeIsClash(finding, services, contracts, g.nodes);
    ApiGapIsLack(services, contracts, g.nodes);
    forall x, y ensures NodesMeet(g.nodes, x, y) <==> AlwaysMeet(workloads, x, y) || MeetInShift(workloads, x, y) {
      MeetExactly(m, workloads, g, x, y);
    }
    forall x ensures ApiGapFor(services, contracts, g.nodes, x) <==> ApiOpenFor(services, contracts, workloads, x) {
      SelfMeet(workloads, x);
      forall others ensures NodesLack(g.nodes, x, others) <==> Lacks(workloads, x, others) {
        LackExactly(m, workloads, g, x, others);
      }
    }
  }

  lemma SelfMeet(workloads: seq<WorkloadChange>, x: LiveVersion)
    ensures MeetInShift(workloads, x, x) ==> AlwaysMeet(workloads, x, x)
  {
  }

  // ---- RP-ORDER ----

  /** The consumer's minimum is above this live version of what it depends on. */
  ghost predicate OrderClash(services: Services, x: LiveVersion, y: LiveVersion) {
    KeyOf(x) in services && exists dep :: dep in services[KeyOf(x)].dependsOn && dep.minCompatibleVersion != ""
                                          && y.serviceName == dep.serviceName && Below(y.version, dep.minCompatibleVersion)
  }

  /** The consumer's minimum cannot be compared with this live version of what it depends on. */
  ghost predicate OrderIncomparable(services: Services, x: LiveVersion, y: LiveVersion) {
    KeyOf(x) in services && exists dep :: dep in services[KeyOf(x)].dependsOn && dep.minCompatibleVersion != ""
                                          && y.serviceName == dep.serviceName && !Comparable(y.version, dep.minCompatibleVersion)
  }

  ghost function VersionsOf(serviceName: string): iset<LiveVersion> {
    iset lv: LiveVersion | lv.serviceName == serviceName
  }

  ghost predicate AlwaysBelow(services: Services, workloads: seq<WorkloadChange>) {
    exists x, y :: AlwaysMeet(workloads, x, y) && OrderClash(services, x, y)
  }

  ghost predicate ShiftBelow(services: Services, workloads: seq<WorkloadChange>) {
    exists x, y :: MeetInShift(workloads, x, y) && OrderClash(services, x, y)
  }

  ghost predicate LacksDependency(services: Services, workloads: seq<WorkloadChange>, x: LiveVersion) {
    KeyOf(x) in services && exists dep :: dep in services[KeyOf(x)].dependsOn && dep.minCompatibleVersion != ""
                                          && Lacks(workloads, x, VersionsOf(dep.serviceName))
  }

  /** Some version has no contract file, meets a version it cannot be compared with, or may be live without its dependency. */
  ghost predicate OrderOpen(services: Services, workloads: seq<WorkloadChange>) {
    || (exists x :: AlwaysMeet(workloads, x, x) && KeyOf(x) !in services)
    || (exists x, y :: (AlwaysMeet(workloads, x, y) || MeetInShift(workloads, x, y)) && OrderIncomparable(services, x, y))
    || (exists x :: LacksDependency(services, workloads, x))
  }

  lemma OrderUnsafeIsClash(services: Services, nodes: seq<RolloutState>)
    ensures OrderIDs(services, nodes) != iset{} <==> exists x, y :: NodesMeet(nodes, x, y) && OrderClash(services, x, y)
  {
    hide Below;
    if id :| id in OrderIDs(services, nodes) {
      var v :| OrderViolationIn(services, nodes, v) && v.stateID == id;
      var s :| s in nodes && IsOrderViolation(services, s, v);
      assert NodesMeet(nodes, v.consumer, v.provider) && OrderClash(services, v.consumer, v.provider);
    }
    if x, y :| NodesMeet(nodes, x, y) && OrderClash(services, x, y) {
      var s :| s in nodes && x in s.live && y in s.live;
      var dep :| dep in services[KeyOf(x)].dependsOn && dep.minCompatibleVersion != ""
                 && y.serviceName == dep.serviceName && Below(y.version, dep.minCompatibleVersion);
      var v := OrderViolation(s.id, x, y, dep);
      assert IsOrderViolation(services, s, v);
      assert OrderViolationIn(services, nodes, v);
      assert v.stateID in OrderIDs(services, nodes);
    }
  }

  ghost predicate NodesLackDependency(services: Services, nodes: seq<RolloutState>, x: LiveVersion) {
    KeyOf(x) in services && exists dep :: dep in services[KeyOf(x)].dependsOn && dep.minCompatibleVersion != ""
                                          && NodesLack(nodes, x, VersionsOf(dep.serviceName))
  }

  ghost predicate OrderGapSomewhere(services: Services, nodes: seq<RolloutState>) {
    || (exists x :: NodesMeet(nodes, x, x) && KeyOf(x) !in services)
    || (exists x, y :: NodesMeet(nodes, x, y) && OrderIncomparable(services, x, y))
    || (exists x :: NodesLackDependency(services, nodes, x))
  }

  lemma OrderGapIsSomewhere(services: Services, nodes: seq<RolloutState>, gap: Gap)
    requires OrderGapIn(services, nodes, gap)
    ensures OrderGapSomewhere(services, nodes)
  {
    hide Comparable;
    var s :| s in nodes && IsOrderGap(services, s, gap);
    var x :| x in s.live && OrderGap(services, s.live, x, gap);
    if KeyOf(x) !in services {
      assert NodesMeet(nodes, x, x);
    } else {
      var dep :| dep in services[KeyOf(x)].dependsOn && DependencyGap(s.live, x, dep, gap);
      if forall p :: p in s.live ==> p.serviceName != dep.serviceName {
        assert NodesLack(nodes, x, VersionsOf(dep.serviceName));
        assert NodesLackDependency(services, nodes, x);
      } else {
        var y :| y in s.live && y.serviceName == dep.serviceName && !Comparable(y.version, dep.minCompatibleVersion);
        assert NodesMeet(nodes, x, y) && OrderIncomparable(services, x, y);
      }
    }
  }

  lemma GapOfConsumer(services: Services, nodes: seq<RolloutState>, s: RolloutState, x: LiveVersion, gap: Gap)
    requires s in nodes && x in s.live && OrderGap(services, s.live, x, gap)
    ensures OrderGapIn(services, nodes, gap)
  {
    hide OrderGap;
    assert IsOrderGap(services, s, gap);
  }

  lemma SomewhereIsOrderGap(services: Services, nodes: seq<RolloutState>) returns (gap: Gap)
    requires OrderGapSomewhere(services, nodes)
    ensures OrderGapIn(services, nodes, gap)
  {
    hide Comparable, OrderGapIn;
    if x :| NodesMeet(nodes, x, x) && KeyOf(x) !in services {
      var s :| s in nodes && x in s.live;
      gap := NoContract(KeyOf(x));
      GapOfConsumer(services, nodes, s, x, gap);
    } else if x, y :| NodesMeet(nodes, x, y) && OrderIncomparable(services, x, y) {
      var s :| s in nodes && x in s.live && y in s.live;
      var dep :| dep in services[KeyOf(x)].dependsOn && dep.minCompatibleVersion != ""
                 && y.serviceName == dep.serviceName && !Comparable(y.version, dep.minCompatibleVersion);
      gap := NotComparable(y.version, dep.minCompatibleVersion);
      assert DependencyGap(s.live, x, dep, gap);
      GapOfConsumer(services, nodes, s, x, gap);
    } else {
      var x :| NodesLackDependency(services, nodes, x);
      var dep :| dep in services[KeyOf(x)].dependsOn && dep.minCompatibleVersion != ""
                 && NodesLack(nodes, x, VersionsOf(dep.serviceName));
      var s :| s in nodes && x in s.live && forall y :: y in s.live ==> y !in VersionsOf(dep.serviceName);
      gap := NoLiveDependency(dep.serviceName, KeyOf(x));
      assert DependencyGap(s.live, x, dep, gap);
      GapOfConsumer(services, nodes, s, x, gap);
    }
  }

  /** The verdict of RP-ORDER-001 and 002, read off the plan without its graph. */
  lemma OrderVerdictExactly(m: Machine, workloads: seq<WorkloadChange>, g: Graph, services: Services)
    requires BuiltFor(m, workloads, g)
    ensures OrderVerdict(services, g.nodes) ==
            if !AnyDependencyDeclared(services) then VerdictSafe
            else VerdictFor(AlwaysBelow(services, workloads) || ShiftBelow(services, workloads), OrderOpen(services, workloads))
  {
    hide BuiltFor, OrderClash, OrderIncomparable, NodesMeet, AlwaysMeet, MeetInShift, NodesLack, Lacks, OrderGapIn, OrderIDs;
    OrderUnsafeIsClash(services, g.nodes);
    if gap :| OrderGapIn(services, g.nodes, gap) {
      OrderGapIsSomewhere(services, g.nodes, gap);
    }
    if OrderGapSomewhere(services, g.nodes) {
      var gap := SomewhereIsOrderGap(services, g.nodes);
    }
    forall x, y ensures NodesMeet(g.nodes, x, y) <==> AlwaysMeet(workloads, x, y) || MeetInShift(workloads, x, y) {
      MeetExactly(m, workloads, g, x, y);
    }
    forall x ensures NodesMeet(g.nodes, x, x) <==> AlwaysMeet(workloads, x, x) {
      SelfMeet(workloads, x);
    }
    forall x ensures NodesLackDependency(services, g.nodes, x) <==> LacksDependency(services, workloads, x) {
      forall others ensures NodesLack(g.nodes, x, others) <==> Lacks(workloads, x, others) {
        LackExactly(m, workloads, g, x, others);
      }
    }
  }

  // ---- what a strategy can change ----

  lemma AlwaysMeetMoves(a: seq<WorkloadChange>, b: seq<WorkloadChange>, x: LiveVersion, y: LiveVersion)
    requires SameVersions(a, b) && AlwaysMeet(a, x, y)
    ensures AlwaysMeet(b, x, y)
  {
    var w: nat, u: nat :| MeetAt(a, x, y, w, u) && (w != u || x == y);
    assert MeetAt(b, x, y, w, u);
  }

  lemma SameVersionsSymmetric(a: seq<WorkloadChange>, b: seq<WorkloadChange>)
    requires SameVersions(a, b)
    ensures SameVersions(b, a)
  {
  }

  /**
   Two plans that differ only in strategies and replica counts agree on whether a finding
   of RP-API is UNSAFE exactly when versions of two workloads clash anyway, or both or
   neither lets the clashing versions of one workload coexist.
   */
  lemma StrategyAndApi(p: RolloutPlan, g: Graph, q: RolloutPlan, h: Graph, finding: ApiFinding, services: Services, contracts: Contracts)
    requires SameButStrategy(p, q) && AnyAPIUsageDeclared(services)
    requires GraphOf(MachineOf(p, [], false), g) && GraphOf(MachineOf(q, [], false), h)
    ensures (ApiVerdict(finding, services, contracts, g.nodes) == VerdictUnsafe <==>
             ApiVerdict(finding, services, contracts, h.nodes) == VerdictUnsafe) <==>
            || AlwaysClash(finding, services, contracts, p.workloads)
            || (ShiftClash(finding, services, contracts, p.workloads) <==> ShiftClash(finding, services, contracts, q.workloads))
  {
    hide GraphOf, ApiClash, AlwaysMeet, MeetInShift, ApiOpen, BaseState, OfPhase, ApiVerdict;
    ApiVerdictExactly(MachineOf(p, [], false), p.workloads, g, finding, services, contracts);
    ApiVerdictExactly(MachineOf(q, [], false), q.workloads, h, finding, services, contracts);
    SameAlwaysMeet(p.workloads, q.workloads);
  }

  lemma SameAlwaysMeet(a: seq<WorkloadChange>, b: seq<WorkloadChange>)
    requires SameVersions(a, b)
    ensures forall x, y :: AlwaysMeet(a, x, y) <==> AlwaysMeet(b, x, y)
  {
    hide AlwaysMeet;
    SameVersionsSymmetric(a, b);
    forall x, y ensures AlwaysMeet(a, x, y) <==> AlwaysMeet(b, x, y) {
      if AlwaysMeet(a, x, y) {
        AlwaysMeetMoves(a, b, x, y);
      }
      if AlwaysMeet(b, x, y) {
        AlwaysMeetMoves(b, a, x, y);
      }
    }
  }

  /** The same for RP-ORDER. */
  lemma StrategyAndOrder(p: RolloutPlan, g: Graph, q: RolloutPlan, h: Graph, services: Services)
    requires SameButStrategy(p, q) && AnyDependencyDeclared(services)
    requires GraphOf(MachineOf(p, [], false), g) && GraphOf(MachineOf(q, [], false), h)
    ensures (OrderVerdict(services, g.nodes) == VerdictUnsafe <==> OrderVerdict(services, h.nodes) == VerdictUnsafe) <==>
            || AlwaysBelow(services, p.workloads)
            || (ShiftBelow(services, p.workloads) <==> ShiftBelow(services, q.workloads))
  {
    hide GraphOf, OrderClash, AlwaysMeet, MeetInShift, OrderOpen, BaseState, OfPhase, OrderVerdict;
    OrderVerdictExactly(MachineOf(p, [], false), p.workloads, g, services);
    OrderVerdictExactly(MachineOf(q, [], false), q.workloads, h, services);
    SameAlwaysMeet(p.workloads, q.workloads);
  }
}
