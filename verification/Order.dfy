/** RP-ORDER-001 and 002: version-constrained dependencies (internal/invariant/rporder.go). */
module Order {
  import opened Wrappers
  import opened Verdicts
  import opened Schemas
  import opened Rollout
  import opened Versions
  import opened Graphs
  import opened Paths
  import opened Checks
  import opened Engine

  datatype OrderViolation = OrderViolation(
    stateID: nat,
    consumer: LiveVersion,
    provider: LiveVersion,
    dep: ServiceDependency
  )

  predicate Comparable(version: string, minimum: string) {
    OrdinalsOf(version).Some? && OrdinalsOf(minimum).Some?
  }

  ghost predicate Below(version: string, minimum: string) {
    Comparable(version, minimum) && Less(OrdinalsOf(version).value, OrdinalsOf(minimum).value)
  }

  ghost predicate IsOrderViolation(services: Services, s: RolloutState, v: OrderViolation) {
    && v.stateID == s.id
    && v.consumer in s.live && KeyOf(v.consumer) in services
    && v.dep in services[KeyOf(v.consumer)].dependsOn && v.dep.minCompatibleVersion != ""
    && v.provider in s.live && v.provider.serviceName == v.dep.serviceName
    && Below(v.provider.version, v.dep.minCompatibleVersion)
  }

  /** What one constrained dependency leaves open among the live versions. */
  ghost predicate DependencyGap(live: seq<LiveVersion>, consumer: LiveVersion, dep: ServiceDependency, gap: Gap) {
    && dep.minCompatibleVersion != ""
    && (|| (gap == NoLiveDependency(dep.serviceName, KeyOf(consumer))
            && forall p :: p in live ==> p.serviceName != dep.serviceName)
        || exists p :: p in live && p.serviceName == dep.serviceName && !Comparable(p.version, dep.minCompatibleVersion)
                       && gap == NotComparable(p.version, dep.minCompatibleVersion))
  }

  ghost predicate OrderGap(services: Services, live: seq<LiveVersion>, consumer: LiveVersion, gap: Gap) {
    if KeyOf(consumer) !in services then
      gap == NoContract(KeyOf(consumer))
    else
      exists dep :: dep in services[KeyOf(consumer)].dependsOn && DependencyGap(live, consumer, dep, gap)
  }

  ghost predicate IsOrderGap(services: Services, s: RolloutState, gap: Gap) {
    exists consumer :: consumer in s.live && OrderGap(services, s.live, consumer, gap)
  }

  ghost predicate OrderViolationIn(services: Services, nodes: seq<RolloutState>, v: OrderViolation) {
    exists s :: s in nodes && IsOrderViolation(services, s, v)
  }

  ghost predicate OrderGapIn(services: Services, nodes: seq<RolloutState>, gap: Gap) {
    exists s :: s in nodes && IsOrderGap(services, s, gap)
  }

  ghost function OrderIDs(services: Services, nodes: seq<RolloutState>): iset<nat> {
    iset v | OrderViolationIn(services, nodes, v) :: v.stateID
  }

  predicate AnyDependencyDeclared(services: Services) {
    exists key :: key in services && services[key].dependsOn != []
  }

  ghost function OrderVerdict(services: Services, nodes: seq<RolloutState>): Verdict {
    if !AnyDependencyDeclared(services) then
      VerdictSafe
    else
      VerdictFor(OrderIDs(services, nodes) != iset{}, exists gap :: OrderGapIn(services, nodes, gap))
  }

  // ---- the scan ----

  ghost predicate IncomparableAmong(live: seq<LiveVersion>, dep: ServiceDependency, gap: Gap) {
    exists p :: p in live && p.serviceName == dep.serviceName && !Comparable(p.version, dep.minCompatibleVersion)
                && gap == NotComparable(p.version, dep.minCompatibleVersion)
  }

  lemma IncomparableSnoc(live: seq<LiveVersion>, dep: ServiceDependency, lv: LiveVersion)
    ensures forall gap :: IncomparableAmong(live + [lv], dep, gap) <==>
      || IncomparableAmong(live, dep, gap)
      || (lv.serviceName == dep.serviceName && !Comparable(lv.version, dep.minCompatibleVersion)
          && gap == NotComparable(lv.version, dep.minCompatibleVersion))
  {
    hide Comparable;
    assert lv in live + [lv];
    assert forall x :: x in live ==> x in live + [lv];
  }

  lemma IncomparableNone(dep: ServiceDependency)
    ensures forall gap :: !IncomparableAmong([], dep, gap)
  {
  }

  /** Every live version of the depended-on service against the minimum. */
  method ScanDependency(s: RolloutState, consumer: LiveVersion, dep: ServiceDependency)
    returns (violations: seq<OrderViolation>, gaps: set<Gap>)
    requires dep.minCompatibleVersion != ""
    ensures forall v :: v in violations <==>
      && v.stateID == s.id && v.consumer == consumer && v.dep == dep
      && v.provider in s.live && v.provider.serviceName == dep.serviceName
      && Below(v.provider.version, dep.minCompatibleVersion)
    ensures forall gap :: gap in gaps <==> DependencyGap(s.live, consumer, dep, gap)
  {
    hide Less, OrdinalsOf, IncomparableAmong;
    violations, gaps := [], {};
    var matched := false;
    IncomparableNone(dep);
    for j := 0 to |s.live|
      invariant forall v :: v in violations <==>
        && v.stateID == s.id && v.consumer == consumer && v.dep == dep
        && v.provider in s.live[..j] && v.provider.serviceName == dep.serviceName
        && Below(v.provider.version, dep.minCompatibleVersion)
      invariant forall gap :: gap in gaps <==> IncomparableAmong(s.live[..j], dep, gap)
      invariant !matched <==> forall p :: p in s.live[..j] ==> p.serviceName != dep.serviceName
    {
      var plv := s.live[j];
      assert s.live[..j + 1] == s.live[..j] + [plv];
      IncomparableSnoc(s.live[..j], dep, plv);
      if plv.serviceName == dep.serviceName {
        matched := true;
        var cmp, ok := CompareVersions(plv.version, dep.minCompatibleVersion);
        if !ok {
          gaps := gaps + {NotComparable(plv.version, dep.minCompatibleVersion)};
        } else if cmp < 0 {
          violations := violations + [OrderViolation(s.id, consumer, plv, dep)];
        }
      }
    }
    assert s.live[..|s.live|] == s.live;
    if !matched {
      gaps := gaps + {NoLiveDependency(dep.serviceName, KeyOf(consumer))};
    }
    DependencyGapSplit(s.live, consumer, dep);
  }

  lemma DependencyGapSplit(live: seq<LiveVersion>, consumer: LiveVersion, dep: ServiceDependency)
    requires dep.minCompatibleVersion != ""
    ensures forall gap :: DependencyGap(live, consumer, dep, gap) <==>
      || IncomparableAmong(live, dep, gap)
      || (gap == NoLiveDependency(dep.serviceName, KeyOf(consumer))
          && forall p :: p in live ==> p.serviceName != dep.serviceName)
  {
    hide Comparable;
  }

  ghost predicate GapAmongDeps(live: seq<LiveVersion>, consumer: LiveVersion, deps: seq<ServiceDependency>, gap: Gap) {
    exists dep :: dep in deps && DependencyGap(live, consumer, dep, gap)
  }

  lemma GapAmongDepsSnoc(live: seq<LiveVersion>, consumer: LiveVersion, deps: seq<ServiceDependency>, dep: ServiceDependency)
    ensures forall gap :: GapAmongDeps(live, consumer, deps + [dep], gap) <==>
      GapAmongDeps(live, consumer, deps, gap) || DependencyGap(live, consumer, dep, gap)
  {
    hide DependencyGap;
    assert dep in deps + [dep];
    assert forall x :: x in deps ==> x in deps + [dep];
  }

  lemma GapAmongDepsEnds(services: Services, live: seq<LiveVersion>, consumer: LiveVersion)
    requires KeyOf(consumer) in services
    ensures forall gap :: !GapAmongDeps(live, consumer, [], gap)
    ensures forall gap :: GapAmongDeps(live, consumer, services[KeyOf(consumer)].dependsOn, gap) <==>
      OrderGap(services, live, consumer, gap)
  {
    hide DependencyGap;
  }

  lemma UnconstrainedNoGap(live: seq<LiveVersion>, consumer: LiveVersion, dep: ServiceDependency)
    requires dep.minCompatibleVersion == ""
    ensures forall gap :: !DependencyGap(live, consumer, dep, gap)
  {
  }

  method ScanOrderConsumer(services: Services, s: RolloutState, consumer: LiveVersion)
    returns (violations: seq<OrderViolation>, gaps: set<Gap>)
    requires consumer in s.live
    ensures forall v :: v in violations <==> IsOrderViolation(services, s, v) && v.consumer == consumer
    ensures forall gap :: gap in gaps <==> OrderGap(services, s.live, consumer, gap)
  {
    hide Below, DependencyGap, GapAmongDeps;
    if KeyOf(consumer) !in services {
      return [], {NoContract(KeyOf(consumer))};
    }
    violations, gaps := [], {};
    var deps := services[KeyOf(consumer)].dependsOn;
    GapAmongDepsEnds(services, s.live, consumer);
    for i := 0 to |deps|
      invariant forall v :: v in violations <==>
        IsOrderViolation(services, s, v) && v.consumer == consumer && v.dep in deps[..i]
      invariant forall gap :: gap in gaps <==> GapAmongDeps(s.live, consumer, deps[..i], gap)
    {
      assert deps[..i + 1] == deps[..i] + [deps[i]];
      GapAmongDepsSnoc(s.live, consumer, deps[..i], deps[i]);
      if deps[i].minCompatibleVersion == "" {
        UnconstrainedNoGap(s.live, consumer, deps[i]);
      } else {
        var found, missing := ScanDependency(s, consumer, deps[i]);
        violations, gaps := violations + found, gaps + missing;
      }
    }
    assert deps[..|deps|] == deps;
  }

  ghost predicate OrderGapAmong(services: Services, live: seq<LiveVersion>, consumers: seq<LiveVersion>, gap: Gap) {
    exists consumer :: consumer in consumers && OrderGap(services, live, consumer, gap)
  }

  lemma OrderGapAmongSnoc(services: Services, live: seq<LiveVersion>, consumers: seq<LiveVersion>, lv: LiveVersion)
    ensures forall gap :: OrderGapAmong(services, live, consumers + [lv], gap) <==>
      OrderGapAmong(services, live, consumers, gap) || OrderGap(services, live, lv, gap)
  {
    hide OrderGap;
    assert lv in consumers + [lv];
    assert forall x :: x in consumers ==> x in consumers + [lv];
  }

  lemma OrderGapAmongEnds(services: Services, s: RolloutState)
    ensures forall gap :: !OrderGapAmong(services, s.live, [], gap)
    ensures forall gap :: OrderGapAmong(services, s.live, s.live, gap) <==> IsOrderGap(services, s, gap)
  {
    hide OrderGap;
  }

  method ScanOrderState(services: Services, s: RolloutState) returns (violations: seq<OrderViolation>, gaps: set<Gap>)
    ensures forall v :: v in violations <==> IsOrderViolation(services, s, v)
    ensures forall gap :: gap in gaps <==> IsOrderGap(services, s, gap)
  {
    hide Below, OrderGap, OrderGapAmong;
    violations, gaps := [], {};
    OrderGapAmongEnds(services, s);
    for j := 0 to |s.live|
      invariant forall v :: v in violations <==> IsOrderViolation(services, s, v) && v.consumer in s.live[..j]
      invariant forall gap :: gap in gaps <==> OrderGapAmong(services, s.live, s.live[..j], gap)
    {
      assert s.live[..j + 1] == s.live[..j] + [s.live[j]];
      OrderGapAmongSnoc(services, s.live, s.live[..j], s.live[j]);
      var found, missing := ScanOrderConsumer(services, s, s.live[j]);
      violations, gaps := violations + found, gaps + missing;
    }
    assert s.live[..|s.live|] == s.live;
  }

  lemma OrderInSnoc(services: Services, nodes: seq<RolloutState>, s: RolloutState)
    ensures forall v :: OrderViolationIn(services, nodes + [s], v) <==>
      OrderViolationIn(services, nodes, v) || IsOrderViolation(services, s, v)
    ensures forall gap :: OrderGapIn(services, nodes + [s], gap) <==>
      OrderGapIn(services, nodes, gap) || IsOrderGap(services, s, gap)
  {
    hide IsOrderViolation, IsOrderGap;
    assert s in nodes + [s];
    assert forall x :: x in nodes ==> x in nodes + [s];
  }

  lemma OrderInNone(services: Services)
    ensures forall v :: !OrderViolationIn(services, [], v)
    ensures forall gap :: !OrderGapIn(services, [], gap)
  {
  }

  method ScanOrder(services: Services, nodes: seq<RolloutState>) returns (violations: seq<OrderViolation>, gaps: set<Gap>)
    ensures forall v :: v in violations <==> OrderViolationIn(services, nodes, v)
    ensures forall gap :: gap in gaps <==> OrderGapIn(services, nodes, gap)
  {
    hide IsOrderViolation, IsOrderGap, OrderViolationIn, OrderGapIn;
    violations, gaps := [], {};
    OrderInNone(services);
    for i := 0 to |nodes|
      invariant forall v :: v in violations <==> OrderViolationIn(services, nodes[..i], v)
      invariant forall gap :: gap in gaps <==> OrderGapIn(services, nodes[..i], gap)
    {
      OrderInSnoc(services, nodes[..i], nodes[i]);
      assert nodes[..i + 1] == nodes[..i] + [nodes[i]];
      var found, missing := ScanOrderState(services, nodes[i]);
      violations, gaps := violations + found, gaps + missing;
    }
    assert nodes[..|nodes|] == nodes;
  }

  // ---- diagnostics ----

  ghost predicate DecidesOrder(g: Graph, services: Services, d: Diagnostic) {
    && !d.advisory
    && d.verdict == OrderVerdict(services, g.nodes)
    && (forall gap :: gap in d.missingEvidence <==> d.verdict == VerdictUnknown && OrderGapIn(services, g.nodes, gap))
    && (d.counterexample.Some? <==> d.verdict == VerdictUnsafe)
    && (d.verdict == VerdictUnsafe ==>
          BestCounterexample(g, OrderIDs(services, g.nodes), d.counterexample.value))
  }

  method AnyDependency(services: Services) returns (any: bool)
    ensures any == AnyDependencyDeclared(services)
  {
    var rest := services.Keys;
    while rest != {}
      invariant rest <= services.Keys
      invariant forall key :: key in services && key !in rest ==> services[key].dependsOn == []
      decreases |rest|
    {
      var key :| key in rest;
      if |services[key].dependsOn| > 0 {
        return true;
      }
      rest := rest - {key};
    }
    return false;
  }

  lemma OrderIdsMatch(g: Graph, services: Services, violations: seq<OrderViolation>, ids: seq<nat>)
    requires Scannable(g)
    requires forall v :: v in violations <==> OrderViolationIn(services, g.nodes, v)
    requires |ids| == |violations| && forall i :: 0 <= i < |ids| ==> ids[i] == violations[i].stateID
    ensures (iset i | i in ids) == OrderIDs(services, g.nodes)
    ensures ids != [] <==> OrderIDs(services, g.nodes) != iset{}
    ensures forall i :: 0 <= i < |ids| ==> ids[i] < |g.nodes|
  {
    forall i | 0 <= i < |ids| ensures ids[i] < |g.nodes| && ids[i] in OrderIDs(services, g.nodes) {
      assert violations[i] in violations;
      OrderViolationState(g, services, violations[i]);
    }
    forall v | OrderViolationIn(services, g.nodes, v) ensures v.stateID in ids {
      assert v in violations;
      var i :| 0 <= i < |violations| && violations[i] == v;
      assert ids[i] == v.stateID;
    }
    assert (iset i | i in ids) == OrderIDs(services, g.nodes);
    if ids == [] {
      assert (iset i | i in ids) == iset{};
    } else {
      assert ids[0] in OrderIDs(services, g.nodes);
    }
  }

  lemma OrderViolationState(g: Graph, services: Services, v: OrderViolation)
    requires Scannable(g) && OrderViolationIn(services, g.nodes, v)
    ensures v.stateID < |g.nodes| && IsOrderViolation(services, g.nodes[v.stateID], v)
  {
  }

  /** RP-ORDER-001 and 002: one scan, reported under both names. */
  method EvaluateOrder(g: Graph, services: Services) returns (diags: seq<Diagnostic>)
    requires Scannable(g)
    ensures |diags| == 2
    ensures DecidesOrder(g, services, diags[0]) && DecidesOrder(g, services, diags[1])
    ensures diags[0].invariantID == "RP-ORDER-001" && diags[1] == diags[0].(invariantID := "RP-ORDER-002")
  {
    hide OrderViolationIn, OrderGapIn, Searchable;
    var any := AnyDependency(services);
    if !any {
      return [SafeDiagnostic("RP-ORDER-001"), SafeDiagnostic("RP-ORDER-002")];
    }
    var violations, gaps := ScanOrder(services, g.nodes);
    var ids: seq<nat> := seq(|violations|, i requires 0 <= i < |violations| => violations[i].stateID);
    OrderIdsMatch(g, services, violations, ids);
    var d, best := Report("RP-ORDER-001", g, ids, gaps);
    return [d, d.(invariantID := "RP-ORDER-002")];
  }

  /**
   Raising a minimum among comparable versions keeps every violation of it.
   */
  lemma RaisingMinimum(services: Services, raised: Services, s: RolloutState, v: OrderViolation, dep: ServiceDependency)
    requires IsOrderViolation(services, s, v)
    requires KeyOf(v.consumer) in raised && dep in raised[KeyOf(v.consumer)].dependsOn
    requires dep.serviceName == v.dep.serviceName && dep.minCompatibleVersion != ""
    requires Comparable(dep.minCompatibleVersion, v.dep.minCompatibleVersion)
    requires !Below(dep.minCompatibleVersion, v.dep.minCompatibleVersion)
    ensures IsOrderViolation(raised, s, v.(dep := dep))
  {
    hide OrdinalsOf, Less;
    RaisingMinimumKeepsViolation(OrdinalsOf(v.provider.version).value,
      OrdinalsOf(v.dep.minCompatibleVersion).value, OrdinalsOf(dep.minCompatibleVersion).value);
  }
}
