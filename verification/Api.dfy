/** The RP-API family: providers and consumers live in the same state (internal/invariant/rpapi.go). */
module Api {
  import opened Wrappers
  import opened Verdicts
  import opened Schemas
  import opened Rollout
  import opened Graphs
  import opened Paths
  import opened Checks
  import opened Engine

  // ---- declared API facts (internal/ir/api.go) ----

  /** Field name to whether it is required. */
  type Shape = map<string, bool>

  datatype Endpoint = Endpoint(requestShape: Shape, responseShape: Shape)

  datatype APIContractKey = APIContractKey(name: string, providerService: string, providerVersion: string)

  datatype APIContract = APIContract(endpoints: map<string, Endpoint>)

  type Contracts = map<APIContractKey, APIContract>

  datatype ApiFinding = MissingEndpoint | MissingRequestField | MissingResponseField

  datatype ApiViolation = ApiViolation(
    finding: ApiFinding,
    stateID: nat,
    consumer: LiveVersion,
    provider: LiveVersion,
    consumption: APIConsumption,
    field: string
  )

  function ContractKey(c: APIConsumption, provider: LiveVersion): APIContractKey {
    APIContractKey(c.contractName, provider.serviceName, provider.version)
  }

  /** The provider's declared contract breaks what the consumer declares it relies on. */
  ghost predicate Breaks(finding: ApiFinding, contract: APIContract, c: APIConsumption, field: string) {
    match finding
    case MissingEndpoint =>
      c.operation !in contract.endpoints && field == ""
    case MissingRequestField =>
      && c.operation in contract.endpoints
      && var shape := contract.endpoints[c.operation].requestShape;
         field in shape && shape[field] && field !in c.requestFieldsSent
    case MissingResponseField =>
      && c.operation in contract.endpoints
      && field in c.requiredResponseFields && field !in contract.endpoints[c.operation].responseShape
  }

  ghost predicate IsApiViolation(services: Services, contracts: Contracts, s: RolloutState, v: ApiViolation) {
    && v.stateID == s.id
    && v.consumer in s.live && KeyOf(v.consumer) in services
    && v.consumption in services[KeyOf(v.consumer)].apiConsumes
    && v.provider in s.live && ContractKey(v.consumption, v.provider) in contracts
    && Breaks(v.finding, contracts[ContractKey(v.consumption, v.provider)], v.consumption, v.field)
  }

  /** No version among live provides the contract. */
  ghost predicate NobodyProvides(contracts: Contracts, live: seq<LiveVersion>, contractName: string) {
    forall p :: p in live ==> APIContractKey(contractName, p.serviceName, p.version) !in contracts
  }

  ghost predicate ConsumerGap(services: Services, contracts: Contracts, live: seq<LiveVersion>, consumer: LiveVersion, gap: Gap) {
    if KeyOf(consumer) !in services then
      gap == NoContract(KeyOf(consumer))
    else
      exists c :: c in services[KeyOf(consumer)].apiConsumes && NobodyProvides(contracts, live, c.contractName)
                  && gap == NoProvider(c.contractName, KeyOf(consumer))
  }

  ghost predicate IsApiGap(services: Services, contracts: Contracts, s: RolloutState, gap: Gap) {
    exists consumer :: consumer in s.live && ConsumerGap(services, contracts, s.live, consumer, gap)
  }

  ghost predicate ApiViolationIn(services: Services, contracts: Contracts, nodes: seq<RolloutState>, v: ApiViolation) {
    exists s :: s in nodes && IsApiViolation(services, contracts, s, v)
  }

  ghost predicate ApiGapIn(services: Services, contracts: Contracts, nodes: seq<RolloutState>, gap: Gap) {
    exists s :: s in nodes && IsApiGap(services, contracts, s, gap)
  }

  ghost function ApiIDs(finding: ApiFinding, services: Services, contracts: Contracts, nodes: seq<RolloutState>): iset<nat> {
    iset v | ApiViolationIn(services, contracts, nodes, v) && v.finding == finding :: v.stateID
  }

  /** Whether any loaded contract file declares API facts at all. */
  predicate AnyAPIUsageDeclared(services: Services) {
    exists key :: key in services && (services[key].apiProvides != [] || services[key].apiConsumes != [])
  }

  ghost function ApiVerdict(finding: ApiFinding, services: Services, contracts: Contracts, nodes: seq<RolloutState>): Verdict {
    if !AnyAPIUsageDeclared(services) then
      VerdictSafe
    else
      VerdictFor(ApiIDs(finding, services, contracts, nodes) != iset{},
                 exists gap :: ApiGapIn(services, contracts, nodes, gap))
  }

  // ---- the scan ----

  /** One provider against one consumption. */
  method ScanProvider(contract: APIContract, s: RolloutState, consumer: LiveVersion, provider: LiveVersion, c: APIConsumption)
    returns (violations: seq<ApiViolation>)
    ensures forall v :: v in violations <==>
      && v.stateID == s.id && v.consumer == consumer && v.provider == provider && v.consumption == c
      && Breaks(v.finding, contract, c, v.field)
  {
    if c.operation !in contract.endpoints {
      return [ApiViolation(MissingEndpoint, s.id, consumer, provider, c, "")];
    }
    var ep := contract.endpoints[c.operation];
    var requests := ScanRequestFields(ep.requestShape, s, consumer, provider, c);
    var responses := ScanResponseFields(ep.responseShape, s, consumer, provider, c);
    return requests + responses;
  }

  method ScanRequestFields(shape: Shape, s: RolloutState, consumer: LiveVersion, provider: LiveVersion, c: APIConsumption)
    returns (violations: seq<ApiViolation>)
    ensures forall v :: v in violations <==>
      && v.stateID == s.id && v.consumer == consumer && v.provider == provider && v.consumption == c
      && v.finding == MissingRequestField && v.field in shape && shape[v.field] && v.field !in c.requestFieldsSent
  {
    violations := [];
    var rest, done := shape.Keys, {};
    while rest != {}
      invariant rest + done == shape.Keys && rest !! done
      invariant forall v :: v in violations <==>
        && v.stateID == s.id && v.consumer == consumer && v.provider == provider && v.consumption == c
        && v.finding == MissingRequestField && v.field in done && shape[v.field] && v.field !in c.requestFieldsSent
      decreases |rest|
    {
      var f :| f in rest;
      rest, done := rest - {f}, done + {f};
      if shape[f] && f !in c.requestFieldsSent {
        violations := violations + [ApiViolation(MissingRequestField, s.id, consumer, provider, c, f)];
      }
    }
    assert done == shape.Keys;
  }

  method ScanResponseFields(shape: Shape, s: RolloutState, consumer: LiveVersion, provider: LiveVersion, c: APIConsumption)
    returns (violations: seq<ApiViolation>)
    ensures forall v :: v in violations <==>
      && v.stateID == s.id && v.consumer == consumer && v.provider == provider && v.consumption == c
      && v.finding == MissingResponseField && v.field in c.requiredResponseFields && v.field !in shape
  {
    violations := [];
    var fields := c.requiredResponseFields;
    for i := 0 to |fields|
      invariant forall v :: v in violations <==>
        && v.stateID == s.id && v.consumer == consumer && v.provider == provider && v.consumption == c
        && v.finding == MissingResponseField && v.field in fields[..i] && v.field !in shape
    {
      assert fields[..i + 1] == fields[..i] + [fields[i]];
      if fields[i] !in shape {
        violations := violations + [ApiViolation(MissingResponseField, s.id, consumer, provider, c, fields[i])];
      }
    }
    assert fields[..|fields|] == fields;
  }

  /** Every live provider against one consumption; matched if any of them provides the contract. */
  method ScanConsumption(contracts: Contracts, s: RolloutState, consumer: LiveVersion, c: APIConsumption)
    returns (violations: seq<ApiViolation>, matched: bool)
    ensures forall v :: v in violations <==>
      && v.stateID == s.id && v.consumer == consumer && v.consumption == c
      && v.provider in s.live && ContractKey(c, v.provider) in contracts
      && Breaks(v.finding, contracts[ContractKey(c, v.provider)], c, v.field)
    ensures !matched <==> NobodyProvides(contracts, s.live, c.contractName)
  {
    hide Breaks;
    violations, matched := [], false;
    for j := 0 to |s.live|
      invariant forall v :: v in violations <==>
        && v.stateID == s.id && v.consumer == consumer && v.consumption == c
        && v.provider in s.live[..j] && ContractKey(c, v.provider) in contracts
        && Breaks(v.finding, contracts[ContractKey(c, v.provider)], c, v.field)
      invariant !matched <==> NobodyProvides(contracts, s.live[..j], c.contractName)
    {
      var plv := s.live[j];
      assert s.live[..j + 1] == s.live[..j] + [plv];
      var key := APIContractKey(c.contractName, plv.serviceName, plv.version);
      if key in contracts {
        matched := true;
        var found := ScanProvider(contracts[key], s, consumer, plv, c);
        violations := violations + found;
      }
    }
    assert s.live[..|s.live|] == s.live;
  }

  ghost predicate ConsumedUnprovided(contracts: Contracts, live: seq<LiveVersion>, cs: seq<APIConsumption>, key: ServiceKey, gap: Gap) {
    exists c :: c in cs && NobodyProvides(contracts, live, c.contractName) && gap == NoProvider(c.contractName, key)
  }

  lemma ConsumedUnprovidedSnoc(contracts: Contracts, live: seq<LiveVersion>, cs: seq<APIConsumption>, key: ServiceKey, c: APIConsumption)
    ensures forall gap :: ConsumedUnprovided(contracts, live, cs + [c], key, gap) <==>
      || ConsumedUnprovided(contracts, live, cs, key, gap)
      || (NobodyProvides(contracts, live, c.contractName) && gap == NoProvider(c.contractName, key))
  {
    hide NobodyProvides;
    assert c in cs + [c];
    assert forall x :: x in cs ==> x in cs + [c];
  }

  method ScanConsumer(services: Services, contracts: Contracts, s: RolloutState, consumer: LiveVersion)
    returns (violations: seq<ApiViolation>, gaps: set<Gap>)
    requires consumer in s.live
    ensures forall v :: v in violations <==> IsApiViolation(services, contracts, s, v) && v.consumer == consumer
    ensures forall gap :: gap in gaps <==> ConsumerGap(services, contracts, s.live, consumer, gap)
  {
    hide Breaks, NobodyProvides, ConsumedUnprovided;
    if KeyOf(consumer) !in services {
      return [], {NoContract(KeyOf(consumer))};
    }
    violations, gaps := [], {};
    var cs := services[KeyOf(consumer)].apiConsumes;
    UnprovidedNone(contracts, s.live, KeyOf(consumer));
    for i := 0 to |cs|
      invariant forall v :: v in violations <==>
        IsApiViolation(services, contracts, s, v) && v.consumer == consumer && v.consumption in cs[..i]
      invariant forall gap :: gap in gaps <==> ConsumedUnprovided(contracts, s.live, cs[..i], KeyOf(consumer), gap)
    {
      assert cs[..i + 1] == cs[..i] + [cs[i]];
      ConsumedUnprovidedSnoc(contracts, s.live, cs[..i], KeyOf(consumer), cs[i]);
      var found, matched := ScanConsumption(contracts, s, consumer, cs[i]);
      violations := violations + found;
      if !matched {
        gaps := gaps + {NoProvider(cs[i].contractName, KeyOf(consumer))};
      }
    }
    assert cs[..|cs|] == cs;
    UnprovidedIsGap(services, contracts, s.live, consumer);
  }

  lemma UnprovidedNone(contracts: Contracts, live: seq<LiveVersion>, key: ServiceKey)
    ensures forall gap :: !ConsumedUnprovided(contracts, live, [], key, gap)
  {
  }

  lemma UnprovidedIsGap(services: Services, contracts: Contracts, live: seq<LiveVersion>, consumer: LiveVersion)
    requires KeyOf(consumer) in services
    ensures forall gap ::
      ConsumedUnprovided(contracts, live, services[KeyOf(consumer)].apiConsumes, KeyOf(consumer), gap) <==>
      ConsumerGap(services, contracts, live, consumer, gap)
  {
  }

  ghost predicate GapAmongConsumers(services: Services, contracts: Contracts, live: seq<LiveVersion>, consumers: seq<LiveVersion>, gap: Gap) {
    exists consumer :: consumer in consumers && ConsumerGap(services, contracts, live, consumer, gap)
  }

  lemma GapAmongConsumersSnoc(services: Services, contracts: Contracts, live: seq<LiveVersion>, consumers: seq<LiveVersion>, lv: LiveVersion)
    ensures forall gap :: GapAmongConsumers(services, contracts, live, consumers + [lv], gap) <==>
      GapAmongConsumers(services, contracts, live, consumers, gap) || ConsumerGap(services, contracts, live, lv, gap)
  {
    hide ConsumerGap;
    assert lv in consumers + [lv];
    assert forall x :: x in consumers ==> x in consumers + [lv];
  }

  method ScanApiState(services: Services, contracts: Contracts, s: RolloutState)
    returns (violations: seq<ApiViolation>, gaps: set<Gap>)
    ensures forall v :: v in violations <==> IsApiViolation(services, contracts, s, v)
    ensures forall gap :: gap in gaps <==> IsApiGap(services, contracts, s, gap)
  {
    hide Breaks, ConsumerGap, GapAmongConsumers;
    violations, gaps := [], {};
    NoConsumersNoGap(services, contracts, s);
    for j := 0 to |s.live|
      invariant forall v :: v in violations <==> IsApiViolation(services, contracts, s, v) && v.consumer in s.live[..j]
      invariant forall gap :: gap in gaps <==> GapAmongConsumers(services, contracts, s.live, s.live[..j], gap)
    {
      assert s.live[..j + 1] == s.live[..j] + [s.live[j]];
      GapAmongConsumersSnoc(services, contracts, s.live, s.live[..j], s.live[j]);
      var found, missing := ScanConsumer(services, contracts, s, s.live[j]);
      violations, gaps := violations + found, gaps + missing;
    }
    assert s.live[..|s.live|] == s.live;
  }

  lemma NoConsumersNoGap(services: Services, contracts: Contracts, s: RolloutState)
    ensures forall gap :: !GapAmongConsumers(services, contracts, s.live, [], gap)
    ensures forall gap :: GapAmongConsumers(services, contracts, s.live, s.live, gap) <==> IsApiGap(services, contracts, s, gap)
  {
  }

  lemma ApiInSnoc(services: Services, contracts: Contracts, nodes: seq<RolloutState>, s: RolloutState)
    ensures forall v :: ApiViolationIn(services, contracts, nodes + [s], v) <==>
      ApiViolationIn(services, contracts, nodes, v) || IsApiViolation(services, contracts, s, v)
    ensures forall gap :: ApiGapIn(services, contracts, nodes + [s], gap) <==>
      ApiGapIn(services, contracts, nodes, gap) || IsApiGap(services, contracts, s, gap)
  {
    hide IsApiViolation, IsApiGap;
    assert s in nodes + [s];
    assert forall x :: x in nodes ==> x in nodes + [s];
  }

  lemma ApiInNone(services: Services, contracts: Contracts)
    ensures forall v :: !ApiViolationIn(services, contracts, [], v)
    ensures forall gap :: !ApiGapIn(services, contracts, [], gap)
  {
  }

  method ScanApi(services: Services, contracts: Contracts, nodes: seq<RolloutState>)
    returns (violations: seq<ApiViolation>, gaps: set<Gap>)
    ensures forall v :: v in violations <==> ApiViolationIn(services, contracts, nodes, v)
    ensures forall gap :: gap in gaps <==> ApiGapIn(services, contracts, nodes, gap)
  {
    hide IsApiViolation, IsApiGap, ApiViolationIn, ApiGapIn;
    violations, gaps := [], {};
    ApiInNone(services, contracts);
    for i := 0 to |nodes|
      invariant forall v :: v in violations <==> ApiViolationIn(services, contracts, nodes[..i], v)
      invariant forall gap :: gap in gaps <==> ApiGapIn(services, contracts, nodes[..i], gap)
    {
      ApiInSnoc(services, contracts, nodes[..i], nodes[i]);
      assert nodes[..i + 1] == nodes[..i] + [nodes[i]];
      var found, missing := ScanApiState(services, contracts, nodes[i]);
      violations, gaps := violations + found, gaps + missing;
    }
    assert nodes[..|nodes|] == nodes;
  }

  // ---- diagnostics ----

  method IdsOf(finding: ApiFinding, violations: seq<ApiViolation>) returns (ids: seq<nat>)
    ensures forall id :: id in ids <==> exists v :: v in violations && v.finding == finding && v.stateID == id
  {
    ids := [];
    for i := 0 to |violations|
      invariant forall id :: id in ids ==> exists v :: v in violations && v.finding == finding && v.stateID == id
      invariant forall j :: 0 <= j < i && violations[j].finding == finding ==> violations[j].stateID in ids
    {
      if violations[i].finding == finding {
        assert violations[i] in violations;
        ids := ids + [violations[i].stateID];
      }
    }
  }

  function ApiID(finding: ApiFinding): string {
    match finding
    case MissingEndpoint => "RP-API-001"
    case MissingRequestField => "RP-API-002"
    case MissingResponseField => "RP-API-003"
  }

  /** A diagnostic that is right about one kind of finding. */
  ghost predicate DecidesApi(finding: ApiFinding, g: Graph, services: Services, contracts: Contracts, d: Diagnostic) {
    && d.invariantID == ApiID(finding) && !d.advisory
    && d.verdict == ApiVerdict(finding, services, contracts, g.nodes)
    && (forall gap :: gap in d.missingEvidence <==>
          d.verdict == VerdictUnknown && ApiGapIn(services, contracts, g.nodes, gap))
    && (d.counterexample.Some? <==> d.verdict == VerdictUnsafe)
    && (d.verdict == VerdictUnsafe ==>
          BestCounterexample(g, ApiIDs(finding, services, contracts, g.nodes), d.counterexample.value))
  }

  method AnyUsage(services: Services) returns (any: bool)
    ensures any == AnyAPIUsageDeclared(services)
  {
    var rest := services.Keys;
    while rest != {}
      invariant rest <= services.Keys
      invariant forall key :: key in services && key !in rest ==> services[key].apiProvides == [] && services[key].apiConsumes == []
      decreases |rest|
    {
      var key :| key in rest;
      if |services[key].apiProvides| > 0 || |services[key].apiConsumes| > 0 {
        return true;
      }
      rest := rest - {key};
    }
    return false;
  }

  method BuildApiDiagnostic(finding: ApiFinding, g: Graph, ghost services: Services, ghost contracts: Contracts,
                            violations: seq<ApiViolation>, gaps: set<Gap>) returns (d: Diagnostic)
    requires Scannable(g) && AnyAPIUsageDeclared(services)
    requires forall v :: v in violations <==> ApiViolationIn(services, contracts, g.nodes, v)
    requires forall gap :: gap in gaps <==> ApiGapIn(services, contracts, g.nodes, gap)
    ensures DecidesApi(finding, g, services, contracts, d)
  {
    hide ApiGapIn, ApiViolationIn, Searchable;
    var ids := IdsOf(finding, violations);
    ApiIdsMatch(finding, g, services, contracts, violations, ids);
    var best;
    d, best := Report(ApiID(finding), g, ids, gaps);
  }

  lemma ApiIdsMatch(finding: ApiFinding, g: Graph, services: Services, contracts: Contracts,
                    violations: seq<ApiViolation>, ids: seq<nat>)
    requires Scannable(g)
    requires forall v :: v in violations <==> ApiViolationIn(services, contracts, g.nodes, v)
    requires forall id :: id in ids <==> exists v :: v in violations && v.finding == finding && v.stateID == id
    ensures (iset i | i in ids) == ApiIDs(finding, services, contracts, g.nodes)
    ensures ids != [] <==> ApiIDs(finding, services, contracts, g.nodes) != iset{}
    ensures forall i :: 0 <= i < |ids| ==> ids[i] < |g.nodes|
  {
    hide IsApiViolation;
    forall v | ApiViolationIn(services, contracts, g.nodes, v) ensures v.stateID < |g.nodes| {
      ApiViolationState(g, services, contracts, v);
    }
    forall i | 0 <= i < |ids| ensures ids[i] < |g.nodes| {
      assert ids[i] in ids;
    }
    assert (iset i | i in ids) == ApiIDs(finding, services, contracts, g.nodes);
    if ids == [] {
      assert (iset i | i in ids) == iset{};
    } else {
      assert ids[0] in ids;
      assert ids[0] in ApiIDs(finding, services, contracts, g.nodes);
    }
  }

  lemma ApiViolationState(g: Graph, services: Services, contracts: Contracts, v: ApiViolation)
    requires Scannable(g) && ApiViolationIn(services, contracts, g.nodes, v)
    ensures v.stateID < |g.nodes| && IsApiViolation(services, contracts, g.nodes[v.stateID], v)
  {
  }

  /** RP-API-004: the worst of the three, with the first UNSAFE one's counterexample and every gap. */
  function AggregateAPI(a: Diagnostic, b: Diagnostic, c: Diagnostic): Diagnostic {
    var verdict := Combine(Combine(a.verdict, b.verdict), c.verdict);
    match verdict
    case VerdictUnsafe =>
      var shown := if a.verdict == VerdictUnsafe then a.counterexample
                   else if b.verdict == VerdictUnsafe then b.counterexample
                   else c.counterexample;
      Diagnostic("RP-API-004", VerdictUnsafe, shown, {}, RollbackUnknown, false)
    case VerdictUnknown =>
      UnknownDiagnostic("RP-API-004", a.missingEvidence + b.missingEvidence + c.missingEvidence)
    case VerdictSafe => SafeDiagnostic("RP-API-004")
  }

  /** One of the three findings has the verdict. */
  ghost predicate SomeFinding(v: Verdict, services: Services, contracts: Contracts, nodes: seq<RolloutState>) {
    exists finding :: ApiVerdict(finding, services, contracts, nodes) == v
  }

  /** The first finding, in report order, that some state shows. */
  ghost predicate IsFirstUnsafe(finding: ApiFinding, services: Services, contracts: Contracts, nodes: seq<RolloutState>) {
    && ApiVerdict(finding, services, contracts, nodes) == VerdictUnsafe
    && (!finding.MissingEndpoint? ==> ApiVerdict(MissingEndpoint, services, contracts, nodes) != VerdictUnsafe)
    && (finding.MissingResponseField? ==> ApiVerdict(MissingRequestField, services, contracts, nodes) != VerdictUnsafe)
  }

  /** A diagnostic that is right about the three findings together. */
  ghost predicate DecidesApiAggregate(g: Graph, services: Services, contracts: Contracts, d: Diagnostic) {
    && d.invariantID == "RP-API-004" && !d.advisory
    && d.verdict == VerdictFor(SomeFinding(VerdictUnsafe, services, contracts, g.nodes),
                               SomeFinding(VerdictUnknown, services, contracts, g.nodes))
    && (forall gap :: gap in d.missingEvidence <==>
          d.verdict == VerdictUnknown && ApiGapIn(services, contracts, g.nodes, gap))
    && (d.counterexample.Some? <==> d.verdict == VerdictUnsafe)
    && (d.verdict == VerdictUnsafe ==> exists finding ::
          && IsFirstUnsafe(finding, services, contracts, g.nodes)
          && BestCounterexample(g, ApiIDs(finding, services, contracts, g.nodes), d.counterexample.value))
  }

  lemma AggregateDecides(g: Graph, services: Services, contracts: Contracts, a: Diagnostic, b: Diagnostic, c: Diagnostic)
    requires DecidesApi(MissingEndpoint, g, services, contracts, a)
    requires DecidesApi(MissingRequestField, g, services, contracts, b)
    requires DecidesApi(MissingResponseField, g, services, contracts, c)
    ensures DecidesApiAggregate(g, services, contracts, AggregateAPI(a, b, c))
  {
    hide ApiVerdict, ApiGapIn, ApiIDs, BestCounterexample;
    forall v ensures SomeFinding(v, services, contracts, g.nodes) <==> a.verdict == v || b.verdict == v || c.verdict == v {
      if finding :| ApiVerdict(finding, services, contracts, g.nodes) == v {
        assert finding == MissingEndpoint || finding == MissingRequestField || finding == MissingResponseField;
      }
    }
    if a.verdict == VerdictUnsafe {
      assert IsFirstUnsafe(MissingEndpoint, services, contracts, g.nodes);
    } else if b.verdict == VerdictUnsafe {
      assert IsFirstUnsafe(MissingRequestField, services, contracts, g.nodes);
    } else if c.verdict == VerdictUnsafe {
      assert IsFirstUnsafe(MissingResponseField, services, contracts, g.nodes);
    }
  }

  /** RP-API-001, 002, 003 and their aggregate 004. */
  method EvaluateAPI(g: Graph, services: Services, contracts: Contracts) returns (diags: seq<Diagnostic>)
    requires Scannable(g)
    ensures |diags| == 4
    ensures DecidesApi(MissingEndpoint, g, services, contracts, diags[0])
    ensures DecidesApi(MissingRequestField, g, services, contracts, diags[1])
    ensures DecidesApi(MissingResponseField, g, services, contracts, diags[2])
    ensures DecidesApiAggregate(g, services, contracts, diags[3])
  {
    hide ApiViolationIn, ApiGapIn, DecidesApi, DecidesApiAggregate;
    var any := AnyUsage(services);
    if !any {
      NoUsageIsSafe(g, services, contracts);
      var d1, d2, d3 := SafeDiagnostic(ApiID(MissingEndpoint)), SafeDiagnostic(ApiID(MissingRequestField)), SafeDiagnostic(ApiID(MissingResponseField));
      AggregateDecides(g, services, contracts, d1, d2, d3);
      return [d1, d2, d3, SafeDiagnostic("RP-API-004")];
    }
    var violations, gaps := ScanApi(services, contracts, g.nodes);
    var d1 := BuildApiDiagnostic(MissingEndpoint, g, services, contracts, violations, gaps);
    var d2 := BuildApiDiagnostic(MissingRequestField, g, services, contracts, violations, gaps);
    var d3 := BuildApiDiagnostic(MissingResponseField, g, services, contracts, violations, gaps);
    AggregateDecides(g, services, contracts, d1, d2, d3);
    return [d1, d2, d3, AggregateAPI(d1, d2, d3)];
  }

  lemma NoUsageIsSafe(g: Graph, services: Services, contracts: Contracts)
    requires !AnyAPIUsageDeclared(services)
    ensures forall finding :: DecidesApi(finding, g, services, contracts, SafeDiagnostic(ApiID(finding)))
  {
  }
}
