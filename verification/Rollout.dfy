/**
 The entities a rollout is described with: live versions, schema states,
 rollout states, workloads, services and plans (internal/ir).
 */
module Rollout {
  import opened Wrappers
  import opened Ordering
  import opened Schemas

  // ---- states (state.go) ----

  datatype LiveVersion = LiveVersion(serviceName: string, version: string)

  /** An operation of the trail, with the altered column's type just before it ("" if unknown). */
  datatype CommittedOp = CommittedOp(migrationID: string, op: MigrationOp, priorType: string)

  datatype SchemaState = SchemaState(schema: Schema, committedOps: seq<CommittedOp>, indeterminate: bool)

  datatype RolloutState = RolloutState(id: nat, live: seq<LiveVersion>, schemaState: SchemaState)

  datatype EventKind =
    | EventUnknown
    | EventMigrationOpCommitted
    | EventNewReplicaReady
    | EventOldReplicaTerminated

  datatype TransitionEvent = TransitionEvent(kind: EventKind, detail: string)

  function CompareLiveVersions(a: LiveVersion, b: LiveVersion): int {
    if a.serviceName != b.serviceName then
      if StringLess(a.serviceName, b.serviceName) then -1 else 1
    else if a.version != b.version then
      if StringLess(a.version, b.version) then -1 else 1
    else
      0
  }

  predicate LiveLess(a: LiveVersion, b: LiveVersion) {
    CompareLiveVersions(a, b) < 0
  }

  lemma LiveLessIsTotalOrder()
    ensures StrictWeakOrder(LiveLess)
    ensures forall a, b :: a == b || LiveLess(a, b) || LiveLess(b, a)
  {
    forall a, b ensures a == b || LiveLess(a, b) || LiveLess(b, a) {
      StringLessTotal(a.serviceName, b.serviceName);
      StringLessTotal(a.version, b.version);
    }
    forall a, b | LiveLess(a, b) ensures !LiveLess(b, a) {
      LiveLessAsymmetric(a, b);
    }
    forall a, b, c | LiveLess(a, b) && LiveLess(b, c) ensures LiveLess(a, c) {
      LiveLessTransitive(a, b, c);
    }
    forall a, b, c | !LiveLess(a, b) && !LiveLess(b, c) ensures !LiveLess(a, c) {
      if LiveLess(a, c) {
        if b != a {
          LiveLessTransitive(b, a, c);
        }
      }
    }
  }

  lemma LiveLessAsymmetric(a: LiveVersion, b: LiveVersion)
    requires LiveLess(a, b)
    ensures !LiveLess(b, a)
  {
    if a.serviceName != b.serviceName {
      StringLessAsymmetric(a.serviceName, b.serviceName);
    } else {
      StringLessAsymmetric(a.version, b.version);
    }
  }

  lemma LiveLessTransitive(a: LiveVersion, b: LiveVersion, c: LiveVersion)
    requires LiveLess(a, b) && LiveLess(b, c)
    ensures LiveLess(a, c)
  {
    if a.serviceName != b.serviceName && b.serviceName != c.serviceName {
      StringLessTransitive(a.serviceName, b.serviceName, c.serviceName);
      StringLessAsymmetric(a.serviceName, b.serviceName);
    } else if a.serviceName == b.serviceName == c.serviceName {
      StringLessTransitive(a.version, b.version, c.version);
      StringLessAsymmetric(a.version, b.version);
    }
  }

  ghost predicate Distinct<T>(s: seq<T>) {
    forall i, j :: 0 <= i < j < |s| ==> s[i] != s[j]
  }

  /** The canonical form of a live set: sorted, no version twice. */
  ghost predicate CanonicalOf(live: seq<LiveVersion>, out: seq<LiveVersion>) {
    && Sorted(LiveLess, out)
    && Distinct(out)
    && forall lv :: lv in out <==> lv in live
  }

  lemma DistinctFromMultiset<T>(s: seq<T>, t: seq<T>)
    requires Distinct(s) && multiset(s) == multiset(t)
    ensures Distinct(t)
  {
    forall i, j | 0 <= i < j < |t| ensures t[i] != t[j] {
      if t[i] == t[j] {
        TwiceInMultiset(t, i, j);
        DistinctCounts(s, t[i]);
      }
    }
  }

  lemma TwiceInMultiset<T>(t: seq<T>, i: nat, j: nat)
    requires i < j < |t| && t[i] == t[j]
    ensures multiset(t)[t[i]] >= 2
  {
    assert t == t[..j] + [t[j]] + t[j + 1..];
    assert t[i] in t[..j];
  }

  lemma DistinctCounts<T>(s: seq<T>, x: T)
    requires Distinct(s)
    ensures multiset(s)[x] <= 1
  {
    if x in s {
      var i :| 0 <= i < |s| && s[i] == x;
      assert s == s[..i] + [x] + s[i + 1..];
      assert x !in s[..i] && x !in s[i + 1..];
    }
  }

  lemma HeadIsLeast(s: seq<LiveVersion>, lv: LiveVersion)
    requires Sorted(LiveLess, s) && lv in s
    ensures lv == s[0] || !LiveLess(lv, s[0])
  {
  }

  lemma EmptyWhenNoElement<T>(s: seq<T>)
    ensures (forall x :: x !in s) ==> s == []
  {
    if s != [] { assert s[0] in s; }
  }

  /** Two states built from the same facts in different orders have equal live lists. */
  lemma {:induction false} CanonicalUnique(a: seq<LiveVersion>, b: seq<LiveVersion>)
    requires Sorted(LiveLess, a) && Distinct(a) && Sorted(LiveLess, b) && Distinct(b)
    requires forall lv :: lv in a <==> lv in b
    ensures a == b
    decreases |a|
  {
    LiveLessIsTotalOrder();
    if a == [] {
      EmptyWhenNoElement(b);
    } else {
      assert a[0] in b && b[0] in a;
      HeadIsLeast(a, b[0]);
      HeadIsLeast(b, a[0]);
      assert a[0] == b[0];
      forall lv ensures lv in a[1..] <==> lv in b[1..] {
        assert lv in a <==> lv == a[0] || lv in a[1..];
        assert lv in b <==> lv == b[0] || lv in b[1..];
      }
      CanonicalUnique(a[1..], b[1..]);
      assert a == [a[0]] + a[1..] && b == [b[0]] + b[1..];
    }
  }

  method NewRolloutState(id: nat, live: seq<LiveVersion>, schemaState: SchemaState) returns (s: RolloutState)
    ensures s.id == id && s.schemaState == schemaState
    ensures CanonicalOf(live, s.live)
  {
    var seen: set<LiveVersion> := {};
    var out: seq<LiveVersion> := [];
    for i := 0 to |live|
      invariant Distinct(out)
      invariant forall lv :: lv in seen <==> lv in live[..i]
      invariant forall lv :: lv in out <==> lv in seen
    {
      if live[i] !in seen {
        seen := seen + {live[i]};
        out := out + [live[i]];
      }
    }
    assert live[..|live|] == live;
    var sorted := SortBy(LiveLess, out);
    LiveLessIsTotalOrder();
    SortBySorted(LiveLess, out);
    DistinctFromMultiset(out, sorted);
    forall lv ensures lv in sorted <==> lv in live {
      SortByElements(LiveLess, out, lv);
    }
    return RolloutState(id, sorted, schemaState);
  }

  // ---- workloads (workload.go) ----

  datatype StrategyType = StrategyUnknown | StrategyRollingUpdate | StrategyRecreate

  datatype IntOrPercent = IntOrPercent(isPercent: bool, intValue: int, percent: int)

  datatype RolloutStrategy = RolloutStrategy(typ: StrategyType, maxSurge: IntOrPercent, maxUnavailable: IntOrPercent)

  datatype Workload = Workload(name: string, serviceName: string, replicas: nat, strategy: RolloutStrategy)

  /** Go's integer division, which truncates towards zero. */
  function GoDiv(a: int, b: int): int
    requires b > 0
  {
    if a >= 0 then a / b else -((-a) / b)
  }

  function Resolve(v: IntOrPercent, total: int): int {
    if !v.isPercent then v.intValue else GoDiv(total * v.percent + 99, 100)
  }

  /** n whole replicas are at least the given hundredths of a replica. */
  predicate Covers(n: int, share: int) {
    100 * n >= share
  }

  /**
   Resolve is the least whole count of at least the given share, save for negative
   shares: rounding towards zero puts it one too high, but for one remainder.
   */
  lemma ResolveRoundsUp(v: IntOrPercent, total: int)
    requires v.isPercent
    ensures (forall n :: Covers(n, total * v.percent) <==> n >= Resolve(v, total)) <==>
            total * v.percent >= -99 || total * v.percent % 100 == 1
  {
    var share := total * v.percent;
    var least := (share + 99) / 100;
    assert forall n :: Covers(n, share) <==> n >= least;
    if Resolve(v, total) != least {
      assert Covers(least, share) && !(least >= Resolve(v, total));
    }
  }

  predicate AllowsCoexistence(s: RolloutStrategy, replicas: int) {
    if s.typ != StrategyRollingUpdate then
      false
    else
      Resolve(s.maxSurge, replicas) > 0 || Resolve(s.maxUnavailable, replicas) < replicas
  }

  // ---- services (service.go, api.go) ----

  datatype ServiceKey = ServiceKey(name: string, version: string)

  datatype ServiceDependency = ServiceDependency(serviceName: string, minCompatibleVersion: string)

  datatype APIConsumption = APIConsumption(
    contractName: string,
    operation: string,
    requestFieldsSent: seq<string>,
    requiredResponseFields: seq<string>
  )

  datatype Service = Service(
    schemaReads: seq<ColumnRef>,
    schemaWrites: seq<ColumnRef>,
    dependsOn: seq<ServiceDependency>,
    apiProvides: seq<string>,
    apiConsumes: seq<APIConsumption>
  ) {
    predicate ReadsColumn(c: ColumnRef) {
      c in schemaReads
    }

    predicate WritesColumn(c: ColumnRef) {
      c in schemaWrites
    }

    predicate WritesTable(table: string) {
      exists i :: 0 <= i < |schemaWrites| && schemaWrites[i].table == table
    }

    predicate TouchesTable(table: string) {
      (exists i :: 0 <= i < |schemaReads| && schemaReads[i].table == table) || WritesTable(table)
    }
  }

  /** The contract files that were loaded: declared facts per service version. */
  type Services = map<ServiceKey, Service>

  function KeyOf(lv: LiveVersion): ServiceKey {
    ServiceKey(lv.serviceName, lv.version)
  }

  // ---- plans (rolloutplan.go) ----

  datatype MigrationPhase = PhaseUnknown | PhaseBeforeRollout | PhaseDuringRollout | PhaseAfterRollout

  datatype Migration = Migration(id: string, operations: seq<MigrationOp>)

  datatype MigrationTiming = MigrationTiming(migration: Migration, phase: MigrationPhase)

  datatype WorkloadChange = WorkloadChange(workload: Workload, fromVersion: string, toVersion: string)

  datatype RollbackTarget = RollbackTarget(workload: Workload, toVersion: string)

  datatype ExpandContractLink = ExpandContractLink(expandMigrationID: string, contractMigrationID: string)

  datatype RolloutPlan = RolloutPlan(
    baseSchema: Schema,
    workloads: seq<WorkloadChange>,
    migrations: seq<MigrationTiming>,
    rollbackTarget: Option<RollbackTarget>,
    expandContractLinks: seq<ExpandContractLink>
  )

  ghost predicate IsLastWithID(migrations: seq<MigrationTiming>, id: string, i: nat) {
    && i < |migrations| && migrations[i].migration.id == id
    && forall j :: i < j < |migrations| ==> migrations[j].migration.id != id
  }

  /** The entry a map filled in list order ends up holding: the last one of that ID. */
  function LastWithID(migrations: seq<MigrationTiming>, id: string): (r: Option<MigrationTiming>)
    ensures r.Some? <==> exists i :: 0 <= i < |migrations| && migrations[i].migration.id == id
    ensures r.Some? ==> r.value in migrations && r.value.migration.id == id
  {
    if migrations == [] then
      None
    else
      var last := migrations[|migrations| - 1];
      if last.migration.id == id then Some(last) else LastWithID(migrations[..|migrations| - 1], id)
  }

  lemma {:induction false} LastWithIDIsLast(migrations: seq<MigrationTiming>, id: string, i: nat)
    requires IsLastWithID(migrations, id, i)
    ensures LastWithID(migrations, id) == Some(migrations[i])
    decreases |migrations|
  {
    var n := |migrations| - 1;
    if i < n {
      LastWithIDIsLast(migrations[..n], id, i);
    }
  }

  /** Where an ID occurs, it has a last occurrence. */
  lemma {:induction false} LastOccurrence(migrations: seq<MigrationTiming>, id: string) returns (i: nat)
    requires LastWithID(migrations, id).Some?
    ensures IsLastWithID(migrations, id, i)
    decreases |migrations|
  {
    var n := |migrations| - 1;
    if migrations[n].migration.id == id {
      i := n;
    } else {
      i := LastOccurrence(migrations[..n], id);
    }
  }

  predicate HasOpKind(m: Migration, kind: OpKind) {
    exists i :: 0 <= i < |m.operations| && m.operations[i].kind == kind
  }

  predicate LinkValid(migrations: seq<MigrationTiming>, link: ExpandContractLink) {
    var expand := LastWithID(migrations, link.expandMigrationID);
    var contract := LastWithID(migrations, link.contractMigrationID);
    && link.expandMigrationID != "" && link.contractMigrationID != ""
    && link.expandMigrationID != link.contractMigrationID
    && expand.Some? && contract.Some?
    && HasOpKind(expand.value.migration, OpAddColumn)
    && (HasOpKind(contract.value.migration, OpDropColumn) || HasOpKind(contract.value.migration, OpDropNotNull))
  }

  /** What NewRolloutPlan checks before it accepts a plan. */
  predicate PlanValid(p: RolloutPlan) {
    && |p.workloads| > 0
    && (forall i :: 0 <= i < |p.workloads| ==> p.workloads[i].fromVersion != "" && p.workloads[i].toVersion != "")
    && (forall i :: 0 <= i < |p.migrations| ==> p.migrations[i].phase != PhaseUnknown)
    && (forall i :: 0 <= i < |p.expandContractLinks| ==> LinkValid(p.migrations, p.expandContractLinks[i]))
  }
}
