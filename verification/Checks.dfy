/**
 What the column-compatibility invariants RP-DB-001..005 look for in one reachable
 state (internal/invariant/rpdb.go, rpdb003.go, rpdb004.go, rpdb005.go), and the
 verdict a list of states has under each of them.
 */
module Checks {
  import opened Wrappers
  import opened Verdicts
  import opened Schemas
  import opened Rollout
  import opened Replay
  import opened TypeCompat

  datatype Access = Reads | Writes

  /** RP-DB-001 and 002 share one check, parameterised by the declared columns it looks at. */
  datatype Check =
    | CheckExistence(access: Access)
    | CheckTypes
    | CheckNotNull
    | CheckRenames

  datatype Gap =
    | UnknownSchema(stateID: nat)
    | NoContract(key: ServiceKey)
    | TableNotMentioned(key: ServiceKey, table: string)
    | NoPriorType(col: ColumnRef, migrationID: string)
    | ReversibilityUnclassified(col: ColumnRef, migrationID: string)
    | NoRollbackGraph
    | NoProvider(contractName: string, consumer: ServiceKey)
    | NotComparable(version: string, minimum: string)
    | NoLiveDependency(serviceName: string, consumer: ServiceKey)

  /** A live version in a state, the column it fails on, and the operation responsible if one is. */
  datatype Violation = Violation(stateID: nat, live: LiveVersion, col: ColumnRef, cause: Option<CommittedOp>)

  function ColumnsOf(access: Access, svc: Service): seq<ColumnRef> {
    match access
    case Reads => svc.schemaReads
    case Writes => svc.schemaWrites
  }

  function RemovingOp(trail: seq<CommittedOp>, col: ColumnRef): Option<CommittedOp> {
    match LastRemoval(trail, col)
    case Some(j) => Some(trail[j])
    case None => None
  }

  predicate IsRename(cause: Option<CommittedOp>) {
    cause.Some? && cause.value.op.kind == OpRenameColumn
  }

  /** NOT NULL with no default. */
  predicate StrictColumn(s: Schema, col: ColumnRef) {
    match Lookup(s, col)
    case Some(c) => !c.nullable && c.default.None?
    case None => false
  }

  predicate UnsafeTypeChange(cop: CommittedOp) {
    cop.op.kind == OpAlterColumnType && cop.priorType != "" && !Widens(cop.priorType, cop.op.newType)
  }

  predicate UntypedChange(cop: CommittedOp) {
    cop.op.kind == OpAlterColumnType && cop.priorType == ""
  }

  /** The columns on which a check wants evidence from every live version. */
  ghost predicate Concerns(check: Check, ss: SchemaState, col: ColumnRef, cause: Option<CommittedOp>) {
    match check
    case CheckExistence(_) => false
    case CheckTypes =>
      cause.Some? && cause.value in ss.committedOps && UnsafeTypeChange(cause.value) && col == cause.value.op.TargetColumn()
    case CheckNotNull =>
      cause.None? && StrictColumn(ss.schema, col)
    case CheckRenames =>
      cause.Some? && cause.value in ss.committedOps && IsRename(cause) && col == cause.value.op.TargetColumn()
  }

  /** A version of known facts fails the check on col. */
  ghost predicate Offends(check: Check, svc: Service, ss: SchemaState, col: ColumnRef, cause: Option<CommittedOp>) {
    match check
    case CheckExistence(access) =>
      && col in ColumnsOf(access, svc)
      && !HasColumn(ss.schema, col)
      && cause == RemovingOp(ss.committedOps, col)
      && !IsRename(cause)
    case CheckNotNull =>
      Concerns(check, ss, col, cause) && svc.WritesTable(col.table) && !svc.WritesColumn(col)
    case _ =>
      Concerns(check, ss, col, cause) && (svc.ReadsColumn(col) || svc.WritesColumn(col))
  }

  /** The evidence a live version fails to give about a table. */
  function EvidenceGap(services: Services, lv: LiveVersion, table: string): Option<Gap> {
    if KeyOf(lv) !in services then Some(NoContract(KeyOf(lv)))
    else if !services[KeyOf(lv)].TouchesTable(table) then Some(TableNotMentioned(KeyOf(lv), table))
    else None
  }

  ghost predicate IsViolation(check: Check, services: Services, s: RolloutState, v: Violation) {
    && !s.schemaState.indeterminate
    && v.stateID == s.id
    && v.live in s.live
    && KeyOf(v.live) in services
    && Offends(check, services[KeyOf(v.live)], s.schemaState, v.col, v.cause)
  }

  /** lv leaves gap open while the schema of ss is known. */
  ghost predicate VersionGap(check: Check, services: Services, lv: LiveVersion, ss: SchemaState, gap: Gap) {
    match check
    case CheckExistence(_) =>
      KeyOf(lv) !in services && gap == NoContract(KeyOf(lv))
    case _ =>
      exists col, cause :: Concerns(check, ss, col, cause) && EvidenceGap(services, lv, col.table) == Some(gap)
  }

  ghost predicate PriorTypeGap(check: Check, ss: SchemaState, gap: Gap) {
    check.CheckTypes? && exists cop :: cop in ss.committedOps && UntypedChange(cop)
                                       && gap == NoPriorType(cop.op.TargetColumn(), cop.migrationID)
  }

  ghost predicate VersionGapAmong(check: Check, services: Services, live: seq<LiveVersion>, ss: SchemaState, gap: Gap) {
    exists lv :: lv in live && VersionGap(check, services, lv, ss, gap)
  }

  ghost predicate IsGap(check: Check, services: Services, s: RolloutState, gap: Gap) {
    if s.schemaState.indeterminate then
      gap == UnknownSchema(s.id)
    else
      PriorTypeGap(check, s.schemaState, gap) || VersionGapAmong(check, services, s.live, s.schemaState, gap)
  }

  // ---- verdicts of a list of states ----

  ghost predicate ViolationIn(check: Check, services: Services, nodes: seq<RolloutState>, v: Violation) {
    exists s :: s in nodes && IsViolation(check, services, s, v)
  }

  ghost predicate GapIn(check: Check, services: Services, nodes: seq<RolloutState>, gap: Gap) {
    exists s :: s in nodes && IsGap(check, services, s, gap)
  }

  ghost predicate AnyViolation(check: Check, services: Services, nodes: seq<RolloutState>) {
    exists v :: ViolationIn(check, services, nodes, v)
  }

  ghost predicate AnyGap(check: Check, services: Services, nodes: seq<RolloutState>) {
    exists gap :: GapIn(check, services, nodes, gap)
  }

  /** The states in which some version fails the check. */
  ghost function ViolatingIDs(check: Check, services: Services, nodes: seq<RolloutState>): iset<nat> {
    iset v | ViolationIn(check, services, nodes, v) :: v.stateID
  }

  predicate AnyCommittedOp(nodes: seq<RolloutState>) {
    exists i :: 0 <= i < |nodes| && nodes[i].schemaState.committedOps != []
  }

  /** The checks of the schema snapshot are skipped for a plan that commits nothing. */
  predicate NotApplicable(check: Check, vacuousWhenNoOp: bool, nodes: seq<RolloutState>) {
    vacuousWhenNoOp && (check.CheckExistence? || check.CheckNotNull?) && !AnyCommittedOp(nodes)
  }

  ghost function CheckVerdict(check: Check, vacuousWhenNoOp: bool, services: Services, nodes: seq<RolloutState>): Verdict {
    if NotApplicable(check, vacuousWhenNoOp, nodes) then
      VerdictSafe
    else
      VerdictFor(AnyViolation(check, services, nodes), AnyGap(check, services, nodes))
  }
}
