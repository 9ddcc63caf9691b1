/**
 What a SAFE of RP-DB-001..005, RP-API and RP-ORDER rests on: in every state, positive
 evidence from every live version, stated in what the contract files declare, what the
 schema holds and what version strings say.
 */
module Evidence {
  import opened Wrappers
  import opened Verdicts
  import opened Schemas
  import opened Rollout
  import opened Replay
  import opened TypeCompat
  import opened Graphs
  import opened Checks
  import opened Rows
  import opened Engine
  import opened ExpandContract
  import opened Family
  import opened Versions
  import opened Api
  import opened Order

  predicate Declares(svc: Service, col: ColumnRef) {
    col in svc.schemaReads || col in svc.schemaWrites
  }

  /** The version has a contract file that says something about the table. */
  ghost predicate Knows(services: Services, lv: LiveVersion, table: string) {
    KeyOf(lv) in services && exists col :: Declares(services[KeyOf(lv)], col) && col.table == table
  }

  /** Every live version is known to have nothing to do with the column. */
  ghost predicate Untouched(services: Services, s: RolloutState, col: ColumnRef) {
    forall lv :: lv in s.live ==> Knows(services, lv, col.table) && !Declares(services[KeyOf(lv)], col)
  }

  /** The last operation that took the column away renamed it. */
  ghost predicate RenamedAway(trail: seq<CommittedOp>, col: ColumnRef) {
    exists j :: && 0 <= j < |trail| && trail[j].op.kind == OpRenameColumn && trail[j].op.TargetColumn() == col
                && forall k :: j < k < |trail| ==>
                     !((trail[k].op.kind == OpDropColumn || trail[k].op.kind == OpRenameColumn) && trail[k].op.TargetColumn() == col)
  }

  ghost predicate AllPresent(s: RolloutState, cols: seq<ColumnRef>) {
    forall col :: col in cols ==> HasColumn(s.schemaState.schema, col) || RenamedAway(s.schemaState.committedOps, col)
  }

  /** What a check needs to know, and finds, in a state it passes. */
  ghost predicate Evidenced(check: Check, services: Services, s: RolloutState) {
    && !s.schemaState.indeterminate
    && match check
       case CheckExistence(Reads) =>
         forall lv :: lv in s.live ==> KeyOf(lv) in services && AllPresent(s, services[KeyOf(lv)].schemaReads)
       case CheckExistence(Writes) =>
         forall lv :: lv in s.live ==> KeyOf(lv) in services && AllPresent(s, services[KeyOf(lv)].schemaWrites)
       case CheckTypes =>
         forall cop :: cop in s.schemaState.committedOps && cop.op.kind == OpAlterColumnType ==>
           cop.priorType != "" && (Widens(cop.priorType, cop.op.newType) || Untouched(services, s, cop.op.TargetColumn()))
       case CheckNotNull =>
         forall col, lv :: RefusesAt(s.schemaState.schema, col, map[]) && lv in s.live ==>
           Knows(services, lv, col.table) && !Refused(s.schemaState.schema, services[KeyOf(lv)], col)
       case CheckRenames =>
         forall cop :: cop in s.schemaState.committedOps && cop.op.kind == OpRenameColumn ==>
           Untouched(services, s, cop.op.TargetColumn())
  }

  /** The check finds nothing in the state, and misses nothing. */
  ghost predicate Clean(check: Check, services: Services, s: RolloutState) {
    (forall v :: !IsViolation(check, services, s, v)) && forall gap :: !IsGap(check, services, s, gap)
  }

  lemma KnowsExactly(services: Services, lv: LiveVersion, table: string)
    ensures Knows(services, lv, table) <==> EvidenceGap(services, lv, table).None?
  {
    if KeyOf(lv) in services {
      var svc := services[KeyOf(lv)];
      if col :| Declares(svc, col) && col.table == table {
        assert svc.TouchesTable(table);
      }
      if svc.TouchesTable(table) {
        if i :| 0 <= i < |svc.schemaReads| && svc.schemaReads[i].table == table {
          assert Declares(svc, svc.schemaReads[i]);
        } else {
          var j :| 0 <= j < |svc.schemaWrites| && svc.schemaWrites[j].table == table;
          assert Declares(svc, svc.schemaWrites[j]);
        }
      }
    }
  }

  lemma RenamedExactly(trail: seq<CommittedOp>, col: ColumnRef)
    ensures RenamedAway(trail, col) <==> IsRename(RemovingOp(trail, col))
  {
    if j :| && 0 <= j < |trail| && trail[j].op.kind == OpRenameColumn && trail[j].op.TargetColumn() == col
            && forall k :: j < k < |trail| ==>
                 !((trail[k].op.kind == OpDropColumn || trail[k].op.kind == OpRenameColumn) && trail[k].op.TargetColumn() == col)
    {
      assert Removes(trail[j].op, col);
      assert LastRemoval(trail, col) == Some(j);
    }
  }

  lemma PresentExactly(access: Access, svc: Service, s: RolloutState)
    ensures AllPresent(s, ColumnsOf(access, svc)) <==>
      forall col, cause :: !Offends(CheckExistence(access), svc, s.schemaState, col, cause)
  {
    hide RenamedAway;
    forall col ensures RenamedAway(s.schemaState.committedOps, col) <==> IsRename(RemovingOp(s.schemaState.committedOps, col)) {
      RenamedExactly(s.schemaState.committedOps, col);
    }
    forall col | col in ColumnsOf(access, svc) && !HasColumn(s.schemaState.schema, col) && !IsRename(RemovingOp(s.schemaState.committedOps, col))
      ensures Offends(CheckExistence(access), svc, s.schemaState, col, RemovingOp(s.schemaState.committedOps, col))
    {
    }
  }

  lemma ViolationSpoils(check: Check, services: Services, s: RolloutState, v: Violation)
    requires IsViolation(check, services, s, v)
    ensures !Clean(check, services, s)
  {
  }

  lemma GapSpoils(check: Check, services: Services, s: RolloutState, gap: Gap)
    requires IsGap(check, services, s, gap)
    ensures !Clean(check, services, s)
  {
  }

  lemma IndeterminateSpoils(check: Check, services: Services, s: RolloutState)
    requires s.schemaState.indeterminate
    ensures !Clean(check, services, s)
  {
    GapSpoils(check, services, s, UnknownSchema(s.id));
  }

  // ---- RP-DB-001 and 002 ----

  lemma ExistenceSpoils(access: Access, services: Services, s: RolloutState, lv: LiveVersion)
    requires !s.schemaState.indeterminate && lv in s.live
    requires KeyOf(lv) !in services || !AllPresent(s, ColumnsOf(access, services[KeyOf(lv)]))
    ensures !Clean(CheckExistence(access), services, s)
  {
    hide AllPresent, Offends, Clean;
    var check := CheckExistence(access);
    if KeyOf(lv) !in services {
      assert VersionGap(check, services, lv, s.schemaState, NoContract(KeyOf(lv)));
      GapSpoils(check, services, s, NoContract(KeyOf(lv)));
    } else {
      PresentExactly(access, services[KeyOf(lv)], s);
      var col, cause :| Offends(check, services[KeyOf(lv)], s.schemaState, col, cause);
      ViolationSpoils(check, services, s, Violation(s.id, lv, col, cause));
    }
  }

  lemma CleanExistence(access: Access, services: Services, s: RolloutState)
    ensures Clean(CheckExistence(access), services, s) <==> Evidenced(CheckExistence(access), services, s)
  {
    hide AllPresent, Offends;
    if Evidenced(CheckExistence(access), services, s) {
      forall lv | lv in s.live ensures forall col, cause :: !Offends(CheckExistence(access), services[KeyOf(lv)], s.schemaState, col, cause) {
        PresentExactly(access, services[KeyOf(lv)], s);
      }
    } else if s.schemaState.indeterminate {
      IndeterminateSpoils(CheckExistence(access), services, s);
    } else {
      var lv :| lv in s.live && (KeyOf(lv) !in services || !AllPresent(s, ColumnsOf(access, services[KeyOf(lv)])));
      ExistenceSpoils(access, services, s, lv);
    }
  }

  // ---- RP-DB-003 and 005 ----

  /** A live version that leaves a gap about the column, or declares it. */
  ghost predicate Disturbs(services: Services, lv: LiveVersion, col: ColumnRef) {
    EvidenceGap(services, lv, col.table).Some? || services[KeyOf(lv)].ReadsColumn(col) || services[KeyOf(lv)].WritesColumn(col)
  }

  lemma UntouchedExactly(services: Services, s: RolloutState, col: ColumnRef)
    ensures Untouched(services, s, col) <==> forall lv :: lv in s.live ==> !Disturbs(services, lv, col)
  {
    hide Knows;
    forall lv ensures Knows(services, lv, col.table) <==> EvidenceGap(services, lv, col.table).None? {
      KnowsExactly(services, lv, col.table);
    }
  }

  lemma DisturbedSpoils(check: Check, services: Services, s: RolloutState, cop: CommittedOp, lv: LiveVersion)
    requires (check.CheckTypes? || check.CheckRenames?) && !s.schemaState.indeterminate
    requires cop in s.schemaState.committedOps && Concerned(check, cop) && lv in s.live
    requires Disturbs(services, lv, cop.op.TargetColumn())
    ensures !Clean(check, services, s)
  {
    hide UnsafeTypeChange, Clean;
    var col := cop.op.TargetColumn();
    assert Concerns(check, s.schemaState, col, Some(cop));
    if EvidenceGap(services, lv, col.table).Some? {
      var gap := EvidenceGap(services, lv, col.table).value;
      assert VersionGap(check, services, lv, s.schemaState, gap);
      GapSpoils(check, services, s, gap);
    } else {
      ViolationSpoils(check, services, s, Violation(s.id, lv, col, Some(cop)));
    }
  }

  /** What a check of the trail asks of one operation. */
  ghost predicate OpPasses(check: Check, services: Services, s: RolloutState, cop: CommittedOp) {
    && !(check.CheckTypes? && UntypedChange(cop))
    && (Concerned(check, cop) ==> Untouched(services, s, cop.op.TargetColumn()))
  }

  lemma EvidencedByOps(check: Check, services: Services, s: RolloutState)
    requires check.CheckTypes? || check.CheckRenames?
    ensures Evidenced(check, services, s) <==>
      !s.schemaState.indeterminate && forall cop :: cop in s.schemaState.committedOps ==> OpPasses(check, services, s, cop)
  {
    hide Untouched, Widens;
  }

  lemma FailingSpoils(check: Check, services: Services, s: RolloutState, cop: CommittedOp)
    requires (check.CheckTypes? || check.CheckRenames?) && !s.schemaState.indeterminate
    requires cop in s.schemaState.committedOps && !OpPasses(check, services, s, cop)
    ensures !Clean(check, services, s)
  {
    hide Untouched, Widens, Clean, Disturbs;
    if check.CheckTypes? && UntypedChange(cop) {
      GapSpoils(check, services, s, NoPriorType(cop.op.TargetColumn(), cop.migrationID));
    } else {
      UntouchedExactly(services, s, cop.op.TargetColumn());
      var lv :| lv in s.live && Disturbs(services, lv, cop.op.TargetColumn());
      DisturbedSpoils(check, services, s, cop, lv);
    }
  }

  lemma PassingClean(check: Check, services: Services, s: RolloutState)
    requires (check.CheckTypes? || check.CheckRenames?) && !s.schemaState.indeterminate
    requires forall cop :: cop in s.schemaState.committedOps ==> OpPasses(check, services, s, cop)
    ensures Clean(check, services, s)
  {
    hide Untouched, Widens, EvidenceGap;
    forall cop | cop in s.schemaState.committedOps && Concerned(check, cop)
      ensures forall lv :: lv in s.live ==> !Disturbs(services, lv, cop.op.TargetColumn())
    {
      UntouchedExactly(services, s, cop.op.TargetColumn());
    }
    assert forall cop :: cop in s.schemaState.committedOps && check.CheckTypes? ==> !UntypedChange(cop);
  }

  lemma CleanTrail(check: Check, services: Services, s: RolloutState)
    requires check.CheckTypes? || check.CheckRenames?
    ensures Clean(check, services, s) <==> Evidenced(check, services, s)
  {
    hide Clean, Evidenced, OpPasses;
    EvidencedByOps(check, services, s);
    if s.schemaState.indeterminate {
      IndeterminateSpoils(check, services, s);
    } else if cop :| cop in s.schemaState.committedOps && !OpPasses(check, services, s, cop) {
      FailingSpoils(check, services, s, cop);
    } else {
      PassingClean(check, services, s);
    }
  }

  // ---- RP-DB-004 ----

  lemma NotNullSpoils(services: Services, s: RolloutState, col: ColumnRef, lv: LiveVersion)
    requires !s.schemaState.indeterminate && RefusesAt(s.schemaState.schema, col, map[]) && lv in s.live
    requires !Knows(services, lv, col.table) || Refused(s.schemaState.schema, services[KeyOf(lv)], col)
    ensures !Clean(CheckNotNull, services, s)
  {
    hide Knows, Refused, Clean;
    KnowsExactly(services, lv, col.table);
    assert Concerns(CheckNotNull, s.schemaState, col, None);
    if EvidenceGap(services, lv, col.table).Some? {
      var gap := EvidenceGap(services, lv, col.table).value;
      assert VersionGap(CheckNotNull, services, lv, s.schemaState, gap);
      GapSpoils(CheckNotNull, services, s, gap);
    } else {
      NotNullAt(services, s, lv, col);
      ViolationSpoils(CheckNotNull, services, s, Violation(s.id, lv, col, None));
    }
  }

  lemma RefusedOmitted(s: Schema, svc: Service, col: ColumnRef)
    requires Refused(s, svc, col)
    ensures RefusesAt(s, col, map[])
  {
  }

  lemma CleanNotNull(services: Services, s: RolloutState)
    ensures Clean(CheckNotNull, services, s) <==> Evidenced(CheckNotNull, services, s)
  {
    hide Refused, RefusesAt, IsViolation;
    if Evidenced(CheckNotNull, services, s) {
      NotNullEvidence(services, s);
    } else if s.schemaState.indeterminate {
      IndeterminateSpoils(CheckNotNull, services, s);
    } else {
      var col, lv :| RefusesAt(s.schemaState.schema, col, map[]) && lv in s.live
                     && !(Knows(services, lv, col.table) && !Refused(s.schemaState.schema, services[KeyOf(lv)], col));
      NotNullSpoils(services, s, col, lv);
    }
  }

  lemma NotNullEvidence(services: Services, s: RolloutState)
    requires Evidenced(CheckNotNull, services, s)
    ensures Clean(CheckNotNull, services, s)
  {
    hide Refused, EvidenceGap, Knows;
    forall v ensures !IsViolation(CheckNotNull, services, s, v) {
      if IsViolation(CheckNotNull, services, s, v) {
        NotNullAt(services, s, v.live, v.col);
        RefusedOmitted(s.schemaState.schema, services[KeyOf(v.live)], v.col);
      }
    }
    forall gap ensures !IsGap(CheckNotNull, services, s, gap) {
      forall lv, col | lv in s.live && StrictColumn(s.schemaState.schema, col) ensures EvidenceGap(services, lv, col.table).None? {
        assert RefusesAt(s.schemaState.schema, col, map[]);
        KnowsExactly(services, lv, col.table);
      }
    }
  }

  lemma CleanExactly(check: Check, services: Services, s: RolloutState)
    ensures Clean(check, services, s) <==> Evidenced(check, services, s)
  {
    hide Clean, Evidenced;
    match check
    case CheckExistence(access) => CleanExistence(access, services, s);
    case CheckNotNull => CleanNotNull(services, s);
    case _ => CleanTrail(check, services, s);
  }

  /** A check is SAFE exactly when it does not apply, or every state is evidenced to pass it. */
  lemma SafeExactly(check: Check, vacuousWhenNoOp: bool, services: Services, nodes: seq<RolloutState>)
    ensures CheckVerdict(check, vacuousWhenNoOp, services, nodes) == VerdictSafe <==>
      NotApplicable(check, vacuousWhenNoOp, nodes) || forall s :: s in nodes ==> Evidenced(check, services, s)
  {
    hide Evidenced, IsViolation, IsGap;
    forall s ensures Clean(check, services, s) <==> Evidenced(check, services, s) {
      CleanExactly(check, services, s);
    }
    if forall s :: s in nodes ==> Evidenced(check, services, s) {
      assert forall s :: s in nodes ==> Clean(check, services, s);
    } else {
      var s :| s in nodes && !Clean(check, services, s);
      if v :| IsViolation(check, services, s, v) {
        assert ViolationIn(check, services, nodes, v);
      } else {
        var gap :| IsGap(check, services, s, gap);
        assert GapIn(check, services, nodes, gap);
      }
    }
  }

  ghost predicate AllEvidenced(check: Check, services: Services, nodes: seq<RolloutState>) {
    forall s :: s in nodes ==> Evidenced(check, services, s)
  }

  /** The five diagnostics by name, on a plan's graph: what each one's SAFE says. */
  lemma SafeByName(plan: RolloutPlan, g: Graph, services: Services, diags: seq<Diagnostic>, d: Diagnostic)
    requires g.target < |g.nodes| && DecidesFamily(plan, g, services, true, diags) && d in diags
    ensures d.invariantID == "RP-DB-001" ==>
      (d.verdict == VerdictSafe <==> !AnyCommittedOp(g.nodes) || AllEvidenced(CheckExistence(Reads), services, g.nodes))
    ensures d.invariantID == "RP-DB-002" ==>
      (d.verdict == VerdictSafe <==> !AnyCommittedOp(g.nodes) || AllEvidenced(CheckExistence(Writes), services, g.nodes))
    ensures d.invariantID == "RP-DB-003" ==> (d.verdict == VerdictSafe <==> AllEvidenced(CheckTypes, services, g.nodes))
    ensures d.invariantID == "RP-DB-004" ==>
      (d.verdict == VerdictSafe <==> !AnyCommittedOp(g.nodes) || AllEvidenced(CheckNotNull, services, g.nodes))
    ensures d.invariantID == "RP-DB-005" ==> (d.verdict == VerdictSafe <==> AllEvidenced(CheckRenames, services, g.nodes))
  {
    hide CheckVerdict, Evidenced, BestCounterexample, GapIn, ShowsCarrying, IsLeastViolating, ExpandContractVerdict;
    var i :| 0 <= i < |diags| && diags[i] == d;
    if i < 5 {
      assert Decides(CheckAt(i), true, g, services, diags[i]);
      SafeExactly(CheckAt(i), true, services, g.nodes);
    }
  }

  // ---- RP-API ----

  /** The provider's contract has what the consumer relies on, as far as the finding is concerned. */
  predicate Serves(finding: ApiFinding, contract: APIContract, c: APIConsumption) {
    match finding
    case MissingEndpoint => c.operation in contract.endpoints
    case MissingRequestField =>
      c.operation in contract.endpoints ==>
        forall f :: f in contract.endpoints[c.operation].requestShape && contract.endpoints[c.operation].requestShape[f] ==>
          f in c.requestFieldsSent
    case MissingResponseField =>
      c.operation in contract.endpoints ==>
        forall f :: f in c.requiredResponseFields ==> f in contract.endpoints[c.operation].responseShape
  }

  ghost predicate ConsumptionEvidenced(finding: ApiFinding, contracts: Contracts, s: RolloutState, c: APIConsumption) {
    && (exists p :: p in s.live && APIContractKey(c.contractName, p.serviceName, p.version) in contracts)
    && forall p :: p in s.live && APIContractKey(c.contractName, p.serviceName, p.version) in contracts ==>
         Serves(finding, contracts[APIContractKey(c.contractName, p.serviceName, p.version)], c)
  }

  /** Every live version has a contract file, and all it consumes is provided and served by whoever is live. */
  ghost predicate ApiEvidenced(finding: ApiFinding, services: Services, contracts: Contracts, s: RolloutState) {
    forall lv :: lv in s.live ==>
      && KeyOf(lv) in services
      && forall c :: c in services[KeyOf(lv)].apiConsumes ==> ConsumptionEvidenced(finding, contracts, s, c)
  }

  lemma ServesExactly(finding: ApiFinding, contract: APIContract, c: APIConsumption)
    ensures Serves(finding, contract, c) <==> forall field :: !Breaks(finding, contract, c, field)
  {
    if !Serves(finding, contract, c) {
      var field := "";
      if finding == MissingRequestField {
        var shape := contract.endpoints[c.operation].requestShape;
        field :| field in shape && shape[field] && field !in c.requestFieldsSent;
      } else if finding == MissingResponseField {
        field :| field in c.requiredResponseFields && field !in contract.endpoints[c.operation].responseShape;
      }
      assert Breaks(finding, contract, c, field);
    }
  }

  ghost predicate ApiClean(finding: ApiFinding, services: Services, contracts: Contracts, s: RolloutState) {
    && (forall v :: IsApiViolation(services, contracts, s, v) ==> v.finding != finding)
    && forall gap :: !IsApiGap(services, contracts, s, gap)
  }

  lemma ApiViolationSpoils(finding: ApiFinding, services: Services, contracts: Contracts, s: RolloutState, lv: LiveVersion,
                           p: LiveVersion, c: APIConsumption)
    requires lv in s.live && KeyOf(lv) in services && c in services[KeyOf(lv)].apiConsumes
    requires p in s.live && ContractKey(c, p) in contracts && !Serves(finding, contracts[ContractKey(c, p)], c)
    ensures !ApiClean(finding, services, contracts, s)
  {
    hide Serves, Breaks;
    ServesExactly(finding, contracts[ContractKey(c, p)], c);
    var field :| Breaks(finding, contracts[ContractKey(c, p)], c, field);
    assert IsApiViolation(services, contracts, s, ApiViolation(finding, s.id, lv, p, c, field));
  }

  lemma ApiSpoils(finding: ApiFinding, services: Services, contracts: Contracts, s: RolloutState)
    requires !ApiEvidenced(finding, services, contracts, s)
    ensures !ApiClean(finding, services, contracts, s)
  {
    hide ApiClean, Serves;
    var lv :| lv in s.live && (KeyOf(lv) !in services
                               || exists c :: c in services[KeyOf(lv)].apiConsumes && !ConsumptionEvidenced(finding, contracts, s, c));
    if KeyOf(lv) !in services {
      ApiGapSpoils(finding, services, contracts, s, lv, NoContract(KeyOf(lv)));
    } else {
      var c :| c in services[KeyOf(lv)].apiConsumes && !ConsumptionEvidenced(finding, contracts, s, c);
      if p :| p in s.live && ContractKey(c, p) in contracts && !Serves(finding, contracts[ContractKey(c, p)], c) {
        ApiViolationSpoils(finding, services, contracts, s, lv, p, c);
      } else {
        assert NobodyProvides(contracts, s.live, c.contractName);
        ApiGapSpoils(finding, services, contracts, s, lv, NoProvider(c.contractName, KeyOf(lv)));
      }
    }
  }

  lemma ApiGapSpoils(finding: ApiFinding, services: Services, contracts: Contracts, s: RolloutState, lv: LiveVersion, gap: Gap)
    requires lv in s.live && ConsumerGap(services, contracts, s.live, lv, gap)
    ensures !ApiClean(finding, services, contracts, s)
  {
    hide ConsumerGap;
    assert IsApiGap(services, contracts, s, gap);
  }

  lemma ApiEvidenceIsClean(finding: ApiFinding, services: Services, contracts: Contracts, s: RolloutState)
    requires ApiEvidenced(finding, services, contracts, s)
    ensures ApiClean(finding, services, contracts, s)
  {
    hide Serves, Breaks;
    forall v | IsApiViolation(services, contracts, s, v) ensures v.finding != finding {
      assert ConsumptionEvidenced(finding, contracts, s, v.consumption);
      ServesExactly(finding, contracts[ContractKey(v.consumption, v.provider)], v.consumption);
    }
    forall gap ensures !IsApiGap(services, contracts, s, gap) {
      forall lv | lv in s.live ensures !ConsumerGap(services, contracts, s.live, lv, gap) {
        forall c | c in services[KeyOf(lv)].apiConsumes ensures !NobodyProvides(contracts, s.live, c.contractName) {
          assert ConsumptionEvidenced(finding, contracts, s, c);
        }
      }
    }
  }

  /** RP-API-001..003 are SAFE exactly when no file declares API facts, or every state is evidenced to pass. */
  lemma ApiSafeExactly(finding: ApiFinding, services: Services, contracts: Contracts, nodes: seq<RolloutState>)
    ensures ApiVerdict(finding, services, contracts, nodes) == VerdictSafe <==>
      || (forall key :: key in services ==> services[key].apiProvides == [] && services[key].apiConsumes == [])
      || forall s :: s in nodes ==> ApiEvidenced(finding, services, contracts, s)
  {
    hide ApiEvidenced, IsApiViolation, IsApiGap;
    forall s ensures ApiClean(finding, services, contracts, s) <==> ApiEvidenced(finding, services, contracts, s) {
      if ApiEvidenced(finding, services, contracts, s) {
        ApiEvidenceIsClean(finding, services, contracts, s);
      } else {
        ApiSpoils(finding, services, contracts, s);
      }
    }
    if s :| s in nodes && !ApiClean(finding, services, contracts, s) {
      if v :| IsApiViolation(services, contracts, s, v) && v.finding == finding {
        assert ApiViolationIn(services, contracts, nodes, v);
        assert v.stateID in ApiIDs(finding, services, contracts, nodes);
      } else {
        var gap :| IsApiGap(services, contracts, s, gap);
        assert ApiGapIn(services, contracts, nodes, gap);
      }
    }
  }

  // ---- RP-ORDER ----

  /** Both strings say versions, and the first is not below the second. */
  ghost predicate Satisfies(version: string, minimum: string) {
    exists a, b :: IsVersion(version, a) && IsVersion(minimum, b) && !Less(a, b)
  }

  ghost predicate DependencyEvidenced(s: RolloutState, dep: ServiceDependency) {
    && (exists p :: p in s.live && p.serviceName == dep.serviceName)
    && forall p :: p in s.live && p.serviceName == dep.serviceName ==> Satisfies(p.version, dep.minCompatibleVersion)
  }

  /** Every live version has a contract file, and each minimum it declares is met by every live version of that service. */
  ghost predicate OrderEvidenced(services: Services, s: RolloutState) {
    forall lv :: lv in s.live ==>
      && KeyOf(lv) in services
      && forall dep :: dep in services[KeyOf(lv)].dependsOn && dep.minCompatibleVersion != "" ==> DependencyEvidenced(s, dep)
  }

  lemma SatisfiesExactly(version: string, minimum: string)
    ensures Satisfies(version, minimum) <==> Comparable(version, minimum) && !Below(version, minimum)
  {
    hide OrdinalsOf, IsVersion, Less;
    forall a ensures OrdinalsOf(version) == Some(a) <==> IsVersion(version, a) {
      OrdinalsExactly(version, a);
    }
    forall b ensures OrdinalsOf(minimum) == Some(b) <==> IsVersion(minimum, b) {
      OrdinalsExactly(minimum, b);
    }
    if Comparable(version, minimum) {
      assert IsVersion(version, OrdinalsOf(version).value) && IsVersion(minimum, OrdinalsOf(minimum).value);
    }
  }

  ghost predicate OrderClean(services: Services, s: RolloutState) {
    (forall v :: !IsOrderViolation(services, s, v)) && forall gap :: !IsOrderGap(services, s, gap)
  }

  lemma OrderSpoils(services: Services, s: RolloutState)
    requires !OrderEvidenced(services, s)
    ensures !OrderClean(services, s)
  {
    hide OrderClean, Satisfies, Comparable, Below;
    var lv :| lv in s.live && (KeyOf(lv) !in services
                               || exists dep :: dep in services[KeyOf(lv)].dependsOn && dep.minCompatibleVersion != "" && !DependencyEvidenced(s, dep));
    if KeyOf(lv) !in services {
      OrderGapSpoils(services, s, lv, NoContract(KeyOf(lv)));
    } else {
      var dep :| dep in services[KeyOf(lv)].dependsOn && dep.minCompatibleVersion != "" && !DependencyEvidenced(s, dep);
      if p :| p in s.live && p.serviceName == dep.serviceName && !Satisfies(p.version, dep.minCompatibleVersion) {
        SatisfiesExactly(p.version, dep.minCompatibleVersion);
        if Comparable(p.version, dep.minCompatibleVersion) {
          OrderViolationSpoils(services, s, OrderViolation(s.id, lv, p, dep));
        } else {
          assert DependencyGap(s.live, lv, dep, NotComparable(p.version, dep.minCompatibleVersion));
          OrderGapSpoils(services, s, lv, NotComparable(p.version, dep.minCompatibleVersion));
        }
      } else {
        assert DependencyGap(s.live, lv, dep, NoLiveDependency(dep.serviceName, KeyOf(lv)));
        OrderGapSpoils(services, s, lv, NoLiveDependency(dep.serviceName, KeyOf(lv)));
      }
    }
  }

  lemma OrderViolationSpoils(services: Services, s: RolloutState, v: OrderViolation)
    requires IsOrderViolation(services, s, v)
    ensures !OrderClean(services, s)
  {
  }

  lemma OrderGapSpoils(services: Services, s: RolloutState, lv: LiveVersion, gap: Gap)
    requires lv in s.live && OrderGap(services, s.live, lv, gap)
    ensures !OrderClean(services, s)
  {
    hide OrderGap;
    assert IsOrderGap(services, s, gap);
  }

  lemma OrderEvidenceIsClean(services: Services, s: RolloutState)
    requires OrderEvidenced(services, s)
    ensures OrderClean(services, s)
  {
    hide Satisfies, Comparable, Below;
    forall v ensures !IsOrderViolation(services, s, v) {
      if IsOrderViolation(services, s, v) {
        assert DependencyEvidenced(s, v.dep);
        SatisfiesExactly(v.provider.version, v.dep.minCompatibleVersion);
      }
    }
    forall gap ensures !IsOrderGap(services, s, gap) {
      forall lv, dep | lv in s.live && dep in services[KeyOf(lv)].dependsOn ensures !DependencyGap(s.live, lv, dep, gap) {
        if dep.minCompatibleVersion != "" {
          assert DependencyEvidenced(s, dep);
          forall p | p in s.live && p.serviceName == dep.serviceName ensures Comparable(p.version, dep.minCompatibleVersion) {
            SatisfiesExactly(p.version, dep.minCompatibleVersion);
          }
        }
      }
    }
  }

  /** RP-ORDER-001 and 002 are SAFE exactly when no file declares a dependency, or every state is evidenced to pass. */
  lemma OrderSafeExactly(services: Services, nodes: seq<RolloutState>)
    ensures OrderVerdict(services, nodes) == VerdictSafe <==>
      (forall key :: key in services ==> services[key].dependsOn == []) || forall s :: s in nodes ==> OrderEvidenced(services, s)
  {
    hide OrderEvidenced, IsOrderViolation, IsOrderGap;
    forall s ensures OrderClean(services, s) <==> OrderEvidenced(services, s) {
      if OrderEvidenced(services, s) {
        OrderEvidenceIsClean(services, s);
      } else {
        OrderSpoils(services, s);
      }
    }
    if s :| s in nodes && !OrderClean(services, s) {
      if v :| IsOrderViolation(services, s, v) {
        assert OrderViolationIn(services, nodes, v);
        assert v.stateID in OrderIDs(services, nodes);
      } else {
        var gap :| IsOrderGap(services, s, gap);
        assert OrderGapIn(services, nodes, gap);
      }
    }
  }
}
