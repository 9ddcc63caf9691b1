/**
 The hazards the repository's two fuzz oracles derive by hand from a reachable state
 (internal/invariant/adversarial_test.go, adversarial_api_test.go), and how they
 relate to what the invariants look for.
 */
module Oracles {
  import opened Wrappers
  import opened Verdicts
  import opened Schemas
  import opened Rollout
  import opened Replay
  import opened TypeCompat
  import opened Versions
  import opened Checks
  import opened Rows
  import opened Api
  import opened Order

  /** A live version with a contract declares access to a column the schema lacks. */
  ghost predicate MissingColumn(services: Services, s: RolloutState, lv: LiveVersion, col: ColumnRef) {
    && lv in s.live && KeyOf(lv) in services
    && (col in services[KeyOf(lv)].schemaReads || col in services[KeyOf(lv)].schemaWrites)
    && !HasColumn(s.schemaState.schema, col)
  }

  /** A live version writes rows that a column of the table refuses. */
  ghost predicate UncoveredColumn(services: Services, s: RolloutState, lv: LiveVersion, col: ColumnRef) {
    && lv in s.live && KeyOf(lv) in services
    && Refused(s.schemaState.schema, services[KeyOf(lv)], col)
  }

  /** A live version uses a column whose type a committed operation changed without widening it. */
  ghost predicate BrokenType(services: Services, s: RolloutState, lv: LiveVersion, cop: CommittedOp) {
    && lv in s.live && KeyOf(lv) in services
    && cop in s.schemaState.committedOps && cop.op.kind == OpAlterColumnType && cop.priorType != ""
    && ClassifyTypeChange(cop.priorType, cop.op.newType) != TypeWidening
    && (cop.op.TargetColumn() in services[KeyOf(lv)].schemaReads || cop.op.TargetColumn() in services[KeyOf(lv)].schemaWrites)
  }

  ghost predicate SchemaHazard(services: Services, s: RolloutState) {
    && !s.schemaState.indeterminate
    && (|| (exists lv, col :: MissingColumn(services, s, lv, col))
        || (exists lv, col :: UncoveredColumn(services, s, lv, col))
        || (exists lv, cop :: BrokenType(services, s, lv, cop)))
  }

  /** The first hazard found in a graph; a plan that commits nothing is skipped when skipVacuous is set. */
  ghost predicate OracleHazard(services: Services, nodes: seq<RolloutState>, skipVacuous: bool) {
    && (skipVacuous ==> AnyCommittedOp(nodes))
    && exists s :: s in nodes && SchemaHazard(services, s)
  }

  ghost predicate Flags(check: Check, services: Services, s: RolloutState) {
    exists v :: IsViolation(check, services, s, v)
  }

  /** A rename finding about a column that really is absent. */
  ghost predicate FlagsAbsentRename(services: Services, s: RolloutState) {
    exists v :: IsViolation(CheckRenames, services, s, v) && !HasColumn(s.schemaState.schema, v.col)
  }

  lemma MissingIsFlagged(services: Services, s: RolloutState, lv: LiveVersion, col: ColumnRef)
    requires !s.schemaState.indeterminate && MissingColumn(services, s, lv, col)
    ensures Flags(CheckExistence(Reads), services, s) || Flags(CheckExistence(Writes), services, s)
            || FlagsAbsentRename(services, s)
  {
    var svc := services[KeyOf(lv)];
    var cause := RemovingOp(s.schemaState.committedOps, col);
    var v := Violation(s.id, lv, col, cause);
    if IsRename(cause) {
      assert IsViolation(CheckRenames, services, s, v);
    } else if col in svc.schemaReads {
      assert IsViolation(CheckExistence(Reads), services, s, v);
    } else {
      assert IsViolation(CheckExistence(Writes), services, s, v);
    }
  }

  lemma FlaggedIsMissing(check: Check, services: Services, s: RolloutState, v: Violation)
    requires check.CheckExistence? || check.CheckRenames?
    requires IsViolation(check, services, s, v) && !HasColumn(s.schemaState.schema, v.col)
    ensures SchemaHazard(services, s)
  {
    assert MissingColumn(services, s, v.live, v.col);
  }

  /**
   A state is hazardous exactly when RP-DB-001..004 find a violation in it or
   RP-DB-005 finds one about an absent column: the delegation of rename-caused
   absences loses nothing.
   */
  lemma HazardIffFlagged(services: Services, s: RolloutState)
    ensures SchemaHazard(services, s) <==>
      || Flags(CheckExistence(Reads), services, s) || Flags(CheckExistence(Writes), services, s)
      || Flags(CheckTypes, services, s) || Flags(CheckNotNull, services, s)
      || FlagsAbsentRename(services, s)
  {
    hide MissingColumn, UncoveredColumn, BrokenType, IsViolation;
    if SchemaHazard(services, s) {
      if lv, col :| MissingColumn(services, s, lv, col) {
        MissingIsFlagged(services, s, lv, col);
      } else if lv, col :| UncoveredColumn(services, s, lv, col) {
        UncoveredIsFlagged(services, s, lv, col);
      } else {
        var lv, cop :| BrokenType(services, s, lv, cop);
        BrokenIsFlagged(services, s, lv, cop);
      }
    }
    if v :| IsViolation(CheckExistence(Reads), services, s, v) {
      ExistenceIsAbsent(Reads, services, s, v);
      FlaggedIsMissing(CheckExistence(Reads), services, s, v);
    }
    if v :| IsViolation(CheckExistence(Writes), services, s, v) {
      ExistenceIsAbsent(Writes, services, s, v);
      FlaggedIsMissing(CheckExistence(Writes), services, s, v);
    }
    if v :| IsViolation(CheckTypes, services, s, v) {
      FlaggedIsHazard(CheckTypes, services, s, v);
    }
    if v :| IsViolation(CheckNotNull, services, s, v) {
      FlaggedIsHazard(CheckNotNull, services, s, v);
    }
    if v :| IsViolation(CheckRenames, services, s, v) && !HasColumn(s.schemaState.schema, v.col) {
      FlaggedIsMissing(CheckRenames, services, s, v);
    }
  }

  lemma UncoveredIsFlagged(services: Services, s: RolloutState, lv: LiveVersion, col: ColumnRef)
    requires !s.schemaState.indeterminate && UncoveredColumn(services, s, lv, col)
    ensures Flags(CheckNotNull, services, s)
  {
    hide Refused;
    NotNullAt(services, s, lv, col);
  }

  lemma BrokenIsFlagged(services: Services, s: RolloutState, lv: LiveVersion, cop: CommittedOp)
    requires !s.schemaState.indeterminate && BrokenType(services, s, lv, cop)
    ensures Flags(CheckTypes, services, s)
  {
    assert IsViolation(CheckTypes, services, s, Violation(s.id, lv, cop.op.TargetColumn(), Some(cop)));
  }

  lemma ExistenceIsAbsent(access: Access, services: Services, s: RolloutState, v: Violation)
    requires IsViolation(CheckExistence(access), services, s, v)
    ensures !HasColumn(s.schemaState.schema, v.col)
  {
  }

  lemma FlaggedIsHazard(check: Check, services: Services, s: RolloutState, v: Violation)
    requires check.CheckTypes? || check.CheckNotNull?
    requires IsViolation(check, services, s, v)
    ensures SchemaHazard(services, s)
  {
    if check.CheckTypes? {
      assert BrokenType(services, s, v.live, v.cause.value);
    } else {
      assert v == Violation(s.id, v.live, v.col, None);
      NotNullAt(services, s, v.live, v.col);
      assert UncoveredColumn(services, s, v.live, v.col);
    }
  }

  // ---- API and ordering ----

  /** A live consumer's expectation is broken by a live provider of the contract. */
  ghost predicate ApiHazard(services: Services, contracts: Contracts, s: RolloutState, clv: LiveVersion, plv: LiveVersion, c: APIConsumption) {
    && clv in s.live && KeyOf(clv) in services && c in services[KeyOf(clv)].apiConsumes
    && plv in s.live && APIContractKey(c.contractName, plv.serviceName, plv.version) in contracts
    && var endpoints := contracts[APIContractKey(c.contractName, plv.serviceName, plv.version)].endpoints;
       (|| c.operation !in endpoints
        || (exists f :: f in endpoints[c.operation].requestShape && endpoints[c.operation].requestShape[f]
                        && f !in c.requestFieldsSent)
        || (exists f :: f in c.requiredResponseFields && f !in endpoints[c.operation].responseShape))
  }

  /** A live consumer's minimum is above a live version of the service it depends on. */
  ghost predicate OrderHazard(services: Services, s: RolloutState, clv: LiveVersion, plv: LiveVersion, dep: ServiceDependency) {
    && clv in s.live && KeyOf(clv) in services && dep in services[KeyOf(clv)].dependsOn
    && dep.minCompatibleVersion != ""
    && plv in s.live && plv.serviceName == dep.serviceName
    && OrdinalsOf(plv.version).Some? && OrdinalsOf(dep.minCompatibleVersion).Some?
    && Less(OrdinalsOf(plv.version).value, OrdinalsOf(dep.minCompatibleVersion).value)
  }

  ghost predicate OracleApiOrderHazard(services: Services, contracts: Contracts, nodes: seq<RolloutState>) {
    exists s :: s in nodes &&
      ((exists clv, plv, c :: ApiHazard(services, contracts, s, clv, plv, c))
       || exists clv, plv, dep :: OrderHazard(services, s, clv, plv, dep))
  }

  /** An API hazard is one of the three findings. */
  lemma ApiHazardIsFlagged(services: Services, contracts: Contracts, nodes: seq<RolloutState>, s: RolloutState,
                           clv: LiveVersion, plv: LiveVersion, c: APIConsumption) returns (finding: ApiFinding)
    requires s in nodes && ApiHazard(services, contracts, s, clv, plv, c)
    ensures ApiVerdict(finding, services, contracts, nodes) == VerdictUnsafe
  {
    assert KeyOf(clv) in services && services[KeyOf(clv)].apiConsumes != [];
    var endpoints := contracts[ContractKey(c, plv)].endpoints;
    var v: ApiViolation;
    if c.operation !in endpoints {
      v := ApiViolation(MissingEndpoint, s.id, clv, plv, c, "");
    } else if f :| f in endpoints[c.operation].requestShape && endpoints[c.operation].requestShape[f]
                   && f !in c.requestFieldsSent {
      v := ApiViolation(MissingRequestField, s.id, clv, plv, c, f);
    } else {
      var f :| f in c.requiredResponseFields && f !in endpoints[c.operation].responseShape;
      v := ApiViolation(MissingResponseField, s.id, clv, plv, c, f);
    }
    assert IsApiViolation(services, contracts, s, v);
    finding := v.finding;
    assert ApiViolationIn(services, contracts, nodes, v);
    assert v.stateID in ApiIDs(finding, services, contracts, nodes);
  }

  lemma OrderHazardIsFlagged(services: Services, nodes: seq<RolloutState>, s: RolloutState,
                             clv: LiveVersion, plv: LiveVersion, dep: ServiceDependency)
    requires s in nodes && OrderHazard(services, s, clv, plv, dep)
    ensures OrderVerdict(services, nodes) == VerdictUnsafe
  {
    hide OrdinalsOf, Less;
    assert KeyOf(clv) in services && services[KeyOf(clv)].dependsOn != [];
    var v := OrderViolation(s.id, clv, plv, dep);
    assert IsOrderViolation(services, s, v);
    assert OrderViolationIn(services, nodes, v);
    assert v.stateID in OrderIDs(services, nodes);
  }
}
