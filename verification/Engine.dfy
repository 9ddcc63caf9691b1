/**
 The scan loops of the column-compatibility invariants and the diagnostics they
 end in (internal/invariant/rpdb.go, rpdb003.go, rpdb004.go, rpdb005.go).
 */
module Engine {
  import opened Wrappers
  import opened Verdicts
  import opened Schemas
  import opened Rollout
  import opened Replay
  import opened TypeCompat
  import opened Graphs
  import opened Paths
  import opened Checks
  import opened RollbackClass

  datatype Counterexample = Counterexample(path: seq<TransitionEvent>, violatingState: RolloutState)

  datatype Diagnostic = Diagnostic(
    invariantID: string,
    verdict: Verdict,
    counterexample: Option<Counterexample>,
    missingEvidence: set<Gap>,
    rollbackVerdict: RollbackVerdict,
    advisory: bool
  )

  function SafeDiagnostic(id: string): Diagnostic {
    Diagnostic(id, VerdictSafe, None, {}, RollbackUnknown, false)
  }

  function UnknownDiagnostic(id: string, gaps: set<Gap>): Diagnostic {
    Diagnostic(id, VerdictUnknown, None, gaps, RollbackUnknown, false)
  }

  /** A graph whose nodes are numbered by position, as Build numbers them. */
  ghost predicate Scannable(g: Graph) {
    Searchable(g) && forall i :: 0 <= i < |g.nodes| ==> g.nodes[i].id == i
  }

  // ---- choosing the counterexample ----

  /** a comes before b: fewer events, or as many and a lower ID. */
  ghost predicate Nearer(g: Graph, a: nat, b: nat) {
    PathLength(g, a) < PathLength(g, b) || (PathLength(g, a) == PathLength(g, b) && a <= b)
  }

  method ShortestByStateID(g: Graph, ids: seq<nat>) returns (best: nat)
    requires Searchable(g) && ids != []
    ensures best < |ids|
    ensures forall i :: 0 <= i < |ids| ==> Nearer(g, ids[best], ids[i])
  {
    best := 0;
    var first := ShortestPath(g, ids[0]);
    var bestLen := |first|;
    for i := 1 to |ids|
      invariant best < |ids| && bestLen == PathLength(g, ids[best])
      invariant forall j :: 0 <= j < i ==> Nearer(g, ids[best], ids[j])
    {
      var path := ShortestPath(g, ids[i]);
      if |path| < bestLen || (|path| == bestLen && ids[i] < ids[best]) {
        best, bestLen := i, |path|;
      }
    }
  }

  /**
   The path leads to state id by a shortest run of the graph (nothing for an unreachable
   state), by the least one where rows ascend.
   */
  ghost predicate LeadsTo(g: Graph, path: seq<TransitionEvent>, id: nat) {
    && |path| == PathLength(g, id)
    && (Reachable(g, id) ==> IsShortestRun(g, path, id) && (RowsAscend(g) ==> IsLeastRun(g, path, id)))
  }

  /** The counterexample shows a bad state, reached by a shortest run, and no bad state is nearer. */
  ghost predicate BestCounterexample(g: Graph, ids: iset<nat>, c: Counterexample) {
    && c.violatingState.id in ids
    && c.violatingState.id < |g.nodes|
    && c.violatingState == g.nodes[c.violatingState.id]
    && LeadsTo(g, c.path, c.violatingState.id)
    && forall id :: id in ids ==> Nearer(g, c.violatingState.id, id)
  }

  /** Turns collected violations and gaps into a verdict, and picks the state to show. */
  method Report(id: string, g: Graph, ids: seq<nat>, gaps: set<Gap>) returns (d: Diagnostic, best: nat)
    requires Scannable(g) && forall i :: 0 <= i < |ids| ==> ids[i] < |g.nodes|
    ensures d.invariantID == id && !d.advisory && d.rollbackVerdict == RollbackUnknown
    ensures d.verdict == VerdictFor(ids != [], gaps != {})
    ensures d.missingEvidence == if d.verdict == VerdictUnknown then gaps else {}
    ensures d.counterexample.Some? <==> ids != []
    ensures ids != [] ==>
      && best < |ids| && d.counterexample.value.violatingState.id == ids[best]
      && BestCounterexample(g, (iset i | i in ids), d.counterexample.value)
  {
    if ids == [] {
      if gaps != {} {
        return UnknownDiagnostic(id, gaps), 0;
      }
      return SafeDiagnostic(id), 0;
    }
    best := ShortestByStateID(g, ids);
    var path := ShortestPath(g, ids[best]);
    d := Diagnostic(id, VerdictUnsafe, Some(Counterexample(path, g.nodes[ids[best]])), {}, RollbackUnknown, false);
  }

  // ---- scanning one state ----

  ghost predicate GapAmong(services: Services, live: seq<LiveVersion>, table: string, gap: Gap) {
    exists lv :: lv in live && EvidenceGap(services, lv, table) == Some(gap)
  }

  lemma GapAmongSnoc(services: Services, live: seq<LiveVersion>, lv: LiveVersion, table: string)
    ensures forall gap :: GapAmong(services, live + [lv], table, gap) <==>
      GapAmong(services, live, table, gap) || EvidenceGap(services, lv, table) == Some(gap)
  {
    forall gap | GapAmong(services, live, table, gap) || EvidenceGap(services, lv, table) == Some(gap)
      ensures GapAmong(services, live + [lv], table, gap)
    {
      if x :| x in live && EvidenceGap(services, x, table) == Some(gap) {
        assert x in live + [lv];
      } else {
        assert lv in live + [lv];
      }
    }
  }

  /** The loop over live versions of RP-DB-003, 004 and 005: each must show evidence about col's table. */
  method ScanLiveVersions(check: Check, services: Services, s: RolloutState, col: ColumnRef, cause: Option<CommittedOp>)
    returns (violations: seq<Violation>, gaps: set<Gap>)
    requires Concerns(check, s.schemaState, col, cause) && !s.schemaState.indeterminate
    ensures forall v :: v in violations <==>
      IsViolation(check, services, s, v) && v.col == col && v.cause == cause
    ensures forall gap :: gap in gaps <==> GapAmong(services, s.live, col.table, gap)
  {
    hide GapAmong;
    violations, gaps := [], {};
    NoGapAmongNone(services, col.table);
    for j := 0 to |s.live|
      invariant forall v :: v in violations <==>
        IsViolation(check, services, s, v) && v.col == col && v.cause == cause && v.live in s.live[..j]
      invariant forall gap :: gap in gaps <==> GapAmong(services, s.live[..j], col.table, gap)
    {
      var lv := s.live[j];
      assert s.live[..j + 1] == s.live[..j] + [lv];
      GapAmongSnoc(services, s.live[..j], lv, col.table);
      if KeyOf(lv) !in services {
        gaps := gaps + {NoContract(KeyOf(lv))};
      } else {
        var svc := services[KeyOf(lv)];
        if !svc.TouchesTable(col.table) {
          gaps := gaps + {TableNotMentioned(KeyOf(lv), col.table)};
        } else {
          var bad :=
            if check == CheckNotNull then svc.WritesTable(col.table) && !svc.WritesColumn(col)
            else svc.ReadsColumn(col) || svc.WritesColumn(col);
          if bad {
            violations := violations + [Violation(s.id, lv, col, cause)];
          }
        }
      }
    }
    assert s.live[..|s.live|] == s.live;
  }

  lemma NoGapAmongNone(services: Services, table: string)
    ensures forall gap :: !GapAmong(services, [], table, gap)
  {
  }

  // ---- RP-DB-001 and 002 ----

  /** The loop over one version's declared columns. */
  method ScanColumns(access: Access, svc: Service, s: RolloutState, lv: LiveVersion) returns (violations: seq<Violation>)
    ensures forall v :: v in violations <==>
      && v.stateID == s.id && v.live == lv
      && Offends(CheckExistence(access), svc, s.schemaState, v.col, v.cause)
  {
    violations := [];
    var cols := ColumnsOf(access, svc);
    for j := 0 to |cols|
      invariant forall v :: v in violations <==>
        && v.stateID == s.id && v.live == lv && v.col in cols[..j]
        && Offends(CheckExistence(access), svc, s.schemaState, v.col, v.cause)
    {
      assert cols[..j + 1] == cols[..j] + [cols[j]];
      if !HasColumn(s.schemaState.schema, cols[j]) {
        var removingOp := FindRemovingOp(s.schemaState.committedOps, cols[j]);
        if !IsRename(removingOp) {
          violations := violations + [Violation(s.id, lv, cols[j], removingOp)];
        }
      }
    }
    assert cols[..|cols|] == cols;
  }

  lemma VersionGapSnoc(check: Check, services: Services, live: seq<LiveVersion>, lv: LiveVersion, ss: SchemaState)
    ensures forall gap :: VersionGapAmong(check, services, live + [lv], ss, gap) <==>
      VersionGapAmong(check, services, live, ss, gap) || VersionGap(check, services, lv, ss, gap)
  {
    forall gap | VersionGapAmong(check, services, live, ss, gap) || VersionGap(check, services, lv, ss, gap)
      ensures VersionGapAmong(check, services, live + [lv], ss, gap)
    {
      if x :| x in live && VersionGap(check, services, x, ss, gap) {
        assert x in live + [lv];
      } else {
        assert lv in live + [lv];
      }
    }
  }

  method ScanExistence(access: Access, services: Services, s: RolloutState)
    returns (violations: seq<Violation>, gaps: set<Gap>)
    requires !s.schemaState.indeterminate
    ensures forall v :: v in violations <==> IsViolation(CheckExistence(access), services, s, v)
    ensures forall gap :: gap in gaps <==> IsGap(CheckExistence(access), services, s, gap)
  {
    hide VersionGapAmong, Offends;
    var check := CheckExistence(access);
    violations, gaps := [], {};
    NoVersionGapAmongNone(check, services, s.schemaState);
    for j := 0 to |s.live|
      invariant forall v :: v in violations <==>
        IsViolation(check, services, s, v) && v.live in s.live[..j]
      invariant forall gap :: gap in gaps <==> VersionGapAmong(check, services, s.live[..j], s.schemaState, gap)
    {
      var lv := s.live[j];
      assert s.live[..j + 1] == s.live[..j] + [lv];
      VersionGapSnoc(check, services, s.live[..j], lv, s.schemaState);
      if KeyOf(lv) !in services {
        gaps := gaps + {NoContract(KeyOf(lv))};
      } else {
        var found := ScanColumns(access, services[KeyOf(lv)], s, lv);
        violations := violations + found;
      }
    }
    assert s.live[..|s.live|] == s.live;
  }

  lemma NoVersionGapAmongNone(check: Check, services: Services, ss: SchemaState)
    ensures forall gap :: !VersionGapAmong(check, services, [], ss, gap)
  {
  }

  // ---- RP-DB-003 and 005 ----

  predicate Concerned(check: Check, cop: CommittedOp) {
    match check
    case CheckTypes => UnsafeTypeChange(cop)
    case CheckRenames => cop.op.kind == OpRenameColumn
    case _ => false
  }

  ghost predicate OpGap(check: Check, services: Services, s: RolloutState, cop: CommittedOp, gap: Gap) {
    || (Concerned(check, cop) && GapAmong(services, s.live, cop.op.table, gap))
    || (check.CheckTypes? && UntypedChange(cop) && gap == NoPriorType(cop.op.TargetColumn(), cop.migrationID))
  }

  ghost predicate TrailGap(check: Check, services: Services, s: RolloutState, trail: seq<CommittedOp>, gap: Gap) {
    exists cop :: cop in trail && OpGap(check, services, s, cop, gap)
  }

  lemma TrailGapSnoc(check: Check, services: Services, s: RolloutState, trail: seq<CommittedOp>, cop: CommittedOp)
    ensures forall gap :: TrailGap(check, services, s, trail + [cop], gap) <==>
      TrailGap(check, services, s, trail, gap) || OpGap(check, services, s, cop, gap)
  {
    forall gap | TrailGap(check, services, s, trail, gap) || OpGap(check, services, s, cop, gap)
      ensures TrailGap(check, services, s, trail + [cop], gap)
    {
      if x :| x in trail && OpGap(check, services, s, x, gap) {
        assert x in trail + [cop];
      } else {
        assert cop in trail + [cop];
      }
    }
  }

  lemma NoTrailGapInNone(check: Check, services: Services, s: RolloutState)
    ensures forall gap :: !TrailGap(check, services, s, [], gap)
  {
  }

  lemma TrailGapIsGap(check: Check, services: Services, s: RolloutState, gap: Gap)
    requires (check.CheckTypes? || check.CheckRenames?) && !s.schemaState.indeterminate
    ensures TrailGap(check, services, s, s.schemaState.committedOps, gap) <==> IsGap(check, services, s, gap)
  {
    hide UnsafeTypeChange, EvidenceGap, UntypedChange;
    if TrailGap(check, services, s, s.schemaState.committedOps, gap) {
      var cop :| cop in s.schemaState.committedOps && OpGap(check, services, s, cop, gap);
      OpGapIsGap(check, services, s, cop, gap);
    }
    if VersionGapAmong(check, services, s.live, s.schemaState, gap) {
      VersionGapIsTrailGap(check, services, s, gap);
    }
  }

  lemma VersionGapIsTrailGap(check: Check, services: Services, s: RolloutState, gap: Gap)
    requires check.CheckTypes? || check.CheckRenames?
    requires VersionGapAmong(check, services, s.live, s.schemaState, gap)
    ensures TrailGap(check, services, s, s.schemaState.committedOps, gap)
  {
    hide UnsafeTypeChange, EvidenceGap, UntypedChange;
    var lv :| lv in s.live && VersionGap(check, services, lv, s.schemaState, gap);
    var col, cause :| Concerns(check, s.schemaState, col, cause) && EvidenceGap(services, lv, col.table) == Some(gap);
    assert OpGap(check, services, s, cause.value, gap);
  }

  lemma OpGapIsGap(check: Check, services: Services, s: RolloutState, cop: CommittedOp, gap: Gap)
    requires (check.CheckTypes? || check.CheckRenames?) && !s.schemaState.indeterminate
    requires cop in s.schemaState.committedOps && OpGap(check, services, s, cop, gap)
    ensures IsGap(check, services, s, gap)
  {
    hide UnsafeTypeChange, EvidenceGap, UntypedChange;
    if Concerned(check, cop) && GapAmong(services, s.live, cop.op.table, gap) {
      var lv :| lv in s.live && EvidenceGap(services, lv, cop.op.table) == Some(gap);
      assert Concerns(check, s.schemaState, cop.op.TargetColumn(), Some(cop));
      assert VersionGap(check, services, lv, s.schemaState, gap);
    }
  }

  /** The loop over the committed trail: every operation of concern is held against every live version. */
  method ScanTrail(check: Check, services: Services, s: RolloutState)
    returns (violations: seq<Violation>, gaps: set<Gap>)
    requires (check.CheckTypes? || check.CheckRenames?) && !s.schemaState.indeterminate
    ensures forall v :: v in violations <==> IsViolation(check, services, s, v)
    ensures forall gap :: gap in gaps <==> IsGap(check, services, s, gap)
  {
    hide GapAmong, TrailGap, Widens, IsGap;
    var trail := s.schemaState.committedOps;
    violations, gaps := [], {};
    NoTrailGapInNone(check, services, s);
    for k := 0 to |trail|
      invariant forall v :: v in violations <==>
        IsViolation(check, services, s, v) && v.cause.value in trail[..k]
      invariant forall gap :: gap in gaps <==> TrailGap(check, services, s, trail[..k], gap)
    {
      var cop := trail[k];
      assert trail[..k + 1] == trail[..k] + [cop];
      TrailGapSnoc(check, services, s, trail[..k], cop);
      if check.CheckTypes? && UntypedChange(cop) {
        gaps := gaps + {NoPriorType(cop.op.TargetColumn(), cop.migrationID)};
      } else if Concerned(check, cop) {
        var found, missing := ScanLiveVersions(check, services, s, cop.op.TargetColumn(), Some(cop));
        violations, gaps := violations + found, gaps + missing;
      }
    }
    assert trail[..|trail|] == trail;
    forall gap {
      TrailGapIsGap(check, services, s, gap);
    }
  }

  // ---- RP-DB-004 ----

  ghost predicate AnyStrict(schema: Schema, table: string, columns: set<string>) {
    exists c :: c in columns && StrictColumn(schema, ColumnRef(table, c))
  }

  lemma AnyStrictGrows(schema: Schema, table: string, columns: set<string>, c: string)
    ensures AnyStrict(schema, table, columns + {c}) <==>
      AnyStrict(schema, table, columns) || StrictColumn(schema, ColumnRef(table, c))
  {
    if x :| x in columns && StrictColumn(schema, ColumnRef(table, x)) {
      assert x in columns + {c};
    }
    assert c in columns + {c};
  }

  /** The loops over one table's columns, in any order, and over the live versions. */
  method ScanTable(services: Services, s: RolloutState, table: string)
    returns (violations: seq<Violation>, gaps: set<Gap>)
    requires !s.schemaState.indeterminate && table in s.schemaState.schema.tables
    ensures forall v :: v in violations <==> IsViolation(CheckNotNull, services, s, v) && v.col.table == table
    ensures forall gap :: gap in gaps <==>
      AnyStrict(s.schemaState.schema, table, s.schemaState.schema.tables[table].columns.Keys)
      && GapAmong(services, s.live, table, gap)
  {
    hide GapAmong, AnyStrict;
    violations, gaps := [], {};
    var columns := s.schemaState.schema.tables[table].columns;
    var rest, done := columns.Keys, {};
    NoneStrict(s.schemaState.schema, table);
    while rest != {}
      invariant rest + done == columns.Keys && rest !! done
      invariant forall v :: v in violations <==>
        IsViolation(CheckNotNull, services, s, v) && v.col.table == table && v.col.column in done
      invariant forall gap :: gap in gaps <==>
        AnyStrict(s.schemaState.schema, table, done) && GapAmong(services, s.live, table, gap)
      decreases |rest|
    {
      var c :| c in rest;
      var target := ColumnRef(table, c);
      AnyStrictGrows(s.schemaState.schema, table, done, c);
      rest, done := rest - {c}, done + {c};
      if !columns[c].nullable && columns[c].default.None? {
        var found, missing := ScanLiveVersions(CheckNotNull, services, s, target, None);
        assert forall v: Violation :: v.col.table == table && v.col.column == c <==> v.col == target;
        violations, gaps := violations + found, gaps + missing;
      } else {
        assert forall v: Violation :: v.col.table == table && v.col.column == c ==> v.col == target;
      }
    }
    assert done == columns.Keys;
  }

  lemma NoneStrict(schema: Schema, table: string)
    ensures !AnyStrict(schema, table, {})
  {
  }

  ghost predicate TablesGap(services: Services, s: RolloutState, tables: set<string>, gap: Gap) {
    exists t :: t in tables && t in s.schemaState.schema.tables
                && AnyStrict(s.schemaState.schema, t, s.schemaState.schema.tables[t].columns.Keys)
                && GapAmong(services, s.live, t, gap)
  }

  lemma TablesGapGrows(services: Services, s: RolloutState, tables: set<string>, t: string, gap: Gap)
    requires t in s.schemaState.schema.tables
    ensures TablesGap(services, s, tables + {t}, gap) <==>
      || TablesGap(services, s, tables, gap)
      || (AnyStrict(s.schemaState.schema, t, s.schemaState.schema.tables[t].columns.Keys)
          && GapAmong(services, s.live, t, gap))
  {
    hide AnyStrict, GapAmong;
    assert t in tables + {t};
    assert forall x :: x in tables ==> x in tables + {t};
  }

  lemma TablesGapIsGap(services: Services, s: RolloutState, gap: Gap)
    requires !s.schemaState.indeterminate
    ensures TablesGap(services, s, s.schemaState.schema.tables.Keys, gap) <==> IsGap(CheckNotNull, services, s, gap)
  {
    hide EvidenceGap;
    var schema := s.schemaState.schema;
    if TablesGap(services, s, schema.tables.Keys, gap) {
      var t :| t in schema.tables && AnyStrict(schema, t, schema.tables[t].columns.Keys) && GapAmong(services, s.live, t, gap);
      var c :| c in schema.tables[t].columns.Keys && StrictColumn(schema, ColumnRef(t, c));
      var lv :| lv in s.live && EvidenceGap(services, lv, t) == Some(gap);
      assert Concerns(CheckNotNull, s.schemaState, ColumnRef(t, c), None);
      assert VersionGap(CheckNotNull, services, lv, s.schemaState, gap);
    }
    if VersionGapAmong(CheckNotNull, services, s.live, s.schemaState, gap) {
      VersionGapIsTablesGap(services, s, gap);
    }
  }

  lemma VersionGapIsTablesGap(services: Services, s: RolloutState, gap: Gap)
    requires VersionGapAmong(CheckNotNull, services, s.live, s.schemaState, gap)
    ensures TablesGap(services, s, s.schemaState.schema.tables.Keys, gap)
  {
    hide EvidenceGap;
    var schema := s.schemaState.schema;
    var lv :| lv in s.live && VersionGap(CheckNotNull, services, lv, s.schemaState, gap);
    var col, cause :| Concerns(CheckNotNull, s.schemaState, col, cause) && EvidenceGap(services, lv, col.table) == Some(gap);
    assert AnyStrict(schema, col.table, schema.tables[col.table].columns.Keys);
  }

  lemma ViolationsInTables(services: Services, s: RolloutState)
    ensures forall v :: IsViolation(CheckNotNull, services, s, v) ==> v.col.table in s.schemaState.schema.tables
  {
  }

  method ScanNotNull(services: Services, s: RolloutState) returns (violations: seq<Violation>, gaps: set<Gap>)
    requires !s.schemaState.indeterminate
    ensures forall v :: v in violations <==> IsViolation(CheckNotNull, services, s, v)
    ensures forall gap :: gap in gaps <==> IsGap(CheckNotNull, services, s, gap)
  {
    hide GapAmong, AnyStrict, TablesGap, IsGap, IsViolation;
    ViolationsInTables(services, s);
    violations, gaps := [], {};
    var tables := s.schemaState.schema.tables;
    var rest, done := tables.Keys, {};
    NoTablesGap(services, s);
    while rest != {}
      invariant rest + done == tables.Keys && rest !! done
      invariant forall v :: v in violations <==> IsViolation(CheckNotNull, services, s, v) && v.col.table in done
      invariant forall gap :: gap in gaps <==> TablesGap(services, s, done, gap)
      decreases |rest|
    {
      var t :| t in rest;
      forall gap {
        TablesGapGrows(services, s, done, t, gap);
      }
      rest, done := rest - {t}, done + {t};
      var found, missing := ScanTable(services, s, t);
      violations, gaps := violations + found, gaps + missing;
    }
    assert done == tables.Keys;
    forall gap {
      TablesGapIsGap(services, s, gap);
    }
  }

  lemma NoTablesGap(services: Services, s: RolloutState)
    ensures forall gap :: !TablesGap(services, s, {}, gap)
  {
  }

  // ---- scanning the graph ----

  method ScanState(check: Check, services: Services, s: RolloutState) returns (violations: seq<Violation>, gaps: set<Gap>)
    ensures forall v :: v in violations <==> IsViolation(check, services, s, v)
    ensures forall gap :: gap in gaps <==> IsGap(check, services, s, gap)
  {
    hide Offends, VersionGapAmong, PriorTypeGap;
    if s.schemaState.indeterminate {
      return [], {UnknownSchema(s.id)};
    }
    match check
    case CheckExistence(access) => violations, gaps := ScanExistence(access, services, s);
    case CheckNotNull => violations, gaps := ScanNotNull(services, s);
    case _ => violations, gaps := ScanTrail(check, services, s);
  }

  lemma InSnoc(check: Check, services: Services, nodes: seq<RolloutState>, s: RolloutState)
    ensures forall v :: ViolationIn(check, services, nodes + [s], v) <==>
      ViolationIn(check, services, nodes, v) || IsViolation(check, services, s, v)
    ensures forall gap :: GapIn(check, services, nodes + [s], gap) <==>
      GapIn(check, services, nodes, gap) || IsGap(check, services, s, gap)
  {
    hide IsViolation, IsGap;
    var all := nodes + [s];
    assert forall x :: x in all <==> x in nodes || x == s;
    forall v ensures ViolationIn(check, services, all, v) <==>
      ViolationIn(check, services, nodes, v) || IsViolation(check, services, s, v) {
      assert s in all;
    }
    forall gap ensures GapIn(check, services, all, gap) <==>
      GapIn(check, services, nodes, gap) || IsGap(check, services, s, gap) {
      assert s in all;
    }
  }

  lemma InNone(check: Check, services: Services)
    ensures forall v :: !ViolationIn(check, services, [], v)
    ensures forall gap :: !GapIn(check, services, [], gap)
  {
  }

  method ScanNodes(check: Check, services: Services, nodes: seq<RolloutState>)
    returns (violations: seq<Violation>, gaps: set<Gap>)
    ensures forall v :: v in violations <==> ViolationIn(check, services, nodes, v)
    ensures forall gap :: gap in gaps <==> GapIn(check, services, nodes, gap)
  {
    hide ViolationIn, GapIn, IsViolation, IsGap;
    violations, gaps := [], {};
    InNone(check, services);
    for i := 0 to |nodes|
      invariant forall v :: v in violations <==> ViolationIn(check, services, nodes[..i], v)
      invariant forall gap :: gap in gaps <==> GapIn(check, services, nodes[..i], gap)
    {
      InSnoc(check, services, nodes[..i], nodes[i]);
      assert nodes[..i + 1] == nodes[..i] + [nodes[i]];
      var found, missing := ScanState(check, services, nodes[i]);
      violations, gaps := violations + found, gaps + missing;
    }
    assert nodes[..|nodes|] == nodes;
  }

  /** Whether some state reflects a committed operation. */
  method GraphHasAnyCommittedOp(nodes: seq<RolloutState>) returns (found: bool)
    ensures found == AnyCommittedOp(nodes)
  {
    for i := 0 to |nodes|
      invariant forall j :: 0 <= j < i ==> nodes[j].schemaState.committedOps == []
    {
      if |nodes[i].schemaState.committedOps| > 0 {
        return true;
      }
    }
    return false;
  }

  /** A diagnostic that is right about a check: verdict, gaps, and the counterexample it shows. */
  ghost predicate Decides(check: Check, vacuousWhenNoOp: bool, g: Graph, services: Services, d: Diagnostic) {
    && !d.advisory
    && d.verdict == CheckVerdict(check, vacuousWhenNoOp, services, g.nodes)
    && (forall gap :: gap in d.missingEvidence <==>
          d.verdict == VerdictUnknown && GapIn(check, services, g.nodes, gap))
    && (d.counterexample.Some? <==> d.verdict == VerdictUnsafe)
    && (d.verdict == VerdictUnsafe ==>
          BestCounterexample(g, ViolatingIDs(check, services, g.nodes), d.counterexample.value))
  }

  /** The rollback class an existence or rename finding reports: that of the failing version. */
  ghost predicate ReportsRollback(check: Check, g: Graph, services: Services, d: Diagnostic)
    requires d.counterexample.Some?
  {
    var s := d.counterexample.value.violatingState;
    exists v :: ViolationIn(check, services, g.nodes, v) && v.stateID == s.id && KeyOf(v.live) in services
                && IsWorstClass(s.schemaState.committedOps, services[KeyOf(v.live)], d.rollbackVerdict)
  }

  method EvaluateCheck(id: string, check: Check, g: Graph, services: Services, vacuousWhenNoOp: bool)
    returns (d: Diagnostic)
    requires Scannable(g)
    ensures d.invariantID == id
    ensures Decides(check, vacuousWhenNoOp, g, services, d)
    ensures d.verdict == VerdictUnsafe && (check.CheckExistence? || check.CheckRenames?) ==>
      ReportsRollback(check, g, services, d)
    ensures d.verdict != VerdictUnsafe || check.CheckTypes? || check.CheckNotNull? ==>
      d.rollbackVerdict == RollbackUnknown
  {
    hide ViolationIn, GapIn, IsViolation, Searchable;
    if vacuousWhenNoOp && (check.CheckExistence? || check.CheckNotNull?) {
      var any := GraphHasAnyCommittedOp(g.nodes);
      if !any {
        return SafeDiagnostic(id);
      }
    }
    var violations, gaps := ScanNodes(check, services, g.nodes);
    ViolationsAreStates(check, services, g);
    var ids: seq<nat> := seq(|violations|, i requires 0 <= i < |violations| => violations[i].stateID);
    var best;
    d, best := Report(id, g, ids, gaps);
    IdsAreViolating(check, services, g, violations, ids);
    if d.verdict == VerdictUnsafe && (check.CheckExistence? || check.CheckRenames?) {
      var v := violations[best];
      var r := EvaluateRollback(g.nodes[v.stateID].schemaState.committedOps, services[KeyOf(v.live)]);
      assert ViolationIn(check, services, g.nodes, v);
      d := d.(rollbackVerdict := r);
    }
  }

  lemma ViolationsAreStates(check: Check, services: Services, g: Graph)
    requires Scannable(g)
    ensures forall v :: ViolationIn(check, services, g.nodes, v) ==>
      v.stateID < |g.nodes| && IsViolation(check, services, g.nodes[v.stateID], v) && KeyOf(v.live) in services
  {
  }

  lemma IdsAreViolating(check: Check, services: Services, g: Graph, violations: seq<Violation>, ids: seq<nat>)
    requires |ids| == |violations| && forall i :: 0 <= i < |ids| ==> ids[i] == violations[i].stateID
    requires forall v :: v in violations <==> ViolationIn(check, services, g.nodes, v)
    ensures (iset i | i in ids) == ViolatingIDs(check, services, g.nodes)
    ensures ids != [] <==> AnyViolation(check, services, g.nodes)
  {
    forall id ensures id in ids <==> id in ViolatingIDs(check, services, g.nodes) {
      if id in ids {
        var i :| 0 <= i < |ids| && ids[i] == id;
        assert violations[i] in violations;
      }
      if id in ViolatingIDs(check, services, g.nodes) {
        var v :| ViolationIn(check, services, g.nodes, v) && v.stateID == id;
        var i :| 0 <= i < |violations| && violations[i] == v;
        assert ids[i] == id;
      }
    }
    if v :| ViolationIn(check, services, g.nodes, v) {
      assert v in violations;
    }
    if ids != [] {
      assert violations[0] in violations;
    }
  }
}
