/**
 Where a column's type comes from, and so what the prior types recorded in a trail
 (internal/graph/graph.go, applyOne) are.
 */
module Provenance {
  import opened Wrappers
  import opened Schemas
  import opened Rollout
  import opened Replay
  import opened Machines
  import opened Graphs
  import opened Trails

  /** A column of the base schema, or an operation that gives its column a type. */
  datatype TypeSource = FromBase(col: ColumnRef) | FromOp(i: nat)

  predicate GivesType(op: MigrationOp) {
    op.kind == OpAddColumn || op.kind == OpAlterColumnType
  }

  /** Walking back from the column: the last operation that gave it a type, followed through renames. */
  function SourceOf(ops: seq<MigrationOp>, col: ColumnRef): TypeSource {
    if ops == [] then
      FromBase(col)
    else
      var n := |ops| - 1;
      if GivesType(ops[n]) && ops[n].TargetColumn() == col then FromOp(n)
      else if ops[n].kind == OpRenameColumn && ops[n].RenamedColumn() == col then SourceOf(ops[..n], ops[n].TargetColumn())
      else SourceOf(ops[..n], col)
  }

  /** The type a source gives. */
  ghost predicate Gives(base: Schema, ops: seq<MigrationOp>, source: TypeSource, typ: string) {
    match source
    case FromBase(col) => col.table in base.tables && col.column in base.tables[col.table].columns
                          && base.tables[col.table].columns[col.column].typ == typ
    case FromOp(i) => i < |ops| && GivesType(ops[i]) && ops[i].newType == typ
  }

  /** A column that exists has the type its source gives. */
  lemma {:induction false} SourceGivesType(base: Schema, ops: seq<MigrationOp>, col: ColumnRef)
    requires WellFormed(base) && FoldApply(base, ops).Ok? && Lookup(FoldApply(base, ops).value, col).Some?
    ensures Gives(base, ops, SourceOf(ops, col), Lookup(FoldApply(base, ops).value, col).value.typ)
    decreases |ops|
  {
    if ops != [] {
      var n := |ops| - 1;
      var op := ops[n];
      assert ops == ops[..n] + [op];
      FoldApplyPrefix(base, ops, n);
      FoldApplySnoc(base, ops[..n], op);
      FoldApplyWellFormed(base, ops[..n]);
      ApplyEffect(FoldApply(base, ops[..n]).value, op);
      if !(GivesType(op) && op.TargetColumn() == col) {
        SourceGivesType(base, ops[..n], if op.kind == OpRenameColumn && op.RenamedColumn() == col then op.TargetColumn() else col);
      }
    }
  }

  /**
   The prior type recorded with operation j of a trail: for a type change that meets its
   column, the type of that column just before, as its source gives it; nothing otherwise.
   */
  ghost predicate PriorTypeRight(base: Schema, trail: seq<CommittedOp>, j: nat)
    requires j < |trail|
  {
    var before := OpsIn(trail)[..j];
    var col := trail[j].op.TargetColumn();
    if trail[j].op.kind == OpAlterColumnType && FoldApply(base, before).Ok? && HasColumn(FoldApply(base, before).value, col) then
      && trail[j].priorType == FoldApply(base, before).value.tables[col.table].columns[col.column].typ
      && Gives(base, before, SourceOf(before, col), trail[j].priorType)
    else
      trail[j].priorType == ""
  }

  lemma PriorTypeExactly(base: Schema, ss: SchemaState, j: nat)
    requires WellFormed(base) && TrailAgrees(base, ss) && j < |ss.committedOps|
    ensures PriorTypeRight(base, ss.committedOps, j)
  {
    var before := OpsIn(ss.committedOps)[..j];
    var col := ss.committedOps[j].op.TargetColumn();
    assert ss.committedOps[j].priorType == TypeBefore(base, OpsIn(ss.committedOps), j);
    if FoldApply(base, before).Ok? && HasColumn(FoldApply(base, before).value, col) {
      SourceGivesType(base, before, col);
    }
  }

  ghost predicate PriorTypesRight(base: Schema, ss: SchemaState) {
    forall j :: 0 <= j < |ss.committedOps| ==> PriorTypeRight(base, ss.committedOps, j)
  }

  lemma PriorTypesExactly(base: Schema, ss: SchemaState)
    requires WellFormed(base) && TrailAgrees(base, ss)
    ensures PriorTypesRight(base, ss)
  {
    hide TrailAgrees, PriorTypeRight;
    forall j | 0 <= j < |ss.committedOps| ensures PriorTypeRight(base, ss.committedOps, j) {
      PriorTypeExactly(base, ss, j);
    }
  }

  /** In every node of a plan's graph the recorded prior types are right. */
  lemma NodesPriorTypes(plan: RolloutPlan, g: Graph)
    requires WellFormed(plan.baseSchema) && GraphOf(MachineOf(plan, [], false), g)
    ensures forall i :: 0 <= i < |g.nodes| ==> PriorTypesRight(plan.baseSchema, g.nodes[i].schemaState)
  {
    hide GraphOf, MachineOf, TrailAgrees, PriorTypesRight;
    NodesReplay(plan, g);
    forall i | 0 <= i < |g.nodes| ensures PriorTypesRight(plan.baseSchema, g.nodes[i].schemaState) {
      PriorTypesExactly(plan.baseSchema, g.nodes[i].schemaState);
    }
  }
}
