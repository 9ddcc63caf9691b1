/**
 How safe restoring an old version is, given what has committed
 (internal/invariant/rollback.go) and how the SQL parser classifies operations
 (internal/parser/sql/classify.go).
 */
module RollbackClass {
  import opened Wrappers
  import opened Verdicts
  import opened Schemas
  import opened Rollout

  /** Removes a column under the name the rollback target may still use. */
  predicate RemovesColumn(op: MigrationOp) {
    op.kind == OpDropColumn || op.kind == OpRenameColumn
  }

  predicate DependsOn(svc: Service, col: ColumnRef) {
    svc.ReadsColumn(col) || svc.WritesColumn(col)
  }

  /** What one committed operation means for restoring svc. */
  function OpClass(op: MigrationOp, svc: Service): RollbackVerdict {
    if !RemovesColumn(op) then
      RollbackSafe
    else if !svc.TouchesTable(op.table) then
      RollbackUnknown
    else if !DependsOn(svc, op.TargetColumn()) then
      RollbackSafe
    else
      match op.reversibility
      case Irreversible => RollbackUnsafe
      case ConditionallyReversible => RollbackConditionallySafe
      case Reversible => RollbackConditionallySafe
      case ReversibilityUnknown => RollbackUnknown
  }

  /** The class of a trail is the class of its worst operation. */
  ghost predicate IsWorstClass(trail: seq<CommittedOp>, svc: Service, r: RollbackVerdict) {
    && (forall i :: 0 <= i < |trail| ==> RollbackDominance(OpClass(trail[i].op, svc)) <= RollbackDominance(r))
    && (r == RollbackSafe || exists i :: 0 <= i < |trail| && OpClass(trail[i].op, svc) == r)
  }

  lemma WorstClassUnique(trail: seq<CommittedOp>, svc: Service, a: RollbackVerdict, b: RollbackVerdict)
    requires IsWorstClass(trail, svc, a) && IsWorstClass(trail, svc, b)
    ensures a == b
  {
  }

  /** The version declares that it reads or writes the column an operation removes. */
  ghost predicate NeedsRemoved(svc: Service, op: MigrationOp) {
    && (op.kind == OpDropColumn || op.kind == OpRenameColumn)
    && (op.TargetColumn() in svc.schemaReads || op.TargetColumn() in svc.schemaWrites)
  }

  /** An operation removes a column of a table the version declares nothing about. */
  ghost predicate RemovesUnmentioned(svc: Service, op: MigrationOp) {
    && (op.kind == OpDropColumn || op.kind == OpRenameColumn)
    && forall c :: c in svc.schemaReads || c in svc.schemaWrites ==> c.table != op.table
  }

  /** The class of a trail, case by case. */
  lemma ClassMeans(trail: seq<CommittedOp>, svc: Service, r: RollbackVerdict)
    requires IsWorstClass(trail, svc, r)
    ensures r == RollbackSafe <==>
      forall cop :: cop in trail ==> !NeedsRemoved(svc, cop.op) && !RemovesUnmentioned(svc, cop.op)
    ensures r == RollbackUnsafe <==>
      exists cop :: cop in trail && NeedsRemoved(svc, cop.op) && cop.op.reversibility == Irreversible
    ensures r == RollbackUnknown <==>
      && r != RollbackUnsafe
      && exists cop :: cop in trail && (RemovesUnmentioned(svc, cop.op)
                                        || (NeedsRemoved(svc, cop.op) && cop.op.reversibility == ReversibilityUnknown))
    ensures r == RollbackConditionallySafe <==>
      && (exists cop :: cop in trail && NeedsRemoved(svc, cop.op))
      && forall cop :: cop in trail ==>
           && !RemovesUnmentioned(svc, cop.op)
           && (NeedsRemoved(svc, cop.op) ==>
                 cop.op.reversibility == Reversible || cop.op.reversibility == ConditionallyReversible)
  {
    hide NeedsRemoved, RemovesUnmentioned, OpClass;
    forall cop | cop in trail
      ensures ClassOfOne(cop.op, svc) && RollbackDominance(OpClass(cop.op, svc)) <= RollbackDominance(r)
    {
      OneMeans(cop.op, svc);
      var i :| 0 <= i < |trail| && trail[i] == cop;
    }
    if r != RollbackSafe {
      var i :| 0 <= i < |trail| && OpClass(trail[i].op, svc) == r;
      assert trail[i] in trail;
    }
  }

  ghost predicate ClassOfOne(op: MigrationOp, svc: Service) {
    match OpClass(op, svc)
    case RollbackSafe => !NeedsRemoved(svc, op) && !RemovesUnmentioned(svc, op)
    case RollbackUnsafe => !RemovesUnmentioned(svc, op) && NeedsRemoved(svc, op) && op.reversibility == Irreversible
    case RollbackUnknown =>
      if RemovesUnmentioned(svc, op) then !NeedsRemoved(svc, op)
      else NeedsRemoved(svc, op) && op.reversibility == ReversibilityUnknown
    case RollbackConditionallySafe =>
      && !RemovesUnmentioned(svc, op) && NeedsRemoved(svc, op)
      && (op.reversibility == Reversible || op.reversibility == ConditionallyReversible)
  }

  lemma OneMeans(op: MigrationOp, svc: Service)
    ensures ClassOfOne(op, svc)
  {
    if c :| (c in svc.schemaReads || c in svc.schemaWrites) && c.table == op.table {
      assert svc.TouchesTable(op.table);
    }
  }

  method EvaluateRollback(committed: seq<CommittedOp>, rollbackTarget: Service) returns (verdict: RollbackVerdict)
    ensures IsWorstClass(committed, rollbackTarget, verdict)
  {
    verdict := RollbackSafe;
    for i := 0 to |committed|
      invariant IsWorstClass(committed[..i], rollbackTarget, verdict)
    {
      var op := committed[i].op;
      var seen := verdict;
      if op.kind == OpDropColumn || op.kind == OpRenameColumn {
        var target := op.TargetColumn();
        if !rollbackTarget.TouchesTable(target.table) {
          verdict := CombineRollback(verdict, RollbackUnknown);
        } else if rollbackTarget.ReadsColumn(target) || rollbackTarget.WritesColumn(target) {
          match op.reversibility
          case Irreversible => verdict := CombineRollback(verdict, RollbackUnsafe);
          case ConditionallyReversible => verdict := CombineRollback(verdict, RollbackConditionallySafe);
          case Reversible => verdict := CombineRollback(verdict, RollbackConditionallySafe);
          case ReversibilityUnknown => verdict := CombineRollback(verdict, RollbackUnknown);
        }
      }
      WorstClassExtends(committed, i, rollbackTarget, seen);
    }
    assert committed[..|committed|] == committed;
  }

  lemma WorstClassExtends(trail: seq<CommittedOp>, i: nat, svc: Service, r: RollbackVerdict)
    requires i < |trail| && IsWorstClass(trail[..i], svc, r)
    ensures IsWorstClass(trail[..i + 1], svc, CombineRollback(r, OpClass(trail[i].op, svc)))
  {
    var next := trail[..i + 1];
    assert next[i] == trail[i];
    assert forall j :: 0 <= j < i ==> next[j] == trail[..i][j];
  }

  // ---- classification at parse time ----

  function Classify(op: MigrationOp): MigrationOp {
    match op.kind
    case OpAddColumn =>
      op.(destructiveness := if !op.nullable && op.default.None? then ConditionallyDestructive else NonDestructive,
          reversibility := Reversible)
    case OpDropColumn => op.(destructiveness := Destructive, reversibility := Irreversible)
    case OpRenameColumn => op.(destructiveness := Destructive, reversibility := Reversible)
    case OpAlterColumnType =>
      op.(destructiveness := ConditionallyDestructive, reversibility := ConditionallyReversible)
    case OpSetNotNull => op.(destructiveness := ConditionallyDestructive, reversibility := Reversible)
    case OpDropNotNull => op.(destructiveness := NonDestructive, reversibility := ConditionallyReversible)
    case OpUnclassified => op
  }

  /** The operation carries what the parser computes for it. */
  predicate Classified(op: MigrationOp) {
    Classify(op) == op
  }
}
