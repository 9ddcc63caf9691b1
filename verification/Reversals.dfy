/**
 What the parser's classification of an operation (internal/parser/sql/classify.go) says
 about schemas and the rows stored under them: whether old versions keep their columns and
 have their rows accepted, and whether undoing the operation restores what was there.
 */
module Reversals {
  import opened Wrappers
  import opened Schemas
  import opened Rollout
  import opened TypeCompat
  import opened Rows
  import opened RollbackClass

  ghost predicate Runs(s: Schema, op: MigrationOp) {
    WellFormed(s) && Apply(s, op).Ok?
  }

  // ---- undoing on schemas ----

  /** The operation that takes op back, on a schema it applies to. */
  function Undo(s: Schema, op: MigrationOp): MigrationOp
    requires Applicable(s, op)
  {
    match op.kind
    case OpAddColumn => op.(kind := OpDropColumn)
    case OpDropColumn =>
      var c := Lookup(s, op.TargetColumn()).value;
      op.(kind := OpAddColumn, newType := c.typ, nullable := c.nullable, default := c.default)
    case OpRenameColumn => op.(column := op.newColumn, newColumn := op.column)
    case OpAlterColumnType => op.(newType := Lookup(s, op.TargetColumn()).value.typ)
    case OpSetNotNull => if Lookup(s, op.TargetColumn()).value.nullable then op.(kind := OpDropNotNull) else op
    case OpDropNotNull => if Lookup(s, op.TargetColumn()).value.nullable then op else op.(kind := OpSetNotNull)
    case OpUnclassified => op
  }

  /** Every operation can be undone on schemas: each column is defined as before. */
  lemma UndoRestores(s: Schema, op: MigrationOp)
    requires Runs(s, op)
    ensures Applicable(s, op) && Runs(Apply(s, op).value, Undo(s, op))
    ensures forall ref :: Lookup(Apply(Apply(s, op).value, Undo(s, op)).value, ref) == Lookup(s, ref)
  {
    hide Apply, Undo, Lookup;
    ApplyEffect(s, op);
    UndoApplies(s, op);
    var after := Apply(s, op).value;
    ApplyEffect(after, Undo(s, op));
    forall ref ensures Effect(after, Undo(s, op), ref) == Lookup(s, ref) {
      UndoAt(s, op, ref);
    }
  }

  lemma UndoApplies(s: Schema, op: MigrationOp)
    requires Runs(s, op) && Applicable(s, op)
    ensures Applicable(Apply(s, op).value, Undo(s, op))
  {
    hide Apply;
    ApplyEffect(s, op);
  }

  lemma UndoAt(s: Schema, op: MigrationOp, ref: ColumnRef)
    requires Runs(s, op) && Applicable(s, op) && Applicable(Apply(s, op).value, Undo(s, op))
    ensures Effect(Apply(s, op).value, Undo(s, op), ref) == Lookup(s, ref)
  {
    hide Apply;
    ApplyEffect(s, op);
    if HasColumn(s, op.TargetColumn()) {
      UndoneName(s, op);
    }
    hide Runs;
    if ref != op.TargetColumn() {
      UndoElsewhere(s, op, ref);
    }
  }

  lemma UndoElsewhere(s: Schema, op: MigrationOp, ref: ColumnRef)
    requires Runs(s, op) && Applicable(s, op) && Applicable(Apply(s, op).value, Undo(s, op))
    requires ref != op.TargetColumn()
    ensures Effect(Apply(s, op).value, Undo(s, op), ref) == Lookup(s, ref)
  {
    hide Apply;
    ApplyEffect(s, op);
    hide Runs;
    if op.kind == OpRenameColumn && ref == op.RenamedColumn() {
      assert Undo(s, op).TargetColumn() == ref;
    }
  }

  lemma UndoneName(s: Schema, op: MigrationOp)
    requires Runs(s, op) && HasColumn(s, op.TargetColumn())
    ensures Lookup(s, op.TargetColumn()).value.name == op.column
  {
  }

  // ---- destructiveness ----

  /** No column disappears or changes its type. */
  ghost predicate KeepsColumns(op: MigrationOp) {
    forall s, ref :: Runs(s, op) && HasColumn(s, ref) ==>
      HasColumn(Apply(s, op).value, ref) && Lookup(Apply(s, op).value, ref).value.typ == Lookup(s, ref).value.typ
  }

  /** No row of the columns there were, accepted before, is refused. */
  ghost predicate RefusesNoMore(op: MigrationOp) {
    forall s, ref: ColumnRef, row: Row :: Runs(s, op) && (ref.column in row ==> HasColumn(s, ref)) && !RefusesAt(s, ref, row) ==>
      !RefusesAt(Apply(s, op).value, ref, row)
  }

  /** The column the operation concerns is gone. */
  ghost predicate TakesAway(op: MigrationOp) {
    forall s :: Runs(s, op) ==> !HasColumn(Apply(s, op).value, op.TargetColumn())
  }

  function OneColumn(op: MigrationOp, c: Column): Schema {
    Schema(map[op.table := Table(op.table, map[op.column := c])])
  }

  /** A schema an operation applies to. */
  function Ground(op: MigrationOp): Schema {
    if op.kind == OpAddColumn then Schema(map[]) else OneColumn(op, Column(op.column, op.newType + "'", true, None))
  }

  lemma GroundRuns(op: MigrationOp)
    requires exists s :: Runs(s, op)
    ensures Runs(Ground(op), op)
  {
    var s :| Runs(s, op);
    ApplyEffect(s, op);
    hide Apply;
    assert WellFormed(Ground(op));
    ApplyEffect(Ground(op), op);
  }

  /**
   The parser's destructiveness, for an operation that applies to some schema: Destructive
   if it takes its column away, NonDestructive if it keeps every column and refuses no row
   it accepted, ConditionallyDestructive if neither.
   */
  lemma DestructivenessExactly(op: MigrationOp)
    requires exists s :: Runs(s, op)
    ensures Classify(op).destructiveness == Destructive <==> TakesAway(op)
    ensures Classify(op).destructiveness == NonDestructive <==> KeepsColumns(op) && RefusesNoMore(op)
    ensures Classify(op).destructiveness == ConditionallyDestructive <==>
            !TakesAway(op) && !(KeepsColumns(op) && RefusesNoMore(op))
  {
    hide Apply;
    GroundRuns(op);
    var g := Ground(op);
    ApplyEffect(g, op);
    var t := op.TargetColumn();
    if op.kind == OpDropColumn || op.kind == OpRenameColumn {
      TakesAwayTarget(op);
      assert HasColumn(g, t) && !HasColumn(Apply(g, op).value, t);
      assert !KeepsColumns(op);
    } else {
      assert HasColumn(Apply(g, op).value, t);
      assert !TakesAway(op);
      if op.kind == OpAlterColumnType {
        assert HasColumn(g, t) && Lookup(Apply(g, op).value, t).value.typ != Lookup(g, t).value.typ;
        assert !KeepsColumns(op);
      } else if Classify(op).destructiveness == ConditionallyDestructive {
        assert !RefusesAt(g, t, map[]) && RefusesAt(Apply(g, op).value, t, map[]);
        assert !RefusesNoMore(op);
      } else {
        LoosensOnly(op);
      }
    }
  }

  lemma TakesAwayTarget(op: MigrationOp)
    requires op.kind == OpDropColumn || op.kind == OpRenameColumn
    ensures TakesAway(op)
  {
    hide Apply;
    forall s | Runs(s, op) ensures !HasColumn(Apply(s, op).value, op.TargetColumn()) {
      ApplyEffect(s, op);
    }
  }

  /** What rollback analysis counts as a removal is what takes its column away. */
  lemma RemovesExactly(op: MigrationOp)
    requires exists s :: Runs(s, op)
    ensures RemovesColumn(op) <==> TakesAway(op)
  {
    hide TakesAway;
    var s :| Runs(s, op);
    assert op.kind != OpUnclassified;
    DestructivenessExactly(op);
  }

  lemma LoosensOnly(op: MigrationOp)
    requires op.kind == OpDropNotNull || (op.kind == OpAddColumn && (op.nullable || op.default.Some?))
    ensures KeepsColumns(op) && RefusesNoMore(op)
  {
    hide Apply;
    forall s, ref | Runs(s, op) && HasColumn(s, ref)
      ensures HasColumn(Apply(s, op).value, ref) && Lookup(Apply(s, op).value, ref).value.typ == Lookup(s, ref).value.typ
    {
      ApplyEffect(s, op);
    }
    forall s, ref: ColumnRef, row: Row | Runs(s, op) && (ref.column in row ==> HasColumn(s, ref)) && !RefusesAt(s, ref, row)
      ensures !RefusesAt(Apply(s, op).value, ref, row) {
      ApplyEffect(s, op);
    }
  }

  // ---- reversibility ----

  /** A stored row of a table: a cell for every column, NULL only where it is allowed. */
  ghost predicate FitsTable(s: Schema, table: string, row: Row) {
    forall c :: (c in row <==> HasColumn(s, ColumnRef(table, c)))
                && (c in row && row[c] == Null ==> Lookup(s, ColumnRef(table, c)).value.nullable)
  }

  /** What an operation makes of a stored row of its table. */
  function StoredAfter(op: MigrationOp, row: Row): Row {
    match op.kind
    case OpAddColumn => row[op.column := match op.default case Some(v) => Value(v) case None => Null]
    case OpDropColumn => row - {op.column}
    case OpRenameColumn => if op.column in row then (row - {op.column})[op.newColumn := row[op.column]] else row
    case _ => row
  }

  /** Two rows become one: what told them apart is lost. */
  ghost predicate LosesData(op: MigrationOp) {
    exists s, a, b :: Runs(s, op) && FitsTable(s, op.table, a) && FitsTable(s, op.table, b)
                      && a != b && StoredAfter(op, a) == StoredAfter(op, b)
  }

  /** Whatever rows the table holds after op, undoing op leaves rows the table could hold before. */
  ghost predicate UndoKeepsRows(op: MigrationOp) {
    forall s, row :: Runs(s, op) && FitsTable(Apply(s, op).value, op.table, row) ==>
      Applicable(s, op) && FitsTable(s, op.table, StoredAfter(Undo(s, op), row))
  }

  /** No value of a changed type could fail to fit the type it returns to. */
  ghost predicate TypesReturn(op: MigrationOp) {
    forall s, ref :: Runs(s, op) && HasColumn(s, ref) && HasColumn(Apply(s, op).value, ref) ==>
      var before, after := Lookup(s, ref).value.typ, Lookup(Apply(s, op).value, ref).value.typ;
      after == before || Widens(after, before)
  }

  lemma DropLoses(op: MigrationOp)
    requires op.kind == OpDropColumn
    ensures LosesData(op)
  {
    var s := OneColumn(op, Column(op.column, "", true, None));
    var a: Row, b: Row := map[op.column := Null], map[op.column := Value("")];
    assert a[op.column] != b[op.column];
    assert FitsTable(s, op.table, a) && FitsTable(s, op.table, b);
    assert StoredAfter(op, a) == map[] == StoredAfter(op, b);
  }

  lemma OthersKeep(op: MigrationOp)
    requires op.kind != OpDropColumn
    ensures !LosesData(op)
  {
    hide Apply;
    if s, a, b :| Runs(s, op) && FitsTable(s, op.table, a) && FitsTable(s, op.table, b)
                  && a != b && StoredAfter(op, a) == StoredAfter(op, b)
    {
      ApplyEffect(s, op);
      assert a.Keys == b.Keys;
      forall c | c in a ensures a[c] == b[c] {
        assert c in StoredAfter(op, a) || c == op.column;
        if c == op.column {
          assert op.kind == OpRenameColumn ==> StoredAfter(op, a)[op.newColumn] == a[c];
        } else {
          assert StoredAfter(op, a)[c] == a[c];
        }
      }
    }
  }

  lemma UndoableRows(op: MigrationOp)
    requires op.kind == OpAddColumn || op.kind == OpRenameColumn || op.kind == OpSetNotNull
    ensures UndoKeepsRows(op) && TypesReturn(op)
  {
    hide Apply, FitsTable, Widens;
    forall s, row | Runs(s, op) && FitsTable(Apply(s, op).value, op.table, row)
      ensures Applicable(s, op) && FitsTable(s, op.table, StoredAfter(Undo(s, op), row))
    {
      UndoneRowFits(s, op, row);
    }
    forall s, ref | Runs(s, op) && HasColumn(s, ref) && HasColumn(Apply(s, op).value, ref)
      ensures Lookup(Apply(s, op).value, ref).value.typ == Lookup(s, ref).value.typ
    {
      ApplyEffect(s, op);
    }
  }

  lemma UndoneRowFits(s: Schema, op: MigrationOp, row: Row)
    requires op.kind == OpAddColumn || op.kind == OpRenameColumn || op.kind == OpSetNotNull
    requires Runs(s, op) && FitsTable(Apply(s, op).value, op.table, row)
    ensures Applicable(s, op) && FitsTable(s, op.table, StoredAfter(Undo(s, op), row))
  {
    hide Apply;
    ApplyEffect(s, op);
    if op.kind == OpRenameColumn {
      RenamedRowFits(s, op, row);
    } else {
      assert op.TargetColumn() == ColumnRef(op.table, op.column);
    }
  }

  lemma RenamedRowFits(s: Schema, op: MigrationOp, row: Row)
    requires op.kind == OpRenameColumn && Runs(s, op) && Applicable(s, op)
    requires FitsTable(Apply(s, op).value, op.table, row)
    ensures FitsTable(s, op.table, StoredAfter(Undo(s, op), row))
  {
    hide Apply;
    ApplyEffect(s, op);
    hide Runs;
    var back := StoredAfter(Undo(s, op), row);
    assert op.newColumn in row && op.column !in row;
    assert back == (row - {op.newColumn})[op.column := row[op.newColumn]];
    forall c
      ensures c in back <==> HasColumn(s, ColumnRef(op.table, c))
      ensures c in back && back[c] == Null ==> Lookup(s, ColumnRef(op.table, c)).value.nullable
    {
      assert c in row <==> HasColumn(Apply(s, op).value, ColumnRef(op.table, c));
    }
  }

  lemma LoosenedRowsStay(op: MigrationOp)
    requires op.kind == OpDropNotNull
    ensures !UndoKeepsRows(op)
  {
    var s := OneColumn(op, Column(op.column, "", false, None));
    var row: Row := map[op.column := Null];
    assert Runs(s, op) && FitsTable(Apply(s, op).value, op.table, row);
    assert HasColumn(s, ColumnRef(op.table, op.column)) && StoredAfter(Undo(s, op), row) == row;
  }

  lemma TypesMayStay(op: MigrationOp)
    requires op.kind == OpAlterColumnType
    ensures !TypesReturn(op)
  {
    var was := if op.newType == "" then "?" else "";
    var s := OneColumn(op, Column(op.column, was, true, None));
    var ref := op.TargetColumn();
    assert Runs(s, op) && HasColumn(s, ref) && HasColumn(Apply(s, op).value, ref);
    NoTypeName();
    assert Lookup(Apply(s, op).value, ref).value.typ == op.newType;
  }

  lemma NoTypeName()
    ensures ParseType("").None?
  {
  }

  /**
   The parser's reversibility, for an operation that applies to some schema: Irreversible
   if it loses data; otherwise Reversible if undoing it always leaves what the schema
   allowed before, and ConditionallyReversible if that depends on what was written since.
   */
  lemma ReversibilityExactly(op: MigrationOp)
    requires exists s :: Runs(s, op)
    ensures Classify(op).reversibility == Irreversible <==> LosesData(op)
    ensures Classify(op).reversibility == Reversible <==> !LosesData(op) && UndoKeepsRows(op) && TypesReturn(op)
    ensures Classify(op).reversibility == ConditionallyReversible <==>
            !LosesData(op) && !(UndoKeepsRows(op) && TypesReturn(op))
  {
    hide LosesData, UndoKeepsRows, TypesReturn;
    match op.kind
    case OpDropColumn => DropLoses(op);
    case OpDropNotNull => OthersKeep(op); LoosenedRowsStay(op);
    case OpAlterColumnType => OthersKeep(op); TypesMayStay(op);
    case OpUnclassified =>
      GroundRuns(op);
      assert false;
    case _ => OthersKeep(op); UndoableRows(op);
  }
}
