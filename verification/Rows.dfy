/**
 What a schema does with an inserted row: a column the row does not give takes its default,
 else NULL, and NULL is refused where the column is NOT NULL. RP-DB-004
 (internal/invariant/rpdb004.go) is proved to find exactly the versions whose rows are refused.
 */
module Rows {
  import opened Wrappers
  import opened Schemas
  import opened Rollout
  import opened Checks

  datatype Cell = Null | Value(text: string)

  /** The cells an INSERT gives, by column. */
  type Row = map<string, Cell>

  function Stored(c: Column, name: string, row: Row): Cell {
    if name in row then row[name]
    else match c.default
         case Some(v) => Value(v)
         case None => Null
  }

  /** The table turns the row away because of this column. */
  predicate RefusesAt(s: Schema, col: ColumnRef, row: Row) {
    match Lookup(s, col)
    case Some(c) => Stored(c, col.column, row) == Null && !c.nullable
    case None => false
  }

  ghost predicate Refuses(s: Schema, table: string, row: Row) {
    exists c :: RefusesAt(s, ColumnRef(table, c), row)
  }

  /** A row of a version: a value, not NULL, for exactly the columns it declares to write. */
  ghost predicate IsInsertOf(svc: Service, table: string, row: Row) {
    forall c :: (c in row <==> ColumnRef(table, c) in svc.schemaWrites) && (c in row ==> row[c] != Null)
  }

  ghost predicate WritesInto(svc: Service, table: string) {
    exists c :: c in svc.schemaWrites && c.table == table
  }

  /** Some row of the version is turned away because of col. */
  ghost predicate Refused(s: Schema, svc: Service, col: ColumnRef) {
    WritesInto(svc, col.table) && exists row :: IsInsertOf(svc, col.table, row) && RefusesAt(s, col, row)
  }

  function SomeInsert(svc: Service, table: string): Row {
    map c | c in svc.schemaWrites && c.table == table :: c.column := Value("")
  }

  lemma SomeInsertIs(svc: Service, table: string)
    ensures IsInsertOf(svc, table, SomeInsert(svc, table))
  {
    var row := SomeInsert(svc, table);
    forall c ensures c in row <==> ColumnRef(table, c) in svc.schemaWrites {
      if ColumnRef(table, c) in svc.schemaWrites {
        assert ColumnRef(table, c).column in row;
      }
    }
  }

  /** All rows of a version fare alike, whatever values they give. */
  lemma InsertsAlike(s: Schema, svc: Service, col: ColumnRef, a: Row, b: Row)
    requires IsInsertOf(svc, col.table, a) && IsInsertOf(svc, col.table, b)
    ensures RefusesAt(s, col, a) <==> RefusesAt(s, col, b)
  {
  }

  lemma WritesTableIs(svc: Service, table: string)
    ensures svc.WritesTable(table) <==> WritesInto(svc, table)
  {
    if c :| c in svc.schemaWrites && c.table == table {
      var i :| 0 <= i < |svc.schemaWrites| && svc.schemaWrites[i] == c;
    }
  }

  /** RP-DB-004 flags a live version for a column exactly when its rows are refused there. */
  lemma NotNullAt(services: Services, s: RolloutState, lv: LiveVersion, col: ColumnRef)
    requires !s.schemaState.indeterminate
    ensures IsViolation(CheckNotNull, services, s, Violation(s.id, lv, col, None)) <==>
      lv in s.live && KeyOf(lv) in services && Refused(s.schemaState.schema, services[KeyOf(lv)], col)
  {
    if KeyOf(lv) in services {
      var svc := services[KeyOf(lv)];
      WritesTableIs(svc, col.table);
      SomeInsertIs(svc, col.table);
      assert col == ColumnRef(col.table, col.column);
    }
  }

  /**
   RP-DB-004 flags a live version with a contract file exactly when it writes some table
   that refuses a row of it.
   */
  lemma NotNullExactly(services: Services, s: RolloutState, lv: LiveVersion)
    requires !s.schemaState.indeterminate
    ensures (exists v :: IsViolation(CheckNotNull, services, s, v) && v.live == lv) <==>
      && lv in s.live && KeyOf(lv) in services
      && exists table, row :: WritesInto(services[KeyOf(lv)], table) && IsInsertOf(services[KeyOf(lv)], table, row)
                              && Refuses(s.schemaState.schema, table, row)
  {
    hide RefusesAt, WritesInto, IsInsertOf;
    if v :| IsViolation(CheckNotNull, services, s, v) && v.live == lv {
      assert v == Violation(s.id, lv, v.col, None);
      NotNullAt(services, s, lv, v.col);
      var row :| IsInsertOf(services[KeyOf(lv)], v.col.table, row) && RefusesAt(s.schemaState.schema, v.col, row);
      assert v.col == ColumnRef(v.col.table, v.col.column);
      assert Refuses(s.schemaState.schema, v.col.table, row);
    }
    if lv in s.live && KeyOf(lv) in services {
      if table, row :| WritesInto(services[KeyOf(lv)], table) && IsInsertOf(services[KeyOf(lv)], table, row)
                       && Refuses(s.schemaState.schema, table, row)
      {
        var c :| RefusesAt(s.schemaState.schema, ColumnRef(table, c), row);
        NotNullAt(services, s, lv, ColumnRef(table, c));
      }
    }
  }

  // ---- defaults that are NULL ----

  /** The table turns the row away when the default texts in nulls stand for NULL. */
  ghost predicate RefusesGiven(nulls: iset<string>, s: Schema, col: ColumnRef, row: Row) {
    match Lookup(s, col)
    case Some(c) =>
      !c.nullable && if col.column in row then row[col.column] == Null else c.default.None? || c.default.value in nulls
    case None => false
  }

  ghost predicate RefusedGiven(nulls: iset<string>, s: Schema, svc: Service, col: ColumnRef) {
    WritesInto(svc, col.table) && exists row :: IsInsertOf(svc, col.table, row) && RefusesGiven(nulls, s, col, row)
  }

  /** A version relies on a default that is NULL in a column that is NOT NULL. */
  ghost predicate ReliesOnNull(nulls: iset<string>, s: Schema, svc: Service, col: ColumnRef) {
    && WritesInto(svc, col.table) && col !in svc.schemaWrites
    && match Lookup(s, col)
       case Some(c) => !c.nullable && c.default.Some? && c.default.value in nulls
       case None => false
  }

  /**
   RP-DB-004 takes every declared default for a value. Where some texts stand for NULL, as
   "NULL" itself does, it is right about a version and a column exactly when the version
   does not rely on such a default of a NOT NULL column.
   */
  lemma NullDefaultsExactly(nulls: iset<string>, services: Services, s: RolloutState, lv: LiveVersion, col: ColumnRef)
    requires !s.schemaState.indeterminate && lv in s.live && KeyOf(lv) in services
    ensures (IsViolation(CheckNotNull, services, s, Violation(s.id, lv, col, None)) <==>
             RefusedGiven(nulls, s.schemaState.schema, services[KeyOf(lv)], col)) <==>
            !ReliesOnNull(nulls, s.schemaState.schema, services[KeyOf(lv)], col)
  {
    hide IsViolation;
    NotNullAt(services, s, lv, col);
    var svc := services[KeyOf(lv)];
    SomeInsertIs(svc, col.table);
    var row := SomeInsert(svc, col.table);
    assert col == ColumnRef(col.table, col.column);
    assert IsInsertOf(svc, col.table, row);
  }

  // ---- what operations do to the rows of old writers ----

  /**
   After an operation, a row that does not give the operation's column is refused there
   exactly when the operation left the column NOT NULL and without a default.
   */
  lemma OperationAndRow(s: Schema, op: MigrationOp, row: Row)
    requires WellFormed(s) && Apply(s, op).Ok? && op.column !in row
    ensures RefusesAt(Apply(s, op).value, op.TargetColumn(), row) <==>
            match op.kind
            case OpAddColumn => !op.nullable && op.default.None?
            case OpSetNotNull => Lookup(s, op.TargetColumn()).value.default.None?
            case OpAlterColumnType => RefusesAt(s, op.TargetColumn(), row)
            case _ => false
    ensures op.kind == OpRenameColumn && op.newColumn !in row ==>
      (RefusesAt(Apply(s, op).value, op.RenamedColumn(), row) <==> RefusesAt(s, op.TargetColumn(), row))
  {
    ApplyEffect(s, op);
  }

  /** Other columns treat rows as before. */
  lemma OperationElsewhere(s: Schema, op: MigrationOp, col: ColumnRef, row: Row)
    requires WellFormed(s) && Apply(s, op).Ok?
    requires col != op.TargetColumn() && (op.kind == OpRenameColumn ==> col != op.RenamedColumn())
    ensures RefusesAt(Apply(s, op).value, col, row) <==> RefusesAt(s, col, row)
  {
    ApplyEffect(s, op);
  }

  /**
   A column added NOT NULL without a default, or made NOT NULL while it has none, refuses
   every writer of the table that omits it; a column added with a default, or allowed NULL
   again, refuses none.
   */
  lemma OmittingWriters(s: Schema, op: MigrationOp, svc: Service)
    requires WellFormed(s) && Apply(s, op).Ok?
    requires WritesInto(svc, op.table) && op.TargetColumn() !in svc.schemaWrites
    ensures Refused(Apply(s, op).value, svc, op.TargetColumn()) <==>
            match op.kind
            case OpAddColumn => !op.nullable && op.default.None?
            case OpSetNotNull => Lookup(s, op.TargetColumn()).value.default.None?
            case OpAlterColumnType => Refused(s, svc, op.TargetColumn())
            case _ => false
  {
    hide RefusesAt;
    SomeInsertIs(svc, op.table);
    var row := SomeInsert(svc, op.table);
    forall other | IsInsertOf(svc, op.table, other)
      ensures RefusesAt(Apply(s, op).value, op.TargetColumn(), other) <==> RefusesAt(Apply(s, op).value, op.TargetColumn(), row)
      ensures RefusesAt(s, op.TargetColumn(), other) <==> RefusesAt(s, op.TargetColumn(), row)
    {
      InsertsAlike(Apply(s, op).value, svc, op.TargetColumn(), other, row);
      InsertsAlike(s, svc, op.TargetColumn(), other, row);
    }
    assert op.TargetColumn() == ColumnRef(op.table, op.column);
    OperationAndRow(s, op, row);
  }
}
