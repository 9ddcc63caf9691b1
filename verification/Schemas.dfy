/**
 Schemas and migration operations (internal/ir/schema.go, migration.go).
 A schema is an immutable value; Apply is a partial step function on it.
 */
module Schemas {
  import opened Wrappers

  datatype ColumnRef = ColumnRef(table: string, column: string)

  datatype Column = Column(name: string, typ: string, nullable: bool, default: Option<string>)

  datatype Table = Table(name: string, columns: map<string, Column>)

  datatype Schema = Schema(tables: map<string, Table>)

  datatype OpKind =
    | OpUnclassified
    | OpAddColumn
    | OpDropColumn
    | OpRenameColumn
    | OpAlterColumnType
    | OpSetNotNull
    | OpDropNotNull

  datatype Destructiveness =
    | DestructivenessUnknown
    | NonDestructive
    | ConditionallyDestructive
    | Destructive

  datatype Reversibility =
    | ReversibilityUnknown
    | Reversible
    | ConditionallyReversible
    | Irreversible

  datatype MigrationOp = MigrationOp(
    kind: OpKind,
    table: string,
    column: string,
    newColumn: string,
    newType: string,
    nullable: bool,
    default: Option<string>,
    destructiveness: Destructiveness,
    reversibility: Reversibility
  ) {
    /** The column an operation concerns: the source column of a rename. */
    function TargetColumn(): ColumnRef {
      ColumnRef(table, column)
    }

    function RenamedColumn(): ColumnRef {
      ColumnRef(table, newColumn)
    }
  }

  datatype SchemaError =
    | EmptyName
    | DuplicateName
    | UnknownTable
    | UnknownColumn
    | ColumnExists
    | UnclassifiedOperation

  ghost predicate WellFormedTable(t: Table) {
    forall c :: c in t.columns ==> t.columns[c].name == c
  }

  /** The keys are their entries' names, in schemas and in their tables. */
  ghost predicate WellFormed(s: Schema) {
    forall t :: t in s.tables ==> s.tables[t].name == t && WellFormedTable(s.tables[t])
  }

  method NewTable(name: string, columns: seq<Column>) returns (r: Result<Table, SchemaError>)
    ensures r.Ok? <==>
      && name != ""
      && (forall i :: 0 <= i < |columns| ==> columns[i].name != "")
      && (forall i, j :: 0 <= i < j < |columns| ==> columns[i].name != columns[j].name)
    ensures r.Ok? ==> r.value.name == name && WellFormedTable(r.value)
    ensures r.Ok? ==> forall c ::
      c in r.value.columns <==> exists i :: 0 <= i < |columns| && columns[i].name == c
    ensures r.Ok? ==> forall i ::
      0 <= i < |columns| ==> columns[i].name in r.value.columns && r.value.columns[columns[i].name] == columns[i]
  {
    if name == "" {
      return Err(EmptyName);
    }
    var m: map<string, Column> := map[];
    for k := 0 to |columns|
      invariant forall i :: 0 <= i < k ==> columns[i].name != "" && columns[i].name in m && m[columns[i].name] == columns[i]
      invariant forall i, j :: 0 <= i < j < k ==> columns[i].name != columns[j].name
      invariant forall c :: c in m ==> exists i :: 0 <= i < k && columns[i].name == c
    {
      if columns[k].name == "" {
        return Err(EmptyName);
      }
      if columns[k].name in m {
        return Err(DuplicateName);
      }
      m := m[columns[k].name := columns[k]];
    }
    return Ok(Table(name, m));
  }

  method NewSchema(tables: seq<Table>) returns (r: Result<Schema, SchemaError>)
    ensures r.Ok? <==>
      && (forall i :: 0 <= i < |tables| ==> tables[i].name != "")
      && (forall i, j :: 0 <= i < j < |tables| ==> tables[i].name != tables[j].name)
    ensures r.Ok? ==> forall t ::
      t in r.value.tables <==> exists i :: 0 <= i < |tables| && tables[i].name == t
    ensures r.Ok? ==> forall i ::
      0 <= i < |tables| ==> tables[i].name in r.value.tables && r.value.tables[tables[i].name] == tables[i]
    ensures r.Ok? && (forall i :: 0 <= i < |tables| ==> WellFormedTable(tables[i])) ==> WellFormed(r.value)
  {
    var m: map<string, Table> := map[];
    for k := 0 to |tables|
      invariant forall i :: 0 <= i < k ==> tables[i].name != "" && tables[i].name in m && m[tables[i].name] == tables[i]
      invariant forall i, j :: 0 <= i < j < k ==> tables[i].name != tables[j].name
      invariant forall t :: t in m ==> exists i :: 0 <= i < k && tables[i].name == t
    {
      if tables[k].name == "" {
        return Err(EmptyName);
      }
      if tables[k].name in m {
        return Err(DuplicateName);
      }
      m := m[tables[k].name := tables[k]];
    }
    return Ok(Schema(m));
  }

  function Lookup(s: Schema, ref: ColumnRef): Option<Column> {
    if ref.table in s.tables && ref.column in s.tables[ref.table].columns then
      Some(s.tables[ref.table].columns[ref.column])
    else
      None
  }

  predicate HasColumn(s: Schema, ref: ColumnRef) {
    Lookup(s, ref).Some?
  }

  function WithTable(s: Schema, t: Table): Schema {
    Schema(s.tables[t.name := t])
  }

  function WithColumn(t: Table, c: Column): Table {
    t.(columns := t.columns[c.name := c])
  }

  function WithoutColumn(t: Table, name: string): Table {
    t.(columns := t.columns - {name})
  }

  function Apply(s: Schema, op: MigrationOp): Result<Schema, SchemaError> {
    match op.kind
    case OpAddColumn =>
      var t := if op.table in s.tables then s.tables[op.table] else Table(op.table, map[]);
      if op.column in t.columns then
        Err(ColumnExists)
      else
        Ok(WithTable(s, WithColumn(t, Column(op.column, op.newType, op.nullable, op.default))))
    case OpDropColumn =>
      if op.table !in s.tables || op.column !in s.tables[op.table].columns then
        Err(UnknownColumn)
      else
        Ok(WithTable(s, WithoutColumn(s.tables[op.table], op.column)))
    case OpRenameColumn =>
      if op.table !in s.tables then
        Err(UnknownTable)
      else
        var t := s.tables[op.table];
        if op.column !in t.columns then
          Err(UnknownColumn)
        else if op.newColumn in t.columns then
          Err(ColumnExists)
        else
          var col := t.columns[op.column];
          Ok(WithTable(s, WithColumn(WithoutColumn(t, op.column), col.(name := op.newColumn))))
    case OpAlterColumnType => ApplyToColumn(s, op, (c: Column) => c.(typ := op.newType))
    case OpSetNotNull => ApplyToColumn(s, op, (c: Column) => c.(nullable := false))
    case OpDropNotNull => ApplyToColumn(s, op, (c: Column) => c.(nullable := true))
    case OpUnclassified => Err(UnclassifiedOperation)
  }

  function ApplyToColumn(s: Schema, op: MigrationOp, f: Column -> Column): Result<Schema, SchemaError> {
    if op.table !in s.tables then
      Err(UnknownTable)
    else if op.column !in s.tables[op.table].columns then
      Err(UnknownColumn)
    else
      Ok(WithTable(s, WithColumn(s.tables[op.table], f(s.tables[op.table].columns[op.column]))))
  }

  // ---- the effect of one operation, column by column ----

  /** When an operation applies: a condition on its own columns alone. */
  predicate Applicable(s: Schema, op: MigrationOp) {
    match op.kind
    case OpUnclassified => false
    case OpAddColumn => !HasColumn(s, op.TargetColumn())
    case OpRenameColumn => HasColumn(s, op.TargetColumn()) && !HasColumn(s, op.RenamedColumn())
    case _ => HasColumn(s, op.TargetColumn())
  }

  /** The definition of column ref once op has been applied. */
  function Effect(s: Schema, op: MigrationOp, ref: ColumnRef): Option<Column>
    requires Applicable(s, op)
  {
    var prior := Lookup(s, op.TargetColumn());
    if ref == op.TargetColumn() then
      match op.kind
      case OpAddColumn => Some(Column(op.column, op.newType, op.nullable, op.default))
      case OpDropColumn => None
      case OpRenameColumn => None
      case OpAlterColumnType => Some(prior.value.(typ := op.newType))
      case OpSetNotNull => Some(prior.value.(nullable := false))
      case _ => Some(prior.value.(nullable := true))
    else if op.kind == OpRenameColumn && ref == op.RenamedColumn() then
      Some(prior.value.(name := op.newColumn))
    else
      Lookup(s, ref)
  }

  /** Apply on nested tables is exactly the column-by-column effect. */
  lemma ApplyEffect(s: Schema, op: MigrationOp)
    requires WellFormed(s)
    ensures Apply(s, op).Ok? <==> Applicable(s, op)
    ensures Apply(s, op).Ok? ==> WellFormed(Apply(s, op).value)
    ensures Apply(s, op).Ok? ==> Apply(s, op).value.tables.Keys == s.tables.Keys + {op.table}
    ensures Apply(s, op).Ok? ==> forall ref :: Lookup(Apply(s, op).value, ref) == Effect(s, op, ref)
  {
    if Apply(s, op).Ok? {
      forall ref ensures Lookup(Apply(s, op).value, ref) == Effect(s, op, ref) {
        ApplyEffectAt(s, op, ref);
      }
    }
  }

  lemma ApplyEffectAt(s: Schema, op: MigrationOp, ref: ColumnRef)
    requires WellFormed(s) && Apply(s, op).Ok?
    ensures Applicable(s, op) && Lookup(Apply(s, op).value, ref) == Effect(s, op, ref)
  {
  }

  /** A well-formed schema is determined by its tables and its columns. */
  lemma SchemaExtensionality(s: Schema, t: Schema)
    requires s.tables.Keys == t.tables.Keys
    requires WellFormed(s) && WellFormed(t)
    requires forall ref :: Lookup(s, ref) == Lookup(t, ref)
    ensures s == t
  {
    forall name | name in s.tables ensures s.tables[name] == t.tables[name] {
      forall c ensures c in s.tables[name].columns <==> c in t.tables[name].columns {
        assert Lookup(s, ColumnRef(name, c)) == Lookup(t, ColumnRef(name, c));
      }
      forall c | c in s.tables[name].columns
        ensures s.tables[name].columns[c] == t.tables[name].columns[c]
      {
        assert Lookup(s, ColumnRef(name, c)) == Lookup(t, ColumnRef(name, c));
      }
      assert s.tables[name].columns == t.tables[name].columns;
    }
    assert s.tables == t.tables;
  }

  // ---- plain folds of Apply ----

  /** The reference meaning of a list of operations: apply each in turn, or fail. */
  function FoldApply(s: Schema, ops: seq<MigrationOp>): Result<Schema, SchemaError>
    decreases |ops|
  {
    if ops == [] then
      Ok(s)
    else
      match Apply(s, ops[0])
      case Ok(s') => FoldApply(s', ops[1..])
      case Err(e) => Err(e)
  }

  lemma {:induction false} FoldApplyAppend(s: Schema, a: seq<MigrationOp>, b: seq<MigrationOp>)
    ensures FoldApply(s, a).Ok? ==> FoldApply(s, a + b) == FoldApply(FoldApply(s, a).value, b)
    ensures FoldApply(s, a).Err? ==> FoldApply(s, a + b) == FoldApply(s, a)
    decreases |a|
  {
    if a == [] {
      assert a + b == b;
    } else {
      assert (a + b)[0] == a[0] && (a + b)[1..] == a[1..] + b;
      match Apply(s, a[0])
      case Ok(s') => FoldApplyAppend(s', a[1..], b);
      case Err(_) =>
    }
  }

  lemma FoldApplySnoc(s: Schema, a: seq<MigrationOp>, op: MigrationOp)
    ensures FoldApply(s, a).Ok? ==> FoldApply(s, a + [op]) == Apply(FoldApply(s, a).value, op)
    ensures FoldApply(s, a).Err? ==> FoldApply(s, a + [op]).Err?
  {
    FoldApplyAppend(s, a, [op]);
    if FoldApply(s, a).Ok? {
      var m := FoldApply(s, a).value;
      assert [op][1..] == [];
      assert FoldApply(m, [op]) == Apply(m, op) by {
        match Apply(m, op)
        case Ok(s') => assert FoldApply(s', []) == Ok(s');
        case Err(_) =>
      }
    }
  }

  /** A prefix of a successful run is successful. */
  lemma FoldApplyPrefix(s: Schema, ops: seq<MigrationOp>, n: nat)
    requires n <= |ops|
    ensures FoldApply(s, ops).Ok? ==> FoldApply(s, ops[..n]).Ok?
  {
    FoldApplyAppend(s, ops[..n], ops[n..]);
    assert ops[..n] + ops[n..] == ops;
  }

  lemma {:induction false} FoldApplyWellFormed(s: Schema, ops: seq<MigrationOp>)
    requires WellFormed(s)
    ensures FoldApply(s, ops).Ok? ==> WellFormed(FoldApply(s, ops).value)
    decreases |ops|
  {
    if ops != [] {
      ApplyEffect(s, ops[0]);
      if Apply(s, ops[0]).Ok? {
        FoldApplyWellFormed(Apply(s, ops[0]).value, ops[1..]);
      }
    }
  }
}
