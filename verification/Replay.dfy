/**
 Committing migrations (internal/graph/graph.go, applyOne and its callers).
 A schema state carries the replayed trail; this module ties that trail to a
 plain fold of Apply from the base schema.
 */
module Replay {
  import opened Wrappers
  import opened Schemas
  import opened Rollout

  /** One operation of a migration, tagged with the migration's ID. */
  datatype TaggedOp = TaggedOp(id: string, op: MigrationOp)

  function TypeOf(s: Schema, ref: ColumnRef): string {
    match Lookup(s, ref)
    case Some(c) => c.typ
    case None => ""
  }

  /** The state after one more operation: the body of the commit loop. */
  function CommitOp(ss: SchemaState, t: TaggedOp): SchemaState {
    var prior :=
      if t.op.kind == OpAlterColumnType && !ss.indeterminate then TypeOf(ss.schema, t.op.TargetColumn()) else "";
    var trail := ss.committedOps + [CommittedOp(t.id, t.op, prior)];
    if ss.indeterminate then
      ss.(committedOps := trail)
    else
      match Apply(ss.schema, t.op)
      case Ok(next) => SchemaState(next, trail, false)
      case Err(_) => SchemaState(ss.schema, trail, true)
  }

  function Commit(ss: SchemaState, ops: seq<TaggedOp>): SchemaState {
    if ops == [] then ss else CommitOp(Commit(ss, ops[..|ops| - 1]), ops[|ops| - 1])
  }

  function Tagged(m: Migration): seq<TaggedOp> {
    seq(|m.operations|, i requires 0 <= i < |m.operations| => TaggedOp(m.id, m.operations[i]))
  }

  /** The operations of several migrations, in commit order. */
  function Trail(ms: seq<Migration>): seq<TaggedOp> {
    if ms == [] then [] else Trail(ms[..|ms| - 1]) + Tagged(ms[|ms| - 1])
  }

  /** The migrations a commit vector selects, in list order. */
  function Select(ms: seq<Migration>, bits: seq<bool>): seq<Migration>
    requires |bits| == |ms|
  {
    if ms == [] then
      []
    else
      var n := |ms| - 1;
      Select(ms[..n], bits[..n]) + (if bits[n] then [ms[n]] else [])
  }

  lemma {:induction false} CommitAppend(ss: SchemaState, a: seq<TaggedOp>, b: seq<TaggedOp>)
    ensures Commit(ss, a + b) == Commit(Commit(ss, a), b)
    decreases |b|
  {
    hide CommitOp;
    if b == [] {
      assert a + b == a;
    } else {
      var n := |b| - 1;
      CommitAppend(ss, a, b[..n]);
      assert (a + b)[..|a + b| - 1] == a + b[..n];
    }
  }

  lemma {:induction false} TrailAppend(a: seq<Migration>, b: seq<Migration>)
    ensures Trail(a + b) == Trail(a) + Trail(b)
    decreases |b|
  {
    hide Tagged;
    if b == [] {
      assert a + b == a;
    } else {
      var n := |b| - 1;
      TrailAppend(a, b[..n]);
      assert (a + b)[..|a + b| - 1] == a + b[..n];
      assert (a + b)[|a + b| - 1] == b[n];
      assert Trail(a + b) == Trail(a + b[..n]) + Tagged(b[n]);
    }
  }

  lemma TrailSingle(m: Migration)
    ensures Trail([m]) == Tagged(m)
  {
    assert [m][..0] == [];
  }

  lemma CommitMigration(ss: SchemaState, ms: seq<Migration>, m: Migration)
    ensures Commit(ss, Trail(ms + [m])) == Commit(Commit(ss, Trail(ms)), Tagged(m))
  {
    TrailAppend(ms, [m]);
    TrailSingle(m);
    CommitAppend(ss, Trail(ms), Tagged(m));
  }

  method ApplyOne(ss: SchemaState, m: Migration) returns (r: SchemaState)
    ensures r == Commit(ss, Tagged(m))
  {
    var schema, trail, indeterminate := ss.schema, ss.committedOps, ss.indeterminate;
    ghost var ops := Tagged(m);
    for i := 0 to |m.operations|
      invariant SchemaState(schema, trail, indeterminate) == Commit(ss, ops[..i])
    {
      assert ops[..i + 1][..i] == ops[..i];
      var op := m.operations[i];
      var cop := CommittedOp(m.id, op, "");
      if op.kind == OpAlterColumnType && !indeterminate {
        if op.table in schema.tables && op.column in schema.tables[op.table].columns {
          cop := cop.(priorType := schema.tables[op.table].columns[op.column].typ);
        }
      }
      trail := trail + [cop];
      if !indeterminate {
        match Apply(schema, op)
        case Ok(next) => schema := next;
        case Err(_) => indeterminate := true;
      }
    }
    assert ops[..|m.operations|] == ops;
    return SchemaState(schema, trail, indeterminate);
  }

  method ApplyAll(schema: Schema, committed: seq<CommittedOp>, ms: seq<Migration>) returns (r: SchemaState)
    ensures r == Commit(SchemaState(schema, committed, false), Trail(ms))
  {
    r := SchemaState(schema, committed, false);
    for i := 0 to |ms|
      invariant r == Commit(SchemaState(schema, committed, false), Trail(ms[..i]))
    {
      CommitMigration(SchemaState(schema, committed, false), ms[..i], ms[i]);
      assert ms[..i + 1] == ms[..i] + [ms[i]];
      r := ApplyOne(r, ms[i]);
    }
    assert ms[..|ms|] == ms;
  }

  // ---- the trail is a fold of Apply ----

  function OpsOf(ops: seq<TaggedOp>): seq<MigrationOp> {
    seq(|ops|, i requires 0 <= i < |ops| => ops[i].op)
  }

  function OpsIn(trail: seq<CommittedOp>): seq<MigrationOp> {
    seq(|trail|, i requires 0 <= i < |trail| => trail[i].op)
  }

  /** How many operations apply before the first one that fails. */
  function LongestPrefix(s: Schema, ops: seq<MigrationOp>): nat
    decreases |ops|
  {
    if ops == [] then
      0
    else
      match Apply(s, ops[0])
      case Ok(s') => 1 + LongestPrefix(s', ops[1..])
      case Err(_) => 0
  }

  /** LongestPrefix separates the successful prefixes from the failing ones. */
  lemma {:induction false} LongestPrefixIsLongest(s: Schema, ops: seq<MigrationOp>)
    ensures LongestPrefix(s, ops) <= |ops|
    ensures forall k :: 0 <= k <= |ops| ==> (FoldApply(s, ops[..k]).Ok? <==> k <= LongestPrefix(s, ops))
    decreases |ops|
  {
    if ops != [] && Apply(s, ops[0]).Ok? {
      var s' := Apply(s, ops[0]).value;
      LongestPrefixIsLongest(s', ops[1..]);
      forall k | 0 < k <= |ops|
        ensures FoldApply(s, ops[..k]).Ok? <==> k <= LongestPrefix(s, ops)
      {
        assert ops[..k][0] == ops[0] && ops[..k][1..] == ops[1..][..k - 1];
      }
    }
  }

  function TypeBefore(base: Schema, ops: seq<MigrationOp>, j: nat): string
    requires j < |ops|
  {
    if ops[j].kind == OpAlterColumnType && FoldApply(base, ops[..j]).Ok? then
      TypeOf(FoldApply(base, ops[..j]).value, ops[j].TargetColumn())
    else
      ""
  }

  /**
   What a schema state claims: its schema is the longest successful prefix of its
   trail applied to base, it is indeterminate exactly when some operation of the
   trail fails, and every recorded prior type is the type just before.
   */
  ghost predicate TrailAgrees(base: Schema, ss: SchemaState) {
    var ops := OpsIn(ss.committedOps);
    && LongestPrefix(base, ops) <= |ops|
    && FoldApply(base, ops[..LongestPrefix(base, ops)]) == Ok(ss.schema)
    && (ss.indeterminate <==> FoldApply(base, ops).Err?)
    && forall j :: 0 <= j < |ops| ==> ss.committedOps[j].priorType == TypeBefore(base, ops, j)
  }

  lemma CommitOpKeepsTrail(base: Schema, ss: SchemaState, t: TaggedOp)
    requires TrailAgrees(base, ss)
    ensures TrailAgrees(base, CommitOp(ss, t))
  {
    hide FoldApply, LongestPrefix, Apply;
    var ops := OpsIn(ss.committedOps);
    var next := CommitOp(ss, t);
    var ops' := OpsIn(next.committedOps);
    assert ops' == ops + [t.op];
    LongestPrefixIsLongest(base, ops);
    LongestPrefixIsLongest(base, ops');
    assert ops[..|ops|] == ops && ops'[..|ops'|] == ops';
    FoldApplySnoc(base, ops, t.op);
    var n, n' := LongestPrefix(base, ops), LongestPrefix(base, ops');
    assert forall k {:trigger ops'[..k]} :: 0 <= k <= |ops| ==> ops'[..k] == ops[..k];
    if !ss.indeterminate && Apply(ss.schema, t.op).Ok? {
      assert n' == |ops'|;
    } else {
      assert FoldApply(base, ops'[..n']).Ok?;
      assert n' <= |ops|;
      assert ops'[..n'] == ops[..n'] && ops'[..n] == ops[..n];
      assert n' == n;
    }
    forall j | 0 <= j < |ops'| ensures next.committedOps[j].priorType == TypeBefore(base, ops', j) {
      assert ops'[..j] == ops[..j];
    }
  }

  /** The trail of every state reached by committing operations agrees with the fold. */
  lemma {:induction false} CommitKeepsTrail(base: Schema, ss: SchemaState, ops: seq<TaggedOp>)
    requires TrailAgrees(base, ss)
    ensures TrailAgrees(base, Commit(ss, ops))
    decreases |ops|
  {
    if ops != [] {
      CommitKeepsTrail(base, ss, ops[..|ops| - 1]);
      CommitOpKeepsTrail(base, Commit(ss, ops[..|ops| - 1]), ops[|ops| - 1]);
    }
  }

  lemma EmptyTrailAgrees(base: Schema)
    ensures TrailAgrees(base, SchemaState(base, [], false))
  {
  }

  /** A committed state is determinate exactly when the fold succeeds, and then holds its result. */
  lemma {:induction false} CommitIsFold(ss: SchemaState, ops: seq<TaggedOp>)
    ensures Commit(ss, ops).indeterminate <==> ss.indeterminate || FoldApply(ss.schema, OpsOf(ops)).Err?
    ensures !Commit(ss, ops).indeterminate ==> FoldApply(ss.schema, OpsOf(ops)) == Ok(Commit(ss, ops).schema)
    decreases |ops|
  {
    if ops != [] {
      var n := |ops| - 1;
      CommitIsFold(ss, ops[..n]);
      assert OpsOf(ops) == OpsOf(ops[..n]) + [ops[n].op];
      FoldApplySnoc(ss.schema, OpsOf(ops[..n]), ops[n].op);
    }
  }

  function Tags(trail: seq<CommittedOp>): seq<TaggedOp> {
    seq(|trail|, i requires 0 <= i < |trail| => TaggedOp(trail[i].migrationID, trail[i].op))
  }

  /** The trail grows by exactly the committed operations, whether or not they apply. */
  lemma {:induction false} CommitGrowsTrail(ss: SchemaState, ops: seq<TaggedOp>)
    ensures Tags(Commit(ss, ops).committedOps) == Tags(ss.committedOps) + ops
    decreases |ops|
  {
    if ops != [] {
      var n := |ops| - 1;
      CommitGrowsTrail(ss, ops[..n]);
      var mid := Commit(ss, ops[..n]);
      var last := CommitOp(mid, ops[n]).committedOps;
      assert last[..|mid.committedOps|] == mid.committedOps;
      assert Tags(last) == Tags(mid.committedOps) + [ops[n]];
      assert ops == ops[..n] + [ops[n]];
    }
  }

  // ---- who removed a column (internal/invariant/rpdb.go, findRemovingOp) ----

  predicate Removes(op: MigrationOp, col: ColumnRef) {
    (op.kind == OpDropColumn || op.kind == OpRenameColumn) && op.TargetColumn() == col
  }

  /** The position of the last operation that drops col or renames it away. */
  function LastRemoval(trail: seq<CommittedOp>, col: ColumnRef): (r: Option<nat>)
    ensures r.Some? ==>
      && r.value < |trail|
      && Removes(trail[r.value].op, col)
      && forall j :: r.value < j < |trail| ==> !Removes(trail[j].op, col)
    ensures r.None? ==> forall j :: 0 <= j < |trail| ==> !Removes(trail[j].op, col)
  {
    if trail == [] then
      None
    else if Removes(trail[|trail| - 1].op, col) then
      Some(|trail| - 1)
    else
      LastRemoval(trail[..|trail| - 1], col)
  }

  method FindRemovingOp(committed: seq<CommittedOp>, col: ColumnRef) returns (op: Option<CommittedOp>)
    ensures match LastRemoval(committed, col)
            case Some(j) => op == Some(committed[j])
            case None => op == None
  {
    var i := |committed| - 1;
    while i >= 0
      invariant -1 <= i < |committed|
      invariant forall j :: i < j < |committed| ==> !Removes(committed[j].op, col)
    {
      var cop := committed[i];
      if cop.op.table == col.table && (cop.op.kind == OpDropColumn || cop.op.kind == OpRenameColumn)
         && cop.op.column == col.column
      {
        return Some(cop);
      }
      i := i - 1;
    }
    return None;
  }

  /** Whether col exists after the first k operations of a trail that never fails. */
  ghost predicate ExistsAfter(base: Schema, ops: seq<MigrationOp>, k: nat, col: ColumnRef)
    requires k <= |ops| && FoldApply(base, ops).Ok?
  {
    FoldApplyPrefix(base, ops, k);
    HasColumn(FoldApply(base, ops[..k]).value, col)
  }

  lemma ExistsAfterStep(base: Schema, ops: seq<MigrationOp>, k: nat, col: ColumnRef)
    requires WellFormed(base) && FoldApply(base, ops).Ok? && k < |ops|
    ensures ExistsAfter(base, ops, k, col) && !Removes(ops[k], col) ==> ExistsAfter(base, ops, k + 1, col)
    ensures Removes(ops[k], col) ==> ExistsAfter(base, ops, k, col)
  {
    FoldApplyPrefix(base, ops, k);
    FoldApplyPrefix(base, ops, k + 1);
    assert ops[..k + 1] == ops[..k] + [ops[k]];
    FoldApplySnoc(base, ops[..k], ops[k]);
    FoldApplyWellFormed(base, ops[..k]);
    ApplyEffect(FoldApply(base, ops[..k]).value, ops[k]);
  }

  lemma {:induction false} AbsentBackTo(base: Schema, ops: seq<MigrationOp>, k: nat, col: ColumnRef)
    requires WellFormed(base) && FoldApply(base, ops).Ok? && k <= |ops|
    requires !ExistsAfter(base, ops, |ops|, col)
    requires forall j :: k <= j < |ops| ==> !Removes(ops[j], col)
    ensures forall i :: k <= i <= |ops| ==> !ExistsAfter(base, ops, i, col)
    decreases |ops| - k
  {
    if k < |ops| {
      AbsentBackTo(base, ops, k + 1, col);
      ExistsAfterStep(base, ops, k, col);
    }
  }

  /**
   For a column absent in a determinate state, the operation found is the one just
   before which the column existed and after which it never did again; finding
   none means it existed at no point from the base schema on.
   */
  lemma RemovalProvenance(base: Schema, ss: SchemaState, col: ColumnRef)
    requires WellFormed(base) && TrailAgrees(base, ss) && !ss.indeterminate
    requires !HasColumn(ss.schema, col)
    ensures match LastRemoval(ss.committedOps, col)
            case Some(j) =>
              && ExistsAfter(base, OpsIn(ss.committedOps), j, col)
              && forall k :: j < k <= |ss.committedOps| ==> !ExistsAfter(base, OpsIn(ss.committedOps), k, col)
            case None =>
              forall k :: 0 <= k <= |ss.committedOps| ==> !ExistsAfter(base, OpsIn(ss.committedOps), k, col)
  {
    hide LongestPrefix, FoldApply, Removes;
    var ops := OpsIn(ss.committedOps);
    LongestPrefixIsLongest(base, ops);
    assert ops[..|ops|] == ops;
    match LastRemoval(ss.committedOps, col)
    case Some(j) =>
      AbsentBackTo(base, ops, j + 1, col);
      ExistsAfterStep(base, ops, j, col);
    case None =>
      AbsentBackTo(base, ops, 0, col);
  }
}
