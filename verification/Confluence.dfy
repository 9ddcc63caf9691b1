/**
 During-rollout migrations are replayed in list order at every node, whatever order
 they really committed in. When they touch disjoint columns the order is immaterial,
 so each edge of the hypercube really applies its own migration; otherwise not.
 */
module Confluence {
  import opened Wrappers
  import opened Schemas
  import opened Rollout
  import opened Replay
  import opened Machines
  import opened Graphs
  import opened Trails

  /** An operation's columns: both names of a rename, and none for a statement the parser does not know. */
  predicate Touches(op: MigrationOp, ref: ColumnRef) {
    && op.kind != OpUnclassified
    && (ref == op.TargetColumn() || (op.kind == OpRenameColumn && ref == op.RenamedColumn()))
  }

  predicate TouchedBy(ops: seq<MigrationOp>, ref: ColumnRef) {
    exists i :: 0 <= i < |ops| && Touches(ops[i], ref)
  }

  function TablesOf(ops: seq<MigrationOp>): set<string> {
    set i | 0 <= i < |ops| :: ops[i].table
  }

  /** No two migrations of the list touch the same column, counting both names of a rename. */
  ghost predicate Independent(ms: seq<Migration>) {
    forall i, j, ref :: 0 <= i < j < |ms| ==> !(TouchedBy(ms[i].operations, ref) && TouchedBy(ms[j].operations, ref))
  }

  /** The same flag, and the same schema when it is known. */
  predicate SameOutcome(a: SchemaState, b: SchemaState) {
    && a.indeterminate == b.indeterminate
    && (!a.indeterminate ==> a.schema == b.schema)
  }

  // ---- operations only depend on, and only change, the columns they touch ----

  ghost predicate AgreeOn(s: Schema, t: Schema, ops: seq<MigrationOp>) {
    forall ref :: TouchedBy(ops, ref) ==> Lookup(s, ref) == Lookup(t, ref)
  }

  /** Wherever s and t agree, so do s' and t'. */
  ghost predicate KeepsAgreement(s: Schema, t: Schema, s': Schema, t': Schema) {
    forall ref :: Lookup(s, ref) == Lookup(t, ref) ==> Lookup(s', ref) == Lookup(t', ref)
  }

  lemma ApplyLocal(s: Schema, t: Schema, op: MigrationOp)
    requires WellFormed(s) && WellFormed(t)
    requires forall ref :: Touches(op, ref) ==> Lookup(s, ref) == Lookup(t, ref)
    ensures Apply(s, op).Ok? <==> Apply(t, op).Ok?
    ensures Apply(s, op).Ok? ==> KeepsAgreement(s, t, Apply(s, op).value, Apply(t, op).value)
    ensures Apply(s, op).Ok? ==> WellFormed(Apply(s, op).value) && WellFormed(Apply(t, op).value)
  {
    hide Apply, Lookup, WellFormed;
    ApplyEffect(s, op);
    ApplyEffect(t, op);
    assert op.kind != OpUnclassified ==> Touches(op, op.TargetColumn());
    assert op.kind == OpRenameColumn ==> Touches(op, op.RenamedColumn());
  }

  lemma ApplyFrame(s: Schema, op: MigrationOp)
    requires WellFormed(s) && Apply(s, op).Ok?
    ensures WellFormed(Apply(s, op).value)
    ensures forall ref :: !Touches(op, ref) ==> Lookup(Apply(s, op).value, ref) == Lookup(s, ref)
    ensures Apply(s, op).value.tables.Keys == s.tables.Keys + {op.table}
  {
    hide Apply, Lookup, WellFormed;
    ApplyEffect(s, op);
  }

  lemma {:induction false} FoldLocal(s: Schema, t: Schema, ops: seq<MigrationOp>)
    requires WellFormed(s) && WellFormed(t) && AgreeOn(s, t, ops)
    ensures FoldApply(s, ops).Ok? <==> FoldApply(t, ops).Ok?
    ensures FoldApply(s, ops).Ok? ==> KeepsAgreement(s, t, FoldApply(s, ops).value, FoldApply(t, ops).value)
    decreases |ops|
  {
    hide Apply, Lookup, Touches, WellFormed;
    if ops != [] {
      assert forall ref :: Touches(ops[0], ref) ==> TouchedBy(ops, ref);
      ApplyLocal(s, t, ops[0]);
      if Apply(s, ops[0]).Ok? {
        var s', t' := Apply(s, ops[0]).value, Apply(t, ops[0]).value;
        forall ref | TouchedBy(ops[1..], ref) ensures Lookup(s', ref) == Lookup(t', ref) {
          TouchedByTail(ops, ref);
        }
        FoldLocal(s', t', ops[1..]);
      }
    }
  }

  lemma TouchedByTail(ops: seq<MigrationOp>, ref: ColumnRef)
    requires ops != []
    ensures TouchedBy(ops, ref) <==> Touches(ops[0], ref) || TouchedBy(ops[1..], ref)
  {
    hide Touches;
    if i :| 0 <= i < |ops[1..]| && Touches(ops[1..][i], ref) {
      assert Touches(ops[i + 1], ref);
    }
    if i :| 0 <= i < |ops| && Touches(ops[i], ref) {
      assert i == 0 || Touches(ops[1..][i - 1], ref);
    }
  }

  lemma {:induction false} FoldFrame(s: Schema, ops: seq<MigrationOp>)
    requires WellFormed(s) && FoldApply(s, ops).Ok?
    ensures forall ref :: !TouchedBy(ops, ref) ==> Lookup(FoldApply(s, ops).value, ref) == Lookup(s, ref)
    ensures FoldApply(s, ops).value.tables.Keys == s.tables.Keys + TablesOf(ops)
    decreases |ops|
  {
    hide Apply, Lookup, Touches, WellFormed, TouchedBy;
    if ops != [] {
      ApplyFrame(s, ops[0]);
      FoldFrame(Apply(s, ops[0]).value, ops[1..]);
      forall ref {
        TouchedByTail(ops, ref);
      }
      TablesOfTail(ops);
    }
  }

  lemma TablesOfTail(ops: seq<MigrationOp>)
    requires ops != []
    ensures TablesOf(ops) == {ops[0].table} + TablesOf(ops[1..])
  {
    forall t ensures t in TablesOf(ops) <==> t == ops[0].table || t in TablesOf(ops[1..]) {
      if i :| 0 <= i < |ops| && ops[i].table == t {
        assert i == 0 || ops[1..][i - 1].table == t;
      }
      if i :| 0 <= i < |ops[1..]| && ops[1..][i].table == t {
        assert ops[i + 1].table == t;
      }
    }
  }

  // ---- independent migrations act side by side ----

  /** What migration m alone makes of column ref. */
  function Alone(s: Schema, m: Migration, ref: ColumnRef): Option<Column> {
    match FoldApply(s, m.operations)
    case Ok(r) => Lookup(r, ref)
    case Err(_) => None
  }

  /** r is s with every migration of ms applied to its own columns. */
  ghost predicate SideBySide(s: Schema, ms: seq<Migration>, r: Schema) {
    && WellFormed(r)
    && (forall m, ref :: m in ms && TouchedBy(m.operations, ref) ==> Lookup(r, ref) == Alone(s, m, ref))
    && (forall ref :: (forall m :: m in ms ==> !TouchedBy(m.operations, ref)) ==> Lookup(r, ref) == Lookup(s, ref))
    && forall t :: t in r.tables <==> t in s.tables || exists m :: m in ms && t in TablesOf(m.operations)
  }

  function AllOps(ms: seq<Migration>): seq<MigrationOp> {
    OpsOf(Trail(ms))
  }

  lemma AllOpsSnoc(ms: seq<Migration>, m: Migration)
    ensures AllOps(ms + [m]) == AllOps(ms) + m.operations
  {
    hide Trail;
    TrailAppend(ms, [m]);
    TrailSingle(m);
  }

  ghost predicate AllApply(s: Schema, ms: seq<Migration>) {
    forall m :: m in ms ==> FoldApply(s, m.operations).Ok?
  }

  /** A list of independent migrations applies exactly when each alone does, each to its own columns. */
  lemma {:induction false} IndependentFold(s: Schema, ms: seq<Migration>)
    requires WellFormed(s) && Independent(ms)
    ensures FoldApply(s, AllOps(ms)).Ok? <==> AllApply(s, ms)
    ensures FoldApply(s, AllOps(ms)).Ok? ==> SideBySide(s, ms, FoldApply(s, AllOps(ms)).value)
    decreases |ms|
  {
    hide AllOps, FoldApply, WellFormed, SideBySide, TouchedBy;
    if ms == [] {
      NoMigrations(s);
    } else {
      var n := |ms| - 1;
      var init, m := ms[..n], ms[n];
      assert ms == init + [m];
      AllOpsSnoc(init, m);
      IndependentFold(s, init);
      FoldApplyAppend(s, AllOps(init), m.operations);
      if FoldApply(s, AllOps(init)).Ok? {
        AddMigration(s, init, m, FoldApply(s, AllOps(init)).value);
      }
    }
  }

  lemma NoMigrations(s: Schema)
    requires WellFormed(s)
    ensures FoldApply(s, AllOps([])).Ok? && SideBySide(s, [], FoldApply(s, AllOps([])).value)
  {
    assert AllOps([]) == [];
  }

  lemma AddMigration(s: Schema, ms: seq<Migration>, m: Migration, r: Schema)
    requires WellFormed(s) && Independent(ms + [m]) && SideBySide(s, ms, r)
    ensures FoldApply(r, m.operations).Ok? <==> FoldApply(s, m.operations).Ok?
    ensures FoldApply(r, m.operations).Ok? ==> SideBySide(s, ms + [m], FoldApply(r, m.operations).value)
  {
    hide Lookup, TouchedBy, FoldApply, WellFormed, Independent;
    forall ref | TouchedBy(m.operations, ref) ensures Lookup(r, ref) == Lookup(s, ref) {
      Untouched(ms, m, ref);
    }
    FoldLocal(r, s, m.operations);
    if FoldApply(r, m.operations).Ok? {
      JoinColumns(s, ms, m, r);
      JoinTables(s, ms, m, r);
      FoldApplyWellFormed(r, m.operations);
    }
  }

  lemma Untouched(ms: seq<Migration>, m: Migration, ref: ColumnRef)
    requires Independent(ms + [m]) && TouchedBy(m.operations, ref)
    ensures forall x :: x in ms ==> !TouchedBy(x.operations, ref)
  {
    hide TouchedBy;
    forall x | x in ms ensures !TouchedBy(x.operations, ref) {
      var i :| 0 <= i < |ms| && ms[i] == x;
      assert (ms + [m])[i] == x && (ms + [m])[|ms|] == m;
    }
  }

  lemma JoinColumns(s: Schema, ms: seq<Migration>, m: Migration, r: Schema)
    requires WellFormed(s) && Independent(ms + [m]) && SideBySide(s, ms, r)
    requires FoldApply(r, m.operations).Ok? && FoldApply(s, m.operations).Ok?
    requires KeepsAgreement(r, s, FoldApply(r, m.operations).value, FoldApply(s, m.operations).value)
    ensures var r' := FoldApply(r, m.operations).value;
            && (forall x, ref :: x in ms + [m] && TouchedBy(x.operations, ref) ==> Lookup(r', ref) == Alone(s, x, ref))
            && (forall ref :: (forall x :: x in ms + [m] ==> !TouchedBy(x.operations, ref)) ==> Lookup(r', ref) == Lookup(s, ref))
  {
    hide Lookup, TouchedBy, FoldApply, WellFormed, Independent;
    var r' := FoldApply(r, m.operations).value;
    FoldFrame(r, m.operations);
    forall x, ref | x in ms + [m] && TouchedBy(x.operations, ref) ensures Lookup(r', ref) == Alone(s, x, ref) {
      if TouchedBy(m.operations, ref) {
        Untouched(ms, m, ref);
        assert x == m;
      }
    }
    forall ref | forall x :: x in ms + [m] ==> !TouchedBy(x.operations, ref) ensures Lookup(r', ref) == Lookup(s, ref) {
      assert m in ms + [m];
      assert forall x :: x in ms ==> x in ms + [m];
    }
  }

  lemma JoinTables(s: Schema, ms: seq<Migration>, m: Migration, r: Schema)
    requires WellFormed(r) && FoldApply(r, m.operations).Ok?
    requires forall t :: t in r.tables <==> t in s.tables || exists x :: x in ms && t in TablesOf(x.operations)
    ensures forall t :: t in FoldApply(r, m.operations).value.tables <==>
      t in s.tables || exists x :: x in ms + [m] && t in TablesOf(x.operations)
  {
    hide Lookup, TouchedBy, FoldApply, WellFormed, TablesOf;
    FoldFrame(r, m.operations);
    var r' := FoldApply(r, m.operations).value;
    assert forall t :: t in r'.tables <==> t in r'.tables.Keys;
    assert forall t :: t in r.tables <==> t in r.tables.Keys;
    assert m in ms + [m] && forall x :: x in ms ==> x in ms + [m];
  }

  lemma SideBySideUnique(s: Schema, a: seq<Migration>, b: seq<Migration>, r: Schema, t: Schema)
    requires SideBySide(s, a, r) && SideBySide(s, b, t) && forall m :: m in a <==> m in b
    ensures r == t
  {
    hide Lookup, TouchedBy, WellFormed, TablesOf, Alone;
    forall ref ensures Lookup(r, ref) == Lookup(t, ref) {
      if m :| m in a && TouchedBy(m.operations, ref) {
        assert Lookup(r, ref) == Alone(s, m, ref) == Lookup(t, ref);
      }
    }
    assert r.tables.Keys == t.tables.Keys;
    SchemaExtensionality(r, t);
  }

  /** Two orders of the same independent migrations have the same outcome. */
  lemma OrderIsImmaterial(ss: SchemaState, a: seq<Migration>, b: seq<Migration>)
    requires WellFormed(ss.schema) && Independent(a) && Independent(b) && forall m :: m in a <==> m in b
    ensures SameOutcome(Commit(ss, Trail(a)), Commit(ss, Trail(b)))
  {
    hide FoldApply, Commit, Trail, Independent, SideBySide, WellFormed;
    IndependentFold(ss.schema, a);
    IndependentFold(ss.schema, b);
    CommitIsFold(ss, Trail(a));
    CommitIsFold(ss, Trail(b));
    if FoldApply(ss.schema, AllOps(a)).Ok? {
      SideBySideUnique(ss.schema, a, b, FoldApply(ss.schema, AllOps(a)).value, FoldApply(ss.schema, AllOps(b)).value);
    }
  }

  // ---- subsets in any order ----

  /** The migrations at the given positions, in the given order. */
  function Pick(ms: seq<Migration>, order: seq<nat>): seq<Migration>
    requires forall i :: 0 <= i < |order| ==> order[i] < |ms|
  {
    seq(|order|, i requires 0 <= i < |order| => ms[order[i]])
  }

  /** An order in which the migrations of a commit vector may have committed. */
  ghost predicate IsOrderOf(bits: seq<bool>, order: seq<nat>) {
    && Distinct(order)
    && (forall i :: 0 <= i < |order| ==> order[i] < |bits|)
    && forall k :: 0 <= k < |bits| ==> (bits[k] <==> k in order)
  }

  /** The migrations a commit vector selects are independent of each other. */
  ghost predicate IndependentAmong(ms: seq<Migration>, bits: seq<bool>)
    requires |bits| == |ms|
  {
    forall i, j, ref :: 0 <= i < j < |ms| && bits[i] && bits[j] ==>
      !(TouchedBy(ms[i].operations, ref) && TouchedBy(ms[j].operations, ref))
  }

  lemma PickIndependent(ms: seq<Migration>, bits: seq<bool>, order: seq<nat>)
    requires |bits| == |ms| && IndependentAmong(ms, bits) && IsOrderOf(bits, order)
    ensures Independent(Pick(ms, order))
  {
    hide TouchedBy;
    var picked := Pick(ms, order);
    forall i, j, ref | 0 <= i < j < |picked|
      ensures !(TouchedBy(picked[i].operations, ref) && TouchedBy(picked[j].operations, ref))
    {
      assert order[i] in order && order[j] in order;
      if order[i] < order[j] {
        assert !(TouchedBy(ms[order[i]].operations, ref) && TouchedBy(ms[order[j]].operations, ref));
      } else {
        assert !(TouchedBy(ms[order[j]].operations, ref) && TouchedBy(ms[order[i]].operations, ref));
      }
    }
  }

  /** Select is one of the orders: ascending positions. */
  lemma {:induction false} SelectIsPick(ms: seq<Migration>, bits: seq<bool>) returns (order: seq<nat>)
    requires |bits| == |ms|
    ensures IsOrderOf(bits, order) && Select(ms, bits) == Pick(ms, order)
    decreases |ms|
  {
    order := [];
    if ms != [] {
      var n := |ms| - 1;
      order := SelectIsPick(ms[..n], bits[..n]);
      assert Pick(ms[..n], order) == Pick(ms, order);
      assert forall k :: 0 <= k < n ==> bits[k] == bits[..n][k];
      if bits[n] {
        assert Pick(ms, order + [n]) == Pick(ms, order) + [ms[n]];
        order := order + [n];
      }
    }
  }

  lemma OrdersAgree(ss: SchemaState, ms: seq<Migration>, bits: seq<bool>, a: seq<nat>, b: seq<nat>)
    requires WellFormed(ss.schema) && |bits| == |ms| && IndependentAmong(ms, bits)
    requires IsOrderOf(bits, a) && IsOrderOf(bits, b)
    ensures SameOutcome(Commit(ss, Trail(Pick(ms, a))), Commit(ss, Trail(Pick(ms, b))))
  {
    hide Commit, Trail, Independent, IndependentAmong, WellFormed, SameOutcome;
    PickIndependent(ms, bits, a);
    PickIndependent(ms, bits, b);
    forall m ensures m in Pick(ms, a) <==> m in Pick(ms, b) {
      PickMember(ms, bits, a, m);
      PickMember(ms, bits, b, m);
    }
    OrderIsImmaterial(ss, Pick(ms, a), Pick(ms, b));
  }

  lemma PickMember(ms: seq<Migration>, bits: seq<bool>, order: seq<nat>, m: Migration)
    requires |bits| == |ms| && IsOrderOf(bits, order)
    ensures m in Pick(ms, order) <==> exists k :: 0 <= k < |ms| && bits[k] && ms[k] == m
  {
    if i :| 0 <= i < |order| && Pick(ms, order)[i] == m {
      assert bits[order[i]] && ms[order[i]] == m;
    }
    if k :| 0 <= k < |ms| && bits[k] && ms[k] == m {
      var i :| 0 <= i < |order| && order[i] == k;
      assert Pick(ms, order)[i] == m;
    }
  }

  lemma {:induction false} SameOutcomeCommits(a: SchemaState, b: SchemaState, ops: seq<TaggedOp>)
    requires SameOutcome(a, b)
    ensures SameOutcome(Commit(a, ops), Commit(b, ops))
    decreases |ops|
  {
    if ops != [] {
      SameOutcomeCommits(a, b, ops[..|ops| - 1]);
    }
  }

  lemma IndeterminateStays(ss: SchemaState, ops: seq<TaggedOp>)
    requires ss.indeterminate
    ensures Commit(ss, ops).indeterminate
  {
    CommitIsFold(ss, ops);
  }

  lemma BaseWellFormed(plan: RolloutPlan)
    requires WellFormed(plan.baseSchema)
    ensures var base := BaseState(plan, [], false); base.indeterminate || WellFormed(base.schema)
  {
    hide WellFormed, Commit, Trail, FoldApply;
    var ops := Trail(OfPhase(plan.migrations, PhaseBeforeRollout));
    CommitIsFold(SchemaState(plan.baseSchema, [], false), ops);
    FoldApplyWellFormed(plan.baseSchema, OpsOf(ops));
  }

  /**
   Confluence: when a node's committed during-migrations are independent, its flag, and
   its schema when known, are those of committing them in any order whatever.
   */
  lemma NodeIsAnyOrder(plan: RolloutPlan, p: Progress, order: seq<nat>)
    requires WellFormed(plan.baseSchema)
    requires var m := MachineOf(plan, [], false);
             ThreeSteps(m) && Valid(m, p) && IndependentAmong(m.during, p.during) && IsOrderOf(p.during, order)
    ensures var m := MachineOf(plan, [], false);
            SameOutcome(SchemaStateAt(m, p), Commit(m.base, Trail(Pick(m.during, order) + m.after[..p.after])))
  {
    hide WellFormed, Commit, Trail, IndependentAmong, SameOutcome, MachineOf, BaseState;
    var m := MachineOf(plan, [], false);
    var listed := SelectIsPick(m.during, p.during);
    OrderedBase(plan, p.during, listed, order);
    var tail := m.after[..p.after];
    SplitCommit(m.base, Pick(m.during, listed), tail);
    SplitCommit(m.base, Pick(m.during, order), tail);
    SameOutcomeCommits(Commit(m.base, Trail(Pick(m.during, listed))), Commit(m.base, Trail(Pick(m.during, order))), Trail(tail));
  }

  lemma SplitCommit(ss: SchemaState, a: seq<Migration>, b: seq<Migration>)
    ensures Commit(ss, Trail(a + b)) == Commit(Commit(ss, Trail(a)), Trail(b))
  {
    TrailAppend(a, b);
    CommitAppend(ss, Trail(a), Trail(b));
  }

  lemma OrderedBase(plan: RolloutPlan, bits: seq<bool>, a: seq<nat>, b: seq<nat>)
    requires WellFormed(plan.baseSchema)
    requires var m := MachineOf(plan, [], false);
             |bits| == |m.during| && IndependentAmong(m.during, bits) && IsOrderOf(bits, a) && IsOrderOf(bits, b)
    ensures var m := MachineOf(plan, [], false);
            SameOutcome(Commit(m.base, Trail(Pick(m.during, a))), Commit(m.base, Trail(Pick(m.during, b))))
  {
    hide WellFormed, Commit, Trail, IndependentAmong, BaseState, OfPhase;
    var m := MachineOf(plan, [], false);
    BaseWellFormed(plan);
    if m.base.indeterminate {
      IndeterminateStays(m.base, Trail(Pick(m.during, a)));
      IndeterminateStays(m.base, Trail(Pick(m.during, b)));
    } else {
      OrdersAgree(m.base, m.during, bits, a, b);
    }
  }

  // ---- what an edge of the hypercube applies ----

  /** The committed during-migrations listed after k: the ones replayed on top of it. */
  function Later(m: Machine, p: Progress, k: nat): seq<Migration>
    requires k < |m.during| == |p.during|
  {
    Select(m.during[k + 1..], p.during[k + 1..])
  }

  lemma {:induction false} SelectAppend(a: seq<Migration>, b: seq<Migration>, x: seq<bool>, y: seq<bool>)
    requires |x| == |a| && |y| == |b|
    ensures Select(a + b, x + y) == Select(a, x) + Select(b, y)
    decreases |b|
  {
    if b == [] {
      assert a + b == a && x + y == x;
    } else {
      var n := |b| - 1;
      SelectAppend(a, b[..n], x, y[..n]);
      assert (a + b)[..|a + b| - 1] == a + b[..n] && (x + y)[..|x + y| - 1] == x + y[..n];
    }
  }

  /** One migration in the middle of a selection. */
  lemma SelectAround(front: seq<Migration>, x: Migration, back: seq<Migration>, fb: seq<bool>, b: bool, bb: seq<bool>)
    requires |fb| == |front| && |bb| == |back|
    ensures Select(front + ([x] + back), fb + ([b] + bb)) == Select(front, fb) + (Chosen(x, b) + Select(back, bb))
  {
    hide Select;
    SelectAppend(front, [x] + back, fb, [b] + bb);
    SelectAppend([x], back, [b], bb);
    SelectOne(x, b);
  }

  function Chosen(x: Migration, b: bool): seq<Migration> {
    if b then [x] else []
  }

  lemma SelectOne(m: Migration, b: bool)
    ensures Select([m], [b]) == if b then [m] else []
  {
    assert [m][..0] == [] && [b][..0] == [];
  }

  /** The two ends of an edge: what precedes k in the list, then k before or after the later ones. */
  lemma EdgeEnds(m: Machine, p: Progress, k: nat) returns (mid: SchemaState)
    requires ThreeSteps(m) && Valid(m, p) && Enabled(m, p, CommitDuring(k))
    ensures mid == Commit(m.base, Trail(Select(m.during[..k], p.during[..k])))
    ensures SchemaStateAt(m, Next(m, p, CommitDuring(k))) == Commit(mid, Tagged(m.during[k]) + Trail(Later(m, p, k)))
    ensures Commit(SchemaStateAt(m, p), Tagged(m.during[k])) == Commit(mid, Trail(Later(m, p, k)) + Tagged(m.during[k]))
  {
    hide Commit, Trail, Select;
    var q := Next(m, p, CommitDuring(k));
    var front, x, later := Select(m.during[..k], p.during[..k]), m.during[k], Later(m, p, k);
    mid := Commit(m.base, Trail(front));
    var fb, bb := p.during[..k], p.during[k + 1..];
    SelectAround(m.during[..k], x, m.during[k + 1..], fb, false, bb);
    SelectAround(m.during[..k], x, m.during[k + 1..], fb, true, bb);
    assert m.during == m.during[..k] + ([x] + m.during[k + 1..]);
    assert p.during == fb + ([false] + bb) && q.during == fb + ([true] + bb);
    assert CommittedAt(m, q) == front + ([x] + later);
    assert CommittedAt(m, p) == front + later;
    SplitCommit(m.base, front, [x] + later);
    SplitCommit(m.base, front, later);
    TrailAppend([x], later);
    TrailSingle(x);
    CommitAppend(mid, Trail(later), Tagged(x));
  }

  /**
   An edge leads to exactly the state its own migration makes of the one it leaves, trail
   included, if and only if that migration and the committed ones listed after it have
   the same operations in either order; in particular when nothing is listed after it.
   */
  lemma EdgeExactly(m: Machine, p: Progress, k: nat)
    requires ThreeSteps(m) && Valid(m, p) && Enabled(m, p, CommitDuring(k))
    ensures SchemaStateAt(m, Next(m, p, CommitDuring(k))) == Commit(SchemaStateAt(m, p), Tagged(m.during[k])) <==>
            Tagged(m.during[k]) + Trail(Later(m, p, k)) == Trail(Later(m, p, k)) + Tagged(m.during[k])
  {
    hide Commit, Trail, Select, SchemaStateAt, Tagged;
    var mid := EdgeEnds(m, p, k);
    var x, later := Tagged(m.during[k]), Trail(Later(m, p, k));
    CommitGrowsTrail(mid, x + later);
    CommitGrowsTrail(mid, later + x);
    if Commit(mid, x + later) == Commit(mid, later + x) {
      assert (Tags(mid.committedOps) + (x + later))[|mid.committedOps|..] == x + later;
      assert (Tags(mid.committedOps) + (later + x))[|mid.committedOps|..] == later + x;
    }
  }

  /** A migration shares no column with any of the others. */
  ghost predicate Apart(x: Migration, others: seq<Migration>) {
    forall y, ref :: y in others ==> !(TouchedBy(x.operations, ref) && TouchedBy(y.operations, ref))
  }

  lemma {:induction false} TouchedInAll(ms: seq<Migration>, ref: ColumnRef)
    ensures TouchedBy(AllOps(ms), ref) ==> exists m :: m in ms && TouchedBy(m.operations, ref)
    decreases |ms|
  {
    hide AllOps, Touches;
    if ms == [] {
      assert AllOps([]) == [] by { NoOps(); }
    } else {
      var n := |ms| - 1;
      assert ms == ms[..n] + [ms[n]];
      AllOpsSnoc(ms[..n], ms[n]);
      TouchedInAll(ms[..n], ref);
      if i :| 0 <= i < |AllOps(ms)| && Touches(AllOps(ms)[i], ref) {
        var k := |AllOps(ms[..n])|;
        if i < k {
          assert Touches(AllOps(ms[..n])[i], ref);
        } else {
          assert Touches(ms[n].operations[i - k], ref);
        }
      }
    }
  }

  lemma NoOps()
    ensures AllOps([]) == []
  {
  }

  lemma SameOpsSameOutcome(ss: SchemaState, a: seq<TaggedOp>, b: seq<TaggedOp>)
    requires OpsOf(a) == OpsOf(b)
    ensures SameOutcome(Commit(ss, a), Commit(ss, b))
  {
    hide Commit, FoldApply;
    CommitIsFold(ss, a);
    CommitIsFold(ss, b);
  }

  /** A migration apart from a list of others may as well commit after them. */
  lemma ApartCommutes(ss: SchemaState, x: Migration, others: seq<Migration>)
    requires WellFormed(ss.schema) && Apart(x, others)
    ensures SameOutcome(Commit(ss, Tagged(x) + Trail(others)), Commit(ss, Trail(others) + Tagged(x)))
  {
    hide Commit, Trail, WellFormed, TouchedBy, Tagged, SameOutcome;
    var block := Migration(x.id, AllOps(others));
    forall ref ensures !(TouchedBy(x.operations, ref) && TouchedBy(block.operations, ref)) {
      TouchedInAll(others, ref);
    }
    assert Independent([x, block]) && Independent([block, x]);
    assert forall m :: m in [x, block] <==> m in [block, x];
    OrderIsImmaterial(ss, [x, block], [block, x]);
    TrailOfTwo(x, block);
    TrailOfTwo(block, x);
    TaggedOps(x);
    TaggedOps(block);
    OpsOfAppend(Tagged(x), Trail(others));
    OpsOfAppend(Trail(others), Tagged(x));
    OpsOfAppend(Tagged(x), Tagged(block));
    OpsOfAppend(Tagged(block), Tagged(x));
    SameOpsSameOutcome(ss, Tagged(x) + Trail(others), Trail([x, block]));
    SameOpsSameOutcome(ss, Trail(others) + Tagged(x), Trail([block, x]));
    SameOutcomeChain(Commit(ss, Tagged(x) + Trail(others)), Commit(ss, Trail([x, block])),
                     Commit(ss, Trail([block, x])), Commit(ss, Trail(others) + Tagged(x)));
  }

  lemma SameOutcomeChain(a: SchemaState, b: SchemaState, c: SchemaState, d: SchemaState)
    requires SameOutcome(a, b) && SameOutcome(b, c) && SameOutcome(d, c)
    ensures SameOutcome(a, d)
  {
  }

  lemma TrailOfTwo(a: Migration, b: Migration)
    ensures Trail([a, b]) == Tagged(a) + Tagged(b)
  {
    hide Trail, Tagged;
    assert [a, b] == [a] + [b];
    TrailAppend([a], [b]);
    TrailSingle(a);
    TrailSingle(b);
  }

  lemma TaggedOps(m: Migration)
    ensures OpsOf(Tagged(m)) == m.operations
  {
  }

  lemma OpsOfAppend(a: seq<TaggedOp>, b: seq<TaggedOp>)
    ensures OpsOf(a + b) == OpsOf(a) + OpsOf(b)
  {
  }

  lemma StateWellFormed(plan: RolloutPlan, ops: seq<TaggedOp>)
    requires WellFormed(plan.baseSchema)
    ensures var ss := Commit(BaseState(plan, [], false), ops); ss.indeterminate || WellFormed(ss.schema)
  {
    hide WellFormed, Commit, BaseState, FoldApply;
    BaseWellFormed(plan);
    var base := BaseState(plan, [], false);
    CommitIsFold(base, ops);
    if !base.indeterminate {
      FoldApplyWellFormed(base.schema, OpsOf(ops));
    }
  }

  /**
   As to the flag and the schema, it is enough that the migration shares no column with
   the committed ones listed after it; what is listed before, or has not committed, is free.
   */
  lemma EdgeAppliesItsMigration(plan: RolloutPlan, p: Progress, k: nat)
    requires WellFormed(plan.baseSchema)
    requires var m := MachineOf(plan, [], false);
             ThreeSteps(m) && Valid(m, p) && Enabled(m, p, CommitDuring(k)) && Apart(m.during[k], Later(m, p, k))
    ensures var m := MachineOf(plan, [], false);
            SameOutcome(SchemaStateAt(m, Next(m, p, CommitDuring(k))), Commit(SchemaStateAt(m, p), Tagged(m.during[k])))
  {
    hide WellFormed, Commit, Trail, Apart, SchemaStateAt, Select, Tagged;
    var m := MachineOf(plan, [], false);
    var mid := EdgeEnds(m, p, k);
    var x, later := m.during[k], Later(m, p, k);
    StateWellFormed(plan, Trail(Select(m.during[..k], p.during[..k])));
    if mid.indeterminate {
      IndeterminateStays(mid, Tagged(x) + Trail(later));
      IndeterminateStays(mid, Trail(later) + Tagged(x));
    } else {
      ApartCommutes(mid, x, later);
    }
  }

  // ---- without independence ----

  lemma FoldOne(s: Schema, op: MigrationOp)
    ensures FoldApply(s, [op]) == Apply(s, op)
  {
    assert FoldApply(s, []) == Ok(s) && [] + [op] == [op];
    FoldApplySnoc(s, [], op);
  }

  /**
   Not so for dependent migrations: one adds a column, the other drops it. The node
   with only the drop is indeterminate, yet the edge committing the addition leads
   from it to a determinate node, which no commit on its state could reach.
   */
  lemma DependentEdge() returns (plan: RolloutPlan, p: Progress)
    ensures PlanValid(plan) && WellFormed(plan.baseSchema)
    ensures var m := MachineOf(plan, [], false);
            && ThreeSteps(m) && Valid(m, p) && Enabled(m, p, CommitDuring(0))
            && SchemaStateAt(m, p).indeterminate
            && !SchemaStateAt(m, Next(m, p, CommitDuring(0))).indeterminate
            && Commit(SchemaStateAt(m, p), Tagged(m.during[0])).indeterminate
  {
    hide Commit, Trail, Select, WellFormed, Apply;
    var add := MigrationOp(OpAddColumn, "t", "x", "", "text", true, None, NonDestructive, Reversible);
    var drop := MigrationOp(OpDropColumn, "t", "x", "", "", false, None, Destructive, Irreversible);
    var a, d := Migration("a", [add]), Migration("d", [drop]);
    var wl := Workload("w", "svc", 1, RolloutStrategy(StrategyRecreate, IntOrPercent(false, 0, 0), IntOrPercent(false, 0, 0)));
    var ta, td := MigrationTiming(a, PhaseDuringRollout), MigrationTiming(d, PhaseDuringRollout);
    plan := RolloutPlan(Schema(map[]), [WorkloadChange(wl, "v1", "v2")], [ta, td], None, []);
    EmptyWellFormed();
    TwoDuring(plan, a, d);
    var m := MachineOf(plan, [], false);
    p := Progress([0], [false, true], 0);
    var q := Next(m, p, CommitDuring(0));
    assert q.during == [true, true];
    TwoSelected(a, d, p.during);
    TwoSelected(a, d, q.during);
    assert Select([a, d], p.during) == [d] && Select([a, d], q.during) == [a, d];
    assert m.after[..0] == [];
    TwoOps(a, add, d, drop);
    CommitIsFold(m.base, Trail([d]));
    CommitIsFold(m.base, Trail([a, d]));
    AddThenDrop(add, drop);
    assert [d] + [] == [d] && [a, d] + [] == [a, d];
    IndeterminateStays(SchemaStateAt(m, p), Tagged(m.during[0]));
  }

  lemma EmptyWellFormed()
    ensures WellFormed(Schema(map[]))
  {
  }

  lemma TwoDuring(plan: RolloutPlan, a: Migration, d: Migration)
    requires plan.migrations == [MigrationTiming(a, PhaseDuringRollout), MigrationTiming(d, PhaseDuringRollout)]
    ensures var m := MachineOf(plan, [], false);
            m.during == [a, d] && m.after == [] && m.base == SchemaState(plan.baseSchema, [], false)
  {
    var t := plan.migrations;
    assert t[..1] == [t[0]] && t[..1][..0] == [];
    forall phase ensures OfPhase(t, phase) == if phase == PhaseDuringRollout then [a, d] else [] {
      assert OfPhase(t[..1], phase) == if phase == PhaseDuringRollout then [a] else [];
    }
  }

  lemma TwoSelected(a: Migration, d: Migration, bits: seq<bool>)
    requires |bits| == 2
    ensures Select([a, d], bits) == (if bits[0] then [a] else []) + (if bits[1] then [d] else [])
  {
    assert [a, d][..1] == [a] && bits[..1] == [bits[0]];
    assert [a][..0] == [] && [bits[0]][..0] == [];
    assert Select([a], [bits[0]]) == if bits[0] then [a] else [];
  }

  lemma TwoOps(a: Migration, add: MigrationOp, d: Migration, drop: MigrationOp)
    requires a.operations == [add] && d.operations == [drop]
    ensures OpsOf(Trail([d])) == [drop] && OpsOf(Trail([a, d])) == [add, drop]
  {
    assert [a, d][..1] == [a] && [d][..0] == [] && [a][..0] == [];
  }

  lemma AddThenDrop(add: MigrationOp, drop: MigrationOp)
    requires add.kind == OpAddColumn && drop.kind == OpDropColumn && add.TargetColumn() == drop.TargetColumn()
    ensures FoldApply(Schema(map[]), [drop]).Err? && FoldApply(Schema(map[]), [add, drop]).Ok?
  {
    FoldOne(Schema(map[]), drop);
    FoldOne(Schema(map[]), add);
    FoldApplySnoc(Schema(map[]), [add], drop);
    assert [add] + [drop] == [add, drop];
  }
}
