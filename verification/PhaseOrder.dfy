/**
 The order condition under which a during-migration may move to another phase is exact:
 whatever else the migrations do, moving one out of turn can show a state the plan does
 not have, because two migrations then commit in the other order.
 */
module PhaseOrder {
  import opened Wrappers
  import opened Schemas
  import opened Rollout
  import opened Replay
  import opened Machines
  import opened Graphs
  import opened Trails
  import opened Confluence
  import opened Phases

  function PhaseRank(phase: MigrationPhase): nat {
    match phase
    case PhaseBeforeRollout => 0
    case PhaseDuringRollout => 1
    case PhaseAfterRollout => 2
    case PhaseUnknown => 3
  }

  /** Entry a commits before entry b when both have committed: by phase, then by list order. */
  predicate Precedes(timings: seq<MigrationTiming>, a: nat, b: nat)
    requires a < |timings| && b < |timings|
  {
    || PhaseRank(timings[a].phase) < PhaseRank(timings[b].phase)
    || (timings[a].phase == timings[b].phase && a < b)
  }

  /** All migrations of a plan, in the order a whole rollout commits them. */
  function Ordered(timings: seq<MigrationTiming>): seq<Migration> {
    OfPhase(timings, PhaseBeforeRollout) + OfPhase(timings, PhaseDuringRollout) + OfPhase(timings, PhaseAfterRollout)
  }

  // ---- every state commits a selection of that order ----

  function Repeat(b: bool, n: nat): seq<bool> {
    seq(n, _ => b)
  }

  lemma {:induction false} SelectEvery(ms: seq<Migration>, bits: seq<bool>, b: bool)
    requires |bits| == |ms| && forall k :: 0 <= k < |bits| ==> bits[k] == b
    ensures Select(ms, bits) == if b then ms else []
    decreases |ms|
  {
    if ms != [] {
      var n := |ms| - 1;
      SelectEvery(ms[..n], bits[..n], b);
      assert ms == ms[..n] + [ms[n]];
    }
  }

  lemma SelectPrefix(ms: seq<Migration>, n: nat)
    requires n <= |ms|
    ensures Select(ms, Repeat(true, n) + Repeat(false, |ms| - n)) == ms[..n]
  {
    hide Select;
    assert ms == ms[..n] + ms[n..];
    SelectAppend(ms[..n], ms[n..], Repeat(true, n), Repeat(false, |ms| - n));
    SelectEvery(ms[..n], Repeat(true, n), true);
    SelectEvery(ms[n..], Repeat(false, |ms| - n), false);
  }

  lemma StateTrail(plan: RolloutPlan, p: Progress) returns (bits: seq<bool>)
    requires ThreeSteps(MachineOf(plan, [], false)) && Valid(MachineOf(plan, [], false), p)
    ensures |bits| == |Ordered(plan.migrations)|
    ensures Tags(SchemaStateAt(MachineOf(plan, [], false), p).committedOps) == Trail(Select(Ordered(plan.migrations), bits))
  {
    hide Commit, Trail, Select, OfPhase;
    var m := MachineOf(plan, [], false);
    var before, rest := OfPhase(plan.migrations, PhaseBeforeRollout), CommittedAt(m, p);
    var head, tail := Repeat(true, |before|), Repeat(true, p.after) + Repeat(false, |m.after| - p.after);
    bits := head + p.during + tail;
    SelectAppend(before + m.during, m.after, head + p.during, tail);
    SelectAppend(before, m.during, head, p.during);
    SelectEvery(before, head, true);
    SelectPrefix(m.after, p.after);
    assert Select(Ordered(plan.migrations), bits) == before + rest;
    TrailAppend(before, rest);
    NodeTags(plan, p);
  }

  lemma NodeTags(plan: RolloutPlan, p: Progress)
    requires ThreeSteps(MachineOf(plan, [], false)) && Valid(MachineOf(plan, [], false), p)
    ensures var m := MachineOf(plan, [], false);
            Tags(SchemaStateAt(m, p).committedOps) ==
            Trail(OfPhase(plan.migrations, PhaseBeforeRollout)) + Trail(CommittedAt(m, p))
  {
    hide Commit, Trail, OfPhase, Valid, CommittedAt;
    var m := MachineOf(plan, [], false);
    var before := OfPhase(plan.migrations, PhaseBeforeRollout);
    CommitGrowsTrail(SchemaState(plan.baseSchema, [], false), Trail(before));
    CommitGrowsTrail(m.base, Trail(CommittedAt(m, p)));
  }

  lemma TargetTrail(plan: RolloutPlan)
    requires ThreeSteps(MachineOf(plan, [], false))
    ensures var m := MachineOf(plan, [], false);
            Valid(m, TargetOf(m)) && Tags(SchemaStateAt(m, TargetOf(m)).committedOps) == Trail(Ordered(plan.migrations))
  {
    hide Commit, Trail, Select, OfPhase;
    var m := MachineOf(plan, [], false);
    StartValid(m);
    NodeTags(plan, TargetOf(m));
    SelectEvery(m.during, m.AllDuring(), true);
    var before := OfPhase(plan.migrations, PhaseBeforeRollout);
    assert CommittedAt(m, TargetOf(m)) == m.during + m.after;
    TrailAppend(before, m.during + m.after);
    assert Ordered(plan.migrations) == before + (m.during + m.after);
  }

  // ---- two migrations among idle ones ----

  predicate Idle(ms: seq<Migration>) {
    forall m :: m in ms ==> m.operations == []
  }

  lemma {:induction false} IdleTrail(ms: seq<Migration>)
    requires Idle(ms)
    ensures Trail(ms) == []
    decreases |ms|
  {
    if ms != [] {
      IdleTrail(ms[..|ms| - 1]);
      assert ms[|ms| - 1] in ms;
    }
  }

  lemma IdleSelection(ms: seq<Migration>, bits: seq<bool>)
    requires Idle(ms) && |bits| == |ms|
    ensures Trail(Select(ms, bits)) == []
  {
    hide Select, Trail;
    forall m | m in Select(ms, bits) ensures m.operations == [] {
      SelectMember(ms, bits, m);
    }
    IdleTrail(Select(ms, bits));
  }

  /** a and b, each between idle migrations. */
  function Spread(x: seq<Migration>, a: Migration, y: seq<Migration>, b: Migration, z: seq<Migration>): seq<Migration> {
    x + ([a] + (y + ([b] + z)))
  }

  /** ms holds a and later b, and nothing else of substance. */
  ghost predicate IsSpread(ms: seq<Migration>, a: Migration, b: Migration) {
    exists x, y, z :: Idle(x) && Idle(y) && Idle(z) && ms == Spread(x, a, y, b, z)
  }

  lemma SpreadSelection(x: seq<Migration>, a: Migration, y: seq<Migration>, b: Migration, z: seq<Migration>, bits: seq<bool>)
    requires Idle(x) && Idle(y) && Idle(z) && |bits| == |Spread(x, a, y, b, z)|
    ensures Trail(Select(Spread(x, a, y, b, z), bits)) ==
            (if bits[|x|] then Tagged(a) else []) + (if bits[|x| + 1 + |y|] then Tagged(b) else [])
  {
    hide Select, Trail, Tagged, Idle;
    PeelTrail(x, a, y + ([b] + z), bits);
    var rest := bits[|x| + 1..];
    PeelTrail(y, b, z, rest);
    IdleSelection(z, rest[|y| + 1..]);
    assert rest[|y|] == bits[|x| + 1 + |y|];
  }

  /** Any selection of such a list commits a before b. */
  lemma SpreadTrail(ms: seq<Migration>, a: Migration, b: Migration, bits: seq<bool>)
    requires IsSpread(ms, a, b) && |bits| == |ms|
    ensures Trail(Select(ms, bits)) in {[], Tagged(a), Tagged(b), Tagged(a) + Tagged(b)}
  {
    hide Select, Trail, Tagged, Idle, Spread;
    var x, y, z :| Idle(x) && Idle(y) && Idle(z) && ms == Spread(x, a, y, b, z);
    SpreadLength(x, a, y, b, z);
    SpreadSelection(x, a, y, b, z, bits);
    EmptySides(Tagged(a));
    EmptySides(Tagged(b));
  }

  lemma EmptySides(s: seq<TaggedOp>)
    ensures s + [] == s && [] + s == s
  {
  }

  lemma SpreadLength(x: seq<Migration>, a: Migration, y: seq<Migration>, b: Migration, z: seq<Migration>)
    ensures |Spread(x, a, y, b, z)| == |x| + |y| + |z| + 2
  {
  }

  lemma PeelTrail(x: seq<Migration>, a: Migration, rest: seq<Migration>, bits: seq<bool>)
    requires Idle(x) && |bits| == |x| + 1 + |rest|
    ensures Trail(Select(x + ([a] + rest), bits)) == (if bits[|x|] then Tagged(a) else []) + Trail(Select(rest, bits[|x| + 1..]))
  {
    hide Select, Trail, Tagged, Idle;
    var n := |x|;
    assert bits == bits[..n] + ([bits[n]] + bits[n + 1..]);
    SelectAppend(x, [a] + rest, bits[..n], [bits[n]] + bits[n + 1..]);
    SelectAppend([a], rest, [bits[n]], bits[n + 1..]);
    SelectOne(a, bits[n]);
    IdleSelection(x, bits[..n]);
    TrailAppend(Select(x, bits[..n]), Select([a], [bits[n]]) + Select(rest, bits[n + 1..]));
    TrailAppend(Select([a], [bits[n]]), Select(rest, bits[n + 1..]));
    if bits[n] {
      TrailSingle(a);
    } else {
      NoTrail();
    }
  }

  lemma FullSpreadTrail(ms: seq<Migration>, a: Migration, b: Migration)
    requires IsSpread(ms, a, b)
    ensures Trail(ms) == Tagged(a) + Tagged(b)
  {
    hide Select, Trail, Tagged, Idle, Spread;
    var x, y, z :| Idle(x) && Idle(y) && Idle(z) && ms == Spread(x, a, y, b, z);
    var all := Repeat(true, |ms|);
    SelectEvery(ms, all, true);
    SpreadLength(x, a, y, b, z);
    SpreadSelection(x, a, y, b, z, all);
  }

  lemma ThreeParts(x: seq<Migration>, y: seq<Migration>, z: seq<Migration>)
    ensures x + y + z == [] + x + (y + z)
    ensures x + y + z == x + y + z + [] == x + y + [] + z + []
    ensures x + y + z == [] + x + [] + y + z == [] + x + y + z + []
    ensures x + [] + y == x + y && [] + x == x && x + [] == x && z + [] == z
  {
  }

  lemma GroupOne(front: seq<Migration>, x: seq<Migration>, a: Migration, y: seq<Migration>, b: Migration, z: seq<Migration>, back: seq<Migration>)
    ensures front + (x + [a] + y + [b] + z) + back == Spread(front + x, a, y, b, z + back)
  {
  }

  lemma GroupTwo(front: seq<Migration>, x: seq<Migration>, a: Migration, y: seq<Migration>, mid: seq<Migration>,
                 u: seq<Migration>, b: Migration, v: seq<Migration>, back: seq<Migration>)
    ensures front + (x + [a] + y) + mid + (u + [b] + v) + back == Spread(front + x, a, y + mid + u, b, v + back)
  {
  }

  // ---- where two entries stand in the order of a rollout ----

  /** Every entry but a and b is idle. */
  ghost predicate IdleBut(timings: seq<MigrationTiming>, a: nat, b: nat) {
    forall k :: 0 <= k < |timings| && k != a && k != b ==> timings[k].migration.operations == []
  }

  lemma IdlePart(timings: seq<MigrationTiming>, phase: MigrationPhase)
    requires forall k :: 0 <= k < |timings| && timings[k].phase == phase ==> timings[k].migration.operations == []
    ensures Idle(OfPhase(timings, phase))
  {
    forall m | m in OfPhase(timings, phase) ensures m.operations == [] {
      OfPhaseMember(timings, phase, m);
      var k :| 0 <= k < |timings| && timings[k] == MigrationTiming(m, phase);
    }
  }

  /** The list of one phase around the one entry of it that matters. */
  lemma AroundOne(timings: seq<MigrationTiming>, a: nat, b: nat) returns (x: seq<Migration>, y: seq<Migration>)
    requires a < |timings| && b < |timings| && IdleBut(timings, a, b) && timings[b].phase != timings[a].phase
    ensures Idle(x) && Idle(y)
    ensures OfPhase(timings, timings[a].phase) == x + [timings[a].migration] + y
  {
    hide OfPhase, Idle;
    var phase := timings[a].phase;
    OfPhaseSplit(timings, a, phase);
    x, y := OfPhase(timings[..a], phase), OfPhase(timings[a + 1..], phase);
    var rest := timings[a + 1..];
    assert forall k :: 0 <= k < |rest| ==> rest[k] == timings[a + 1 + k];
    IdlePart(timings[..a], phase);
    IdlePart(rest, phase);
  }

  lemma AroundBoth(timings: seq<MigrationTiming>, a: nat, b: nat) returns (x: seq<Migration>, y: seq<Migration>, z: seq<Migration>)
    requires a < b < |timings| && IdleBut(timings, a, b) && timings[b].phase == timings[a].phase
    ensures Idle(x) && Idle(y) && Idle(z)
    ensures OfPhase(timings, timings[a].phase) == x + [timings[a].migration] + y + [timings[b].migration] + z
  {
    hide OfPhase, Idle;
    var phase := timings[a].phase;
    var rest := timings[a + 1..];
    var c := b - a - 1;
    OfPhaseSplit(timings, a, phase);
    OfPhaseSplit(rest, c, phase);
    x, y, z := OfPhase(timings[..a], phase), OfPhase(rest[..c], phase), OfPhase(rest[c + 1..], phase);
    assert rest[..c] == timings[a + 1..b] && rest[c + 1..] == timings[b + 1..];
    IdlePart(timings[..a], phase);
    IdlePart(timings[a + 1..b], phase);
    IdlePart(timings[b + 1..], phase);
  }

  lemma JoinIdle(a: seq<Migration>, b: seq<Migration>)
    requires Idle(a) && Idle(b)
    ensures Idle(a + b)
  {
  }

  /** The order of a rollout is spread as the entries precede each other. */
  lemma OrderedIsSpread(timings: seq<MigrationTiming>, a: nat, b: nat)
    requires a < |timings| && b < |timings| && IdleBut(timings, a, b) && Precedes(timings, a, b)
    requires timings[a].phase != PhaseUnknown && timings[b].phase != PhaseUnknown
    ensures IsSpread(Ordered(timings), timings[a].migration, timings[b].migration)
  {
    hide OfPhase, Idle;
    if timings[a].phase == timings[b].phase {
      var x, y, z := AroundBoth(timings, a, b);
      SpreadInOne(timings, a, b, x, y, z);
    } else {
      var x, y := AroundOne(timings, a, b);
      var u, v := AroundOne(timings, b, a);
      SpreadInTwo(timings, a, b, x, y, u, v);
    }
  }

  lemma OthersIdle(timings: seq<MigrationTiming>, a: nat, b: nat, phase: MigrationPhase)
    requires a < |timings| && b < |timings| && IdleBut(timings, a, b)
    requires timings[a].phase != phase && timings[b].phase != phase
    ensures Idle(OfPhase(timings, phase))
  {
    hide OfPhase, Idle;
    IdlePart(timings, phase);
  }

  lemma SpreadInOne(timings: seq<MigrationTiming>, a: nat, b: nat, x: seq<Migration>, y: seq<Migration>, z: seq<Migration>)
    requires a < b < |timings| && IdleBut(timings, a, b) && timings[a].phase == timings[b].phase != PhaseUnknown
    requires Idle(x) && Idle(y) && Idle(z)
    requires OfPhase(timings, timings[a].phase) == x + [timings[a].migration] + y + [timings[b].migration] + z
    ensures IsSpread(Ordered(timings), timings[a].migration, timings[b].migration)
  {
    hide OfPhase, Idle, Spread, IsSpread;
    var p, q := timings[a].migration, timings[b].migration;
    var before, during, after :=
      OfPhase(timings, PhaseBeforeRollout), OfPhase(timings, PhaseDuringRollout), OfPhase(timings, PhaseAfterRollout);
    forall phase | phase != timings[a].phase ensures Idle(OfPhase(timings, phase)) {
      OthersIdle(timings, a, b, phase);
    }
    match timings[a].phase
    case PhaseBeforeRollout =>
      JoinIdle(during, after);
      JoinIdle(z, during + after);
      EmptyIdle(x);
      GroupOne([], x, p, y, q, z, during + after);
      ThreeParts(before, during, after);
      Witnessed([] + x, p, y, q, z + (during + after));
    case PhaseDuringRollout =>
      JoinIdle(before, x);
      JoinIdle(z, after);
      GroupOne(before, x, p, y, q, z, after);
      Witnessed(before + x, p, y, q, z + after);
    case PhaseAfterRollout =>
      JoinIdle(before, during);
      JoinIdle(before + during, x);
      EmptyIdle(z);
      GroupOne(before + during, x, p, y, q, z, []);
      ThreeParts(before, during, after);
      Witnessed(before + during + x, p, y, q, z + []);
  }

  lemma EmptyIdle(z: seq<Migration>)
    requires Idle(z)
    ensures Idle(z + []) && Idle([] + z)
  {
    assert z + [] == z == [] + z;
  }

  lemma Witnessed(x: seq<Migration>, a: Migration, y: seq<Migration>, b: Migration, z: seq<Migration>)
    requires Idle(x) && Idle(y) && Idle(z)
    ensures IsSpread(Spread(x, a, y, b, z), a, b)
  {
  }

  lemma SpreadInTwo(timings: seq<MigrationTiming>, a: nat, b: nat, x: seq<Migration>, y: seq<Migration>,
                    u: seq<Migration>, v: seq<Migration>)
    requires a < |timings| && b < |timings| && IdleBut(timings, a, b)
    requires PhaseRank(timings[a].phase) < PhaseRank(timings[b].phase) < 3
    requires Idle(x) && Idle(y) && Idle(u) && Idle(v)
    requires OfPhase(timings, timings[a].phase) == x + [timings[a].migration] + y
    requires OfPhase(timings, timings[b].phase) == u + [timings[b].migration] + v
    ensures IsSpread(Ordered(timings), timings[a].migration, timings[b].migration)
  {
    hide OfPhase, Idle, Spread, IsSpread;
    var p, q := timings[a].migration, timings[b].migration;
    var before, during, after :=
      OfPhase(timings, PhaseBeforeRollout), OfPhase(timings, PhaseDuringRollout), OfPhase(timings, PhaseAfterRollout);
    forall phase | phase != timings[a].phase && phase != timings[b].phase ensures Idle(OfPhase(timings, phase)) {
      OthersIdle(timings, a, b, phase);
    }
    JoinIdle(y, u);
    if timings[a].phase == PhaseDuringRollout {
      JoinIdle(before, x);
      GroupTwo(before, x, p, y, [], u, q, v, []);
      ThreeParts(before, during, after);
      ThreeParts(y, u, v);
      Witnessed(before + x, p, y + u, q, v);
    } else if timings[b].phase == PhaseDuringRollout {
      JoinIdle(v, after);
      GroupTwo([], x, p, y, [], u, q, v, after);
      ThreeParts(before, during, after);
      ThreeParts(y, u, v);
      ThreeParts(x, u, v);
      Witnessed(x, p, y + u, q, v + after);
    } else {
      JoinIdle(y, during);
      JoinIdle(y + during, u);
      GroupTwo([], x, p, y, during, u, q, v, []);
      ThreeParts(before, during, after);
      ThreeParts(x, u, v);
      Witnessed(x, p, y + during + u, q, v);
    }
  }

  // ---- the witness and the theorem ----

  ghost predicate SamePhases(a: seq<MigrationTiming>, b: seq<MigrationTiming>) {
    |a| == |b| && forall k :: 0 <= k < |a| ==> a[k].phase == b[k].phase
  }

  /** Whatever the migrations hold, the move adds no state. */
  ghost predicate NeverAddsState(timings: seq<MigrationTiming>, i: nat, to: MigrationPhase)
    requires i < |timings|
  {
    forall plan :: PlanValid(plan) && SamePhases(plan.migrations, timings) ==>
      StatesWithin(MachineOf(MovedTo(plan, i, to), [], false), MachineOf(plan, [], false))
  }

  function Probe(id: string): Migration {
    Migration(id, [MigrationOp(OpAddColumn, "t", id, "", "text", true, None, NonDestructive, Reversible)])
  }

  /** A plan with these phases where only entries i and j do anything. */
  function ProbePlan(timings: seq<MigrationTiming>, i: nat, j: nat): RolloutPlan {
    var wl := Workload("w", "svc", 1, RolloutStrategy(StrategyRecreate, IntOrPercent(false, 0, 0), IntOrPercent(false, 0, 0)));
    RolloutPlan(Schema(map[]), [WorkloadChange(wl, "v1", "v2")],
      seq(|timings|, k requires 0 <= k < |timings| =>
        MigrationTiming(if k == i then Probe("x") else if k == j then Probe("y") else Migration("idle", []), timings[k].phase)),
      None, [])
  }

  lemma ProbesDiffer()
    ensures Tagged(Probe("x")) + Tagged(Probe("y")) !in
            {[], Tagged(Probe("y")), Tagged(Probe("x")), Tagged(Probe("y")) + Tagged(Probe("x"))}
    ensures Tagged(Probe("y")) + Tagged(Probe("x")) !in
            {[], Tagged(Probe("x")), Tagged(Probe("y")), Tagged(Probe("x")) + Tagged(Probe("y"))}
  {
    var x, y := Tagged(Probe("x")), Tagged(Probe("y"));
    assert |x| == 1 && |y| == 1 && x[0].id == "x" && y[0].id == "y";
    assert (x + y)[0].id == "x" && (y + x)[0].id == "y";
  }

  /** Entries i and j commit in the other order once entry i has moved. */
  ghost predicate Overtakes(timings: seq<MigrationTiming>, i: nat, j: nat, to: MigrationPhase)
    requires i < |timings| && j < |timings|
  {
    i != j && Precedes(timings, i, j) != Precedes(timings[i := timings[i].(phase := to)], i, j)
  }

  lemma PrecedesTotal(timings: seq<MigrationTiming>, a: nat, b: nat)
    requires a < |timings| && b < |timings| && a != b
    ensures Precedes(timings, a, b) != Precedes(timings, b, a)
  {
  }

  lemma OvertakingAddsState(timings: seq<MigrationTiming>, i: nat, j: nat, to: MigrationPhase)
    requires i < |timings| && j < |timings| && Overtakes(timings, i, j, to)
    requires to != PhaseUnknown && forall k :: 0 <= k < |timings| ==> timings[k].phase != PhaseUnknown
    ensures !NeverAddsState(timings, i, to)
  {
    hide OfPhase, Valid, SchemaStateAt, Trail, Select, Tagged, Ordered, IsSpread, Precedes;
    var plan := ProbePlan(timings, i, j);
    var moved := MovedTo(plan, i, to);
    assert PlanValid(plan) && SamePhases(plan.migrations, timings);
    var m, n := MachineOf(plan, [], false), MachineOf(moved, [], false);
    SamePrecedence(plan.migrations, timings, i, j);
    SamePrecedence(moved.migrations, timings[i := timings[i].(phase := to)], i, j);
    PrecedesTotal(plan.migrations, i, j);
    PrecedesTotal(moved.migrations, i, j);
    TargetTrail(moved);
    ProbesDiffer();
    if StatesWithin(n, m) {
      assert Reaches(m, TargetOf(n).steps, SchemaStateAt(n, TargetOf(n)));
      var q :| Valid(m, q) && SchemaStateAt(m, q) == SchemaStateAt(n, TargetOf(n));
      var bits := StateTrail(plan, q);
      if Precedes(plan.migrations, i, j) {
        OrderedIsSpread(plan.migrations, i, j);
        OrderedIsSpread(moved.migrations, j, i);
        SpreadTrail(Ordered(plan.migrations), Probe("x"), Probe("y"), bits);
        FullSpreadTrail(Ordered(moved.migrations), Probe("y"), Probe("x"));
      } else {
        OrderedIsSpread(plan.migrations, j, i);
        OrderedIsSpread(moved.migrations, i, j);
        SpreadTrail(Ordered(plan.migrations), Probe("y"), Probe("x"), bits);
        FullSpreadTrail(Ordered(moved.migrations), Probe("x"), Probe("y"));
      }
    }
  }

  lemma SamePrecedence(a: seq<MigrationTiming>, b: seq<MigrationTiming>, i: nat, j: nat)
    requires SamePhases(a, b) && i < |a| && j < |a|
    ensures Precedes(a, i, j) == Precedes(b, i, j)
  {
  }

  /** A move that breaks the list order lets the migration overtake, or be overtaken by, another. */
  lemma OutOfTurnOvertakes(timings: seq<MigrationTiming>, i: nat, to: MigrationPhase) returns (j: nat)
    requires i < |timings| && timings[i].phase == PhaseDuringRollout && !CanMove(timings, i, to)
    requires to == PhaseBeforeRollout || to == PhaseAfterRollout
    ensures j < |timings| && Overtakes(timings, i, j, to)
  {
    if to == PhaseAfterRollout {
      if k :| i < k < |timings| && timings[k].phase == PhaseDuringRollout {
        j := k;
      } else {
        j :| 0 <= j < i && timings[j].phase == PhaseAfterRollout;
      }
    } else {
      if k :| 0 <= k < i && timings[k].phase == PhaseDuringRollout {
        j := k;
      } else {
        j :| i < j < |timings| && timings[j].phase == PhaseBeforeRollout;
      }
    }
  }

  /**
   For a fixed list of phases, moving a during-migration adds no state whatever the
   migrations hold if and only if it is the last one, moving to after with no
   after-migration listed before it, or the first one, moving to before with no
   before-migration listed after it.
   */
  lemma MoveExactly(timings: seq<MigrationTiming>, i: nat, to: MigrationPhase)
    requires i < |timings| && timings[i].phase == PhaseDuringRollout
    requires to == PhaseBeforeRollout || to == PhaseAfterRollout
    requires forall k :: 0 <= k < |timings| ==> timings[k].phase != PhaseUnknown
    ensures NeverAddsState(timings, i, to) <==> CanMove(timings, i, to)
  {
    hide StatesWithin, PlanValid, MachineOf, MovedTo, Overtakes;
    if CanMove(timings, i, to) {
      forall plan | PlanValid(plan) && SamePhases(plan.migrations, timings)
        ensures StatesWithin(MachineOf(MovedTo(plan, i, to), [], false), MachineOf(plan, [], false))
      {
        MoveAddsNoState(plan, i, to);
      }
    } else {
      var j := OutOfTurnOvertakes(timings, i, to);
      OvertakingAddsState(timings, i, j, to);
    }
  }
}
