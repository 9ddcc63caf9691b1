/** Which operations a node's trail holds, and that every trail replays. */
module Trails {
  import opened Wrappers
  import opened Schemas
  import opened Rollout
  import opened Replay
  import opened Machines
  import opened Graphs

  lemma {:induction false} SelectMember(ms: seq<Migration>, bits: seq<bool>, m: Migration)
    requires |bits| == |ms|
    ensures m in Select(ms, bits) <==> exists k :: 0 <= k < |ms| && bits[k] && ms[k] == m
    decreases |ms|
  {
    if ms != [] {
      var n := |ms| - 1;
      SelectMember(ms[..n], bits[..n], m);
      if k :| 0 <= k < n && bits[..n][k] && ms[..n][k] == m {
        assert bits[k] && ms[k] == m;
      }
      if k :| 0 <= k < |ms| && bits[k] && ms[k] == m {
        assert k == n || (bits[..n][k] && ms[..n][k] == m);
      }
    }
  }

  lemma {:induction false} OfPhaseMember(timings: seq<MigrationTiming>, phase: MigrationPhase, m: Migration)
    ensures m in OfPhase(timings, phase) <==> MigrationTiming(m, phase) in timings
    decreases |timings|
  {
    if timings != [] {
      var n := |timings| - 1;
      OfPhaseMember(timings[..n], phase, m);
      assert timings == timings[..n] + [timings[n]];
    }
  }

  /** A migration of that ID, with at least one operation, is among ms. */
  ghost predicate Mentions(ms: seq<Migration>, id: string) {
    exists m :: m in ms && m.id == id && m.operations != []
  }

  ghost predicate Holds(trail: seq<TaggedOp>, id: string) {
    exists t :: t in trail && t.id == id
  }

  lemma {:induction false} TrailMentions(ms: seq<Migration>, id: string)
    ensures Holds(Trail(ms), id) <==> Mentions(ms, id)
    decreases |ms|
  {
    if ms != [] {
      var n := |ms| - 1;
      TrailMentions(ms[..n], id);
      assert ms == ms[..n] + [ms[n]];
      if t :| t in Tagged(ms[n]) && t.id == id {
        assert ms[n] in ms && ms[n].operations != [];
      }
      if ms[n].id == id && ms[n].operations != [] {
        assert Tagged(ms[n])[0] in Trail(ms);
      }
      if t :| t in Trail(ms[..n]) && t.id == id {
        assert t in Trail(ms);
      }
    }
  }

  /** The IDs of a plan's node: those of the before-migrations and of what has committed at p. */
  lemma NodeTrail(plan: RolloutPlan, p: Progress, id: string)
    requires ThreeSteps(MachineOf(plan, [], false)) && Valid(MachineOf(plan, [], false), p)
    ensures var m := MachineOf(plan, [], false);
            (exists cop :: cop in SchemaStateAt(m, p).committedOps && cop.migrationID == id) <==>
            Mentions(OfPhase(plan.migrations, PhaseBeforeRollout), id) || Mentions(CommittedAt(m, p), id)
  {
    hide Commit, Trail, Mentions, Valid, CommittedAt, OfPhase;
    var m := MachineOf(plan, [], false);
    var before := OfPhase(plan.migrations, PhaseBeforeRollout);
    var empty := SchemaState(plan.baseSchema, [], false);
    var ss := SchemaStateAt(m, p);
    CommitGrowsTrail(empty, Trail(before));
    CommitGrowsTrail(m.base, Trail(CommittedAt(m, p)));
    assert Tags(ss.committedOps) == Trail(before) + Trail(CommittedAt(m, p));
    TrailMentions(before, id);
    TrailMentions(CommittedAt(m, p), id);
    TagsHold(ss.committedOps, id);
    HoldsAppend(Trail(before), Trail(CommittedAt(m, p)), id);
  }

  lemma HoldsAppend(a: seq<TaggedOp>, b: seq<TaggedOp>, id: string)
    ensures Holds(a + b, id) <==> Holds(a, id) || Holds(b, id)
  {
    if t :| t in a && t.id == id { assert t in a + b; }
    if t :| t in b && t.id == id { assert t in a + b; }
  }

  lemma TagsHold(trail: seq<CommittedOp>, id: string)
    ensures Holds(Tags(trail), id) <==> exists cop :: cop in trail && cop.migrationID == id
  {
    if cop :| cop in trail && cop.migrationID == id {
      var i :| 0 <= i < |trail| && trail[i] == cop;
      assert Tags(trail)[i].id == id;
      assert Tags(trail)[i] in Tags(trail);
    }
    if t :| t in Tags(trail) && t.id == id {
      var i :| 0 <= i < |trail| && Tags(trail)[i] == t;
      assert trail[i] in trail && trail[i].migrationID == id;
    }
  }

  lemma StateReplays(plan: RolloutPlan, p: Progress)
    requires ThreeSteps(MachineOf(plan, [], false)) && Valid(MachineOf(plan, [], false), p)
    ensures TrailAgrees(plan.baseSchema, SchemaStateAt(MachineOf(plan, [], false), p))
  {
    hide TrailAgrees, Commit, Trail, CommittedAt, OfPhase, Valid;
    var m := MachineOf(plan, [], false);
    EmptyTrailAgrees(plan.baseSchema);
    CommitKeepsTrail(plan.baseSchema, SchemaState(plan.baseSchema, [], false), Trail(OfPhase(plan.migrations, PhaseBeforeRollout)));
    CommitKeepsTrail(plan.baseSchema, m.base, Trail(CommittedAt(m, p)));
  }

  /**
   In every node of a plan's graph, the schema is the longest successful prefix of
   the trail applied to the plan's base schema, the state is indeterminate exactly
   when some operation of the trail fails, and each prior type is the type just before.
   */
  lemma NodesReplay(plan: RolloutPlan, g: Graph)
    requires GraphOf(MachineOf(plan, [], false), g)
    ensures forall i :: 0 <= i < |g.nodes| ==> TrailAgrees(plan.baseSchema, g.nodes[i].schemaState)
  {
    hide TrailAgrees, SchemaStateAt, MachineOf, Decode, CanonicalOf, LiveAt, Valid, IsStep, IsAdjacency;
    var m := MachineOf(plan, [], false);
    forall i | 0 <= i < |g.nodes| ensures TrailAgrees(plan.baseSchema, g.nodes[i].schemaState) {
      assert IsNode(m, i, g.nodes[i]);
      DecodeRoundTrip(m, i);
      StateReplays(plan, Decode(m, i));
    }
  }
}
