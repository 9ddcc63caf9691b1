/**
 The column and rollback verdicts do not depend on how versions coexist: two plans
 that differ only in rollout strategies and replica counts get the same ones.
 */
module Independence {
  import opened Wrappers
  import opened Verdicts
  import opened Schemas
  import opened Rollout
  import opened Replay
  import opened Numbering
  import opened Machines
  import opened Graphs
  import opened GraphTheory
  import opened Checks
  import opened Engine
  import opened ExpandContract
  import opened Family
  import opened RollbackClass
  import opened Rollback
  import opened Pairs

  /** The same versions of the same services, workload by workload. */
  ghost predicate SameVersions(a: seq<WorkloadChange>, b: seq<WorkloadChange>) {
    |a| == |b|
    && forall w :: 0 <= w < |a| ==>
         && a[w].workload.serviceName == b[w].workload.serviceName
         && a[w].fromVersion == b[w].fromVersion && a[w].toVersion == b[w].toVersion
  }

  ghost predicate SameTarget(a: Option<RollbackTarget>, b: Option<RollbackTarget>) {
    && a.Some? == b.Some?
    && (a.Some? ==> a.value.workload.serviceName == b.value.workload.serviceName && a.value.toVersion == b.value.toVersion)
  }

  /** Two plans that differ at most in workload names, strategies and replica counts. */
  ghost predicate SameButStrategy(p: RolloutPlan, q: RolloutPlan) {
    && p.baseSchema == q.baseSchema && p.migrations == q.migrations && p.expandContractLinks == q.expandContractLinks
    && SameVersions(p.workloads, q.workloads) && SameTarget(p.rollbackTarget, q.rollbackTarget)
  }

  lemma PlanPairMoves(m: Machine, wm: seq<WorkloadChange>, n: Machine, wn: seq<WorkloadChange>, lv: LiveVersion, ss: SchemaState)
    requires m.base == n.base && m.during == n.during && m.after == n.after && SameVersions(wm, wn)
    requires PlanPair(m, wm, lv, ss)
    ensures PlanPair(n, wn, lv, ss)
  {
    hide Commit, Trail, Select;
    if w: nat, bits: seq<bool> :| DuringPair(m, wm, lv, ss, w, bits) {
      assert DuringPair(n, wn, lv, ss, w, bits);
    } else {
      var w: nat, k: nat :| AfterPair(m, wm, lv, ss, w, k);
      assert AfterPair(n, wn, lv, ss, w, k);
    }
  }

  /** Graphs of machines that share migrations and versions show the same pairs. */
  lemma SamePairs(m: Machine, wm: seq<WorkloadChange>, g: Graph, n: Machine, wn: seq<WorkloadChange>, h: Graph)
    requires BuiltFor(m, wm, g) && BuiltFor(n, wn, h)
    requires m.base == n.base && m.during == n.during && m.after == n.after && SameVersions(wm, wn) && |wm| > 0
    ensures Covered(g.nodes) && Covered(h.nodes) && PairsWithin(g.nodes, h.nodes) && PairsWithin(h.nodes, g.nodes)
  {
    hide BuiltFor, PlanPair, Occurs, Covered;
    GraphPairs(m, wm, g);
    GraphPairs(n, wn, h);
    forall lv, ss | PlanPair(m, wm, lv, ss) ensures PlanPair(n, wn, lv, ss) {
      PlanPairMoves(m, wm, n, wn, lv, ss);
    }
    forall lv, ss | PlanPair(n, wn, lv, ss) ensures PlanPair(m, wm, lv, ss) {
      PlanPairMoves(n, wn, m, wm, lv, ss);
    }
  }

  /** The state every rollout of the plan ends in. */
  lemma TargetState(m: Machine, g: Graph)
    requires GraphOf(m, g)
    ensures g.target < |g.nodes|
    ensures g.nodes[g.target].schemaState == StateWith(m, m.AllDuring(), |m.after|)
  {
    hide IsStep, IsAdjacency, Encode, Decode, Commit, Trail, Select, CanonicalOf, LiveAt;
    StartValid(m);
    NodeOf(m, g, TargetOf(m));
  }

  /** Every verdict of RP-DB-001..006, and the state a rollback starts from. */
  lemma ForwardIndependence(p: RolloutPlan, g: Graph, q: RolloutPlan, h: Graph, services: Services)
    requires PlanValid(p) && SameButStrategy(p, q)
    requires GraphOf(MachineOf(p, [], false), g) && GraphOf(MachineOf(q, [], false), h)
    ensures forall check, vacuousWhenNoOp ::
      CheckVerdict(check, vacuousWhenNoOp, services, g.nodes) == CheckVerdict(check, vacuousWhenNoOp, services, h.nodes)
    ensures ExpandContractVerdict(p) == ExpandContractVerdict(q)
    ensures g.target < |g.nodes| && h.target < |h.nodes|
    ensures g.nodes[g.target].schemaState == h.nodes[h.target].schemaState
    ensures forall col :: SomeLiveVersionWrites(g.nodes, services, col) <==> SomeLiveVersionWrites(h.nodes, services, col)
  {
    hide CheckVerdict, Occurs, Covered, GraphOf, OfPhase, Commit, Trail, StateWith, SomeLiveVersionWrites, PairsWithin;
    var m, n := MachineOf(p, [], false), MachineOf(q, [], false);
    SamePairs(m, p.workloads, g, n, q.workloads, h);
    forall check, vacuousWhenNoOp
      ensures CheckVerdict(check, vacuousWhenNoOp, services, g.nodes) == CheckVerdict(check, vacuousWhenNoOp, services, h.nodes)
    {
      SamePairsSameVerdict(check, vacuousWhenNoOp, services, g.nodes, h.nodes);
    }
    SameExpandContract(p, q);
    TargetState(m, g);
    TargetState(n, h);
    SameStateWith(m, n);
    forall col ensures SomeLiveVersionWrites(g.nodes, services, col) <==> SomeLiveVersionWrites(h.nodes, services, col) {
      WritersMove(g.nodes, h.nodes, services, col);
      WritersMove(h.nodes, g.nodes, services, col);
    }
  }

  lemma SameStateWith(m: Machine, n: Machine)
    requires m.base == n.base && m.during == n.during && m.after == n.after
    ensures StateWith(m, m.AllDuring(), |m.after|) == StateWith(n, n.AllDuring(), |n.after|)
  {
    hide Commit, Trail, Select;
    assert m.AllDuring() == n.AllDuring();
  }

  lemma SameExpandContract(p: RolloutPlan, q: RolloutPlan)
    requires p.migrations == q.migrations && p.expandContractLinks == q.expandContractLinks
    ensures ExpandContractVerdict(p) == ExpandContractVerdict(q)
  {
    assert forall link :: LinkViolates(p, link) == LinkViolates(q, link);
  }

  lemma WritersMove(a: seq<RolloutState>, b: seq<RolloutState>, services: Services, col: ColumnRef)
    requires PairsWithin(a, b)
    ensures SomeLiveVersionWrites(a, services, col) ==> SomeLiveVersionWrites(b, services, col)
  {
    if s, lv :| s in a && lv in s.live && KeyOf(lv) in services && services[KeyOf(lv)].WritesColumn(col) {
      assert Occurs(a, lv, s.schemaState);
      assert Occurs(b, lv, s.schemaState);
      var t :| t in b && lv in t.live && t.schemaState == s.schemaState;
    }
  }

  // ---- rollback ----

  /** RP-ROLLBACK-002 too depends on the pairs of its graph alone. */
  lemma SamePairsSameFamily(services: Services, a: seq<RolloutState>, b: seq<RolloutState>)
    requires Covered(a) && Covered(b) && PairsWithin(a, b) && PairsWithin(b, a)
    ensures FamilyVerdict(services, a) == FamilyVerdict(services, b)
  {
    hide CheckVerdict, Covered, PairsWithin, CheckAt;
    forall i | 0 <= i < 5
      ensures CheckVerdict(CheckAt(i), false, services, a) == CheckVerdict(CheckAt(i), false, services, b)
    {
      SamePairsSameVerdict(CheckAt(i), false, services, a, b);
    }
  }

  lemma RollbackPairs(p: RolloutPlan, q: RolloutPlan, left: SchemaState, g: Graph, h: Graph)
    requires SameButStrategy(p, q) && p.rollbackTarget.Some? && |p.workloads| > 0
    requires GraphOf(RollbackMachine(p, left), g) && GraphOf(RollbackMachine(q, left), h)
    ensures Covered(g.nodes) && Covered(h.nodes) && PairsWithin(g.nodes, h.nodes) && PairsWithin(h.nodes, g.nodes)
  {
    hide Covered, PairsWithin, GraphOf;
    SamePairs(RollbackMachine(p, left), RollbackPlan(p, left).workloads, g,
              RollbackMachine(q, left), RollbackPlan(q, left).workloads, h);
  }

  lemma IrreversibleIndependence(p: RolloutPlan, q: RolloutPlan, a: seq<RolloutState>, b: seq<RolloutState>,
                                 trail: seq<CommittedOp>, services: Services)
    requires SameButStrategy(p, q) && p.rollbackTarget.Some?
    requires forall col :: SomeLiveVersionWrites(a, services, col) <==> SomeLiveVersionWrites(b, services, col)
    ensures IrreversibleVerdict(p, a, trail, services) == IrreversibleVerdict(q, b, trail, services)
  {
    hide SomeLiveVersionWrites, RemovalGapIn;
    assert TargetKey(p) == TargetKey(q);
    assert forall gap :: IrreversibleGap(p, trail, services, gap) == IrreversibleGap(q, trail, services, gap);
    if TargetKey(p) in services {
      var svc := services[TargetKey(p)];
      assert forall op :: Irrecoverable(a, services, svc, op) == Irrecoverable(b, services, svc, op);
    }
  }

  /**
   RP-DB-001..007 and RP-ROLLBACK-001..003 give two plans that differ only in
   strategies and replica counts the same verdicts, and so does the four-state class.
   */
  lemma StrategyIndependence(p: RolloutPlan, g: Graph, dp: seq<Diagnostic>, rp: seq<Diagnostic>, rg: Graph,
                             q: RolloutPlan, h: Graph, dq: seq<Diagnostic>, rq: seq<Diagnostic>, rh: Graph,
                             services: Services)
    requires PlanValid(p) && SameButStrategy(p, q)
    requires GraphOf(MachineOf(p, [], false), g) && GraphOf(MachineOf(q, [], false), h)
    requires g.target < |g.nodes| && h.target < |h.nodes|
    requires DecidesFamily(p, g, services, true, dp) && DecidesFamily(q, h, services, true, dq)
    requires p.rollbackTarget.Some?
    requires DecidesRollbackPlan(p, g, services, rp, rg) && DecidesRollbackPlan(q, h, services, rq, rh)
    ensures forall i :: 0 <= i < 6 ==> dp[i].verdict == dq[i].verdict
    ensures forall i :: 0 <= i < 4 ==> rp[i].verdict == rq[i].verdict
    ensures rp[3].rollbackVerdict == rq[3].rollbackVerdict
  {
    hide CheckVerdict, GraphOf, ExpandContractVerdict, BestCounterexample, GapIn, CheckAt, MachineOf, IsRollbackClass,
         FamilyVerdict, IrreversibleVerdict, FamilyGap, FamilyCounterexample, IrreversibleGap, SomeLiveVersionWrites, PlanValid,
         ShowsCarrying, IsLeastViolating, Covered, PairsWithin;
    ForwardIndependence(p, g, q, h, services);
    forall i | 0 <= i < 6 ensures dp[i].verdict == dq[i].verdict {
      assert i < 5 ==> Decides(CheckAt(i), true, g, services, dp[i]) && Decides(CheckAt(i), true, h, services, dq[i]);
    }
    var left := g.nodes[g.target].schemaState;
    IrreversibleIndependence(p, q, g.nodes, h.nodes, left.committedOps, services);
    if RollbackBuildable(p) {
      RollbackPairs(p, q, left, rg, rh);
      SamePairsSameFamily(services, rg.nodes, rh.nodes);
    }
    assert rp[2].verdict == rq[2].verdict;
    SameClass(p, q, left, services, rp[2].verdict, rp[3].rollbackVerdict, rq[3].rollbackVerdict);
  }

  lemma SameClass(p: RolloutPlan, q: RolloutPlan, left: SchemaState, services: Services, rollback002: Verdict,
                  a: RollbackVerdict, b: RollbackVerdict)
    requires p.rollbackTarget.Some? && SameButStrategy(p, q)
    requires IsRollbackClass(p, left, services, rollback002, a) && IsRollbackClass(q, left, services, rollback002, b)
    ensures a == b
  {
    hide OpClass;
    assert IsRollbackClass(p, left, services, rollback002, b);
    RollbackClassUnique(p, left, services, rollback002, a, b);
  }
}
