/**
 Contract files are evidence: loading more of them can settle an UNKNOWN verdict of
 the column family, but never overturns SAFE or UNSAFE. So leaving evidence out
 never makes a plan look safe.
 */
module Refinement {
  import opened Wrappers
  import opened Verdicts
  import opened Schemas
  import opened Rollout
  import opened Replay
  import opened Machines
  import opened Graphs
  import opened Checks
  import opened Engine
  import opened Family
  import opened RollbackClass
  import opened Rollback
  import opened Coherence

  /** Every contract file of a is also loaded in b, unchanged. */
  ghost predicate MoreEvidence(a: Services, b: Services) {
    forall key :: key in a ==> key in b && b[key] == a[key]
  }

  lemma ViolationStays(check: Check, a: Services, b: Services, s: RolloutState, v: Violation)
    requires MoreEvidence(a, b) && IsViolation(check, a, s, v)
    ensures IsViolation(check, b, s, v)
  {
    hide Offends;
  }

  /** A version whose contract only b has is itself a gap under a, wherever the check concerns it. */
  lemma NewViolationWasGap(check: Check, a: Services, b: Services, s: RolloutState, v: Violation)
    requires MoreEvidence(a, b) && IsViolation(check, b, s, v) && !IsViolation(check, a, s, v)
    ensures exists gap :: IsGap(check, a, s, gap)
  {
    hide Concerns, PriorTypeGap;
    var gap := NoContract(KeyOf(v.live));
    assert KeyOf(v.live) !in a;
    if !check.CheckExistence? {
      assert Concerns(check, s.schemaState, v.col, v.cause) && EvidenceGap(a, v.live, v.col.table) == Some(gap);
    }
    assert VersionGap(check, a, v.live, s.schemaState, gap);
    assert IsGap(check, a, s, gap);
  }

  lemma GapWasGap(check: Check, a: Services, b: Services, s: RolloutState, gap: Gap)
    requires MoreEvidence(a, b) && IsGap(check, b, s, gap)
    ensures exists g :: IsGap(check, a, s, g)
  {
    hide Concerns, PriorTypeGap;
    if s.schemaState.indeterminate || PriorTypeGap(check, s.schemaState, gap) {
      assert IsGap(check, a, s, gap);
    } else {
      var lv :| lv in s.live && VersionGap(check, b, lv, s.schemaState, gap);
      var g := if KeyOf(lv) in a then gap else NoContract(KeyOf(lv));
      if !check.CheckExistence? {
        var col, cause :| Concerns(check, s.schemaState, col, cause) && EvidenceGap(b, lv, col.table) == Some(gap);
        assert EvidenceGap(a, lv, col.table) == Some(g);
      }
      assert VersionGap(check, a, lv, s.schemaState, g);
      assert IsGap(check, a, s, g);
    }
  }

  /** Settled verdicts of RP-DB-001..005 are final. */
  lemma EvidenceRefines(check: Check, vacuousWhenNoOp: bool, a: Services, b: Services, nodes: seq<RolloutState>)
    requires MoreEvidence(a, b)
    requires CheckVerdict(check, vacuousWhenNoOp, a, nodes) != VerdictUnknown
    ensures CheckVerdict(check, vacuousWhenNoOp, b, nodes) == CheckVerdict(check, vacuousWhenNoOp, a, nodes)
  {
    hide IsViolation, IsGap;
    if v :| ViolationIn(check, a, nodes, v) {
      var s :| s in nodes && IsViolation(check, a, s, v);
      ViolationStays(check, a, b, s, v);
      assert ViolationIn(check, b, nodes, v);
    } else if !NotApplicable(check, vacuousWhenNoOp, nodes) {
      FindingWasFinding(check, a, b, nodes);
    }
  }

  lemma FindingWasFinding(check: Check, a: Services, b: Services, nodes: seq<RolloutState>)
    requires MoreEvidence(a, b)
    ensures AnyViolation(check, b, nodes) || AnyGap(check, b, nodes) ==> AnyViolation(check, a, nodes) || AnyGap(check, a, nodes)
  {
    hide IsViolation, IsGap;
    if v :| ViolationIn(check, b, nodes, v) {
      var s :| s in nodes && IsViolation(check, b, s, v);
      if IsViolation(check, a, s, v) {
        assert ViolationIn(check, a, nodes, v);
      } else {
        NewViolationWasGap(check, a, b, s, v);
        var gap :| IsGap(check, a, s, gap);
        assert GapIn(check, a, nodes, gap);
      }
    } else if gap :| GapIn(check, b, nodes, gap) {
      var s :| s in nodes && IsGap(check, b, s, gap);
      GapWasGap(check, a, b, s, gap);
      var g :| IsGap(check, a, s, g);
      assert GapIn(check, a, nodes, g);
    }
  }

  /** Settled verdicts of RP-ROLLBACK-002 are final. */
  lemma EvidenceRefinesFamily(a: Services, b: Services, nodes: seq<RolloutState>)
    requires MoreEvidence(a, b) && FamilyVerdict(a, nodes) != VerdictUnknown
    ensures FamilyVerdict(b, nodes) == FamilyVerdict(a, nodes)
  {
    hide CheckVerdict, CheckAt;
    forall i | 0 <= i < 5 && CheckVerdict(CheckAt(i), false, a, nodes) != VerdictUnknown
      ensures CheckVerdict(CheckAt(i), false, b, nodes) == CheckVerdict(CheckAt(i), false, a, nodes)
    {
      EvidenceRefines(CheckAt(i), false, a, b, nodes);
    }
  }

  /**
   A conditionally reversible removal the target depends on, in a graph where some live
   version has no contract file yet: one that would show it writes the column is enough.
   */
  ghost predicate Exposed(plan: RolloutPlan, nodes: seq<RolloutState>, trail: seq<CommittedOp>, services: Services)
    requires plan.rollbackTarget.Some? && TargetKey(plan) in services
  {
    && (exists cop :: cop in trail && ConditionallyLost(services[TargetKey(plan)], cop.op))
    && exists s, lv :: s in nodes && lv in s.live && KeyOf(lv) !in services
  }

  predicate ConditionallyLost(svc: Service, op: MigrationOp) {
    && RemovesColumn(op) && svc.TouchesTable(op.table) && DependsOn(svc, op.TargetColumn())
    && op.reversibility == ConditionallyReversible
  }

  lemma WritersStay(nodes: seq<RolloutState>, a: Services, b: Services, col: ColumnRef)
    requires MoreEvidence(a, b) && SomeLiveVersionWrites(nodes, a, col)
    ensures SomeLiveVersionWrites(nodes, b, col)
  {
    var s, lv :| s in nodes && lv in s.live && KeyOf(lv) in a && a[KeyOf(lv)].WritesColumn(col);
    assert KeyOf(lv) in b && b[KeyOf(lv)].WritesColumn(col);
  }

  lemma NewWriterIsNewContract(nodes: seq<RolloutState>, a: Services, b: Services, col: ColumnRef)
    requires MoreEvidence(a, b) && SomeLiveVersionWrites(nodes, b, col) && !SomeLiveVersionWrites(nodes, a, col)
    ensures exists s, lv :: s in nodes && lv in s.live && KeyOf(lv) !in a
  {
    var s, lv :| s in nodes && lv in s.live && KeyOf(lv) in b && b[KeyOf(lv)].WritesColumn(col);
    assert KeyOf(lv) !in a;
  }

  lemma SameIrreversibleGaps(plan: RolloutPlan, trail: seq<CommittedOp>, a: Services, b: Services)
    requires plan.rollbackTarget.Some? && MoreEvidence(a, b) && TargetKey(plan) in a
    ensures forall gap :: IrreversibleGap(plan, trail, a, gap) <==> IrreversibleGap(plan, trail, b, gap)
  {
    hide RemovalGapIn;
  }

  lemma IrrecoverableStays(plan: RolloutPlan, nodes: seq<RolloutState>, trail: seq<CommittedOp>, a: Services, b: Services)
    requires plan.rollbackTarget.Some? && MoreEvidence(a, b) && TargetKey(plan) in a
    requires AnyIrrecoverable(nodes, a, a[TargetKey(plan)], trail)
    ensures AnyIrrecoverable(nodes, b, b[TargetKey(plan)], trail)
  {
    hide SomeLiveVersionWrites;
    var svc := a[TargetKey(plan)];
    var cop :| cop in trail && Irrecoverable(nodes, a, svc, cop.op);
    if cop.op.reversibility == ConditionallyReversible {
      WritersStay(nodes, a, b, cop.op.TargetColumn());
    }
    assert Irrecoverable(nodes, b, svc, cop.op);
  }

  lemma NewIrrecoverableWasExposed(plan: RolloutPlan, nodes: seq<RolloutState>, trail: seq<CommittedOp>, a: Services, b: Services)
    requires plan.rollbackTarget.Some? && MoreEvidence(a, b) && TargetKey(plan) in a
    requires AnyIrrecoverable(nodes, b, b[TargetKey(plan)], trail) && !AnyIrrecoverable(nodes, a, a[TargetKey(plan)], trail)
    ensures Exposed(plan, nodes, trail, a)
  {
    hide SomeLiveVersionWrites;
    var svc := a[TargetKey(plan)];
    var cop :| cop in trail && Irrecoverable(nodes, b, svc, cop.op);
    assert !Irrecoverable(nodes, a, svc, cop.op);
    NewWriterIsNewContract(nodes, a, b, cop.op.TargetColumn());
    assert ConditionallyLost(svc, cop.op);
  }

  /** What an exposed removal needs: one more contract file. */
  lemma ExposedIsOverturned(plan: RolloutPlan, nodes: seq<RolloutState>, trail: seq<CommittedOp>, a: Services) returns (b: Services)
    requires plan.rollbackTarget.Some? && TargetKey(plan) in a && Exposed(plan, nodes, trail, a)
    ensures MoreEvidence(a, b) && IrreversibleVerdict(plan, nodes, trail, b) == VerdictUnsafe
  {
    hide RemovalGapIn;
    var svc := a[TargetKey(plan)];
    var cop :| cop in trail && ConditionallyLost(svc, cop.op);
    var s, lv :| s in nodes && lv in s.live && KeyOf(lv) !in a;
    var col := cop.op.TargetColumn();
    b := a[KeyOf(lv) := Service([], [col], [], [], [])];
    assert KeyOf(lv) in b && b[KeyOf(lv)].WritesColumn(col);
    assert SomeLiveVersionWrites(nodes, b, col);
    assert Irrecoverable(nodes, b, svc, cop.op);
    assert AnyIrrecoverable(nodes, b, svc, trail);
  }

  /**
   A settled verdict of RP-DB-007 and RP-ROLLBACK-001 survives every further contract
   file exactly when it is UNSAFE or nothing is exposed.
   */
  lemma EvidenceRefinesIrreversible(plan: RolloutPlan, nodes: seq<RolloutState>, trail: seq<CommittedOp>, a: Services)
    requires plan.rollbackTarget.Some? && TargetKey(plan) in a
    requires IrreversibleVerdict(plan, nodes, trail, a) != VerdictUnknown
    ensures (forall b :: MoreEvidence(a, b) ==>
               IrreversibleVerdict(plan, nodes, trail, b) == IrreversibleVerdict(plan, nodes, trail, a)) <==>
            IrreversibleVerdict(plan, nodes, trail, a) == VerdictUnsafe || !Exposed(plan, nodes, trail, a)
  {
    hide AnyIrrecoverable, IrreversibleGap, Exposed;
    var v := IrreversibleVerdict(plan, nodes, trail, a);
    forall b | MoreEvidence(a, b) && (v == VerdictUnsafe || !Exposed(plan, nodes, trail, a))
      ensures IrreversibleVerdict(plan, nodes, trail, b) == v
    {
      SameIrreversibleGaps(plan, trail, a, b);
      if v == VerdictUnsafe {
        IrrecoverableStays(plan, nodes, trail, a, b);
      } else if AnyIrrecoverable(nodes, b, b[TargetKey(plan)], trail) {
        NewIrrecoverableWasExposed(plan, nodes, trail, a, b);
      }
    }
    if v == VerdictSafe && Exposed(plan, nodes, trail, a) {
      var b := ExposedIsOverturned(plan, nodes, trail, a);
    }
  }

  /** Without a contract for the target the verdict is not settled. */
  lemma NoContractIsUnknown(plan: RolloutPlan, nodes: seq<RolloutState>, trail: seq<CommittedOp>, services: Services)
    requires plan.rollbackTarget.Some?
    ensures TargetKey(plan) !in services ==> IrreversibleVerdict(plan, nodes, trail, services) == VerdictUnknown
  {
    if TargetKey(plan) !in services {
      assert IrreversibleGap(plan, trail, services, NoContract(TargetKey(plan)));
    }
  }

  /** Operations classified as the parser classifies them expose nothing. */
  lemma ClassifiedIsNotExposed(plan: RolloutPlan, nodes: seq<RolloutState>, trail: seq<CommittedOp>, services: Services)
    requires plan.rollbackTarget.Some? && TargetKey(plan) in services && ClassifiedTrail(trail)
    ensures !Exposed(plan, nodes, trail, services)
  {
    forall cop | cop in trail ensures !ConditionallyLost(services[TargetKey(plan)], cop.op) {
      var i :| 0 <= i < |trail| && trail[i] == cop;
      assert Classified(trail[i].op);
    }
  }
}
