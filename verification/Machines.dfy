/**
 The abstract rollout machine: each workload steps through its progression, each
 during-rollout migration commits at any moment, and the after-rollout migrations
 commit in list order once everything else is done. Its states are numbered the
 way internal/graph/graph.go numbers graph nodes.
 */
module Machines {
  import opened Wrappers
  import opened Schemas
  import opened Rollout
  import opened Replay
  import opened Numbering

  datatype WorkloadStep = WorkloadStep(live: seq<LiveVersion>, eventFromPrev: TransitionEvent)

  const NO_EVENT := TransitionEvent(EventUnknown, "")

  function Old(wc: WorkloadChange): LiveVersion {
    LiveVersion(wc.workload.serviceName, wc.fromVersion)
  }

  function New(wc: WorkloadChange): LiveVersion {
    LiveVersion(wc.workload.serviceName, wc.toVersion)
  }

  function Label(lv: LiveVersion): string {
    lv.serviceName + "@" + lv.version
  }

  /** The steps of one workload change: old, then both or neither, then new. */
  function Progression(wc: WorkloadChange): (steps: seq<WorkloadStep>)
    ensures |steps| == 3
  {
    var before, after := Old(wc), New(wc);
    if AllowsCoexistence(wc.workload.strategy, wc.workload.replicas) then
      [ WorkloadStep([before], NO_EVENT),
        WorkloadStep([before, after], TransitionEvent(EventNewReplicaReady,
          "a " + Label(after) + " replica becomes ready while " + Label(before) + " remains live")),
        WorkloadStep([after], TransitionEvent(EventOldReplicaTerminated,
          "the last " + Label(before) + " replica terminates")) ]
    else
      [ WorkloadStep([before], NO_EVENT),
        WorkloadStep([], TransitionEvent(EventOldReplicaTerminated,
          Label(before) + " fully terminates before " + Label(after) + " starts")),
        WorkloadStep([after], TransitionEvent(EventNewReplicaReady, Label(after) + " becomes ready")) ]
  }

  function CommitEvent(m: Migration): TransitionEvent {
    TransitionEvent(EventMigrationOpCommitted, "migration \"" + m.id + "\" commits")
  }

  datatype Machine = Machine(
    progressions: seq<seq<WorkloadStep>>,
    base: SchemaState,
    during: seq<Migration>,
    after: seq<Migration>
  ) {
    function Radix(): (r: seq<nat>)
      ensures |r| == |progressions|
    {
      seq(|progressions|, w requires 0 <= w < |progressions| => |progressions[w]|)
    }

    function Vectors(): nat {
      Pow(2, |during|)
    }

    /** The states before the first after-rollout migration. */
    function LatticeSize(): nat {
      Size(Radix()) * Vectors()
    }

    function NodeCount(): nat {
      LatticeSize() + |after|
    }

    function LastSteps(): seq<nat>
      requires ThreeSteps(this)
    {
      seq(|progressions|, w requires 0 <= w < |progressions| => |progressions[w]| - 1)
    }

    function NoStep(): seq<nat> {
      seq(|progressions|, _ => 0)
    }

    function AllDuring(): seq<bool> {
      seq(|during|, _ => true)
    }

    function NoDuring(): seq<bool> {
      seq(|during|, _ => false)
    }
  }

  ghost predicate ThreeSteps(m: Machine) {
    forall w :: 0 <= w < |m.progressions| ==> |m.progressions[w]| == 3
  }

  /** A state: the step of every workload, the committed during-migrations, and how many after-migrations. */
  datatype Progress = Progress(steps: seq<nat>, during: seq<bool>, after: nat)

  ghost predicate Complete(m: Machine, p: Progress)
    requires ThreeSteps(m)
  {
    p.steps == m.LastSteps() && p.during == m.AllDuring()
  }

  ghost predicate Valid(m: Machine, p: Progress)
    requires ThreeSteps(m)
  {
    && IsDigits(m.Radix(), p.steps)
    && |p.during| == |m.during|
    && p.after <= |m.after|
    && (p.after > 0 ==> Complete(m, p))
  }

  function StartOf(m: Machine): Progress {
    Progress(m.NoStep(), m.NoDuring(), 0)
  }

  function TargetOf(m: Machine): Progress
    requires ThreeSteps(m)
  {
    Progress(m.LastSteps(), m.AllDuring(), |m.after|)
  }

  datatype Move = Advance(w: nat) | CommitDuring(k: nat) | CommitAfter

  ghost predicate Enabled(m: Machine, p: Progress, move: Move)
    requires ThreeSteps(m) && Valid(m, p)
  {
    match move
    case Advance(w) => p.after == 0 && w < |m.progressions| && p.steps[w] + 1 < |m.progressions[w]|
    case CommitDuring(k) => p.after == 0 && k < |m.during| && !p.during[k]
    case CommitAfter => Complete(m, p) && p.after < |m.after|
  }

  ghost function Next(m: Machine, p: Progress, move: Move): (q: Progress)
    requires ThreeSteps(m) && Valid(m, p) && Enabled(m, p, move)
    ensures Valid(m, q)
  {
    match move
    case Advance(w) => p.(steps := p.steps[w := p.steps[w] + 1])
    case CommitDuring(k) => p.(during := p.during[k := true])
    case CommitAfter => p.(after := p.after + 1)
  }

  ghost function EventOf(m: Machine, p: Progress, move: Move): TransitionEvent
    requires ThreeSteps(m) && Valid(m, p) && Enabled(m, p, move)
  {
    match move
    case Advance(w) => m.progressions[w][p.steps[w] + 1].eventFromPrev
    case CommitDuring(k) => CommitEvent(m.during[k])
    case CommitAfter => CommitEvent(m.after[p.after])
  }

  /** The versions live at a step vector, workload by workload. */
  function LiveFor(progressions: seq<seq<WorkloadStep>>, steps: seq<nat>): seq<LiveVersion>
    requires |steps| == |progressions|
    requires forall w :: 0 <= w < |steps| ==> steps[w] < |progressions[w]|
  {
    if steps == [] then
      []
    else
      var n := |steps| - 1;
      LiveFor(progressions[..n], steps[..n]) + progressions[n][steps[n]].live
  }

  lemma {:induction false} LiveForMember(progressions: seq<seq<WorkloadStep>>, steps: seq<nat>, lv: LiveVersion)
    requires |steps| == |progressions|
    requires forall w :: 0 <= w < |steps| ==> steps[w] < |progressions[w]|
    ensures lv in LiveFor(progressions, steps) <==>
      exists w :: 0 <= w < |steps| && lv in progressions[w][steps[w]].live
    decreases |steps|
  {
    if steps != [] {
      var n := |steps| - 1;
      LiveForMember(progressions[..n], steps[..n], lv);
      if exists w :: 0 <= w < n && lv in progressions[..n][w][steps[..n][w]].live {
        var w :| 0 <= w < n && lv in progressions[..n][w][steps[..n][w]].live;
        assert lv in progressions[w][steps[w]].live;
      }
      if exists w :: 0 <= w < |steps| && lv in progressions[w][steps[w]].live {
        var w :| 0 <= w < |steps| && lv in progressions[w][steps[w]].live;
        assert w == n || lv in progressions[..n][w][steps[..n][w]].live;
      }
    }
  }

  ghost function LiveAt(m: Machine, p: Progress): seq<LiveVersion>
    requires ThreeSteps(m) && Valid(m, p)
  {
    LiveFor(m.progressions, p.steps)
  }

  /** The migrations committed at p: during-migrations in list order, whatever path led here. */
  ghost function CommittedAt(m: Machine, p: Progress): seq<Migration>
    requires ThreeSteps(m) && Valid(m, p)
  {
    Select(m.during, p.during) + m.after[..p.after]
  }

  ghost function SchemaStateAt(m: Machine, p: Progress): SchemaState
    requires ThreeSteps(m) && Valid(m, p)
  {
    Commit(m.base, Trail(CommittedAt(m, p)))
  }

  // ---- numbering ----

  function Encode(m: Machine, p: Progress): nat
    requires |p.steps| == |m.progressions|
  {
    if p.after == 0 then
      Index(m.Radix(), p.steps) * m.Vectors() + Mask(p.during)
    else
      m.LatticeSize() + p.after - 1
  }

  ghost function Decode(m: Machine, i: nat): Progress
    requires ThreeSteps(m)
  {
    PowPositive(2, |m.during|);
    if i < m.LatticeSize() then
      Progress(Digits(m.Radix(), i / m.Vectors()), Bits(i % m.Vectors(), |m.during|), 0)
    else
      Progress(m.LastSteps(), m.AllDuring(), i - m.LatticeSize() + 1)
  }

  /** Every state has its own number, and decoding it gives the state back. */
  lemma EncodeRoundTrip(m: Machine, p: Progress)
    requires ThreeSteps(m) && Valid(m, p)
    ensures Encode(m, p) < m.NodeCount()
    ensures Decode(m, Encode(m, p)) == p
  {
    PowPositive(2, |m.during|);
    if p.after == 0 {
      IndexRoundTrip(m.Radix(), p.steps);
      MaskRoundTrip(p.during);
      var q := Index(m.Radix(), p.steps);
      DivModUnique(q, m.Vectors(), Mask(p.during));
      PairBound(q, m.Vectors(), Mask(p.during), Size(m.Radix()));
    }
  }

  /** Every node number is the number of a state. */
  lemma DecodeRoundTrip(m: Machine, i: nat)
    requires ThreeSteps(m) && i < m.NodeCount()
    ensures Valid(m, Decode(m, i))
    ensures Encode(m, Decode(m, i)) == i
  {
    PowPositive(2, |m.during|);
    if i < m.LatticeSize() {
      QuotientBound(i, m.Vectors(), Size(m.Radix()));
      DigitsRoundTrip(m.Radix(), i / m.Vectors());
      BitsRoundTrip(i % m.Vectors(), |m.during|);
      DivModIdentity(i, m.Vectors());
    }
  }

  lemma EncodeInjective(m: Machine, p: Progress, q: Progress)
    requires ThreeSteps(m) && Valid(m, p) && Valid(m, q)
    requires Encode(m, p) == Encode(m, q)
    ensures p == q
  {
    EncodeRoundTrip(m, p);
    EncodeRoundTrip(m, q);
  }

  /** The node count for W workloads, D during-migrations and A after-migrations is 3^W 2^D + A. */
  lemma NodeCountFormula(m: Machine)
    requires ThreeSteps(m)
    ensures m.NodeCount() == Pow(3, |m.progressions|) * Pow(2, |m.during|) + |m.after|
  {
    SizeOfThrees(m.Radix());
  }

  lemma StartValid(m: Machine)
    requires ThreeSteps(m)
    ensures Valid(m, StartOf(m)) && Valid(m, TargetOf(m))
  {
  }

  /** Two moves enabled in a state lead to different states. */
  lemma NextInjective(m: Machine, p: Progress, a: Move, b: Move)
    requires ThreeSteps(m) && Valid(m, p) && Enabled(m, p, a) && Enabled(m, p, b)
    requires Next(m, p, a) == Next(m, p, b)
    ensures a == b
  {
    match a
    case Advance(w) =>
      assert Next(m, p, a).steps[w] == p.steps[w] + 1;
    case CommitDuring(k) =>
      assert Next(m, p, a).during[k];
    case CommitAfter =>
      assert Next(m, p, a).after == p.after + 1;
  }

  // ---- the rank of a state ----

  function Sum(s: seq<nat>): nat {
    if s == [] then 0 else Sum(s[..|s| - 1]) + s[|s| - 1]
  }

  function Count(bits: seq<bool>): nat {
    if bits == [] then 0 else Count(bits[..|bits| - 1]) + (if bits[|bits| - 1] then 1 else 0)
  }

  function Rank(p: Progress): nat {
    Sum(p.steps) + Count(p.during) + p.after
  }

  lemma {:induction false} SumUpdate(s: seq<nat>, w: nat, x: nat)
    requires w < |s|
    ensures Sum(s[w := x]) == Sum(s) - s[w] + x
    decreases |s|
  {
    var n := |s| - 1;
    if w < n {
      SumUpdate(s[..n], w, x);
      assert s[w := x][..n] == s[..n][w := x];
    } else {
      assert s[w := x][..n] == s[..n];
    }
  }

  lemma {:induction false} CountSet(bits: seq<bool>, k: nat)
    requires k < |bits| && !bits[k]
    ensures Count(bits[k := true]) == Count(bits) + 1
    decreases |bits|
  {
    var n := |bits| - 1;
    if k < n {
      CountSet(bits[..n], k);
      assert bits[k := true][..n] == bits[..n][k := true];
    } else {
      assert bits[k := true][..n] == bits[..n];
    }
  }

  /** Every move raises the rank by exactly one. */
  lemma MoveRaisesRank(m: Machine, p: Progress, move: Move)
    requires ThreeSteps(m) && Valid(m, p) && Enabled(m, p, move)
    ensures Rank(Next(m, p, move)) == Rank(p) + 1
  {
    match move
    case Advance(w) => SumUpdate(p.steps, w, p.steps[w] + 1);
    case CommitDuring(k) => CountSet(p.during, k);
    case CommitAfter =>
  }

  lemma {:induction false} SumOfEqual(s: seq<nat>, x: nat)
    requires forall w :: 0 <= w < |s| ==> s[w] == x
    ensures Sum(s) == x * |s|
    decreases |s|
  {
    if s != [] {
      SumOfEqual(s[..|s| - 1], x);
      assert x * |s| == x * (|s| - 1) + x;
    }
  }

  lemma {:induction false} CountOfEqual(bits: seq<bool>, b: bool)
    requires forall k :: 0 <= k < |bits| ==> bits[k] == b
    ensures Count(bits) == if b then |bits| else 0
    decreases |bits|
  {
    if bits != [] {
      CountOfEqual(bits[..|bits| - 1], b);
    }
  }

  lemma RankOfEnds(m: Machine)
    requires ThreeSteps(m)
    ensures Rank(StartOf(m)) == 0
    ensures Rank(TargetOf(m)) == 2 * |m.progressions| + |m.during| + |m.after|
  {
    SumOfEqual(m.NoStep(), 0);
    CountOfEqual(m.NoDuring(), false);
    SumOfEqual(m.LastSteps(), 2);
    CountOfEqual(m.AllDuring(), true);
  }

  /** Every state but the start has a predecessor. */
  lemma Predecessor(m: Machine, q: Progress) returns (p: Progress, move: Move)
    requires ThreeSteps(m) && Valid(m, q) && q != StartOf(m)
    ensures Valid(m, p) && Enabled(m, p, move) && Next(m, p, move) == q
  {
    assert (forall w :: 0 <= w < |q.steps| ==> q.steps[w] == 0) ==> q.steps == m.NoStep();
    assert (forall k :: 0 <= k < |q.during| ==> !q.during[k]) ==> q.during == m.NoDuring();
    if q.after > 0 {
      p, move := q.(after := q.after - 1), CommitAfter;
    } else if w :| 0 <= w < |q.steps| && q.steps[w] > 0 {
      p, move := q.(steps := q.steps[w := q.steps[w] - 1]), Advance(w);
      assert Next(m, p, move).steps == q.steps;
    } else if k :| 0 <= k < |q.during| && q.during[k] {
      p, move := q.(during := q.during[k := false]), CommitDuring(k);
      assert Next(m, p, move).during == q.during;
    } else {
      assert false;
    }
  }

  /** Every state but the target has a successor. */
  lemma Successor(m: Machine, p: Progress) returns (move: Move)
    requires ThreeSteps(m) && Valid(m, p) && p != TargetOf(m)
    ensures Enabled(m, p, move)
  {
    if p.after > 0 {
      move := CommitAfter;
    } else if w :| 0 <= w < |p.steps| && p.steps[w] + 1 < |m.progressions[w]| {
      move := Advance(w);
    } else if k :| 0 <= k < |p.during| && !p.during[k] {
      move := CommitDuring(k);
    } else {
      assert p.steps == m.LastSteps() && p.during == m.AllDuring();
      move := CommitAfter;
    }
  }
}
