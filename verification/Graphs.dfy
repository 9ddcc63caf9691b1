/**
 The transition graph and its construction (internal/graph/graph.go). Build is
 proved to produce exactly the graph of the abstract rollout machine.
 */
module Graphs {
  import opened Wrappers
  import opened Ordering
  import opened Schemas
  import opened Rollout
  import opened Replay
  import opened Numbering
  import opened Machines

  const MAX_GRAPH_NODES: nat := 200000

  datatype Edge = Edge(src: nat, dst: nat, event: TransitionEvent)

  datatype Graph = Graph(
    nodes: seq<RolloutState>,
    edges: seq<Edge>,
    start: nat,
    target: nat,
    adjacency: seq<seq<Edge>>
  )

  datatype BuildError =
    | NoValidPhase
    | TooManyNodes
    | NoRollbackTarget
    | NotOneWorkload
    | InvalidPlan

  // ---- specification ----

  function OfPhase(timings: seq<MigrationTiming>, phase: MigrationPhase): seq<Migration> {
    if timings == [] then
      []
    else
      var last := timings[|timings| - 1];
      OfPhase(timings[..|timings| - 1], phase) + (if last.phase == phase then [last.migration] else [])
  }

  function ProgressionsOf(workloads: seq<WorkloadChange>): (r: seq<seq<WorkloadStep>>)
    ensures |r| == |workloads|
  {
    seq(|workloads|, w requires 0 <= w < |workloads| => Progression(workloads[w]))
  }

  /** The schema state every node starts from: history, then the before-rollout migrations. */
  function BaseState(plan: RolloutPlan, prior: seq<CommittedOp>, priorIndeterminate: bool): SchemaState {
    var base := Commit(SchemaState(plan.baseSchema, prior, false), Trail(OfPhase(plan.migrations, PhaseBeforeRollout)));
    base.(indeterminate := base.indeterminate || priorIndeterminate)
  }

  function MachineOf(plan: RolloutPlan, prior: seq<CommittedOp>, priorIndeterminate: bool): Machine {
    Machine(
      ProgressionsOf(plan.workloads),
      BaseState(plan, prior, priorIndeterminate),
      OfPhase(plan.migrations, PhaseDuringRollout),
      OfPhase(plan.migrations, PhaseAfterRollout))
  }

  lemma MachineHasThreeSteps(plan: RolloutPlan, prior: seq<CommittedOp>, priorIndeterminate: bool)
    ensures ThreeSteps(MachineOf(plan, prior, priorIndeterminate))
  {
  }

  ghost predicate IsNode(m: Machine, i: nat, s: RolloutState)
    requires ThreeSteps(m) && i < m.NodeCount()
  {
    DecodeRoundTrip(m, i);
    var p := Decode(m, i);
    s.id == i && CanonicalOf(LiveAt(m, p), s.live) && s.schemaState == SchemaStateAt(m, p)
  }

  /** One move of the machine from a numbered state. */
  datatype Hop = Hop(p: Progress, move: Move)

  ghost predicate IsHop(m: Machine, h: Hop)
    requires ThreeSteps(m)
  {
    Valid(m, h.p) && Enabled(m, h.p, h.move)
  }

  /** The edge of one move. */
  ghost function EdgeFor(m: Machine, h: Hop): Edge
    requires ThreeSteps(m) && IsHop(m, h)
  {
    Edge(Encode(m, h.p), Encode(m, Next(m, h.p, h.move)), EventOf(m, h.p, h.move))
  }

  /** The edges are the moves of the machine, each exactly once. */
  ghost predicate ListsHops(m: Machine, edges: seq<Edge>, hops: seq<Hop>)
    requires ThreeSteps(m)
  {
    && |edges| == |hops|
    && Distinct(hops)
    && forall k :: 0 <= k < |hops| ==> IsHop(m, hops[k]) && edges[k] == EdgeFor(m, hops[k])
  }

  ghost predicate IsStep(m: Machine, e: Edge)
    requires ThreeSteps(m)
  {
    exists h: Hop :: IsHop(m, h) && e == EdgeFor(m, h)
  }

  ghost predicate NoParallelEdges(edges: seq<Edge>) {
    forall i, j :: 0 <= i < j < |edges| ==> edges[i].src != edges[j].src || edges[i].dst != edges[j].dst
  }

  predicate EdgeLess(a: Edge, b: Edge) {
    if a.dst != b.dst then a.dst < b.dst
    else if a.event.kind != b.event.kind then KindNumber(a.event.kind) < KindNumber(b.event.kind)
    else StringLess(a.event.detail, b.event.detail)
  }

  function KindNumber(k: EventKind): nat {
    match k
    case EventUnknown => 0
    case EventMigrationOpCommitted => 1
    case EventNewReplicaReady => 2
    case EventOldReplicaTerminated => 3
  }

  /** The edges leaving node i, with their multiplicities. */
  ghost predicate IsRow(row: seq<Edge>, edges: seq<Edge>, i: nat) {
    forall e :: multiset(row)[e] == if e.src == i then multiset(edges)[e] else 0
  }

  /** Row i holds the edges leaving i, in the order BFS visits them. */
  ghost predicate IsAdjacency(n: nat, edges: seq<Edge>, adjacency: seq<seq<Edge>>) {
    && |adjacency| == n
    && forall i :: 0 <= i < n ==> Sorted(EdgeLess, adjacency[i]) && IsRow(adjacency[i], edges, i)
  }

  /** The built graph is the graph of machine m. */
  ghost predicate GraphOf(m: Machine, g: Graph) {
    && ThreeSteps(m)
    && |g.nodes| == m.NodeCount()
    && (forall i :: 0 <= i < |g.nodes| ==> IsNode(m, i, g.nodes[i]))
    && (forall e :: e in g.edges <==> IsStep(m, e))
    && NoParallelEdges(g.edges)
    && g.start == Encode(m, StartOf(m))
    && g.target == Encode(m, TargetOf(m))
    && IsAdjacency(|g.nodes|, g.edges, g.adjacency)
  }

  // ---- sorting a row ----

  lemma EdgeLessIsWeakOrder()
    ensures StrictWeakOrder(EdgeLess)
  {
    forall a, b | EdgeLess(a, b) ensures !EdgeLess(b, a) {
      if a.dst == b.dst && a.event.kind == b.event.kind {
        StringLessAsymmetric(a.event.detail, b.event.detail);
      }
    }
    forall a, b, c | EdgeLess(a, b) && EdgeLess(b, c) ensures EdgeLess(a, c) {
      EdgeLessTransitive(a, b, c);
    }
    forall a, b, c | !EdgeLess(a, b) && !EdgeLess(b, c) ensures !EdgeLess(a, c) {
      if EdgeLess(a, c) && a.dst == b.dst == c.dst && a.event.kind == b.event.kind == c.event.kind {
        StringLessTotal(a.event.detail, b.event.detail);
        if a.event.detail != b.event.detail {
          StringLessTransitive(b.event.detail, a.event.detail, c.event.detail);
        }
      }
    }
  }

  lemma EdgeLessTransitive(a: Edge, b: Edge, c: Edge)
    requires EdgeLess(a, b) && EdgeLess(b, c)
    ensures EdgeLess(a, c)
  {
    if a.dst == b.dst == c.dst && a.event.kind == b.event.kind == c.event.kind {
      StringLessTransitive(a.event.detail, b.event.detail, c.event.detail);
    }
  }

  // ---- construction ----

  /** Enumerates every step vector, in the order of its mixed-radix number. */
  method BuildVersionCombos(m: Machine) returns (combos: seq<seq<nat>>)
    requires ThreeSteps(m)
    ensures |combos| == Size(m.Radix())
    ensures forall i :: 0 <= i < |combos| ==> combos[i] == Digits(m.Radix(), i)
  {
    var zero := m.NoStep();
    combos := [zero];
    var radix := m.Radix();
    assert radix[..0] == [];
    for w := 0 to |m.progressions|
      invariant |combos| == Size(radix[..w])
      invariant forall i :: 0 <= i < |combos| ==> combos[i] == Digits(radix[..w], i) + zero[w..]
    {
      var next: seq<seq<nat>> := [];
      var n := |m.progressions[w]|;
      assert radix[..w + 1][..w] == radix[..w];
      for q := 0 to |combos|
        invariant |next| == q * n
        invariant forall i :: 0 <= i < |next| ==> next[i] == Digits(radix[..w + 1], i) + zero[w + 1..]
      {
        for stepIdx := 0 to n
          invariant |next| == q * n + stepIdx
          invariant forall i :: 0 <= i < |next| ==> next[i] == Digits(radix[..w + 1], i) + zero[w + 1..]
        {
          DivModUnique(q, n, stepIdx);
          var nc := combos[q][w := stepIdx];
          assert nc == (Digits(radix[..w], q) + [stepIdx]) + zero[w + 1..];
          next := next + [nc];
        }
        MulSucc(q, n);
      }
      combos := next;
    }
    assert radix[..|radix|] == radix;
    forall i | 0 <= i < |combos| ensures combos[i] == Digits(radix, i) {
      assert zero[|radix|..] == [];
    }
  }

  method ComboIndex(m: Machine, steps: seq<nat>) returns (idx: nat)
    requires |steps| == |m.progressions|
    ensures idx == Index(m.Radix(), steps)
  {
    idx := 0;
    ghost var radix := m.Radix();
    for w := 0 to |m.progressions|
      invariant idx == Index(radix[..w], steps[..w])
    {
      assert radix[..w + 1][..w] == radix[..w] && steps[..w + 1][..w] == steps[..w];
      idx := idx * |m.progressions[w]| + steps[w];
    }
    assert radix[..|radix|] == radix && steps[..|steps|] == steps;
  }

  lemma SelectStep(ms: seq<Migration>, bits: seq<bool>, k: nat)
    requires |bits| == |ms| && k < |ms|
    ensures Select(ms[..k + 1], bits[..k + 1]) == Select(ms[..k], bits[..k]) + (if bits[k] then [ms[k]] else [])
  {
    assert ms[..k + 1][..k] == ms[..k] && bits[..k + 1][..k] == bits[..k];
  }

  /** Applies exactly the during-migrations whose bit is set, in list order. */
  method ApplyDuringSubset(base: SchemaState, during: seq<Migration>, dv: nat) returns (r: SchemaState)
    ensures r == Commit(base, Trail(Select(during, Bits(dv, |during|))))
  {
    hide Commit, Trail, Tagged, Select, Bits, HasBit;
    r := base;
    ghost var bits := Bits(dv, |during|);
    NothingSelected(base);
    for k := 0 to |during|
      invariant r == Commit(base, Trail(Select(during[..k], bits[..k])))
    {
      BitsAt(dv, |during|, k);
      SelectStep(during, bits, k);
      ghost var sofar := Select(during[..k], bits[..k]);
      if HasBit(dv, k) {
        CommitMigration(base, sofar, during[k]);
        r := ApplyOne(r, during[k]);
      } else {
        assert sofar + [] == sofar;
      }
    }
    assert during[..|during|] == during && bits[..|bits|] == bits;
  }

  lemma NothingSelected(base: SchemaState)
    ensures Commit(base, Trail(Select([], []))) == base
  {
  }

  method BuildLive(m: Machine, steps: seq<nat>) returns (live: seq<LiveVersion>)
    requires IsDigits(m.Radix(), steps)
    ensures live == LiveFor(m.progressions, steps)
  {
    live := [];
    for w := 0 to |steps|
      invariant live == LiveFor(m.progressions[..w], steps[..w])
    {
      assert m.progressions[..w + 1][..w] == m.progressions[..w] && steps[..w + 1][..w] == steps[..w];
      live := live + m.progressions[w][steps[w]].live;
    }
    assert m.progressions[..|steps|] == m.progressions && steps[..|steps|] == steps;
  }

  lemma DecodePair(m: Machine, c: nat, dv: nat)
    requires ThreeSteps(m) && c < Size(m.Radix()) && dv < m.Vectors()
    ensures c * m.Vectors() + dv < m.LatticeSize()
    ensures Decode(m, c * m.Vectors() + dv) == Progress(Digits(m.Radix(), c), Bits(dv, |m.during|), 0)
  {
    PairBound(c, m.Vectors(), dv, Size(m.Radix()));
    DivModUnique(c, m.Vectors(), dv);
  }

  lemma LatticeNode(m: Machine, c: nat, dv: nat, s: RolloutState)
    requires ThreeSteps(m) && c < Size(m.Radix()) && dv < m.Vectors()
    requires s.id == c * m.Vectors() + dv
    requires IsDigits(m.Radix(), Digits(m.Radix(), c))
    requires CanonicalOf(LiveFor(m.progressions, Digits(m.Radix(), c)), s.live)
    requires s.schemaState == Commit(m.base, Trail(Select(m.during, Bits(dv, |m.during|))))
    ensures s.id < m.LatticeSize() && IsNode(m, s.id, s)
  {
    hide Commit, Trail, Select, CanonicalOf, LiveFor, Digits, Bits, Decode, Size, Index;
    DecodePair(m, c, dv);
    DecodeRoundTrip(m, s.id);
    var p := Decode(m, s.id);
    assert m.after[..0] == [];
    assert CommittedAt(m, p) == Select(m.during, Bits(dv, |m.during|));
  }

  method BuildNodes(m: Machine, combos: seq<seq<nat>>) returns (nodes: seq<RolloutState>)
    requires ThreeSteps(m)
    requires |combos| == Size(m.Radix())
    requires forall i :: 0 <= i < |combos| ==> combos[i] == Digits(m.Radix(), i)
    ensures |nodes| == m.LatticeSize()
    ensures forall i :: 0 <= i < |nodes| ==> IsNode(m, i, nodes[i])
  {
    hide IsNode, CanonicalOf, Commit, Trail, Select, Bits, LiveFor, Digits, Size, Index, Pow;
    nodes := [];
    var v := m.Vectors();
    for c := 0 to |combos|
      invariant |nodes| == c * v <= m.LatticeSize()
      invariant forall i :: 0 <= i < |nodes| ==> IsNode(m, i, nodes[i])
    {
      DigitsRoundTrip(m.Radix(), c);
      var comboIdx := ComboIndex(m, combos[c]);
      var live := BuildLive(m, combos[c]);
      var first := comboIdx * v;
      assert first == |nodes|;
      MulSucc(c, v);
      for dv := 0 to v
        invariant |nodes| == first + dv <= m.LatticeSize()
        invariant forall i :: 0 <= i < |nodes| ==> IsNode(m, i, nodes[i])
      {
        var ss := ApplyDuringSubset(m.base, m.during, dv);
        var s := NewRolloutState(first + dv, live, ss);
        LatticeNode(m, c, dv, s);
        nodes := nodes + [s];
      }
    }
  }

  // ---- edges of the version lattice and of the during-migration hypercube ----

  /** The loop indices at which one of the two triple loops may emit an edge. */
  datatype Key = Key(a: nat, b: nat, d: nat)

  ghost function KeyHop(m: Machine, lattice: bool, key: Key): Hop
    requires forall w :: 0 <= w < |m.Radix()| ==> m.Radix()[w] > 0
  {
    var steps := Digits(m.Radix(), key.a);
    if lattice then
      Hop(Progress(steps, Bits(key.d, |m.during|), 0), Advance(key.b))
    else
      Hop(Progress(steps, Bits(key.b, |m.during|), 0), CommitDuring(key.d))
  }

  ghost function LimitB(m: Machine, lattice: bool): nat {
    if lattice then |m.progressions| else m.Vectors()
  }

  ghost function LimitD(m: Machine, lattice: bool): nat {
    if lattice then m.Vectors() else |m.during|
  }

  ghost predicate KeyOk(m: Machine, lattice: bool, key: Key)
    requires ThreeSteps(m)
  {
    && key.a < Size(m.Radix()) && key.b < LimitB(m, lattice) && key.d < LimitD(m, lattice)
    && IsHop(m, KeyHop(m, lattice, key))
  }

  predicate KeyBefore(key: Key, a: nat, b: nat, d: nat) {
    key.a < a || (key.a == a && (key.b < b || (key.b == b && key.d < d)))
  }

  /** What a triple loop has emitted when it stands at (a, b, d). */
  ghost predicate Emitted(m: Machine, lattice: bool, edges: seq<Edge>, keys: seq<Key>, a: nat, b: nat, d: nat)
    requires ThreeSteps(m)
  {
    && |edges| == |keys|
    && Distinct(keys)
    && (forall key :: key in keys <==> KeyOk(m, lattice, key) && KeyBefore(key, a, b, d))
    && forall i :: 0 <= i < |keys| ==>
         && KeyOk(m, lattice, keys[i])
         && edges[i] == EdgeFor(m, KeyHop(m, lattice, keys[i]))
  }

  lemma EmittedNothing(m: Machine, lattice: bool)
    requires ThreeSteps(m)
    ensures Emitted(m, lattice, [], [], 0, 0, 0)
  {
  }

  lemma EmitOne(m: Machine, lattice: bool, edges: seq<Edge>, keys: seq<Key>, a: nat, b: nat, d: nat, e: Edge)
    requires ThreeSteps(m) && Emitted(m, lattice, edges, keys, a, b, d)
    requires KeyOk(m, lattice, Key(a, b, d))
    requires e == EdgeFor(m, KeyHop(m, lattice, Key(a, b, d)))
    ensures Emitted(m, lattice, edges + [e], keys + [Key(a, b, d)], a, b, d + 1)
  {
    hide KeyOk, KeyHop, EdgeFor;
    assert Key(a, b, d) !in keys;
    forall key ensures key in keys + [Key(a, b, d)] <==> KeyOk(m, lattice, key) && KeyBefore(key, a, b, d + 1) {
      assert key == Key(key.a, key.b, key.d);
    }
  }

  lemma EmitNothing(m: Machine, lattice: bool, edges: seq<Edge>, keys: seq<Key>, a: nat, b: nat, d: nat)
    requires ThreeSteps(m) && Emitted(m, lattice, edges, keys, a, b, d)
    requires !KeyOk(m, lattice, Key(a, b, d))
    ensures Emitted(m, lattice, edges, keys, a, b, d + 1)
  {
    forall key ensures key in keys <==> KeyOk(m, lattice, key) && KeyBefore(key, a, b, d + 1) {
      assert key == Key(key.a, key.b, key.d);
    }
  }

  lemma EmitRowEnd(m: Machine, lattice: bool, edges: seq<Edge>, keys: seq<Key>, a: nat, b: nat)
    requires ThreeSteps(m) && Emitted(m, lattice, edges, keys, a, b, LimitD(m, lattice))
    ensures Emitted(m, lattice, edges, keys, a, b + 1, 0)
  {
  }

  lemma EmitNoRow(m: Machine, lattice: bool, edges: seq<Edge>, keys: seq<Key>, a: nat, b: nat)
    requires ThreeSteps(m) && Emitted(m, lattice, edges, keys, a, b, 0)
    requires forall d :: !KeyOk(m, lattice, Key(a, b, d))
    ensures Emitted(m, lattice, edges, keys, a, b + 1, 0)
  {
    forall key ensures key in keys <==> KeyOk(m, lattice, key) && KeyBefore(key, a, b + 1, 0) {
      if key.a == a && key.b == b {
        assert key == Key(a, b, key.d);
      }
    }
  }

  lemma EmitBlockEnd(m: Machine, lattice: bool, edges: seq<Edge>, keys: seq<Key>, a: nat)
    requires ThreeSteps(m) && Emitted(m, lattice, edges, keys, a, LimitB(m, lattice), 0)
    ensures Emitted(m, lattice, edges, keys, a + 1, 0, 0)
  {
  }

  lemma KeyState(m: Machine, c: nat, dv: nat)
    requires ThreeSteps(m) && c < Size(m.Radix()) && dv < m.Vectors()
    ensures Valid(m, Progress(Digits(m.Radix(), c), Bits(dv, |m.during|), 0))
    ensures Encode(m, Progress(Digits(m.Radix(), c), Bits(dv, |m.during|), 0)) == c * m.Vectors() + dv
  {
    DigitsRoundTrip(m.Radix(), c);
    BitsRoundTrip(dv, |m.during|);
  }

  lemma KeyHopInjective(m: Machine, lattice: bool, x: Key, y: Key)
    requires ThreeSteps(m) && KeyOk(m, lattice, x) && KeyOk(m, lattice, y)
    requires KeyHop(m, lattice, x) == KeyHop(m, lattice, y)
    ensures x == y
  {
    DigitsRoundTrip(m.Radix(), x.a);
    DigitsRoundTrip(m.Radix(), y.a);
    if lattice {
      BitsRoundTrip(x.d, |m.during|);
      BitsRoundTrip(y.d, |m.during|);
    } else {
      BitsRoundTrip(x.b, |m.during|);
      BitsRoundTrip(y.b, |m.during|);
    }
  }

  /** Holds the commit vector fixed and advances one workload by one step. */
  method LatticeEdges(m: Machine, combos: seq<seq<nat>>) returns (edges: seq<Edge>, ghost keys: seq<Key>)
    requires ThreeSteps(m)
    requires |combos| == Size(m.Radix())
    requires forall i :: 0 <= i < |combos| ==> combos[i] == Digits(m.Radix(), i)
    ensures Emitted(m, true, edges, keys, |combos|, 0, 0)
  {
    hide Emitted, KeyOk, KeyHop, EdgeFor;
    EmittedNothing(m, true);
    edges, keys := [], [];
    for c := 0 to |combos|
      invariant Emitted(m, true, edges, keys, c, 0, 0)
    {
      var comboIdx := ComboIndex(m, combos[c]);
      DigitsRoundTrip(m.Radix(), c);
      for w := 0 to |m.progressions|
        invariant Emitted(m, true, edges, keys, c, w, 0)
      {
        if combos[c][w] + 1 < |m.progressions[w]| {
          edges, keys := LatticeRow(m, comboIdx, combos[c], w, edges, keys);
        } else {
          LatticeNoEdge(m, c, w);
          EmitNoRow(m, true, edges, keys, c, w);
        }
      }
      EmitBlockEnd(m, true, edges, keys, c);
    }
  }

  method LatticeRow(m: Machine, comboIdx: nat, steps: seq<nat>, w: nat, edges0: seq<Edge>, ghost keys0: seq<Key>)
    returns (edges: seq<Edge>, ghost keys: seq<Key>)
    requires ThreeSteps(m) && comboIdx < Size(m.Radix()) && w < |m.progressions|
    requires steps == Digits(m.Radix(), comboIdx) && steps[w] + 1 < |m.progressions[w]|
    requires Emitted(m, true, edges0, keys0, comboIdx, w, 0)
    ensures Emitted(m, true, edges, keys, comboIdx, w + 1, 0)
  {
    hide Emitted, KeyOk, KeyHop, EdgeFor;
    edges, keys := edges0, keys0;
    var v := m.Vectors();
    var nc := steps[w := steps[w] + 1];
    var nextComboIdx := ComboIndex(m, nc);
    var event := m.progressions[w][nc[w]].eventFromPrev;
    for dv := 0 to v
      invariant Emitted(m, true, edges, keys, comboIdx, w, dv)
    {
      var e := Edge(comboIdx * v + dv, nextComboIdx * v + dv, event);
      LatticeEdge(m, comboIdx, w, dv, e);
      EmitOne(m, true, edges, keys, comboIdx, w, dv, e);
      edges, keys := edges + [e], keys + [Key(comboIdx, w, dv)];
    }
    EmitRowEnd(m, true, edges, keys, comboIdx, w);
  }

  lemma LatticeNoEdge(m: Machine, c: nat, w: nat)
    requires ThreeSteps(m) && w < |m.progressions|
    requires Digits(m.Radix(), c)[w] + 1 >= |m.progressions[w]|
    ensures forall dv :: !KeyOk(m, true, Key(c, w, dv))
  {
  }

  lemma LatticeEdge(m: Machine, c: nat, w: nat, dv: nat, e: Edge)
    requires ThreeSteps(m) && c < Size(m.Radix()) && dv < m.Vectors() && w < |m.progressions|
    requires Digits(m.Radix(), c)[w] + 1 < |m.progressions[w]|
    requires var steps := Digits(m.Radix(), c);
             e == Edge(c * m.Vectors() + dv,
                       Index(m.Radix(), steps[w := steps[w] + 1]) * m.Vectors() + dv,
                       m.progressions[w][steps[w] + 1].eventFromPrev)
    ensures KeyOk(m, true, Key(c, w, dv))
    ensures e == EdgeFor(m, KeyHop(m, true, Key(c, w, dv)))
  {
    KeyState(m, c, dv);
    BitsRoundTrip(dv, |m.during|);
  }

  /** Holds the version combination fixed and commits one pending migration. */
  method HypercubeEdges(m: Machine, combos: seq<seq<nat>>) returns (edges: seq<Edge>, ghost keys: seq<Key>)
    requires ThreeSteps(m)
    requires |combos| == Size(m.Radix())
    requires forall i :: 0 <= i < |combos| ==> combos[i] == Digits(m.Radix(), i)
    ensures Emitted(m, false, edges, keys, |combos|, 0, 0)
  {
    hide Emitted, KeyOk, KeyHop, EdgeFor;
    EmittedNothing(m, false);
    edges, keys := [], [];
    for c := 0 to |combos|
      invariant Emitted(m, false, edges, keys, c, 0, 0)
    {
      var comboIdx := ComboIndex(m, combos[c]);
      DigitsRoundTrip(m.Radix(), c);
      for dv := 0 to m.Vectors()
        invariant Emitted(m, false, edges, keys, c, dv, 0)
      {
        edges, keys := HypercubeRow(m, comboIdx, dv, edges, keys);
      }
      EmitBlockEnd(m, false, edges, keys, c);
    }
  }

  method HypercubeRow(m: Machine, comboIdx: nat, dv: nat, edges0: seq<Edge>, ghost keys0: seq<Key>)
    returns (edges: seq<Edge>, ghost keys: seq<Key>)
    requires ThreeSteps(m) && comboIdx < Size(m.Radix()) && dv < m.Vectors()
    requires Emitted(m, false, edges0, keys0, comboIdx, dv, 0)
    ensures Emitted(m, false, edges, keys, comboIdx, dv + 1, 0)
  {
    hide Emitted, KeyOk, KeyHop, EdgeFor;
    edges, keys := edges0, keys0;
    var v := m.Vectors();
    for k := 0 to |m.during|
      invariant Emitted(m, false, edges, keys, comboIdx, dv, k)
    {
      BitsAt(dv, |m.during|, k);
      if HasBit(dv, k) {
        HypercubeNoEdge(m, comboIdx, dv, k);
        EmitNothing(m, false, edges, keys, comboIdx, dv, k);
      } else {
        var next := WithBit(dv, k);
        var e := Edge(comboIdx * v + dv, comboIdx * v + next, CommitEvent(m.during[k]));
        HypercubeEdge(m, comboIdx, dv, k, e);
        EmitOne(m, false, edges, keys, comboIdx, dv, k, e);
        edges, keys := edges + [e], keys + [Key(comboIdx, dv, k)];
      }
    }
    EmitRowEnd(m, false, edges, keys, comboIdx, dv);
  }

  lemma HypercubeNoEdge(m: Machine, c: nat, dv: nat, k: nat)
    requires ThreeSteps(m) && k < |m.during|
    ensures Bits(dv, |m.during|)[k] ==> !KeyOk(m, false, Key(c, dv, k))
  {
  }

  lemma HypercubeEdge(m: Machine, c: nat, dv: nat, k: nat, e: Edge)
    requires ThreeSteps(m) && c < Size(m.Radix()) && dv < m.Vectors() && k < |m.during|
    requires !Bits(dv, |m.during|)[k]
    requires e == Edge(c * m.Vectors() + dv, c * m.Vectors() + WithBit(dv, k), CommitEvent(m.during[k]))
    ensures KeyOk(m, false, Key(c, dv, k))
    ensures e == EdgeFor(m, KeyHop(m, false, Key(c, dv, k)))
  {
    KeyState(m, c, dv);
    BitsAt(dv, |m.during|, k);
    MaskSetBit(Bits(dv, |m.during|), k);
    BitsRoundTrip(dv, |m.during|);
    DigitsRoundTrip(m.Radix(), c);
  }

  // ---- the after-rollout chain ----

  ghost function ChainState(m: Machine, j: nat): Progress
    requires ThreeSteps(m)
  {
    Progress(m.LastSteps(), m.AllDuring(), j)
  }

  lemma ChainNode(m: Machine, j: nat, live: seq<LiveVersion>, s: RolloutState)
    requires ThreeSteps(m) && j < |m.after|
    requires CanonicalOf(LiveAt(m, ChainState(m, 0)), live)
    requires s.id == m.LatticeSize() + j && CanonicalOf(live, s.live)
    requires s.schemaState == Commit(SchemaStateAt(m, ChainState(m, j)), Tagged(m.after[j]))
    ensures IsNode(m, s.id, s)
    ensures s.schemaState == SchemaStateAt(m, ChainState(m, j + 1))
  {
    hide Commit, Trail, Tagged, Select;
    var p := ChainState(m, j);
    assert m.after[..j + 1] == m.after[..j] + [m.after[j]];
    assert CommittedAt(m, ChainState(m, j + 1)) == CommittedAt(m, p) + [m.after[j]];
    CommitMigration(m.base, CommittedAt(m, p), m.after[j]);
  }

  lemma RolloutComplete(m: Machine, nodes0: seq<RolloutState>)
    requires ThreeSteps(m)
    requires |nodes0| == m.LatticeSize() && forall i :: 0 <= i < |nodes0| ==> IsNode(m, i, nodes0[i])
    ensures Encode(m, ChainState(m, 0)) < |nodes0|
    ensures var s := nodes0[Encode(m, ChainState(m, 0))];
            && CanonicalOf(LiveAt(m, ChainState(m, 0)), s.live)
            && s.schemaState == SchemaStateAt(m, ChainState(m, 0))
  {
    hide Commit, Trail, Select, CanonicalOf, LiveAt;
    var p := ChainState(m, 0);
    EncodeRoundTrip(m, p);
    MaskRoundTrip(p.during);
    IndexRoundTrip(m.Radix(), p.steps);
    PairBound(Index(m.Radix(), p.steps), m.Vectors(), Mask(p.during), Size(m.Radix()));
    assert IsNode(m, Encode(m, p), nodes0[Encode(m, p)]);
  }

  method AfterChain(m: Machine, nodes0: seq<RolloutState>, rolloutComplete: nat)
    returns (nodes: seq<RolloutState>, edges: seq<Edge>, target: nat)
    requires ThreeSteps(m)
    requires |nodes0| == m.LatticeSize() && forall i :: 0 <= i < |nodes0| ==> IsNode(m, i, nodes0[i])
    requires rolloutComplete == Encode(m, ChainState(m, 0))
    ensures |nodes| == m.NodeCount() && forall i :: 0 <= i < |nodes| ==> IsNode(m, i, nodes[i])
    ensures |edges| == |m.after|
    ensures forall j :: 0 <= j < |edges| ==> edges[j] == EdgeFor(m, Hop(ChainState(m, j), CommitAfter))
    ensures target == Encode(m, TargetOf(m))
  {
    hide IsNode, Commit, Trail, Tagged, Select, CanonicalOf, SchemaStateAt, LiveAt;
    RolloutComplete(m, nodes0);
    nodes, edges, target := nodes0, [], rolloutComplete;
    var ss := nodes0[rolloutComplete].schemaState;
    var live := nodes0[rolloutComplete].live;
    for j := 0 to |m.after|
      invariant |nodes| == m.LatticeSize() + j && forall i :: 0 <= i < |nodes| ==> IsNode(m, i, nodes[i])
      invariant |edges| == j
      invariant forall i :: 0 <= i < j ==> edges[i] == EdgeFor(m, Hop(ChainState(m, i), CommitAfter))
      invariant target == Encode(m, ChainState(m, j))
      invariant ss == SchemaStateAt(m, ChainState(m, j))
    {
      var next := ApplyOne(ss, m.after[j]);
      var s := NewRolloutState(|nodes|, live, next);
      ChainNode(m, j, live, s);
      nodes := nodes + [s];
      edges := edges + [Edge(target, s.id, CommitEvent(m.after[j]))];
      target, ss := s.id, next;
    }
  }

  lemma RowGrows(row: seq<Edge>, edges: seq<Edge>, i: nat, e: Edge)
    requires IsRow(row, edges, i)
    ensures IsRow(if e.src == i then row + [e] else row, edges + [e], i)
  {
  }

  method BuildAdjacency(n: nat, edges: seq<Edge>) returns (adjacency: seq<seq<Edge>>)
    requires forall e :: e in edges ==> e.src < n
    ensures IsAdjacency(n, edges, adjacency)
  {
    adjacency := seq(n, _ => []);
    for k := 0 to |edges|
      invariant |adjacency| == n
      invariant forall i :: 0 <= i < n ==> IsRow(adjacency[i], edges[..k], i)
    {
      assert edges[..k + 1] == edges[..k] + [edges[k]];
      forall i | 0 <= i < n {
        RowGrows(adjacency[i], edges[..k], i, edges[k]);
      }
      adjacency := adjacency[edges[k].src := adjacency[edges[k].src] + [edges[k]]];
    }
    assert edges[..|edges|] == edges;
    EdgeLessIsWeakOrder();
    for i := 0 to n
      invariant |adjacency| == n
      invariant forall j :: 0 <= j < i ==> Sorted(EdgeLess, adjacency[j])
      invariant forall j :: 0 <= j < n ==> IsRow(adjacency[j], edges, j)
    {
      SortBySorted(EdgeLess, adjacency[i]);
      adjacency := adjacency[i := SortBy(EdgeLess, adjacency[i])];
    }
  }

  // ---- the built edges are the moves ----

  ghost function HopsOf(m: Machine, lattice: bool, keys: seq<Key>): seq<Hop>
    requires ThreeSteps(m)
  {
    seq(|keys|, i requires 0 <= i < |keys| => KeyHop(m, lattice, keys[i]))
  }

  ghost function ChainHops(m: Machine): seq<Hop>
    requires ThreeSteps(m)
  {
    seq(|m.after|, j requires 0 <= j < |m.after| => Hop(ChainState(m, j), CommitAfter))
  }

  lemma EmittedListsHops(m: Machine, lattice: bool, edges: seq<Edge>, keys: seq<Key>)
    requires ThreeSteps(m) && Emitted(m, lattice, edges, keys, Size(m.Radix()), 0, 0)
    ensures ListsHops(m, edges, HopsOf(m, lattice, keys))
    ensures forall h :: h in HopsOf(m, lattice, keys) <==>
      IsHop(m, h) && (if lattice then h.move.Advance? else h.move.CommitDuring?)
  {
    var hops := HopsOf(m, lattice, keys);
    forall i, j | 0 <= i < j < |hops| ensures hops[i] != hops[j] {
      if hops[i] == hops[j] {
        KeyHopInjective(m, lattice, keys[i], keys[j]);
      }
    }
    forall h | IsHop(m, h) && (if lattice then h.move.Advance? else h.move.CommitDuring?)
      ensures h in hops
    {
      var key := HopKey(m, lattice, h);
      assert key in keys;
      var i :| 0 <= i < |keys| && keys[i] == key;
      assert hops[i] == h;
    }
  }

  lemma HopKey(m: Machine, lattice: bool, h: Hop) returns (key: Key)
    requires ThreeSteps(m) && IsHop(m, h)
    requires if lattice then h.move.Advance? else h.move.CommitDuring?
    ensures KeyOk(m, lattice, key) && KeyHop(m, lattice, key) == h
  {
    IndexRoundTrip(m.Radix(), h.p.steps);
    MaskRoundTrip(h.p.during);
    var c, dv := Index(m.Radix(), h.p.steps), Mask(h.p.during);
    key := if lattice then Key(c, h.move.w, dv) else Key(c, dv, h.move.k);
  }

  /** Listing all three families of moves, each without repetition, gives the edge relation. */
  lemma EdgesAreSteps(m: Machine, edges: seq<Edge>, hops: seq<Hop>)
    requires ThreeSteps(m) && ListsHops(m, edges, hops)
    requires forall h :: IsHop(m, h) ==> h in hops
    ensures forall e :: e in edges <==> IsStep(m, e)
    ensures NoParallelEdges(edges)
  {
    forall e | e in edges ensures IsStep(m, e) {
      var k :| 0 <= k < |edges| && edges[k] == e;
      assert IsHop(m, hops[k]);
    }
    forall e | IsStep(m, e) ensures e in edges {
      var h: Hop :| IsHop(m, h) && e == EdgeFor(m, h);
      var k :| 0 <= k < |hops| && hops[k] == h;
      assert edges[k] == e;
    }
    forall i, j | 0 <= i < j < |edges| ensures edges[i].src != edges[j].src || edges[i].dst != edges[j].dst {
      var a, b := hops[i], hops[j];
      assert IsHop(m, a) && IsHop(m, b) && a != b;
      if edges[i].src == edges[j].src && edges[i].dst == edges[j].dst {
        EncodeInjective(m, a.p, b.p);
        EncodeInjective(m, Next(m, a.p, a.move), Next(m, b.p, b.move));
        NextInjective(m, a.p, a.move, b.move);
      }
    }
  }

  lemma AllHopsListed(m: Machine, lattice: seq<Hop>, cube: seq<Hop>, h: Hop)
    requires ThreeSteps(m) && IsHop(m, h)
    requires h.move.Advance? ==> h in lattice
    requires h.move.CommitDuring? ==> h in cube
    ensures h in lattice + cube + ChainHops(m)
  {
    if h.move.CommitAfter? {
      assert h == Hop(ChainState(m, h.p.after), CommitAfter);
      assert ChainHops(m)[h.p.after] == h;
    }
  }

  lemma EdgesJoin(m: Machine, lattice: seq<Edge>, lkeys: seq<Key>, cube: seq<Edge>, ckeys: seq<Key>, chain: seq<Edge>)
    requires ThreeSteps(m)
    requires Emitted(m, true, lattice, lkeys, Size(m.Radix()), 0, 0)
    requires Emitted(m, false, cube, ckeys, Size(m.Radix()), 0, 0)
    requires |chain| == |m.after| && forall j :: 0 <= j < |chain| ==> chain[j] == EdgeFor(m, Hop(ChainState(m, j), CommitAfter))
    ensures forall e :: e in lattice + cube + chain <==> IsStep(m, e)
    ensures NoParallelEdges(lattice + cube + chain)
  {
    EmittedListsHops(m, true, lattice, lkeys);
    EmittedListsHops(m, false, cube, ckeys);
    var lhops, chops, ahops := HopsOf(m, true, lkeys), HopsOf(m, false, ckeys), ChainHops(m);
    var hops := lhops + chops + ahops;
    JoinListed(m, lattice, lhops, cube, chops, chain, ahops);
    forall h | IsHop(m, h) ensures h in hops {
      AllHopsListed(m, lhops, chops, h);
    }
    EdgesAreSteps(m, lattice + cube + chain, hops);
  }

  lemma ChainHopsAreHops(m: Machine)
    requires ThreeSteps(m)
    ensures forall j :: 0 <= j < |m.after| ==> IsHop(m, ChainHops(m)[j])
  {
  }

  lemma JoinListed(m: Machine, e1: seq<Edge>, h1: seq<Hop>, e2: seq<Edge>, h2: seq<Hop>, e3: seq<Edge>, h3: seq<Hop>)
    requires ThreeSteps(m)
    requires ListsHops(m, e1, h1) && ListsHops(m, e2, h2)
    requires |e3| == |h3| && h3 == ChainHops(m)
    requires forall j :: 0 <= j < |e3| ==> e3[j] == EdgeFor(m, Hop(ChainState(m, j), CommitAfter))
    requires forall h :: h in h1 ==> h.move.Advance?
    requires forall h :: h in h2 ==> h.move.CommitDuring?
    ensures ListsHops(m, e1 + e2 + e3, h1 + h2 + h3)
  {
    hide IsHop, EdgeFor;
    ChainHopsAreHops(m);
    var edges, hops := e1 + e2 + e3, h1 + h2 + h3;
    forall k | 0 <= k < |hops|
      ensures IsHop(m, hops[k]) && edges[k] == EdgeFor(m, hops[k])
    {
      if k < |h1| {
        assert hops[k] == h1[k] && edges[k] == e1[k];
      } else if k < |h1| + |h2| {
        assert hops[k] == h2[k - |h1|] && edges[k] == e2[k - |h1|];
      } else {
        assert hops[k] == h3[k - |h1| - |h2|] && edges[k] == e3[k - |h1| - |h2|];
      }
    }
    assert Distinct(h3);
    assert forall i :: 0 <= i < |h1| ==> h1[i] in h1;
    assert forall i :: 0 <= i < |h2| ==> h2[i] in h2;
  }

  // ---- Build ----

  ghost predicate PhasesKnown(plan: RolloutPlan) {
    forall i :: 0 <= i < |plan.migrations| ==> plan.migrations[i].phase != PhaseUnknown
  }

  method SplitPhases(timings: seq<MigrationTiming>)
    returns (r: Option<(seq<Migration>, seq<Migration>, seq<Migration>)>)
    ensures r.None? <==> exists i :: 0 <= i < |timings| && timings[i].phase == PhaseUnknown
    ensures r.Some? ==>
      && r.value.0 == OfPhase(timings, PhaseBeforeRollout)
      && r.value.1 == OfPhase(timings, PhaseDuringRollout)
      && r.value.2 == OfPhase(timings, PhaseAfterRollout)
  {
    var before, during, after := [], [], [];
    for i := 0 to |timings|
      invariant forall j :: 0 <= j < i ==> timings[j].phase != PhaseUnknown
      invariant before == OfPhase(timings[..i], PhaseBeforeRollout)
      invariant during == OfPhase(timings[..i], PhaseDuringRollout)
      invariant after == OfPhase(timings[..i], PhaseAfterRollout)
    {
      assert timings[..i + 1][..i] == timings[..i];
      match timings[i].phase
      case PhaseBeforeRollout => before := before + [timings[i].migration];
      case PhaseDuringRollout => during := during + [timings[i].migration];
      case PhaseAfterRollout => after := after + [timings[i].migration];
      case PhaseUnknown => return None;
    }
    assert timings[..|timings|] == timings;
    return Some((before, during, after));
  }

  /**
   Builds the transition graph of a plan on top of history already baked into its
   base schema: exactly the graph of the abstract machine, or an error for an
   undeclared phase or an oversized lattice.
   */
  method BuildOn(plan: RolloutPlan, prior: seq<CommittedOp>, priorIndeterminate: bool)
    returns (r: Result<Graph, BuildError>)
    ensures r.Ok? <==>
      PhasesKnown(plan) && MachineOf(plan, prior, priorIndeterminate).LatticeSize() <= MAX_GRAPH_NODES
    ensures r.Err? ==> r.error == if PhasesKnown(plan) then TooManyNodes else NoValidPhase
    ensures r.Ok? ==> GraphOf(MachineOf(plan, prior, priorIndeterminate), r.value)
  {
    hide Commit, Trail, OfPhase, GraphOf, Progression, Size, Pow;
    var phases := SplitPhases(plan.migrations);
    if phases.None? {
      return Err(NoValidPhase);
    }
    var (before, during, after) := phases.value;
    var base := ApplyAll(plan.baseSchema, prior, before);
    base := base.(indeterminate := base.indeterminate || priorIndeterminate);
    var progressions: seq<seq<WorkloadStep>> := [];
    for w := 0 to |plan.workloads|
      invariant |progressions| == w
      invariant forall i :: 0 <= i < w ==> progressions[i] == Progression(plan.workloads[i])
    {
      progressions := progressions + [Progression(plan.workloads[w])];
    }
    assert progressions == ProgressionsOf(plan.workloads);
    r := BuildMachine(Machine(progressions, base, during, after));
  }

  /** The construction itself, once migrations are split and progressions known. */
  method BuildMachine(m: Machine) returns (r: Result<Graph, BuildError>)
    requires ThreeSteps(m)
    ensures r.Ok? <==> m.LatticeSize() <= MAX_GRAPH_NODES
    ensures r.Err? ==> r.error == TooManyNodes
    ensures r.Ok? ==> GraphOf(m, r.value)
  {
    var combos := BuildVersionCombos(m);
    if |combos| * m.Vectors() > MAX_GRAPH_NODES {
      return Err(TooManyNodes);
    }
    var lattice := BuildNodes(m, combos);
    EndIDs(m);
    var startIdx := ComboIndex(m, m.NoStep());
    var finalIdx := ComboIndex(m, m.LastSteps());
    var nodes, chain, target := AfterChain(m, lattice, finalIdx * m.Vectors() + (m.Vectors() - 1));
    var edges := BuildEdges(m, combos, chain);
    StepsStayInside(m);
    var adjacency := BuildAdjacency(|nodes|, edges);
    return Ok(Graph(nodes, edges, startIdx * m.Vectors(), target, adjacency));
  }

  lemma EndIDs(m: Machine)
    requires ThreeSteps(m)
    ensures m.Vectors() > 0
    ensures Encode(m, StartOf(m)) == Index(m.Radix(), m.NoStep()) * m.Vectors()
    ensures Encode(m, ChainState(m, 0)) == Index(m.Radix(), m.LastSteps()) * m.Vectors() + (m.Vectors() - 1)
  {
    PowPositive(2, |m.during|);
    MaskOfNone(m.NoDuring());
    MaskOfAll(m.AllDuring());
  }

  method BuildEdges(m: Machine, combos: seq<seq<nat>>, chain: seq<Edge>) returns (edges: seq<Edge>)
    requires ThreeSteps(m)
    requires |combos| == Size(m.Radix())
    requires forall i :: 0 <= i < |combos| ==> combos[i] == Digits(m.Radix(), i)
    requires |chain| == |m.after| && forall j :: 0 <= j < |chain| ==> chain[j] == EdgeFor(m, Hop(ChainState(m, j), CommitAfter))
    ensures forall e :: e in edges <==> IsStep(m, e)
    ensures NoParallelEdges(edges)
  {
    var latticeEdges, lkeys := LatticeEdges(m, combos);
    var cubeEdges, ckeys := HypercubeEdges(m, combos);
    EdgesJoin(m, latticeEdges, lkeys, cubeEdges, ckeys, chain);
    edges := latticeEdges + cubeEdges + chain;
  }

  lemma StepsStayInside(m: Machine)
    requires ThreeSteps(m)
    ensures forall e :: IsStep(m, e) ==> e.src < m.NodeCount() && e.dst < m.NodeCount()
  {
    forall e | IsStep(m, e) ensures e.src < m.NodeCount() && e.dst < m.NodeCount() {
      var h: Hop :| IsHop(m, h) && e == EdgeFor(m, h);
      EncodeRoundTrip(m, h.p);
      EncodeRoundTrip(m, Next(m, h.p, h.move));
    }
  }

  method Build(plan: RolloutPlan) returns (r: Result<Graph, BuildError>)
    ensures r.Ok? <==> PhasesKnown(plan) && MachineOf(plan, [], false).LatticeSize() <= MAX_GRAPH_NODES
    ensures r.Err? ==> r.error == if PhasesKnown(plan) then TooManyNodes else NoValidPhase
    ensures r.Ok? ==> GraphOf(MachineOf(plan, [], false), r.value)
  {
    r := BuildOn(plan, [], false);
  }
}
