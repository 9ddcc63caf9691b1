# RolloutProof, modelled and verified

RolloutProof checks a deployment plan (service versions being rolled out, schema
migrations before, during and after, a rollback target) before it runs. It builds the
finite graph of every state the rollout can pass through and scans it with a family of
invariants that answer SAFE, UNSAFE with a shortest counterexample, or UNKNOWN with the
evidence that is missing. Its worth rests on never answering SAFE wrongly.

This project models that core and proves it:

- **The graph is the rollout.** An abstract machine (`Machines`) says what a rollout can
  do: each workload steps through its progression, each during-migration commits at any
  moment, the after-migrations commit in order at the end. `Graphs` is the loop-by-loop
  construction, proved to give exactly that machine's graph. `Paths` is the breadth-first
  search, proved on any graph; `GraphTheory` shows the built graph is graded, and
  `Determinism` that paths, verdicts and counterexamples depend on the plan alone.
- **Schemas and trails.** `Schemas` and `Replay` give migrations their meaning and show that
  every node's schema, trail and indeterminate flag are a plain fold from the base schema.
- **The verdict engine.** `Checks` says what a violation and a gap are in one state;
  `Engine`, `Family`, `ExpandContract`, `Api`, `Order` and `Rollback` are the scan loops,
  proved to decide exactly that, with the nearest counterexample. `TypeCompat`, `Versions`
  and `RollbackClass` are the tables they consult.
- **What the tables mean.** The base definitions are proved against something that does not
  mention them: `Decimals` and `TypeNames` say which numbers and values a string spells,
  `Rows` which inserted rows a schema refuses, `Rolling` which replica counts an update
  passes through, `Provenance` where a recorded type comes from, and `Reversals` what an
  operation does to stored rows and whether undoing it restores them.
- **No false SAFE.** `Evidence` says what positive evidence every SAFE of RP-DB-001..005,
  RP-API and RP-ORDER rests on. `Oracles` states, independently, the hazards the repository's fuzz
  tests look for; `Pipeline` proves that an overall SAFE leaves none of them in any state of
  the forward graph or the rollback graph.
- **Laws across plans.** `Pairs` and `Independence`: the column and rollback verdicts depend
  only on which live version meets which schema state, not on strategies. `Meetings`: what
  RP-API and RP-ORDER depend on instead. `Phases` and `PhaseOrder`: "during" is the most
  demanding phase, exactly in list order. `Refinement`: more evidence does not overturn a
  settled verdict. `Confluence`: independent migrations commute. `Coherence`: the two rollback
  verdicts agree. `Witnesses` holds the plans where such a claim stops.
- **The lexer.** `Lexing` is the cursor object over the bytes of a migration file; `Tiling`
  proves that its tokens tile the file in the only possible way.

Loops, in-place updates and the cursor are methods with invariants; what the source computes
as a value is a function. Methods are proved against ghost predicates that do not follow
their loops, and the laws are lemmas about those predicates.

## Where the code and its documentation differ

The model follows the code.

- `AllowsCoexistence` is false for an unknown strategy, although a comment says coexistence
  cannot be ruled out then. The column and rollback verdicts are the same either way
  (`Independence.StrategyIndependence`). RP-API and RP-ORDER are not: `Meetings.StrategyAndApi`
  and `Meetings.StrategyAndOrder` say exactly when a strategy matters, and
  `Witnesses.UnrecognisedStrategyHidesClash` is a plan whose clash goes unseen.
- `AllowsCoexistence` is documented as whether old and new replicas can ever be live
  together. It misses the update that may stop all of two or more replicas, with no surge:
  stopped one by one they overlap with the first new one. `Rolling.DocumentedExactly` says
  exactly when answer and documentation agree, `Witnesses.AllUnavailableHidesClash` is a plan
  whose clash goes unseen, and `Rolling.CoexistenceExactly` says what the answer does mean.
- A node's outgoing edges are sorted by target node first, though the documentation names the
  event kind and the detail. In a built graph only the target ever decides
  (`GraphTheory.BuiltRowsAscend`), and the path found is the least shortest run.
- During-migrations are replayed in list order at every node, whatever path led there, so an
  edge need not apply its own migration to the state it leaves. `Confluence.EdgeExactly` says
  exactly when it does, trail included; `Confluence.EdgeAppliesItsMigration` when it does as to
  flag and schema; `Confluence.DependentEdge` is a plan where it does not.
- RP-DB-006 looks at the last migration of an ID only. `ExpandContract.ExpandContractExact`
  says exactly when that misses an early contract operation, and
  `ExpandContract.ShadowedContractExists` gives such a valid plan.
- RP-ROLLBACK-003's two verdicts agree when the target has a contract file. Without one they
  disagree exactly when the version being rolled back fails a check on the schema the plan
  leaves (`Coherence.CoherenceWithoutContract`, `Witnesses.RollbackVerdictsDisagree`).
- More evidence can overturn a SAFE of RP-DB-007 and RP-ROLLBACK-001, though never for
  operations the parser classified: `Refinement.EvidenceRefinesIrreversible` has the exact
  condition, `Witnesses.EvidenceOverturnsSafe` a plan.
- RP-DB-004 counts `NOT NULL DEFAULT NULL` as having a default: `Rows.NullDefaultsExactly`.
- A percentage below zero does not round up (`Rollout.ResolveRoundsUp`), and a varchar of
  negative length is parsed as a type, without a limit when the length is -1
  (`TypeNames.WideningBySpelling`).

## Model

| member | source | states |
|---|---|---|
| Schemas.NewTable | internal/ir/schema.go:88-103 | accepts exactly the named tables whose columns are named and distinct, and then holds exactly those columns, each under its own name |
| Schemas.NewSchema | internal/ir/schema.go:148-160 | accepts exactly the named, distinct tables, and then holds exactly those tables; from well-formed tables it builds a well-formed schema |
| Schemas.ApplyEffect | internal/ir/schema.go:170-254 | an operation applies exactly when a condition on its own columns holds, changes exactly those columns as its kind says and no other, creates at most its own table, and keeps schemas well formed |
| Rollout.LiveLessIsTotalOrder | internal/ir/state.go:13-27 | the comparison of live versions is a strict total order |
| Rollout.NewRolloutState | internal/ir/state.go:123-135 | the live list comes out sorted, without repetition, with exactly the given versions |
| Rollout.CanonicalUnique | internal/ir/state.go:120-135 | states built from the same facts in any order have equal live lists |
| Rollout.ResolveRoundsUp | internal/ir/workload.go:48-53 | a percentage resolves to the least count of at least that share, except exactly for shares below -99 hundredths that do not leave remainder 1, where truncation rounds one too high |
| Rolling.CoexistenceExactly | internal/ir/workload.go:76-83 | a rolling update of at least one replica coexists, by the source's answer, exactly when a new replica can start beside all the old ones, or the old ones cannot all be stopped first |
| Rolling.CoexistenceDeclared | internal/ir/workload.go:43-83 | the answer read off the declared numbers and percentages, for every strategy and every input |
| Rolling.OneMoreExactly | internal/ir/workload.go:71-83 | starting a replica beside n old ones is possible exactly when the ceiling admits n + 1 |
| Rolling.NoneLeftExactly | internal/ir/workload.go:71-83 | stopping every old replica before any new one starts is possible exactly when the floor admits none |
| Rolling.FloorForcesOverlap | internal/ir/workload.go:71-83 | where it is not possible, every update that starts a new replica runs both versions at some moment |
| Rolling.EmptyAvoidsOverlap | internal/graph/graph.go:130-151 | where it is, an update from all old to all new exists in which the versions never overlap |
| Rolling.DocumentedExactly | internal/ir/workload.go:70-75 | exactly when the answer is whether old and new replicas can ever be live together |
| Rollout.LastWithID | internal/ir/rolloutplan.go:82-121 | a map filled in list order has an entry for an ID exactly when the list does |
| Rollout.LastWithIDIsLast | internal/ir/rolloutplan.go:82-121 | that entry is the last one of the ID |
| Replay.ApplyOne | internal/graph/graph.go:450-477 | the loop over one migration's operations commits them in order, with sticky failure and recorded prior types |
| Replay.ApplyAll | internal/graph/graph.go:442-448 | a list of migrations commits one after the other from a determinate state |
| Replay.CommitKeepsTrail | internal/graph/graph.go:450-477 | committing keeps the trail's meaning: schema is the longest successful prefix, the flag says whether some operation fails, each prior type is the type just before |
| Replay.CommitIsFold | internal/graph/graph.go:450-477 | the result is determinate exactly when the plain fold of Apply succeeds, and then it is that fold's schema |
| Replay.CommitGrowsTrail | internal/graph/graph.go:450-477 | the trail grows by exactly the committed operations, failed or not |
| Replay.FindRemovingOp | internal/invariant/rpdb.go:300-314 | returns the last operation that drops the column or renames it away, or nothing when there is none |
| Replay.RemovalProvenance | internal/invariant/rpdb.go:294-314 | for an absent column, just before the operation found it existed and ever after it did not; finding none means it never existed from the base schema on |
| Provenance.SourceGivesType | internal/ir/schema.go:170-254 | a column's type is that of the base schema, or the new type of the last ADD or ALTER that gave it one, followed through renames |
| Provenance.PriorTypeExactly | internal/graph/graph.go:450-465 | the prior type recorded for a type change is the type the column had just before, from that source, and empty exactly when the column is missing or an earlier operation failed |
| Provenance.NodesPriorTypes | internal/graph/graph.go:442-493 | so in every node of a plan's graph |
| Numbering.IndexRoundTrip | internal/graph/graph.go:175-181 | every step vector has a number below the product of the radices, and the number gives it back |
| Numbering.DigitsRoundTrip | internal/graph/graph.go:159-173 | every such number is the number of a step vector |
| Numbering.MaskRoundTrip | internal/graph/graph.go:261-263 | every commit vector has a mask below 2^D, and the mask gives it back |
| Numbering.BitsRoundTrip | internal/graph/graph.go:261-263 | every mask below 2^D is the mask of a commit vector |
| Numbering.BitsAt | internal/graph/graph.go:482-493 | the bit test reads exactly one entry of the commit vector |
| Numbering.MaskSetBit | internal/graph/graph.go:302-306 | setting a clear bit commits exactly one more migration |
| Machines.EncodeRoundTrip | internal/graph/graph.go:257-263 | every state of a rollout has a node number in range, which decodes back to it |
| Machines.DecodeRoundTrip | internal/graph/graph.go:257-263 | every node number stands for a state and is its number |
| Machines.NodeCountFormula | internal/graph/graph.go:239-255 | W workloads, D during- and A after-migrations give 3^W 2^D + A nodes |
| Machines.NextInjective | internal/graph/graph.go:279-314 | two moves from a state lead to different states |
| Machines.LiveForMember | internal/graph/graph.go:183-189 | a version is live at a step vector exactly when it is live in some workload's step |
| Machines.MoveRaisesRank | internal/graph/graph.go:279-353 | every move raises the count of things that have happened by exactly one |
| Machines.RankOfEnds | internal/graph/graph.go:316-353 | the start has rank 0 and the target 2W + D + A |
| Machines.Predecessor | internal/graph/graph.go:279-353 | every state but the start is one move after another state |
| Machines.Successor | internal/graph/graph.go:279-353 | every state but the target allows a move |
| Graphs.EdgeLessIsWeakOrder | internal/graph/graph.go:84-94 | the comparison of edges is a strict weak order, as the sort needs |
| Ordering.StringLessExactly | internal/graph/graph.go:92 | strings are compared byte by byte, a prefix first |
| Graphs.BuildVersionCombos | internal/graph/graph.go:159-173 | lists every step vector exactly at its mixed-radix number |
| Graphs.ComboIndex | internal/graph/graph.go:175-181 | computes the mixed-radix number |
| Graphs.ApplyDuringSubset | internal/graph/graph.go:482-493 | commits exactly the selected during-migrations, in list order |
| Graphs.BuildLive | internal/graph/graph.go:183-189 | concatenates the versions live in each workload's step |
| Graphs.BuildNodes | internal/graph/graph.go:265-277 | node i describes the state numbered i, for every state before the first after-migration |
| Graphs.LatticeEdges | internal/graph/graph.go:279-295 | emits one edge for every workload step, each once and nothing else |
| Graphs.HypercubeEdges | internal/graph/graph.go:297-314 | emits one edge for every commit of a during-migration, each once and nothing else |
| Graphs.AfterChain | internal/graph/graph.go:326-353 | appends the states after completion and the edges between them, ending in the target |
| Graphs.BuildAdjacency | internal/graph/graph.go:355-361 | row i holds the edges leaving i, with their multiplicities, sorted |
| Graphs.BuildEdges | internal/graph/graph.go:279-353 | an edge is built exactly when it is a move of the machine, and no two edges run in parallel |
| Graphs.EdgesJoin | internal/graph/graph.go:279-353 | the three groups of edges are together exactly the moves of the machine, without parallel edges |
| Graphs.SplitPhases | internal/graph/graph.go:215-230 | splits the migrations by phase in list order, failing exactly on an undeclared phase |
| Graphs.BuildMachine | internal/graph/graph.go:245-364 | builds the machine's graph, failing exactly when the lattice exceeds the bound |
| Graphs.BuildOn | internal/graph/graph.go:214-364 | builds exactly the graph of the plan's machine on the given history, or names the reason it cannot |
| Graphs.Build | internal/graph/graph.go:199-201 | builds exactly the graph of the plan's machine, or names the reason it cannot |
| Paths.ReconstructPath | internal/graph/graph.go:73-82 | walking the recorded edges back always reaches the start and gives the labels of the recorded run |
| Paths.Expand | internal/graph/graph.go:53-70 | scanning one row keeps the search invariant, visits in place, and makes progress |
| Paths.ShortestPath | internal/graph/graph.go:48-71 | on any graph: the labels of a real run to the target that no run beats, and nothing exactly for the start and unreachable nodes; where rows ascend, of the one run among the shortest that goes to the lower node wherever it parts from another |
| Paths.LeastPathUnique | internal/graph/graph.go:84-94 | there is only one such run |
| GraphTheory.GraphSearchable | internal/graph/graph.go:355-361 | the search sees exactly the moves of the machine |
| GraphTheory.BuiltGraphIsMachine | internal/graph/graph.go:257-364 | nodes and states are in bijection, node i has ID i and describes its state, two nodes are joined exactly when one move apart, no parallel edges, 3^W 2^D + A nodes |
| GraphTheory.EdgesTell | internal/graph/graph.go:106-151 | an edge's event is a ready replica exactly when its step brings the new version, a termination exactly when it takes the old one away, naming it, and a commit names the migration committed |
| GraphTheory.RunLengthIsRank | internal/graph/graph.go:279-353 | every run to a node is as long as the node's rank |
| GraphTheory.GradedGraph | internal/graph/graph.go:279-353 | every edge raises the rank by one, every node lies on a run from start to target, and the distance of a node is its rank |
| GraphTheory.DistanceIsRank | internal/graph/graph.go:48-71 | the shortest path to a node is as long as its rank |
| GraphTheory.BuiltRowsAscend | internal/graph/graph.go:84-94 | in a built graph the search meets the edges of a node by strictly ascending target, so event kinds and details never decide the order |
| GraphTheory.SizeLimit | internal/graph/graph.go:239-255 | which plans are small enough to build, in workloads and during-migrations |
| Determinism.RunDetermined | internal/graph/graph.go:35-42 | the path found to a node depends on the plan alone: repeated builds and searches give the same one |
| Determinism.CounterexampleDetermined | internal/invariant/rpdb.go:210-279 | so does the counterexample among given bad states: the state shown and the path to it |
| Determinism.CounterexampleIsEarliest | internal/invariant/rpdb.go:210-279 | the state shown is a bad one before which least has happened, and of those the lowest numbered |
| Determinism.DiagnosticDetermined | internal/invariant/rpdb.go:120-279 | two right diagnostics of one check on graphs of one plan agree in verdict, gaps and counterexample |
| Trails.NodeTrail | internal/graph/graph.go:265-352 | the migration IDs in a node's trail are those of the before-migrations and of what has committed there |
| Trails.NodesReplay | internal/graph/graph.go:442-493 | in every node, schema, flag and prior types agree with the fold of the trail from the plan's base schema |
| TypeCompat.WideningIsPreorder | internal/invariant/typecompat.go:105-156 | widening is reflexive exactly on recognised types, and transitive |
| TypeCompat.WideningIsInclusion | internal/invariant/typecompat.go:58-156 | between recognised types a change widens exactly when the new type admits every old value, except exactly from a varchar of negative length, which admits nothing, to a number or a lower length |
| TypeCompat.WidensIffAdmitsAll | internal/invariant/typecompat.go:105-156 | the comparison of parsed types is value inclusion whenever the old type admits some value |
| TypeNames.RecognisedExactly | internal/invariant/typecompat.go:39-96 | a type is recognised exactly when its spelling, in any letter case and with blanks around it, is one of the known names or a sized text, and then admits exactly the values meant |
| TypeNames.WideningBySpelling | internal/invariant/typecompat.go:98-156 | a change widens exactly when the new spelling means every value the old one means, but for a negative old length |
| TypeNames.UnrecognisedNeverWidens | internal/invariant/typecompat.go:105-112 | a spelling that means nothing never takes part in a widening |
| Decimals.AtoiExactly | internal/invariant/rpordertypes.go:60-63 | a string is read as a number exactly when it is a sign or none, leading zeros and the decimal rendering of that number, within 64 bits |
| Decimals.RenderRoundTrip | internal/invariant/rpordertypes.go:60-63 | every 64-bit number is read back from its rendering, and its negative |
| Decimals.SplitExactly | internal/invariant/rpordertypes.go:57 | splitting undoes joining on parts free of the separator, and gives nothing else |
| Decimals.SpellsExactly | internal/invariant/typecompat.go:59 | trimming and lower-casing give a text exactly when the string spells it |
| Versions.OrdinalsExactly | internal/invariant/rpordertypes.go:52-67 | a version string has ordinals exactly when it is a prefix and numerals joined by points, and they are the numbers it says |
| Versions.VersionRoundTrip | internal/invariant/rpordertypes.go:52-67 | every list of numbers is read back from its rendering, with and without a prefix |
| Versions.OrderBySegment | internal/invariant/rpordertypes.go:33-48 | later segments decide only between versions that agree before, and a missing one counts as zero |
| Versions.ParseVersionOrdinal | internal/invariant/rpordertypes.go:52-67 | parses exactly the dotted lists of non-negative numbers |
| Versions.CompareVersions | internal/invariant/rpordertypes.go:24-50 | decides the lexicographic order of zero-extended ordinals, in both directions, and reports unparseable versions |
| Versions.OrderTotal | internal/invariant/rpordertypes.go:24-50 | any two parseable versions are comparable |
| Versions.OrderExclusive | internal/invariant/rpordertypes.go:24-50 | at most one of less, equal and greater holds |
| Versions.OrderTransitive | internal/invariant/rpordertypes.go:24-50 | the order is transitive, equality included |
| RollbackClass.EvaluateRollback | internal/invariant/rollback.go:19-67 | the verdict is the class of the trail's worst operation |
| RollbackClass.WorstClassUnique | internal/invariant/rollback.go:19-67 | a trail has one such class |
| RollbackClass.ClassMeans | internal/invariant/rollback.go:19-67 | the class case by case, in terms of what the version declares: SAFE exactly when every removal is of a column it does not declare in a table it mentions, UNSAFE exactly when an irreversible removal takes a declared column, and so on |
| Reversals.UndoRestores | docs/architecture.md:561-566 | every operation that applies can be undone so that each column is defined as before |
| Reversals.DestructivenessExactly | internal/parser/sql/classify.go:9-73 | the parser's destructiveness is what the operation does: Destructive exactly when it takes its column away, NonDestructive exactly when it keeps every column and refuses no row it accepted, conditional otherwise |
| Reversals.ReversibilityExactly | internal/parser/sql/classify.go:9-73 | Irreversible exactly when the operation loses stored data; otherwise Reversible exactly when undoing it always leaves rows and types the schema allowed before |
| Reversals.RemovesExactly | internal/invariant/rollback.go:23-32 | what rollback analysis counts as a removal is exactly what takes its column away |
| Engine.ShortestByStateID | internal/invariant/rpdb.go:342-365 | picks a state no other beats by path length, then ID |
| Engine.Report | internal/invariant/rpdb.go:210-279 | verdict from findings, with the nearest bad state and a shortest real run to it |
| Engine.ScanColumns | internal/invariant/rpdb.go:177-190 | finds exactly the declared columns that are absent and not renamed away, each with its removing operation |
| Engine.ScanExistence | internal/invariant/rpdb.go:167-191 | finds exactly a state's existence violations and gaps |
| Engine.ScanLiveVersions | internal/invariant/rpdb005.go:57-81 | holds every live version against one column: exactly the violations, and a gap for each version without evidence |
| Engine.ScanTrail | internal/invariant/rpdb005.go:52-82 | finds exactly a state's rename violations and gaps, and with RP-DB-003's test exactly its type violations and gaps |
| Engine.ScanTable | internal/invariant/rpdb004.go:89-128 | finds exactly one table's uncovered NOT NULL columns and the missing evidence |
| Engine.ScanNotNull | internal/invariant/rpdb004.go:88-129 | finds exactly a state's uncovered NOT NULL columns and the missing evidence |
| Rows.NotNullExactly | internal/invariant/rpdb004.go:86-131 | RP-DB-004 flags a live version with a contract file exactly when some row of the columns it declares to write, into some table, would store NULL where it is refused |
| Rows.NullDefaultsExactly | internal/invariant/rpdb004.go:90 | where some default texts stand for NULL, RP-DB-004 is right about a version and a column exactly when the version does not rely on such a default of a NOT NULL column |
| Rows.OmittingWriters | internal/parser/sql/classify.go:9-25 | after an operation, a writer that omits the operation's column is refused exactly when the column was added NOT NULL without a default, or made NOT NULL while it has none |
| Rows.OperationElsewhere | internal/ir/schema.go:170-254 | other columns treat rows as before |
| Engine.ScanState | internal/invariant/rpdb003.go:32-75 | skips an indeterminate state with a gap, and otherwise finds exactly its violations and gaps |
| Engine.ScanNodes | internal/invariant/rpdb.go:159-192 | collects exactly the violations and gaps of all states |
| Engine.GraphHasAnyCommittedOp | internal/invariant/rpdb.go:285-292 | whether some state reflects a committed operation |
| Engine.EvaluateCheck | internal/invariant/rpdb.go:132-280 | the diagnostic is right: verdict, exactly the gaps when UNKNOWN, a genuine and minimal counterexample when UNSAFE, and the failing version's rollback class |
| ExpandContract.PhaseByID | internal/invariant/rpdb006.go:43-46 | the phase recorded for an ID is that of its last migration |
| ExpandContract.LinkHonouredExactly | internal/invariant/rpdb006.go:43-61 | a link is honoured exactly when the last migration of its contract ID exists and is declared after the rollout |
| ExpandContract.ViolatingContracts | internal/invariant/rpdb006.go:48-53 | lists exactly the contract IDs not declared after the rollout |
| ExpandContract.EvaluateExpandContractSequence | internal/invariant/rpdb006.go:34-110 | the diagnostic is right: UNSAFE exactly when some declared contract is early, showing the nearest state that carries the least such ID, or the target |
| ExpandContract.ExpandContractExact | internal/invariant/rpdb006.go:22-61 | UNSAFE is always real; SAFE misses a reachable early contract operation exactly when a later migration of the same ID shadows an early one |
| ExpandContract.ExpandContractDecides | internal/invariant/rpdb006.go:22-61 | with unique migration IDs, SAFE exactly when no state before completion carries a contract operation |
| ExpandContract.ShadowedContractExists | internal/invariant/rpdb006.go:43-61 | a valid plan where the structural check says SAFE although a contract operation commits early, and nothing in it fails to apply |
| Family.EvaluateColumnFamily | internal/invariant/rpdb.go:48-57 | six right diagnostics under their own IDs, in report order |
| Family.Evaluate | internal/invariant/rpdb.go:34-36 | the same, with the snapshot checks not applicable to a plan that commits nothing |
| Family.ChangingNothingIsSafe | internal/invariant/rpdb.go:118-146 | a plan whose migrations hold no operation passes RP-DB-001..005 whatever its contract files say or lack |
| Family.AdvisoryNeverBlocks | internal/invariant/rpdb.go:60-80 | one more diagnostic changes the overall verdict only upwards, and an advisory UNSAFE not at all |
| Evidence.SafeExactly | internal/invariant/rpdb.go:134-208 | SAFE exactly when the check does not apply or every state holds positive evidence from every live version, stated in declared facts and the schema |
| Evidence.SafeByName | internal/invariant/rpdb.go:34-57 | the same for RP-DB-001..005 by name: which declared columns, which operations and which rows each one's SAFE speaks of |
| Family.Aggregate | internal/invariant/rpdb.go:71-80 | UNSAFE if a non-advisory diagnostic is, else UNKNOWN if any is, else SAFE |
| Family.GraphScannable | internal/graph/graph.go:257-364 | a built graph meets what every scan relies on |
| Family.CounterexampleIsRun | internal/graph/graph.go:48-71 | in a built graph the path of every counterexample is a shortest real run to the state it shows |
| Family.FamilyExplained | internal/invariant/rpdb.go:194-279 | every counterexample of RP-DB-001..006 shows a node and a shortest real run to it, and every UNKNOWN names a gap |
| Api.ScanProvider | internal/invariant/rpapi.go:118-141 | finds exactly what one provider's contract breaks for one consumption |
| Api.ScanConsumption | internal/invariant/rpapi.go:110-148 | holds a consumption against every live provider, and knows whether any provides the contract |
| Api.ScanConsumer | internal/invariant/rpapi.go:101-150 | finds exactly one consumer's violations and gaps |
| Api.ScanApi | internal/invariant/rpapi.go:97-151 | collects exactly the violations and gaps of all states |
| Api.AnyUsage | internal/invariant/rpapi.go:48-55 | whether any contract file declares API facts |
| Api.BuildApiDiagnostic | internal/invariant/rpapi.go:245-290 | the diagnostic of one finding is right, with a genuine and minimal counterexample |
| Api.EvaluateAPI | internal/invariant/rpapi.go:87-159 | RP-API-001..003 are each right, also when not applicable, and so is RP-API-004 about the three together |
| Api.AggregateDecides | internal/invariant/rpapi.go:296-339 | RP-API-004 is UNSAFE exactly when some finding is, with the first such finding's nearest counterexample, else UNKNOWN exactly when some is, with exactly the gaps of the graph |
| Evidence.ApiSafeExactly | internal/invariant/rpapi.go:87-159 | a finding of RP-API is SAFE exactly when no file declares API facts, or in every state every live version has a file and all it consumes is provided and, as far as the finding goes, served by every live provider |
| Order.ScanDependency | internal/invariant/rporder.go:82-107 | finds exactly the live versions below a minimum, those not comparable, and the absence of any |
| Order.ScanOrderConsumer | internal/invariant/rporder.go:69-109 | finds exactly one consumer's violations and gaps |
| Order.ScanOrder | internal/invariant/rporder.go:65-110 | collects exactly the violations and gaps of all states |
| Order.AnyDependency | internal/invariant/rporder.go:168-175 | whether any contract file declares a dependency |
| Order.EvaluateOrder | internal/invariant/rporder.go:55-115 | RP-ORDER-001 and 002 are right, with a genuine and minimal counterexample |
| Order.RaisingMinimum | internal/invariant/rporder.go:83-100 | raising a minimum among comparable versions never removes a violation |
| Evidence.OrderSafeExactly | internal/invariant/rporder.go:55-115 | RP-ORDER-001 and 002 are SAFE exactly when no file declares a dependency, or in every state every live version has a file and each minimum it declares is met, as the version strings say, by every live version of that service, of which there is one |
| Rollback.BuildRollback | internal/graph/graph.go:405-432 | builds exactly the rollback machine's graph on what the forward plan left, or names the reason it cannot |
| Rollback.RollbackNodes | internal/graph/graph.go:405-432 | all three states stand on the forward plan's final state, trail and flag included, and the target version is live in one |
| Rollback.RollbackNodesReplay | internal/graph/graph.go:384-432 | the rollback's trails replay from the forward plan's base schema |
| Rollback.RollbackNodesPriorTypes | internal/graph/graph.go:384-432 | and the prior types recorded in them are right |
| Rollback.AnyLiveVersionWritesColumn | internal/invariant/rollback_plan.go:204-214 | whether some version live anywhere declares that it writes the column |
| Rollback.ScanRemovals | internal/invariant/rollback_plan.go:117-166 | finds exactly whether a depended-on removal is irrecoverable, and exactly the gaps |
| Rollback.EvaluateIrreversibleBeforeRollback | internal/invariant/rollback_plan.go:102-197 | RP-DB-007 and RP-ROLLBACK-001 are right: verdict, gaps, and the final state shown |
| Rollback.IrreversibleMeans | internal/invariant/rollback_plan.go:102-166 | the verdict case by case in declared facts: UNSAFE exactly when a removal takes a declared column for good, or for good once written to and some live version declares it writes it; else UNKNOWN exactly when a removal cannot be judged |
| Rollback.EvaluateOldVersionAgainstCurrentSchema | internal/invariant/rollback_plan.go:224-287 | RP-ROLLBACK-002 is the worst verdict of the column family on the rollback graph, with its gaps and a counterexample there, and UNKNOWN when that graph cannot be built |
| Rollback.EvaluateRollbackAggregate | internal/invariant/rollback_plan.go:316-357 | UNSAFE exactly when one of the two verdicts is, SAFE exactly when both are and the class is not CONDITIONALLY_SAFE; the class is the worst of the trail's operations and RP-ROLLBACK-002, UNKNOWN without a contract; the counterexample is that of the first UNSAFE one |
| Rollback.RollbackClassUnique | internal/invariant/rollback_plan.go:316-329 | that class is determined by the trail, the contract and RP-ROLLBACK-002 |
| Rollback.RollbackExplained | internal/invariant/rollback_plan.go:102-287 | RP-DB-007 and RP-ROLLBACK-001 and 002 name a gap when UNKNOWN, and 002 shows a shortest real run of the rollback graph |
| Rollback.EvaluateRollbackPlan | internal/invariant/rollback_plan.go:71-89 | four right diagnostics under their own IDs, all SAFE when no target is declared |
| Coherence.RollbackCoherence | internal/invariant/rollback_plan.go:294-357 | with a contract and classified operations the two verdicts of RP-ROLLBACK-003 agree on SAFE and UNSAFE, and CONDITIONALLY_SAFE never appears |
| Coherence.CoherenceWithoutContract | internal/invariant/rollback_plan.go:316-357 | without a contract the class is UNKNOWN, and the two verdicts disagree exactly when the rollback graph can be built and the version rolled back has a contract and fails one of the five checks on the schema the plan leaves |
| Coherence.OnlyAbandonedFails | internal/invariant/rollback_plan.go:224-287 | without a contract for the target, RP-ROLLBACK-002 is UNSAFE exactly when the version rolled back fails a check |
| Witnesses.RollbackVerdictsDisagree | internal/invariant/rollback_plan.go:316-357 | a valid plan, and contract files, that meet that condition in every graph of the plan |
| Coherence.TargetTrailClassified | internal/parser/sql/classify.go:13-73 | a plan of parser-classified operations ends in a classified trail |
| Oracles.HazardIffFlagged | internal/invariant/adversarial_test.go:208-264 | a state is hazardous exactly when RP-DB-001..004 flag it or RP-DB-005 flags an absent column: delegating renames loses nothing |
| Oracles.ApiHazardIsFlagged | internal/invariant/adversarial_api_test.go:125-171 | every API hazard makes one of RP-API-001..003 UNSAFE |
| Oracles.OrderHazardIsFlagged | internal/invariant/adversarial_api_test.go:125-171 | every version-order hazard makes RP-ORDER UNSAFE |
| Pipeline.SafeFamilyNoHazard | internal/invariant/adversarial_test.go:208-264 | RP-DB-001..005 all SAFE leave no schema hazard in any state |
| Pipeline.SafeApiOrderNoHazard | internal/invariant/adversarial_api_test.go:125-171 | RP-API and RP-ORDER all SAFE leave no API or order hazard in any state |
| Pipeline.SafeRollbackNoHazard | internal/invariant/rollback_plan.go:224-287 | RP-ROLLBACK-002 SAFE leaves no schema hazard in any rollback state, whenever the change was committed |
| Pipeline.SafeMeansNoHazard | internal/invariant/adversarial_test.go:208-264 | no false SAFE, forward or rolling back |
| Pipeline.SafeWithMoreNoHazard | internal/verify/verify.go:43-50 | the same when the run appends diagnostics of further families |
| Pipeline.SameNodes | internal/graph/graph.go:199-201 | the machine determines the nodes of its graph |
| Pipeline.VerifyPlan | internal/verify/verify.go:38-46 | runs every modelled invariant on a plan, each diagnostic right and explained; when the overall verdict is SAFE no reachable state, forward or rolling back, is hazardous |
| Pipeline.AllExplained | internal/invariant/rpdb.go:342-365 | every counterexample on the forward graph ends a shortest real run, and every UNKNOWN but RP-ROLLBACK-003's names a gap |
| Meetings.MeetExactly | internal/graph/graph.go:106-189 | two versions are live together in some node exactly when they belong to different workloads, are the same, or their workload lets them coexist |
| Meetings.OneWorkloadMeets | internal/graph/graph.go:106-151 | in the graph of a one-workload plan the two versions meet exactly when it rolls and its declared limits admit a replica more, or no moment without any; in terms of the counts an update passes through |
| Meetings.LackExactly | internal/graph/graph.go:106-189 | a version is live in some node with none of a given set exactly when it is not in the set and every other workload has a step without it |
| Meetings.ApiVerdictExactly | internal/invariant/rpapi.go:87-159 | the verdicts of RP-API-001..003, read off the plan without its graph |
| Meetings.OrderVerdictExactly | internal/invariant/rporder.go:55-115 | the verdict of RP-ORDER-001 and 002, read off the plan without its graph |
| Meetings.StrategyAndApi | internal/ir/workload.go:76-83 | plans that differ in strategies agree on UNSAFE of a finding exactly when versions of two workloads clash anyway, or both or neither lets the clashing versions of one workload coexist |
| Meetings.StrategyAndOrder | internal/ir/workload.go:76-83 | the same for RP-ORDER |
| Witnesses.ProviderStrategyMatters | internal/ir/workload.go:76-83 | valid plans that differ in one strategy: RP-API and RP-ORDER are SAFE when the provider rolls and UNKNOWN when it is recreated |
| Witnesses.UnrecognisedStrategyHidesClash | internal/ir/workload.go:10-15 | a valid plan that RP-API calls UNSAFE when rolling and SAFE under an unrecognised strategy |
| Witnesses.AllUnavailableHidesClash | internal/ir/workload.go:70-83 | valid plans with no surge: one of three unavailable, the versions meet and the clash is found; three of three, they do not and it is not, although a replica-by-replica update overlaps |
| Pairs.ViolationFromPairs | internal/invariant/rpdb.go:159-192 | violations are a matter of (live version, schema state) pairs alone |
| Pairs.FewerPairsNoWorse | internal/invariant/rpdb.go:159-208 | fewer pairs never worsen a verdict |
| Pairs.SamePairsSameVerdict | internal/invariant/rpdb.go:159-208 | the verdict is a function of the set of pairs |
| Pairs.GraphPairs | internal/graph/graph.go:106-151 | a graph's pairs are the plan's, with no mention of how versions coexist |
| Pairs.CompactNodes | internal/graph/graph.go:239-277 | the reduced list has W 2^D + A states |
| Pairs.CompactCheckDecides | internal/invariant/rpdb.go:159-208 | scanning that list decides RP-DB-001..005 as scanning all 3^W 2^D + A nodes does |
| Independence.ForwardIndependence | internal/invariant/rpdb_test.go:251-265 | RP-DB-001..006 and the final state are the same for every strategy and replica count |
| Independence.SamePairsSameFamily | internal/invariant/rollback_plan.go:224-287 | RP-ROLLBACK-002's verdict depends on the (live version, schema state) pairs of its graph alone |
| Independence.StrategyIndependence | internal/graph/graph.go:106-151 | RP-DB-001..007, RP-ROLLBACK-001..003 and the four-state class do not depend on strategies and replica counts |
| Phases.DuringIsMostDemanding | internal/invariant/metamorphic_test.go:154-157 | moving the last during-migration to after, or the first to before, in list order, gives a subset of the live sets with their schema states, and worsens no verdict of RP-DB-001..005, RP-API or RP-ORDER |
| Phases.EarlierMoveAddsPairs | internal/graph/graph.go:326-353 | a plan where moving another one makes a state indeterminate |
| Phases.MoveAddsNoState | internal/graph/graph.go:215-353 | every state of the moved plan is a state of the plan, step for step |
| PhaseOrder.MoveExactly | internal/graph/graph.go:215-353 | for fixed phases, a move adds no state whatever the migrations hold if and only if it keeps the list order |
| PhaseOrder.OvertakingAddsState | internal/graph/graph.go:482-493 | otherwise two migrations commit in the other order, and a valid plan with these phases shows it |
| PhaseOrder.StateTrail | internal/graph/graph.go:326-353 | every state's trail is a selection of the migrations in the order a whole rollout commits them |
| Refinement.EvidenceRefines | internal/invariant/metamorphic_test.go:205-209 | more contract files never change a SAFE or UNSAFE of RP-DB-001..005 |
| Refinement.EvidenceRefinesFamily | internal/invariant/rollback_plan.go:224-287 | nor of RP-ROLLBACK-002 |
| Refinement.EvidenceRefinesIrreversible | internal/invariant/rollback_plan.go:102-166 | a settled verdict of RP-DB-007 and RP-ROLLBACK-001 survives all further contract files exactly when it is UNSAFE, or no conditionally reversible removal the target depends on meets a live version without a contract file |
| Refinement.NoContractIsUnknown | internal/invariant/rollback_plan.go:102-115 | without a contract for the target the verdict is UNKNOWN, so never settled |
| Refinement.ExposedIsOverturned | internal/invariant/rollback_plan.go:146-154 | otherwise one more contract file turns the verdict UNSAFE |
| Refinement.ClassifiedIsNotExposed | internal/parser/sql/classify.go:13-73 | operations classified by the parser never expose a verdict so |
| Witnesses.EvidenceOverturnsSafe | internal/invariant/rollback_plan.go:146-154 | a valid plan, in each of whose graphs a contract file of v2 turns SAFE into UNSAFE |
| Confluence.FoldLocal | internal/ir/schema.go:170-242 | operations depend on, and disturb agreement on, the columns they touch only |
| Confluence.IndependentFold | internal/ir/schema.go:170-242 | independent migrations apply exactly when each alone does, each to its own columns |
| Confluence.OrderIsImmaterial | internal/graph/graph.go:450-493 | two orders of the same independent migrations have the same flag and schema |
| Confluence.ApartCommutes | internal/graph/graph.go:450-493 | a migration that shares no column with a list of others, dependent or not, may as well commit after them |
| Confluence.NodeIsAnyOrder | internal/graph/graph.go:482-493 | a node whose committed during-migrations are independent is what committing them in any order gives |
| Confluence.EdgeExactly | internal/graph/graph.go:297-314 | an edge leads to exactly the state its own migration makes, trail included, if and only if its operations and those of the committed migrations listed after it commute as lists |
| Confluence.EdgeAppliesItsMigration | internal/graph/graph.go:297-314 | a hypercube edge applies its own migration, as to flag and schema, when that migration shares no column with the committed ones listed after it |
| Confluence.DependentEdge | internal/graph/graph.go:482-493 | a plan where an edge leads from an indeterminate node to a determinate one |
| Lexing.Lexer.constructor | internal/parser/sql/lexer.go:86-88 | starts at the first byte, on line 1 |
| Lexing.Lexer.Advance | internal/parser/sql/lexer.go:121-128 | moves one byte and keeps the line number exact |
| Lexing.Lexer.SkipBlockComment | internal/parser/sql/lexer.go:172-191 | skips to the first closing mark, or finds there is none |
| Lexing.Lexer.SkipWhitespaceAndComments | internal/parser/sql/lexer.go:159-197 | skips nothing but whitespace and comments, and all of them, failing only on an unterminated comment |
| Lexing.Lexer.SkipNumber | internal/parser/sql/lexer.go:219-230 | takes digits, and a point only with digits after it |
| Lexing.Lexer.ScanQuoted | internal/parser/sql/lexer.go:256-298 | reads up to the first undoubled quote and undoubles the rest, or finds it never closes |
| Lexing.Lexer.LexQuoted | internal/parser/sql/lexer.go:256-298 | the string or quoted identifier at the cursor, or the fault that it never closes |
| Lexing.Lexer.Next | internal/parser/sql/lexer.go:199-254 | the token that follows, by longest match, with its span, text and line; or the fault found there; every token but EOF moves the cursor |
| Lexing.TriviaUnique | internal/parser/sql/lexer.go:159-197 | skipping as much as possible ends in one place |
| Lexing.ClassesAsText | internal/parser/sql/lexer.go:130-157 | the byte classes, as the characters they are |
| Lexing.ClassesApart | internal/parser/sql/lexer.go:199-254 | the first byte decides what follows: no class of first bytes meets another |
| Tiling.Lex | internal/parser/sql/lexer.go:86-99 | returns a tiling of the source, and fails only on a source that has none |
| Tiling.TilingCovers | internal/parser/sql/lexer.go:54-64 | spans are disjoint and increasing, raw text is its span, gaps are whitespace and comments, lines count newlines, one EOF ends the list at the end of the source |
| Tiling.QuotedRoundTrip | internal/parser/sql/lexer.go:256-298 | quoting the unescaped text again gives the raw text |
| Tiling.TilingUnique | internal/parser/sql/lexer.go:199-254 | a source has at most one tiling |
| Tiling.BrokenHasNoTiling | internal/parser/sql/lexer.go:70-77 | a source with a reported fault cannot be tiled |
| Tiling.SplitStatements | internal/parser/sql/parser.go:64-84 | drops nothing but semicolons and what follows EOF; the statements are exactly the non-empty runs between semicolons, each at its own place and in order |
| Tiling.SemicolonInSource | internal/parser/sql/parser.go:64-84 | a token ends a statement exactly when it starts with a semicolon in the source, never within quotes or a comment |

## Left out

- Pipeline.VerifyPlan: leaves out the Kubernetes family and RP-ORDER-003, whose diagnostics the source's run appends; Pipeline.SafeWithMoreNoHazard shows that they cannot undo its promise.
- Confluence.EdgeAppliesItsMigration: gives a sufficient condition for flag and schema; some operations on one column also commute. Confluence.EdgeExactly is exact for the whole state.
- Confluence.NodeIsAnyOrder: gives a sufficient condition, for the same reason.
- Coherence.RollbackCoherence: takes operations classified as the SQL parser classifies them.
- Rows.NotNullExactly: takes a declared default as a value, as the source does; Rows.NullDefaultsExactly says what `DEFAULT NULL` does to that.
- Rolling.CoexistenceExactly: an update without replicas starts and ends with none, so there the source's answer has no meaning in counts; Rolling.DocumentedExactly covers it.
- Reversals.ReversibilityExactly: a change of type is not followed through the stored values; it is judged by whether every value of the new type fits the old one.
- TypeCompat.WideningIsInclusion: a floating-point value is the bits and the exponent its significand needs; subnormal numbers, infinities and NaN are not told apart.
- Diagnostic prose (summaries, evidence text, recommendations) and the order in which gaps are listed: gaps are sets.
- RP-DB-004's attribution of the responsible operation, which can be wrong after a rename into the column.
- The Kubernetes family RP-K8S-001..004 and the advisory RP-ORDER-003: one-branch structural tests, echoes, or the same scan again.
- Evidence refinement for RP-API and RP-ORDER: their not-applicable shortcut makes it false.
- Parsing of whole SQL statements, and the statement cursor: only lexing, splitting and the classification of operations are modelled.
- The classification functions write two fields of an operation through a pointer; here they return the operation with the fields set.
- The two quoted-token scanners of the lexer are one method with the quote as a parameter, and its character-class loops are one loop with the class as a parameter.
- The messages of lexical errors; the fault and its line are kept.
- RP-DB-003 and RP-DB-005 share one trail scan, and RP-DB-001..005 one loop over nodes; the source repeats these loops in each file.
- The three lists of API findings are one list with a tag.
- The field-by-field map copies inside table and schema updates are map updates.
- The library sort is an insertion sort with the same callback.
- The escaping of unusual characters in migration IDs inside event labels.
- Construction-time checks and deduplication of services, contracts and workloads: the model takes the declared facts as given.
- YAML and file loading, the command line, reports and exit codes.
- Machine integers: the bound on the lattice is kept, but 1 shifted by 63 or more migrations would wrap in Go.
- Trimming, lower-casing and splitting work on ASCII text.
