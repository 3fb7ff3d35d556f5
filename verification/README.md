# LiveMap and HSON graph verification

This project models, in Dafny, the projected LiveMap engine, the canonical HSON graph core beneath it and
the circuit diagnostics above it, and proves what their code promises. `dafny verify dfyconfig.toml` checks
everything.

**Values and plans.** `OrderedValue`, `ValueMutation` and `ValueLaws` are the ordered carrier and its path
writes with their lens, frame, order and undo laws. `Planner` and `PlannerLaws` are planning and
evidence-checked replay, and `StepLaws` says what each planned write does, records and refuses; `Batch` lowers
public calls and stages transactions.

**The owned graph.** `HsonGraph`, `ArrayIndexes`, `Projection`, `Normalize`, `SemanticValue` and `Invariants`
are nodes as finite trees, index analysis, projection, both normalizers and the grammar checker;
`ProjectionLaws`, `NormalizeLaws`, `SemanticLaws` and `GrammarLaws` say what reading determines, what the
normalizers conserve and what passing the checks means. `Editor` edits
the graph along paths and `Install` installs a plan by such edits or by a rebuild. `HeldGraphs` says over which
graphs reads and edits follow the carrier, `EditFrames` what edits leave alone, `AdmittedGraphs` that edits keep
the grammar, `InstallLaws` what a
delta leaves beside a rebuild, and `BuiltGraphs` has the node-for-node theory of the graphs projection builds.
A graph is *held* when it reads as a carrier and no object carrier stands around an object or a non-empty array
of it. `NodeGraph`, `CycleCheck` and `QuidScan` treat nodes as a finite graph of numbered references, which may
be shared or cyclic; `QuidCodec` is the identity encoder and `CanonicalEqual` the strict comparison.

**The authority.** `Authority` is the map as a state machine over writes, prepares, accepts, discards, replays,
restores, schema attachments and management claims; `AuthorityLaws`, `ControlLaws` and `Replicas` prove what
every run keeps, when each event goes through and what it excludes afterwards,
and `LiveMap` is the object with its fields and methods, each proved to take the state machine's step.
`Publication` is the reentrant queue and the observer hub.

**The circuit.** `Journey` is what one direction around the format ring does by the answers of the transforms it
runs against, and `Circuit` the engine that runs laps in one or two directions and compares them.

Loops are methods with invariants proved against a specification function, and the laws are lemmas about that
function. Code that throws becomes a `Result` or `Option`, and errors are kept apart by kind, not by text.

## Where the code and its promises part

Each of these is proved: the exact condition under which the promise holds, and an input at which it fails.

- `docs/contracts/livemap-mutation.md:101-105` and `:331` call batches and replays atomic. A delta install that meets a key
  with the reserved `_hson_` prefix throws after the operations before it have edited the owned graph, while
  value and revision stay (`Install.InstallDeltaOutcome`, `InstallLaws.InterruptedInstallLeavesEdits`).
- The grammar admits object carriers around objects and arrays, and reading looks through them, but edits along
  paths do not: writes without any reserved key then throw midway or leave a graph nothing can be read from
  (`InstallLaws.DeltaFollowsPlanIff`, `InstallLaws.CarriedArrayInterrupts`), and reads below them miss
  (`HeldGraphs.AllReadsAgreeIff`). The state machine records as `adrift` a map over such a graph and one whose
  install stopped midway; its graph follows its carrier while that is not set.
- A delta install and a rebuild differ over an owned root that is a bare value node when a splice, rename, move or
  replace rewrites the whole value: only the delta puts a root carrier around it (`InstallLaws.DeltaIsRebuildIff`,
  `InstallLaws.BareSpliceDiffers`).
- A replica refuses a commit whose reserved keys only a rebuild on the authority could step over
  (`Replicas.ReplicaTakesCommitIff`, `Replicas.SteppedOverKeyIsRefused`).
- A graph read resolves one kind of path the carrier does not have: from a scalar property to its own value node,
  as `["a", "_hson_str"]` in `{"a": "x"}` (`HeldGraphs.ReadsAgreeIff`, `HeldGraphs.ReservedReadLeaks`).
- The evidence of a delete restores the entry in last place, not where it was (`PlannerLaws.UndoOneRestoresIff`,
  `PlannerLaws.DeleteComesBackLast`).
- Graph normalization wraps a root carrier that stands as a property value, after which the tree no longer
  projects, and refuses `[]` metadata on a root and malformed attributes, which projection ignores
  (`SemanticValue.NormalizersKeepMeaningIff`, `SemanticValue.RootHeldIsLost`, `SemanticValue.UntidyRootIsRefused`).

## Model

| member | source | states |
|---|---|---|
| OrderedValue.SameIsIdentity | src/core/ordered-projected-value.ts:131-162 | ordered structural comparison, number by number with 0 and -0 apart, holds exactly of identical carriers, so it is an equivalence |
| ValueMutation.ReadAt | src/core/ordered-projected-value-mutation.ts:12-31 | the walking read returns what descending one part at a time returns, and nothing where a part does not resolve |
| ValueMutation.Merge | src/core/ordered-projected-value-mutation.ts:66-81 | the merge loop is the ordered assignment of every patch entry, and refuses anything but an object endpoint |
| ValueLaws.WriteSucceedsIff | src/core/ordered-projected-value-mutation.ts:168-208 | a write goes through iff its path resolves, or only its last key is missing from an object and missing leaves are allowed |
| ValueLaws.ReadAfterWrite | src/core/ordered-projected-value-mutation.ts:33-52 | reading the path just written gives the written value |
| ValueLaws.WriteBackIsIdentity | src/core/ordered-projected-value-mutation.ts:168-208 | writing back what was read changes nothing, positions included |
| ValueLaws.LastWriteWins | src/core/ordered-projected-value-mutation.ts:168-208 | a later write at the same path makes the earlier one unobservable, even one that appended a key |
| ValueLaws.WriteFrame | src/core/ordered-projected-value-mutation.ts:168-208 | every path that parts from the written one reads as before |
| ValueLaws.Through | src/core/ordered-projected-value-mutation.ts:168-208 | reads and writes through a prefix are reads and writes in the value at that prefix |
| ValueLaws.SetKeepsKeyOrder | src/core/ordered-projected-value-mutation.ts:33-42 | a set keeps an existing key in its position and appends a new key last |
| ValueLaws.MergeReads | src/core/ordered-projected-value-mutation.ts:66-81 | after a merge every patched key reads its patch value and every other key reads as before |
| ValueLaws.DeleteLaw | src/core/ordered-projected-value-mutation.ts:55-63 | a delete goes through exactly at a resolved object entry, makes that path absent and leaves diverging paths alone |
| ValueLaws.DeleteKeepsOrder | src/core/ordered-projected-value-mutation.ts:210-245 | a delete removes just the entry of its key; the other entries keep their order |
| ValueLaws.DeleteUndoesAppend | src/core/ordered-projected-value-mutation.ts:210-245 | deleting the key a set appended restores the value before the set |
| ValueLaws.SetUndoesDeleteIff | src/core/ordered-projected-value-mutation.ts:168-245 | setting a deleted entry back restores the value iff it was the last of its object |
| ValueLaws.WriteKeepsWellFormed | src/core/ordered-projected-value-mutation.ts:168-208 | writes keep object keys unique at every depth |
| ValueLaws.DeleteKeepsWellFormed | src/core/ordered-projected-value-mutation.ts:210-245 | deletes keep object keys unique at every depth |
| ValueLaws.RenamedInPlace | src/core/ordered-projected-value-mutation.ts:84-106 | rebuilding the entries of a rename retires an old entry of the new key and spells one key anew in place |
| ValueLaws.RenamedKeepsWellFormed | src/core/ordered-projected-value-mutation.ts:84-106 | a rename keeps keys unique |
| ValueLaws.RenameBack | src/core/ordered-projected-value-mutation.ts:84-106 | renaming back restores the entries when the destination key was absent |
| ValueLaws.MoveBack | src/core/ordered-projected-value-mutation.ts:128-132 | taking an item out and putting it in at its destination keeps the others in order and the multiset, and is undone by the move back |
| ValueLaws.SpliceBack | src/core/ordered-projected-value-mutation.ts:135-166 | splicing the removed items back in place of the inserted ones restores the array |
| Planner.PlanConstructive | src/api/livemap/livemap.core.ts:2284-2313 | the constructive loop records exactly the effective child sets and stops at the first failing one |
| Planner.PlanWriteOps | src/api/livemap/livemap.core.ts:2129-2252 | the planning loop runs every intent against the candidate the earlier ones left and concatenates what they record |
| Planner.ReplayWriteOps | src/api/livemap/livemap.core.ts:1640-1673 | the replay loop checks prev before and next after every operation and compiles the write intents, or stops at the first conflict |
| PlannerLaws.PlanAppend | src/api/livemap/livemap.core.ts:2129-2252 | planning a then b is planning their concatenation, operations concatenated, failure preserved |
| PlannerLaws.ConstructiveIsMerge | src/api/livemap/livemap.core.ts:2284-2313 | a constructive set reaches the merged value, or fails as the merge does |
| StepLaws.SetPlans | src/api/livemap/livemap.core.ts:2144-2251 | a set goes through iff its endpoint resolves or is a new key of an object, then reads its value, and records itself with the value before iff it changed it |
| StepLaws.ReplacePlans | src/api/livemap/livemap.core.ts:2144-2251 | a replace goes through iff its path resolves, the root included, reads its value, and records itself iff it changed it |
| StepLaws.DeletePlans | src/api/livemap/livemap.core.ts:2144-2251 | a delete goes through iff it names a resolved entry of an object, makes it absent and records it |
| StepLaws.SplicePlans | src/core/ordered-projected-value-mutation.ts:135-166 | a splice goes through iff it names a window inside an array; items before the window stay, the inserted follow, those after close up, and the record holds what was taken out |
| StepLaws.RenamePlans | src/core/ordered-projected-value-mutation.ts:84-106 | a rename goes through iff an object holds its source key; the entry keeps value and place under the new key, an old entry of that key goes, and nothing else changes |
| StepLaws.MovePlans | src/core/ordered-projected-value-mutation.ts:109-132 | a move goes through iff both indexes are inside an array; the item at the source ends up at the destination and the others keep their order |
| StepLaws.ConstructivePlans | src/api/livemap/livemap.core.ts:2284-2313 | a constructive set goes through iff it names an object, and every key then reads its patch or as before |
| StepLaws.StepFaults | src/api/livemap/livemap.core.ts:2144-2251 | every refused intent names its fault by what its path reads, a set by the first part that does not resolve |
| StepLaws.PlanFrame | src/api/livemap/livemap.core.ts:2129-2252 | whatever a plan does, a path that parts from all its intents reads as before |
| StepLaws.PlanRecordsEffects | src/api/livemap/livemap.core.ts:2129-2252 | a plan records effective operations only: endpoints that changed, keys and items that moved |
| PlannerLaws.StepKeepsWellFormed | src/api/livemap/livemap.core.ts:2129-2252 | one planned write keeps keys unique, so its candidate is always an admissible carrier |
| PlannerLaws.PlanKeepsWellFormed | src/api/livemap/livemap.core.ts:2129-2252 | so does a whole plan |
| PlannerLaws.PlanRecordsAdmitted | src/api/livemap/livemap.core.ts:2129-2252 | the recorded operations carry admissible values and paths themselves |
| PlannerLaws.StepReplays | src/api/livemap/livemap.core.ts:2144-2251 | what one intent records has matching evidence on both sides and re-plans to itself, though writes without effect were dropped |
| PlannerLaws.PlanReplays | src/api/livemap/livemap.core.ts:2129-2252 | the same for every record of a plan, from base to result |
| PlannerLaws.ReplayAccepts | src/api/livemap/livemap.core.ts:1640-1673 | operations that replay pass every prev/next check and plan to the identical operations and value |
| PlannerLaws.ReplayOfPlan | src/api/livemap/livemap.core.ts:1640-1673 | whatever the planner accepts on a base is accepted on an equal base and planned there to the same value and operations |
| PlannerLaws.ReplayAcceptsIff | src/api/livemap/livemap.core.ts:1640-1673 | replay accepts a record iff prev and next match and the operation plans at every one of its operations, and then it plans to where they lead |
| PlannerLaws.EndpointReplaced | src/api/livemap/livemap.core.ts:1911-1924 | replacing the endpoint by the recorded next does what the splice, rename or move did |
| PlannerLaws.DeltaReachesPlan | src/api/livemap/livemap.core.ts:1911-1924 | applying a whole record operation by operation at value level, setting, deleting or replacing by next, reaches exactly the planned value |
| PlannerLaws.ApplyAllReaches | src/api/livemap/livemap.core.ts:1911-1924 | the same for any record that replays |
| PlannerLaws.UndoOneRestoresIff | src/api/livemap/livemap.core.ts:2144-2251 | writing prev back restores the value before an operation, for a delete iff the deleted entry was the last of its object |
| PlannerLaws.UndoAllRestores | src/api/livemap/livemap.core.ts:2144-2251 | undoing a record, last operation first, restores its base exactly, if every delete in it took a last entry as its object then stood |
| PlannerLaws.DeleteComesBackLast | src/api/livemap/livemap.core.ts:2144-2251 | deleting a from an object of a and b and setting it back gives b and a |
| Batch.SpliceStart | src/api/livemap/livemap.core.ts:1819-1823 | the normalized splice start is the position of the array nearest to where the start points, a negative one counting from the end |
| Batch.LoweredSplicePlans | src/api/livemap/livemap.core.ts:1786-1828 | for every start and delete count the lowered splice plans and leaves what Array.splice leaves |
| Batch.ChildSetsAreMerge | src/api/livemap/livemap.core.ts:2112-2121 | setting many keys plans exactly like one constructive merge |
| Batch.StagedSetMerges | src/api/livemap/livemap.core.ts:2085-2109 | an object set over an object merges into it key by key |
| Batch.StagedSetReplaces | src/api/livemap/livemap.core.ts:2085-2109 | any other staged set makes its resolved endpoint read the value, and the root is never set |
| Batch.StagedSetManyReads | src/api/livemap/livemap.core.ts:2112-2121 | after setMany the given keys read their values and the others read as before |
| Batch.StagedDeleteRemoves | src/api/livemap/livemap.core.ts:1603-1609 | a staged delete goes through iff it names a resolved entry of an object, and makes it absent |
| Batch.StagedReplaceReads | src/api/livemap/livemap.core.ts:1591-1602 | a staged replace goes through iff its path resolves, and reads its value there |
| Batch.StageSucceedsIff | src/api/livemap/livemap.core.ts:1561-1612 | over every admitted value a set goes through iff its path is an endpoint below the root that resolves, a set-many iff an object is there, a replace iff the path resolves, a delete iff it ends in an object entry, a splice iff an array is there and the count is not negative |
| Batch.StageFaults | src/api/livemap/livemap.core.ts:1561-1612 | and is refused with the fault its path calls for |
| Batch.StageFrame | src/api/livemap/livemap.core.ts:1561-1612 | a staged call leaves every path that parts from its own as it was |
| Batch.BatchIsComposition | src/api/livemap/livemap.core.ts:1561-1612 | one batch commit is the composition of its calls committed one by one: value, operations and failure |
| Batch.Transaction.Run | src/api/livemap/livemap.core.ts:1569-1612 | each call is lowered against the staged candidate, which stays the plan of everything queued; a failing or late call stages nothing |
| Batch.Transaction.Close | src/api/livemap/livemap.core.ts:819-831 | closing ends the transaction and leaves its candidate and everything staged as they are |
| Batch.RunBatch | src/api/livemap/livemap.core.ts:819-831 | a batch stages what its calls compose to |
| HsonGraph.DecimalInjective | src/core/hson-array-indexes.ts:54-56 | distinct positions have distinct index spellings |
| ArrayIndexes.FillSlots | src/core/hson-array-indexes.ts:58-89 | the slot loop stops at the first child without a fresh exact index and otherwise leaves every slot k filled with the item spelled k |
| ArrayIndexes.Analyze | src/core/hson-array-indexes.ts:46-106 | analysis accepts exactly the arrangeable arrays, returns their arranged order and whether it differs, and never reaches the missing-index exit |
| ArrayIndexes.Pigeonhole | src/core/hson-array-indexes.ts:91-98 | n distinct positions below n cover all of them, which is why no slot is left empty |
| ArrayIndexes.ArrangeableIffPermutation | src/core/hson-array-indexes.ts:46-106 | analysis accepts iff the index strings are a permutation of the decimal spellings of 0 to n-1 |
| ArrayIndexes.ArrangedIsUnique | src/core/hson-array-indexes.ts:100-105 | the canonical order is the one arrangement of these items whose indexes count up from 0 |
| ArrayIndexes.ArrangeIsFixpoint | src/core/hson-array-indexes.ts:100-105 | analysing the canonical order again finds nothing reordered |
| ArrayIndexes.ArrangeIsPermutation | src/core/hson-array-indexes.ts:100-105 | the canonical order keeps exactly the items |
| ArrayIndexes.NormalizeOrder | src/core/hson-array-indexes.ts:115-192 | the recursive normalizer returns the ordered tree, and reports a change iff the tree differs |
| ArrayIndexes.OrderTreeIdempotent | src/core/hson-array-indexes.ts:115-192 | normalizing array order twice changes nothing the second time |
| Projection.RoundTrip | src/core/projected-value-graph.ts:24-45 | every well-formed carrier without reserved keys comes back exactly from its node |
| Projection.RootRoundTrip | src/core/projected-value-graph.ts:47-53 | the same through the root carrier |
| Projection.BuildInjective | src/core/projected-value-graph.ts:24-83 | distinct carriers have distinct nodes |
| Projection.ProjectedIsWellFormed | src/core/projected-value-graph.ts:97-162 | whatever a node projects to has unique, unreserved keys |
| ProjectionLaws.ReadsIff | src/core/projected-value-graph.ts:97-162 | a node reads as an admitted value iff it is the node that value is built as, up to carriers, attributes and metadata other than item indexes |
| Invariants.ProjectedIsCanonical | src/core/projected-value-graph.ts:24-83 | the node and the root of every admitted carrier pass the canonical grammar checker |
| Invariants.Checker.Walk | src/core/assert-invariants.ts:68-358 | the walk reports an issue iff the declarative grammar rejects the tree below that parent, and at most one when it stops at the first |
| Invariants.Checker.WalkOrdinary | src/core/assert-invariants.ts:144-179 | an ordinary node passes iff it retains one admissible relationship for its place and what is below passes |
| Invariants.Checker.CheckProperty | src/core/assert-invariants.ts:317-338 | an object child is refused iff it is an element wrapper, carries attributes or repeats a property name |
| Invariants.Checker.WalkObject | src/core/assert-invariants.ts:303-345 | an object passes iff its children do and no property name repeats |
| Invariants.Checker.WalkArray | src/core/assert-invariants.ts:226-247 | an array passes iff its indexes are exact and in order and every item passes |
| Invariants.Checker.WalkElement | src/core/assert-invariants.ts:249-284 | an element wrapper passes iff it is not empty and holds only text and element-structured nodes |
| Invariants.CheckShape | src/core/assert-invariants.ts:383-502 | the stack pass over a tree accepts it iff every container is a plain record with values of the right shape, at every node below no scalar |
| Invariants.AssertInvariants | src/core/assert-invariants.ts:46-66 | the shape pass and the walk together pass exactly on canonical trees, in either mode |
| GrammarLaws.AdmittedReadsIff | src/core/assert-invariants.ts:68-358 | an admitted data graph can be read iff every object of it holds properties only or stands around one value, and every root holds one data value |
| GrammarLaws.AdmittedIsFixedIff | src/core/assert-invariants.ts:68-358 | normalization gives an admitted graph back untouched iff no ordinary node holds a bare text or scalar and attributes are texts or styles |
| GrammarLaws.ElementBranchIsPure | src/core/assert-invariants.ts:249-284 | without inner root carriers an element branch holds elements and texts only, all the way down |
| GrammarLaws.DataBranchIsPure | src/core/assert-invariants.ts:303-345 | and an object or array branch no element wrapper |
| GrammarLaws.IdentityAdmittedIff | src/core/hson-node-quid.ts:86-118 | elements, arrays and objects of properties may be given a persisted identity, transparent carriers and other structural nodes may not |
| Normalize.VisitIsNormal | src/core/normalize-hson-graph.ts:69-268 | what normalization returns is normal, and an unset change flag means the very same tree |
| Normalize.NormalIsUnchanged | src/core/normalize-hson-graph.ts:69-268 | a normal tree passes unchanged and unflagged under every required mode |
| Normalize.NormalizationIsFixpoint | src/core/normalize-hson-graph.ts:69-268 | a tree returned under one required mode is returned unchanged, without failure, under every required mode |
| Normalize.NormalizeGraphIdempotent | src/core/normalize-hson-graph.ts:69-268 | normalizing twice is normalizing once |
| Normalize.NormalIsClassified | src/core/hson-structural-mode.ts:21-50 | a normal ordinary node is never invalid, never a legacy empty wrapper and never holds a bare scalar |
| Normalize.WrapperNeverMixes | src/core/normalize-hson-graph.ts:195-258 | a wrapper that was added is of the required mode and encloses no child of the other mode |
| NormalizeLaws.VisitConserves | src/core/normalize-hson-graph.ts:69-268 | the result is the input node by node, with all metadata and defined attributes, up to bare structural wrappers, absent containers and the order of array items |
| NormalizeLaws.AttributesKept | src/core/normalize-hson-graph.ts:125-158 | attributes are refused iff one is inadmissible; otherwise exactly the defined ones survive, texts and styles as they are, scalars as the text String gives them |
| NormalizeLaws.MetadataKept | src/core/normalize-hson-graph.ts:109-119 | metadata records stay as they are, other containers become none, and `[]` on a root is refused |
| NormalizeLaws.WrapSucceedsIff | src/core/normalize-hson-graph.ts:195-258 | content is refused iff it is neither empty, nor one wrapper, nor children that one wrapper can own |
| NormalizeLaws.WrapperKind | src/core/normalize-hson-graph.ts:195-258 | the wrapper added is the required one, or else what a lone leaf or the children ask for |
| NormalizeLaws.ChildrenAreWrapped | src/core/normalize-hson-graph.ts:195-258 | inside elements the content of every child is wrapped as elements, inside objects as properties, elsewhere as the child itself asks |
| Normalize.Normalizer.VisitNode | src/core/normalize-hson-graph.ts:80-263 | the recursive visitor with its shared change flag computes the specified tree and flag |
| Normalize.Normalizer.VisitChildren | src/core/normalize-hson-graph.ts:175-183 | children are visited in order into one result |
| Normalize.Run | src/core/normalize-hson-graph.ts:265-268 | the caller gets its own tree back when nothing changed |
| SemanticValue.VisitSucceedsIff | src/core/normalize-hson-graph.ts:69-268 | normalizing a tree that projects fails at a root with `[]` metadata or a malformed attribute, and nowhere else |
| SemanticValue.VisitKeepsMeaningIff | src/core/normalize-hson-graph.ts:69-268 | it goes through and keeps the value iff every head is tidy and no property value is a root carrier |
| SemanticValue.SemanticKeepsMeaning | src/core/normalize-hson-semantic-value.ts:35-73 | collapsing scalar carriers changes nothing about what a tree projects to, for every tree that projects or holds no element wrapper |
| SemanticValue.SemanticCollapses | src/core/normalize-hson-semantic-value.ts:64-70 | no scalar carrier is left at the top or in an array item |
| SemanticLaws.SemanticKeepsPieces | src/core/normalize-hson-semantic-value.ts:35-73 | collapsing takes away scalar carriers and nothing else: every other node with its attributes and metadata, and every primitive, stays in order |
| SemanticValue.CollapsedIsFixed | src/core/normalize-hson-semantic-value.ts:38-70 | a tree without such carriers is returned as it is, carriers owned by members included |
| SemanticValue.SemanticFixed | src/core/normalize-hson-semantic-value.ts:64-70 | the collapse is idempotent |
| SemanticValue.SemanticIsNormal | src/core/normalize-hson-semantic-value.ts:35-73 | it keeps graph normal form |
| SemanticValue.NormalizeDetachedIdempotent | src/core/normalize-hson-semantic-value.ts:35-73 | the whole semantic normalizer is idempotent and its result is both normal and collapsed |
| SemanticValue.NormalizersKeepMeaningIff | src/core/normalize-hson-semantic-value.ts:35-73 | each normalizer keeps the value of a tree that has one iff every head is tidy and no property value is a root carrier |
| SemanticValue.RootHeldIsLost | src/core/normalize-hson-graph.ts:69-268 | a property that holds a text in a root carrier projects, normalizes, and then projects no more |
| SemanticValue.UntidyRootIsRefused | src/core/normalize-hson-graph.ts:113-115 | a root over a text with `[]` metadata projects, and normalization refuses it |
| CycleCheck.Check | src/core/assert-invariants.ts:383-502 | the enter/leave stack ends on every finite graph and its verdict is explained by the graph: accepted, a reachable node on a cycle, or a reachable malformed node |
| CycleCheck.CycleReportedIff | src/core/assert-invariants.ts:383-502 | on well-shaped objects a cycle is reported iff one is reachable through non-leaf nodes |
| CycleCheck.AcceptedIff | src/core/assert-invariants.ts:383-502 | and the graph is accepted iff a ranking of the followed edges holds the root |
| CycleCheck.RankBoundsWalks | src/core/assert-invariants.ts:68-358 | the ranking bounds every descent along followed edges, so the recursive walk ends |
| CycleCheck.RankedIsAcyclic | src/core/assert-invariants.ts:383-502 | no ranked node lies on a cycle |
| CycleCheck.ReachedIsRanked | src/core/assert-invariants.ts:383-502 | everything reachable from a ranked root is ranked |
| CanonicalEqual.NoDifferenceIffEqual | src/core/canonical-hson-equal.ts:230-265 | no difference is found iff the trees are equal, attributes and metadata as maps, 0 and -0 apart, with or without the ordering diagnosis |
| CanonicalEqual.DifferenceFlips | src/core/canonical-hson-equal.ts:230-265 | swapping the operands reports the same kind, with missing and extra exchanged |
| CanonicalEqual.FirstItemIsFirst | src/core/canonical-hson-equal.ts:128-132 | the report of an array is that of its first unequal pair |
| CanonicalEqual.FirstKeyReports | src/core/canonical-hson-equal.ts:135-170 | the report of a record is that of its first differing key in order, as missing or by how its values differ |
| CanonicalEqual.AttributeReports | src/core/canonical-hson-equal.ts:148-167 | one attribute changed or taken away is what the report names |
| CanonicalEqual.MetadataReports | src/core/canonical-hson-equal.ts:148-167 | so is one metadata field, identities and indexes by their own kinds |
| CanonicalEqual.RecordReports | src/core/canonical-hson-equal.ts:135-170 | a record field reports what differs inside it, or that it is missing |
| CanonicalEqual.TagReports | src/core/canonical-hson-equal.ts:172-200 | unequal tags report root leakage, a mode mismatch, a system tag or a name, by what the two tags are |
| CanonicalEqual.ContainerReports | src/core/canonical-hson-equal.ts:200-222 | a container only one node has is reported as missing |
| CanonicalEqual.ContentReports | src/core/canonical-hson-equal.ts:100-112 | more content reports which side lacks some |
| CanonicalEqual.ScalarReports | src/core/canonical-hson-equal.ts:230-265 | unequal primitives report -0 beside a number, another value of one kind, or another kind |
| CanonicalEqual.OrderingReportedIff | src/core/canonical-hson-equal.ts:100-133 | content-ordering is reported iff lengths agree, the arrays differ, and they are permutations or their first unequal pair differs in ordering |
| CanonicalEqual.ArraysArePermutations | src/core/canonical-hson-equal.ts:85-98 | the greedy matcher decides multiset equality of arrays of one length |
| CanonicalEqual.ValuesEqual | src/core/canonical-hson-equal.ts:78-83 | the matcher compares by structural equality |
| CanonicalEqual.CompareArray | src/core/canonical-hson-equal.ts:100-133 | the array comparison with its loops computes the specified first difference |
| CanonicalEqual.EncodedInjective | src/core/canonical-hson-equal.ts:140-150 | strings with the same UTF-16 code units are the same, so sorting by them is a total order of keys |
| CanonicalEqual.CompareNamedRecord | src/core/canonical-hson-equal.ts:135-170 | records are compared key by key in UTF-16 code-unit order of the united keys |
| CanonicalEqual.CompareNode | src/core/canonical-hson-equal.ts:172-228 | nodes are compared by tag, attributes, metadata, then content |
| CanonicalEqual.GraphDifference | src/core/canonical-hson-equal.ts:273-286 | the exported comparison finds nothing iff the graphs are equal |
| QuidCodec.Encode | src/core/hson-node-quid.ts:24-40 | exactly six bytes give nine alphabet digits whose base-32 value is the first 45 bits, with 32-bit shifts and at most twelve pending bits |
| QuidCodec.ShiftInWord | src/core/hson-node-quid.ts:32-34 | the unmasked buffer keeps the low 32 bits of the number read so far |
| QuidCodec.FiveBitsOfWord | src/core/hson-node-quid.ts:35-38 | so every extracted digit is a digit of that number |
| QuidCodec.SameQuidIff | src/core/hson-node-quid.ts:24-40 | two inputs give the same identity iff they agree on their first 45 bits |
| QuidScan.Collect | src/core/hson-node-quid.ts:195-245 | the stack scan ends on cyclic graphs and finds the claims, or the first fault, of the recursive depth-first preorder |
| QuidScan.PreorderIsReachable | src/core/hson-node-quid.ts:195-245 | that preorder holds exactly the reachable nodes, each once |
| QuidScan.AlongHolds | src/core/hson-node-quid.ts:208-234 | the scan fails iff a visited node holds an unreadable identity, and its claims are exactly the held ones |
| QuidScan.ScannedHolds | src/core/hson-node-quid.ts:195-245 | so its claims are exactly the identities of reachable nodes |
| QuidScan.IndexUnique | src/core/hson-node-quid.ts:248-272 | the index succeeds iff no identity is claimed by two nodes, and then maps each claimed identity to its one owner |
| QuidScan.ScanQuids | src/core/hson-node-quid.ts:280-286 | the ownership scan succeeds iff every reachable identity is readable and unshared, and then maps exactly the held identities to their holders |
| HeldGraphs.ReadsAgreeIff | src/api/livemap/livemap.editor.ts:63-113 | over a graph without carriers around non-empty containers, reading a path is reading the carrier, exactly when the path does not run into a carrier of a childless value by its tag |
| HeldGraphs.AllReadsAgreeIff | src/api/livemap/livemap.editor.ts:63-113 | over whatever graph a carrier is read from, every path without reserved keys reads alike iff no carrier stands around a non-empty container |
| HeldGraphs.ReservedReadLeaks | src/api/livemap/livemap.editor.ts:401-427 | a read of a reserved key finds the value node below every property that holds a text, where the carrier has nothing |
| HeldGraphs.EditHolds | src/api/livemap/livemap.editor.ts:144-207 | a branch write or delete of a held graph goes through and leaves a held graph of the edited carrier |
| AdmittedGraphs.EditStaysAdmitted | src/api/livemap/livemap.editor.ts:144-207 | such an edit of a graph the grammar admits leaves a graph the grammar admits |
| BuiltGraphs.WriteAgrees | src/api/livemap/livemap.editor.ts:144-168 | over a graph built by projection, a branch write gives node for node the graph built from the written carrier |
| BuiltGraphs.RemoveAgrees | src/api/livemap/livemap.editor.ts:182-207 | so does a branch delete |
| EditFrames.EditFrame | src/api/livemap/livemap.editor.ts:144-207 | over whatever graph, every path that parts from the edited one leads to the very same node as before, metadata included |
| EditFrames.EditKeepsHeads | src/api/livemap/livemap.editor.ts:144-207 | and the nodes on the way to it keep their tags, attributes and metadata |
| EditFrames.DeltaFrame | src/api/livemap/livemap.core.ts:1911-1924 | so does a whole delta, through or interrupted |
| EditFrames.InstallOneSucceedsIff | src/api/livemap/livemap.editor.ts:140-210 | over whatever graph an operation below the root edits it iff its endpoint is a value or, for a set, absent, and a buildable value can be put there; a delete needs an object entry |
| Install.ApplyTransportOps | src/api/livemap/livemap.core.ts:1911-1924 | the install loop edits branch by branch until one edit throws |
| Install.InstallOneHolds | src/api/livemap/livemap.core.ts:1911-1924 | one operation over a held graph leaves a held graph of the planned value, or is refused untouched because of a reserved key |
| Install.UncleanIsRefused | src/api/livemap/livemap.editor.ts:144-168 | an operation with a reserved key is refused untouched over every graph |
| Install.InstallDeltaOutcome | src/api/livemap/livemap.core.ts:1911-1924 | over a held graph a delta goes through iff no operation writes a reserved key; either way it leaves a held graph of the carrier the operations before the first such key lead to |
| AdmittedGraphs.InstallStaysOwned | src/api/livemap/livemap.core.ts:1911-1924 | and over one the grammar admits, whatever it leaves the grammar admits |
| InstallLaws.DeltaFollowsPlanIff | src/api/livemap/livemap.core.ts:1911-1924 | over whatever graph a carrier is read from, the delta of every plan without reserved keys goes through and reads as planned iff no carrier stands around an object or a non-empty array |
| InstallLaws.DeltaIsRebuildIff | src/api/livemap/livemap.core.ts:1953-1983 | over every held graph delta and rebuild read as the same planned carrier, and agree on the root carrier iff there was one or no operation rewrites the whole value |
| InstallLaws.BuiltDeltaIsRebuildIff | src/api/livemap/livemap.core.ts:1953-1983 | over a graph built by projection they are the same node for node under the same condition |
| InstallLaws.BareSpliceDiffers | src/api/livemap/livemap.core.ts:1953-1983 | a splice of a whole bare array meets the exception |
| InstallLaws.InterruptedInstallLeavesEdits | src/api/livemap/livemap.core.ts:1978-1983 | over every held object an effective write followed by a set of a reserved key plans, and its install throws with the first write in place |
| InstallLaws.CarriedArrayInterrupts | src/api/livemap/livemap.editor.ts:401-457 | so does a plan of two writes without reserved keys over an admitted graph with an object carrier around an array |
| AuthorityLaws.FreshInv | src/api/livemap/livemap.core.ts:231-260 | a map made over any data graph the checks admit and a carrier is read from starts in the invariant, following its carrier iff the graph is held |
| AuthorityLaws.ApplyKeeps | src/api/livemap/livemap.authority.ts:102-240 | every write, prepare, accept, discard, replay, restore, schema attachment and claim keeps the invariant, accepted or refused |
| AuthorityLaws.RunKeeps | src/api/livemap/livemap.authority.ts:102-240 | so does every run |
| AuthorityLaws.CurrentTokenIsOfThisState | src/api/livemap/livemap.authority.ts:141-166 | in every run a pending token of the current generation was planned on exactly the current value and revision |
| AuthorityLaws.AcceptAppliesToItsBase | src/api/livemap/livemap.authority.ts:168-201 | an accepted token applies the plan of the current value and advances the revision by what its commit says |
| AuthorityLaws.AcceptedAtMostOnce | src/api/livemap/livemap.authority.ts:146-182 | in every run a token is accepted at most once and a generation accepts at most one changed token |
| AuthorityLaws.NeverAcceptedAfterRestore | src/api/livemap/livemap.core.ts:895-903 | after a restore, to whatever revision, no earlier token is ever accepted again |
| AuthorityLaws.RunIsLater | src/api/livemap/livemap.authority.ts:132-213 | generations never go back and accepted or discarded tokens stay so |
| ControlLaws.DiscardedForGood | src/api/livemap/livemap.authority.ts:203-213 | a discarded token is refused as discarded in every state ever after, and discarding it touches nothing else |
| ControlLaws.DiscardableIff | src/api/livemap/livemap.authority.ts:203-213 | exactly the tokens of this map that are not accepted can be discarded |
| ControlLaws.AcceptedForGood | src/api/livemap/livemap.authority.ts:146-182 | an accepted token is refused as accepted ever after, by accept and by discard |
| ControlLaws.FailedIsDiscarded | src/api/livemap/livemap.authority.ts:168-182 | a token whose install threw counts as discarded |
| ControlLaws.AcceptCommitsIff | src/api/livemap/livemap.authority.ts:146-201 | a token goes through iff it is pending and nothing was invalidated since, if its operations can be installed |
| ControlLaws.PrepareTakesIff | src/api/livemap/livemap.core.ts:1928-1997 | preparing needs a plan, the acceptance of the schema and a buildable value where the root is replaced, and only stages |
| ControlLaws.WriteCommitsIff | src/api/livemap/livemap.core.ts:505-545 | a public write commits its plan iff the map is unmanaged, it plans, the schema accepts and the graph can take it; otherwise value and revision stay |
| ControlLaws.ReplayCommitsIff | src/api/livemap/livemap.core.ts:677-739 | so does a replay at the revision of the map whose evidence holds |
| ControlLaws.RestoreTakesIff | src/api/livemap/livemap.core.ts:856-904 | a restore takes any admitted graph of the mode of the map that reads as its payload, to any revision |
| ControlLaws.ChangesInvalidate | src/api/livemap/livemap.authority.ts:168-185 | whatever changes value, revision, graph or schema moves the generation |
| ControlLaws.StaleForGood | src/api/livemap/livemap.authority.ts:160-166 | once it moved, no token staged before is ever accepted |
| ControlLaws.NoticesAre | src/api/livemap/livemap.authority.ts:184-196 | published are changed commits, replays also without a change, and restores, each once and under its origin |
| ControlLaws.SchemaGuards | src/api/livemap/livemap.core.ts:1949-1950 | in every run whatever commits or restores leaves a value the attached schema accepted for the intents behind it |
| ControlLaws.SchemaIsForGood | src/api/livemap/livemap.core.ts:583-595 | an attached schema stays |
| ControlLaws.AttachedIff | src/api/livemap/livemap.core.ts:583-595 | a schema is attached iff there is none, the map is unmanaged and the schema accepts its value |
| ControlLaws.ManagedExcludes | src/api/livemap/livemap.authority.ts:220-237 | under management writes, replays, restores, schemas and other claims are refused and change nothing |
| ControlLaws.ManagedRun | src/api/livemap/livemap.authority.ts:220-240 | until the owner lets go it stays the manager, and only accepted transitions move the map |
| ControlLaws.ClaimGrantedIff | src/api/livemap/livemap.core.ts:1389-1405 | a claim is granted iff no other owner holds one and the map is in its mode, and only the owner releases it |
| ControlLaws.BuiltMode | src/api/livemap/livemap.document.ts:114-140 | the mode of a built root is the kind of its value |
| AuthorityLaws.PlanUnchanged | src/api/livemap/livemap.core.ts:1967-1977 | a plan without recorded operations left the value as it was, so an unchanged commit is one |
| AuthorityLaws.InstalledIsClean | src/api/livemap/livemap.core.ts:1981-1986 | whatever an install accepts has no reserved key |
| AuthorityLaws.InstallsPlan | src/api/livemap/livemap.core.ts:1981-1986 | it leaves the planned value, and over an owned graph, or a rebuilt one, an admitted graph that reads as that value |
| AuthorityLaws.InstallFailsIff | src/api/livemap/livemap.core.ts:1978-1986 | over an owned graph an install throws iff it edits branch by branch and an operation writes a reserved key |
| AuthorityLaws.RefusedReplayChangesNothing | src/api/livemap/livemap.core.ts:736-738 | in every state a replay refused for management, revision, an unreadable graph or evidence changes nothing at all |
| Replicas.ReplicaTakesCommitIff | src/api/livemap/livemap.core.ts:2000-2060 | a replica with an equal carrier, over whatever owned graph, takes a commit exactly, with the same value, revision and commit, iff its schema accepts it and its delta writes no reserved key a rebuild stepped over |
| Replicas.SteppedOverKeyIsRefused | src/api/livemap/livemap.core.ts:2000-2060 | replacing an object by itself, setting a reserved key and deleting it commits, and a replica refuses the commit |
| Replicas.EventPublishes | src/api/livemap/livemap.core.ts:1990-1995 | every event except a restore publishes its own plan and nothing else |
| Replicas.ReplicaConverges | src/api/livemap/livemap.core.ts:1640-1673 | over any run without restores a replica fed publications it can take, over whatever owned graph and with its own schema, ends with the value and revision of the authority |
| Replicas.RevisionsAreConsecutive | src/api/livemap/livemap.core.ts:505-545 | without restores the published revisions are strictly consecutive |
| LiveMap.ProjectedMap.PrepareTransition | src/api/livemap/livemap.core.ts:1928-1997 | prepares a token against the current value without touching it |
| LiveMap.ProjectedMap.AcceptTransition | src/api/livemap/livemap.authority.ts:141-201 | accepts, refuses or fails a token as the state machine says, record, generation and publication included |
| LiveMap.ProjectedMap.DiscardTransition | src/api/livemap/livemap.authority.ts:203-213 | discards a pending token |
| LiveMap.ProjectedMap.CommitOps | src/api/livemap/livemap.core.ts:505-545 | a public write is prepare then accept, refused under management |
| LiveMap.ProjectedMap.ReplayCommit | src/api/livemap/livemap.core.ts:677-739 | a replay checks, invalidates, plans again and installs as the state machine says |
| LiveMap.ProjectedMap.RestoreCapture | src/api/livemap/livemap.core.ts:856-904 | a restore of any admitted graph that reads as its payload replaces graph, value and revision, invalidates tokens and publishes a snapshot, or changes nothing |
| LiveMap.ProjectedMap.Classify | src/api/livemap/livemap.document.ts:103-150 | the mode of a graph is read off its top-level tag once every check has passed |
| LiveMap.ProjectedMap.UseSchema | src/api/livemap/livemap.core.ts:583-595 | a schema is attached at most once, to a value it accepts, and invalidates tokens |
| LiveMap.ProjectedMap.ClaimManagement | src/api/livemap/livemap.core.ts:1389-1405 | a claim is exclusive and given back when the owned graph fails its checks or has left the mode of the map |
| LiveMap.ProjectedMap.ReleaseManagement | src/api/livemap/livemap.authority.ts:238-240 | only the owner releases its claim |
| LiveMap.RunInstall | src/api/livemap/livemap.core.ts:1981-1983 | the install edits branch by branch or overwrites the root, as prepared |
| Publication.Queue.Enqueue | src/api/livemap/livemap.core.ts:295-321 | a nested caller only queues and sees no failure; the outermost runs everything first in first out, leaves an idle queue and reports the first failure |
| Publication.Queue.Call | src/api/livemap/livemap.core.ts:306-313 | a publication runs its callbacks, which may enqueue more, and its failure does not stop the drain |
| Publication.DrainRunsEverythingOnce | src/api/livemap/livemap.core.ts:302-314 | every enqueued publication, however deeply nested, runs exactly once |
| Publication.DrainStartsWithTheQueue | src/api/livemap/livemap.core.ts:302-314 | nothing runs before a publication that was waiting when it was enqueued |
| Publication.ObserverHub.PrepareObservation | src/api/livemap/livemap.commit-observer.ts:36-41 | a second pending evidence callback is refused |
| Publication.FirstPreparedWaits | src/api/livemap/livemap.commit-observer.ts:36-41 | whatever callbacks do, the evidence callback left waiting is the one already waiting or else the first one prepared |
| Publication.DisposeTakesFirst | src/api/livemap/livemap.commit-observer.ts:15-20 | disposing takes out the first subscription of an observer and leaves the others in order |
| Publication.CalledAsSubscribed | src/api/livemap/livemap.commit-observer.ts:15-35 | an observation calls every observer as often as it is subscribed when the turn of the observers comes, a disposed one no more |
| Publication.ObserverHub.EmitCommit | src/api/livemap/livemap.commit-observer.ts:21-28 | an unchanged commit is not observed and keeps the pending evidence callback; a changed one is observed as below |
| Publication.ObserverHub.Emit | src/api/livemap/livemap.commit-observer.ts:21-35 | the pending evidence callback is called first and alone when it fails; otherwise every observer registered by then is called in order, whatever callbacks subscribe, remove, prepare or throw, and the first failure comes out |
| Publication.ObserverHub.EmitIsolated | src/api/livemap/livemap.commit-observer.ts:46-63 | an observer snapshot runs completely and ends with its first failure |
| Journey.PathLaw | src/diagnostics/circuit-engine.ts:258-268 | a lap starts and closes at the entry, crosses each format once, and the two directions mirror each other |
| Journey.DirectionIsAnswered | src/diagnostics/circuit-engine.ts:409-501 | every node of a direction is what the outside parsed from the text it wrote of the node before, leg by leg in the order of the path and under the questions asked; a direction ends early exactly at a cancellation, a missing text or node, or a difference that stops, and its failures and marks are those legs |
| Journey.DifferingIsSame | src/diagnostics/circuit-engine.ts:349-393 | no leg reports a difference iff every parsed node equals the one the direction started from |
| Circuit.Context.ExecuteLeg | src/diagnostics/circuit-engine.ts:295-407 | a leg moves on to the node the outside reads from the text the outside wrote, is clean iff that node equals its source, and stops without a text or a node; each is counted |
| Circuit.Context.ExecuteLap | src/diagnostics/circuit-engine.ts:436-471 | a lap does its legs until one ends the run, with the questions and counts as specified |
| Circuit.Context.ExecuteDirection | src/diagnostics/circuit-engine.ts:409-501 | a direction does exactly what the outside answers, at the specified cost |
| Circuit.DirectionOk | src/diagnostics/circuit-engine.ts:485-500 | a direction is ok iff it completed and every parsed node equals the prepared node; when the first failure stops, completing is being ok |
| Circuit.Context.CompareMarks | src/diagnostics/circuit-engine.ts:642-668 | the paranoid pass finds no fault iff both directions left equal marks; a fault is a missing key or the difference of one key |
| Circuit.Context.CompareDirections | src/diagnostics/circuit-engine.ts:624-675 | completed directions compare without failure iff they end equal and, in paranoid mode, left equal marks |
| Journey.LapsKeys | src/diagnostics/circuit-engine.ts:643-649 | completed laps leave the same four marks a lap whichever way round |
| Circuit.NoMarkMissing | src/diagnostics/circuit-engine.ts:643-653 | so between completed directions no paranoid mark is ever missing |
| Circuit.FinalAgrees | src/diagnostics/circuit-engine.ts:630-665 | when both directions came back equal neither the final nor a paranoid comparison can fail |
| Circuit.FinishDual | src/diagnostics/circuit-engine.ts:745-812 | a dual run stops, is cancelled or compares, exactly as the outside answers |
| Circuit.ExecuteCircuit | src/diagnostics/circuit-engine.ts:689-813 | a circuit answers what the outside told it, question by question and count by count |
| Circuit.ToldIsSound | src/diagnostics/circuit-engine.ts:689-813 | such a circuit is ok iff its entry parsed, nobody cancelled it, all laps were done and every parsed node equals the prepared one |
| Circuit.DualAccounts | src/diagnostics/circuit-engine.ts:624-675 | a comparison of completed directions misses no mark, fails only when the first failure does not stop, and a clean dual run of t laps costs 8t serializations, 8t+1 parses and 8t+1 comparisons, plus 4t when paranoid |
| Circuit.FaithfulIsOk | src/diagnostics/circuit-engine.ts:689-813 | over transforms that bring the prepared node back, and without cancellation, every circuit is ok |

## Left out

- `livemap.core.ts` staged drafts: `prepareDetachedCommit` and its materialized operations go through plain JavaScript objects, whose integer-like keys the language reorders.
- Strings are sequences of Unicode scalar values: strings with lone surrogates are not modelled.
- Identity overlays and identity epochs are empty throughout, so planning with identity is planning and a delta install is chosen whenever the root is not replaced.
- The schema is an arbitrary verdict on a candidate and its write intents, and the replay transport encoding is the identity.
- Whole-root `apply`, `capture`, and identity registration commits.
- Document maps, feeds, watch hubs, subscriptions, path handles and proxies, and asynchronous scheduling of managed mutations.
- Direct mutation of the map from inside a batch callback.
- Nodes are immutable trees in normalization, projection, comparison and the grammar walk, so object identity, shared and cyclic references there, the visitor's active and complete maps and the comparison's seen pairs are not captured; `CycleCheck` and `QuidScan` treat references.
- Graph edits are modelled on values: each returns the edited tree, so aliasing of handles into the owned graph is not captured.
- Editor.DeleteLive: does not model reading the path back after a delete, which can throw only over a graph where an object holds a name twice; no such graph reads as a carrier.
- CycleCheck.Check: the shape requirements on one object are a single given fact about it, and the reported paths are not modelled.
- QuidScan.Collect: claims carry no path.
- CanonicalEqual.GraphDifference: models the kind of the first difference, not its path, message and operands; numbers that are not finite make the source throw and are not values here.
- Publication.Queue.Enqueue: callbacks are finite behaviours, so an endless chain of publications is not modelled.
- Invariants.Checker.Walk: issues are kinds without path or text.
- Circuit.ExecuteCircuit: a parse that throws and one whose node the invariant check refuses are one answer of the caller's boundary; timings, captured material and retained lap and leg records are not modelled.
- Attribute style values are maps of declarations; their text form and their admission are not modelled.
- Path parts are keys and integers; other JavaScript values used as parts are not modelled. Error texts and codes are kinds.
- JavaScript reflection: prototypes, accessors, frozen checks, sparse arrays and caches.
- Public attribute transitions, metadata editing, LiveTree, the DOM, parsers and serializers.
