# niwaki design engine: a verified model

niwaki describes Cisco ACI configuration as a detached tree of declared objects, identified by
Distinguished Names (DNs): Relative Names (RNs) joined by slashes, where a slash inside square brackets
belongs to a value. A design is resolved, compiled, pushed, planned, sliced, merged, emitted as code,
and read back from a fabric. This project models that engine and proves what each part is for.

`dafny verify dfyconfig.toml` checks all of it.

| Part | Modules |
|---|---|
| DNs, RN formats, the linked tree | `Text`, `Dn`, `Naming`, `DesignTree` |
| The store a push is ingested into | `Store` |
| Staged push: waves, sync loop, worker pool | `Engine`, `Agreement`, `WavePool`, `PoolTheorems` |
| Compilers and what a staged run leaves | `Compiler`, `Staged`, `Closure` |
| References and slicing | `Resolver`, `References`, `Landing`, `Slice`, `SliceProgram`, `Carriage` |
| What the one envelope of a design writes | `Footprint`, `Construct`, `MergedPayload` |
| Merging | `Merge`, `MergeMeaning`, `MergeConflicts`, `MergePush` |
| Plan and its refinement | `Plan`, `PlanTheorems`, `Refine`, `RefineTheorems`, `Changes` |
| Bulk reads | `Read`, `Rebuild`, `Canonical` |
| Snapshots and reconciliation | `Universe`, `Snapshot`, `Assemble`, `Coverage`, `Reconcile`, `Orphans` |
| The importer's scope simulation | `Importer`, `ImportIndex` |
| The code emitter and a machine that runs what it emits | `Emit`, `Replay`, `ReplayTheorems`, `ReplayExact` |
| The property catalogue | `Catalog`, `CatalogTables` |

Objects that the source updates in place are classes (`FakeApic`, `Composition`, `Merger`, `Planner`,
`Emitter`, `Mo`, `DesignNode`, `Report`, `Accounts`, `Index`, `Pool`, `EnumStore`, `Builder`), each method
proved against a function or predicate over values; the laws are lemmas about those. The asynchronous
worker pool is a transition system (`WavePool`: open a wave, pull, land, close), so its theorems range
over every interleaving and every set of failing requests; `PoolTheorems.RunWave` is the same pool over
an array of slots with an arbitrary scheduler.

Generated data (`REFERENCE_MAP`, flavours, the atomic and carrier classes, RN formats, the maker
vocabulary, coercions of attribute values, bare reads) enters as parameters.

Where the code does less than its documentation says, the model follows the code:

- `to_code` accepts designs that its code does not rebuild; `ReplayExact.EmittedCodeReplays` is the exact
  condition. Code stops where a door refuses what the design holds:
  - a class under an owner the tables do not list, which both doors refuse: the importer attaches such objects
    without that gate, a subnet directly under `uni` among them (`ReplayExact.ImportedSubnetStops`);
  - an object that lacks a naming property under `raw()` or a generated maker, which want them all, while
    `mo()` and the relations a slice pins may leave one with a default out: the code for the slice at a VRF
    bound to a BGP address-family policy outside it stops (`ReplayExact.PinnedRelationStops`);
  - a reference by a verb that the cursor of a merged or relabelled object lacks, or by an unknown alias.

  Code runs and rebuilds something else where a dynamic maker gets naming values that do not lead the naming
  properties, or where the sugar of a maker rewrites attributes that a merge added to an object. Objects
  outside the vocabulary come back with the class for their maker.
- The sync and async engines report alike exactly when no op of a wave is at or below an earlier op of
  the same wave; declaring one DN twice is enough to tell them apart (`Agreement.EnginesAgreeExactly`,
  `Agreement.RepeatedDnDisagrees`).
- `merge` compares two raw values as spelled. It is refused exactly when an object has two classes, an
  attribute two values, or an attribute first set in the raw channel a second raw spelling
  (`MergeMeaning.RefusedIffContradiction`). The verdict then depends on the order of the sources: the
  `unicastRoute` of a bridge domain, "true" and "yes" (`MergePush.RawSpellingsMakeOrderMatter`).
- A refined plan is exact only when presence is closed under parents; the exact condition is
  `RefineTheorems.ExactIffClosed`.
- Two orphan roots can lie on one line of ancestors exactly when something declared separates two extras
  (`Orphans.SecondOrphanIff`).
- The catalogue gives a property back unchanged exactly when its flavours are written as the catalogue
  defaults them and no kept list of values is empty (`CatalogTables.RoundTrip`).

The vocabulary curates no alias and no verb on `polUni`, and the root has no name: no reference is declared on
it and none lands on it. The theorems about staging and about emitted code take that as a hypothesis.

## Model

| member | source | states |
|---|---|---|
| Dn.ComputeSplitDn | src/niwaki/_dn.py:31-63 | the loop splits at the slashes met at bracket depth zero |
| Dn.ComputeDepth | src/niwaki/design/_engine.py:41-59 | the depth counter is the number of separators, one less than the segments |
| Dn.JoinSplit | src/niwaki/_dn.py:31-63 | joining the segments of any string gives the string back |
| Dn.SplitJoinBijection | src/niwaki/_dn.py:31-63 | splitting and joining are inverse between non-empty strings and lists of separator-free segments balanced but for the last |
| Dn.BelowIsSegmentAncestry | src/niwaki/design/_engine.py:94-102 | the `startswith` test on a slash is proper segment-prefix ancestry exactly when the ancestor's brackets balance |
| Dn.BelowIsDeeper | src/niwaki/design/_engine.py:94-102 | an op strictly below a balanced DN is strictly deeper |
| Dn.ParentAndRn | src/niwaki/_dn.py:66-104 | a DN is its parent, a slash and its RN; there is no parent exactly at depth zero |
| Dn.PathRoundTrip | src/niwaki/_dn.py:31-63 | a path of balanced RNs is recovered from its DN at any depth |
| Dn.PathBelow | src/niwaki/design/_engine.py:94-102 | DN descent between declared objects is path descent |
| Naming.ComputeTokens | src/niwaki/_dn.py:107-134 | the loop returns the token list of a format, or the error of an unclosed placeholder |
| Naming.TokenizeExact | src/niwaki/_dn.py:107-134 | a format has a normal token list exactly when writing the list out gives the format |
| Naming.ComputeNamingValues | src/niwaki/_dn.py:137-206 | the lockstep walk returns the naming values, or refuses the RN |
| Naming.NamingRefills | src/niwaki/design/_import.py:1011-1018 | whatever is extracted under distinct placeholder names refills token by token to the RN |
| Naming.FillThenMatch | src/niwaki/_dn.py:137-206 | values printed into a format are recovered exactly when they are clean: balanced in brackets, separator-free elsewhere |
| Naming.CleanValueMeans | src/niwaki/_dn.py:174-203 | a value after an opening bracket is clean when its brackets balance and none closes too early; another one when it is last or does not meet the text that follows it before its end |
| Naming.ChainRoundTrip | src/niwaki/_dn.py:223-246 | the DN of a chain of named objects gives back every RN, every naming value and every parent |
| DesignTree.DesignNode.AncestorsAndSelf | src/niwaki/design/_node.py:230-235 | following the parent pointers yields the chain of the node |
| DesignTree.DesignNode.ChainPaths | src/niwaki/design/_node.py:230-235 | the chain visits the node's path and each of its prefixes, up to the root |
| DesignTree.DesignNode.Root | src/niwaki/design/_node.py:223-228 | the loop ends at the parentless top of the chain |
| DesignTree.DesignNode.Dn | src/niwaki/design/_node.py:197-205 | the reversed RNs of the chain join to the DN of the node's path |
| DesignTree.DesignNode.Attach | src/niwaki/design/_cursor.py:1040-1069 | a child is refused for a class its parent may not contain, for an unknown attribute, or for a sibling of its class and RN, in that order, and appended otherwise; siblings stay distinct |
| DesignTree.ChildDn | src/niwaki/design/_node.py:197-205 | a child's DN is its parent's, a slash and its RN |
| Store.FakeApic.Ingest | docs/conftest.py:95-104 | ingesting an envelope applies its upserts, parents first, flags reordered, attributes merged into what the store held |
| Store.FakeApic.Post | docs/conftest.py:87-93 | the parent DN is derived from the request DN and the RN, then the envelope is ingested |
| Store.FakeApic.Delete | docs/conftest.py:106-111 | exactly the DN and everything below it leave the store |
| Store.ApplyLookup | docs/conftest.py:95-104 | with distinct DNs each written object holds its own upsert and every other is untouched |
| Store.ApplyAnyOrder | docs/conftest.py:95-104 | upserts to distinct DNs commute |
| Engine.ComputeWaves | src/niwaki/design/_engine.py:84-91 | grouping by depth in a dictionary and sorting gives the waves |
| Engine.ToposortSound | src/niwaki/design/_engine.py:84-91 | the waves hold every op once, in submission order, by strictly ascending depth |
| Engine.RunWavesSync | src/niwaki/design/_engine.py:105-127 | the sync loop computes the three lists and the failed DNs of a run |
| Engine.WellNamedIndependent | src/niwaki/design/_engine.py:130-147 | on distinct balanced DNs no op of a wave is at or below another one of it |
| Agreement.OutcomePartitions | src/niwaki/design/_engine.py:105-224 | succeeded, failed and skipped ops partition the ops of every run of either engine, whatever fails |
| Agreement.EnginesAgreeExactly | src/niwaki/design/_engine.py:105-224 | the two engines report the same for every set of failures exactly when no wave holds an op at or below an earlier one of it |
| Agreement.RepeatedDnDisagrees | src/niwaki/design/_engine.py:108-111 | one DN declared twice makes the engines disagree |
| Agreement.NotRunIffAncestorFailed | src/niwaki/design/_engine.py:94-127 | on distinct balanced DNs an op is skipped exactly when a proper ancestor of it failed |
| Agreement.ReportedAsAnswered | src/niwaki/design/_engine.py:105-127 | an op that is not skipped is reported as its request answered: succeeded, or failed with that very error |
| WavePool.Reachable | src/niwaki/design/_engine.py:182-224 | every step of every schedule keeps the invariant of the pool: slots, workers, booked lists, landed requests |
| WavePool.CloseBooksWave | src/niwaki/design/_engine.py:216-223 | at the barrier the slots book exactly what the wave adds, whatever order the answers came in |
| PoolTheorems.EveryScheduleBooksTheSame | src/niwaki/design/_engine.py:130-224 | every finished schedule books what the waves alone determine, each slot filled once |
| PoolTheorems.AsyncMatchesSync | src/niwaki/design/_engine.py:130-224 | on distinct balanced DNs every schedule reports list by list what the sync loop reports |
| PoolTheorems.BoundedInFlight | src/niwaki/design/_engine.py:161-163 | never more than `max_concurrent` requests are in flight |
| PoolTheorems.SentAfterShallower | src/niwaki/design/_engine.py:190-216 | when a request leaves, every shallower op has concluded |
| PoolTheorems.NothingSentBelowAFailure | src/niwaki/design/_engine.py:193-197 | nothing is sent strictly below the DN of a request that failed, when its brackets balance |
| PoolTheorems.SentExactly | src/niwaki/design/_engine.py:190-223 | a finished schedule has sent each op it reports as succeeded or failed, once, and no other |
| PoolTheorems.SchedulesEnd | src/niwaki/design/_engine.py:209-216 | every schedule is finite, with a bound known before it starts |
| PoolTheorems.NeverStuck | src/niwaki/design/_engine.py:182-216 | with a worker allowed, an unfinished run can always move |
| PoolTheorems.RunWave | src/niwaki/design/_engine.py:199-216 | the slot array under an arbitrary scheduler ends with the result of each op in its own slot |
| PoolTheorems.RunWavesAsync | src/niwaki/design/_engine.py:130-224 | the run refuses an empty pool and otherwise returns the booked outcome |
| WavePool.LandedDelete | docs/conftest.py:106-111 | a delete that lands takes the object and all below it, and leaves every other object as it was |
| Compiler.ComputeOps | src/niwaki/design/_compiler.py:53-92 | the nested walk appends one op a node and a relation, none for a carrier, one for an atomic subtree |
| Compiler.EnvWritesDistinct | src/niwaki/design/_compiler.py:28-45 | an envelope with balanced RNs and distinct siblings writes each DN once |
| Staged.StrictIsStagedAndRest | src/niwaki/design/_compiler.py:28-92 | the strict envelope writes what the staged ops write, plus the root, its relations and the carriers |
| Footprint.StagedIsStrict | src/niwaki/design/_compiler.py:28-92 | a staged run of a resolved design without failure, under any schedule, leaves the store of the one strict POST at every DN but `uni` and the carriers, and what was there at those |
| Closure.StoreStaysClosed | src/niwaki/design/_engine.py:130-224 | in every reachable state, with any ops failing, no stored object lacks its parent, exempt DNs aside |
| Closure.CompiledWellParented | src/niwaki/design/_compiler.py:74-92 | the ops of a well-formed design have their parents among the ops, the root and the carriers aside |
| Closure.StagedRunStaysClosed | src/niwaki/design/_compiler.py:74-92 | a staged run of a design keeps the store closed under parents in every state it passes through |
| Closure.StagedReportsAgree | src/niwaki/design/_engine.py:130-224 | a staged push of a well-formed design reports the same through either engine under any schedule |
| Resolver.CommonAncestorDepth | src/niwaki/design/_resolver.py:70-97 | the pointer-keyed dictionary finds the length of the common path prefix, less one |
| Resolver.BuildIndex | src/niwaki/design/_resolver.py:50-67 | the index lists every named node once under its class and name |
| Resolver.ComputeLookup | src/niwaki/design/_resolver.py:197-240 | scoring every candidate returns the strictly nearest one, or says unresolved or ambiguous |
| Landing.ReferenceLands | src/niwaki/design/_resolver.py:267-304 | a raw DN and a verb put their relation on the object that declares them; an alias puts it there when the tables relate its class to the target's, and otherwise on the target, pointing back, when they relate the target's class to its own; the relation is built from the DN of the other end, or from its name when the controller can form it |
| Landing.ResolvesMeans | src/niwaki/design/_resolver.py:243-304 | a design resolves exactly when every reference has such a relation and no two relations, nor a relation and a declared child, say different things of one RN |
| Landing.ResolvedRelations | src/niwaki/design/_resolver.py:357-404 | what `resolve` attaches to an object is exactly the relations that land on it and no declared child restates |
| Landing.WireMeans | src/niwaki/design/_compiler.py:28-45 | the wire shows at a path the declared object, its attributes over its naming, or a relation that lands above, and nothing else |
| References.PruneNode | src/niwaki/design/_resolver.py:379-404 | restatements collapse, and a node is refused exactly when two relations, or a relation and a child, contradict each other on one RN |
| References.Resolve | src/niwaki/design/_resolver.py:243-304 | resolution succeeds exactly when every reference emits and no node contradicts itself, and returns the relations of each node |
| References.WireIsFunctional | src/niwaki/design/_resolver.py:357-380 | a design that resolves writes each path one way |
| Footprint.EnvelopeIsTheWire | src/niwaki/design/_compiler.py:28-45 | the one envelope compiled from a design that resolves writes exactly the objects of the design and the relations its references emit |
| Construct.DesignCompiles | src/niwaki/design/_compiler.py:28-50 | the tree of a design with the relations `resolve` returns for it pictures the design, and its envelope has balanced RNs and distinct siblings everywhere |
| Construct.BuiltInOrder | src/niwaki/design/_compiler.py:28-45 | the children of that tree stand in the order in which the objects are listed |
| Construct.CompileDesign | src/niwaki/design/_compiler.py:28-50 | resolving and compiling from the root gives an envelope exactly when the design resolves, and that envelope writes exactly the objects and relations on the wire |
| Slice.WinnerSurvives | src/niwaki/design/_compose.py:166-177 | the nearest-scope winner is the same in a smaller index that still holds it |
| Slice.SliceKeepsTheWire | src/niwaki/design/_compose.py:115-260 | path by path, at or below the sliced object the slice emits exactly what the source emits, through kept, redirected, pinned and inverse references |
| Footprint.SlicePayload | src/niwaki/design/_compose.py:115-260 | the compiled envelope of a slice writes at or below the sliced DN exactly what that of the source writes there, and beside it the bare ancestors only |
| Slice.SliceWritesNothingElse | src/niwaki/design/_compose.py:132-140 | outside the subtree a slice writes its ancestors only, by naming attributes |
| Slice.SliceResolves | src/niwaki/design/_compose.py:180-260 | a slice of a design that resolves resolves |
| SliceProgram.Composition.PinRs | src/niwaki/design/_compose.py:263-293 | an identical relation already pinned collapses, any other is refused |
| SliceProgram.CarryBind | src/niwaki/design/_compose.py:180-260 | one reference is kept, redirected, pinned or dropped on the composition as its landing decides |
| SliceProgram.PinAgrees | src/niwaki/design/_compose.py:284-293 | on a design that resolves a pin never contradicts the slice |
| SliceProgram.SliceDesign | src/niwaki/design/_compose.py:115-177 | refused exactly when nothing is declared at the DN; on a design that resolves it always returns the slice; each copied object has its references in the declared order, repetitions collapsed |
| Carriage.SliceBinds | src/niwaki/design/_compose.py:180-254 | a copied object keeps as declared its raw DNs, the references whose target is inside and those the push refuses; one whose target is outside becomes a reference by DN exactly when its relation attaches to that object and points by DN |
| Carriage.CarriedAsMeans | src/niwaki/design/_compose.py:180-254 | so for each reference alone: it leaves itself, the reference by DN, or nothing |
| Carriage.SlicePins | src/niwaki/design/_compose.py:256-293 | beside the ancestors and the subtree, a slice of a design that resolves holds exactly the relations that land inside of references with an end outside that no DN stands for, as the source emits them |
| Carriage.SameKeyIff | src/niwaki/design/_compose.py:88-104 | two references are one exactly when kind, alias, target class, target and attributes are the same |
| Merge.Merger.MergeTyped | src/niwaki/design/_compose.py:348-363 | typed attributes are added unless either channel has them; each value that does not fit adds one conflict, with the value held and the value refused, to those collected |
| Merge.Merger.MergeRaw | src/niwaki/design/_compose.py:364-372 | raw attributes likewise, agreeing with typed values as they coerce and with raw ones as spelled |
| Merge.Merger.MergeBinds | src/niwaki/design/_compose.py:374-380 | references are appended once each |
| Merge.Merger.Absorb | src/niwaki/design/_compose.py:382-394 | absorbing a subtree takes the merge and its conflicts through its declarations one by one, a class conflict leaving what is below out |
| Merge.MergeDesigns | src/niwaki/design/_compose.py:299-405 | two designs at least; refused exactly when some declaration does not fit, with the conflicts of the whole walk |
| MergeMeaning.MergeRepresents | src/niwaki/design/_compose.py:302-308 | a merge without conflict holds all that its sources declare and nothing else, one channel an attribute |
| MergeMeaning.RefusedIffContradiction | src/niwaki/design/_compose.py:302-308 | a merge is refused exactly when a DN has two classes, an attribute two values, or an attribute first set raw a second raw spelling |
| MergeMeaning.MergeFirstRules | src/niwaki/design/_compose.py:364-372 | the raw channel of a merged object holds what was set there first, as spelled there |
| MergeConflicts.ReportsEveryContradiction | src/niwaki/design/_compose.py:302-405 | the conflicts of the walk are, counted, those of each declaration met: its class against the class first merged at its DN, each typed or raw value against the value first set there; the first is kept, and what hangs from an object refused for its class is left out |
| MergeConflicts.ReportedExactly | src/niwaki/design/_compose.py:306-307 | a conflict is among them exactly when some declaration has it |
| MergeConflicts.MergedHoldsFirst | src/niwaki/design/_compose.py:341-372 | a merge that is not refused holds each attribute as first declared: value, spelling and channel |
| MergedPayload.MergedPayloadMeansAll | src/niwaki/design/_compose.py:299-405 | posting the envelope of a conflict-free merge leaves, in any store, what posting those of its sources in turn leaves, values compared as coerced |
| MergedPayload.MergedPayloadMeansBoth | src/niwaki/design/_compose.py:299-405 | posting the envelope of a merge of two, of the first then the second, and of the second then the first leave the same store |
| MergedPayload.CompileMerged | src/niwaki/design/_compose.py:299-405 | merging and compiling gives an envelope exactly when there are two designs and no contradiction; posting it leaves what posting the designs in turn leaves, values compared as coerced |
| MergedPayload.FirstsInOrder | src/niwaki/design/_compose.py:382-394 | the objects of a merge are listed in the order in which they are first declared |
| MergePush.RawSpellingsMakeOrderMatter | src/niwaki/design/_compose.py:364-372 | two raw spellings of one attribute of a bridge domain fit after a typed declaration and conflict before it |
| MergePush.WriteOfSays | src/niwaki/design/_node.py:178-190 | an object writes the raw value of an attribute if it has one, else the typed one, else the naming one |
| Plan.Planner.Walk | src/niwaki/design/_push.py:169-192 | the walk judges an object and its subtree against the current tree, and appends to the three lists |
| Plan.Plan | src/niwaki/design/_push.py:159-195 | the report books every judged object |
| PlanTheorems.PlannedCoversAll | src/niwaki/design/_push.py:169-192 | each desired object is judged once, parents first |
| PlanTheorems.ReportPartitions | src/niwaki/design/_push.py:159-195 | each desired DN is in exactly the list its verdict names, and the lists hold nothing else |
| PlanTheorems.VerdictsAreRight | src/niwaki/design/_push.py:169-192 | a create exactly when the object or a desired ancestor was not read with its class; otherwise unchanged exactly when every declared attribute agrees |
| PlanTheorems.PlanIsExact | src/niwaki/design/_push.py:84-109 | no change is reported exactly when ingesting the design leaves the store as it was |
| PlanTheorems.PlanConverges | src/niwaki/design/_push.py:84-109 | after the design is ingested a plan reports no change |
| Changes.PlanReports | src/niwaki/design/_push.py:169-192 | an object that was read with its class, as were its desired ancestors, is an update exactly when some declared attribute was not read or reads otherwise, with exactly those attributes, each as the value read and then the declared one; otherwise it is unchanged |
| Changes.PlanListsDesired | src/niwaki/design/_push.py:159-195 | the three lists name desired DNs only |
| Refine.RefinePart | src/niwaki/design/_push.py:237-273 | the loop ends, with an empty frontier and the found objects booked once each |
| RefineTheorems.FinalCreates | src/niwaki/design/_push.py:237-273 | a reported create stays one exactly when it is absent or hangs, through reported creates, from one that stays |
| RefineTheorems.ExactIffClosed | src/niwaki/design/_push.py:247-250 | the final creates are exactly the absent ones if and only if presence is closed under reported parents |
| RefineTheorems.ProbedExactly | src/niwaki/design/_push.py:247-250 | each create whose parent does not stay one is read once, no other DN is read |
| RefineTheorems.NothingBelowAbsentProbed | src/niwaki/design/_push.py:247-250 | nothing below a create confirmed absent is read |
| RefineTheorems.PlannedCreatesContiguous | src/niwaki/design/_push.py:169-176 | what a plan reports as creates meets the hypothesis of the previous row |
| RefineTheorems.RefinedPartition | src/niwaki/design/_push.py:211-273 | each reported create ends in exactly one list, and what was no create stays where it was |
| Changes.CreatesLeft | src/niwaki/design/_push.py:254-273 | a reported create stays one exactly when the bare read finds nothing of its class there, or its parent stays one; those that stay keep their order |
| Changes.RefineReports | src/niwaki/design/_push.py:211-229 | a create that is found is booked by its differences from what the bare read gave, attribute by attribute; every other object stays booked as it was |
| Read.ShardClasses | src/niwaki/_read.py:83-117 | the shards are the sorted distinct names in consecutive runs that fit the encoded budget or hold one name, as few as any such split allows |
| Read.GreedyStaysAhead | src/niwaki/_read.py:105-117 | a split no run of which can take the next name uses no more runs than any other split |
| Read.BuildTree | src/niwaki/_read.py:120-175 | the linked objects read as the tree of the items; an item without a DN and an absent root are told apart |
| Rebuild.ReachedExactly | src/niwaki/_read.py:129-146 | the tree reaches exactly the DNs whose chain up to the root was read, with their last body |
| Rebuild.ReachedOnce | src/niwaki/_read.py:168-174 | each is reached once, so there is no cycle |
| Rebuild.RebuildsFlattened | src/niwaki/_read.py:120-175 | rebuilding from the flattened tree gives the tree back, children in order |
| Canonical.ReadOrderIrrelevant | src/niwaki/_read.py:16-22 | any order, sharding or repetition of the same answers gives one tree up to child order |
| Canonical.SiblingKeysDistinct | src/niwaki/snapshot.py:356-359 | siblings have distinct sort keys: equal parent and equal RN is the same DN |
| Canonical.PruneThenSort | src/niwaki/snapshot.py:356-367 | pruning commutes with sorting |
| Universe.Invert | src/niwaki/snapshot.py:75-78 | the inverted map gives exactly the parents of each class |
| Universe.SnapshotUniverse | src/niwaki/snapshot.py:54-90 | the frontier loop ends on cyclic containment and requests the kept classes and exactly their concrete ancestors at any remove |
| Assemble.PruneChildren | src/niwaki/snapshot.py:361-366 | the children list of every object below is cut in place to the objects that are exportable or shelter one |
| Assemble.SortNode | src/niwaki/snapshot.py:356-359 | the children lists are then sorted in place by class and RN |
| Assemble.Accounts.Account | src/niwaki/snapshot.py:378-387 | the walk adds the instances and warnings of the subtree |
| Assemble.Assemble | src/niwaki/snapshot.py:329-392 | the capture is the pruned sorted tree, its counts and its sorted warnings, or nothing without a root |
| Snapshot.SnapshotsAreDeterministic | src/niwaki/snapshot.py:329-392 | the same objects in any order, sharding or repetition give the same tree, coverage and warnings |
| Coverage.PruneIsExact | src/niwaki/snapshot.py:361-366 | pruning keeps exactly the objects with an exportable descendant or self, and the top |
| Coverage.FinalTreeIsExact | src/niwaki/snapshot.py:329-367 | the final tree holds the scope and every connected object at or above one of a kept class, no other |
| Coverage.CaptureHoldsNoSecret | src/niwaki/snapshot.py:201-223 | of a class the catalogue knows, a capture holds configurable properties only, and a secret one reads as redacted |
| Coverage.CaptureShows | src/niwaki/snapshot.py:201-223 | each object of a capture shows the last item read at its DN: all attributes of a class the catalogue does not know, else the configurable ones, each as read or redacted |
| Coverage.CaptureAccounts | src/niwaki/snapshot.py:369-392 | the coverage counts every object of a kept class in the final tree, and the scope whatever its class; the warnings name exactly the objects whose class carries a secret in its DN |
| Text.LexLeIs | src/niwaki/snapshot.py:356-359 | the order the sorts use: a prefix first, else the smaller code point where two strings first differ |
| Coverage.NoKeptObjectIsLost | src/niwaki/snapshot.py:57-62 | every kept-class object whose chain follows the containment map through concrete classes is in the capture |
| Reconcile.Report.Walk | src/niwaki/design/_reconcile.py:83-99 | the walk lists extras and implicits in order, and as orphans the extras not separated from the design by another extra |
| Reconcile.ReconcileAgainst | src/niwaki/design/_reconcile.py:71-111 | only the subtrees under declared domains are accounted; an object there is an extra exactly when its DN is not declared and its class is not one a fabric makes by itself, and implicit when it is such a class |
| Orphans.StatusesPartition | src/niwaki/design/_reconcile.py:84-92 | every walked object is declared, implicit or extra, one of the three |
| Orphans.EveryExtraIsCovered | src/niwaki/design/_reconcile.py:71-111 | every extra lies at or below an orphan root, whatever is declared |
| Orphans.SecondOrphanIff | src/niwaki/design/_reconcile.py:93-99 | two orphan roots lie on one line exactly when something declared separates two extras |
| Orphans.OrphansAreAnAntichain | src/niwaki/design/_reconcile.py:71-111 | when declarations are ancestor-closed no orphan root is below another |
| Orphans.ExactlyOneOrphan | src/niwaki/design/_reconcile.py:71-111 | then every extra lies at or below exactly one orphan root |
| Importer.Index.Add | src/niwaki/design/_import.py:296-321 | indexing records each object of the snapshot with its class and primary name under its DN, and appends its DN in walk order to the list of its class and primary name |
| Importer.PrimaryNameIsFirstValue | src/niwaki/design/_import.py:308-316 | an object printed from clean values is indexed under the value of the first placeholder |
| Importer.ComputeScopedWinner | src/niwaki/design/_import.py:323-348 | the best-scored candidate unless another ties with it |
| Importer.ScopeSimulationIsLookup | src/niwaki/design/_import.py:323-348 | on the same named objects the simulation returns the DN of the node the resolver picks, and nothing exactly when the resolver raises |
| ImportIndex.IndexedDesign | src/niwaki/design/_import.py:296-321 | the index of the snapshot of a design lists, under each class and name, exactly the named objects of the design |
| ImportIndex.LookupInSnapshot | src/niwaki/design/_import.py:323-348 | indexing the snapshot of a design and looking a name up from one of its objects gives the DN the resolver picks in the design, and nothing exactly when the resolver raises |
| Importer.TryBindIsSafe | src/niwaki/design/_import.py:556-581 | a relationship that targets by DN, re-expressed as a bind, resolves to the object it pointed at; as a raw DN it uses an alias that may carry one |
| Importer.TryBindIsExact | src/niwaki/design/_import.py:556-581 | it becomes a bind exactly when one alias only may point at the class of its target and the lookup of the target's name finds the target; else it carries the DN through the first alias that may, and is left alone exactly when none may |
| Importer.TryBindNameIsSafe | src/niwaki/design/_import.py:547-554 | a relationship that stores a name becomes a bind exactly when one alias and only one resolves that name; the bind resolves |
| Emit.FreshName | src/niwaki/design/_emit.py:105-112 | the numbered name is not taken, and the search ends |
| Emit.Emitter.VarFor | src/niwaki/design/_emit.py:105-112 | the loop finds that name and takes it |
| Emit.Emitter.EmitNode | src/niwaki/design/_emit.py:176-192 | an object and its subtree append their lines, and note what the public doors refuse |
| Emit.ToCode | src/niwaki/design/_emit.py:204-267 | code is returned exactly when the root variable is usable and the catalogue knows the class and every raw property of every object below the root; otherwise the refusal lists, once each, the objects of unknown classes and the unknown properties |
| Replay.PositionalRestoresIff | src/niwaki/design/_emit.py:132-140 | naming passed by position is restored exactly when the values lead the naming properties |
| ReplayTheorems.DoorRestoresIff | src/niwaki/design/_cursor.py:231-260 | the maker or raw call an object is emitted as creates that object exactly when the tables allow it there, the naming the door wants is complete, and its naming and attributes come out as they went in |
| ReplayExact.RefusedStops | src/niwaki/design/_cursor.py:672-690 | emitted code that meets an object a door or its cursor refuses, for its place, its naming or a reference, stops |
| ReplayExact.PinnedRelationStops | src/niwaki/design/_compose.py:263-293 | `to_code` accepts a slice with a relation pinned by one of its two names, and the code stops |
| ReplayExact.ImportedSubnetStops | src/niwaki/design/_import.py:226-247 | `to_code` accepts an imported subnet directly under the root, and the code stops: the tables know no such containment |
| ReplayExact.EmittedCodeReplays | src/niwaki/design/_emit.py:11-18 | running the program rebuilds naming, attributes, references, raw attributes and children in order exactly when the doors accept and restore every object; makers and positions too exactly when objects outside the vocabulary were declared as `raw()` does |
| ReplayTheorems.LayoutInjective | src/niwaki/design/_emit.py:11-18 | the machine's cells determine the design |
| ReplayTheorems.AssignedOnce | src/niwaki/design/_emit.py:105-112 | no variable is assigned twice |
| Catalog.PackFlags | src/niwaki/_codegen/generate_catalog.py:237-248 | the bitmask of the flags, refused exactly when one is missing |
| Catalog.FlagsRoundTrip | src/niwaki/_codegen/generate_catalog.py:827-828 | unpacking the bitmask gives every flag back |
| CatalogTables.Pool.Intern | src/niwaki/_codegen/generate_catalog.py:202-215 | equal values share one id; ids already given stay |
| CatalogTables.EnumStore.Add | src/niwaki/_codegen/generate_catalog.py:218-234 | values of one digest share one id; ids already given stay |
| CatalogTables.Builder.PropRow | src/niwaki/_codegen/generate_catalog.py:251-314 | a property is refused exactly on an unrouted key or a missing flag; otherwise its signature reads back as the property |
| CatalogTables.BuildCatalog | src/niwaki/_codegen/generate_catalog.py:352-381 | the links of each class stand for its properties, all of them and nothing else |
| CatalogTables.RoundTrip | src/niwaki/_codegen/generate_catalog.py:806-840 | building the tables of any list of classes and reconstructing each returns every property as the catalogue keeps it, which is the original minus the dropped keys exactly when flavours are written as defaulted and no kept list is empty; part by part, a non-empty list of values comes back unless the base type is a `mo:` one, and every residual key but the flavours comes back with its value; refused exactly on an unrouted key or a missing flag |

## Left out

- HTTP sessions, retries, pagination, login, subscriptions and logging: requests are an oracle or the store.
- Pydantic validation, enum and number coercion: validated values are strings, compared through a coercion function where the code coerces; `mo_diff` is the contract that there is no delta exactly when every declared attribute agrees.
- Computing an RN from a model's naming: RNs and naming attributes are given, and the round trip between them is proved in `Naming`.
- The read side of the in-memory store. It reorders flags as it stores them (`Store.FakeApic`); the theorems on pushes are about the store without that.
- Curated tables (secrets, naming, vocabulary, `REFERENCE_MAP`, atomic and carrier classes): parameters.
- Object identity and sibling order in the resolver and in slicing: a design is a map from paths to declarations, each with its references in order, tied to the linked tree by `DesignTree`; `iter_subtree` over the linked tree is not modelled.
- Slice.SliceKeepsTheWire: assumes that no relation class is the target, owner or subclass of a curated reference, which holds of the generated tables; without it a pinned relation could be looked up by name. `Footprint.SlicePayload` shares the hypothesis.
- SliceProgram.Composition.PinRs: a sibling of another class with the same RN counts as a contradiction, where the code compares class and RN; RN formats do not collide within one parent. The containment of a relation class under its owner is taken from the tables.
- Merge.MergeDesigns: attributes of both channels are keyed by wire name, one field a wire name; a conflict names the wire attribute where the code sometimes names the field, and the final sort of the conflicts is left out.
- MergedPayload.MergedPayloadMeansAll: for sources without references, as two references of different sources may resolve against each other only in the merge; and for sources that set no naming attribute through `raw_set` (`NamingApart`), whose value the store would keep or lose by the order of the posts. `MergedPayload.MergedPayloadMeansBoth` and `MergedPayload.CompileMerged` share both.
- Plan.Plan: one domain without carriers; `_plan_roots` and `_merge_plans` only concatenate, and the type test beside the class test is left out.
- Read.BuildTree: attributes are strings and an envelope has one key; an item with several keys is a malformed response.
- Assemble.Assemble: the JSON text and the malformed-document reports are left out, as is `diff`, two dictionary comparisons.
- Reconcile.ReconcileAgainst: the three lists are in walk order; the final sort is left out.
- Importer.ComputeScopedWinner: the sort of the scores is replaced by the search for its two first places.
- ImportIndex.LookupInSnapshot: for a design whose names are those its RNs say, looking up classes that no relation of the design has.
- Importer.ScopeSimulationIsLookup: says which object a lookup finds, not that `resolve` succeeds: `_check_name_reachable` can still refuse a name-flavoured edge.
- The importer's verb, maker and raw ladder and its error policies.
- ReplayExact.EmittedCodeReplays: statements, not text: quoting, keyword syntax and the translation of readable names for `raw()` are left out, and the slug of a variable is a parameter assumed different from the imported `ref`. A maker is looked up on the class of its parent, where the parent of a declared object always has it; the climb to an ancestor, the makers limited to one grandparent class and the default name of a system-provided singleton are left out.
- CatalogTables.BuildCatalog: the property tables; the class columns, inheritance, fault, relation and search tables are copied row by row. JSON text and compression are taken as the identity, and read-back assumes a digest without collisions.
- PoolTheorems.RunWavesAsync: cancellation of the whole run is not modelled; a request answers or fails.
