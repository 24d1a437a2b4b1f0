# regl-pipeline: the scheduler and cache of the dataflow DAG, in Dafny

regl-pipeline runs a graph of components (textures, framebuffers, blurs, a canvas)
as an incremental dataflow engine. Every node of the graph has inports and outports,
and every port is used either statically or dynamically. Static values are
recomputed only when something they depend on changes. Dynamic values are
recomputed on every frame.

The `DAG` object of `regl-pipeline.js` drives this:

- It orders the nodes level by level (a Kahn-style topological sort).
- It resolves the effective usage of every port.
- It keeps a per-node cache of inport, compiled and outport records. Each record is
  stamped with the frame it last changed at.
- It decides from those stamps whether an outport must be recompiled or re-executed.
- It runs `compile` and `execute` for a node: it clears on `force`, consults the
  gates, mirrors `pass` outports from their same-named inport, and picks the save
  routine by runtime.
- Component routines read their inputs through a `NodeExecutionContext`, which only
  lets an outport read the inports it declares as dependencies.

This project models that core and proves properties of it.

The modules follow the structure of the program:

- **Base** has the JavaScript value, `undefined` and error vocabulary, and `| 0` as a
  reduction into 32-bit signed integers.
- **Levels** has `computeEdgesToMap`, `computeRoots` and `computeLevelOrder`. They are
  methods with loops over maps and sequences, proved against a specification of
  level orders.
- **Graph** is the noflo graph, reduced to its node, edge and initializer lists, with
  the first-match lookups.
- **Components** has the port descriptors, `depends`, the port lookups and
  `componentSanity`.
- **Store** has the cache records, `metadata({setup: true})` and the read-only cache
  queries.
- **Resolution** has usage resolution and the source fingerprint.
- **Gates** has `needsRecompilation` and `needsReexecution`.
- **Context** has `NodeExecutionContext`.
- **Updates** has the state changes as pure functions, with the properties of each.
  Those changes are `pullStatic`, `pullDynamic`, the three saves, `clearCache`,
  `setAttached`, `removeAttached` and `incFrame`.
- **Staleness** has the cache-coherence lemmas. They say what the gates answer after
  each update.
- **Compilation** and **Execution** specify `compile` and `execute` as their
  phases, and prove what a call leaves in the cache.
- **Dag** is the class `DAG`. Its fields are the graph, the component table, the
  per-node metadata map and the frame. Its methods update them in place. The loops
  of `compile`, `execute`, `pullStatic`, `pullDynamic` and `ordering` are written as
  loops with invariants. Each method is proved equal to the specification function
  of the modules above.
- **Fixtures** has the port tables of the shipped components. It records what
  `componentSanity` and `depends` answer for them.

Behaviour the model keeps as the code has it:

- **Edge and attachment precedence differs by call site.**
  - `effectiveInportUsage` looks at the attachment before the edge
    (`Resolution.EffectiveInportUsage`).
  - `evaluateInportSource` and `pullStatic` look at the edge first
    (`Resolution.EvaluateInportSource`, `Updates.PulledStatic`).
  - `Staleness.UsageAfterSetAttached` proves the consequence: attaching a defined
    value to a connected inherit inport makes its usage the attachment's.
- **`pullStatic` replaces the whole inport record.** The new record has no
  `valueChanged`, and no value when the usage is dynamic
  (`Updates.PullStaticRecord`).
- **`effectiveOutportUsage` ignores a dependency that is neither attached nor
  connected**, whatever that inport declares (`Resolution.DynamicDep`, used by
  `Resolution.EffectiveOutportUsage`).
- **`computeLevelOrder` always ends with one empty level.** `Levels.LevelShape`
  says so, and `Dag.DAG.LevelOrdering` states it.
- **A connected inport takes the usage stored in the upstream outport's cached
  record.** It does not resolve the upstream outport's usage again
  (`Resolution.ConnectedInportUsage`). That function also proves that its
  'No cached output usage!' branch cannot be reached, because `getCachedOutport`
  throws first.
- **`effectiveOutportUsage` has no branch for pass outports.** A pass outport without a
  declared usage goes through the inherit branch, with the mirrored inport as its one
  dependency. So it is 'static' when that inport is neither wired nor attached, even
  when the inport is declared 'dynamic'.
- **`pass` is read in two ways.** `componentSanity` tests `pass === true` (line 591).
  `depends` and `execute` test it for truthiness (lines 281 and 1186). The model keeps
  three cases, no `pass`, `pass: true` and another truthy `pass`, and
  `Components.TruthyPassReadTwoWays` proves what the third case leads to: it passes
  its same-named inport through in `depends` and `execute`, yet `componentSanity`
  checks it as an ordinary outport.
- **A routine that throws and one whose promise rejects differ in `execute`.** A throw
  ends the outport loop, which runs inside one `.then` callback (lines 1134-1135). A
  rejection is a promise in the list that `Promise.all` waits on (lines 1209 and 1213),
  so the loop goes on and the rejection is reported once the loop is over
  (`Execution.Dispatch`, `Execution.ExecuteDynamicRejected`).
- **`componentSanity` rejects every pass outport.** It iterates a `depends` list that
  it has just required to be `undefined`. This is a finding (below): the model keeps
  the code as written and also gives the corrected check.

The external world is a parameter:

- `execute` routines are an opaque `Routine`. It maps a component name, an outport
  name and a context to a returned value, a thrown error or a rejected promise.
- `compile` routines are an opaque `Operation`, which maps the same arguments to a
  value or an error.
- The graph that `getNofloGraph()` returns is a field of the state.

## Model

| member | source | states |
|---|---|---|
| Base.ToInt32 | regl-pipeline.js:969-973 | `x \| 0`: the result is a signed 32-bit integer congruent to x modulo 2^32, and x itself when x is already in range |
| Base.Dedup | regl-pipeline.js:984 | `new Set(V)` read in iteration order: the same elements as V, each once |
| Levels.ComputeEdgesToMap | regl-pipeline.js:39-57 | the map has a key for every node and every edge source, and v is a successor of u exactly when (u, v) is an edge, with no successor listed twice |
| Levels.AddEdges | regl-pipeline.js:48-54 | the edge loop, started from a map without edges, adds exactly the edges of E |
| Levels.Roots | regl-pipeline.js:59-70 | the roots are the nodes of V, in V's order, that are no node's successor |
| Levels.ComputeRoots | regl-pipeline.js:59-70 | deleting every successor from the set of V leaves exactly the roots |
| Levels.DeleteAll | regl-pipeline.js:62-66 | the inner loop removes every member of the destination list from the set and keeps the rest in order |
| Levels.CountParents | regl-pipeline.js:85-91 | the parent count has an entry for every node of V and every node with a parent, and that entry is its number of parents |
| Levels.AddParent | regl-pipeline.js:88-90 | the inner loop adds one parent to each destination |
| Levels.DecrementChild | regl-pipeline.js:97-112 | one successor's count is decremented; the successor joins the level being collected exactly when its count reaches 0; the level invariant is kept |
| Levels.VisitNode | regl-pipeline.js:96-112 | visiting a node of the last level keeps the level invariant, with that node added to the processed set |
| Levels.VisitLevel | regl-pipeline.js:94-113 | the loop over the last level fails exactly when one of its nodes has no entry in the edge map; otherwise it collects the next level |
| Levels.NextLevel | regl-pipeline.js:93-117 | one turn of the level loop keeps the loop invariant, and the count grows when the new level is not empty |
| Levels.LevelLoop | regl-pipeline.js:93-117 | the level loop ends with the invariant and nothing left to visit, unless a node without an edge-map entry is reached |
| Levels.ComputeLevelOrder | regl-pipeline.js:72-124 | it throws 'Graph has no roots!' exactly when the graph has no root. On success, level 0 is the roots, every node appears in exactly one level, every edge goes to a strictly later level, only the last level is empty, and one node per node of V is placed. An acyclic, closed, non-empty graph always succeeds. On a closed graph success implies acyclicity (a cycle throws) |
| Levels.FinalShape | regl-pipeline.js:93-117 | at loop exit the levels have the shape of a level order |
| Levels.AcyclicReachesAll | regl-pipeline.js:119-121 | in an acyclic graph the loop reaches every node, so the final count check passes |
| Levels.AcyclicHasRoot | regl-pipeline.js:76-78 | a non-empty acyclic graph has a root, so the no-roots error is not thrown |
| Levels.NoDescent | regl-pipeline.js:119-121 | a non-empty set in which every node has a parent inside the set cannot exist in an acyclic graph |
| Levels.ReachedAll | regl-pipeline.js:119-121 | when the edges join nodes of V, reaching \|V\| nodes means reaching exactly V |
| Levels.LevelsRank | regl-pipeline.js:72-124 | levels that increase strictly along every edge rank the graph, which is therefore acyclic |
| Levels.RootsParentless | regl-pipeline.js:74-85 | the roots are the parentless keys of the parent count |
| Levels.FlattenFacts | regl-pipeline.js:991-1001 | concatenating levels that partition the nodes lists each node once |
| Levels.FlattenTopological | regl-pipeline.js:991-1001 | concatenating levels whose edges go forward gives a topological order |
| Graph.FindNode | regl-pipeline.js:428-435 | `getNode`: the first node with the id, or none exactly when no node has it |
| Graph.HasInportConnection | regl-pipeline.js:401-408 | true exactly when some edge leads into `node:inport` |
| Graph.GetInportConnection | regl-pipeline.js:410-417 | the source of the first edge into the port, and none exactly when there is no such edge |
| Graph.GetInitialValue | regl-pipeline.js:419-426 | the data of the first initializer on the port; `undefined` when there is none |
| Graph.RemoveInitialValue | regl-pipeline.js:392-399 | dropping a port's initializers leaves it without an initializer and keeps the first initializer of every other port |
| Graph.RemovedValue | regl-pipeline.js:392-399 | after `removeInitial` the port reads `undefined` and every other port reads as before |
| Graph.ReplacedValue | regl-pipeline.js:340-373 | after replacing the initializer the port reads the new value and every other port reads as before |
| Components.InportNames | regl-pipeline.js:266-270 | `inports`: the inport names in declaration order |
| Components.OutportNames | regl-pipeline.js:272-276 | `outports`: the outport names in declaration order |
| Components.ComponentInportInfo | regl-pipeline.js:293-303 | succeeds exactly for a declared inport, with a descriptor of that name; otherwise it throws 'no such inport' |
| Components.ComponentOutportInfo | regl-pipeline.js:305-315 | succeeds exactly for a declared outport, with a descriptor of that name; otherwise it throws 'no such outport' |
| Components.HasInport | regl-pipeline.js:564-582 | true exactly when the component declares the inport |
| Components.Depends | regl-pipeline.js:278-291 | a pass outport depends on exactly its same-named inport, and on nothing it can give when that inport is missing; another outport depends on its declared list, or on nothing without one; an unknown outport throws |
| Components.CheckPlain | regl-pipeline.js:616-641 | the checks on a non-pass outport succeed exactly when it obeys the rules for non-pass outports |
| Components.CheckPass | regl-pipeline.js:591-611 | the three checks on a pass outport succeed exactly when it mirrors an inport and declares neither `depends` nor `usage` |
| Components.SanityAsWritten | regl-pipeline.js:584-643 | the check as written succeeds exactly when no outport is a pass outport and every outport obeys the rules |
| Components.Sanity | regl-pipeline.js:584-643 | the corrected check succeeds exactly when every outport obeys the rules, and an error is the one of an outport that breaks them |
| Components.Check | regl-pipeline.js:591-641 | the check on one outport succeeds exactly when it obeys the rules |
| Components.SanityReportsFirstFailure | regl-pipeline.js:584-643 | the corrected check reports the error of the first outport that breaks a rule |
| Components.PassThroughRejected | regl-pipeline.js:591-614 | a component whose only outport passes its only inport through obeys every rule, yet the written check throws a TypeError on it; the corrected check accepts it |
| Components.TruthyPassReadTwoWays | regl-pipeline.js:278-291 | an outport whose `pass` is truthy but not `true`, mirroring an inport, is a pass outport for `depends` (it depends on exactly that inport) and for `execute`, while `componentSanity` checks it as an outport that is not a pass outport |
| Store.NodeComponent | regl-pipeline.js:249-264 | `componentInfo({node})`: an unknown node throws 'no such node'; it succeeds exactly when the node's component is in the table, with that component's descriptor |
| Store.SetupMeta | regl-pipeline.js:437-477 | the metadata afterwards has every container and a record for every port; metadata already prepared is returned unchanged; existing records are kept |
| Store.SetupView | regl-pipeline.js:437-477 | the set-up metadata exists exactly when the node has a component, and is then prepared |
| Store.Setup | regl-pipeline.js:437-477 | setup succeeds exactly when the node has a component; it changes only that node's metadata, leaves it set up with the same view, and changes nothing when the node is already set up |
| Store.GetCachedOutport | regl-pipeline.js:663-677 | the set-up outport record when it holds data; 'OutportDoesNotContainData' otherwise; a record it returns carries all three stamps and a usage |
| Store.GetCachedInport | regl-pipeline.js:778-794 | the set-up inport record; the error 'InportDoesNotContainCache' when there is none; a declared inport always has one |
| Store.GetAttached | regl-pipeline.js:375-390 | the node must exist; the value is the graph's initial value; with no attachment record the usage is 'static' with no stamps; otherwise the record's usage and stamps |
| Store.CheckInport | regl-pipeline.js:317-320 | succeeds exactly for a declared inport of a known node, with its descriptor |
| Store.HasAttached | regl-pipeline.js:327-332 | throws what `checkInport` throws; otherwise true exactly when the graph holds a defined initial value for the port |
| Store.NodeDepends | regl-pipeline.js:278-291 | `depends({node, outport})` is `depends` of the node's component, and throws what the component lookup throws |
| Resolution.ConnectedInportUsage | regl-pipeline.js:487-498 | throws a TypeError without a connection; otherwise the usage of the upstream cached outport record, or that lookup's error; never 'No cached output usage!' |
| Resolution.EffectiveInportUsage | regl-pipeline.js:500-525 | a declared 'static' or 'dynamic' usage is returned as declared; any other declared usage except 'inherit' throws; an inherit or undeclared inport takes the attachment's usage when a value is attached, else the connected usage when wired, else 'static' |
| Resolution.DependsUsage | regl-pipeline.js:541-559 | the dependency loop answers 'dynamic' exactly when some dependency is dynamic (attached as dynamic, or connected with dynamic usage), 'static' when none is |
| Resolution.EffectiveOutportUsage | regl-pipeline.js:527-562 | a declared 'static' or 'dynamic' usage is returned as declared; any other declared usage except 'inherit' throws; an inherit outport with no dependencies throws; otherwise 'dynamic' exactly when some dependency is dynamic, and the answer is defined when every dependency can be queried |
| Resolution.EvaluateInportSource | regl-pipeline.js:651-661 | a connected inport's fingerprint names the first edge's source, checked before the attachment; otherwise 'attached-…' or 'none'; 'none' exactly when the port is neither wired nor attached |
| Resolution.InportUsageFrame | regl-pipeline.js:500-525 | an inport's usage reads only the attachments and the records of nodes wired into it |
| Resolution.OutportUsageFrame | regl-pipeline.js:527-562 | an outport's usage reads nothing that changes outside attachments and the records of upstream nodes |
| Resolution.SourceFrame | regl-pipeline.js:651-661 | the fingerprint reads only the graph |
| Gates.AnyNewer | regl-pipeline.js:835-842 | true exactly when some dependency's cached inport changed statically after the stamp; it is defined whenever every dependency has a record |
| Gates.NeedsRecompilation | regl-pipeline.js:823-845 | true exactly when the compiled record has no stamp or some dependency changed statically after it |
| Gates.NeedsReexecution | regl-pipeline.js:847-876 | always true at the dynamic runtime; at the static runtime true exactly when the output record has no stamp, or was saved with a usage other than the current effective usage, or some dependency changed statically after it |
| Context.CheckRead | regl-pipeline.js:152-165 | a read is allowed exactly when the inport exists and is a dependency of the context's outport; otherwise it throws 'no such inport' or 'not a dependency' |
| Context.ReadUsage | regl-pipeline.js:167-176 | the cached usage of an allowed read, and an error for any other |
| Context.Connected | regl-pipeline.js:178-187 | for an allowed read, true exactly when the cached source is not 'none' |
| Context.Evaluate | regl-pipeline.js:222-236 | an allowed read returns the cached value, except that at the static runtime an inport cached as dynamic reads as `undefined` |
| Context.Require | regl-pipeline.js:189-200 | throws for a read that is not allowed and for a source 'none'; otherwise returns what `evaluate` returns |
| Context.Statically | regl-pipeline.js:205-220 | like `require`, and additionally throws unless the inport's effective usage is 'static' |
| Context.Compiled | regl-pipeline.js:136-150 | the compiled value of the named outport, the context's own by default; it is read without setup and exists exactly when the node has a cache holding that record |
| Updates.PullStaticEntry | regl-pipeline.js:683-729 | a record written by `pullStatic` is stamped as checked at the current frame, for a declared inport |
| Updates.PullStaticRecord | regl-pipeline.js:683-729 | the written record's source is the inport's fingerprint; it has a usage and a stamp, no `valueChanged`, and no value when dynamic; a changed usage or fingerprint stamps it with the frame; otherwise its stamp is no older than the old one (-1 if unset) |
| Updates.PullStaticConnected | regl-pipeline.js:693-702 | a connected inport throws exactly when the upstream record holds no data; it takes the upstream usage, and the upstream value when static; without a new fingerprint its stamp is exactly the larger of the old stamp and the upstream stamp |
| Updates.PullStaticAttached | regl-pipeline.js:703-710 | an attached inport throws exactly when the attachment's usage is not the effective usage; it takes the attached value when static; without a new fingerprint its stamp is exactly the largest of the old stamp, the attachment's `staticChanged` and, when static, its `valueChanged` |
| Updates.PullStaticUnwired | regl-pipeline.js:711-723 | an inport neither wired nor attached gets no value, the effective usage, and the old stamp unless the fingerprint changed |
| Updates.PullStaticFrom | regl-pipeline.js:682-730 | the inport loop replaces each record in turn, and the first throw ends it, keeping the records written before |
| Updates.PullStatic | regl-pipeline.js:679-731 | `pullStatic` is setup then the loop; it throws what setup throws |
| Updates.PullStaticAll | regl-pipeline.js:679-731 | a pull that throws nothing leaves every inport with the record computed from the state the pull started from |
| Updates.PullStaticFirstError | regl-pipeline.js:679-731 | a pull that throws reports the first inport whose record cannot be computed from the starting state |
| Updates.EntryFrame | regl-pipeline.js:683-729 | writing other inport records does not change what the pull computes for an inport |
| Updates.PullDynamicEntry | regl-pipeline.js:737-774 | a static inport is skipped; a dynamic inport changes only its value and value stamp, which is no older than the old one; a failing usage resolution throws |
| Updates.PullDynamicSource | regl-pipeline.js:744-774 | a dynamic inport takes the upstream value when wired (throwing when the upstream record holds no data), else the attached value (throwing unless attached as dynamic), else `undefined`; its value stamp is the maximum of the old stamp (-1 if unset) and the source's `valueChanged` |
| Updates.PullDynamicFrom | regl-pipeline.js:736-775 | the inport loop of `pullDynamic`, stopping at the first throw |
| Updates.PullDynamic | regl-pipeline.js:733-776 | `pullDynamic` is setup then the loop |
| Updates.PullDynamicAll | regl-pipeline.js:733-776 | a pull that throws nothing leaves each dynamic inport with its new value and each static inport as it was |
| Updates.SaveCompiled | regl-pipeline.js:886-892 | after setup the compiled record holds the value, stamped with the frame; nothing else changes |
| Updates.StaticSave | regl-pipeline.js:894-904 | after setup the outport record holds the value and the outport's effective usage, with the frame as all three stamps; it throws when the usage does not resolve |
| Updates.DynamicSave | regl-pipeline.js:906-914 | after setup the outport record holds the value, with the frame as its value and checked stamps; its usage and `staticChanged` stay |
| Updates.ClearCache | regl-pipeline.js:878-884 | succeeds exactly for a known node; that node's cache is dropped, its attachments stay, and nothing else changes |
| Updates.AttachStamp | regl-pipeline.js:340-373 | the attachment's `staticChanged` becomes the frame unless it was already dynamic with a stamp and stays dynamic |
| Updates.SetAttached | regl-pipeline.js:340-373 | throws for a usage other than 'static' or 'dynamic', for an unknown inport, and for 'dynamic' on an inport declared 'static', and succeeds otherwise; it then records the value, usage and stamps and replaces the port's initializer |
| Updates.RemoveAttached | regl-pipeline.js:392-399 | the node must exist; the port then reads as unattached with usage 'static'; other ports, the cache and the other nodes are unchanged |
| Updates.IncFrame | regl-pipeline.js:969-973 | returns the frame and advances it by one with 32-bit signed wrap-around; nothing else changes |
| Staleness.AnyNewerSame | regl-pipeline.js:835-842 | two states with the same cached inport records give the same gate answer |
| Staleness.SetupInports | regl-pipeline.js:437-477 | setup does not change what `getCachedInport` reads |
| Staleness.FreshAfterSaveCompiled | regl-pipeline.js:823-845 | right after `saveCompiled` at frame f, `needsRecompilation` is false unless a dependency's cached inport changed statically after f |
| Staleness.StaticSaveInputs | regl-pipeline.js:894-904 | `staticSave` changes no attachment and no other node's outport record |
| Staleness.FreshAfterStaticSave | regl-pipeline.js:847-876 | right after `staticSave` at frame f, static `needsReexecution` is false unless a dependency's cached inport changed statically after f |
| Staleness.SavedRecord | regl-pipeline.js:894-904 | the record `staticSave` wrote is stamped with the frame and holds the usage the outport still resolves to |
| Staleness.StaleAfterClear | regl-pipeline.js:878-884 | after `clearCache` every outport needs recompilation and static re-execution |
| Staleness.AttachedAfterSetAttached | regl-pipeline.js:327-373 | after `setAttached` the inport is attached exactly when the value is defined |
| Staleness.UsageAfterSetAttached | regl-pipeline.js:500-525 | after attaching a defined value, an inherit or undeclared inport resolves to the attachment's usage, even when it is wired |
| Compilation.ForceStep | regl-pipeline.js:927-934 | the loop throws 'Component is malformed' without a `compile` dictionary; with `force` it clears the outport's compiled value and stamp |
| Compilation.CompileStep | regl-pipeline.js:925-962 | one iteration: an error stops the loop; an outport with an open gate and a routine is queued |
| Compilation.ScanCompile | regl-pipeline.js:924-963 | the outport loop, each iteration on the state the previous one left |
| Compilation.CompileResults | regl-pipeline.js:950-955 | each queued routine runs with a static context on the state the loop left |
| Compilation.SaveResults | regl-pipeline.js:956-960 | saving the results writes only the queued outports' compiled records and keeps the node set up |
| Compilation.Compile | regl-pipeline.js:916-967 | an unknown node or component throws and changes nothing; otherwise the node ends set up |
| Compilation.CompileIs | regl-pipeline.js:916-967 | `compile` is setup, the outport loop, the routines in queue order, then the saves of the routines that succeeded; it reports the loop's error, else the first routine error |
| Compilation.CompileFrame | regl-pipeline.js:916-967 | `compile` writes only the node's compiled records |
| Compilation.CompileDictionary | regl-pipeline.js:924-929 | a component without outports compiles to setup alone; one without a `compile` dictionary throws at its first outport, before any routine runs |
| Compilation.ScanUnforced | regl-pipeline.js:924-963 | without `force`, a loop that does not throw queues exactly the outports with a routine whose gate is open, in outport order |
| Compilation.ScanForcedErr | regl-pipeline.js:927-934 | with `force`, the loop throws only when the `compile` dictionary is missing |
| Compilation.ScanForcedTodo | regl-pipeline.js:931-962 | with `force`, a loop that does not throw queues every outport with a routine |
| Compilation.ScanForcedCleared | regl-pipeline.js:931-934 | with `force`, the loop clears every visited compiled record |
| Compilation.RecompilationOpens | regl-pipeline.js:823-845 | a cleared record opens `needsRecompilation` |
| Compilation.SavedResults | regl-pipeline.js:956-960 | each successful result is saved in its outport's record, stamped with the frame; failed routines leave their records as the loop left them |
| Compilation.CompileUnforced | regl-pipeline.js:916-967 | without `force`, after a `compile` that throws nothing, an outport whose gate was open and which has a routine holds that routine's value with the frame's stamps; every other compiled record is as setup left it |
| Compilation.UnforcedScan | regl-pipeline.js:924-963 | without `force`, the loop leaves the state unchanged and queues the outports with a routine whose gate is open |
| Compilation.ForcedScan | regl-pipeline.js:924-963 | with `force`, the loop throws exactly when there are outports and no `compile` dictionary; otherwise it queues every outport with a routine and clears every compiled record |
| Compilation.CompileForced | regl-pipeline.js:916-967 | with `force`, after a `compile` that throws nothing, every outport with a routine holds its routine's value stamped with the frame, and every other outport's record is cleared |
| Compilation.CompileFresh | regl-pipeline.js:823-845 | without `force`, a recompiled outport's gate afterwards is open only if a dependency changed after the frame |
| Compilation.CompileForcedFresh | regl-pipeline.js:823-845 | with `force`, every outport with a routine is fresh after a `compile` that throws nothing |
| Compilation.CompileStamped | regl-pipeline.js:950-960 | after a `compile` that throws nothing, an outport whose routine ran carries the frame of the compilation |
| Compilation.CompileKeepsGate | regl-pipeline.js:936-944 | without `force`, an outport whose routine did not run keeps its gate's answer |
| Execution.ForceOutput | regl-pipeline.js:1153-1157 | the `force` clearing clears the outport's value and both change stamps; a missing record is a TypeError |
| Execution.Dispatch | regl-pipeline.js:1178-1210 | a runtime other than the usage queues nothing; otherwise it throws without an `execute` dictionary; a pass outport is queued as a pass-through; another outport throws without a routine; else a returned value is queued, a throw ends the loop with its error, and a rejection is queued as a failed job while the loop goes on; at most one job, for that outport, is added; the state is unchanged |
| Execution.ExecStep | regl-pipeline.js:1143-1211 | one iteration writes at most the outport's record, by the force clearing and the static reset, and queues jobs only for that outport |
| Execution.Resolve | regl-pipeline.js:1213-1214 | all queued jobs resolve, in order, or the error of one that fails is reported |
| Execution.ResolveJob | regl-pipeline.js:1187-1209 | a pass-through reads the cached value of the same-named inport, or throws what that read throws; a routine's job holds its value; a rejected job fails with the rejection's error |
| Execution.ResolveFirstError | regl-pipeline.js:1213-1214 | the first job that throws rejects the whole resolution with its error |
| Execution.SaveAll | regl-pipeline.js:1215-1221 | the saves use `staticSave` at the static runtime and `dynamicSave` at the dynamic one, in queue order, and an error stops them |
| Execution.Execute | regl-pipeline.js:1131-1225 | an unknown node or component throws and changes nothing; a runtime other than 'static' or 'dynamic' throws after setup |
| Execution.ExecuteIs | regl-pipeline.js:1131-1225 | `execute` is setup, the runtime check, the outport loop, the resolution of the queued jobs, then their saves |
| Execution.ExecuteFrame | regl-pipeline.js:1131-1225 | `execute` writes only the node's output records, never the graph, the components or the frame |
| Execution.ScanStaticJobs | regl-pipeline.js:1159-1180 | at the static runtime without `force`, the loop queues jobs only for outports whose gate was open at the start and whose usage resolves |
| Execution.SaveStatic | regl-pipeline.js:1215-1221 | the static saves succeed for outports whose usage resolves and stamp each saved record with the frame and the outport's usage |
| Execution.ExecuteStaticRecords | regl-pipeline.js:1131-1225 | at the static runtime without `force`, a run that throws nothing leaves every outport either untouched (its gate was closed) or stamped with the frame and its usage (its gate was open) |
| Execution.ExecuteStatic | regl-pipeline.js:1131-1225 | at the static runtime without `force`, an outport whose gate was closed keeps its record and stays fresh; one whose gate was open is stamped with the frame and its usage, and afterwards reopens only if a dependency changed after the frame |
| Execution.StaticValueReset | regl-pipeline.js:1164-1176 | at the static runtime, an outport behind an open gate whose usage is dynamic ends the run with the `undefined` of its reset, stamped with the frame |
| Execution.StaticValueSaved | regl-pipeline.js:1164-1221 | at the static runtime, an outport behind an open gate whose usage is static ends the run holding the value of the job its iteration queued, stamped with the frame |
| Execution.SaveStaticValues | regl-pipeline.js:1215-1221 | the static saves of distinct outports store each resolved value, with the frame as all three stamps and the outport's usage |
| Execution.StaticJobRead | regl-pipeline.js:1186-1210 | the value a static job resolves to is the cached value of the same-named inport for a pass outport, and otherwise what the routine returned |
| Execution.ExecuteStaticValues | regl-pipeline.js:1131-1225 | at the static runtime without `force`, after a run that throws nothing, an outport whose gate was open holds, stamped with the frame and its usage: `undefined` when its usage is dynamic; the cached value of its same-named inport when it is a static pass outport; otherwise the value its routine returned on the context of the state the loop had reached, after its reset |
| Execution.ScanDynamic | regl-pipeline.js:1143-1211 | at the dynamic runtime without `force`, a loop that throws nothing changes nothing and queues the outports whose usage is dynamic, in order |
| Execution.SaveDynamic | regl-pipeline.js:1215-1221 | the dynamic saves of distinct outports succeed and write each value stamped with the frame |
| Execution.ExecuteDynamicRecords | regl-pipeline.js:1131-1225 | at the dynamic runtime without `force`, a run that throws nothing leaves static outports untouched and writes the queued value of every dynamic one |
| Execution.ExecuteDynamic | regl-pipeline.js:1131-1225 | at the dynamic runtime without `force`, a static outport keeps its record; a dynamic pass outport is written with its same-named inport's cached value; another dynamic outport is written with its routine's value, stamped with the frame |
| Execution.ExecuteDynamicRejected | regl-pipeline.js:1209-1213 | at the dynamic runtime without `force`, when the routine of a dynamic outport that is not a pass outport rejects, `execute` fails |
| Execution.DynamicValues | regl-pipeline.js:1186-1210 | a queued outport's value is the pass-through inport's cached value or the routine's result |
| Dag.DAG.constructor | regl-pipeline.js:240-247 | a DAG starts over its graph and component table at frame 0, with no metadata |
| Dag.DAG.IncFrame | regl-pipeline.js:969-973 | returns the old frame and advances the field with 32-bit wrap-around |
| Dag.DAG.Setup | regl-pipeline.js:437-477 | persists the set-up metadata, or throws and changes nothing |
| Dag.DAG.PullStatic | regl-pipeline.js:679-731 | the in-place pull leaves the state that `Updates.PullStatic` specifies |
| Dag.DAG.PullStaticLoop | regl-pipeline.js:682-730 | the inport loop, record by record, leaves the state `Updates.PullStaticFrom` specifies |
| Dag.DAG.PullDynamic | regl-pipeline.js:733-776 | the in-place pull leaves the state that `Updates.PullDynamic` specifies |
| Dag.DAG.PullDynamicLoop | regl-pipeline.js:736-775 | the inport loop, record by record, leaves the state `Updates.PullDynamicFrom` specifies |
| Dag.DAG.ClearCache | regl-pipeline.js:878-884 | the in-place update is `Updates.ClearCache` |
| Dag.DAG.SaveCompiled | regl-pipeline.js:886-892 | the in-place update is `Updates.SaveCompiled` |
| Dag.DAG.StaticSave | regl-pipeline.js:894-904 | the in-place update is `Updates.StaticSave` |
| Dag.DAG.DynamicSave | regl-pipeline.js:906-914 | the in-place update is `Updates.DynamicSave` |
| Dag.DAG.SetAttached | regl-pipeline.js:340-373 | the in-place update is `Updates.SetAttached` |
| Dag.DAG.RemoveAttached | regl-pipeline.js:392-399 | the in-place update is `Updates.RemoveAttached` |
| Dag.DAG.Compile | regl-pipeline.js:916-967 | the in-place `compile`, with its loop, routines and saves, ends in the state and error that `Compilation.Compile` specifies |
| Dag.DAG.CompileLoop | regl-pipeline.js:924-963 | the outport loop, clearing records in place, leaves the queue, error and state of `Compilation.ScanCompile` |
| Dag.DAG.ClearCompiled | regl-pipeline.js:932-933 | clears one compiled record's value and stamp in place |
| Dag.DAG.CompileRoutines | regl-pipeline.js:950-955 | runs the queued routines on the current state and changes nothing |
| Dag.DAG.SaveCompiledResults | regl-pipeline.js:956-960 | saves each successful result in turn, ending in the state of `Compilation.SaveResults` |
| Dag.DAG.Execute | regl-pipeline.js:1131-1225 | the in-place `execute` ends in the state and error that `Execution.Execute` specifies |
| Dag.DAG.ExecuteLoop | regl-pipeline.js:1143-1211 | the outport loop leaves the jobs, error and state of the loop specification |
| Dag.DAG.ExecuteOutport | regl-pipeline.js:1144-1210 | one iteration, in place, is the specified iteration |
| Dag.DAG.DispatchOutport | regl-pipeline.js:1178-1210 | the queueing part of an iteration is `Execution.Dispatch` |
| Dag.DAG.ClearOutput | regl-pipeline.js:1153-1157 | clears one output record's value and both change stamps in place |
| Dag.DAG.ResolveJobs | regl-pipeline.js:1213-1214 | resolves the queued jobs in order; without an error the results are those of `Execution.Resolve`; with one, `Execution.Resolve` throws it |
| Dag.DAG.SaveOutputs | regl-pipeline.js:1215-1221 | saves the resolved values in turn, ending in the state and error of `Execution.SaveAll` |
| Dag.DAG.LevelOrdering | regl-pipeline.js:981-989 | throws 'no roots' exactly when every node is fed by an edge; on success level 0 is the unfed nodes in graph order, the levels hold each node once, the last level is empty, and every edge goes to a later level; when every edge joins nodes of the graph the levels hold exactly its nodes, and the method succeeds exactly when the graph is acyclic and not empty |
| Dag.GraphLevels | regl-pipeline.js:72-124 | a level order of the edge map is read on the graph: level 0 is the unfed nodes, and the graph's edges go forward |
| Dag.GraphLevelsExist | regl-pipeline.js:72-124 | for a graph whose edges join its nodes, the level order exists exactly when the graph is acyclic and not empty |
| Dag.EdgeMapAcyclic | regl-pipeline.js:39-57 | the edge map the graph's edges build is acyclic exactly when the graph is |
| Dag.EdgeMapRoots | regl-pipeline.js:59-70 | the roots of the edge map are the nodes no graph edge leads into, in order |
| Dag.JoinedClosed | regl-pipeline.js:39-57 | when the graph's edges join its nodes, the edge map's edges join nodes of the deduplicated ids |
| Dag.DAG.Ordering | regl-pipeline.js:991-1001 | the concatenated levels hold each node once, in an order where every edge's source comes before its target; when every edge joins nodes of the graph it succeeds exactly when the graph is acyclic and not empty |
| Dag.Concatenate | regl-pipeline.js:994-999 | the nested push loops build the concatenation of the levels |
| Dag.RootsFed | regl-pipeline.js:981-989 | a node is a root of the edge map exactly when no edge of the graph leads into it |
| Dag.EdgesTopological | regl-pipeline.js:981-1001 | an order topological for the edge map is topological for the graph's edges |
| Fixtures.CanvasSane | components/canvas.js:4-11 | the canvas passes `componentSanity` |
| Fixtures.PlainSane | regl-pipeline.js:616-641 | a non-pass outport whose dependencies are all inports, and all static when it is static, obeys the rules |
| Fixtures.PassSane | regl-pipeline.js:591-611 | a pass outport that mirrors an inport and declares neither dependencies nor usage obeys the rules |
| Fixtures.PassUsageRefused | regl-pipeline.js:603-606 | a pass outport that declares a usage is refused for it |
| Fixtures.TexturePlainSane | components/texture.js:4-18 | the texture's three non-pass outports obey every rule |
| Fixtures.TextureRejected | components/texture.js:4-18 | the written and the corrected check both refuse the texture, because its pass outport `format` declares a usage |
| Fixtures.FramebufferPlainSane | components/framebuffer.js:5-28 | the framebuffer's three non-pass outports obey every rule |
| Fixtures.FramebufferRejected | components/framebuffer.js:5-28 | both checks refuse the framebuffer's pass outport `components`, which declares a usage |
| Fixtures.BruteGaussianSaneUpTo | components/brute-gaussian.js:6-21 | the gaussian's outports before `format` obey every rule, including two pass outports |
| Fixtures.BruteGaussianChecks | components/brute-gaussian.js:6-21 | the written check throws a TypeError at the sane pass outport `outviewport`; the corrected check goes on and refuses the usage of `format` |
| Fixtures.GaussianPassDepends | components/brute-gaussian.js:6-21 | a pass outport of the gaussian depends on its same-named inport |
| Fixtures.GaussianPlainDepends | components/brute-gaussian.js:6-21 | the gaussian's `out` depends on its declared list |
| Fixtures.GaussianUnknownDepends | regl-pipeline.js:278-291 | an outport the gaussian does not declare throws 'no such outport' |

## Left out

- Promise plumbing, `visitLevel`, `orderedVisit`, `compileFrame` and `executeFrame` (`regl-pipeline.js:1004-1129`) are left out. They sequence asynchronous visits, and the model runs `compile` and `execute` one node at a time.
- Execution.Resolve: when several jobs fail, the model reports the first in queue order. `Promise.all` reports the first to reject in time, which depends on scheduling that the model does not have.
- Execution.ExecuteDynamicRejected: it states that `execute` fails, not which error it reports, because a later throw in the loop ends it with that throw's error instead.
- Compilation.CompileResults: a `compile` routine is called inside a `.then` callback (lines 953-954), so a throw and a rejected promise end the same way there, and the model gives both as an error.
- Compilation.CompileResults: every routine runs after the outport loop, on the state the loop left, in queue order, before any save. This is the order the promise callbacks take when routines return without awaiting anything. A routine that awaits something is not modelled.
- Component routines are the opaque `Routine` (for `execute`) and `Operation` (for `compile`). The routine bodies in `components/*.js` are WebGL `regl`/`resl` calls and shader text, and only the port tables of those files are modelled (Fixtures).
- The graph is a field of the state instead of the result of `getNofloGraph()`. noflo's `removeInitial` and `addInitial` are modelled on an initializer list.
- The read-only queries (`getCachedOutport`, `getCachedInport`, the gates and usage resolution) compute the set-up view of the metadata but do not persist it. The code persists it. The difference can be seen only through `getAttached`, whose default usage 'static' is for a node never set up.
- Store.Setup: a lookup failure is modelled as changing nothing. The code can leave empty containers behind before it throws, and no later read can tell them apart from none.
- Execution.ExecuteStatic, Execution.ExecuteStaticRecords, Execution.ExecuteStaticValues, Execution.ExecuteDynamic, Execution.ExecuteDynamicRecords and Execution.ExecuteDynamicRejected are proved only for a node with distinct outport names that is not wired into itself. A self-loop would let a save change what the node's own usage resolution reads.
- Compilation.CompileUnforced, Compilation.CompileForced and Compilation.CompileFresh are proved only for a component with distinct outport names.
- The `force` case of `execute` is modelled (Execution.ForceOutput, Dag.DAG.ClearOutput), but no lemma states what a forced `execute` leaves in the cache beyond Execution.ExecuteFrame.
- `console.log`, `clone` and the assertion at line 1149 are left out. The usage type has only 'static' and 'dynamic', so that assertion always holds.
- `checkOutport`, `nodeSanity`, `portStr`, `setCachedInport`, `initializeNode`, `resetInportInitial` and `incCounter` are not part of this model. No modelled operation calls them.
- `hasInport` is modelled inline: its two callers, `checkInport` (line 158) and `componentSanity` (line 593), call `Components.HasInport` on the component's descriptor.
- regl-pipeline-timer.js, the editor, the demo and build scripts are not part of this model. They are I/O, timers and UI.
- Values are opaque tokens, and `undefined` is a value of its own. JavaScript's `Math.max` with an `undefined` stamp (NaN) cannot arise where the code reaches it: the model proves that every stamp it takes the maximum of is set.

## Findings

| source | as written | input that shows it | evidently intended | confidence | as-written member | corrected member |
|---|---|---|---|---|---|---|
| regl-pipeline.js:591-614 | on a pass outport, after checking that it mirrors an inport and declares neither `depends` nor `usage`, the check iterates that outport's `depends`, which is `undefined`, so it throws a TypeError; the `return` after the loop, which would end the check at the first pass outport, is never reached | a component with inport `x` and one pass outport `x` (Components.PassThrough); the gaussian's `outviewport` | a pass outport that obeys the rules is accepted, and the check goes on to the next outport | not executed | Components.SanityAsWritten | Components.Sanity |

Components.PassThroughRejected proves that the written check rejects the pass-through
component with a TypeError while the corrected one accepts it.
Fixtures.BruteGaussianChecks shows the same on a shipped component.
Components.SanityReportsFirstFailure proves that the corrected check reports the first
outport that breaks a rule.
