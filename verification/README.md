# ACIE: a verified model of its core

ACIE keeps an index of a repository's symbols and of the relations between them, and answers
questions about it. This project models the parts of the daemon and of its tools whose
correctness is hard to see from the code, and proves what they are for. `dafny verify
dfyconfig.toml` checks everything.

Time is an integer (timers) or an ordered string (observations), the extractor is the list of
facts it reports for a file, a store is a live table plus a history per key, and threads are
steps that are atomic per lock section.

- **Import cycles** (`Digraph`, `TarjanInvariant`, `TarjanSearch`, `CycleReport`, `FindCycles`,
  `ModulePaths`, `Architecture`). The iterative Tarjan search of `_find_cycles`, with its explicit
  stack of nodes and iterators, returns exactly the non-trivial strongly connected components.
  Its edges come from a suffix index that is proved equal to the pairwise matcher it replaces.
- **Write queue** (`WriteQueue`, `WriteQueueInvariant`, `WriteQueueSteps`, `WriteQueueTheorems`,
  `WriteQueueOutcomes`).
  Submitters, writer threads, completion callbacks that submit again, cancellations and any
  number of untimed `close` calls, in every interleaving.
- **Indexing** (`FactTable`, `Facts`, `SymbolIds`, `Indexer`, `Connections`, `IndexFile`,
  `References`, `TwoPass`, `ThirdPass`, `Bootstrap`). What a deferred reference means. One call of `index_file` as a transaction on a shared connection whose
  every statement may fail, what it leaves behind, why two passes in any order complete the index, and
  why further ones change nothing and add no history.
- **Enrichment scheduling** (`Scheduling`, `SchedulingTheorems`, `SchedulingTimers`,
  `EnrichmentScheduler`). The
  scheduler as a class over its fields, each method proved against a step function, and what
  every run of those steps keeps.
- **Bounded traversals** (`Traversal`, `BoundedWalk`, `WalkResults`, `DiscoveryOrder`,
  `RelationGraph`, `GraphTool`, `BlastRadius`, `PytestConventions`). The breadth-first loop of `graph`,
  `impact_analysis` and `affected_tests` against shortest chains of live relations, the order of
  discovery, and the exactness of `truncated`. The three tools
  repeat one loop; the model has it once, and the two that report no edges ignore them.
- **Extractor analyses** (`ClassContexts`, `SelfBaseMethods`). The round-by-round Protocol/ABC
  flags are a least fixed point; the growing worklist over base classes ends on cycles and finds
  exactly the nearest definers.
- **Fact stores** (`FactTable`, `MergePolicy`, `Explain`, `Pagination`, `Tuples`). Live table and
  history agree, merging never loses certainty and does not depend on order, and paging through a
  strictly ordered list yields every item once.

Four things one would expect hold only under a condition, which the model states exactly, with an
input that fails. `explain` reads the last row of an empty list when a key was deleted but never
observed (`Explain.ExplainFailsExactly`, `Explain.DeletedNeverObserved`); the daemon only deletes live
keys, and then it cannot happen. It shows the current fact first only if no earlier row carries a
greater sort key (`Explain.CurrentFirstExactly`), which a write stamped before it was queued can break
(`Explain.LateWriteSortsBehind`). Ambiguous rows of an earlier pass survive when every candidate of the
new pass is already held more certainly (`MergePolicy.StaleRowsRetired`,
`MergePolicy.StaleRowSurvives`). A job for a vanished file leaves relations to the file's module symbol
behind (`Bootstrap.GoneFileDangling`, `Bootstrap.ModuleRelationDangles`).

The comment on `_symbol_key` (src/acie/tools/explain.py:195-200) says two rows of a symbol share a sort
key only if they are equal in every field. The key leaves out `is_stub`, so rows that differ in nothing
else share it as well (`Explain.SymbolKeyTells`).

`_class_contexts` and `self_base_methods` refer to classes by name; the theorems hold for duplicate
names as well, where every class of a name counts in the first, and only the first one in the second.

## Model

| member | source | states |
|---|---|---|
| `FindCycles.FindCycles` | src/acie/tools/architecture.py:411-468 | For edges between known files: the result is the report of all non-trivial strongly connected components, and the search looks at every edge exactly once; it terminates. |
| `FindCycles.BuildAdjacency` | src/acie/tools/architecture.py:418-420 | Each file is listed with exactly the files its edges lead to, each once. |
| `FindCycles.Begin` | src/acie/tools/architecture.py:429-436 | Discovering a file from the outer loop keeps the search consistent with its ghost account of what has been read. |
| `FindCycles.ReadNeighbor` | src/acie/tools/architecture.py:438-466 | Taking one neighbour from an iterator, new or known, keeps that consistency and logs that edge once. |
| `FindCycles.Leave` | src/acie/tools/architecture.py:442-457 | Exhausting an iterator passes the lowlink on or closes a component, keeping that consistency. |
| `FindCycles.PopComponent` | src/acie/tools/architecture.py:445-451 | Popping takes off exactly the stack from the topmost occurrence of the node upwards, each member once. |
| `TarjanSearch.MembersAreComponent` | src/acie/tools/architecture.py:444-451 | When a node's lowlink equals its index, the stack from it upwards is its whole strongly connected component. |
| `TarjanSearch.StepClose` | src/acie/tools/architecture.py:444-453 | Closing a component keeps the search invariant and records the component if and only if it is non-trivial. |
| `TarjanSearch.StepRetreat` | src/acie/tools/architecture.py:454-457 | Returning to the parent with the lowlink keeps the search invariant. |
| `TarjanSearch.StepDiscover` | src/acie/tools/architecture.py:459-464 | Pushing an undiscovered neighbour keeps the search invariant. |
| `TarjanSearch.StepKnown` | src/acie/tools/architecture.py:465-466 | Reading a neighbour that was discovered before keeps the search invariant, active or not. |
| `TarjanInvariant.CloseKeeps` | src/acie/tools/architecture.py:445-451 | Removing a closed component leaves the order, reachability and lowlink facts of the remaining stack intact. |
| `CycleReport.ReportUnique` | src/acie/tools/architecture.py:411-468 | Two reports of the same graph are equal: the output does not depend on any iteration order. |
| `CycleReport.ReportDisjoint` | src/acie/tools/architecture.py:411-468 | No file is on two reported cycles. |
| `CycleReport.SortedIsReport` | src/acie/tools/architecture.py:453-468 | Sorting the collected components gives the report: first members strictly ascend. |
| `ModulePaths.Register` | src/acie/tools/architecture.py:302-307 | Registering a path adds it under exactly the names the pairwise matcher accepts for it, once. |
| `ModulePaths.BuildDottedNameIndex` | src/acie/tools/architecture.py:302-308 | Looking a name up gives the same list as scanning all module paths with the pairwise matcher, for every name. |
| `ModulePaths.ScanLists` | src/acie/module_paths.py:46-52 | A path is listed under a name once per module symbol, if and only if it matches. |
| `ModulePaths.TailsAreMatches` | src/acie/module_paths.py:46-52 | The dotted suffixes of a path's name, cut at dots, are exactly the names it matches. |
| `ModulePaths.DottedNames` | src/acie/module_paths.py:31-43 | A package file goes by its directory, a module file by its stem, any other file by its path. |
| `ModulePaths.JoinSplit` | src/acie/tools/architecture.py:303-306 | Joining the parts a dotted name was split into gives the name back. |
| `ModulePaths.ReplaceSlashes` | src/acie/module_paths.py:31-43 | A path and its dotted form agree character by character, slashes becoming dots. |
| `Architecture.ResolveMeansResolution` | src/acie/tools/architecture.py:533-565 | Resolving an import target through the index finds the files the matcher accepts, else those accepted for the name without its last segment. |
| `Architecture.LastSegmentOff` | src/acie/tools/architecture.py:565 | The retry takes off the last segment of the name and nothing else. |
| `Architecture.InScopeExactly` | src/acie/tools/architecture.py:526-530 | In scope are the root and what lies below it, whatever slashes end the root, and no path that merely starts with its name. |
| `Architecture.ScopedExactly` | src/acie/tools/architecture.py:526-530 | Scoping keeps each module in scope as often as it occurs and drops the others. |
| `Architecture.FilesImported` | src/acie/tools/architecture.py:399-406 | One module's scoped imported files and its count of imports that resolve nowhere. |
| `Architecture.ComputeFileEdges` | src/acie/tools/architecture.py:387-408 | Every edge is an import between scoped files and every such import is an edge; per path, the external imports of the last module there. |
| `Architecture.ArchitectureCycles` | src/acie/tools/architecture.py:387-468 | End to end from module files and import targets to the cycle report of the scoped import graph. |
| `WriteQueueSteps.StepKeeps` | src/acie/daemon/write_queue.py:109-148 | Every step of a submitter, writer, client or closer keeps the invariant of the whole queue. |
| `WriteQueueSteps.RunInv` | src/acie/daemon/write_queue.py:243-306 | The invariant holds after every interleaving of steps from the start. |
| `WriteQueueTheorems.LogsAreHistory` | src/acie/daemon/write_queue.py:120-125 | The recorded accepted and taken jobs are those of the run's own enqueue and dequeue steps. |
| `WriteQueueTheorems.QueueDiscipline` | src/acie/daemon/write_queue.py:265-306 | The in-flight count is the queued jobs plus the one executing, jobs are taken once and in the order accepted, and nothing is queued behind a stop. |
| `WriteQueueTheorems.StopIsLast` | src/acie/daemon/write_queue.py:285-306 | When a writer takes its stop every job ever accepted for it has been taken, and its future is resolved or cancelled. |
| `WriteQueueTheorems.SnapshotIsComplete` | src/acie/daemon/write_queue.py:172-174 | Every repository that ever accepted a job is in the snapshot `close` stops. |
| `WriteQueueTheorems.CloseDrains` | src/acie/daemon/write_queue.py:172-198 | When an untimed `close` returns, every accepted job has been taken and settled and its writer has stopped. |
| `WriteQueueTheorems.NothingAfterStop` | src/acie/daemon/write_queue.py:120-125 | After a repository's stop is queued every submit for it is refused, reentrant ones included. |
| `WriteQueueTheorems.CallNeverStuck` | src/acie/daemon/write_queue.py:109-148 | While a submit call has not ended, its next step, or that of the caller holding the creation lock it waits for, is enabled, and brings it strictly nearer to its end by a measure of the steps left. |
| `WriteQueueTheorems.BusyWriterNeverStuck` | src/acie/daemon/write_queue.py:258-271 | A writer that `close` is waiting for always has a step that strictly lowers the measure of what it has left to do: no deadlock. |
| `WriteQueueOutcomes.RefusedOnlyFor` | src/acie/daemon/write_queue.py:109-125 | In every run a submit is refused only if a writer could not be started for it, or the queue is closed and the call does not come from its own repository's writer thread. |
| `WriteQueueOutcomes.AcceptedUnless` | src/acie/daemon/write_queue.py:109-126 | Every submit that has ended was accepted otherwise, and its future is rejected exactly if it was refused: an open queue accepts everything, a closed one still what its jobs submit. |
| `WriteQueueOutcomes.RanAreResolved` | src/acie/daemon/write_queue.py:258-306 | The jobs a writer thread has run are exactly the taken ones whose futures are resolved, each once, in the order they were accepted. |
| `WriteQueueOutcomes.FinalStays` | src/acie/daemon/write_queue.py:275-306 | No step changes a resolved, cancelled or rejected future: cancelled jobs never run. |
| `FactTable.UpsertAllLive` | src/acie/storage/relation_store.py:99-157 | A list of upserts leaves the last-written fact per key live and all other keys alone. |
| `FactTable.DeleteAllStep` | src/acie/storage/relation_store.py:206-236 | Deleting keys one after another equals deleting them at once, histories included, in any order. |
| `FactTable.PerformAgrees` | src/acie/storage/relation_store.py:99-236 | Each upsert, and each delete of a live key, keeps live table and history in agreement. |
| `FactTable.HistoryAgrees` | src/acie/storage/symbol_store.py:58-148 | Over every sequence of them: a key is live iff its last row is no tombstone, with that row's content, and adjacent content rows differ. |
| `FactTable.UpsertAllAgrees` | src/acie/storage/symbol_store.py:58-123 | A whole list of upserts keeps that agreement. |
| `FactTable.DeleteAllAgrees` | src/acie/storage/symbol_store.py:136-148 | Deleting any set of live keys keeps that agreement. |
| `Indexer.RelationsAfter` | src/acie/indexer.py:84-133 | A relation survives a call iff its target did and it is newly written or was not subject to the diff; its content is the last one written. |
| `Indexer.SitedRelationsAfter` | src/acie/indexer.py:84-133 | Of the file's own relations exactly the new ones remain, and protected inferred ones, less those to removed symbols. |
| `Indexer.NothingDangles` | src/acie/indexer.py:103-133 | No live relation anywhere targets a symbol the call removed. |
| `Indexer.TombstonesCounted` | src/acie/indexer.py:141-147 | The reported tombstone count is what was live or new, less what is live now. |
| `Indexer.OwnerUnique` | src/acie/indexer.py:84 | A symbol id tells which file it belongs to. |
| `Indexer.SameRelationSameItem` | src/acie/indexer.py:150-344 | Two deferred references of a file that resolve to the same relation are the same reference. |
| `Indexer.ExtractedIsNotDeferred` | src/acie/adapters/python/extract_relations.py:621-627 | No deferred reference of a file resolves to a relation the file resolves itself, once the symbols include its own. |
| `References.ThroughSubmodule` | src/acie/indexer.py:160-170 | A call through an imported submodule resolves to what the same call to a function imported from that submodule does. |
| `References.ResolvesExactly` | src/acie/indexer.py:150-344 | For each kind of reference: it resolves to a symbol iff one of the right kind, qualified name and matching file qualifies, for a base method iff a matching class and a method of it in one file do, with the right predicate and place; certain iff exactly one qualifies. |
| `References.CountsQualifying` | src/acie/indexer.py:150-344 | As many relations are written for a reference as there are ways to qualify for it. |
| `References.NewRelationsExactly` | src/acie/indexer.py:60-82 | A file has exactly the relations extracted from it and those its references of all four kinds resolve to. |
| `SymbolIds.BuildInjective` | src/acie/ir/symbol_id.py:12-22 | An id determines the qualified name, the kind and the number of the symbol in its file. |
| `SymbolIds.NumberSymbols` | src/acie/adapters/python/extract_symbols.py:36-55 | Each definition gets its number among those of its name and kind, the first none; so the ids of a file are distinct, redefinitions included, and belong to it. |
| `SymbolIds.IdFormat` | src/acie/ir/symbol_id.py:12-22 | The ids of a module, of a method and of its twelfth definition, character by character. |
| `Connections.Connection.UpsertSymbol` | src/acie/storage/symbol_store.py:58-123 | On success the table is the upserted one; uncommitted unless asked; a failure never commits. |
| `Connections.Connection.UpsertRelation` | src/acie/storage/relation_store.py:99-157 | The same for relations. |
| `Connections.Connection.DeleteSymbol` | src/acie/storage/symbol_store.py:136-148 | On success the row is gone and a tombstone follows; uncommitted unless asked. |
| `Connections.Connection.DeleteRelation` | src/acie/storage/relation_store.py:206-236 | The same for relations. |
| `Connections.Connection.BumpGeneration` | src/acie/storage/index_meta_store.py:138-141 | Commits everything pending with one generation bump, or nothing; only then may reading it back fail. |
| `Connections.Connection.DeleteRelationsTo` | src/acie/indexer.py:123-133 | Symbol by symbol, deletes exactly the live relations to the removed symbols and counts each once. |
| `IndexFile.ResolveOne` | src/acie/indexer.py:150-192 | One deferred reference yields one relation per candidate, certain iff the candidate is alone; which candidates there are is `References.ResolvesExactly`. |
| `IndexFile.ResolveDeferred` | src/acie/indexer.py:215-344 | The relations resolved for a list of references are those the specification resolves, one per candidate, and each is what some reference of the list resolves to. |
| `IndexFile.Plan` | src/acie/indexer.py:60-89 | What one call reads: the relations to write, each extracted or resolved from a deferred reference, the removed symbols and the unsupported relations. |
| `IndexFile.WriteFacts` | src/acie/indexer.py:97-133 | The write loops leave exactly the specified tables uncommitted, and nothing committed. |
| `IndexFile.IndexFile` | src/acie/indexer.py:34-147 | A failing write leaves the committed database as it was; otherwise symbols, relations, history and one bump are committed together, the index is the specified reconciliation, and all counts are exact. A skipped file changes nothing. |
| `IndexFile.ReconcileMeans` | src/acie/indexer.py:97-135 | What a successful call commits has exactly the live contents the reconciliation specifies. |
| `IndexFile.ReconcileAgrees` | src/acie/indexer.py:98-133 | A call deletes live keys only, so live tables and histories go on agreeing. |
| `IndexFile.ReconcileStamps` | src/acie/indexer.py:97-101 | Every fact a call writes is live as last claimed and observed at its time, and every other row keeps its own. |
| `TwoPass.OnePassCompletesSymbols` | src/acie/scan.py:50-51 | One pass over the files, in any order and from any index of them, leaves exactly their symbols. |
| `TwoPass.KnownSymbolsComplete` | src/acie/indexer.py:60-133 | A pass that starts with the complete symbol table ends with every file resolved against it. |
| `TwoPass.OrderIrrelevant` | src/acie/daemon/bootstrap.py:192-209 | The complete index does not depend on the order of the files. |
| `TwoPass.TwoPassesComplete` | src/acie/daemon/bootstrap.py:192-209 | Two passes, each in its own order, from any index of those files, reach the complete index. |
| `TwoPass.ThirdPassIdle` | src/acie/daemon/bootstrap.py:192-209 | A third pass in any order changes no live content. |
| `TwoPass.OnePassMayMiss` | src/acie/daemon/bootstrap.py:192-206 | One pass is not enough: a caller indexed before its callee's file stays unresolved. |
| `ThirdPass.FileAgain` | src/acie/indexer.py:97-133 | Indexing a file whose facts all hold already deletes nothing, keeps the live contents, and keeps the histories iff it claims no key with two contents; else rows are appended. |
| `ThirdPass.ThirdPassHistories` | src/acie/daemon/bootstrap.py:192-209 | For facts of any shape: over a whole pass on a complete index, whatever the order, no history row is added iff no file writes one key with two contents. |
| `ThirdPass.WritesOneContent` | src/acie/indexer.py:65-82 | From what the extractor promises of a file, resolved against symbols that include its own: no key is written with two contents. |
| `ThirdPass.ThirdPassSilent` | src/acie/daemon/bootstrap.py:192-209 | So a further pass over a complete index, whatever the order, adds no history row and changes no live content. |
| `ThirdPass.IndexAgain` | src/acie/daemon/bootstrap.py:417-427 | The same for the jobs of such a pass on the connection, each stamped anew and each free to fail. |
| `Bootstrap.PassCountdown.OnJobDone` | src/acie/daemon/bootstrap.py:381-389 | A completion lowers the counter and announces the end exactly when it reaches zero. |
| `Bootstrap.CompleteAll` | src/acie/daemon/bootstrap.py:375-392 | Over a pass the end is announced exactly once, by the last completion, and never for an empty pass. |
| `Bootstrap.RunBootstrap` | src/acie/daemon/bootstrap.py:192-209 | However submissions, executions and completion callbacks interleave, whichever submissions are refused and whichever jobs fail: both passes are submitted in full, every accepted job is executed, without refusals in the order of the two passes, readiness is announced once, and without failures or refusals the committed index is the complete one. |
| `Bootstrap.IndexGoneFile` | src/acie/daemon/bootstrap.py:417-434 | The job for a vanished file commits nothing, or the empty text and then the deletes of a subset of the symbols left under its path; all of them if nothing fails. |
| `Bootstrap.DeleteSymbolsOf` | src/acie/daemon/bootstrap.py:428-432 | Each delete is committed by itself, so a failure leaves exactly the earlier ones done. |
| `Bootstrap.GoneFileDangling` | src/acie/daemon/bootstrap.py:417-434 | After the job for a vanished file none of its symbols is live, and exactly the relations from elsewhere to the symbols of the empty text are left dangling. |
| `Bootstrap.ModuleRelationDangles` | src/acie/daemon/lsp_enrichment.py:360-377 | A call that enrichment traced to the module symbol of a file stays live when the file is deleted and the symbol goes. |
| `EnrichmentScheduler.EnrichmentScheduler.TriggerNow` | src/acie/daemon/enrichment_scheduler.py:54-57 | The new state is the trigger step's. |
| `EnrichmentScheduler.EnrichmentScheduler.OnWatcherEdit` | src/acie/daemon/enrichment_scheduler.py:59-101 | The new state is the edit step's, immediate or debounced. |
| `EnrichmentScheduler.EnrichmentScheduler.OnQuietElapsed` | src/acie/daemon/enrichment_scheduler.py:103-108 | The new state is the quiet callback's. |
| `EnrichmentScheduler.EnrichmentScheduler.OnMaxWaitElapsed` | src/acie/daemon/enrichment_scheduler.py:126-139 | The new state is the maximum-wait callback's: outdated, early or due. |
| `EnrichmentScheduler.EnrichmentScheduler.OnPassEnd` | src/acie/daemon/enrichment_scheduler.py:172-177 | The new state is the end of a pass, with its follow-up if one is pending. |
| `SchedulingTheorems.ApplyKeeps` | src/acie/daemon/enrichment_scheduler.py:54-177 | Every event keeps what the invariant says of every repository. |
| `SchedulingTheorems.SingleFlight` | src/acie/daemon/enrichment_scheduler.py:152-177 | In every run at most one pass per repository is active, the running bit says which, and nothing pends without one. |
| `SchedulingTheorems.RequestsCoalesce` | src/acie/daemon/enrichment_scheduler.py:152-157 | While a pass runs, whatever arrives starts nothing and sets the pending bit, and only arrivals set it. |
| `SchedulingTheorems.OneFollowUp` | src/acie/daemon/enrichment_scheduler.py:162-177 | Any number of arrivals during a pass lead to exactly one further pass, none to none. |
| `SchedulingTheorems.NoRequestLost` | src/acie/daemon/enrichment_scheduler.py:54-177 | In every run each trigger and edit is followed by the start of a pass, or is held by the pending bit or by armed timers with current tokens. |
| `SchedulingTheorems.ArmedSinceFirstEdit` | src/acie/daemon/enrichment_scheduler.py:59-124 | Edits are pending since `t0` exactly when both timers are armed with current tokens, the longer due at `t0` plus the maximum wait. |
| `SchedulingTheorems.MaxWaitUnmoved` | src/acie/daemon/enrichment_scheduler.py:63-137 | No number of edits or early wake-ups moves that due time. |
| `SchedulingTheorems.MaxWaitHonoured` | src/acie/daemon/enrichment_scheduler.py:126-139 | Once it has passed, the next edit or the timer's callback puts a pass in flight or pending. |
| `SchedulingTheorems.OutdatedCallbackIdle` | src/acie/daemon/enrichment_scheduler.py:104-129 | The callback of a cancelled or replaced timer changes nothing. |
| `SchedulingTheorems.OthersUntouched` | src/acie/daemon/enrichment_scheduler.py:141-160 | No event of one repository changes anything about another. |
| `SchedulingTimers.EditDebounces` | src/acie/daemon/enrichment_scheduler.py:59-101 | An edit within the maximum wait starts nothing and arms the quiet timer anew, due one quiet period after it; the longer one stays due at the maximum wait after the first edit. |
| `SchedulingTimers.QuietDue` | src/acie/daemon/enrichment_scheduler.py:89-101 | In every run an armed quiet timer is due one quiet period after its repository's latest edit. |
| `SchedulingTimers.QuietHolds` | src/acie/daemon/enrichment_scheduler.py:89-101 | It stays armed until something arrives or starts. |
| `SchedulingTimers.ArrivalCancels` | src/acie/daemon/enrichment_scheduler.py:141-160 | What arrives cancels both timers, except a trigger while a pass runs; the end of a pass cancels them iff another follows. |
| `SchedulingTimers.StartsExactly` | src/acie/daemon/enrichment_scheduler.py:54-177 | A pass starts iff none runs and there is a trigger, an edit or callback at or past the maximum wait, or the quiet timer's own callback; or one ends with another pending. While one runs, exactly these set the pending bit. |
| `SchedulingTimers.UntokenedQuietFires` | src/acie/daemon/enrichment_scheduler.py:103-108 | A quiet callback without a token always fires or marks pending, and cancels the timers. |
| `Traversal.WalkIsBall` | src/acie/tools/graph.py:138-158 | After k levels the walk has exactly the nodes a path of at most k edges leads to. |
| `Traversal.LevelIsShell` | src/acie/tools/graph.py:138-158 | Each level holds exactly the nodes at that true shortest distance. |
| `Traversal.TraceIsExpanded` | src/acie/tools/graph.py:142-143 | The edges followed are exactly those of the nodes before the last level. |
| `BoundedWalk.Follow` | src/acie/tools/graph.py:143-156 | One edge: recorded nodes stay a prefix of the uncapped walk within the cap, and a cut is made only when a linked node is missing. |
| `BoundedWalk.Expand` | src/acie/tools/graph.py:143-156 | All edges of one node, the same. |
| `BoundedWalk.ExpandLevel` | src/acie/tools/impact_analysis.py:141-156 | One level: the nodes it adds are the next frontier. |
| `BoundedWalk.Explore` | src/acie/tools/affected_tests.py:138-156 | The whole loop: uncut it is the walk to the clamp; cut it is as many of the walk's nodes as fit, in its order, each with the edge that discovers it first. Cut or not, the edges are exactly those from listed nodes nearer than the clamp to listed nodes. |
| `WalkResults.EdgesExact` | src/acie/tools/graph.py:160-170 | Cut, or with an unrecorded edge or node past the frontier: exactly when a reachable node or an edge between listed nodes is not listed. |
| `WalkResults.NodesExact` | src/acie/tools/impact_analysis.py:159-168 | Cut, or with an unrecorded node past the frontier: exactly when a reachable node is not listed. |
| `WalkResults.BelowCapIsBall` | src/acie/tools/graph.py:138-158 | Fewer nodes than the cap means exactly the ball of radius `depth_clamp`. |
| `WalkResults.ListedNearestFirst` | src/acie/tools/graph.py:138-158 | Nodes are listed once, in order of their true distance from the root. |
| `WalkResults.ListedIsWithin` | src/acie/tools/graph.py:138-158 | Every listed node is reachable within the clamp. |
| `WalkResults.ViaLeadsFrom` | src/acie/tools/impact_analysis.py:141-156 | The edge that discovers a node leads to it from a node listed before, exactly one edge nearer to the root. |
| `DiscoveryOrder.DiscoveredByFirst` | src/acie/tools/graph.py:141-156 | Of the edges that could discover a node the one followed first does: that of the node sorting first, and there the first in order. |
| `DiscoveryOrder.DiscoveredInOrder` | src/acie/tools/graph.py:141-156 | Nodes of one distance are listed in the order of the edges that discover them. |
| `RelationGraph.EdgesAtNode` | src/acie/tools/graph.py:130-141 | A node's edges are exactly the live relations with the wanted predicate whose source, or upstream whose target, it is, by file, line, column, source and target. |
| `RelationGraph.WithinIsConnected` | src/acie/tools/graph.py:130-158 | Within k steps of the walk is within a chain of at most k live relations, each leading on from the one before: source to target downstream, target to source upstream. |
| `RelationGraph.ReachedIsRelated` | src/acie/tools/graph.py:130-158 | What the walk could reach at any depth is what some chain of relations leads to. |
| `RelationGraph.DiscoveryOf` | src/acie/tools/graph.py:141-156 | Each listed symbol is discovered by the first relation that leads to it from one relation nearer, by source and site, and symbols of one distance are listed in that order. |
| `GraphTool.Traverse` | src/acie/tools/graph.py:115-170 | Told by the relations themselves: nodes within the clamp, nearest first, in order of discovery; the edges are exactly the live relations between them that leave a node nearer than the clamp; `truncated` is false iff everything a chain leads to and every matching relation among the nodes is listed. |
| `GraphTool.Graph` | src/acie/tools/graph.py:71-179 | The tool with its argument errors, each raised exactly when the code raises it: call graphs follow `calls`, dependency graphs `imports`, downstream from source to target and upstream back; a node is rendered with its live symbol, if it has one. |
| `BlastRadius.TraverseUpstream` | src/acie/tools/impact_analysis.py:131-168 | From target to source: the symbols depend on the root by chains of live relations, each with the relation that discovered it; `truncated` is true iff something that depends on the root is not listed. |
| `BlastRadius.Summarize` | src/acie/tools/affected_tests.py:167-176 | One entry per reported symbol with its discovering predicate, and tier counts that sum to the total. |
| `BlastRadius.TierSize` | src/acie/tools/impact_analysis.py:172-175 | A tier counts the reported symbols discovered by a relation of that confidence. |
| `BlastRadius.ImpactAnalysis` | src/acie/tools/impact_analysis.py:96-185 | The tool's whole contract over `calls`, `imports` and `overrides`, errors and summary included. |
| `BlastRadius.AffectedTests` | src/acie/tools/affected_tests.py:96-186 | The tool's whole contract over `calls` and `overrides`: only symbols that pytest collects are reported. |
| `BlastRadius.ReportIsReachable` | src/acie/tools/affected_tests.py:158-176 | Every reported symbol depends on the root by a chain of live relations and names the relation that discovered it; a test is a function or method with a test name in a test file; untruncated, every symbol that depends on the root and that the tool reports at all is reported. |
| `BlastRadius.ImpactCoversTests` | src/acie/tools/impact_analysis.py:93 | If the impact analysis of a root is not truncated, every test `affected_tests` returns for it, under any caps, is among its affected symbols. |
| `PytestConventions.AfterLast` | src/acie/pytest_conventions.py:22-34 | What follows the last separator holds none, ends the string, and is everything if there was none. |
| `PytestConventions.TestFileByName` | src/acie/pytest_conventions.py:22-24 | Whatever its directory, a file is a test file iff it is named `test_*.py` or `*_test.py`. |
| `PytestConventions.TestByOwnName` | src/acie/pytest_conventions.py:27-34 | Whatever it is a member of, a definition is a test iff its own name starts with `test_`. |
| `ClassContexts.Round` | src/acie/adapters/python/extract_symbols.py:139-160 | One round flags exactly the classes with a base among the names flagged when it started. |
| `ClassContexts.ClassContexts` | src/acie/adapters/python/extract_symbols.py:122-164 | In at most as many rounds as classes: a class has a flag iff base edges by name lead from it to a class that names the marker, or for ABC has the metaclass. |
| `ClassContexts.FixedPoint` | src/acie/adapters/python/extract_symbols.py:139-162 | Once a round changes nothing, or after as many rounds as classes, the flags are the least fixed point. |
| `ClassContexts.GrowsOrStable` | src/acie/adapters/python/extract_symbols.py:138-162 | Until it is stable every round flags at least one more class. |
| `SelfBaseMethods.VisitClasses` | src/acie/adapters/python/extract_relations.py:237-247 | Of the classes of one name only the first counts, once; it contributes its methods or its bases. |
| `SelfBaseMethods.FindBaseMethods` | src/acie/adapters/python/extract_relations.py:207-248 | Ends on cyclic inheritance; the candidates are exactly the methods of the classes at which chains of base names through other classes without the method end, and deferred are exactly the imported names at which such chains end, each once. |
| `SelfBaseMethods.ClosedHoldsAll` | src/acie/adapters/python/extract_relations.py:216-247 | The worklist read to its end holds every name that base edges lead to. |
| `SelfBaseMethods.InPlayIsChain` | src/acie/adapters/python/extract_relations.py:213-247 | A name is in play iff such a chain of base names ends at it: each the base of the first class of the name before, which does not define the method. |
| `MergePolicy.MergeNeverWeakens` | src/acie/daemon/merge_policy.py:20-59 | No enrichment write deletes or weakens an extracted or inferred row. |
| `MergePolicy.WriteSettles` | src/acie/daemon/merge_policy.py:20-99 | One write of any confidence, target set and sibling policy, per row: refused it changes nothing; else its row is live, exactly the ambiguous rows at its place that give way are gone, and every other row is as it was. |
| `MergePolicy.RelationStore.ApplyEnrichmentWrite` | src/acie/daemon/merge_policy.py:20-59 | The outcome, the live contents and the history one write leaves: applied unless something more certain is held, with the number of rows that went. |
| `MergePolicy.RelationStore.RetireStaleSiblings` | src/acie/daemon/merge_policy.py:61-99 | Deletes and counts exactly the stale siblings. |
| `MergePolicy.EnrichSite` | src/acie/daemon/lsp_enrichment.py:103-124 | All candidates of one site are merged with the pass's target set, inferred if alone and ambiguous together. A lone candidate ends live as inferred with no ambiguous alternative beside it and all else unchanged, unless it is held as extracted; then nothing changes. |
| `MergePolicy.MergeAllSettles` | src/acie/daemon/merge_policy.py:20-99 | What each key holds after any part of an ambiguous pass, in closed form. |
| `MergePolicy.MergeOrderIrrelevant` | src/acie/daemon/merge_policy.py:20-99 | The final rows of an ambiguous pass are the same in every order. |
| `MergePolicy.PassKeepsAndAdds` | src/acie/daemon/merge_policy.py:20-99 | Every target ends live, and no row that is extracted, inferred or elsewhere changes. |
| `MergePolicy.StaleRowsRetired` | src/acie/daemon/merge_policy.py:74-99 | Only targets of the pass remain ambiguous there, iff some target was not held more certainly or nothing else was ambiguous before. |
| `MergePolicy.StaleRowSurvives` | src/acie/daemon/merge_policy.py:41-58 | With both candidates held as inferred a pass changes nothing, and a stale ambiguous row stays. |
| `Explain.CollectEntries` | src/acie/tools/explain.py:117-140 | The collected entries, or the error, are those the specification gives. |
| `Explain.EntriesOfHistory` | src/acie/tools/explain.py:157-177 | Where live table and history agree: one entry per content row, deleted iff not live, and never an index error. |
| `Explain.ExplainNeverFails` | src/acie/tools/explain.py:128-131 | After every sequence of upserts and of deletes of live keys the last row of an empty history is never read. |
| `Explain.ExplainFailsExactly` | src/acie/tools/explain.py:167-168 | With deletes of any keys the index error comes up exactly for a key deleted but never observed. |
| `Explain.DeletedNeverObserved` | src/acie/tools/explain.py:167-168 | After the delete of a key that was never observed the index error comes up. |
| `Explain.CurrentFactFirst` | src/acie/tools/explain.py:101-102 | With increasing timestamps the current fact sorts first and the history follows newest first, strictly ordered. |
| `Explain.CurrentFirstExactly` | src/acie/tools/explain.py:101-102 | Whatever the timestamps: the current fact sorts first iff no content row before the last has a greater sort key. |
| `Explain.LateWriteSortsBehind` | src/acie/daemon/lsp_enrichment.py:148-158 | A write stamped before an index job but queued behind it leaves the current fact second. |
| `Explain.TimelineIsChronological` | src/acie/storage/relation_store.py:99-157 | Observations stamped in order, those that add a row strictly later than the rows before, leave a chronological history. |
| `Explain.Explain` | src/acie/tools/explain.py:57-114 | The errors in the order the code raises them, and what a page holds: without a cursor or after the key of item d - 1 the items from d on, up to the limit, truncated iff more follow and then with the key of its last item; after any other cursor only items past it, all of them unless truncated. |
| `Explain.ReadPages` | src/acie/tools/pagination.py:94-117 | A client that asks again with each cursor until a page is not truncated ends, and has read the whole sorted list once and in order, in as many requests as it fills pages. |
| `Explain.ReadHistory` | src/acie/tools/explain.py:101-114 | Such a client reads the current fact and then every earlier content row, newest first, each once. |
| `Explain.ReadSymbolHistory` | src/acie/tools/explain.py:195-212 | So it does for a symbol under its sort key, after any deletes of live keys and any upserts stamped in order. |
| `Explain.ReadRelationHistory` | src/acie/tools/explain.py:180-192 | And for a relation under its sort key. |
| `Explain.SymbolKeyTells` | src/acie/tools/explain.py:195-212 | Two rows of a symbol share a sort key iff they differ in nothing but being a stub. |
| `Explain.RelationKeyTells` | src/acie/tools/explain.py:180-192 | Two rows of a relation share a sort key iff they are equal. |
| `Explain.ConfidencesByName` | src/acie/tools/explain.py:180-192 | A relation's sort key is its time, the name of its confidence, its provider and its version. |
| `Pagination.ResumeAfter` | src/acie/tools/pagination.py:72-91 | Resuming after an item's key leaves exactly the items after it, ascending or descending. |
| `Pagination.OnlyBadLimitsRefused` | src/acie/tools/pagination.py:45-49 | Exactly non-positive limits are refused; a page is a prefix, and there is a cursor iff it is truncated. |
| `Pagination.PaginateFrom` | src/acie/tools/pagination.py:72-117 | The page after the key of item d - 1 holds the items from d on, up to the limit. |
| `Pagination.PaginatePast` | src/acie/tools/pagination.py:72-117 | After any cursor a page holds only items past it, and all of them unless truncated. |
| `Pagination.WholeWalk` | src/acie/tools/pagination.py:94-117 | Following the cursor from the start yields every item once and in order, in as many pages as the items fill and at least one, and only the last is not truncated. |
| `Tuples.TupleLeTotal` | src/acie/tools/pagination.py:86-89 | Any two key tuples compare, and only equal ones both ways. |
| `Tuples.TupleLeTransitive` | src/acie/tools/pagination.py:86-89 | The lexicographic order of key tuples is transitive. |
| `Tuples.FirstDifferenceDecides` | src/acie/tools/pagination.py:86-89 | The first atoms that differ decide, numbers by size and strings by their characters. |
| `Ordering.FirstCharacterDecides` | src/acie/tools/graph.py:141-142 | Of two strings the first characters that differ decide. |
| `Ordering.SortOrders` | src/acie/tools/graph.py:141-142 | Sorting by a total preorder orders. |
| `Ordering.SortPermutes` | src/acie/tools/graph.py:141-142 | Sorting only rearranges. |

## Left out

- Tree-sitter walking, decorator and fixture heuristics, import-statement parsing: the model starts from the class lists, base names and extracted facts they produce.
- The extractor's promises of one file, `Indexer.Local` and `Indexer.SpeaksOnce`, are hypotheses of the theorems about passes, read from the code that builds each relation; that ids are distinct and owned is proved in `SymbolIds`.
- SQL text, WAL retries, schema migrations: a store is a live table and a history per key, and a connection is a committed and a working copy.
- Separate connections per store in `index_file`: only the daemon's shared connection is modelled; with separate ones each write commits by itself.
- The write queue is modelled as steps over values, not as classes with locks, because its threads interleave; in-place update is the step function.
- A timed `close`: a stop may then precede follow-ups by design; the theorems are for the untimed one.
- Starting a writer's database connection can fail; the model has it as a refused submit, and does not say which exception.
- Bootstrap readiness flags, worktree seeding, the head fingerprint and the migration pass: they look at the disk or at git outside their lock.
- Enrichment writes against symbols that have since been removed: merge jobs use symbols read earlier on another connection, so no referential integrity is claimed across them.
- IndexGoneFile: what a failed delete of a vanished file's symbols leaves uncommitted on the connection is open; only the committed state is described then.
- `_on_quiet_elapsed` without a token is modelled in the class, but runs contain only callbacks of timers, which always carry one.
- Timer delays are integers and a callback may come at any time; no clock drives them.
- `architecture` beyond cycles: granularity, node cap, layer violations and rendering.
- LSP requests, the worklist of unresolved sites and pyright processes; `EnrichSite` starts from the candidates found.
- Cursor encoding as base64 and JSON, and cursors of the wrong shape: the model passes the key itself.
- Pagination over duplicate keys: `find_references` orders by a key without the target, so strict order is a hypothesis here.
- Rendering of symbols and relations (`full`), generation numbers in results, logging.
- Strings compare by character code; paths are taken as given.
