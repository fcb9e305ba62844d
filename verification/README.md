# Verified models of the code view's algorithms

This project models, in Dafny, the algorithms behind the code view and the index it is built on, and proves what
they promise: the Python analyzer's class linearisation, binding analysis and import resolution; the local server's
graph search, record stream, generation merge and command approval; the binary codec of the SQLite wrapper; the
inheritance cache; the incremental refresh; the canvas projection; and the XML attribute printer and parser.
`dafny verify dfyconfig.toml` checks all of it.

Code that the source writes as loops and updates is a method or a class here, proved against a specification; the
properties are then lemmas about the specification.

| files | what they model |
|---|---|
| `ClassLinearization` | C3 linearisation with its merge loop and active set |
| `PythonBodies`, `BindingEvents`, `BindingRuns`, `BindingOutcomes`, `BindingSoundness`, `BindingLimits`, `BindingPrecision`, `BindingStores` | a module body language with its runs, the events recorded for it, and exactly how the two relate |
| `ImportResolution`, `ImportResolver`, `ImportFacts`, `ImportClaims`, `ImportAnswers` | replaying module bodies through cycles and conditional imports, and what a dotted name then resolves to |
| `EntrySet` | what an entry executes, as the analyzer and as the host compute it |
| `TextOrder`, `JsonText`, `GraphSnapshots`, `GraphStream` | the ordered record stream between analyzer and host, down to the length of its lines |
| `GraphSearch` | the breadth-first query bounded by depth and size |
| `GenerationMerge`, `HostRuntime` | keeping the last good facts of files that do not parse, over runs of generations |
| `CommandApproval` | one approval for one start |
| `BinaryCodec`, `BinaryBuffer` | choosing an offset, encoding, decoding in place, buffer sizes |
| `HierarchyCache` | the inheritance edges between two nodes of a possibly cyclic graph |
| `RefreshPlan` | what an incremental refresh clears and indexes again |
| `EdgeAggregation`, `VisibleNodes`, `VisibleGraph`, `VisibleGraphFacts`, `VisibleGraphLaws`, `VisibleGraphLimits`, `RevealSelection` | the filtered, collapsed and aggregated graph, and revealing a selection in it |
| `XmlAttribute`, `XmlRoundTrip`, `XmlForms` | escaping, entities, printing and parsing an attribute |
| `Wrappers`, `Reachability` | optional values, results, and walks in a directed graph |

Paths, ids and dotted names are strings, or sequences of their parts, under one total order. The outcomes of processes,
timers and file reads are inputs.

## Where the code does less than it promises

Each of these is kept as the code has it and stated by a lemma.

- A walrus inside a subscript target may be skipped by a short circuit, yet the analysis takes its name for assigned
  (`BindingLimits.SkippedSubscriptWalrus`). Which statements are affected can be read off their text:
  `BindingOutcomes` computes how an expression can end without assigning a name, and every such ending has a run. By
  `BindingLimits.StatementExact` a statement is recorded rightly in every context if and only if it cannot finish
  without assigning a name recorded for it; the soundness theorem asks this of the statements visited with certainty.
- The analysis does not look into functions that declare a module name global, so a call can rebind a name it takes for
  settled (`BindingLimits.RebindingUnrecorded`). Soundness holds for all other names, and for all names if those are
  unsure in the table; `BindingLimits.CallExact` says that a call demands exactly this.
- The host refuses lines of more than 1,000,000 bytes, which the analyzer does not check: a docstring of that length
  (`GraphStream.LongDocstringRefused`), or some 33 thousand reachable nodes, whose ids share one line
  (`GraphStream.ManyReachableRefused`), make it refuse the whole graph. `GraphStream.ToDictOk` says exactly which graphs
  are read.
- Merging two generations can leave the entry of the project unknown (`GenerationMerge.EntryLost`);
  `GenerationMerge.EntryKnownIff` says exactly when it does not.
- The storage closes includes and imports separately, so a refresh can clear a file that a kept source needs through a
  chain that mixes the two (`RefreshPlan.MixedChainLoses`); `RefreshPlan.NothingLostIff` says exactly when it does not.
- An indexing that fails without a message leaves a command approval standing
  (`CommandApproval.EmptyFailureKeepsApproval`). `CommandApproval.StartUsesApproval` says that this is the only way in
  which an indexing event can come between an approval and its start.
- An attribute value that contains `&#x` is not restored by printing and parsing, and may be printed with raw quotes;
  `XmlRoundTrip.ParsesBackIff` and `XmlRoundTrip.RawOnlyWherePassed` are exact. In UTF-8 a value whose lead bytes
  lack their bytes is not restored either, nor is a name that starts with a byte order mark
  (`XmlRoundTrip.ParsesBackInUtf8Iff`).
- A collapsed group inside another collapsed group stays visible when it hides something itself; when exactly is
  `VisibleGraphFacts.NestedGroupStaysShown`. An external symbol that is grouped by package and at the same time is a
  collapsed group leaves the nodes inside it without a displayed representative
  (`VisibleGraphLimits.GroupedGroupHides`; exactly then, by `VisibleGraphFacts.RepresentativesShownIff`). Keys of
  displayed edges can coincide for ids that contain a bar, and calls in opposite directions then become one edge
  (`VisibleGraphLimits.KeysCanCoincide`).
- A malformed text makes `getBinary` overwrite the front of its own buffer before it reports the error
  (`BinaryBuffer.Buffer.GetBinary`).

## Model

| member | source | states |
|---|---|---|
| ClassLinearization.MergeCompleteIffConsistent | services/python-analyzer/analyzer.py:2947-2962 | the merge loop uses every element if and only if some total order extends every parent linearisation and the parent list; it breaks early only when there is no such order |
| ClassLinearization.MergeExtends | services/python-analyzer/analyzer.py:2948-2961 | a completed merge contains every sequence in its own order |
| ClassLinearization.MergeTakes | services/python-analyzer/analyzer.py:2948-2961 | finished or not, the merge takes no element twice and none from elsewhere; finished, it takes all |
| ClassLinearization.MergeTakesFirstOffered | services/python-analyzer/analyzer.py:2948-2961 | each element taken is the head of the first remaining sequence whose head is in no remaining tail, and the merge only stops when no sequence offers one |
| ClassLinearization.MergeIsDetermined | services/python-analyzer/analyzer.py:2948-2961 | nothing else does so: this determines the merge, complete or not |
| ClassLinearization.MergeSequences | services/python-analyzer/analyzer.py:2945-2961 | the loop that pops list heads takes, each time, the head of the first sequence whose head stands behind no other head, until none offers one; it completes exactly for consistent sequences |
| ClassLinearization.LinearizeClass | services/python-analyzer/analyzer.py:2939-2964 | the recursion with its active set ends on every inheritance graph, cyclic ones included, and computes the linearisation, which `MroTakesFirstOffered` determines |
| ClassLinearization.Linearize | services/python-analyzer/analyzer.py:2939-2964 | every linearisation starts with the class itself |
| ClassLinearization.ActiveIrrelevant | services/python-analyzer/analyzer.py:2940-2946 | on acyclic graphs the active set does not influence the result |
| ClassLinearization.MroListsAncestorsOnce | services/python-analyzer/analyzer.py:2938-2964 | on acyclic graphs no class is listed twice and only ancestors are listed, even where a merge got stuck |
| ClassLinearization.MroListsEveryAncestor | services/python-analyzer/analyzer.py:2938-2964 | when all merges complete, every ancestor is listed |
| ClassLinearization.MroKeepsOrders | services/python-analyzer/analyzer.py:2942-2961 | then the base order and every base's linearisation are subsequences of the result |
| ClassLinearization.BasesInOrder | services/python-analyzer/analyzer.py:2942-2961 | of two bases the one whose edge was added first comes first |
| ClassLinearization.MroTakesFirstOffered | services/python-analyzer/analyzer.py:2938-2964 | on any graph, behind the class, each element is the first one offered by the linearisations of the bases, in the order of their edges, and then by the list of bases; a class met again stands for itself |
| ClassLinearization.MroMonotonic | services/python-analyzer/analyzer.py:2938-2964 | and so is the linearisation of every ancestor, however far up |
| BindingSoundness.ModuleSound | services/python-analyzer/analyzer.py:936-1082 | soundness of the binding analysis: after every normally finishing run of a module body, under any values of opaque tests and any rebinding by called functions, a definite entry is bound by that kind of statement and a name without entry is unbound, for every name no function declares global; for all names if those some function does are unsure |
| BindingSoundness.StmtSound | services/python-analyzer/analyzer.py:1036-1079 | the same for one statement from any sound table |
| BindingRuns.ExprRuns | services/python-analyzer/analyzer.py:939-988 | what the events of an expression mean for each of its runs: walrus, and/or, comparison chains and conditional expressions with their short circuits |
| BindingRuns.LiteralTruthRuns | services/python-analyzer/analyzer.py:554-571 | a literal truth is the truth of the value in every run |
| BindingRuns.Havoc | services/python-analyzer/analyzer.py:1155-1158 | uncertain events allow any change to the names they mention and to no others |
| BindingRuns.ExecTouches | services/python-analyzer/analyzer.py:1281-1343 | the collected names of a statement cover everything it can bind or unbind, however it ends |
| BindingSoundness.WhileSound | services/python-analyzer/analyzer.py:1010-1034 | a while loop run any number of times is covered by one record of its test and its uncertain names |
| BindingSoundness.ForSound | services/python-analyzer/analyzer.py:1070-1075 | so is a for loop, whose target may be stored any number of times |
| BindingSoundness.AssignSound | services/python-analyzer/analyzer.py:1036-1043 | assignments: value first, then the targets, including subscript targets, as long as no recorded name can be skipped |
| BindingSoundness.AugmentSound | services/python-analyzer/analyzer.py:1044-1045 | augmented assignments to subscripts and attributes, as long as no recorded name that may stay definite can be skipped |
| BindingOutcomes.RunCovered | services/python-analyzer/analyzer.py:939-988 | every run of an expression that leaves a name unassigned ends in one of the outcomes computed from its text |
| BindingOutcomes.Realise | services/python-analyzer/analyzer.py:939-988 | each of these outcomes has a run, from every state, that leaves the name alone |
| BindingOutcomes.TargetsCovered | services/python-analyzer/analyzer.py:925-934 | a store that leaves a name unassigned had a way around it in every target |
| BindingOutcomes.RealiseTargets | services/python-analyzer/analyzer.py:925-934 | and where there is such a way, some run takes it |
| BindingEvents.ModuleExports | services/python-analyzer/analyzer.py:1135-1189 | the loop over a module's events computes the table folded from them |
| BindingStores.LastBindingIsDefinite | services/python-analyzer/analyzer.py:1159-1189 | precision: a name whose last statement to touch it assigns or defines it, be it in branches that constants select, has a definite entry of that kind, whatever came before; unsure only for a definition of an ambiguous name |
| BindingStores.LastAugmentedKeeps | services/python-analyzer/analyzer.py:1159-1169 | a name last touched by an augmented assignment is definite exactly if it was right before the store, and unsure otherwise |
| BindingPrecision.AlwaysRunsIsDefinite | services/python-analyzer/analyzer.py:939-988 | exactly the walruses that no short circuit can skip are recorded as definite |
| BindingPrecision.TruthIsKnown | services/python-analyzer/analyzer.py:554-571 | the truth of an expression is taken as known exactly for constants and displays, and false exactly for what is empty, zero or none; comparing constants gives what comparing their values gives |
| BindingPrecision.WalrusesRecorded | services/python-analyzer/analyzer.py:939-988 | exactly the walruses that constants allow an evaluation to pass are recorded, exactly those that every evaluation must pass as definite |
| BindingStores.TouchedAreRecorded | services/python-analyzer/analyzer.py:990-1079 | a statement visited with certainty records exactly the names that constants allow it to store, bind or delete |
| BindingStores.CollectedMeans | services/python-analyzer/analyzer.py:1281-1343 | exactly the names stored, bound or deleted somewhere in a statement are collected |
| BindingStores.EntryIff | services/python-analyzer/analyzer.py:1135-1189 | the table has entries for exactly the names that some statement of the body may touch |
| BindingStores.UntouchedKeepsEntry | services/python-analyzer/analyzer.py:1036-1079 | a statement changes no entry of a name it cannot touch |
| BindingLimits.StatementExact | services/python-analyzer/analyzer.py:1036-1079 | a statement is recorded rightly in every context exactly when it cannot finish without assigning a name recorded for it; a loop over an empty literal, exactly when its target makes no name definite |
| BindingLimits.CallExact | services/python-analyzer/analyzer.py:1049-1050 | a call keeps a right table right exactly when all names that functions declare global are unsure in it |
| BindingLimits.RebindingUnrecorded | services/python-analyzer/analyzer.py:1049-1050 | a function that declares a name global and is called binds it without any entry |
| BindingLimits.SkippedSubscriptWalrus | services/python-analyzer/analyzer.py:925-934 | a walrus skipped inside a subscript target is nevertheless recorded as an assignment: the analysis is unsound there |
| ImportFacts.ReplaysOnce | services/python-analyzer/analyzer.py:1118-1217 | over any run of imports and resolutions from an empty state nothing is left loading and the body of each loaded module, and of no other, has been replayed exactly once |
| ImportFacts.ImportLoadsPrefixes | services/python-analyzer/analyzer.py:1103-1116 | an import loads every module among the prefixes of its name and succeeds exactly when no prefix has failed |
| ImportFacts.ImportingAgain | services/python-analyzer/analyzer.py:1103-1116 | importing a name again at once replays nothing, changes nothing and answers the same, namespace packages included |
| ImportFacts.BoundPackageStays | services/python-analyzer/analyzer.py:1118-1217 | whatever bodies a load replays, through cycles and conditional imports, a bound namespace package stays bound and certain |
| ImportClaims.LoadKeeps | services/python-analyzer/analyzer.py:1118-1217 | so does any other binding, or doubt, of a name that no event of its own module touches and that is no submodule; of a submodule, up to its becoming an attribute |
| ImportResolution.Load | services/python-analyzer/analyzer.py:1118-1132 | loading ends on every module graph, forgets nothing, restores the set of loading modules and loads the module if it exists |
| ImportResolution.Replay | services/python-analyzer/analyzer.py:1135-1215 | replaying one event of a body forgets nothing that is loaded and leaves the loading set as it was |
| ImportResolution.Resolve | services/python-analyzer/analyzer.py:1219-1279 | resolving a name ends, forgets nothing that is loaded and leaves the loading set as it was |
| ImportResolver.Analyzer.ModuleExports | services/python-analyzer/analyzer.py:1118-1217 | in place: the state becomes the loaded state, its exports are returned, and the loading set is as it was |
| ImportResolver.Analyzer.ReplayEvent | services/python-analyzer/analyzer.py:1135-1215 | one event in place; a conditional import is tried on a copy, of which only doubt is kept |
| ImportResolver.Analyzer.PerformImport | services/python-analyzer/analyzer.py:1190-1213 | the two import statements, their failures, and the attribute a package gains; what is then bound, `PlainImportAnswers` and `FromImportAnswers` say |
| ImportResolver.Analyzer.Try | services/python-analyzer/analyzer.py:1139-1154 | a conditional import as it would go if it were taken |
| ImportResolver.Analyzer.ImportModule | services/python-analyzer/analyzer.py:1103-1116 | the loop over the prefixes, in place |
| ImportResolver.Analyzer.ResolveAbsolute | services/python-analyzer/analyzer.py:1219-1279 | resolving a name, in place; the answers are those of the laws of `ImportAnswers` |
| ImportAnswers.PlainImportAnswers | services/python-analyzer/analyzer.py:1190-1215 | when the last event for x is `import a.b as x`, m.x resolves to a.b, and after `import x.b` to x: as a module, an external name, or not at all |
| ImportAnswers.FromImportAnswers | services/python-analyzer/analyzer.py:1198-1215 | when it is `from a import b as x`, m.x resolves to what a.b resolved to at that moment |
| ImportAnswers.DefinitionAnswers | services/python-analyzer/analyzer.py:1171-1189 | when it is a definition, to the definition found |
| ImportAnswers.AssignmentAnswers | services/python-analyzer/analyzer.py:1158-1170 | when it is an assignment, to the variable of the module; an augmented one only where the name was bound and in no doubt |
| ImportAnswers.DoubtfulAnswers | services/python-analyzer/analyzer.py:1136-1157 | after a doubtful binding or a wildcard import, to nothing |
| ImportAnswers.MissingAnswers | services/python-analyzer/analyzer.py:1248-1266 | a name that its module never binds is unresolved |
| ImportAnswers.EarlierDoubtAnswers | services/python-analyzer/analyzer.py:1132-1134 | doubt cast on a name before its module is loaded is not dispelled by loading it |
| ImportAnswers.SubmoduleAnswers | services/python-analyzer/analyzer.py:1248-1266 | the name of a submodule that its package does not bind resolves to the submodule, and exactly when it does not |
| ImportAnswers.ShadowedSubmoduleAnswers | services/python-analyzer/analyzer.py:1103-1116 | one that its package does bind resolves to that binding or to the submodule, or is in doubt |
| ImportAnswers.NamespaceAnswers | services/python-analyzer/analyzer.py:1248-1266 | a name in a package without a body is a submodule or unresolved |
| ImportAnswers.TopLevelAnswers | services/python-analyzer/analyzer.py:1267-1279 | exactly when any other name is a module, known, external or unresolved |
| ImportAnswers.RuledOutIff | services/python-analyzer/analyzer.py:1228-1238 | exactly which names are ruled out by collisions, blocking modules and ambiguity |
| ImportAnswers.InternalIff | services/python-analyzer/analyzer.py:1096-1101 | exactly which names belong to the repository |
| ImportAnswers.ImportBindsAttribute | services/python-analyzer/analyzer.py:1103-1116 | importing a.b loads b and makes it an attribute of a, beyond doubt |
| ImportAnswers.FromBindsSubmodule | services/python-analyzer/analyzer.py:1208-1212 | so does `from a import b`, even when b was loaded before |
| ImportAnswers.FailureSpreads | services/python-analyzer/analyzer.py:1190-1193 | a body that imports a name fails exactly if some prefix of the name has failed |
| ImportAnswers.FailureSpreadsFrom | services/python-analyzer/analyzer.py:1206-1210 | and one that takes a name, exactly if the module it takes it from has, or, for a submodule, some part of its name has |
| ImportAnswers.CircularImportFails | services/python-analyzer/analyzer.py:1253-1256 | in a circular import a name that is not bound yet is unresolved and makes the module still loading fail |
| ImportAnswers.ConditionalOnlyDoubts | services/python-analyzer/analyzer.py:1139-1154 | a conditional import binds and fails nothing and casts doubt on exactly the names that taking it would bind differently or put in doubt |
| EntrySet.ReachableNodes | services/python-analyzer/analyzer.py:232-264 | the analyzer's list is ascending and holds exactly the executed nodes, with the initialisers of every module they lie in, and the containers around them |
| EntrySet.ParentsMean | services/python-analyzer/analyzer.py:240-242 | the container of a node is the source of its last containment edge |
| EntrySet.InitializersMean | services/python-analyzer/analyzer.py:250-255 | executing a file also executes the initialisers of all directories around it, however far up |
| EntrySet.Executed | services/python-analyzer/analyzer.py:240-257 | the worklist yields exactly what the entry reaches by edges other than containment, import contexts and initialisers |
| EntrySet.AddContainers | services/python-analyzer/analyzer.py:258-263 | the walk upwards adds exactly the containers of a node |
| EntrySet.EntrySetIsLeast | services/python-analyzer/analyzer.py:232-264 | the entry set is contained in every set that holds an executed closure of the entry and is closed upwards |
| EntrySet.EntryNodes | services/local-server/src/Graph.cpp:348-366 | the host's worklist yields exactly the reachable nodes and their containers |
| EntrySet.ViewOf | services/local-server/src/Graph.cpp:337-388 | the two views, their nodes and the edges between them by ascending id, and the refused names |
| EntrySet.ViewAddsNothingIff | services/local-server/src/Graph.cpp:352-366 | the host adds nothing exactly when the set is closed under containers |
| EntrySet.EntryViewIsEntrySet | services/local-server/src/Graph.cpp:346-366 | with one container per node, the host's entry view is the analyzer's entry set |
| GraphStream.Transfer | services/python-analyzer/analyzer.py:209-318 | a graph that passes the analyzer's checks is read back by the host if and only if it fits: same project, nodes, edges and diagnostics |
| GraphStream.WriteNdjson | services/python-analyzer/analyzer.py:3395-3403 | the writer produces the document's records in order |
| GraphStream.ToDictOk | services/python-analyzer/analyzer.py:209-318 | a graph that passes the analyzer's checks becomes a document the host accepts exactly when it keeps the host's limits on counts and lines, kinds, ids and positions |
| GraphStream.LongDocstringRefused | services/local-server/src/Graph.cpp:151-152 | a module with a docstring of a million characters passes the analyzer's checks and is refused by the host |
| GraphStream.ManyReachableRefused | services/local-server/src/Graph.cpp:151-152 | so is every graph with 33,334 reachable nodes |
| GraphStream.FromNdjson | services/local-server/src/Graph.cpp:129-318 | the reader accepts exactly the streams that spell some document in good order with lines of at most 1,000,000 bytes, and returns that document |
| GraphStream.DocumentSorted | services/local-server/src/Graph.cpp:102-127 | neighbour checks make the accepted document sorted throughout |
| GraphStream.DocumentOrder | services/local-server/src/Graph.cpp:102-117 | in which order: nodes by qualified name, kind and id, edges by kind, source and target |
| GraphStream.CheckReachable | services/local-server/src/Graph.cpp:299-316 | the reachable list holds known ids, none twice, and the entry if there is one |
| GraphSnapshots.RebuildIndexes | services/local-server/src/Graph.cpp:320-335 | rebuilding fails exactly on a dangling edge and otherwise indexes every edge at both ends |
| GraphSearch.Graph | services/local-server/src/Graph.cpp:390-459 | the query is refused exactly for an unknown root or bad bounds; otherwise the answer is exact |
| GraphSearch.Search | services/local-server/src/Graph.cpp:410-436 | nodes come out at their true distance and in its order, at most `limit` of them; the frontier is exactly the unselected neighbours of selected nodes nearer than the depth, and empty exactly when the whole ball is selected |
| GraphSearch.StepsMean | services/local-server/src/Graph.cpp:412-424 | which edges a search follows in each direction |
| GraphSearch.SelectEdges | services/local-server/src/Graph.cpp:437-447 | exactly the allowed edges between selected nodes |
| GenerationMerge.PreservingParseErrorsFrom | services/local-server/src/Graph.cpp:544-605 | the merge of a generation with the last good one |
| GenerationMerge.MergedNoDangling | services/local-server/src/Graph.cpp:552-588 | the merge never leaves a dangling edge, so rebuilding the indexes cannot fail |
| GenerationMerge.EntryKnownIff | services/local-server/src/Graph.cpp:590-602 | when the merged entry is a known, reachable node |
| GenerationMerge.EntryLost | services/local-server/src/Graph.cpp:600-602 | two documents the host accepts whose merge names an entry it does not contain |
| GenerationMerge.HostNodesOverRuns | services/local-server/src/Runtime.cpp:303-308 | over any run, files that parse show the fresh nodes and a file that does not shows, marked stale, those of the last generation taken directly from the analyzer for it |
| GenerationMerge.HostEdgesOverRuns | services/local-server/src/Graph.cpp:562-588 | over any run, the host has exactly the edges some generation brought and every one since restored: an edge whose path or end lies in a file that does not parse is restored as long as both ends are displayed; a fresh edge is taken exactly if neither its path nor an end lies in one, and no older edge with its id is restored |
| GenerationMerge.EdgesKeptOverRuns | services/local-server/src/Graph.cpp:562-588 | the same where each edge has one id, without regard to older edges |
| GenerationMerge.MergedEdgeMeans | services/local-server/src/Graph.cpp:562-588 | the same for one merge, and which of two edges with one id wins |
| GenerationMerge.HostReachableOverRuns | services/local-server/src/Graph.cpp:590-599 | over any run, a node counts as reachable exactly if it did in some generation since the last one without errors, and has been displayed ever since |
| GenerationMerge.StaleIsMarked | services/local-server/src/Graph.cpp:573-581 | a stale node is the node it was, marked once |
| GenerationMerge.FreshEntryFirst | services/local-server/src/Graph.cpp:600-602 | the fresh entry gives way to the last good one exactly if it does not survive |
| GenerationMerge.HostClosedOverRuns | services/local-server/src/Runtime.cpp:303-308 | over any run no edge dangles and every reachable id is known |
| HostRuntime.AnalyzerRunner.AcceptResult | services/local-server/src/Runtime.cpp:290-316 | a usable result becomes the next generation, merged if needed, and continues the run; any failure leaves graph and generation alone |
| HostRuntime.RunGrows | services/local-server/src/Runtime.cpp:303-308 | accepting one more generation continues the run the host's graph stands for |
| HostRuntime.AnalyzerRunner.RequestReindex | services/local-server/src/Runtime.cpp:348-356 | a request starts a run or is noted while one is in progress |
| HostRuntime.AnalyzerRunner.Finished | services/local-server/src/Runtime.cpp:388-419 | a noted request starts the next run when one ends |
| HostRuntime.RequestsAreAnswered | services/local-server/src/Runtime.cpp:348-420 | every request is answered by a run that starts then or later, unless one that will be followed is still going on |
| HostRuntime.StartsWereRequested | services/local-server/src/Runtime.cpp:348-420 | no run starts unasked: each was requested just then, or during the run that just ended, and by a request that started no other |
| HostRuntime.HostState.IndexingSucceeded | services/local-server/src/Runtime.cpp:219-234 | a success installs configuration and graph as the next generation |
| HostRuntime.HostState.IndexingFailed | services/local-server/src/Runtime.cpp:236-246 | a failure keeps them and records its message |
| CommandApproval.StartCommandController.Approve | services/local-server/src/Runtime.cpp:647-667 | when approval is granted, what it records, and that a refusal withdraws an earlier one |
| CommandApproval.StartCommandController.Start | services/local-server/src/Runtime.cpp:669-708 | when a start is granted, that it uses up the approval whatever becomes of the launch, and that it starts exactly the configured command |
| CommandApproval.StartCommandController.ProcessStarted | services/local-server/src/Runtime.cpp:685 | a launch that took too long may still succeed; only then does the process have a group |
| CommandApproval.StartCommandController.Stop | services/local-server/src/Runtime.cpp:734-753 | stopping withdraws any approval, however it ends |
| CommandApproval.StartCommandController.ProcessExited | services/local-server/src/Runtime.cpp:686-691 | the end of the process leaves nothing running and no group |
| CommandApproval.StartUsesApproval | services/local-server/src/Runtime.cpp:641-708 | in every interleaving a launch uses an earlier approval, given when exactly this generation was displayed, of the root and the non-empty argv it launches, with manual starts and the command line allowing it, and with no launch, approval, stop or successful indexing in between; and no indexing event at all, if and only if no indexing failed silently there |
| CommandApproval.ApprovedWasDisplayed | services/local-server/src/Runtime.cpp:653-654 | approval is only ever given for the generation displayed |
| CommandApproval.ApprovalGrantedIff | services/local-server/src/Runtime.cpp:647-667 | in any run, exactly when approval is granted; a refusal leaves none |
| CommandApproval.ApprovedStartLaunches | services/local-server/src/Runtime.cpp:669-708 | a start right after an approval is launched |
| CommandApproval.GenerationsCountSuccesses | services/local-server/src/Runtime.cpp:219-246 | the generation counts the successful indexings, and the configuration is that of the last |
| CommandApproval.GroupIsRunning | services/local-server/src/Runtime.cpp:669-753 | a process group is always that of a running process |
| CommandApproval.StopLeaves | services/local-server/src/Runtime.cpp:734-753 | what a stop leaves: no approval, and if granted no group and nothing running that had one |
| CommandApproval.ExitLeaves | services/local-server/src/Runtime.cpp:686-691 | what the end of a process leaves |
| CommandApproval.StartsUseDistinctApprovals | services/local-server/src/Runtime.cpp:641-708 | two launches use two different approvals; when every failure has its message nothing is indexed in between |
| CommandApproval.EmptyFailureKeepsApproval | services/local-server/src/Runtime.cpp:54-57 | a failure with an empty message leaves an approval usable across an indexing |
| CommandApproval.RunningWasApproved | services/local-server/src/Runtime.cpp:641-753 | whenever a command runs or starts, a start request launched it under an approval of exactly this command, given for the generation displayed; it has been there ever since, with no other launch |
| BinaryCodec.BestOffset | src/external/sqlite/CppSQLite3.cpp:1523-1538 | there is exactly one best offset over the 254 allowed ones, and it needs at most 3n/254 escapes |
| BinaryCodec.MinimumIsSmall | src/external/sqlite/CppSQLite3.cpp:1525-1535 | the averaging argument: a minimum over all allowed offsets is at most 3n/254 |
| BinaryCodec.EncodeThenDecode | src/external/sqlite/CppSQLite3.cpp:1515-1587 | decoding an encoding gives the bytes back; it holds neither terminator nor quote |
| BinaryCodec.DecodeThenEncode | src/external/sqlite/CppSQLite3.cpp:1563-1587 | a well-formed quote-free text is the only text of its bytes at its offset |
| BinaryCodec.EncodingRoundTrip | src/external/sqlite/CppSQLite3.cpp:1515-1587 | any text the encoder produces decodes to its bytes, the empty input included |
| BinaryCodec.EncodingIsShortest | src/external/sqlite/CppSQLite3.cpp:1525-1535 | no allowed offset gives a shorter text |
| BinaryCodec.AllocatedRoom | src/external/sqlite/CppSQLite3.cpp:256-266 | the buffer sized for n bytes has room for the text of any n bytes, with one to spare |
| BinaryCodec.ReencodingFits | src/external/sqlite/CppSQLite3.cpp:192-246 | decoding a stored text and encoding it again fits the buffer sized for the text |
| BinaryBuffer.CountBytes | src/external/sqlite/CppSQLite3.cpp:1523-1524 | the counts are the occurrences of each byte |
| BinaryBuffer.ChooseOffset | src/external/sqlite/CppSQLite3.cpp:1525-1535 | the search with its early stop finds the best offset |
| BinaryBuffer.EncodeBinary | src/external/sqlite/CppSQLite3.cpp:1515-1554 | the encoder writes the shortest encoding and its terminator |
| BinaryBuffer.DecodeBinary | src/external/sqlite/CppSQLite3.cpp:1563-1587 | decoding, in place or not, writes exactly the decoded bytes and touches nothing after them |
| BinaryBuffer.Buffer.AllocBuffer | src/external/sqlite/CppSQLite3.cpp:256-279 | a fresh buffer large enough for the text of its bytes |
| BinaryBuffer.Buffer.SetBinary | src/external/sqlite/CppSQLite3.cpp:185-190 | holds the given bytes |
| BinaryBuffer.Buffer.SetEncoded | src/external/sqlite/CppSQLite3.cpp:192-211 | holds the given text, in a state from which all calls are safe when it is well formed |
| BinaryBuffer.Buffer.GetEncoded | src/external/sqlite/CppSQLite3.cpp:213-226 | encodes in place once and keeps the payload |
| BinaryBuffer.Buffer.GetBinary | src/external/sqlite/CppSQLite3.cpp:228-247 | decodes in place once and keeps the payload; a malformed text is reported and partly overwritten |
| BinaryBuffer.Buffer.GetBinaryLength | src/external/sqlite/CppSQLite3.cpp:249-253 | the length of the payload |
| BinaryBuffer.Buffer.Clear | src/external/sqlite/CppSQLite3.cpp:281-290 | what clearing resets, and what it does not |
| HierarchyCache.Cache.GetInheritanceEdgesForNodeId | src/lib/data/HierarchyCache.cpp:339-394 | for each reachable target exactly the inheritance entries on paths from source to target, each once |
| HierarchyCache.TrailIsExact | src/lib/data/HierarchyCache.cpp:339-420 | composing the two searches yields exactly the entries u->v with u reachable from the source and the target from v |
| HierarchyCache.HierarchyNode.ReverseReachableSubgraph | src/lib/data/HierarchyCache.cpp:117-124 | the reversed arcs of everything reachable |
| HierarchyCache.HierarchyNode.ReverseReachableHelper | src/lib/data/HierarchyCache.cpp:126-139 | the first recursion ends on cyclic graphs and pushes each entry once |
| HierarchyCache.GetReverseReachable | src/lib/data/HierarchyCache.cpp:396-420 | the second recursion ends on cyclic graphs and marks exactly what leads to the target |
| HierarchyCache.Cache.CreateInheritance | src/lib/data/HierarchyCache.cpp:168-179 | adds one entry, except from a node to itself |
| HierarchyCache.Cache.CreateNode | src/lib/data/HierarchyCache.cpp:434-444 | creates a node once and leaves the graph otherwise as it was |
| RefreshPlan.RefreshInfoForUpdatedFiles | src/lib/project/RefreshInfoGenerator.cpp:14-144 | the plan's three sets; the two clear sets partition the files to clear by whether they are indexed |
| RefreshPlan.DivideFiles | src/lib/project/RefreshInfoGenerator.cpp:44-71 | the division of the known files |
| RefreshPlan.ChangedExactly | src/lib/project/RefreshInfoGenerator.cpp:44-71 | exactly which files count as changed and which as unchanged and indexed |
| RefreshPlan.GetReferencing | src/lib/data/storage/PersistentStorage.cpp:2736-2764 | the worklist computes the transitive closure |
| RefreshPlan.GetReferenced | src/lib/data/storage/PersistentStorage.cpp:2721-2734 | the closure of the inverted relation |
| RefreshPlan.InverseChain | src/lib/data/storage/PersistentStorage.cpp:2721-2764 | the two closures are inverse to each other |
| RefreshPlan.IndexedExactly | src/lib/project/RefreshInfoGenerator.cpp:118-128 | a source is indexed again exactly when it is not known as unchanged and indexed, counts as changed, or refers to a file that does |
| RefreshPlan.ClearedExactly | src/lib/project/RefreshInfoGenerator.cpp:74-112 | a file is cleared exactly when it is affected by a change, or is referred to by such a file and neither is nor is referred to by a source that is not |
| RefreshPlan.KeptIsUntouched | src/lib/project/RefreshInfoGenerator.cpp:74-126 | a source left alone is unchanged, indexed and not cleared and refers to no changed file |
| RefreshPlan.NothingLostIff | src/lib/project/RefreshInfoGenerator.cpp:74-112 | nothing a kept source refers to is cleared, if and only if no up-to-date source reaches a changed file only by mixing includes and imports |
| RefreshPlan.OneRelationLosesNothing | src/lib/project/RefreshInfoGenerator.cpp:74-112 | with a single relation nothing is ever lost |
| RefreshPlan.MixedChainLoses | src/lib/data/storage/PersistentStorage.cpp:369-389 | a project of three files in which a kept file loses what it includes |
| EdgeAggregation.OneMorePart | services/web-canvas/src/graphModel.ts:212-230 | merging one more edge keeps count, locations, resolution, confidence, diff and reason right for all parts |
| EdgeAggregation.OrderDoesNotMatter | services/web-canvas/src/graphModel.ts:212-230 | the merged edge says the same in whatever order its parts come |
| VisibleNodes.ListAncestors | services/web-canvas/src/graphModel.ts:77-85 | the parents all the way up |
| VisibleNodes.CollapsedRepresentative | services/web-canvas/src/graphModel.ts:87-94 | the nearest collapsed candidate around a node, or the node |
| VisibleNodes.Candidates | services/web-canvas/src/graphModel.ts:138-153 | which nodes may be shown |
| VisibleNodes.CandidatesAreNodes | services/web-canvas/src/graphModel.ts:140-146 | candidates are nodes of the document |
| VisibleGraphLaws.CandidateMeans | services/web-canvas/src/graphModel.ts:138-153 | a candidate is, or is displayed around, a node in scope that is unchanged only if changes are not asked for, or an end of a displayed relation that changed |
| VisibleGraphLaws.AllowedMeans | services/web-canvas/src/graphModel.ts:133 | which edges are considered |
| VisibleGraph.EntryReachable | services/web-canvas/src/graphModel.ts:65-75 | the given entry scope, or what the entry reaches |
| VisibleGraph.GroupExternals | services/web-canvas/src/graphModel.ts:155-184 | every group counts its external symbols and has their common diff |
| VisibleGraphLaws.GroupedTogether | services/web-canvas/src/graphModel.ts:157-165 | exactly the external symbols that are not selected are grouped, and together exactly when they have one package |
| VisibleGraphLaws.PackageMeans | services/web-canvas/src/graphModel.ts:162 | the package is the part of the qualified name before its first dot, or the title |
| VisibleGraph.Represent | services/web-canvas/src/graphModel.ts:185-189 | each candidate's representative |
| VisibleGraph.KeepNodes | services/web-canvas/src/graphModel.ts:191-198 | the shown nodes under their nearest shown ancestors |
| VisibleGraph.AggregateEdges | services/web-canvas/src/graphModel.ts:208-231 | every allowed edge is merged into exactly one displayed edge or dropped, and the counts add up |
| VisibleGraphLaws.EdgeDrawnIff | services/web-canvas/src/graphModel.ts:200-214 | exactly between which places an edge is drawn |
| VisibleGraph.BuildVisibleGraph | services/web-canvas/src/graphModel.ts:131-234 | the whole projection: nodes in the document's order, each group once, edges in the order of their first parts |
| VisibleGraphFacts.EndpointsShown | services/web-canvas/src/graphModel.ts:191-231 | both ends of every displayed edge are displayed |
| VisibleGraphFacts.RepresentativesShownIff | services/web-canvas/src/graphModel.ts:185-198 | every candidate's representative is displayed exactly when no external symbol that is grouped away, and is not itself a group's id, stands for another candidate |
| VisibleGraphFacts.ChildlessExternals | services/web-canvas/src/graphModel.ts:155-198 | which is so when external symbols contain nothing |
| VisibleGraphFacts.ParentsShown | services/web-canvas/src/graphModel.ts:192-197 | a displayed node hangs under its nearest displayed ancestor |
| VisibleGraphFacts.DisplayedEdgeMeans | services/web-canvas/src/graphModel.ts:200-231 | a displayed edge stands for exactly the allowed edges of its kind projected between its ends |
| VisibleGraphFacts.CountsConserved | services/web-canvas/src/graphModel.ts:208-231 | the displayed counts add up to those of the edges drawn |
| VisibleGraphFacts.EdgeOrderDoesNotMatter | services/web-canvas/src/graphModel.ts:131-234 | documents listing the same edges in different orders display the same |
| VisibleGraphFacts.KeyDistinguishes | services/web-canvas/src/graphModel.ts:214 | a key tells kind and ends apart when kinds and sources have no bar |
| VisibleGraphLimits.KeysCanCoincide | services/web-canvas/src/graphModel.ts:208-231 | a document with a bar in an id in which two calls in opposite directions are displayed as one edge that counts both |
| VisibleGraphLimits.GroupedGroupHides | services/web-canvas/src/graphModel.ts:155-198 | a document in which a function inside a collapsed external symbol is represented by a node that is not displayed |
| VisibleGraphFacts.NestedGroupStaysShown | services/web-canvas/src/graphModel.ts:87-94 | a candidate inside a collapsed group is displayed all the same exactly when it is the nearest collapsed group of another candidate |
| RevealSelection.RevealSelected | services/web-canvas/src/graphModel.ts:106-126 | the settings change just enough for the selection |
| RevealSelection.RevealedIsShown | services/web-canvas/src/graphModel.ts:106-234 | a revealed node is then displayed as itself |
| RevealSelection.RevealedEdgeIsDrawn | services/web-canvas/src/graphModel.ts:106-234 | a revealed edge is then among the edges drawn between its own ends |
| XmlRoundTrip.PrintedParsesBack | src/external/tinyxml/tinyxml.cpp:1165-1188 | printing and parsing back restores every attribute with a valid name and a value without a hexadecimal reference, whatever follows, also in UTF-8 for grouped bytes |
| XmlRoundTrip.ParsesBackIff | src/external/tinyxml/tinyxml.cpp:52-133 | byte by byte exactly these attributes come back, whatever follows |
| XmlRoundTrip.ParsesBackInUtf8Iff | src/external/tinyxml/tinyxml.h:322-359 | in UTF-8, of the attributes without a hexadecimal reference exactly those come back whose lead bytes have their plain bytes and whose name starts with no byte order mark |
| XmlRoundTrip.ComesBackLonger | src/external/tinyxml/tinyxml.h:322-359 | a value without such a reference whose bytes do not group comes back longer, or swallows what follows it |
| XmlRoundTrip.ReadsBack | src/external/tinyxml/tinyxmlparser.cpp:438-531 | reading an escaped value up to its quote gives the value |
| XmlRoundTrip.ComesBackShorter | src/external/tinyxml/tinyxmlparser.cpp:438-531 | a value with a hexadecimal reference comes back shorter, swallows what follows it, or does not come back |
| XmlRoundTrip.EscapedHasNoRaw | src/external/tinyxml/tinyxml.cpp:52-133 | an escaped value without such a reference holds no raw quote or angle bracket |
| XmlRoundTrip.RawOnlyWherePassed | src/external/tinyxml/tinyxml.cpp:58-83 | in general a raw one stands exactly where a stretch is passed through |
| XmlRoundTrip.Utf8Decodes | src/external/tinyxml/tinyxmlparser.cpp:85-123 | what is written as UTF-8 decodes to its number |
| XmlRoundTrip.Utf8LengthIsKnown | src/external/tinyxml/tinyxmlparser.cpp:60-82 | the lead byte table gives the length back exactly below 0x140000 |
| XmlRoundTrip.Attribute.Print | src/external/tinyxml/tinyxml.cpp:1165-1188 | prints name and value, in single quotes if the value holds a double one |
| XmlRoundTrip.Attribute.Parse | src/external/tinyxml/tinyxmlparser.cpp:1390-1457 | parses an attribute, quoted or bare |
| XmlRoundTrip.ReadText | src/external/tinyxml/tinyxmlparser.cpp:574-645 | reads a value up to its quote |
| XmlRoundTrip.ReadName | src/external/tinyxml/tinyxmlparser.cpp:376-409 | reads a name |
| XmlAttribute.EncodeString | src/external/tinyxml/tinyxml.cpp:52-133 | escapes a string, passing hexadecimal references through |
| XmlAttribute.GetEntity | src/external/tinyxml/tinyxmlparser.cpp:411-521 | reads an entity, with the weights of digits in 32 bits and their sum in 64 |
| XmlAttribute.ReadNumber | src/external/tinyxml/tinyxmlparser.cpp:438-492 | adds up the digits from the semicolon back |
| XmlForms.ReferenceReadsNumber | src/external/tinyxml/tinyxmlparser.cpp:438-492 | a number of 32 bits, written in decimal or hexadecimal, reads as its character, whatever follows |
| XmlForms.SpacedParses | src/external/tinyxml/tinyxmlparser.cpp:1390-1420 | white space before the name and around the equals sign makes no difference |
| XmlForms.BareParses | src/external/tinyxml/tinyxmlparser.cpp:1439-1457 | a value without quotes ends at white space, a slash or a bracket, and is refused at a quote |

## Left out

- BindingSoundness.ModuleSound: asks of each statement visited with certainty that it be recorded rightly, although a later statement may repair the table; a call may rebind global names whether or not the function has been defined yet.
- BindingLimits.StatementExact: speaks of statements that visit no branch of their own with certainty; such branches are bodies.
- BindingEvents.ModuleExports: import, wildcard and conditional import events are not in the binding language; `ImportResolution` models them without the runs of a body.
- XmlRoundTrip.PrintedParsesBack: sufficient in UTF-8; `ParsesBackInUtf8Iff` is exact for values without a hexadecimal reference, which shortens a value where ungrouped bytes lengthen it.
- XmlRoundTrip.ReadText: a UTF-8 character cut short by the end of the text ends it, where the source keeps the bytes there are and steps past the terminator.
- GenerationMerge.EdgesKeptOverRuns: asks that edges with one id are the same edge, because an id is a hash of all parts of its edge; `HostEdgesOverRuns` does not.
- ImportAnswers.ShadowedSubmoduleAnswers: leaves open which of the possible answers is given, because that depends on when the submodule is imported.
- ImportAnswers.MissingAnswers: like the other laws about a name, speaks of a module that is loaded to resolve it; in a module loaded before, the name has the binding that `LoadKeeps` preserves.
- GraphStream.FromNdjson: the length of a line is that of the text the analyzer writes for its record; paths are not validated, and JSON that spells no record is one unknown record.
- VisibleGraphFacts.EdgeOrderDoesNotMatter: asks that the selection names the same nodes in both documents, because the first of several edges with one id decides.
- VisibleGraphFacts.DisplayedEdgeMeans: asks that ids and kinds hold no bar, because otherwise keys can coincide.
- RevealSelection.RevealedEdgeIsDrawn: asks that both ends are nodes with non-empty ids, because an empty id counts as absent.
- EntrySet.ReachableNodes: asks for acyclic containment, on which the walk upwards of the source relies to end.
- BinaryBuffer.Buffer.SetBinary: asks the same of the length as `AllocBuffer`.
- BinaryBuffer.Buffer.GetEncoded: asks that the text of the held bytes fits the buffer, as `Safe` keeps it; the source does not check this.
- BinaryBuffer.Buffer.GetBinary: asks that an encoded text is not empty, because after an empty one the source reads past its terminator; so does `GetBinaryLength`.
- BinaryBuffer.Buffer.AllocBuffer: asks that 257 times the length fits 31 bits, the width in which the source computes the size; running out of memory is not modelled.
- CommandApproval.StartCommandController.Start: the process, its group, signals and time limits are inputs that say what becomes of a launch or a stop.
- HostRuntime.AnalyzerRunner.AcceptResult: the analyzer's exit status and output and the configuration file are inputs; listeners that call back while a generation is announced are not modelled.
- ImportResolver.Analyzer.ModuleExports: returns the bindings at the time of the return, where the source returns the live dictionary; nodes added for external and unresolved names are represented by the names.
- RefreshPlan.RefreshInfoForUpdatedFiles: database ids and paths correspond one to one; the fallback to lower-case paths and the refresh of incomplete files are not modelled.
- VisibleGraph.GroupExternals: keeps of a group its package, count and diff; the fields it copies from the first symbol are not modelled.
- Generation numbers do not wrap at 64 bits.
- Comprehensions, lambdas, try, with, match, class bodies, starred targets, set and dictionary displays, annotations and defaults of nested definitions are not in the binding language.
- Heuristics of the relationship collector (calls, fields, decorators, generators) have no specification to prove.
- Python and JSON parsing and SHA-256 ids are taken as given; strings are compared by code point, where the host compares UTF-16 units.
- The snapshot is a value where the source has a class whose fields are only set while it is built.
- The file sets and search texts that the snapshot keeps for stale files are not modelled, nor is the normalisation of optional paths.
- HTTP, the React interface, storage in the browser, Qt components, Git and file watching have no deep invariant.
- The other queries of the hierarchy cache (visibility, children) and of the SQLite wrapper are simple lookups.
- tinyxml text nodes with condensed white space, documents, streams and cursors are not modelled.
- The layout geometry of the canvas is long but shallow.
