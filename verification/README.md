# A verified model of engine262's module, collector and macro machinery

engine262 runs JavaScript by following ECMA-262 step by step. This Dafny project models the parts of
it whose correctness is not visible in any single function, and proves what they promise:

- **Modules** (`src/modules.mts`, `src/abstract-ops/module-records.mts`). Linking and evaluating a
  cyclic module graph by a depth-first walk with a shared stack, rollback of a failed link, cycle
  roots and remembered promises; the linking and evaluation lists of the deferred re-exports proposal
  and the nested calls that follow optional re-exports; resolving and listing exports with visited
  lists that are shared across branches.
- **Export classification** (`src/parse.mts`) and why `ResolveExport` does not notice it.
- **Garbage collection** (`src/api.mts`). The mark phase with its one-pass ephemeron queue, the four
  sweeps, and collecting twice.
- **The `Q` macro** (`scripts/transform.mts`, `src/completion.mts`). The lowering into hoisted
  temporaries and early returns, against the early-return meaning of `ReturnIfAbrupt` and against
  `Q_runtime` under `evalQ`.
- **Debugging aids**. The pruned breakpoint search (`src/evaluator.mts`) and the inspector's id tables
  (`lib-src/inspector/context.mts`).

Where the source updates objects in place there are classes and methods (`ModuleObjects`,
`EvaluationObjects`, `LinkingList.LinkingListBuilder`, `EvaluationListMethod`, `ExportsMethod`, `ExportedNames`, `GcMethod`,
`MacrosVisitor`, `RemoteObjects`); each method is proved against a function on values, and the
promises are proved about those functions. The two module walks are one walk: `ModuleDfs.Visit`
describes both `InnerModuleLinking` and `InnerModuleEvaluation`, `ModuleScc` proves that every pop
removes exactly one strongly connected component, `ModuleHistory` what the walk leaves behind,
`ModuleOrder` in which order it runs, and `ModuleFailure` what a failed one leaves.

Host behaviour is a parameter. `Body` says what the k-th `InitializeEnvironment` or `ExecuteModule`
of a run yields for a given module, so the theorems hold for every pattern of successes and failures;
`Host` says what a called function yields given everything called before it. Where the source
recurses without a guard, `fuel` bounds the depth of the recursion: a call that returns has its value
at some depth, and the theorems say when there is one.

`dafny verify dfyconfig.toml` checks the whole project.

## What the proofs found

Each of these is a lemma, with the exact condition under which the promise holds where there is one.

- A failed `Link` can leave its module linked, although its description says the module stays
  unlinked (`spec/deferred-reexports.emu:1020`): the nested `Link` calls of `src/modules.mts:251-264`
  run after the module itself is linked. `LinkingFailure.FailureStatus` gives the condition,
  `LinkFailsWithModuleLinked` a world.
- `Link` for some names can succeed and leave a module unlinked that these names lead to, because its
  nested calls go on only at unlinked modules; the nested calls of `Evaluate` go on to that module, and
  assert that it is linked (`src/modules.mts:351-359`). `LinkingNames.LinksNamesExactly` gives the
  condition, `ChainLeftUnlinked` a world.
- Building an evaluation list, and gathering asynchronous dependencies, follow optional re-exports
  without a guard and need not end (`src/abstract-ops/module-records.mts:686-705` and `:730-735`).
  They end exactly when no name asked for comes back to itself over optional re-exports:
  `EvaluationListExact.EndsExactlyWhenNoneComesBack` for one list,
  `EvaluationGraphs.AllEndExactlyWhenNoDemandComesBack` for a whole world. `EachOtherNeverEnds` is a
  world of two modules without such a list, which links (`EachOtherLinks`).
- The nested calls of `Evaluate` are not guarded either: `EvaluationNested.ReturnsExactlyWhenCalm`
  gives the condition, `EachOtherNeverReturns` a world.
- Calling `Evaluate` twice on a module need not give the same promise, although its description says
  so (`spec/deferred-reexports.emu:1135`): the capability is put on the module, and looked up on its
  cycle root. `EvaluationProperties.SamePromise` gives the condition, `PromisesDiffer` a graph.
- `ExcludeImportedNames` keeps names it should drop when a list, or all names but `default`, is excluded
  from an unlisted set that has them. `ImportedNames.ExcludeExactness` gives the condition;
  `PreviousPlusNew` shows that its only use is not hurt.
- The ephemeron loop looks at every entry once, so a live object can be left unmarked and a weak
  reference to it cleared. `Gc.MarkingExact` gives the condition, `GcSweep.LiveSlotCleared` a heap, and
  `GcOrder.MarkingExactWhenInOrder` an order of entries and maps that avoids it.
- The transform accepts `if (x && Q(f()))`, which its comment rules out (`scripts/transform.mts:440`;
  the check there looks for a `BinaryExpression`, and `&&` is a `LogicalExpression`), and runs `f`
  even when `x` is false: `MacrosConverse.SkippedCallIsSeen`, `MacrosLimits.MacroAfterAndRuns`; a
  variable that it unwraps there makes it return early (`MacrosConverse.SkippedUnwrapIsSeen`). An
  operand to the left of a macro is evaluated after it, which can be seen where it makes a call
  (`MacrosConverse.MovedCallIsSeen`, `SwappedCallsAreSeen`) or reads what the macro unwraps
  (`MovedReadIsSeen`), though not always (`MacrosLimits.SameCallsMayMove`).
- `Q(x)` on a variable unwraps `x` in compiled code but not under `evalQ`, which can be seen where `x`
  is read later: `MacrosSplitReads.SplitReadIsSeen`, with the exact condition for bodies of calls in
  `FlatExactlyWhenOrdered`.
- Releasing an object group also releases every group whose name starts with its name:
  `RemoteObjects.GroupReleasedExactly` and `PrefixGroupGoesToo`.
- The breakpoint range test applies its columns on every line, not only on the first and last:
  `Breakpoints.SearchIsBetween` and `NodeBetweenIsMissed`.

## Model

| member | source | states |
|---|---|---|
| `ModuleDfs.VisitStack` | src/abstract-ops/module-records.mts:350-427 | The visit of a module never pops below where it started: the stack it found is a prefix of the stack it leaves, also on failure. |
| `ModuleScc.PopToSegment` | src/abstract-ops/module-records.mts:605-631 | The pop loop of the evaluation removes exactly the stack from the module's position on, gives exactly those modules the popped status and the module as cycle root, and changes no other module; the pop loop of the linking (lines 407-424) is the same without the cycle root. |
| `ModuleScc.VisitKeeps` | src/abstract-ops/module-records.mts:350-427 | The full DFSAncestorIndex/stack invariant is kept by a visit: the stack is exactly the modules in progress; each has a low link to a module it reaches no higher on the stack; finished modules depend only on finished modules; on failure the failing module is on the stack above what it found there. |
| `ModuleOrder.VisitInOrder` | src/abstract-ops/module-records.mts:511-634 | From any point of a walk, a visit runs the bodies in post-order: the dependencies of each module in the order of its list, each module not entered before, then its own body. A failed visit has run the part of that order up to the first body that throws, or up to a module with a recorded error, and fails with that error; a successful one leaves entered exactly what the order enters. The linking (lines 350-427) is the same walk. |
| `ModuleFailure.FailedWalkExact` | src/abstract-ops/module-records.mts:511-634 | A failed walk blames one module, whose body threw last or whose recorded error it met: of the modules that it entered, those left on the stack depend on the blamed one, those finished have run, and if the blamed one is a Cyclic Module Record, finished are exactly those that ran and do not depend on it. |
| `ModuleHistory.VisitHistory` | src/abstract-ops/module-records.mts:511-634 | A visit keeps the history invariant: bodies run at most once and after their dependencies outside the own component, and cycle roots of finished modules name strongly connected components. |
| `LinkingProperties.WalkKeeps` | src/modules.mts:226-247 | One walk with its rollback: no module stays `linking`, linked modules stay as they are, success links the module and failure leaves it unlinked if it was unlinked. |
| `LinkingProperties.LinkKeeps` | src/modules.mts:220-267 | Link, with its nested calls and whatever fails in them, keeps the set of linked modules closed under linking lists, leaves no module `linking`, and on success links its module. |
| `LinkingProperties.LinkReachesAll` | src/modules.mts:220-267 | After a successful Link every Cyclic Module Record reachable over linking lists is linked. |
| `LinkingProperties.LinkChangesWholeComponents` | src/modules.mts:231-247 | Whether it succeeds or fails, the only lasting changes of Link are whole strongly connected components that went from unlinked to linked, all of whose dependencies are linked; everything else is back at unlinked. |
| `LinkingProperties.LinkAllKeeps` | src/modules.mts:220-267 | The same invariant over every sequence of Link calls, each with its own failures. |
| `LinkingOrder.LinkInOrder` | src/modules.mts:220-267 | Link creates environments in the post-order of the linking lists, then that of each unlinked module that a selected optional re-export leads to, in request order; it fails exactly with the error of the first environment that cannot be created, after those before it and no other; on success exactly the modules of that order are newly linked. |
| `LinkingOrder.FailedWalkLeaves` | src/modules.mts:226-247 | After a failed walk the last event is the failure of one module. Of the modules unlinked before, only those whose environment was created are linked, among them all that do not depend on the failing one, and, where that is a Cyclic Module Record, only these. |
| `LinkingFailure.FailureKeepsUnlinked` | src/modules.mts:231-264 | If no requested optional re-export leads to an unlinked module outside the module's linking graph, a failed Link leaves the module unlinked. |
| `LinkingFailure.FailureAfterLinking` | src/modules.mts:251-264 | If one does, there are failures for which Link fails and its module is linked. |
| `LinkingFailure.FailureStatus` | src/modules.mts:220-267 | Every failure of Link leaves its module unlinked if and only if there is no such re-export. |
| `LinkingFailure.LinkFailsWithModuleLinked` | src/modules.mts:220-267 | On a world of two modules, the first optionally re-exporting a name of the second, the second re-exporting a name that the first does not have: where environment creation fails for an indirect export that does not resolve (`src/modules.mts:673-688`), Link of the first fails and leaves it linked. |
| `LinkingNames.LinksNamesExactly` | src/modules.mts:248-264 | Every successful Link for some names links all modules that these lead to over optional re-exports, whatever was linked before and whatever fails, if and only if linking reaches each of them from the module or from a module one optional re-export away. |
| `LinkingNames.ChainLeftUnlinked` | src/modules.mts:220-267 | On a world of three modules with nothing linked, Link for all names succeeds and leaves the module unlinked to which the name `x` leads. |
| `ModuleObjects.Agent.InnerModuleLinking` | src/abstract-ops/module-records.mts:350-427 | The method on mutable records and the shared stack does exactly the visit on values: same result, same statuses, ancestor indices and stack. |
| `ModuleObjects.Agent.PopLinked` | src/abstract-ops/module-records.mts:411-424 | The in-place pop loop leaves the records and the stack as PopTo says. |
| `ModuleObjects.Agent.RollBack` | src/modules.mts:231-243 | Every module left on the stack becomes unlinked, and no other record changes. |
| `ModuleObjects.Agent.Link` | src/modules.mts:220-267 | Link on mutable records does exactly Link on values, including its nested calls, and leaves every record matching the resulting state. |
| `ImportedNames.Merge` | src/abstract-ops/module-records.mts:60-90 | MergeImportedNames denotes the union, where a namespace counts as every name. |
| `ImportedNames.MergeImportedNames` | src/abstract-ops/module-records.mts:60-90 | The loop computes that merge. |
| `ImportedNames.ExcludeExactness` | src/abstract-ops/module-records.mts:93-132 | ExcludeImportedNames denotes the set difference if and only if the names are a list, or everything is excluded, or both are all names but `default`, or the excluded list has none of the names. |
| `ImportedNames.PreviousPlusNew` | src/abstract-ops/module-records.mts:154-169 | What was requested before together with what is newly requested denotes exactly the union of both, despite the inexact exclusion. |
| `ImportedNames.ExcludeImportedNames` | src/abstract-ops/module-records.mts:93-132 | The case analysis with its filtering loop computes that exclusion. |
| `ModuleRequests.KeyEqualIffSameKey` | src/static-semantics/ModuleRequests.mts:25-51 | The one-sided loop over attributes decides equality of specifier and attribute sets. |
| `ModuleRequests.OptionalRequestsGroup` | src/modules.mts:611-670 | No two returned requests share key and phase, every selected entry has a request, and each request asks for exactly what its selected entries want: the name each takes from its target, or every name where one takes a namespace or source. |
| `ModuleRequests.OptionalRequestsInOrder` | src/modules.mts:611-670 | The requests come in the order of the first selected entries that ask for them. |
| `ModuleRequests.RequestSource` | src/modules.mts:611-670 | Every returned request has the key and phase of some selected entry. |
| `ModuleRequests.GetOptionalIndirectExportsModuleRequests` | src/modules.mts:611-670 | The loop that pushes requests and merges into them computes that grouping. |
| `ModuleRecords.SameKeySameModule` | src/abstract-ops/module-records.mts:910-921 | Requests with the same key get the same module from GetImportedModule. |
| `ModuleRecords.FoundIsFirst` | src/abstract-ops/module-records.mts:910-914 | The record found for a request is the first one with its key, and none is found exactly when no record has the key. |
| `ModuleRecords.ImportedIsLoadedOne` | src/abstract-ops/module-records.mts:917-921 | GetImportedModule yields the module of a loaded record with the request's key; where at most one record has a key, which the source asserts, that of any such record. |
| `LinkingDemand.LinkingListExact` | src/abstract-ops/module-records.mts:311-347 | The linking list of a module is exactly the modules it demands: directly, or through any chain of optional re-exports selected by the names asked for, although recorded names cut the recursion short. |
| `LinkingDemand.LinkedInOrder` | src/abstract-ops/module-records.mts:311-347 | The list follows the requests: what the requests before one contribute comes first, then that request's module unless it is already there. |
| `LinkingDemand.BuildDistinct` | src/abstract-ops/module-records.mts:311-347 | The list names no module twice. |
| `LinkingList.LinkingListBuilder.BuildLinkingList` | src/abstract-ops/module-records.mts:311-347 | The recursion that grows the list and the record of requested names in place computes the same lists, and ends on every cyclic graph. |
| `OptionalChains.BoundedExactlyWhenCalm` | src/abstract-ops/module-records.mts:711-740 | The chains of optional re-exports from a name have a common bound, then the number of optional re-exports in the world, if and only if no name they lead to comes back to itself. |
| `EvaluationListEnds.GatherRequestsCovers` | src/abstract-ops/module-records.mts:636-740 | A gathering that ends has worked off every module that it newly saw and every chain of optional re-exports that its requests start, all inside the set of modules seen. |
| `EvaluationListEnds.GathersAwaiting` | src/abstract-ops/module-records.mts:636-665 | What gathering lists is exactly the modules that it newly saw and that have top-level await and are neither evaluating nor evaluated. |
| `EvaluationListExact.EndsExactlyWhenNoneComesBack` | src/abstract-ops/module-records.mts:636-740 | Building a module's evaluation list ends, whatever has been evaluated and whatever awaits, if and only if no name that it asks for comes back to itself over optional re-exports; then a depth computed from the world is enough. |
| `EvaluationListContent.ListIsExactly` | src/abstract-ops/module-records.mts:667-740 | An evaluation list that ends holds exactly the modules demanded in the evaluation phase, directly or over selected optional re-exports up to the first namespace, and the awaiting modules that gathering reaches. |
| `EvaluationListContent.ListedInOrder` | src/abstract-ops/module-records.mts:667-709 | The list follows the requests: what the requests before an evaluation-phase request contribute comes first, then its module unless it is already there. |
| `EvaluationGraphs.AllEndExactlyWhenNoDemandComesBack` | src/abstract-ops/module-records.mts:636-740 | All modules of a world have an evaluation list if and only if no name that some module demands comes back to itself, and this does not depend on what has been evaluated. |
| `EvaluationGraphs.EachOtherNeverEnds` | src/abstract-ops/module-records.mts:667-740 | On two modules that optionally re-export `x` of each other, one importing the other as a namespace, no depth is enough for the list. |
| `EvaluationGraphs.EachOtherLinks` | src/modules.mts:220-267 | Linking that world for all names succeeds if no environment fails. |
| `EvaluationGraphs.ListAtAnyTime` | src/abstract-ops/module-records.mts:546-549 | Without top-level await, the list built when a module's turn comes is the one in the evaluation graph, whatever has been evaluated by then. |
| `EvaluationGraphs.GraphListIsExactly` | src/abstract-ops/module-records.mts:667-709 | Without top-level await the list of a module is exactly what it demands in the evaluation phase, the targets of its requests' optional re-exports included. |
| `EvaluationGraphs.ListKeeps` | src/abstract-ops/module-records.mts:667-709 | That list names no module twice, only modules of the linking list, and every module requested in the evaluation phase. |
| `EvaluationGraphs.EvaluatedAreLinked` | src/abstract-ops/module-records.mts:533-534 | After a successful Link every Cyclic Module Record that the evaluation of the module will visit is linked. |
| `EvaluationGraphs.RequestsRunFirst` | src/abstract-ops/module-records.mts:511-634 | Over every sequence of Evaluate calls on a world: when a module's body runs, each module that it demands in the evaluation phase, directly or over optional re-exports, has finished without error or depends on it in turn. |
| `EvaluationListMethod.ListAppendUnique` | src/abstract-ops/module-records.mts:135-146 | The loop appends, in order, each item that is not there yet. |
| `EvaluationListMethod.Seen.GatherAsynchronousTransitiveDependencies` | src/abstract-ops/module-records.mts:637-665 | The method on the shared set of seen modules returns, wherever the specification has a value, the same list and leaves the same set. |
| `EvaluationListMethod.Seen.GatherForRequests` | src/abstract-ops/module-records.mts:712-740 | The same for the loop over requests. |
| `EvaluationListMethod.EvaluationListBuilder.BuildEvaluationList` | src/abstract-ops/module-records.mts:668-709 | The recursion that grows the list in place leaves the specified list, wherever there is one. |
| `Evaluation.EvaluateKeeps` | src/modules.mts:270-345 | One Evaluate call, up to its nested calls, keeps the evaluation invariant, leaves its module evaluated, and its promise is rejected with exactly the error recorded for the module, or fulfilled if there is none. |
| `EvaluationNested.NamesKeep` | src/modules.mts:270-381 | Evaluate with its nested calls keeps the evaluation invariant and leaves finished modules alone; a rejection carries an error that is recorded or was thrown last; fulfilment means that the module finished without error. |
| `EvaluationNested.FulfilledCoversNames` | src/modules.mts:347-381 | If the promise is fulfilled, it is that of the module's own evaluation, and every module that the names lead to over optional re-exports has finished without error. |
| `EvaluationNested.ReturnsExactlyWhenCalm` | src/modules.mts:347-381 | Evaluate for some names returns for every state and every pattern of failures if and only if nothing that the names lead to over optional re-exports comes back to itself. |
| `EvaluationNested.EachOtherNeverReturns` | src/modules.mts:347-381 | On two modules that optionally re-export `x` of each other and request nothing, the lists end, and Evaluate for `x` returns at no depth when no body fails. |
| `EvaluationNestedOrder.NamesInOrder` | src/modules.mts:347-381 | Evaluate for some names, where it returns, runs the post-order of its module, then for each selected request in turn that of its module for the names of the request, up to the first body that throws, and is rejected with what that one threw or with the recorded error at which the order stops. |
| `EvaluationProperties.BodiesRunOnceInOrder` | src/abstract-ops/module-records.mts:511-634 | Over every sequence of Evaluate calls from a linked graph, each module body runs at most once, and when it runs every dependency outside its strongly connected component has finished without error. |
| `EvaluationOrder.EvaluateInOrder` | src/modules.mts:270-345 | One Evaluate call runs the bodies of the post-order of what is left to run, up to the first that throws; its promise is rejected exactly with what that body threw or with the recorded error that ends the order. |
| `EvaluationOrder.FirstCallInOrder` | src/modules.mts:270-345 | From a linked graph the log of Evaluate is a prefix of the post-order of its module, and the whole of it without an error exactly when the promise is fulfilled. |
| `EvaluationOrder.NextCallInOrder` | src/modules.mts:270-345 | The same after any sequence of earlier calls. |
| `EvaluationOrder.FailureSpreads` | src/modules.mts:303-320 | A rejected call blames one module: of the modules that it entered, if the blamed one is a Cyclic Module Record, exactly those that depend on it end with the error, and all others have run and have none. |
| `EvaluationProperties.CycleRootsNameSccs` | src/abstract-ops/module-records.mts:511-634 | Over every such sequence, two modules that finished without error have the same CycleRoot if and only if they lie in the same strongly connected component. |
| `EvaluationProperties.FulfilledReachesAll` | src/modules.mts:270-381 | If the promise is fulfilled, everything reachable from the module has finished without error. |
| `EvaluationProperties.FailedStaysFailed` | src/modules.mts:270-320 | Errors are sticky: after any calls in between, evaluating a failed module gives a promise rejected with its recorded error and runs no body. |
| `EvaluationProperties.DependentsOfFailedFail` | src/modules.mts:303-320 | A module that reaches a failed module always gets a rejected promise, with its own recorded error, the recorded error of a failed module, or the error of the last body that ran. |
| `EvaluationProperties.VisitErrorSource` | src/abstract-ops/module-records.mts:511-634 | A visit fails only with an error that was recorded before or that the last body threw, and changes no recorded error itself. |
| `EvaluationProperties.EntryIsItsOwnRoot` | src/modules.mts:270-381 | A module that Evaluate visits for the first time ends as its own cycle root. |
| `EvaluationProperties.SamePromise` | src/modules.mts:270-301 | Two Evaluate calls on a module give the same promise if and only if, before the first, the module was not evaluated yet, or was its own cycle root, or its cycle root already had a promise. |
| `EvaluationProperties.PromisesDiffer` | src/modules.mts:270-301 | On a module that requests one of two mutually dependent modules, evaluating it leaves one of the two for which two Evaluate calls give different promises. |
| `EvaluationObjects.Evaluator.InnerModuleEvaluation` | src/abstract-ops/module-records.mts:511-634 | The method on mutable records does exactly the visit on values, for graphs of synchronous modules. |
| `EvaluationObjects.Evaluator.FailStack` | src/modules.mts:303-320 | Every module left on the stack becomes evaluated with the same error and itself as cycle root, and no other record changes. |
| `EvaluationObjects.Evaluator.Evaluate` | src/modules.mts:270-345 | Evaluate on mutable records does exactly Evaluate on values and returns the same promise. |
| `EvaluationObjects.Evaluator.EvaluateNames` | src/modules.mts:270-381 | With its nested calls it does, wherever these have a value, exactly what they do on values, and returns the same promise. |
| `ExportsExact.ResolveExportExact` | src/modules.mts:486-608 | From an empty resolve set, ResolveExport is null, one binding or ambiguous exactly as none, one, or several distinct bindings can be reached over (module, name) pairs. Which pairs a pair leads to and which bindings it has is said of the local, indirect, optional and star entries themselves. |
| `Exports.LookUpBinds` | src/modules.mts:505-556 | A look-up finds exactly the binding of the first entry for the name that binds it in place: a local one, or where none is local an indirect or optional one on a namespace or source. |
| `Exports.LookUpLeads` | src/modules.mts:517-607 | A look-up goes on exactly to the target of the first redirecting entry where no local entry has the name, or, where no entry has it and it is not `default`, to every star target. |
| `ExportsExact.ResolveIsExact` | src/modules.mts:486-608 | From any resolve set: the answer is supported by reachable bindings and tells about every pair the call adds to the shared set, all of whose successors are in the set. |
| `ExportsMethod.ResolveExport` | src/modules.mts:486-608 | The method that pushes onto one shared resolve set computes the same answer and the same set, and ends on every cyclic graph; a synthetic module (src/modules.mts:889-899) is its leaf. |
| `ExportsMethod.ResolveStarExports` | src/modules.mts:564-607 | The loop over star exports with its ambiguity check computes the specified answer. |
| `ExportEntries.StarOrderIrrelevant` | src/modules.mts:564-607 | Permuting any module's star exports changes no answer of ResolveExport. |
| `ExportedNames.ExportedNamesExact` | src/modules.mts:426-483 | GetExportedNames lists exactly the names with an entry of the module's own and the names other than `default` of modules reached over star exports, despite the shared visited list. |
| `ExportedNames.ResolvedNamesAreExported` | src/modules.mts:426-608 | Every name that ResolveExport does not answer null is listed by GetExportedNames. |
| `ExportedNames.StarNamesResolve` | src/modules.mts:556-607 | Conversely, a name other than `default` that a module binds is answered not null, and listed, by every module from which star exports lead there through modules with no entry of their own for it. |
| `ExportedNamesOrder.ExportedNamesInOrder` | src/modules.mts:426-483 | The list is the module's own names in the order of its entries, and then the other names that come up for the first time in the modules behind its star exports, these taken depth first, each once. |
| `ExportedNames.GetExportedNames` | src/modules.mts:426-483 | The method with its growing exportStarSet computes the specified list; a synthetic module (src/modules.mts:882-886) is its leaf. |
| `ExportEntries.ClassifyExportEntries` | src/parse.mts:149-175 | The loop that pushes onto three lists computes the specified classification. |
| `ExportEntries.ClassifyPlaces` | src/parse.mts:149-175 | The only clause exporting a name lands in exactly one of the local and indirect lists, rewritten through its import entry where it re-exports an import. |
| `ExportEntries.ClassifyConcat` | src/parse.mts:149-175 | Classification keeps source order: it takes a concatenation of clauses to the concatenations of the three lists. |
| `ExportEntries.ClassifyKeepsEveryClause` | src/parse.mts:149-175 | Every clause adds exactly one entry to exactly one list. |
| `ExportEntries.LookUpFollowsClause` | src/modules.mts:505-556 | Looking a name up in the classified module does what the written clause says: its own binding, or following the import entry. |
| `ExportEntries.RedirectResolves` | src/modules.mts:517-556 | A name whose look-up leads to another module's name resolves to what that name resolves to. |
| `ExportEntries.ReexportResolvesInTarget` | src/parse.mts:149-175 | `import { x } from T; export { x as y }` resolves `y` to what `T` resolves `x` to. |
| `Gc.MarkingExact` | src/api.mts:75-119 | What is marked contains everything strongly reachable and lies inside the least set closed under what objects hold and map entries; it is that set if and only if no entry of a marked map ends with a marked key and an unmarked value. |
| `Gc.Strong` | src/api.mts:75-110 | The marker goes on from an object to exactly what it holds: its strong references, and the held values of the cells of a registry. |
| `GcOrder.MarkingExactWhenInOrder` | src/api.mts:75-119 | One pass marks exactly the live objects also where keys are held by weak maps only, if every live entry is looked at after entries whose values lead to its key: earlier ones of its map, or, if its map is itself first reached through an entry, any of a map that is strongly reachable. |
| `GcOrder.MarkingExactWhenKeysHeld` | src/api.mts:75-119 | In particular, if no live key of a live map is held by weak maps only, one pass over the queue marks exactly the live objects. |
| `GcOrder.DrainOrders` | src/api.mts:114-119 | Every round of the ephemeron loop keeps the queue in the order of each map, entries of strongly reachable maps first, and entries that come after those leading to their key have their value marked when they leave it. |
| `Gc.DrainInv` | src/api.mts:114-119 | Every round of the ephemeron loop keeps: marked objects have their strong references marked and their entries queued or done. |
| `GcSweep.SweepExact` | src/api.mts:121-155 | After the sweeps every weak slot of a marked container holds its object if that is marked and is empty otherwise; slots of other objects and all strong references are untouched. |
| `GcSweep.EnqueuedExactlyOnce` | src/api.mts:127-138 | A cleanup job is enqueued exactly once for a marked registry with an empty or unmarked target, and never otherwise. |
| `GcSweep.SweepKeepsLive` | src/api.mts:121-155 | If marking missed no entry, no slot that held a live object is emptied. |
| `GcSweep.CollectTwice` | src/api.mts:53-156 | A second collection marks the same objects and leaves the heap as the first left it. |
| `GcSweep.LiveSlotCleared` | src/api.mts:114-125 | On a heap of five objects the one-pass queue leaves a live object unmarked and clears a weak reference to it. |
| `GcMethod.Collector.MarkObject` | src/api.mts:75-110 | The recursive mark callback, growing the mark set and the queue in place, does the specified marking. |
| `GcMethod.Collector.MarkPhase` | src/api.mts:75-119 | The loop that shifts the queue while marking pushes onto it ends, and marks the specified set. |
| `GcMethod.Collector.SweepRegistries` | src/api.mts:127-138 | Exactly the visited registries are swept, and the jobs are those of the dirty ones, in order. |
| `GcMethod.Collect` | src/api.mts:53-156 | The whole collection updates the heap and the job list as specified. |
| `MacrosCorrect.HoistCorrect` | scripts/transform.mts:279-345 | Running the statements hoisted out of an expression and then evaluating what is left gives the same early return, or the same value, calls and variables, as evaluating the expression. |
| `MacrosCorrect.HoistLeaves` | scripts/transform.mts:279-345 | What is left has no macro, makes no new call and reads only the expression's variables and its own temporaries; an expression without macros is left alone. |
| `MacrosCorrect.EvalFrame` | scripts/transform.mts:37-48 | In the reference meaning, evaluation changes no variable except to unwrap the variable of a macro that stands alone. |
| `MacrosCorrect.LowerLetCorrect` | scripts/transform.mts:199-216 | A declaration whose initialiser is a conditional with macros means the same after it is split into a declaration and an if/else. |
| `MacrosBodies.LowerRetCorrect` | scripts/transform.mts:218-221 | `return Q(e)`, however deep, gives the same completion as the `return e` it is shortened to. |
| `MacrosBodies.BodyKeepsMeaning` | scripts/transform.mts:195-345 | For every accepted body in which what is evaluated before a macro makes no call and reads no variable the macro unwraps, and a macro to the right of `&&` is on a variable that the left has tested or unwrapped: for every host, state and number of loop rounds, the lowered body makes the same calls in the same order and returns the same completion. |
| `MacrosCorrect.GuardedCorrect` | scripts/transform.mts:241-249 | `x && Q(x)`, and `l && Q(x)` where `l` has unwrapped `x`, mean the same with the macro put before. |
| `MacrosConverse.MovedCallIsSeen` | scripts/transform.mts:324-341 | If, in the first statement of a body, an operand before the first macro certainly makes a call and the macro is on a call or a variable, then where every call and variable fails the body and its lowered form differ. |
| `MacrosConverse.SwappedCallsAreSeen` | scripts/transform.mts:324-341 | If the first statement certainly calls one function first and its first macro certainly calls another first, the body and its lowered form differ on every host and all variables. |
| `MacrosConverse.SkippedCallIsSeen` | scripts/transform.mts:442-461 | If the left of `l && Q(r)` is false with undefined everywhere and `r` certainly makes a call, the statement and its lowered form differ there. |
| `MacrosConverse.SkippedUnwrapIsSeen` | scripts/transform.mts:241-249 | If the left of `l && Q(y)` is false where `y` is abrupt and all else undefined, the lowered form returns `y` early there and the body goes on. |
| `MacrosConverse.MovedReadIsSeen` | scripts/transform.mts:241-249 | If a call has `x` and later `Q(x)` among its arguments and the others make no call, the statement and its lowered form differ on every host when `x` holds a normal completion. |
| `MacrosBodies.LowerAllClears` | scripts/transform.mts:195-345 | No macro is left in the lowered form of an accepted body. |
| `MacrosPositions.AcceptedExactly` | scripts/transform.mts:442-461 | A written body is accepted if and only if no path to a macro in it passes a loop test, the right operand of a comparison that is a test, or a conditional that is not the initialiser of a declaration or the operand of a macro that is hoisted into one. |
| `MacrosPositions.MacroFreeStays` | scripts/transform.mts:150-346 | A body without a macro at the end of any path is accepted and lowered to itself. |
| `MacrosPositions.HasMacroExactly` | scripts/transform.mts:150-195 | The test for macros in an expression holds exactly when a path leads to one. |
| `MacrosRuntime.EvalQIsEarlyReturn` | src/completion.mts:335-451 | For every body in which no variable is read after a macro on that variable alone without an assignment in between, other than as what is returned or what another macro gets, and whose abrupt results are all throw completions: running it with Q_runtime under evalQ gives the completion of its early-return form, after the same calls. |
| `MacrosRuntime.OneMacro` | src/completion.mts:335-451 | On one macro around a call: a throw completion that the call yields is the result of evalQ, any other abrupt completion escapes it, and otherwise the value of the call goes on, out of its completion record if it is in one; the early-return form agrees. |
| `MacrosRuntime.LoopSettles` | src/completion.mts:335-345 | Two rounds of a loop tell which variables it can leave unwrapped in one form only: a third adds none. |
| `MacrosRuntime.EvalQExactlyOnThrows` | src/completion.mts:414-436 | For a body that certainly puts a macro on the result of a call, evalQ is faithful for all hosts and variables whose abrupt completions are of the given kinds if and only if the only kind is throw. |
| `MacrosSplitReads.SplitReadIsSeen` | src/completion.mts:335-345 | The other half: if a body certainly passes a variable to a call, or returns a comparison of it, after a macro on that variable alone, then with a normal completion in the variable and a host that answers with normal completions the two forms differ. |
| `MacrosSplitReads.FlatExactlyWhenOrdered` | src/completion.mts:335-345 | For bodies of calls on variables and macros on variables alone, evalQ is faithful for all hosts and variables with throw completions only, if and only if no variable is read after its macro without an assignment in between. |
| `MacrosRuntime.EvalQIsLowered` | src/completion.mts:414-451 | Under the same conditions, and for an accepted and safe body, evalQ on the written body and running the lowered body give the same completion after the same calls. |
| `MacrosLimits.MacroAfterAndRuns` | scripts/transform.mts:442-461 | An accepted `if (x && Q(f()))` makes no call when `x` is false; its lowered form calls `f`. |
| `MacrosLimits.CallBeforeMacroMovesBehind` | scripts/transform.mts:324-341 | An accepted statement that calls one function and then another inside a macro calls them in the other order once lowered. |
| `MacrosLimits.SameCallsMayMove` | scripts/transform.mts:324-341 | That two operands certainly make calls is not enough to see them swapped: a body that calls one function twice, once in a macro on a comparison, means the same on every host. |
| `MacrosLimits.BareMacroUnwrapsOnlyWhenLowered` | scripts/transform.mts:241-249 | On a body that reads a variable after a macro on that variable alone, the lowered form and Q_runtime differ. |
| `MacrosVisitor.WithinNotTransformablePosition` | scripts/transform.mts:442-461 | The loop up the parents answers true exactly in a loop test and in the right operand of a comparison that is an if test. |
| `MacrosVisitor.GetEnclosingConditional` | scripts/transform.mts:423-431 | The loop up to the statement finds where the innermost enclosing conditional stands. |
| `MacrosVisitor.Visitor.VisitMacro` | scripts/transform.mts:195-345 | Visiting a macro rejects it, asks for a split, shortens a return, or puts the specified statements before the current one, according to its position. |
| `MacrosVisitor.Transform` | scripts/transform.mts:150-346 | The visitor accepts exactly the bodies without a macro in a forbidden place, and produces exactly the specified lowering. |
| `Breakpoints.SearchExact` | src/evaluator.mts:352-382 | On a tree whose nodes lie inside their parents, the pruned search yields exactly the preorder list of all nodes that pass the range test. |
| `Breakpoints.CandidatesAre` | src/evaluator.mts:325-382 | The candidates of a request are exactly the nodes of its script between its two locations, as locations count; without a second location those that start and end on the line of the first; none for an unknown script or for two scripts. |
| `Breakpoints.PrunedHasNone` | src/evaluator.mts:352-370 | No descendant of a pruned node passes the range test. |
| `Breakpoints.ChildOutsideIsLost` | src/evaluator.mts:352-382 | A child that sticks out of its parent can be lost. |
| `Breakpoints.SearchIsBetween` | src/evaluator.mts:352-382 | On such a tree the search yields the nodes between the two positions, in preorder, if and only if none of these starts left of the first column on a later line or ends right of the last column on an earlier line. |
| `Breakpoints.NodeBetweenIsMissed` | src/evaluator.mts:371-378 | A node on the second line of a range that starts further right on the first is not yielded. |
| `Breakpoints.ResolvedStays` | src/execution-context/Agent.mts:282-288 | A breakpoint goes to the first candidate of the search; the location reported for it (src/evaluator.mts:344-350) resolves to the same node again. |
| `RemoteObjects.FreshRunKeeps` | lib-src/inspector/context.mts:114-146 | Over every run of interning and releasing, the two maps stay inverse to each other and no id is handed out twice. |
| `RemoteObjects.ReturnsUnderNewId` | lib-src/inspector/context.mts:120-137 | An object that was released is never handed out again under an id it or any other object had. |
| `RemoteObjects.InternExactly` | lib-src/inspector/context.mts:120-129 | Interning enters a new object under one id of the group asked for that was never handed out, an object in the table keeps its id, and every other id and object stays. |
| `RemoteObjects.ReleaseExactly` | lib-src/inspector/context.mts:131-137 | Releasing an id takes it and its object out of both maps and leaves all others; an unknown id changes nothing. |
| `RemoteObjects.ReleaseGroupExactly` | lib-src/inspector/context.mts:139-146 | Releasing a group takes exactly the ids that start with its name, and their objects, out of both maps. |
| `RemoteObjects.IdInjective` | lib-src/inspector/context.mts:124-125 | An id determines its group and its number, whatever characters the group name has. |
| `RemoteObjects.GroupReleasedExactly` | lib-src/inspector/context.mts:139-146 | Releasing a group takes every id of the group, and no other if and only if no live id of another group starts with its name. |
| `RemoteObjects.PrefixGroupGoesToo` | lib-src/inspector/context.mts:139-146 | Releasing group `a` also releases an object of group `ab`. |
| `RemoteObjects.InspectorContext.InternObject` | lib-src/inspector/context.mts:120-129 | The method updates both maps and the counter as specified and returns the object's id, under which it can be found. |
| `RemoteObjects.InspectorContext.ReleaseObject` | lib-src/inspector/context.mts:131-137 | The object of the id leaves both maps; an unknown id changes nothing. |
| `RemoteObjects.InspectorContext.ReleaseObjectGroup` | lib-src/inspector/context.mts:139-146 | The loop over the entries leaves the table as specified. |

## Left out

- Top-level await: async execution, AsyncParentModules and PendingAsyncDependencies are not modelled; every module body is synchronous, and promises are settled when Evaluate returns.
- Reentrant evaluation: bodies that call Evaluate themselves, through deferred namespaces or `import()`.
- Evaluation lists: that a module awaits is known when its list is built; what Evaluate does with the gathered asynchronous dependencies is part of top-level await. The deferred namespaces themselves are left out.
- EvaluationProperties.FailedStaysFailed: the promise is compared by its outcome; a second promise object may be made, as EvaluationProperties.SamePromise says.
- EvaluationNested.NamesKeep: that the targets of the nested calls are linked is assumed; LinkingNames.LinksNamesExactly says when Link sees to it. Promises are settled when the call returns, so SafePerformPromiseAll is never reached.
- EvaluationObjects.Evaluator.InnerModuleEvaluation: the asynchronous branches are left out, and the evaluation list is that of the given graph; EvaluationGraphs.ListAtAnyTime says that it is the one the source builds at that point.
- InitializeEnvironment and ExecuteModule: only whether each of their runs succeeds.
- LoadRequestedModules and GraphLoadingState: the graph is loaded when the model starts; that every request has one loaded module with its key is an assumption (`ModuleRecords.Valid`).
- ExportedNames.GetExportedNames: the list is read as a set of strings; the source compares string objects by identity (`src/modules.mts:474`), so it can list a name twice.
- ExportedNamesOrder.ExportedNamesInOrder: for the same reason, each name once means each string once.
- ExportEntries.LookUpFollowsClause: a name exported by two clauses is excluded, as the early errors for modules exclude it; a name that an optional re-export shadows is excluded too.
- ResolveExport's source-phase and namespace bindings: compared as binding names; module namespace objects are not built.
- Gc: realms, the other internal slots that `mark` methods visit, and host hooks are edges of an abstract heap. Cleanup callbacks and unregister tokens are not marked, as in the source. Cleanup jobs are outside the heap.
- Gc.MarkingExact: its condition is about the marks in the end, not about the heap alone. GcOrder.MarkingExactWhenInOrder gives a condition on the heap that is enough but not needed: between maps that are all first reached through entries, whether an entry is missed depends on the order in which they were marked.
- The other macros of the transform: X, Assert, Throw and the IfAbrupt family follow the same hoisting with other templates; arrow functions, declarations with several declarators, generators and source positions are not modelled.
- MacrosBodies.BodyKeepsMeaning: its condition is enough but not needed; MacrosConverse shows where leaving it is seen, MacrosLimits.SameCallsMayMove where it is not. Variables are assumed distinct across scopes and temporaries fresh, as the names generated by the transform's scope analysis are; loops are cut after any number of rounds, the same for both forms.
- MacrosVisitor.WithinNotTransformablePosition: the climb stops at the statement that holds the macro; above it the source only meets bodies and branches, where it answers false, unless the macro is in a function inside a test, and functions inside expressions are not modelled.
- MacrosVisitor.Visitor.VisitMacro: the branches of Q only; X, Throw, Assert and the IfAbrupt family are left out.
- MacrosVisitor.Transform: bodies with Q and single declarators only; the traversal inside one statement is outside in, and the requeueing of inserted nodes is its recursion.
- MacrosRuntime.EvalQIsEarlyReturn: its condition on reads is exact on the bodies of MacrosSplitReads.FlatExactlyWhenOrdered; in general a read that nothing depends on may follow the macro.
- `evalQ` on a callback that returns a promise, and callbacks that throw anything but a completion.
- `Completion`, `UpdateEmpty` and `unwrapCompletion` in `src/completion.mts`: one-line case analysis.
- Breakpoints: children are given as a list; which properties of a parse node count as children (`src/parser/utils.mts:92-110`) is not modelled, nor is stepping.
- RemoteObjects: remote values, previews, realms and the protocol; objects are opaque.
- The parser, built-in objects, regular expressions and the rest of the interpreter.
