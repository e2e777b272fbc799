# Verification of the plug-in host's stateful core

This project models the stateful middle of the plug-in host in Dafny and proves what it keeps.
`dafny verify dfyconfig.toml` checks everything.

- **Runtime parameters** (`ParamPaths`, `ParamTree`, `ParamLeaves`, `ParamWrites`, `ParamSwap`,
  `ParamsStore`). The store is a flat, insertion-ordered map of leaf paths. Two commands validate a
  bag computed by one algorithm and publish the bag of another. A tree is described by what it holds
  at each path (`At`), a leaf list by its last entry comparable with a path (`DecideAt`); two leaf
  lists rebuild the same bag exactly when the same leaves survive in both. For each pair of algorithms
  the exact condition under which they agree is proved. The order in which an object lists its fields
  is left open.
- **Extension dependencies** (`Ids`, `DependencyGraph`, `KahnOrder`, `DependencyResolution`,
  `DependencyProperties`, `DependencyDeclarations`). Kahn's algorithm over expanded references, proved to
  give the least order that respects the declared references, and to succeed exactly on admissible
  declarations. `DependencyDeclarations` states both on the declarations themselves.
- **Asynchronous queues as step machines** (`OrderedStream`, `IpOrdering`, `IpAuthority`, `ScopeTree`,
  `ScopeRuns`, `TurnSerializer`). Each has a state, the atomic steps between awaits, a class whose
  methods carry out the steps, and theorems over every interleaving. The states of the two queues hold
  any number of suspended drains, and those of the authority any number of listeners and timers; that
  there is never more than one of each follows from the flags and clean-ups of the code.
- **Greedy and search algorithms** (`Options`, `Texts`, `GlobMatch`, `LineScanner`, `Fragments`,
  `FragmentBudget`, `ExclusiveSlots`, `ToolApproval`), each against a specification that does not mention the algorithm.
- **The provider swap** (`ProviderSwap`), a transaction over the selection, the runtime registry and
  the parameter store, with a failure possible at every step.

## Where the code does less than it seems to

Each item names a lemma with a concrete input and a lemma with the exact condition.

- `/params` validates a bag that may keep empty objects, while the store drops them
  (`ParamWrites.EmptyObjectWitness`). The two bags agree exactly when the validated one has no empty
  object and no leaf that has been lost, as the item on keys says (`ParamWrites.WritesAgree`).
- A swap validates new defaults with the overrides laid over them in place, and publishes overrides
  with the missing defaults appended. A write and a default on a path above it are enough for the bags
  to differ (`ParamSwap.UnsafeSwapWitness`). `ParamSwap.SwapMatches` is the exact condition
  (`ParamSwap.SwapPublishesWhatItValidated`), and `SwapSafe` what it comes to when the published
  defaults are the validated ones (`ProviderSwap.SwapPublishesValidatedParams`).
- `get` still reports a leaf that a later write on a shorter or longer path has overwritten in the bag
  (`ParamsStore.OverwrittenLeafWitness`), and it reports a leaf also at another path with the same key
  (`ParamsStore.SharedKeyReadWitness`). It agrees with the bag exactly when the leaf filed under the key
  of the path, if there is one, has the value that the last leaf at or above the path gives there
  (`ParamsStore.ReadsAgreeWithBag`; `ParamsStore.HeldAt` says this of the list of leaves).
- Keys join segments with a single space, and segments may hold spaces (`--param 'a b=1'`). Keys compare
  as the paths re-split at their spaces do, so they reflect the paths exactly when `ParamPaths.Confused`
  fails (`ParamPaths.KeysReflectPaths`). A write can then delete another path's leaf
  (`ParamWrites.ConfusedPathsWitness`). The bags still agree exactly when no leaf of the validated one is
  `ParamWrites.Lost` in this way (`ParamWrites.WritesAgree`; `ParamWrites.OneWriteAgrees`).
- An extension that names the same dependency twice is reported as part of a cycle, because in-degrees
  count references and the adjacency is a set (`DependencyDeclarations.RepeatedReferenceWitness`;
  `DependencyDeclarations.SucceedsExactlyWhenAdmissible`). The report holds a cycle exactly when there is
  one (`DependencyDeclarations.ParticipantsHoldACycle`).
- The comparator of the interaction queue contradicts itself when, on one tick, a parent request stands
  between two subagent requests against their order (`IpAuthority.MixedTieWitness`), when a subagent
  spawned at the same time as another raises twice (`IpAuthority.TiedSiblingsWitness`; spawn times are
  clock readings, `src/core/subagent/spawn.ts:274`), or when a subagent registered again raises around
  another's spawn time (`IpAuthority.RegisteredAgainWitness`). There are no other cases
  (`IpOrdering.ConsistentExactlyWhenInOrder`, for the queue of every run
  `IpAuthority.QueueIsOrderedExactlyWhen`). Subagents spawned at one time can also just be tied
  (`IpAuthority.EqualSpawnTimeWitness`); then the stable sort serves them by arrival
  (`IpOrdering.TotalExactlyWhenDecided`, `IpAuthority.TiesWaitByArrival`).
- The registry reuses a live context whatever configuration it is asked for. After the configuration
  of such an entry has changed on disk, a swap validates the new defaults and publishes the old ones,
  with a model the published configuration does not declare (`ProviderSwap.StaleContextWitness`). When the two bags are equal
  all the same is `ProviderSwap.SwapPublishesValidatedParams`; when the model is declared,
  `ProviderSwap.SelectedModelIsDeclared`. The registry's interface comment demands matching
  configurations (`src/cli/runtime/runtime-context-registry.ts:43-47`); nothing checks it.
- When persisting fails, the comment says a newly allocated context is disposed
  (`src/cli/runtime/swap-commands.ts:222-223`); the code disposes the target's context whenever the
  entry differs from the selected one, also one that was live before
  (`ProviderSwap.DisposedContextWitness`; `ProviderSwap.FailedSwapPublishesNothing`).
- For a tool with path scope, approving a key that contains `|` stores it whole, and the key is not
  approved afterwards unless it was before (`ToolApproval.WholeKeyWitness`;
  `ToolApproval.AddedIsApproved`).
- A key of bars alone has no component, so a path tool is approved for it by an empty cache
  (`ToolApproval.NothingToGrantWitness`; `ToolApproval.NothingToGrant`).
- A tool id that runs on with a colon into another lets approvals of one answer for the other
  (`ToolApproval.ClashWitness`); `ToolApproval.Clash` is the exact condition for each scope
  (`ToolApproval.FollowsRuleExactlyWhenUnambiguous`).

One suspicion proved harmless: parsed values are inserted into the validated tree by reference, so a
later write can change an earlier value before it is stored; `ParamWrites.SharingIsHarmless` shows that
this never matters.

## Model

| member | source | states |
|---|---|---|
| ParamPaths.KeysReflectPaths | src/cli/runtime/params-runtime.ts:70-72 | for all non-empty paths, equality of joined keys and the `startsWith(key + " ")` test are equality and strict extension of the paths if and only if the paths are not confused |
| ParamPaths.KeysReflectResplitPaths | src/cli/runtime/params-runtime.ts:70-72 | for all non-empty paths the two string tests compare the paths re-split at the separator |
| ParamPaths.SeparatorInSegmentCollides | src/cli/runtime/params-runtime.ts:70-72 | a segment holding the separator gives two different paths one key, and another such segment does no harm |
| ParamPaths.SeparatorFreeIsClear | src/cli/runtime/params-runtime.ts:70-72 | paths whose segments hold no separator are never confused |
| ParamTree.SameSurvivorsSameTree | src/cli/runtime/params-runtime.ts:90-107 | two leaf lists rebuild the same bag if and only if at every path the same leaf is the last one comparable with it |
| ParamTree.FlattenThenRebuild | src/cli/runtime/params-runtime.ts:74-107 | flattening a bag and rebuilding it gives it back if and only if it holds no empty object, for every order of fields |
| ParamTree.RebuildThenFlatten | src/cli/runtime/params-runtime.ts:74-107 | the rebuilt bag holds exactly the leaves of the list, all of them and nothing else, if and only if no path in the list is a strict prefix of another |
| ParamLeaves.WriteByPath | src/cli/runtime/params-runtime.ts:140-156 | one write deletes exactly the leaves whose re-split path is the re-split written path or extends it, which are those at and below the path unless confused with it, and appends the value's leaves, all of them if and only if they have different keys |
| ParamLeaves.WriteKeepsSound | src/cli/runtime/params-runtime.ts:140-156 | any write of any value at any path keeps keys distinct and every override filed before those whose paths extend its own |
| ParamWrites.RunsKeepSound | src/cli/runtime/params-runtime.ts:140-156 | the same through any sequence of writes |
| ParamWrites.WritesAgree | src/cli/runtime/params-runtime.ts:140-156 | after any sequence of writes, when each value has its leaves under different keys, the store's bag equals the tree with all writes applied if and only if that tree has no empty object and no lost leaf, that is none that a write not at or above it has deleted by its key since it was last written |
| ParamWrites.OneWriteAgrees | src/cli/runtime/params-runtime.ts:140-156 | for one write of any value at any path the bags are equal if and only if the tree has no empty object, no leaf is lost and the value's leaves have different keys |
| ParamWrites.ClearPathsAreSafe | src/cli/runtime/params-runtime.ts:70-72 | while no two paths in play are confused, no leaf is lost and no value has two leaves under one key |
| ParamWrites.ConfusedPathsWitness | src/cli/runtime/params-runtime.ts:140-156 | a write at a confused path after which the bags differ though nothing is empty |
| ParamWrites.SharingIsHarmless | src/cli/runtime/params-command.ts:93-127 | replaying the values as the shared tree has changed them gives the same tree as the values as parsed |
| ParamWrites.CommandPublishesWhatItValidated | src/cli/runtime/params-command.ts:93-127 | replaying the values as the shared tree has left them publishes the validated bag if and only if that bag has no empty object and no lost leaf, when each parsed value has its leaves under different keys |
| ParamWrites.FullValuesProjectFull | src/cli/runtime/params-command.ts:93-96 | writes whose values hold no empty object leave a validated bag without one |
| ParamWrites.EmptyObjectWitness | src/cli/runtime/params-command.ts:93-127 | one write of an empty object after which the two bags differ |
| ParamSwap.SwapPublishesWhatItValidated | src/cli/runtime/params-runtime.ts:158-179 | the bag projected with the target's defaults equals the bag after the live defaults are applied if and only if the overrides match the two, as `SwapMatches` says of the defaults' leaves and the overrides' paths, unless two paths of overrides and defaults have one key |
| ParamSwap.DefaultsKeepOverrides | src/cli/runtime/params-runtime.ts:158-167 | adding defaults changes no override's value, layer or place |
| ParamSwap.AppliedIsSound | src/cli/runtime/params-runtime.ts:158-167 | replacing the defaults keeps the store's invariant, whatever the keys |
| ParamSwap.AppliedKeepsOverrides | src/cli/runtime/params-runtime.ts:158-167 | replacing the defaults leaves the list of overrides as it was, whatever the keys |
| ParamSwap.UnsafeSwapWitness | src/cli/runtime/params-runtime.ts:158-179 | a store reached by one write to an empty one, and new defaults that are not swap-safe for it |
| ParamSwap.SharedKeyWitness | src/cli/runtime/params-runtime.ts:169-179 | a default that shares its key with an override at another path, so that the order of the defaults' fields decides which bag is validated |
| ParamsStore.WriteThroughCursor | src/cli/runtime/params-command.ts:152-167 | walking the cursor and assigning at its end is the functional update at the path, replacing anything in the way that is not an object |
| ParamsStore.LeafMapToTree | src/cli/runtime/params-runtime.ts:90-107 | the rebuilt bag in which later leaves overwrite earlier ones |
| ParamsStore.FlattenLeaves | src/cli/runtime/params-runtime.ts:74-88 | the map afterwards is the map before with some listing of the value's leaves set in order |
| ParamsStore.ParamsRuntimeStore.constructor | src/cli/runtime/params-runtime.ts:181-187 | the store starts with the leaves of the defaults, or empty, and is sound |
| ParamsStore.ParamsRuntimeStore.Set | src/cli/runtime/params-runtime.ts:140-156 | an empty path changes nothing; otherwise the store is what writing the value at the path leaves, and it stays sound |
| ParamsStore.ParamsRuntimeStore.ApplyDefaultParams | src/cli/runtime/params-runtime.ts:158-167 | old defaults go, new ones are added where no key is taken, the list of overrides is unchanged and the store stays sound |
| ParamsStore.ParamsRuntimeStore.ProjectMergedBagWithDefaults | src/cli/runtime/params-runtime.ts:169-179 | the bag of the new defaults with the overrides laid over them; the store is untouched |
| ParamsStore.ParamsRuntimeStore.AsMergedBag | src/cli/runtime/params-runtime.ts:201 | the bag of all leaves |
| ParamsStore.ParamsRuntimeStore.Get | src/cli/runtime/params-runtime.ts:122-138 | a leaf filed at the path, else what a cursor finds in the bag, walking objects by field and arrays by index, with the layer of the last leaf below |
| ParamsStore.ParamsRuntimeStore.GetEffective | src/cli/runtime/params-runtime.ts:109-120 | the top-level keys of the bag with their values and the layer of the last leaf under each |
| ParamsStore.EffectiveShowsFiledKeys | src/cli/runtime/params-runtime.ts:109-120 | the view shows a key if and only if some leaf is filed under it, with the value the bag has there and the layer of the last leaf under it, so its fallback layer is never used |
| ParamsStore.ReadsAgreeWithBag | src/cli/runtime/params-runtime.ts:122-138 | a read returns what the bag holds at the path if and only if the list of leaves holds there the value of the leaf filed under the path's key, if any |
| ParamsStore.BagHolds | src/cli/runtime/params-runtime.ts:90-138 | a cursor finds a leaf value at a path of the bag if and only if an entry at the path that no later one is comparable with has it, or such an entry above is an array with the value at the rest of the path |
| ParamsStore.ArrayReads | src/cli/runtime/params-runtime.ts:127-131 | an array is read by the decimal spellings of its indices and by its length, and by nothing else |
| ParamsStore.ReadingShowsLastLayer | src/cli/runtime/params-runtime.ts:132-137 | a read at a path under whose key no leaf is filed shows the layer of the last leaf whose re-split path extends its own, and that of the defaults when there is none |
| ParamsStore.ShownWhenUndisturbed | src/cli/runtime/params-runtime.ts:90-107 | a filed leaf is the last one comparable with its path if and only if no later entry has a comparable path |
| ParamsStore.OverwrittenLeafWitness | src/cli/runtime/params-runtime.ts:122-125 | two writes after which `get` reports a leaf the bag no longer holds |
| ParamsStore.SharedKeyReadWitness | src/cli/runtime/params-runtime.ts:122-125 | one write after which `get` reports the leaf at a path where the bag holds nothing |
| ParamsStore.ParseLaunchParam | src/cli/launch-args.ts:172-198 | a token parses if and only if something other than dots stands before its first `=`; the path then has non-empty segments without dots, and the value is what the text after it is as JSON, or the text itself when it is none |
| ParamsStore.LaunchParamRoundTrip | src/cli/launch-args.ts:172-198 | parts spelled with dots, `=` and any text parse back to the non-empty parts and to the text as JSON, or as itself when it is none |
| ParamsStore.ParseWrites | src/cli/runtime/params-command.ts:78-88 | the writes of all tokens in order, or nothing when any of them does not parse |
| ParamsStore.SpelledTokensParse | src/cli/runtime/params-command.ts:78-88 | a list of well-formed tokens parses to their paths in order, each with its text as JSON or as itself |
| ParamsStore.ProjectWrites | src/cli/runtime/params-command.ts:93-96 | the tree with all writes applied in order, and what the shared values have become by then |
| ParamsStore.PersistWrites | src/cli/runtime/params-command.ts:126-141 | the store goes through one write after another, with one change reported for each |
| ParamsStore.DispatchParamsCommand | src/cli/runtime/params-command.ts:53-150 | without tokens the effective view is shown; refusal in mid-act, a token that does not parse and failed validation change nothing; what is validated and written for well-formed tokens is each text as JSON or as itself at the path spelled; an update reports one change per token and publishes the validated bag exactly when it has no empty object and no lost leaf, when each value has its leaves under different keys |
| ParamsStore.BuildSessionParamsStore | src/cli/runtime/params-runtime.ts:214-225 | launch overrides are written over seeded defaults, those without a path ignored; the store is sound, and its bag is the tree with the overrides applied exactly when that has no empty object and no lost leaf, when each value has its leaves under different keys |
| DependencyResolution.BuildGraph | src/contracts/dependency-resolution.ts:197-252 | the counters and dependents represent the expanded graph, or the first reference that names nothing is reported |
| KahnOrder.KahnSort | src/contracts/dependency-resolution.ts:258-287 | every element is the least ready one when it is appended, and nothing is ready at the end |
| DependencyResolution.ResolveDependencies | src/contracts/dependency-resolution.ts:307-334 | the verdict on the greedy order of the graph, or the first missing reference |
| DependencyDeclarations.EdgesAreDependencies | src/contracts/dependency-resolution.ts:215-249 | one extension is an edge of another if and only if some declaration of the other names it, or names a category of which it is another member |
| DependencyDeclarations.EdgesAreCounted | src/contracts/dependency-resolution.ts:215-249 | it is an edge as many times as the declarations name it, by itself or once for each declaration of it in a named category |
| DependencyDeclarations.SucceedsExactlyWhenAdmissible | src/contracts/dependency-resolution.ts:307-334 | success if and only if every reference names something declared, ids are distinct, no extension is named twice by one declaration and no chain of dependencies closes; the failure is a missing dependency exactly when some reference names nothing |
| DependencyDeclarations.NoneTwiceWhenNoRepeats | src/contracts/dependency-resolution.ts:215-249 | with distinct ids no extension is an edge twice if and only if no two references of one declaration name the same extension, directly or by category |
| DependencyDeclarations.FirstMissingIsReported | src/contracts/dependency-resolution.ts:215-240 | a missing dependency is reported for the first reference, in order of declaration, that names nothing |
| DependencyDeclarations.ResolvedOrder | src/contracts/dependency-resolution.ts:258-333 | the init order lists every declared extension once, each after every extension it names and every other member of a category it names, and is the least such list; the dispose order is its reverse and has each extension before those |
| DependencyDeclarations.ParticipantsHoldACycle | src/contracts/dependency-resolution.ts:313-325 | participants are listed once each in order of declaration; every circle of declared dependencies lies among them, and they hold one if and only if there is one; when nothing is named twice every participant depends on one of them |
| DependencyDeclarations.RepeatedReferenceWitness | src/contracts/dependency-resolution.ts:228-229 | an acyclic pair of declarations reported as a cycle because one reference is repeated |
| DependencyProperties.RearrangingChangesNothing | src/contracts/dependency-resolution.ts:258-287 | permuting the declarations and their references changes neither success nor the order |
| DependencyGraph.ReachesAllIffAcyclic | src/contracts/dependency-resolution.ts:258-287 | an exhausted greedy order covers the graph if and only if it has no double references and no cycle |
| DependencyGraph.GreedyIsLeast | src/contracts/dependency-resolution.ts:258-287 | a greedy order is at most every other topological order, element by element |
| OrderedStream.OneDrainWhileRunning | src/core/events/command-ordering.ts:92-98 | in every run there is one drain while the flag is set and none otherwise, at most one task in flight, and a drain whenever a task waits |
| OrderedStream.StartsInSubmissionOrder | src/core/events/command-ordering.ts:92-147 | in every run the started tasks are a prefix of the accepted ones in submission order, and only a cancellation drops any |
| OrderedStream.SettlesExactlyOnce | src/core/events/command-ordering.ts:59-147 | no task settles twice, refused ones never settle here, and once the drain is idle or the session cancelled every accepted task has settled |
| OrderedStream.SettlementOrder | src/core/events/command-ordering.ts:59-121 | settlements follow submission order, except that a cancelling task settles after all queued behind it, those with its error |
| OrderedStream.FinishSettlesAsEnded | src/core/events/command-ordering.ts:107-116 | in every run a finishing step settles the awaited task, last of all, with exactly the outcome its work ended in, and before it nothing, or if that outcome is a cancellation every queued task, cancelled and in order |
| OrderedStream.HeadIsStarted | src/core/events/command-ordering.ts:68-107 | in every run a drain that finds work starts the head of the queue; an event whose tick does not exceed the last emitted one is rejected as out of order and not emitted, any other event emits its own tick, and a command emits nothing |
| OrderedStream.OthersDoNothing | src/core/events/command-ordering.ts:92-121 | in every run no other step starts, settles or emits anything |
| OrderedStream.TasksAreSubmitted | src/core/events/command-ordering.ts:123-147 | in every run tasks are numbered by submission, and each one waiting or in flight has the kind it was submitted with |
| OrderedStream.PendingCountsQueuedAndInFlight | src/core/events/command-ordering.ts:43-57 | each pending counter is the number of queued and in-flight tasks of its kind |
| OrderedStream.CancelledMeansEmpty | src/core/events/command-ordering.ts:99-103 | after a cancellation nothing waits and nothing is in flight, so the cancelled branch inside the loop is never taken |
| OrderedStream.EmittedSequenceIncreases | src/core/events/command-ordering.ts:68-90 | emitted sequence numbers are positive and strictly increase, and the last one is what is remembered, though some events are rejected |
| OrderedStream.SettlementsAreFinal | src/core/events/command-ordering.ts:59-121 | from any point of a run to its end the records of starting, settling and emitting are only appended to, and a cancellation is for good |
| OrderedStream.Stream.ProcessQueue | src/core/events/command-ordering.ts:92-98 | a call returns at once while a drain runs and otherwise starts one |
| OrderedStream.Stream.Submit | src/core/events/command-ordering.ts:123-147 | the step that queues and counts a task and calls the drain function, or refuses it once cancelled |
| OrderedStream.Stream.EmitOrderedEvent | src/core/events/command-ordering.ts:68-90 | a tick is emitted and remembered exactly when it exceeds the last one |
| OrderedStream.Stream.DrainSessionCancellation | src/core/events/command-ordering.ts:59-66 | every queued task is rejected with the cancellation, in order, and uncounted |
| OrderedStream.Stream.Advance | src/core/events/command-ordering.ts:99-121 | the step in which a drain takes the next task and runs it up to its first await, or ends and clears the flag |
| OrderedStream.Stream.Finish | src/core/events/command-ordering.ts:107-116 | the step in which an awaited task settles, draining the queue first when it ends in a session cancellation |
| IpOrdering.ConsistentExactlyWhenInOrder | src/cli/runtime/ip-authority.ts:139-156 | for all queues the comparator is consistent, being no later is transitive, if and only if on each tick siblings spawned around another subagent are ordered like their spawn times and no parent entry stands between two subagent entries against their order |
| IpOrdering.TotalExactlyWhenDecided | src/cli/runtime/ip-authority.ts:139-156 | it is a strict total order if and only if, besides, no two subagent entries of a tick are tied |
| IpOrdering.TotalExactlyWhenParentsKeepOrder | src/cli/runtime/ip-authority.ts:139-156 | with keyed subagent entries only parents can stand in the way of a strict total order, and none do when no tick mixes the two kinds |
| IpOrdering.StableOrderIsUnique | src/cli/runtime/ip-authority.ts:318 | a queue has one rearrangement that follows the comparator and leaves ties as they stood, so the stable sort is determined whenever the comparator is consistent |
| IpAuthority.OneDrainOneListenerOneTimer | src/cli/runtime/ip-authority.ts:200-326 | in every run there is one drain while the flag is set and none otherwise, a listener exactly for the request it awaits, and a timer exactly if that request has one |
| IpAuthority.EachRequestIsAnsweredOnce | src/cli/runtime/ip-authority.ts:257-326 | in every run each request is waiting, in flight or settled and only one of these, at most one is in flight, none settles twice by answer or timer, and settlements follow serving |
| IpAuthority.WaitingRequestsAreServed | src/cli/runtime/ip-authority.ts:303-326 | a waiting request implies an active drain or a pending microtask; with neither, everything raised has settled |
| IpAuthority.SettlementsAreFinal | src/cli/runtime/ip-authority.ts:200-240 | from any point of a run to its end the records of serving and settling are only appended to |
| IpAuthority.AnswersDecideOutcomes | src/cli/runtime/ip-authority.ts:205-236 | in every run an answer or timer for the request in flight settles it and nothing else does: as resolved exactly when the answer is accepted, as timed out exactly for a timer or a timeout answer, as headless exactly for a halt, and otherwise, a missing status included, as a cancelled turn |
| IpAuthority.RaisedAsAsked | src/cli/runtime/ip-authority.ts:257-367 | in every run what waits or was served is exactly what some step raised, with the time and timer it gave and, for a subagent, its spawn time and sequence number at that moment |
| IpAuthority.ServesByTheRule | src/cli/runtime/ip-authority.ts:139-156 | in every run, when a drain serves a queue on which the comparator is consistent, no waiting request has an earlier tick; or on the same tick a lower sequence within the subagent, an earlier spawn time than another subagent, or, with a parent request among the two, an earlier arrival |
| IpAuthority.AdvancingClockServesInArrivalOrder | src/cli/runtime/ip-authority.ts:315-321 | when every raise has a later tick than those before, requests are served in arrival order |
| IpAuthority.BatchIsServedInOrder | src/cli/runtime/ip-authority.ts:303-321 | while nothing new is raised, a queue on which the comparator is consistent is served in its stable order |
| IpAuthority.TiesWaitByArrival | src/cli/runtime/ip-authority.ts:315-321 | in every run in which each queue sorted was consistent, tied requests wait in order of arrival, and so are served |
| IpAuthority.QueueIsOrderedExactlyWhen | src/cli/runtime/ip-authority.ts:139-156 | in every run, whatever was registered, the exact conditions for a consistent and for a total comparator apply to the queue |
| IpAuthority.QueuesHaveKeyedChildren | src/cli/runtime/ip-authority.ts:349-366 | subagents registered once each with different spawn times give keyed entries, so that only parent requests can stand in the way |
| IpAuthority.MixedTieWitness | src/cli/runtime/ip-authority.ts:139-156 | a run that reaches a queue on which the comparator goes in a circle |
| IpAuthority.EqualSpawnTimeWitness | src/cli/runtime/ip-authority.ts:144-148 | a run that reaches a queue of two tied requests, consistent but not total |
| IpAuthority.TiedSiblingsWitness | src/cli/runtime/ip-authority.ts:144-152 | a run that reaches a contradictory queue without any parent request, from equal spawn times |
| IpAuthority.RegisteredAgainWitness | src/cli/runtime/ip-authority.ts:368-374 | a run that reaches a circular queue without a parent request or a tie, from a second registration |
| IpAuthority.Authority.Enqueue | src/cli/runtime/ip-authority.ts:257-307 | the entry joins the queue with the next arrival number and a microtask is pending for it |
| IpAuthority.Authority.Raise | src/cli/runtime/ip-authority.ts:340-348 | a parent request is queued without attribution |
| IpAuthority.Authority.RaiseFromSubagent | src/cli/runtime/ip-authority.ts:349-367 | an unregistered subagent is refused; otherwise the entry carries its spawn time and next sequence number |
| IpAuthority.Authority.RegisterSubagent | src/cli/runtime/ip-authority.ts:368-374 | the subagent's sequence starts over at zero |
| IpAuthority.Authority.UnregisterSubagent | src/cli/runtime/ip-authority.ts:375-377 | later raises of the subagent are refused; queued ones stay |
| IpAuthority.Authority.ProcessNext | src/cli/runtime/ip-authority.ts:309-312 | a microtask calls the drain function, which returns at once while a drain runs or nothing waits and otherwise starts one |
| IpAuthority.Authority.ServeNext | src/cli/runtime/ip-authority.ts:315-321 | one turn of a drain: the head of a sorted rearrangement is put to the interactor, or the drain ends and clears the flag |
| IpAuthority.Authority.RunEntryAgainst | src/cli/runtime/ip-authority.ts:200-240 | a listener is registered under a new request id, the timer armed if the request has one, and the drain suspended on it |
| IpAuthority.Authority.Hear | src/cli/runtime/ip-authority.ts:205-226 | a registered listener is removed, its timer cleared and its entry settled by the status; without one nothing happens |
| IpAuthority.Authority.AnswerReceived | src/cli/runtime/ip-authority.ts:205-226 | an answer reaches the listeners of the request and of the correlation it names, and is ignored without any |
| IpAuthority.Authority.TimerFired | src/cli/runtime/ip-authority.ts:229-236 | the timer's listener is removed, its entry settles as timed out and the drain that awaits it goes on |
| ScopeRuns.CancelReachesLiveDescendants | src/core/concurrency/scope.ts:77-94 | cancelling aborts exactly the scope and its live descendants, they with reason "parent" and it with the caller's, signals firing children first and siblings in creation order |
| ScopeRuns.AbortedScopesAreClosed | src/core/concurrency/scope.ts:55-103 | in every run of child and cancel operations everything under an aborted scope is aborted and each signal fires once |
| ScopeRuns.ReasonsAreFinal | src/core/concurrency/scope.ts:55-103 | between any two points of a run no abort error changes and no scope disappears |
| ScopeRuns.AbortedExactlyUnderCancelled | src/core/concurrency/scope.ts:55-103 | a scope is aborted if and only if it or a scope above it has been cancelled in the run |
| ScopeRuns.ErrorsNameTheirScope | src/core/concurrency/scope.ts:77-125 | in every run an abort error carries the kind, and the code for that kind, of the scope itself or of one above it |
| ScopeRuns.ChildInheritsError | src/core/concurrency/scope.ts:55-75 | in every run a new scope has the kind asked for, no child, and the abort error of its parent or none; no other error changes |
| ScopeRuns.Scopes.Child | src/core/concurrency/scope.ts:96-100 | the new scope is last among its siblings; under an aborted scope it starts aborted with the same error and listens to nothing |
| ScopeRuns.Scopes.Abort | src/core/concurrency/scope.ts:60-75 | when no child is live, firing the signal changes one scope and no listener has anything to do |
| ScopeRuns.Scopes.Cancel | src/core/concurrency/scope.ts:77-94 | the tree and the firing order are those of the specification, and no parent-signal listener ever found its scope live |
| ScopeTree.LiveFromIsPostOrder | src/core/concurrency/scope.ts:88-93 | the scopes a cancellation reaches are listed without repetition, below before above and older siblings first |
| TurnSerializer.TurnsRunOneAtATimeInOrder | src/core/concurrency/serializer.ts:62-84 | in every run turns start in the order enqueued, each after all before it have settled; composed with the turn bookkeeping as the model does, the bookkeeping never refuses one |
| TurnSerializer.QueueNeverStalls | src/core/concurrency/serializer.ts:67-81 | while turns are queued, one is running or exactly the next is startable, however earlier turns ended |
| TurnSerializer.SessionCancelReachesTurns | src/core/concurrency/serializer.ts:50-65 | the scope of every turn, running, queued or enqueued later, is a turn scope under the session scope, and its signal is aborted once that of the session is |
| TurnSerializer.Serializer.EnqueueTurn | src/core/concurrency/serializer.ts:62-84 | the turn gets a child scope of the session at once and is chained to the tail |
| TurnSerializer.Serializer.StartTurn | src/core/concurrency/serializer.ts:67-73 | the step in which a turn begins once its predecessor has settled either way; marking its start in the same step is the model's composition, not in the cited lines |
| TurnSerializer.Serializer.SettleTurn | src/core/concurrency/serializer.ts:78-81 | the step in which a running turn settles; marking its end in the same step is the model's composition, not in the cited lines |
| TurnSerializer.ExecutionInvariants.MarkTurnStart | src/core/execution-model/invariants.ts:141-145 | refused exactly when the session has an active turn; other sessions are untouched |
| TurnSerializer.ExecutionInvariants.MarkTurnEnd | src/core/execution-model/invariants.ts:147-152 | clears the active turn only if it is the one named |
| GlobMatch.SegmentCharsMeaning | src/core/extension-isolation/asserts.ts:186-212 | a segment matches if and only if it splits into one block per glob character, `*` taking any block and any other character itself |
| GlobMatch.SegmentMeaning | src/core/extension-isolation/asserts.ts:176-184 | the shortcut for a lone `*` agrees with the general matcher |
| GlobMatch.PathMeaning | src/core/extension-isolation/asserts.ts:148-174 | a path matches if and only if it splits into one block of segments per glob segment, `**` taking any block and anything else one fitting segment |
| GlobMatch.GlobMeaning | src/core/extension-isolation/asserts.ts:135-139 | on whole strings, the same about their normalized segments |
| GlobMatch.NormalizedSegments | src/core/extension-isolation/asserts.ts:141-146 | normalizing leaves non-empty segments without slashes, and such segments joined by slashes come back unchanged |
| GlobMatch.EitherSlashSeparates | src/core/extension-isolation/asserts.ts:141-146 | a slash or a backslash between two texts separates their segments |
| GlobMatch.DirectoryExclusion | src/core/extension-isolation/asserts.ts:46-46 | a directory name followed by `**` matches exactly the paths that begin with that directory |
| LineScanner.FindLineMatches | src/core/extension-isolation/asserts.ts:214-242 | for each term in turn, the pieces of the line at its whole-word occurrences |
| LineScanner.FindTerm | src/core/extension-isolation/asserts.ts:219-238 | the pieces of the line at all whole-word occurrences of one term whose first character does not recur |
| LineScanner.HitsAreTheOccurrences | src/core/extension-isolation/asserts.ts:222-238 | the listed places are exactly the whole-word occurrences, in ascending order |
| LineScanner.HitStep | src/core/extension-isolation/asserts.ts:237-237 | skipping a full term length after an occurrence skips no other one, for terms whose first character does not recur |
| LineScanner.OneTermPerPlace | src/core/extension-isolation/asserts.ts:218-238 | no place is a whole-word occurrence of two banned terms |
| LineScanner.NoMatchMeansClean | src/core/extension-isolation/asserts.ts:214-242 | nothing is reported if and only if no term occurs as a whole word |
| LineScanner.WordCharacters | src/core/extension-isolation/asserts.ts:47-49 | word characters are the ASCII letters, the digits and the underscore |
| LineScanner.FoldingIgnoresCase | src/core/extension-isolation/asserts.ts:214-216 | two lines fold to one exactly when they differ in case only, and folding leaves no capital |
| LineScanner.CleanOfAllTerms | src/core/extension-isolation/asserts.ts:37-44 | a line without a match has none of the six terms as a whole word |
| FragmentBudget.EnforcePerProviderBudget | src/core/context/assembler.ts:214-244 | each fragment, in its place, keeps as much of its content as its owner has left |
| FragmentBudget.OwnersKeepAPrefix | src/core/context/assembler.ts:214-244 | what an owner keeps in all is the first part of what it offered, as many characters as its first fragment's budget has whole units, none when that is negative |
| FragmentBudget.EveryPointKeepsAPrefix | src/core/context/assembler.ts:220-241 | the same after every fragment of the list |
| FragmentBudget.EachKeepsWhatIsLeft | src/core/context/assembler.ts:214-244 | every fragment keeps the longest beginning of its content that fits into what the fragments of its owner before it leave of the budget of the first of them |
| FragmentBudget.ClippingIsUnique | src/core/context/assembler.ts:214-244 | no other list of the same fragments has that property |
| FragmentBudget.ChangedExactlyWhenOverBudget | src/core/context/assembler.ts:224-240 | only content changes, to a prefix; it changes if and only if it is not empty and its owner is over budget by its end |
| FragmentBudget.EmitFragmentTruncations | src/core/context/assembler.ts:246-264 | one event per changed fragment, in order, with its owner and its content before and after |
| FragmentBudget.EventsNameOverBudget | src/core/context/assembler.ts:246-264 | after clipping a fragment is named if and only if its owner is over budget by its end |
| ExclusiveSlots.ApplyExclusiveSlots | src/core/context/provider-runtime.ts:102-141 | the fragments nothing beats are kept in order; every conflict names a slot, a dropped fragment's owner and an owner that beats it, each dropped fragment once |
| ExclusiveSlots.OneSurvivorPerSlot | src/core/context/provider-runtime.ts:107-140 | each claimed slot keeps exactly one fragment, the first among those of the least owner, and unslotted fragments are all kept |
| ExclusiveSlots.KeptAreUnbeaten | src/core/context/provider-runtime.ts:140-140 | what is kept of any beginning of the list is exactly its fragments that nothing beats, unchanged and in order |
| ExclusiveSlots.ConflictsCountDropped | src/core/context/provider-runtime.ts:121-140 | kept fragments and conflicts add up to the fragments offered |
| ExclusiveSlots.SurvivorHasTopPriority | src/core/context/provider-runtime.ts:93-100 | in priority order the survivor has the highest priority its owner claims the slot with |
| ToolApproval.ScanFollowsRule | src/cli/runtime/tool-approval.ts:51-80 | over any run of adds and clears, when no two tool ids clash, the scan of string keys answers as the rule on granted components does |
| ToolApproval.FollowsRuleExactlyWhenUnambiguous | src/cli/runtime/tool-approval.ts:27-127 | every run over any tool ids answers every request by the rule if and only if no two ids clash, that is run on with a colon one into the other with nothing between them that the scopes keep out of components |
| ToolApproval.SpelledKeyAllowed | src/cli/runtime/tool-approval.ts:35-80 | a path tool is approved for parts joined with bars if and only if every non-empty part is covered by something granted to that tool |
| ToolApproval.SpelledKeyGrants | src/cli/runtime/tool-approval.ts:82-98 | remembering parts joined with bars grants a path-set tool each non-empty part, any other tool the key itself, and nothing else to anyone |
| ToolApproval.RootKey | src/cli/runtime/tool-approval.ts:35-39 | the empty key and the dot both stand for the workspace root |
| ToolApproval.PartlyGrantedWitness | src/cli/runtime/tool-approval.ts:76-79 | `src` granted does not approve `src|etc` |
| ToolApproval.ColonFreeIsUnambiguous | src/cli/runtime/tool-approval.ts:27-29 | ids without a colon meet the condition |
| ToolApproval.ClashLeaks | src/cli/runtime/tool-approval.ts:56-63 | of any two ids that clash, an approval given to one answers for the other |
| ToolApproval.ClashWitness | src/cli/runtime/tool-approval.ts:56-63 | approving `x` for the tool `fs:write` approves `write:x` for the tool `fs` |
| ToolApproval.NothingToGrant | src/cli/runtime/tool-approval.ts:35-80 | an empty cache, like the rule, approves exactly the keys made of bars alone, for tools with path scopes |
| ToolApproval.CoversMeansPathPrefix | src/cli/runtime/tool-approval.ts:42-49 | apart from the workspace root, covering is being a prefix segment by segment |
| ToolApproval.CoverageIsTransitive | src/cli/runtime/tool-approval.ts:42-49 | coverage is reflexive and transitive |
| ToolApproval.ApprovalsAreMonotone | src/cli/runtime/tool-approval.ts:68-80 | what is approved stays approved when more is remembered |
| ToolApproval.AddedIsApproved | src/cli/runtime/tool-approval.ts:82-98 | a key just added is approved, except that for path scope a key with a bar is approved only if it was before |
| ToolApproval.WholeKeyWitness | src/cli/runtime/tool-approval.ts:82-98 | a path-scope key with a bar that is not approved after it has been added |
| ToolApproval.ApprovalCache.IsPathApprovalCovered | src/cli/runtime/tool-approval.ts:51-66 | true exactly when some stored key of the tool covers the requested one, in whatever order keys are scanned |
| ToolApproval.ApprovalCache.IsToolApproved | src/cli/runtime/tool-approval.ts:68-80 | an exact key is looked up; a path key needs every component covered |
| ToolApproval.ApprovalCache.Query | src/cli/runtime/tool-approval.ts:104-109 | the answer is that of the rule over everything granted since the last clear |
| ToolApproval.ApprovalCache.Remember | src/cli/runtime/tool-approval.ts:82-98 | the keys added are those of the components for a path set and the key itself otherwise |
| ToolApproval.ApprovalCache.Forget | src/cli/runtime/tool-approval.ts:122-125 | nothing is remembered after a clear |
| ProviderSwap.ResolveProviderTarget | src/cli/runtime/swap-commands.ts:103-133 | resolves exactly configured entries of one of the four protocols that pass their schema, to the preferred model when declared and else to the first declared one; each failure is reported exactly in its own case |
| ProviderSwap.ResolveModelTarget | src/cli/runtime/swap-commands.ts:135-155 | resolves exactly models the selected entry declares, changing nothing but the model |
| ProviderSwap.RuntimeContextRegistry.Ensure | src/cli/runtime/runtime-context-registry.ts:101-136 | a live context is returned as it is; a new one is kept only if initialising succeeds |
| ProviderSwap.RuntimeContextRegistry.Get | src/cli/runtime/runtime-context-registry.ts:89-99 | answers exactly for allocated entries |
| ProviderSwap.RuntimeContextRegistry.Dispose | src/cli/runtime/runtime-context-registry.ts:138-146 | the entry has no context afterwards and no other is touched |
| ProviderSwap.ActiveSelection.Swap | src/cli/runtime/active-selection.ts:33-39 | publishes the selection and raises the revision by one |
| ProviderSwap.Session.PrepareAndPersist | src/cli/runtime/swap-commands.ts:213-231 | the registry afterwards in each of the cases that preparing fails, persisting fails, or neither |
| ProviderSwap.Session.Publish | src/cli/runtime/swap-commands.ts:233-249 | the default layer and the selection become those of the prepared context |
| ProviderSwap.Session.PerformSwap | src/cli/runtime/swap-commands.ts:176-296 | the first failing step decides the result, and the state afterwards is that of the transition; selected entry and registry stay in step |
| ProviderSwap.Session.DispatchProviderCommand | src/cli/runtime/swap-commands.ts:329-354 | nothing to do without entries, no change without a target, otherwise the swap to the resolved target |
| ProviderSwap.Session.DispatchModelCommand | src/cli/runtime/swap-commands.ts:361-382 | fails without any change, or changes only the model and publishes the validated parameters exactly when they are swap-safe |
| ProviderSwap.FailedSwapPublishesNothing | src/cli/runtime/swap-commands.ts:189-231 | a rejected or throwing swap leaves selection, revision and parameters; the registry too, except exactly when persisting fails for another entry that was live before |
| ProviderSwap.DisposedContextWitness | src/cli/runtime/swap-commands.ts:222-231 | persisting fails for another entry whose context was live, and the context is gone |
| ProviderSwap.SwapPublishesValidatedParams | src/cli/runtime/swap-commands.ts:185-249 | a swap publishes the validated bag if and only if the overrides match the target's and the prepared context's defaults; when the context has the target's configuration, if and only if no default that is not overridden has a path comparable with an override's, and an overridden one has no override above it unless it also has one below |
| ProviderSwap.StaleContextWitness | src/cli/runtime/runtime-context-registry.ts:106-109 | a reused context with another configuration: other parameters published than validated, and an undeclared model |
| ProviderSwap.SelectedModelIsDeclared | src/cli/runtime/swap-commands.ts:243-249 | through any sequence of swaps the selected model is declared by the selected configuration if and only if the context prepared by the last success declared it |
| ProviderSwap.RegistryHoldsSelection | src/cli/runtime/runtime-context-registry.ts:89-146 | through any sequence of swaps the registry holds the selected entry with the selected configuration |
| ProviderSwap.RevisionCountsSwaps | src/cli/runtime/active-selection.ts:33-39 | the revision is the number of successful swaps |
| ProviderSwap.OverridesSurviveSwaps | src/cli/runtime/params-runtime.ts:158-167 | no sequence of swaps changes a runtime override, whatever the keys, or leaves the store unsound |
| ProviderSwap.DefaultsComeFromSelection | src/cli/runtime/swap-commands.ts:236-249 | once a swap has succeeded, the store is the first one with its default layer replaced by that of the selected configuration |

## Left out

- ParamWrites.WritesAgree: values with two leaves under one key are excluded from the converse, because the order of their fields decides which leaf is filed; `ParamWrites.OneWriteAgrees` has no such exclusion.
- ParamSwap.SwapPublishesWhatItValidated: nothing is said when two paths of overrides and defaults have one key, because then the order of the defaults' fields decides what is validated (`ParamSwap.SharedKeyWitness`).
- ParamsStore.ParamsRuntimeStore.Get: keys found on an object's or array's prototype are not modelled, because bags are plain data.
- ParamsStore.DispatchParamsCommand: JSON parsing is a parameter, as is validation, because the schema library is not part of this model; redaction, audit records and the text of notifications are left out.
- ParamsStore.WriteThroughCursor: objects are values, so the in-place update of a shared tree appears as a new tree; what sharing changes is modelled by `ParamWrites.AfterWrite`.
- IpAuthority.Authority.AnswerReceived: the delivery of one answer is taken as atomic, although an answer emitted again from inside another handler could reach a listener already removed; request ids are numbers in order of issue, standing for random ones; display context and event payloads are left out.
- ScopeRuns.Scopes.Cancel: abort handlers that call back into the scopes are left out, so each cancellation runs to its end before the next operation.
- TurnSerializer.Serializer.StartTurn: a turn's work is taken to mark its start and end; the repository leaves that to the orchestrator.
- LineScanner.FindLineMatches: letter case is folded in ASCII only.
- FragmentBudget.EnforcePerProviderBudget: budgets are exact real numbers, so neither rounding nor infinities, and content is a sequence of characters rather than of UTF-16 units.
- ExclusiveSlots.ApplyExclusiveSlots: owner ids compare by a fixed total order in place of the locale's, and fragments are told apart by position, as each is a separate object.
- KahnOrder.KahnSort: ids compare character by character rather than by UTF-16 unit.
- ProviderSwap.Session.PerformSwap: negotiation, initialisation, persistence and schema validation are parameters; audit events, subscribers and the teardown hooks of a disposed context are left out, and swaps follow one another.
- ToolApproval.ApprovalCache.Query: grant times and provenance of entries are left out.
- `snapshot` and `sourceLayerAt`: projections of the same leaves.
- Request assembly beyond budgets (token counting, compaction, overflow) and the stable sort of fragments: a comparison or a library call each.
- The clock and delivery-depth checks of the execution invariants: single comparisons.
- The approval stack, settings merging, subagent spawning, provider streaming, storage and rendering: outside the modelled core or libraries not part of this model.
