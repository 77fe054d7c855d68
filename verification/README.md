# A verified model of rclnodejs

rclnodejs binds ROS 2 to Node.js. This project models the parts of it that hold state or transform
data, and proves what they promise. `dafny verify dfyconfig.toml` checks all of it.

- **Executor** (`ExecutorProtocol`, `ExecutorInvariant`, `ExecutorProperties`, `ExecutorRestart`). The
  JavaScript main thread and a background waiter share two counting semaphores, a read-write lock, a
  mutex with a condition variable, an atomic flag, a sticky guard condition, a coalescing async send and
  a hand-off vector. Every access to shared memory is a step of its own; the model is the relation
  between the states before and after a step. One inductive invariant gives mutual exclusion between
  `DoWork` and `rcl_wait`, the absence of lost wake-ups and the conservation of ready batches. Over fair
  infinite runs, `Stop` always gets past its join, and every batch stored is delivered by `DoWork` or dropped
  by `Stop`, as its entry in the history tells. Any number of `Start`..`Stop` epochs is covered. A run
  keeps the exclusion in all its continuations exactly if no callback in it starts the executor.
- **Handle manager** (`HandleManager`). What the read-locked scope asks of the wait set is exactly what it
  adds, and what is collected is exactly what is due, also if pointers were cleared while waiting.
- **Handle ownership** (`RclHandle`). A forest of mutable objects with a recursive `Reset`, proved on
  the heap, with a history of all deleters ever run.
- **Parameters** (`Parameters`, `ParameterMessages`, `ParameterStore`, `ParameterUpdates`,
  `ParameterProperties`, `ParameterDeclarations`, `ParameterOutcomes`, `ParameterRuns`, `TimeSource`, `Node`).
  Batches go through pre-callbacks, validation, veto callbacks and the commit loop. `ParameterUpdates` follows
  the code as functions of the state; the methods of `Node` and `TimeSource` work on their own fields and are
  proved against it. `ParameterOutcomes` says what one call comes to in terms of the callbacks, entries and
  overrides themselves; the other properties are proved for one call and for whole runs.
- **OpenAPI export** (`OpenApi`), **parameter events** (`ParameterEventHandler`), **service clients**
  (`Client`), **message conversion** (`MessageSerialization`), **message validation**
  (`MessageValidation`, `MessageIssues`) and **tuple strings** (`TupleParser`). `WireValues` says when what the
  validator accepts, made JSON, matches the exported schema, and when what the schema admits passes the
  validator.

Where the code does not keep a promise on all inputs, one theorem gives the exact condition under which
it does, and another an input where it does not:

- A callback that stops the executor and starts it again lets the new thread into `rcl_wait` beside `DoWork`
  (`RestartInCallbackBreaksExclusion`); `RunExcludedIff` says exactly which runs exclude that.
- A batch that removes a parameter and sets it again leaves the parameter without a descriptor
  (`RevivalBreaksStore`); `CommitKeepsGoodStoreIff` says exactly which batches are harmless.
- A batch that names `use_sim_time` twice can leave the time source out of step with the stored value
  (`DuplicatesBreakSync`, `SetKeepsSyncIff`): the hook reads the first entry, the last one is stored.
- A descriptor given under the name of another, declared parameter is filed there even if the declaration
  fails, and is then removed (`RejectedDeclarationHarms`, `RejectedDeclarationHarmlessIff`,
  `AcceptedDeclarationIff`).
- A pre-callback can put a read-only parameter into the list of a declaration, whose validation does not
  look at the flag, and so overwrite it (`DeclarationOverwritesReadOnly`, `DeclarationSparesReadOnlyIff`).
- A declaration that also removes what it declares read-only throws half way (`DeclarationCanAbort`);
  `CommitThrowsIff` says exactly which batches do.
- Two types with underscores in their names can share a component name, and then no document may be right
  for both (`ComponentNamesCanClash`, `DocumentCanBeInexact`); the components are exact precisely if types
  of one name have one schema (`RegisteredRootsExactIff`).
- Strings of digits with a final `n`, non-finite numbers, functions and two reserved keys do not survive the
  JSON round trip (`StringsBecomeBig`, `RoundTripIff`).
- Unset parameters with a value and bytes with fractions do not survive being sent (`FractionsAreLost`,
  `UnsetValuesAreLost`, `MessageRoundTripIff`).
- Tuples of one boolean, or of none, come back too long (`ShortBoolTuples`, `BoolTupleRoundTripIff`).

For whole runs of a node, `RunSoundIff` and `ReadOnlyForeverIff` put the conditions of the single calls
together. A call is *civil* if what is applied of its final list revives no name, leaves no older parameter
under a descriptor that does not fit, and agrees with the time source, or if it is rejected and had no
descriptor under the name of a declared parameter. `TidyIsCivil` gives a rule that is easy to keep.

Where the code and its comments differ, the model follows the code: a collection that fails after a good
`rcl_wait` is reported as success (`src/executor.cpp:377`); failing to add an action client returns
`false`, which is `RCL_RET_OK` (`src/handle_manager.cpp:147`), and never happens because the capacities
suffice; `hasParameterDescriptor` is always true (`lib/node.js:2075-2077`), so undeclared parameters are
rejected by the type check instead; an exception in the commit loop does not revert what was updated
before it (`lib/node.js:2250-2262`); and `setParameters` goes on after an entry that fails
(`lib/node.js:2161-2165`), which makes it a run of single sets.

Assumptions about what lies outside: `rcl_wait` returns once a triggered guard is in its set, and
triggers stick; the operating system is weakly fair to the waiter and to the join; the middleware never
hands out a sequence number twice; distinct live entities have distinct addresses; user callbacks return
and do not call back into the node or client that called them (those of `ParameterEventHandler` may).

## Model

| member | source | states |
|---|---|---|
| ExecutorInvariant.NextKeepsInv | src/executor.cpp:208-390 | Every step of either thread keeps the invariant on locks, epochs, owed wake-ups, hand-over and batches |
| ExecutorInvariant.ReachableInv | src/executor.cpp:62-403 | The invariant holds in every reachable state, over any number of epochs |
| ExecutorInvariant.BehaviorInv | src/executor.cpp:228-288 | The invariant holds throughout every infinite run |
| ExecutorProperties.DoWorkExcludesWaiter | src/executor.h:81-88 | From the entry of `DoWork` until its guard clears the flag, the waiter is outside the read-locked region, even while the callback is in `Stop`; a callback that synchronizes gets the write lock at once |
| ExecutorProperties.NoLostWakeUp | src/executor.cpp:290-310 | Wherever the waiter blocks (either semaphore, `rcl_wait`, condition variable), there is nothing to do or the main thread still owes the matching signal |
| ExecutorProperties.AsyncClosedAfterThreadEnds | src/executor.cpp:162-196 | The async handle is only closed once the thread has ended |
| ExecutorProperties.BatchesConserved | src/handle_manager.cpp:183-188 | The batches ever stored are those settled, in order, and then the one still stored; after the drain in `Stop` nothing is stored |
| ExecutorProperties.DoWorkDelivers | src/executor.cpp:392-402 | `DoWork` reports a pending exception and leaves the batch, or hands over what is stored as delivered and leaves nothing |
| ExecutorProperties.DoWorkGoesOn | src/executor.cpp:208-226 | `DoWork` starts with taking, once per pending wake-up, and after the callbacks its guard clears the flag under the mutex and wakes the waiter |
| ExecutorProperties.StopDrops | src/executor.cpp:169-170 | `Stop` gets past its drain with nothing stored, and what was stored is dropped |
| ExecutorProperties.SettlementTells | src/executor.cpp:169-402 | Only the taking in `DoWork` and the drain in `Stop` settle a batch, as delivered and as dropped |
| ExecutorProperties.FatesTell | src/executor.cpp:141-402 | Every entry in the history of a run was made by `DoWork` if it says delivered, and by the drain if it says dropped |
| ExecutorProperties.StopEnds | src/executor.cpp:141-196 | When `Stop` returns, the thread has ended, nothing is stored or registered and every batch has its fate |
| ExecutorProperties.SynchronizeInstalls | src/handle_manager.cpp:41-80 | In every run, `SynchronizeHandles` has put exactly the given handles in place by the time it returns |
| ExecutorProperties.TokensPosted | src/handle_manager.cpp:41-104 | The tokens that synchronizing and stopping post, and that nothing else posts any |
| ExecutorProperties.TokensTaken | src/executor.cpp:290-310 | The waiter takes one token exactly where it waits for one |
| ExecutorProperties.FailureIsSignalled | src/executor.cpp:228-288 | A thread that fails leaves an exception and does not end before it has woken `DoWork` |
| ExecutorProperties.NoBatchOverwritten | src/executor.cpp:365-372 | No step replaces a stored batch, and one leaves the vector only by being delivered or dropped |
| ExecutorProperties.HistoriesGrow | src/executor.cpp:392-402 | Along every run, what was stored or settled stays so |
| ExecutorProperties.CollectedAreRegistered | src/executor.cpp:303-380 | Only handles that are still registered get collected |
| ExecutorProperties.WaiterFreeDuringJoin | src/executor.cpp:141-162 | While `Stop` joins, the waiter is never blocked, wherever it was |
| ExecutorProperties.JoinDescends | src/executor.cpp:246-273 | While `Stop` joins, each step of the waiter lowers its rank and no other step raises it |
| ExecutorProperties.JoinedThreadEnds | src/executor.cpp:162-169 | In every fair run the joined thread ends |
| ExecutorProperties.StopGetsPastJoin | src/executor.cpp:141-169 | In every fair run `Stop` gets past its join |
| ExecutorRestart.StepExcludedIff | src/executor.cpp:214-223 | A step keeps `DoWork` and the read-locked region apart in all continuations exactly if it is not a start from a callback |
| ExecutorRestart.RunExcludedIff | src/executor.cpp:208-223 | A run keeps them apart, now and in all continuations, exactly if no callback in it starts the executor |
| ExecutorRestart.CallbackStartBreaksExclusion | src/executor.cpp:214-223 | From every state after such a start, the waiter can get into `rcl_wait` while the callback is still running |
| ExecutorRestart.CallbackCanStart | src/executor.cpp:62-196 | A state is reachable in which a callback has stopped the executor and can start it again |
| ExecutorRestart.RestartInCallbackBreaksExclusion | src/executor.cpp:214-223 | With a restart inside a callback, a state is reachable in which `DoWork` is active and the waiter sits in `rcl_wait` |
| HandleManagers.HandleManager.GetEntityCounts | src/handle_manager.cpp:193-247 | The counts are, kind by kind, what the caller had plus all entities of handles and actions |
| HandleManagers.WaitSet.AddRow | src/handle_manager.cpp:106-111 | Exactly the entities that fit are added to the one row, in order, and the call succeeds if those are all |
| HandleManagers.HandleManager.AddHandlesToWaitSet | src/handle_manager.cpp:106-164 | With enough room nothing fails and each row gets exactly the wanted entities, in order; without, each row gets a first part of them |
| HandleManagers.HandleManager.AddActionHandles | src/handle_manager.cpp:142-156 | With enough room both kinds of actions are added completely; without, each row gets a first part of their entities |
| HandleManagers.HandleManager.FillWaitSet | src/executor.cpp:313-353 | The capacities asked for equal the entries added, kind by kind, the interrupt guard included; no add overflows; every registered handle and every part of every action has its entry |
| HandleManagers.HandleManager.CollectReadyHandles | src/handle_manager.cpp:166-191 | What is stored is every handle of the six vectors whose entity is ready and that of every action with a ready part, as often as it is registered, and no other; nothing is touched if none is due |
| HandleManagers.HandleManager.DueKindsInOrder | src/handle_manager.cpp:168-181 | Due handles come kind by kind: subscriptions, clients, services, timers, guard conditions, events |
| HandleManagers.FilterKeepsOrder | src/handle_manager.cpp:280-294 | Within a kind, due handles keep the order of their vector |
| HandleManagers.FilledIsWaitedFor | src/handle_manager.cpp:280-294 | A row as it was filled meets what collecting asks of it, whichever pointers were cleared since |
| HandleManagers.CollectByType | src/handle_manager.cpp:280-294 | The nested loops append the matches of every slot |
| HandleManagers.MatchesAreFiltered | src/handle_manager.cpp:280-294 | For distinct entities the matches of the slots are the filter of the vector by readiness, whatever else is in the row and whichever handles were cleared |
| HandleManagers.FilterIsExact | src/handle_manager.cpp:285-292 | A handle is collected as often as it is registered if its entity is ready, else not at all |
| HandleManagers.CollectActions | src/handle_manager.cpp:296-360 | Exactly the actions with a ready part are appended, in order |
| HandleManagers.FilterActionsIsExact | src/handle_manager.cpp:296-360 | The handle of an action is collected as often as it has a ready part, of whatever kind |
| HandleManagers.HandleManager.SynchronizeHandles | src/handle_manager.cpp:41-80 | All vectors are replaced; the sum is zero exactly if all are empty; the waiter gets a token exactly when the sum leaves zero |
| RclHandles.RclHandle.Reset | src/rcl_handle.cpp:94-114 | Exactly the live subtree is cleared, each handle once and children before parents, the deleters run in that order, the parent loses this child and nothing else changes |
| RclHandles.RclHandle.ResetChildren | src/rcl_handle.cpp:102-108 | Whatever order the children come in, everything below is cleared, once, children first |
| RclHandles.SubtreeSplits | src/rcl_handle.cpp:102-108 | One child's subtree can be cut out and the rest stays a set of whole trees |
| RclHandles.NothingLeft | src/rcl_handle.cpp:102-113 | When no child is left to reset, nothing of the subtree is |
| RclHandles.HistoryKept | src/rcl_handle.cpp:110-112 | Clearing a live subtree keeps the history free of repetitions and children first |
| RclHandles.WithDeleterIsExact | src/rcl_handle.cpp:110-112 | Of the handles cleared, exactly those with a deleter are deleted |
| RclHandles.HandleTable.NewInstance | src/rcl_handle.cpp:76-92 | The new handle is linked on both sides and the forest stays one |
| RclHandles.HandleTable.Release | src/rcl_handle.cpp:64-68 | Clears exactly the live subtree, leaves all others alone and keeps forest and history |
| RclHandles.HandleTable.Destroy | src/rcl_handle.cpp:29-31 | After destruction nothing refers to the handle, and forest and history are kept |
| RclHandles.HandleTable.LiveAncestors | src/rcl_handle.cpp:86-89 | All ancestors of a live handle are live |
| RclHandles.HandleTable.ClearedBeforeAncestors | src/rcl_handle.cpp:102-112 | In every history, no deleter runs after that of an ancestor |
| Parameters.IntegerRangeMeaning | lib/parameter.js:758-769 | An integer is in range exactly if it lies between the ends and is a whole number of steps from the lower one |
| Parameters.TypesOfValue | lib/parameter.js:878-938 | Which types a value can have, by what it is |
| Parameters.ValidNames | lib/parameter.js:190-213 | Valid parameters and descriptors have a name that is not blank and one of the ten types |
| Parameters.RangesAllowed | lib/parameter.js:454-465 | Each sort of range is allowed for its two types |
| Parameters.RangesMatchValues | lib/parameter.js:477-540 | A value accepted under a range is a number of its sort, or an array of them |
| ParameterMessages.MessageRoundTripIff | lib/parameter.js:220-269 | A valid parameter survives the way into a message and back exactly if it is unset without a value, or is set and its bytes are whole numbers |
| ParameterMessages.FractionsAreLost | lib/parameter.js:220-269 | A byte with a fraction is sent as the same message as, and comes back as, one without |
| ParameterMessages.UnsetValuesAreLost | lib/parameter.js:220-269 | A value given to an unset parameter comes back undefined |
| ParameterMessages.MessageFits | lib/parameter.js:233-269 | The message of a valid parameter sets the one field for its type, with a value of that field's type |
| ParameterMessages.SlotsAreOwn | lib/parameter.js:233-269 | Parameters of different types never set the same field |
| ParameterMessages.NumbersArriveAsIntegers | lib/parameter.js:77-135 | An integer that arrives as a number is taken over exactly if it is whole |
| ParameterMessages.TypedArraysArrive | lib/parameter.js:77-117 | A typed array of integers becomes a plain one, element by element |
| ParameterStore.CommitEffect | lib/node.js:2250-2261 | Name by name, what a batch does to parameters and descriptors, without going through it: the last entry decides, removals take the descriptor |
| ParameterStore.SetOrRemoved | lib/node.js:1969-1981 | A name stored or set at some point of the batch is stored at its end or has been removed since |
| ParameterStore.CommitKeepsGoodStoreIff | lib/node.js:2250-2261 | A validated batch keeps every stored parameter under a fitting descriptor exactly if it revives no name |
| ParameterStore.DistinctNamesReviveNothing | lib/node.js:2250-2261 | Batches with distinct names revive nothing |
| ParameterStore.RevivalBreaksStore | lib/node.js:2250-2255 | Removing and setting one name in a batch stores it without a descriptor |
| ParameterStore.CommitThrowsIff | lib/node.js:1969-1981 | The commit loop throws, and leaves the batch half applied, exactly if an entry removes a read-only name that was stored or set before it |
| ParameterStore.ValidatedCommits | lib/node.js:2229-2262 | Outside declarations every validated batch can be committed |
| ParameterStore.AppliedIsCommitted | lib/node.js:2250-2261 | What a batch does is what the entries before the first one that throws do, which always commit; they are all exactly if nothing throws |
| ParameterStore.UnmentionedKept | lib/node.js:2250-2261 | Names a batch does not mention keep parameter and descriptor |
| ParameterProperties.HooksEffect | lib/node.js:2235-2242 | With the hook of the time source last, the flag changes only if no callback vetoes |
| ParameterProperties.HooksPassIff | lib/node.js:2235-2242 | The list passes exactly if every user callback, called once in its turn, says so |
| ParameterProperties.VetoEndsRound | lib/node.js:2235-2242 | No callback behind the first that vetoes is called |
| ParameterProperties.ProbeReadsFirst | lib/time_source.js:184-199 | The hook reads the first entry for `use_sim_time` |
| ParameterProperties.SetOutcome | lib/node.js:2206-2294 | In every mode a batch is rejected exactly if the pre-callbacks or validation reject it or some user callback vetoes it; else its applied part is committed, and it is accepted exactly if that is all of it |
| ParameterProperties.RejectedSetChangesNothing | lib/node.js:2206-2242 | A batch rejected by a pre-callback, validation or veto changes nothing |
| ParameterProperties.AcceptedSetAppliesFinalBatch | lib/node.js:2206-2262 | An accepted batch changes exactly what the final list of the pre-callbacks names |
| ParameterProperties.SetNeverAborts | lib/node.js:2250-2261 | Outside declarations no batch is half applied |
| ParameterProperties.EventDividesBatch | lib/node.js:2244-2288 | New, changed and deleted parameters of the published event divide the final list among themselves |
| ParameterProperties.EventKeepsOrder | lib/node.js:2244-2288 | Each list of the event keeps the order of the final list |
| ParameterProperties.SetKeepsSyncIff | lib/time_source.js:184-199 | An accepted batch keeps the time source equal to `use_sim_time` exactly if the first and the last entry for it agree |
| ParameterProperties.DistinctNamesAgree | lib/time_source.js:184-199 | Validated batches with distinct names always agree |
| ParameterProperties.DuplicatesBreakSync | lib/time_source.js:184-199 | An accepted batch with two entries that leaves the time source out of step |
| ParameterDeclarations.RegisterEffect | lib/node.js:1944-1947 | Registering files the last descriptor of each given name under it and touches no other |
| ParameterDeclarations.FiledAndAppliedGoodIff | lib/node.js:1944-1959 | Entries applied after descriptors were filed leave a good store good exactly if they revive nothing and each descriptor under an old name that they do not mention fits |
| ParameterDeclarations.RejectedDeclarationHarmlessIff | lib/node.js:1949-1957 | A rejected declaration leaves all parameters alone, and the store good exactly if no descriptor had the name of a declared parameter |
| ParameterDeclarations.RejectedDeclarationHarms | lib/node.js:1949-1957 | A rejected declaration with a descriptor under the name of a declared parameter leaves that without one |
| ParameterDeclarations.AcceptedDeclarationIff | lib/node.js:1944-1959 | An accepted declaration applies its final list, whatever that names, and leaves the store good exactly if it revives nothing and each descriptor under an old name that it does not mention fits |
| ParameterDeclarations.DeclarationSparesReadOnlyIff | lib/node.js:2502-2509 | Exactly when a declaration, whatever its outcome, leaves a read-only parameter its value and descriptor |
| ParameterDeclarations.PlainDeclarationSpares | lib/node.js:1885-1960 | Without pre-callbacks and with descriptors under the names of the new parameters, it always does |
| ParameterDeclarations.DeclarationOverwritesReadOnly | lib/node.js:2502-2509 | A pre-callback that adds an entry for a read-only parameter overwrites it while another is declared |
| ParameterDeclarations.FreshCommits | lib/node.js:1949-1957 | Declaring new, distinct names never leaves a batch half applied |
| ParameterDeclarations.DeclarationCanAbort | lib/node.js:1949-1957 | Declaring a read-only name and removing it in one list throws and leaves it declared |
| ParameterOutcomes.FinalBatchIff | lib/node.js:2207-2227 | What reaches validation is what comes out of a pipeline in which each callback turns the list of the one before into another that is not empty |
| ParameterOutcomes.ValidatesIff | lib/node.js:2482-2528 | An entry validates exactly if it is a valid parameter, may be changed and, unless it removes its name, obeys a valid descriptor of its type |
| ParameterOutcomes.SetAcceptedIff | lib/node.js:2206-2262 | A batch is accepted exactly if it comes through the pipeline, all of what comes out validates and no callback vetoes it; else nothing is stored |
| ParameterOutcomes.VetoRejects | lib/node.js:2235-2242 | One veto rejects the batch, also while declaring, and nothing is stored |
| ParameterOutcomes.VetoProtects | lib/node.js:2235-2242 | An input on which a veto keeps a stored parameter |
| ParameterOutcomes.DeclareMeaning | lib/node.js:1885-1957 | A declaration is about the overrides where there are any and else the given parameters, and about the given descriptors or else plain ones; it is refused without any change if one is declared already or has an invalid descriptor |
| ParameterOutcomes.MismatchRefused | lib/node.js:1896-1908 | Parameters and descriptors of different number are refused without any change |
| ParameterOutcomes.DeclaredAreStored | lib/node.js:1885-1960 | An accepted plain declaration has stored each parameter under its descriptor and left all older ones alone |
| ParameterOutcomes.NewestRunsFirst | lib/node.js:2370-2372 | The pre-callback added last gets the list first |
| ParameterOutcomes.WithoutPreIs | lib/node.js:2380-2385 | Removing a pre-callback takes the first that is the given one, if any |
| ParameterOutcomes.WithoutHookIs | lib/node.js:2341-2346 | Removing a veto callback takes the first that is the given one, if any, and never the hook of the time source |
| ParameterRuns.StepSoundIff | lib/node.js:1885-2262 | Each call, whatever its outcome, leaves the store good, the time source's hook last and its flag in step exactly if it is civil |
| ParameterRuns.ReadOnlyStepIff | lib/node.js:1885-2262 | Exactly when a call leaves a read-only parameter its value and descriptor; only declarations can fail to |
| ParameterRuns.RunSoundIff | lib/node.js:1885-2262 | A run is sound after each of its calls exactly if each call is civil |
| ParameterRuns.ReadOnlyForeverIff | lib/node.js:2502-2509 | A read-only parameter keeps its value and descriptor throughout a run exactly if every declaration in it spares the parameter |
| ParameterRuns.TidyIsCivil | lib/node.js:1885-2262 | Calls whose final lists name nothing twice and declare only new names, under their own descriptors, are civil and spare everything declared before |
| ParameterRuns.UndeclareEffect | lib/node.js:1969-1981 | Undeclaring takes parameter and descriptor, and does nothing for unknown and read-only names |
| ParameterRuns.ListOpsEffect | lib/node.js:2327-2385 | Adding and removing callbacks changes that list only, and new ones go in front |
| ParameterRuns.NewNodeSound | lib/node.js:177-212 | A node starts exactly if the overrides it needs are valid, and starts out sound |
| ParameterRuns.NewNodeStores | lib/node.js:177-212 | A new node has exactly the overrides to be declared and `use_sim_time`, with plain descriptors, and shows simulated time exactly if an override says so |
| ParameterRuns.NodeLifeSoundIff | lib/node.js:177-2262 | From construction on, the life of a node is sound at each point exactly if its callers are civil |
| TimeSources.TimeSource.SetActive | lib/time_source.js:65-78 | The flag changes on the time source and all clocks, and the subscription with it |
| TimeSources.TimeSource.AttachNode | lib/time_source.js:85-128 | The subscription exists exactly while the flag is set; clocks attached before stay in step exactly if the flag does not change |
| TimeSources.TimeSource.AttachClock | lib/time_source.js:156-165 | The clock joins with the current flag and last time |
| TimeSources.TimeSource.ClockCallback | lib/time_source.js:167-172 | All clocks get the time |
| TimeSources.TimeSource.OnParameterEvent | lib/time_source.js:184-205 | The flag becomes what the first entry for `use_sim_time` says, if that is a bool |
| Nodes.Node.SetParametersAtomically | lib/node.js:2206-2294 | Reply, event and new state are those of the specification |
| Nodes.Node.CommitParameters | lib/node.js:2246-2262 | The loop commits the batch and sorts its entries into the event, or stops where removing throws |
| Nodes.Node.ValidateParameters | lib/node.js:2482-2528 | True exactly if every entry validates |
| Nodes.Node.RunSetCallbacks | lib/node.js:2235-2242 | The callbacks run in order up to the first veto, that of the time source among them |
| Nodes.Node.RunPreCallbacks | lib/node.js:2207-2227 | Each callback gets the list of the one before |
| Nodes.Node.DeclareParameters | lib/node.js:1885-1959 | Throws exactly where the specification fails, and leaves its state |
| Nodes.Node.ChooseParameters | lib/node.js:1909-1934 | Parameters and descriptors to declare, overrides considered, or none if something collides or is invalid |
| Nodes.Node.UndeclareParameter | lib/node.js:1969-1981 | Removes parameter and descriptor, does nothing for unknown names, throws for read-only ones |
| Nodes.Node.RemoveOnSetParametersCallback | lib/node.js:2341-2346 | Only the first occurrence goes |
| Nodes.Node.AttachTimeSource | lib/time_source.js:85-128 | Declares `use_sim_time` if need be, takes over its value and registers the hook, or throws where the specification fails |
| Nodes.Node.Init | lib/node.js:177-212 | The constructed node is in the starting state of the specification, its clock attached |
| Nodes.RunNode | lib/node.js:177-2262 | A node object taken through any run ends where the specification does; it is sound after civil runs, subscribed exactly while simulated time is on, its clocks in step |
| OpenApi.Builder.RegisterComponent | lib/openapi.js:137-153 | Only reachable types are registered, each with the types it uses, at every point of the recursion, which ends on acyclic type graphs |
| OpenApi.Builder.MessageSchema | lib/openapi.js:160-172 | The result describes the message: properties and required names are both exactly the visible fields, the latter in their order; all types used are registered |
| MessageFields.HiddenIff | lib/openapi.js:164 | The hidden fields are those whose name starts with an underscore |
| OpenApi.Builder.FieldSchema | lib/openapi.js:50-79 | The result is the fragment for the field, and its reference resolves |
| OpenApi.Builder.TopLevelSchema | lib/openapi.js:181-194 | The result describes the payload, or says that there is none, and all its references resolve |
| OpenApi.DescribedFieldByField | lib/openapi.js:160-172 | If no field name is repeated, each visible field has its own property and is required once |
| OpenApi.ExactDescribes | lib/openapi.js:137-153 | In an exact map each reachable type is described under its component name |
| OpenApi.SourcedIsClosed | lib/openapi.js:137-153 | A map built that way is closed under `$ref` |
| OpenApi.FiledStaysSourced | lib/openapi.js:151-152 | Filing a schema after its types keeps that, also over another type of the same name |
| OpenApi.RegisteredRootsAreExact | lib/openapi.js:137-172 | Unless names clash, the components are exactly the types reachable through fields that are not hidden, each with its own schema |
| OpenApi.RegisteredRootsExactIff | lib/openapi.js:137-172 | If no message repeats a field name, the components are exact precisely if types that share a name have the same schema |
| OpenApi.DocumentCanBeInexact | lib/openapi.js:75 | Capabilities for which no component map at all is exact |
| OpenApi.ComponentNamesInjective | lib/openapi.js:75 | Types without underscores in their names never clash |
| OpenApi.ComponentNamesCanClash | lib/openapi.js:75 | Others can |
| OpenApi.RoutesDistinct | lib/openapi.js:229-314 | No two capabilities share a route |
| OpenApi.AllPathsListed | lib/openapi.js:227-396 | Every capability keeps a path of its own, and there are no others |
| OpenApi.BuildOpenApiDocument | lib/openapi.js:226-403 | Every capability is published under its route with the payloads of its kind, every `$ref` resolves, every component describes a reachable type of its name, and the components are exactly those types precisely if types that share a name have the same schema |
| ParameterEventHandlers.KeyIsInjective | lib/parameter_event_handler.js:507-509 | The key of two names without NUL belongs to no other pair of names, whatever those hold |
| ParameterEventHandlers.KeysCanClash | lib/parameter_event_handler.js:507-509 | Two pairs can share a key when both hold NUL |
| ParameterEventHandlers.IndexHoldsLive | lib/parameter_event_handler.js:195-202 | A registration is live exactly if the index holds it under its key |
| ParameterEventHandlers.AddedIndexes | lib/parameter_event_handler.js:195-202 | Adding at the front keeps index and list in step |
| ParameterEventHandlers.RemovedIndexes | lib/parameter_event_handler.js:299-310 | So does removing, and no empty list stays |
| ParameterEventHandlers.ScanKeyIsScan | lib/parameter_event_handler.js:474-475 | A look-up finds what a scan of all registrations finds, in the same order |
| ParameterEventHandlers.ScanIsExact | lib/parameter_event_handler.js:474-475 | A scan finds every registration for the two names, as often as it is live, and no other |
| ParameterEventHandlers.ScanKeepsOrder | lib/parameter_event_handler.js:195-202 | What it finds is in the order of the registrations |
| ParameterEventHandlers.NormalizeIs | lib/utils.js:201-203 | One slash in front of a node name goes, and nothing else |
| ParameterEventHandlers.TrimIs | lib/parameter_event_handler.js:164-211 | Trimming takes the space around a name, and nothing else |
| ParameterEventHandlers.EventRounds | lib/parameter_event_handler.js:463-501 | Whatever callbacks edit: one round of calls per new and then per changed parameter, to those registered when its turn comes, none for deleted ones, and then the event callbacks; each callback gets as far with its edits as none throws |
| ParameterEventHandlers.PickedAreCalled | lib/parameter_event_handler.js:477-490 | Callbacks picked for a parameter are all called, once each and in order, whatever they do to the handler |
| ParameterEventHandlers.PassiveEvent | lib/parameter_event_handler.js:463-501 | Callbacks that leave the handler alone are called as one scan per new or changed parameter gives them, then all event callbacks |
| ParameterEventHandlers.DestroyedIsSilent | lib/parameter_event_handler.js:393-412 | A destroyed handler calls nobody |
| ParameterEventHandlers.ParameterEventHandler.AddParameterCallback | lib/parameter_event_handler.js:164-211 | The list gets a registration with trimmed and normalised names in front, or the call throws |
| ParameterEventHandlers.ParameterEventHandler.RemoveParameterCallback | lib/parameter_event_handler.js:277-317 | The registration leaves the list, or the call throws because it is not there |
| ParameterEventHandlers.ParameterEventHandler.HandleParameterEvent | lib/parameter_event_handler.js:463-501 | Dispatching by keys does what dispatching by scans does, also with callbacks that add, remove or destroy |
| ParameterEventHandlers.RunHandler | lib/parameter_event_handler.js:164-501 | After every run the index holds exactly the live registrations, no empty list, and all calls were those of the plain list |
| Clients.SettledForGood | lib/client.js:146-173 | However the history goes on, a settled request stays settled as it is |
| Clients.OutcomeIsFirst | lib/client.js:134-244 | A request ends with the first response, abort or timeout of its own, and is outstanding exactly if there was none |
| Clients.AbortedIff | lib/client.js:159-173 | A request that did not end at once is rejected as aborted exactly if its signal comes before its response and its timeout |
| Clients.TimedOutIff | lib/client.js:142-158 | It is rejected as timed out exactly if its timeout comes first |
| Clients.ResolvedIff | lib/client.js:233-244 | It gets a payload exactly if a response to its number with that payload comes first |
| Clients.EndedAtOnceIff | lib/client.js:134-231 | A request aborted beforehand ends as aborted, one that cannot be sent as failed, any other not at once |
| Clients.ResponseIsOwn | lib/client.js:233-244 | A caller only gets a response with the number of its request, sent before |
| Clients.OneCallerPerResponse | lib/client.js:233-244 | Distinct callers never share a response |
| Clients.Client.SendRequest | lib/client.js:89-119 | The callback is filed under the fresh number, or the call throws and leaves no entry |
| Clients.Client.SendRequestAsync | lib/client.js:134-231 | The request waits under its number, or the caller has got the one rejection, as aborted or as failed |
| Clients.Client.ProcessResponse | lib/client.js:233-244 | The one caller of that number gets the payload and its entry is removed; for other responses nothing changes |
| Clients.Client.SignalAborts | lib/client.js:159-173 | The caller of an outstanding request gets the one rejection as aborted, nobody else anything |
| Clients.Client.TimeoutFires | lib/client.js:142-194 | The caller of an outstanding request gets the one rejection as timed out, nobody else anything |
| Clients.RunClient | lib/client.js:89-244 | In every interleaving each caller has been called back exactly as the history says, at most once, and the keys of the map are exactly the outstanding requests |
| MessageSerialization.ParsePrint | lib/message_serialization.js:88-91 | Printing and parsing integers of any size and sign are inverse |
| MessageSerialization.NoLeadingZero | lib/message_serialization.js:88-91 | Printed numbers have no leading zero |
| MessageSerialization.LeadingZero | lib/message_serialization.js:189-191 | Leading zeros do not matter to parsing |
| MessageSerialization.RoundTripIff | lib/message_serialization.js:187-201 | Reviving the safe form gives the plain form exactly for clean values |
| MessageSerialization.StringsBecomeBig | lib/message_serialization.js:88-91 | The digits of a bigint with a final `n`, as a string, have the safe form of the bigint and come back as it |
| MessageSerialization.LostValuesBecomeWords | lib/message_serialization.js:86-96 | The words that non-finite numbers and functions become |
| MessageSerialization.ElementsKept | lib/message_serialization.js:43-114 | Both conversions keep the elements of arrays and typed arrays in place |
| MessageSerialization.EntriesKept | lib/message_serialization.js:43-114 | Both keep the keys of objects in place |
| MessageSerialization.LooksBigIff | lib/message_serialization.js:189 | The pattern is an optional minus, digits and a final `n` |
| MessageSerialization.RevivedString | lib/message_serialization.js:187-193 | A string becomes a bigint if it matches the pattern, and stays otherwise |
| MessageSerialization.RevivedIsHarmless | lib/message_serialization.js:187-203 | No object in what is revived has one of the three keys that reach into prototypes |
| MessageSerialization.HarmlessKeysRevived | lib/message_serialization.js:187-203 | All other keys stay, in place |
| MessageSerialization.SafeIsSafe | lib/message_serialization.js:78-114 | No bigint, function, typed array or non-finite number is left in the safe form |
| MessageSerialization.FixedIffSafe | lib/message_serialization.js:78-114 | The values `toJSONSafe` leaves alone are exactly the safe ones |
| MessageSerialization.SafeTwice | lib/message_serialization.js:78-114 | `toJSONSafe` is idempotent |
| MessageValidation.ValidIffConforms | lib/message_validation.js:241-416 | No issue is reported exactly for values that have the shape of the type |
| MessageIssues.IssuesIff | lib/message_validation.js:241-416 | The issues reported are exactly the problems there are, each with its expected and received type or size, under the path that leads to it |
| MessageIssues.FitsPrimitiveIff | lib/message_validation.js:167-192 | Which values pass for each primitive type, numbers for 64-bit integers included |
| MessageIssues.ScalarConformsIff | lib/message_validation.js:283-310 | A bare scalar passes exactly for a type whose one field is `data`, if it is of that field's type |
| MessageValidation.WeakerReportsLess | lib/message_validation.js:241-416 | Weaker options report a part of what stronger ones report, in the same order |
| MessageValidation.AllChecksSuffice | lib/message_validation.js:241-416 | What passes under all checks passes under any |
| MessageValidation.CheckField | lib/message_validation.js:329-413 | The issues of one field, nested values included |
| MessageValidation.CheckElements | lib/message_validation.js:354-382 | The issues of the elements of an array, in order |
| MessageValidation.ValidateMessage | lib/message_validation.js:241-416 | The issues found, none exactly for conforming values, for which alone the message is valid |
| WireValues.AcceptedMatchesSchemaIff | lib/openapi.js:83-126 | What the validator accepts in a primitive field or array matches the exported schema, once it is JSON, exactly if 64-bit integers are bigints, unsigned ones not negative, other integers whole, numbers finite and bounded strings short enough |
| WireValues.AdmittedFitsIff | lib/openapi.js:50-126 | What the schema of a primitive field or array admits passes the validator, once it is revived, exactly if it holds no text that looks like a bigint and a fixed size is known |
| WireValues.PrintedSign | lib/openapi.js:87-98 | The unsigned pattern admits exactly the integers that are not negative |
| TupleParser.ParseStringTuple | rosidl_parser/idl_parser.py:258-289 | The scanning loops end on every input and return the quoted texts up to an unclosed quote |
| TupleParser.UnclosedDropped | rosidl_parser/idl_parser.py:258-289 | A quote that is not closed ends the list, and the text behind it is dropped |
| TupleParser.OthersSkipped | rosidl_parser/idl_parser.py:258-289 | Characters outside quotes do not count |
| TupleParser.StringTupleRoundTripIff | rosidl_parser/idl_parser.py:258-289 | A printed tuple of strings parses to the strings exactly if none holds its own quote |
| TupleParser.PrintedParts | rosidl_parser/idl_parser.py:238-242 | Splitting and stripping a printed tuple gives its parts, and an empty one after a trailing comma |
| TupleParser.SplitIs | rosidl_parser/idl_parser.py:238-242 | Splitting gives the parts that hold no comma and make up the string with commas between them |
| TupleParser.StripIs | rosidl_parser/idl_parser.py:238-242 | Stripping takes the space around a part, and nothing else |
| TupleParser.ParseNumberTuple | rosidl_parser/idl_parser.py:242-255 | Empty parts are skipped, the others read in order |
| TupleParser.IntTupleRoundTrip | rosidl_parser/idl_parser.py:242-255 | A printed tuple of integers parses to the integers, one or none included |
| TupleParser.BoolTupleRoundTripIff | rosidl_parser/idl_parser.py:236-239 | A printed tuple of booleans parses to the booleans exactly if it has at least two |
| TupleParser.ShortBoolTuples | rosidl_parser/idl_parser.py:236-239 | A tuple of one boolean comes back with a false behind it, an empty one as a false |

## Left out

- Executor steps on values: the threads' fields are components of a state and not updated in place; `SpinOnce`, a failing guard trigger or join, failing starts and the wording of native errors are not modelled. That `uv_close` runs the event loop until the handle is closed is one step.
- `g_exception_ptr` is a flag that other executors may set and clear.
- RclHandles.HandleTable.NewInstance: asks for a live parent, and for a pointer that is not null under a parent; the code checks neither. `Dismiss`, which clears a pointer and keeps the links, is not modelled.
- HandleManagers.HandleManager.CollectReadyHandles: the entities an action is made of are taken as they were when the wait set was filled, and the counts do not wrap at 32 bits.
- HandleManagers.CollectActions: the separate ready flags of an action are one flag, and the properties set on its handle are left out.
- HandleManagers.HandleManager.SynchronizeHandles: the synchronizing flag and its token are in `ExecutorProtocol`, where the order of the steps matters.
- Parameters are values, so a caller that changes a parameter object after it was stored is not modelled; floating-point ranges, and integer ranges over arrays, are arbitrary predicates.
- ParameterMessages.MessageRoundTripIff: strings in the integer field of a message, which `BigInt` would parse, are left out.
- Nodes.Node.DeclareParameters: the list returned by the getters is left out; post-set callbacks, whose results are ignored, change nothing here.
- TimeSources.TimeSource.AttachNode: gets the value of `use_sim_time` found on the node, where `Nodes.Node.AttachTimeSource` looks it up and registers the hook; moving a time source to a second node leaves the old hook behind, which is not modelled.
- OpenApi.BuildOpenApiDocument: takes the base path as normalised; summaries, descriptions and fixed response objects are left out, as are message classes without a definition below the top level; that messages do not repeat a field name, as the interface generator sees to, is asked for the exact condition only.
- ParameterEventHandlers.ParameterEventHandler.HandleParameterEvent: the names that arrive in an event have gone through C strings and hold no NUL; those of registrations are arbitrary. The node filter and the static helpers are left out.
- Clients.RunClient: callbacks that send again while a response is being delivered are left out.
- MessageSerialization.RoundTripIff: objects are their own enumerable keys; prototypes, which `reviveBigInts` sets to null, are not compared, and negative zero is zero.
- MessageValidation.ValidateMessage: type classes and the classes of nested fields are given, inherited properties are not seen, and paths are lists of steps, not strings.
- WireValues.AcceptedMatchesSchemaIff: is about primitive fields and arrays of them; string lengths count characters of the model.
- TupleParser.IntTupleRoundTrip: how Python reads other literals than plain decimals is arbitrary.
- Thin wrappers over rcl, publishers, subscriptions, actions, lifecycle nodes, network and file code: they call libraries that are not shown or would only add easy members.
