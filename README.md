# NGXS store core, modelled in Dafny

This project models the core of the NGXS state-management library for Angular (`packages/store`):

- **State registry** (`StateFactory`). It registers decorated state classes in dependency order and assigns each its full dotted path. It composes their defaults into the initial state tree. When an action is dispatched, it runs every handler registered for the action's type and turns their joint outcome into the action's final status: Successful, Canceled or Errored.
- **Action decorator** (`Action`). It records handler metadata under each action class's static `type`.
- **Dispatcher** (`InternalDispatcher`). It runs the plugin chain around the terminal step. The terminal step commits the new state, listens for the action's result and logs the Dispatched context. The dispatcher then answers each caller once, with the state, an error or an empty completion, or never, when no result context arrives for the action. A batch dispatch joins the single dispatches.
- **Action filters** (`ofAction`, `ofActionDispatched`/`Successful`/`Canceled`/`Errored`).
- **Store facade**: `select`, `selectOnce`, `selectSnapshot`, `snapshot` and `reset`.
- **`Select` property decorator**: selector naming, path building, the target check and the memoising getter.
- **Helpers**: the copy-on-write nested write `setValue` and its reader `getValue`.

Asynchrony is replaced by explicit inputs:

- A handler's return value is described by a `HandlerReturn`: a plain value, a stream with its emissions, how it ends (if it ever does), and after how many of its values a later dispatch cuts it off, or a synchronous throw.
- The order in which the inputs of a `forkJoin` settle is a permutation (`Completion.IsOrder`).
- The values committed to the state stream after a subscriber arrives are a sequence.

JavaScript values are the datatype `Json.Value`. Object identity (`===` on objects) is value equality, except for actions, which carry an explicit identity `id`.

Modules, one file each:

| module | file | models |
|---|---|---|
| `Wrappers` | `wrappers.dfy` | `Option` and `Result` |
| `Json` | `json.dfy` | JavaScript values, truthiness, property read/write, `{...v}` and `[...a]` |
| `Strings` | `strings.dfy` | `String.prototype.split` on one character, and its inverse `join` |
| `Symbols` | `symbols.dfy` | actions, contexts, statuses, handler metadata, the state metadata object |
| `Utils` | `utils.dfy` | `packages/store/src/utils/utils.ts` |
| `ActionDecorator` | `action_decorator.dfy` | `packages/store/src/decorators/action.ts` |
| `Completion` | `completion.dfy` | completion orders of concurrently settling streams |
| `StateFactory` | `state_factory.dfy` | `packages/store/src/internal/state-factory.ts` |
| `Dispatcher` | `dispatcher.dfy` | `packages/store/src/internal/dispatcher.ts` and the state stream of `state-stream.ts` |
| `OfAction` | `of_action.dfy` | `packages/store/src/operators/of-action.ts` |
| `Store` | `store.dfy` | `packages/store/src/store.ts` |
| `SelectDecorator` | `select_decorator.dfy` | `packages/store/src/decorators/select.ts` |

Code that updates objects in place is modelled as classes whose methods state their new state through a pure function of the old one:

- `StateFactory.StateFactory`: the registry.
- `Dispatcher.Dispatcher`: the state cell, the state stream's values, the action log and the waiting result listeners. The `Bus` functions specify it.
- `Store.Store`: the facade over the dispatcher.
- `SelectDecorator.Host`: an instance's cached selections.
- `Symbols.StateMeta`: the metadata whose `path` and `actions` the registry and the decorator write.

`setValue`, `getValue`, the filters and the selection pipeline are pure functions. `setValue` writes in place only into containers it has just copied, so a bottom-up pure construction gives the same result.

## Model

| member | source | states |
|---|---|---|
| Utils.SetValue | packages/store/src/utils/utils.ts:41-58 | the result is an object, or the RangeError of an invalid array `length` written on the way; when no array `length` is written, the write cannot fail and `getValue` at the same dotted path reads the written value back; every other top-level property reads as in the input |
| Utils.SetPath | packages/store/src/utils/utils.ts:47-55 | a completed walk keeps the root's kind (object or array); when no container on the way is an array written at `length`, the walk cannot fail and reads the value back along the segments; properties other than the first segment are untouched; an intermediate container keeps its kind |
| Utils.NoLengthSegment | packages/store/src/utils/utils.ts:44-55 | a dotted path without a `length` segment writes no array length |
| Utils.ObjectsLengthFree | packages/store/src/utils/utils.ts:47-55 | in an array-free object, no write writes an array length |
| Utils.IntermediateLengthThrows | packages/store/src/utils/utils.ts:49-52 | a `length` segment below an array that is not the last segment receives the fresh object copied for it, so the write throws |
| Utils.SetValueWithoutLength | packages/store/src/utils/utils.ts:41-58 | a dotted path without a `length` segment is always written and reads back |
| Utils.LengthWriteTruncates | packages/store/src/utils/utils.ts:41-58 | `setValue({a:[1,2,3]}, 'a.length', 1)` gives `{a:[1]}` |
| Utils.InvalidLengthThrows | packages/store/src/utils/utils.ts:41-58 | `setValue({a:[1]}, 'a.length', 'x')` throws the RangeError |
| Utils.CopyChild | packages/store/src/utils/utils.ts:51 | the copy put on the path is a container, and an array exactly when the old child was an array |
| Utils.SetValueFrame | packages/store/src/utils/utils.ts:41-58 | after a completed write, a path that leaves the written path at some depth, through objects only, reads the same as before |
| Utils.SetPathFrame | packages/store/src/utils/utils.ts:47-55 | the frame of the nested write, by induction on the divergence depth |
| Utils.MissingIntermediateBecomesObject | packages/store/src/utils/utils.ts:51 | after a completed write, a missing or primitive intermediate has become a fresh object holding only the next segment |
| Utils.ArrayIntermediateStaysArray | packages/store/src/utils/utils.ts:51 | an array intermediate is copied as an array with the same elements and no named properties, and the rest of the write goes on in that copy |
| Utils.SetPathNoArrays | packages/store/src/utils/utils.ts:47-55 | writing array-free values into an array-free object cannot fail and keeps it array-free |
| Utils.OwnPathObjects | packages/store/src/utils/utils.ts:47-55 | in an array-free object, the write cannot fail, and every container it leaves on its own path is an object |
| Utils.SetValueDocExample | packages/store/src/utils/utils.ts:31-35 | the documented example `setValue({foo:{bar:{eat:false}}}, 'foo.bar.eat', true)` gives `{foo:{bar:{eat:true}}}` |
| Utils.GetPathConcat | packages/store/src/utils/utils.ts:67-68 | walking `a + b` is walking `a`, then `b` from where that walk ended |
| Utils.GetPath | packages/store/src/utils/utils.ts:67-68 | the property walk of `getValue`; specified by `GetPathConcat` (a walk along `a + b` is the walk along `b` from where `a` ends), `GetPathStopsAtFalsy` (a falsy intermediate value is the result) and the read-back lemmas `SetPath`, `SetValueWithoutLength`, `CompositeReadBack` |
| Utils.GetValue | packages/store/src/utils/utils.ts:67-68 | `getValue(obj, prop)`: the walk along `prop` split on `.`; specified by `GetValueMissingKey` (a missing first key reads `undefined`) and by `SetValue` and `SetValueWithoutLength` (a written value reads back) |
| Utils.GetPathStopsAtFalsy | packages/store/src/utils/utils.ts:67-68 | once the walk reaches a falsy value, that value is the result of `getValue` |
| Utils.GetValueMissingKey | packages/store/src/utils/utils.ts:67-68 | a path through a missing first key reads `undefined` |
| Utils.ClassMatchesInstance | packages/store/src/utils/utils.ts:7-13 | an action class with a non-empty static type and any instance of it resolve to that type, and each one's matcher accepts the other |
| Utils.ActionTypeOf | packages/store/src/utils/utils.ts:7-13 | the static `type` of a class, else the instance's own `type`; specified by `ClassMatchesInstance` (a class and its instances have the same type) |
| Utils.ActionMatcher | packages/store/src/utils/utils.ts:23-29 | two actions match when their types are equal; specified by `ClassMatchesInstance` and `MatcherIsEquivalence` (reflexive, symmetric, transitive) |
| Utils.MatcherIsEquivalence | packages/store/src/utils/utils.ts:23-29 | `actionMatcher` is reflexive, symmetric and transitive |
| Strings.Split | packages/store/src/utils/utils.ts:44 | `split` gives at least one piece |
| Strings.JoinSplit | packages/store/src/utils/utils.ts:44 | joining the pieces of `split` with the separator gives the string back |
| Strings.SplitJoin | packages/store/src/utils/utils.ts:44 | splitting a join of separator-free pieces gives the pieces back |
| Strings.SplitPair | packages/store/src/utils/utils.ts:44 | two separator-free pieces joined by the separator split back into exactly those two pieces |
| Strings.SplitPiecesFree | packages/store/src/utils/utils.ts:44 | no piece contains the separator |
| Strings.SplitCount | packages/store/src/utils/utils.ts:44 | there is one more piece than there are separators |
| Json.Put | packages/store/src/utils/utils.ts:49 | after `c[k] = v` on any property but an array's `length`, `k` reads `v` and every other property reads as before; writing an array's `length` throws exactly when the value does not convert to a number from 0 to 2^32-1, and otherwise sets the length to it, so elements at or past it read `undefined` and named properties stay |
| Json.ArrayLength | packages/store/src/utils/utils.ts:49 | a value is a valid array length exactly when it converts to a number from 0 to 2^32-1, and the length is that number |
| Json.Resized | packages/store/src/utils/utils.ts:49 | an array resized to `n` has `n` elements: the old ones below `n`, `undefined` after them |
| Json.StoreAt | packages/store/src/utils/utils.ts:49 | an index write past an array's end leaves `undefined` holes and grows the length |
| Json.ObjectSpreadKeepsProps | packages/store/src/utils/utils.ts:42 | `{...v}` keeps every readable property except the `length` of an array or string |
| Json.ArraySpread | packages/store/src/internal/state-factory.ts:91 | `[...a]` keeps the elements and drops named properties |
| Json.IndexOfDecimal | packages/store/src/utils/utils.ts:49 | the decimal spelling of `n`, read as an array index, is `n` |
| Json.DecimalOfIndex | packages/store/src/utils/utils.ts:49 | an index property name is the decimal spelling of its index |
| Json.IndexEntriesAt | packages/store/src/utils/utils.ts:42 | the spread of an array's elements has exactly the index names below its length, each mapped to its element |
| Json.ObjectSpreadNoArrays | packages/store/src/utils/utils.ts:42 | spreading an array-free value gives an array-free object |
| ActionDecorator.Action | packages/store/src/decorators/action.ts:68-97 | the metadata's handler lists become what `Register` gives for the list of classes, including the TypeError of `push` on an inherited member; the error is returned; defaults and path are unchanged |
| ActionDecorator.RegisterFailsIff | packages/store/src/decorators/action.ts:80-91 | the decorator throws exactly when some class has a missing or empty static `type`, or a type such as `toString` that reads an inherited member because the map holds no list of that name |
| ActionDecorator.RegisterKeepsInherited | packages/store/src/decorators/action.ts:87-89 | the decorator never creates a list under an inherited member's name |
| ActionDecorator.InheritedTypeThrows | packages/store/src/decorators/action.ts:87-91 | a class whose type is `toString` throws the TypeError of `push` |
| ActionDecorator.RegisterAppends | packages/store/src/decorators/action.ts:87-95 | without an error, each type's list is its old list followed by one `{fn, options, type}` entry per class of that type; other types keep their lists or stay absent |
| ActionDecorator.RegisterKeepsPartial | packages/store/src/decorators/action.ts:80-96 | on an error at the first class that cannot be registered, the error is that class's and the entries of the classes before it stay registered |
| ActionDecorator.RegisterTail | packages/store/src/decorators/action.ts:80-85 | once a class fails, the rest of the list changes nothing |
| ActionDecorator.RegisterSnoc | packages/store/src/decorators/action.ts:80-96 | one more class is one more turn of the loop |
| ActionDecorator.Register | packages/store/src/decorators/action.ts:80-96 | the registration of every class of one `@Action`, in order; specified by `RegisterFailsIff`, `RegisterAppends`, `RegisterKeepsPartial`, `RegisterKeepsInherited`, `RegisterTail` and `RegisterSnoc` |
| ActionDecorator.Step | packages/store/src/decorators/action.ts:80-96 | one class: no type fails, an inherited name without an own list throws TypeError, otherwise the handler entry is appended to the type's list; specified through `Register` by `RegisterSnoc` and the lemmas named there |
| StateFactory.StateFactory.Add | packages/store/src/internal/state-factory.ts:51-113 | each decorated class visited gets the path of its last visit; on an undecorated class the call fails and leaves the registry unchanged, though earlier paths stay assigned; otherwise the registry grows by exactly the new states |
| StateFactory.StateFactory.VisitAll | packages/store/src/internal/state-factory.ts:65-108 | the loop stops at the first undecorated class, leaves every visited metadata object with the depth of its last visit (`PathsAfter`), and collects `NewStores` of the declarations it read |
| StateFactory.StateFactory.AssignPath | packages/store/src/internal/state-factory.ts:76 | the visited class's metadata takes the visit's depth, and `PathsAfter` moves on by one visit |
| StateFactory.StateFactory.Register | packages/store/src/internal/state-factory.ts:85-106 | one more declaration registers a state exactly as `NewStores` of the longer declaration list says |
| StateFactory.NormaliseDefaults | packages/store/src/internal/state-factory.ts:89-96 | defaults are never `undefined` after copying; objects and primitives keep their content; arrays keep their elements |
| StateFactory.NormaliseIdempotent | packages/store/src/internal/state-factory.ts:89-96 | copying normalised defaults again changes nothing |
| StateFactory.NewStoresMembers | packages/store/src/internal/state-factory.ts:87-107 | a state is added exactly when it comes from a declaration whose name was not registered before the call |
| StateFactory.NewStores | packages/store/src/internal/state-factory.ts:65-110 | the stores that `add` registers; specified by `NewStoresMembers`, `NewStoresNone`, `NewStoresConcat`, `AddTwiceAddsNothing` and `RegistrationKeepsNamesUnique` |
| StateFactory.NewStoresNone | packages/store/src/internal/state-factory.ts:87-88 | nothing is added when every declared name is already registered |
| StateFactory.NewStoresConcat | packages/store/src/internal/state-factory.ts:65-110 | added states keep visiting order |
| StateFactory.AddTwiceAddsNothing | packages/store/src/internal/state-factory.ts:84-88 | registering the same classes a second time adds nothing |
| StateFactory.RegistrationKeepsNamesUnique | packages/store/src/internal/state-factory.ts:87-110 | with distinct names in the graph, the registry stays free of duplicate names |
| StateFactory.Decorated | packages/store/src/internal/state-factory.ts:65-70 | the number of leading visits whose class carries metadata; the next visit, if any, does not |
| StateFactory.LastDepthIsLast | packages/store/src/internal/state-factory.ts:76 | the path left on a metadata object is the depth of its last visit, and there is none when no visit reaches it |
| StateFactory.StateFactory.AddAndReturnDefaults | packages/store/src/internal/state-factory.ts:118-127 | a missing class list gives nothing; an undecorated class fails with the registry unchanged; otherwise the registry grows by the new states, which come back with their composite defaults, or, when composing them throws, the states stay registered and the error is returned |
| StateFactory.StateFactory.ComposeDefaults | packages/store/src/internal/state-factory.ts:121-124 | the loop computes `CompositeDefaults`, stopping at the first write that throws |
| StateFactory.CompositeDefaults | packages/store/src/internal/state-factory.ts:121-124 | the composite initial state is an object, unless a write throws |
| StateFactory.CompositeErrPersists | packages/store/src/internal/state-factory.ts:121-124 | once a write has thrown, the rest of the states do not change the outcome |
| StateFactory.CompositeReadBack | packages/store/src/internal/state-factory.ts:121-124 | with array-free defaults, composing cannot fail, and reading the composite defaults at a state's path gives that state's defaults, when no later state lives on or below that path |
| StateFactory.CompositeNoArrays | packages/store/src/internal/state-factory.ts:121-124 | array-free defaults compose, without throwing, to an array-free state |
| StateFactory.NestedDefaultsExample | packages/store/src/internal/state-factory.ts:121-124 | a child registered at `a.b` after its parent `a` lands inside the parent's defaults |
| StateFactory.Shape | packages/store/src/internal/state-factory.ts:177-197 | a plain return emits once and a synchronous throw errors; a stream fails exactly when it throws before a `cancelUncompleted` cut, and never settles exactly when it never ends and is not cut; a stream that runs to completion emits iff it emitted a value; a stream counts as emitted only if it emitted |
| StateFactory.CallsOf | packages/store/src/internal/state-factory.ts:171-174 | one call per handler registered for the type, in registration order |
| StateFactory.HandlersMembership | packages/store/src/internal/state-factory.ts:169-174 | a handler runs exactly when some registered state registered it for the action's type |
| StateFactory.Handlers | packages/store/src/internal/state-factory.ts:169-174 | the handler calls for an action type across the states, in state order; specified by `HandlersMembership` and `HandlersConcat` |
| StateFactory.HandlersConcat | packages/store/src/internal/state-factory.ts:169-200 | handlers run in registry order |
| StateFactory.Shaped | packages/store/src/internal/state-factory.ts:174-198 | one wrapped result per handler, in handler order |
| StateFactory.Invoked | packages/store/src/internal/state-factory.ts:202-204 | the join always waits for at least one result |
| StateFactory.StateFactory.InvokeActions | packages/store/src/internal/state-factory.ts:166-207 | the nested loops call exactly `Handlers(states, type)` and produce their wrapped results, or one emission when there are none |
| StateFactory.StateFactory.RunHandlers | packages/store/src/internal/state-factory.ts:170-198 | one state's handlers for the type are called in list order, each result wrapped as `Shaped` says |
| StateFactory.SettledPrefix | packages/store/src/internal/state-factory.ts:206 | the results, in completion order, before the first that settles without emitting |
| StateFactory.ForkJoinFirstSettled | packages/store/src/internal/state-factory.ts:206 | the join is decided by the first result, in completion order, that settles without emitting; failing that, it never settles if some result never does, and emits otherwise |
| StateFactory.ForkJoin | packages/store/src/internal/state-factory.ts:206 | the `forkJoin` of the handler results; specified by `ForkJoinFirstSettled` and the `...Iff` lemmas on `ResultContext` |
| StateFactory.StatusOf | packages/store/src/internal/state-factory.ts:139-141 | the status of the result context, if any; specified by `SuccessfulIff`, `ErroredIff`, `CanceledIff` and `NoResultIff` |
| StateFactory.ResultContext | packages/store/src/internal/state-factory.ts:139-141 | no result context exactly when the join never settles; otherwise it is for the same action and never Dispatched |
| StateFactory.SuccessfulIff | packages/store/src/internal/state-factory.ts:139 | Successful exactly when at least one result settles and all emit |
| StateFactory.ErroredIff | packages/store/src/internal/state-factory.ts:141 | Errored exactly when the first result to settle without emitting failed, and with that result's error |
| StateFactory.CanceledIff | packages/store/src/internal/state-factory.ts:140 | Canceled exactly when the join is empty or the first result to settle without emitting completed empty |
| StateFactory.NoResultIff | packages/store/src/internal/state-factory.ts:134-145 | no result context exactly when no result settles without emitting and some result never settles |
| StateFactory.SuccessIndependentOfOrder | packages/store/src/internal/state-factory.ts:206 | success does not depend on the order in which handlers settle |
| StateFactory.NoResultIndependentOfOrder | packages/store/src/internal/state-factory.ts:206 | whether the action gets a result context at all does not depend on the completion order |
| StateFactory.FailureDependsOnOrder | packages/store/src/internal/state-factory.ts:206 | which failure decides does depend on that order |
| StateFactory.NoHandlerSucceeds | packages/store/src/internal/state-factory.ts:202-204 | an action with no handler succeeds |
| StateFactory.PlainHandlersSucceed | packages/store/src/internal/state-factory.ts:190-192 | handlers returning plain values make the action succeed in any completion order |
| StateFactory.ThrowingHandlerErrors | packages/store/src/internal/state-factory.ts:195-197 | a lone handler that throws errors the action with its error |
| StateFactory.NeverEndingHandlerBlocks | packages/store/src/internal/state-factory.ts:185-190 | a lone handler whose stream never ends and is not cut leaves the action without a result context |
| StateFactory.StateFactory.ConnectActionHandlers | packages/store/src/internal/state-factory.ts:132-147 | after the call the handlers are connected through exactly one subscription, however often it is called |
| StateFactory.StateFactory.HandleContext | packages/store/src/internal/state-factory.ts:134-145 | a context that is not Dispatched, or arrives before connection, yields nothing; otherwise the outcome is the `ResultContext` of the handlers' outcomes in completion order, which is none when the join never settles |
| StateFactory.StateFactory.constructor | packages/store/src/internal/state-factory.ts:34-35 | the registry starts empty and disconnected |
| Completion.InOrder | packages/store/src/internal/state-factory.ts:206 | the inputs listed in completion order |
| Completion.InOrderCovers | packages/store/src/internal/state-factory.ts:206 | every input settles at some position |
| Dispatcher.TerminalRunsIff | packages/store/src/internal/dispatcher.ts:55-66 | the terminal step runs exactly when every plugin calls `next` |
| Dispatcher.ChainArgs | packages/store/src/internal/dispatcher.ts:55-66 | the state and action the terminal step receives from the plugin chain; specified by `TerminalRunsIff` (present exactly when every plugin calls `next`) |
| Dispatcher.PluginOrder | packages/store/src/internal/dispatcher.ts:55-66 | plugin code runs in list order before the terminal step, then in reverse order on the result |
| Dispatcher.LoggingPluginRunsTwice | packages/store/tests/plugins.spec.ts:17-45 | a logging plugin around a successful dispatch runs once before and once after the terminal step |
| Dispatcher.CallerAnswer | packages/store/src/internal/dispatcher.ts:77-92 | Successful yields the current state, Errored fails with the context's error, anything else completes without a value |
| Dispatcher.Dispatcher.constructor | packages/store/src/internal/state-stream.ts:9-13 | the state stream starts at `{}`; nothing is logged or waiting |
| Dispatcher.InitialWf | packages/store/src/internal/state-stream.ts:9-13 | the initial dispatcher satisfies the invariant |
| Dispatcher.Dispatcher.DispatchSingle | packages/store/src/internal/dispatcher.ts:51-67 | the new state is `DispatchStep` of the old one, and the invariant is kept |
| Dispatcher.Dispatcher.Dispatch | packages/store/src/internal/dispatcher.ts:35-49 | the loop performs one single dispatch per action, in order |
| Dispatcher.Dispatcher.Resolve | packages/store/src/internal/dispatcher.ts:69-75 | the loop removes and answers exactly the listeners waiting for the context's instance, and the invariant is kept |
| Dispatcher.Dispatcher.Reset | packages/store/src/store.ts:93-95 | the whole state is replaced and pushed on the state stream |
| Dispatcher.DispatchAllExtendsHistory | packages/store/src/internal/dispatcher.ts:57-60 | dispatching only appends to the state stream |
| Dispatcher.TerminalKeepsWf | packages/store/src/internal/dispatcher.ts:57-64 | the terminal step keeps the invariant and commits a value to the state stream exactly when the state changed |
| Dispatcher.Terminal | packages/store/src/internal/dispatcher.ts:57-64 | the terminal step; specified by `TerminalKeepsWf` (commits exactly when the state changed, keeps the bus invariant), `DispatchedBeforeTerminal` and `DispatchAllExtendsHistory` |
| Dispatcher.DispatchStep | packages/store/src/internal/dispatcher.ts:51-67 | `dispatchSingle` on the bus; specified by `TerminalRunsIff`, `AnsweredByOwnInstance` and, for the class, `Dispatcher.Dispatcher.DispatchSingle` |
| Dispatcher.Resolved | packages/store/src/internal/dispatcher.ts:69-92 | a result context reaching the listeners; specified by `ResolvedKeepsWf`, `AnswersOnce`, `AnsweredByOwnInstance`, `WithoutCounts` and `CallerAnswer` |
| Dispatcher.DispatchAll | packages/store/src/internal/dispatcher.ts:35-49 | single dispatches one after another; specified by `DispatchAllExtendsHistory` (the state stream only grows) and `Dispatcher.Dispatcher.Dispatch` |
| Dispatcher.ResolvedKeepsWf | packages/store/src/internal/dispatcher.ts:69-75 | resolving a result keeps the invariant |
| Dispatcher.ResetKeepsWf | packages/store/src/store.ts:93-95 | a reset keeps the invariant |
| Dispatcher.DispatchedBeforeTerminal | packages/store/src/internal/dispatcher.ts:61-63 | on the action log, every terminal context of an instance comes after a Dispatched context of it |
| Dispatcher.AnswersOnce | packages/store/src/internal/dispatcher.ts:72 | after a result is taken, nobody waits for that instance, and a second result is neither logged nor answered |
| Dispatcher.AnsweredByOwnInstance | packages/store/src/internal/dispatcher.ts:71 | a result context answers the dispatched action exactly when it carries the same instance |
| Dispatcher.WithoutCounts | packages/store/src/internal/dispatcher.ts:71-72 | taking one instance's listeners leaves every other instance's listeners waiting |
| Dispatcher.AppendTerminalsOrdered | packages/store/src/internal/dispatcher.ts:61-63 | logging terminal contexts that match Dispatched ones keeps the log ordered |
| Dispatcher.BatchYieldsIff | packages/store/src/internal/dispatcher.ts:37-38 | a batch yields exactly when it is non-empty and every single dispatch yields, with the values in dispatch order whatever the completion order; a dispatch that never answers keeps the batch from yielding |
| Dispatcher.BatchAnswer | packages/store/src/internal/dispatcher.ts:37-38 | the `forkJoin` of a batch's answers in completion order; specified by `BatchYieldsIff`, `BatchPendingIff` and `BatchFailureExample` |
| Dispatcher.BatchFailureExample | packages/store/src/internal/dispatcher.ts:37-38 | a failing batch reports the error that settles first |
| Dispatcher.BatchPendingIff | packages/store/src/internal/dispatcher.ts:37-38 | a batch never answers exactly when no single dispatch fails or completes empty and at least one never answers, in any completion order |
| OfAction.AllowedKeysMembers | packages/store/src/operators/of-action.ts:77-85 | a type is allowed exactly when some argument resolves to it |
| OfAction.AllowedKeys | packages/store/src/operators/of-action.ts:77-85 | the allowed-type table; specified by `AllowedKeysMembers`, `AllowedKeysByType` and `ClassOrInstance` |
| OfAction.AllowedKeysByType | packages/store/src/operators/of-action.ts:80 | the allowed set depends only on the arguments' resolved types |
| OfAction.ClassOrInstance | packages/store/src/operators/of-action.ts:80 | passing an action class or an instance of it allows the same types |
| OfAction.InheritedNamePassesAsWritten | packages/store/src/operators/of-action.ts:77-85 | an action typed `toString` passes `ofAction()` as written, and does not pass the corrected filter |
| OfAction.AsWrittenDiffersOnlyOnInheritedNames | packages/store/src/operators/of-action.ts:65-71 | away from the inherited names, the as-written and corrected filters agree |
| OfAction.PassesAsWritten | packages/store/src/operators/of-action.ts:65-71 | the filter as written, which also finds inherited names; specified by `InheritedNamePassesAsWritten` and `AsWrittenDiffersOnlyOnInheritedNames` |
| OfAction.Passes | packages/store/src/operators/of-action.ts:65-71 | the filter on own keys only; specified by `FilteredSingle`, `FilteredMembers` and `AsWrittenDiffersOnlyOnInheritedNames` |
| OfAction.OperatorAsWritten | packages/store/src/operators/of-action.ts:55-63 | the operator as written; specified by `AsWrittenDiffersOnlyOnInheritedNames` (it differs from `Operator` only on contexts whose type is an inherited name) |
| OfAction.Operator | packages/store/src/operators/of-action.ts:55-63 | the operator over a context stream; specified by `OperatorMembers`, `FilteredConcat` and `NothingAllowedPassesNothing` |
| OfAction.FilteredSingle | packages/store/src/operators/of-action.ts:65-75 | one context is passed on as its bare action, or dropped |
| OfAction.FilteredConcat | packages/store/src/operators/of-action.ts:55-63 | the filters keep stream order |
| OfAction.FilteredMembers | packages/store/src/operators/of-action.ts:65-75 | an action is passed on exactly when some context carrying it passes the filter |
| OfAction.OperatorMembers | packages/store/src/operators/of-action.ts:55-75 | an action is passed on exactly when some context carrying it has the filter's status and an argument resolves to its type |
| OfAction.NothingAllowedPassesNothing | packages/store/src/operators/of-action.ts:77-85 | with no allowed type, nothing passes |
| OfAction.OfActionIsUnionOfStatuses | packages/store/src/operators/of-action.ts:15-53 | per context, `ofAction` passes what exactly one of the four status filters passes |
| OfAction.OfAction | packages/store/src/operators/of-action.ts:15-17 | any status; specified by `OfActionIsUnionOfStatuses` (it passes a context exactly when one of the status filters does) |
| OfAction.OfActionDispatched | packages/store/src/operators/of-action.ts:24-26 | Dispatched only; specified by `StatusFilterNarrows` and `OfActionIsUnionOfStatuses` |
| OfAction.OfActionSuccessful | packages/store/src/operators/of-action.ts:33-35 | Successful only; specified by `StatusFilterNarrows` and `OfActionIsUnionOfStatuses` |
| OfAction.OfActionCanceled | packages/store/src/operators/of-action.ts:42-44 | Canceled only; specified by `StatusFilterNarrows` and `OfActionIsUnionOfStatuses` |
| OfAction.OfActionErrored | packages/store/src/operators/of-action.ts:51-53 | Errored only; specified by `StatusFilterNarrows` and `OfActionIsUnionOfStatuses` |
| OfAction.StatusFilterNarrows | packages/store/src/operators/of-action.ts:24-53 | a status filter passes no more than `ofAction`, and only actions `ofAction` passes |
| Store.Project | packages/store/src/store.ts:39-40 | the selector applied to each observed state, in order |
| Store.Caught | packages/store/src/store.ts:38-46 | values up to the first throwing projection; a TypeError gives one `undefined` and completes; another error ends the selection with it; no throw leaves it open |
| Store.FirstFailure | packages/store/src/store.ts:38-46 | the first projection that throws, if any |
| Store.DistinctSpec | packages/store/src/store.ts:47 | `distinctUntilChanged` emits no value twice in a row and every received value at least once; it starts with the first and ends with the last |
| Store.DistinctKeepsNonRepeating | packages/store/src/store.ts:47 | a sequence without consecutive repeats passes unchanged |
| Store.DistinctIdempotent | packages/store/src/store.ts:47 | applying it twice is applying it once |
| Store.Distinct | packages/store/src/store.ts:47 | `distinctUntilChanged`; specified by `DistinctSpec`, `DistinctKeepsNonRepeating` and `DistinctIdempotent` |
| Store.Select | packages/store/src/store.ts:34-50 | `select` over the observed states; specified by `SelectStartsWithSnapshot`, `TypeErrorSwallowedBySelectOnly`, `SelectRethrows`, `SelectWithoutErrors` and `SubscriberObservesCommits` |
| Store.SelectOnce | packages/store/src/store.ts:59-61 | `selectOnce` yields at most one value; what it yields and how it ends are given by `SelectOnceSettledByCurrent` |
| Store.SelectOnceSettledByCurrent | packages/store/src/store.ts:59-61 | `selectOnce` is settled by the current state alone: the projected value and completion, `undefined` and completion on a TypeError, or the thrown error with nothing emitted |
| Store.SelectStartsWithSnapshot | packages/store/src/store.ts:36-73 | when the projection succeeds, `select` first emits `selectSnapshot` of the current state, and `selectOnce` emits only that and completes |
| Store.TypeErrorSwallowedBySelectOnly | packages/store/src/store.ts:38-73 | a TypeError on the current state makes `select` emit `undefined` and complete, while `selectSnapshot` passes the TypeError on |
| Store.SelectRethrows | packages/store/src/store.ts:44-45 | a selection fails with an error exactly when the first throwing projection threw that error |
| Store.SelectSnapshot | packages/store/src/store.ts:70-73 | the selector on the current state, errors included; specified by `SelectStartsWithSnapshot` and `TypeErrorSwallowedBySelectOnly` |
| Store.SelectWithoutErrors | packages/store/src/store.ts:36-47 | without throws, the selection emits the projected values without consecutive repeats and stays open |
| Store.Store.constructor | packages/store/src/store.ts:16-22 | the store wraps the given root state operations |
| Store.Store.Snapshot | packages/store/src/store.ts:85-87 | the root state, which is also the state stream's current value |
| Store.Store.Reset | packages/store/src/store.ts:93-95 | the root state becomes the given state and is pushed on the stream |
| Store.Store.SelectNow | packages/store/src/store.ts:70-73 | the selector applied to the state stream's current value |
| Store.Store.Subscribe | packages/store/src/store.ts:36-50 | `select` over the current value followed by the later committed states |
| Store.SubscriberObservesCommits | packages/store/src/store.ts:36-50 | the states a subscriber observes after the current one are those the following dispatches append to the state stream |
| SelectDecorator.LastIndexOf | packages/store/src/decorators/select.ts:33 | the last position of the character, or -1; no later position holds it |
| SelectDecorator.DefaultName | packages/store/src/decorators/select.ts:30-36 | the default selector name; specified by `DefaultNameDropsTrailingDollar` and `DefaultNameOfDollarKey` |
| SelectDecorator.Substring | packages/store/src/decorators/select.ts:34 | `substring` with clamped bounds is never longer than the string |
| SelectDecorator.DefaultNameDropsTrailingDollar | packages/store/src/decorators/select.ts:30-36 | the default name is the key with one trailing `$` removed, or the key unchanged; the empty key stays empty |
| SelectDecorator.DefaultNameOfDollarKey | packages/store/src/decorators/select.ts:30-36 | only one `$` is removed |
| SelectDecorator.Resolved | packages/store/src/decorators/select.ts:30-36 | after defaulting, the selector is never absent; a truthy argument is kept |
| SelectDecorator.StringSelectorSegments | packages/store/src/decorators/select.ts:49-52 | with extra paths, the segments are the string and the paths unsplit; without them, the segments join back to the string |
| SelectDecorator.CreateSelector | packages/store/src/decorators/select.ts:48-61 | `createSelector`; specified by `StringSelectorSegments`, `StateClassLikeItsPath` and `UnresolvedIsGiven` |
| SelectDecorator.StateClassLikeItsPath | packages/store/src/decorators/select.ts:53-57 | a state class with a path selects along that path split on `.` |
| SelectDecorator.UnresolvedIsGiven | packages/store/src/decorators/select.ts:58-60 | a function, or a state class without a path, is the selector itself |
| SelectDecorator.Decorate | packages/store/src/decorators/select.ts:63-65 | decorating fails exactly when the target's `__<key>__selector` is truthy; otherwise the property records the key, its cache field, the defaulted selector and the paths |
| SelectDecorator.ReadIsMemoised | packages/store/src/decorators/select.ts:75-77 | after a successful read, every later read returns the same selection, whatever store is connected then |
| SelectDecorator.Read | packages/store/src/decorators/select.ts:74-77 | one read of the decorated property; specified by `ReadIsMemoised`, `ReadFailsIff` and `FirstReadSelects` |
| SelectDecorator.ReadFailsIff | packages/store/src/decorators/select.ts:38-46 | a read fails exactly when nothing is cached and no store is connected, and it changes nothing |
| SelectDecorator.FirstReadSelects | packages/store/src/decorators/select.ts:75-77 | a first read through a connected store selects with the selector the arguments describe, and caches it |
| SelectDecorator.Host.Get | packages/store/src/decorators/select.ts:74-80 | the getter returns and caches what `Read` gives |

## Left out

- Angular dependency injection, zones, `ErrorHandler` reporting and `enterZone` are not modelled. The error subscription of `dispatch` has no effect on the modelled state.
- RxJS scheduling, `shareReplay`, `mergeMap` interleaving and Promise conversion are not modelled. Handler results are described by `HandlerReturn`, and completion order is an input permutation.
- `buildGraph`, `topologicalSort`, `findFullParentPath` and `nameToState` are not part of this model. Their output arrives as the `Visit` sequence, which `add` walks. Cycle detection is therefore not modelled.
- `compose`, the `PluginManager`, `StateContextFactory`, `InternalStateOperations`, `getSelectorFn`, `fastPropGetter` and `compliantPropGetter` are not part of this model.
  - A plugin is a pair of state and action maps plus whether it calls `next`.
  - A selector is a total function from a state to a `Projection`.
  - A property getter is its segment list.
- The parent-factory delegation of `states` and the `invokeInit` lifecycle hook are left out. The model has a single registry, and the hook only calls user code.
- The state instance from the injector and `selectFromAppState` are not stored in `MappedStore`.
- `Store.dispatch` only delegates to the dispatcher, and `Store.subscribe` only forwards the state stream, so neither has a separate member.
- `Select` decorator property mechanics are left out: `delete`, `Object.defineProperty` and the static `SelectFactory.store` singleton. The connected store is a parameter of each read.
- Floating-point numbers are not modelled. Numbers are integers.
- Json.StringToNumber: only optionally signed decimal digit strings convert. Whitespace, `+`, fractions, exponents, hexadecimal and `Infinity` read as NaN, so a `length` written as such a string throws in the model.
- Json.ToNumber: objects convert to NaN. A custom `valueOf` or `toString` is not modelled.
- Json.Index: every canonical decimal name is an index, including 2^32-1 and above. Arrays that long cannot arise, since a `length` write stops at 2^32-1.
- Utils.SetValue: read-back is promised only when no array `length` is written on the way. Such a write reads back the number the array was resized to, not the value written.
- Properties inherited from prototypes are not modelled, and read as `undefined`, except in the `Action` decorator, where a type naming an inherited member throws:
  - `getValue` on such names;
  - `metadata.actions[type]` in `invokeActions`;
  - the `__<key>__selector` check. That check cannot meet an inherited name anyway, since the name ends in `__selector`.
- Object identity is value equality. Only actions carry an explicit identity.
  - So `distinctUntilChanged` and the `nextState !== prevState` test compare structurally.
  - Actions are matched to their results by `id`.
- `isObject` is read as "a non-null object that is not an array". Its definition is not part of this model.
- The `ActionStatus` enum is the datatype `Status`. A filter's optional status is an `Option`.
- StateFactory.CompositeReadBack: read-back is proved only for array-free defaults whose later paths are apart from the state's own path. A later state at or below the path overwrites it, which the source allows.
- SelectDecorator.Host.Get: a selection is an opaque value naming its store and selector. The observable that `store.select` builds is modelled in `Store.Select`, not here.

## Findings

| source | as written | input that shows it | evidently intended | confidence | as-written member | corrected member |
|---|---|---|---|---|---|---|
| packages/store/src/operators/of-action.ts:77-85 | the allowed-type table is a plain `{}` record, so the lookup at line 68 also finds members every object inherits (`toString`, `constructor`, `valueOf`, ...) | `ofAction()` with no allowed type, given an action whose type is `"toString"`: it passes | only the types of the arguments pass (a record without a prototype, or a `Set`) | not executed | OfAction.InheritedNamePassesAsWritten | OfAction.NothingAllowedPassesNothing |
