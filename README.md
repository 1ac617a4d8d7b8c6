# ResponsibilityChain in Dafny

This project models the core of ResponsibilityChain, a small .NET library for the
chain-of-responsibility pattern, and proves properties of that model.

A *handler* takes an input and a `next` delegate. It either answers the input or passes the
input on to `next`. A *composite handler* (`Handler<TIn, TOut>`, or `AsyncHandler<TIn, TOut>`
for handlers that return tasks) holds an ordered list of child handlers:

- `AddHandler` refuses a null child. Otherwise it runs the child through the composite's
  *interception strategy* and appends the result.
- On first use, `Handle` folds the list into one delegate, with the first child outermost, and
  caches it. The fold captures every child but the last. Its innermost step reads the list's
  last child each time the delegate runs.
- `Handle(input, next)` runs that delegate. A null `next` is replaced by a continuation that
  throws `NotSupportedException`.
- `ToString` prints the tree of children, two spaces of indentation per level.

Interception strategies:

- The no-op strategy stores the handler as given.
- The default strategy wraps it in `InterceptedHandler`s, one per interceptor the service
  provider resolves for the handler's type, with the first interceptor outermost.
- The interception helper wraps in the opposite order: the first interceptor innermost.

A global holder keeps the current strategy. A composite built without a strategy uses the
holder's current one. Terminal handlers end a chain: they throw `NotSupportedException`, or
answer `default(TOut)`, possibly as a completed task.

The files:

- `handlers.dfy`: handlers as values.
  - A `Handler` tree has leaves, composites (with the `Handle` override a subclass may declare)
    and interception wrappers. `Eval` gives its meaning as a function.
  - The right fold the composite builds (`FoldFrom`, `FoldCont`) and `ChainHandle`.
  - A reference semantics that calls the children by hand (`ByHand`).
  - The laws of the fold: short-circuit, fall-through, first-answer-wins, nested composites
    splicing into their parent, and agreement with the reference semantics.
- `interception.dfy`: the default strategy's descending loop, the helper's ascending loop, and
  what the layers they build mean.
- `strategies.dfy`: the strategies as a datatype, and the global holder as a class.
- `composite.dfy` and `async_handler.dfy`: the two composites as classes.
  - The child list is a `seq` field and the cached delegate an `Option` field.
  - The cached delegate is a function of the last child (`LateChained`). `HandleBase` applies it
    to the list's current last child on every call, as the source's `_handlers.Last()` does.
  - A ghost field records the list the cache was built from. `Running` is the children a call
    runs: the captured ones, then the current last child.
  - `ChainedDelegate` keeps the loop of the source; `ToString` keeps its loop over the nodes.
  - `Handle` (`HandleAsync`) is virtual: a subclass's override (`refine`) runs around the base
    class's method (`HandleBase`, `HandleAsyncBase`), which it reaches as `base`.
- `describe.dfy`: the outline behind `ToString`, covering nodes, indentation, line joining and
  `TrimEnd`.
- `terminals.dfy`: the eight terminal handlers.
- `examples_tostring.dfy`, `examples_coins.dfy` and `examples_interception.dfy`: the scenarios of
  the repository's tests, proved for the model.

Modelling choices:

- A task is modelled as an already completed outcome: `Res<O>` is a value or the kind of
  exception raised. `HandleAsync` therefore has the same fold as `Handle`.
- `next` is an `Option` of a continuation. Calling a null delegate is `NullReference`.
- Dafny functions have no extensionality. Laws that involve several children therefore assume
  the children are *congruent*: they use their continuation only by calling it. The predicates
  are `Congruent`, `AroundCongruent` and `WellBehaved`.
- The service provider becomes a lookup from a handler's type name to an optional list of
  interceptors.
- The global holder is an object passed to the constructors, one per pair of input and output
  types.
- Type names omit generic arguments (`ResponsibilityChain.ThrowNotSupported`2`).
  `Environment.NewLine` is `"\n"`.

The source files do not all agree with each other (they mix revisions of the API). The model
follows `Handler.cs` and `AsyncHandler.cs` and resolves the mismatches as follows:

- The constructors (`Handler.cs:26`, `AsyncHandler.cs:26`) read `InterceptionStrategy.Default`,
  but `InterceptionStrategy` declares only `Current` (`InterceptionStrategy.cs:20`). The model
  reads the holder's current strategy.
- `Handler.cs:117` calls `InterceptHandler`, but the no-op strategy implements `Intercept`
  (`NoopInterceptionStrategy.cs:16`). The model calls the strategy's `Intercept`.
- `AsyncHandler.cs:113` calls `InterceptAsyncHandler`, which no strategy in the source defines.
  The model calls `InterceptAsync`, its own resolution: it coincides with `Intercept` for every
  strategy except a custom one, which brings its own asynchronous hook.
- `AddHandler` never resets the cache. The cached delegate captured every child but the last
  when it was built, and reads the list's last child each time it runs (`Handler.cs:42-51`,
  `AsyncHandler.cs:39-49`). So a child added after the first `Handle` takes the place of the
  last child the delegate was built with, and the children added in between are skipped
  (`Running`, `InterceptionExamples.StaleCacheScenario`).

## Model

| member | source | states |
|---|---|---|
| Handlers.ChainHandle | src/ResponsibilityChain/Handler.cs:67-82 | With no children the input goes straight to `next`. With no children and a null `next`, the result is NotSupported. |
| Handlers.FoldFrom | src/ResponsibilityChain/Handler.cs:42-51 | The right fold of the children from index i, first child outermost: what the loop's delegate becomes once its innermost step is given the last child. |
| Handlers.LateFoldIsFold | src/ResponsibilityChain/Handler.cs:42-51 | The delegate the descending loop holds after index i, given the last child it runs with, is the right fold of the captured children from i followed by that child. |
| Handlers.BaseHandle | src/ResponsibilityChain/Handler.cs:67-82 | The base class's `Handle` run from its delegate field (none for no children, otherwise the fold) answers `ChainHandle` for every input and `next`. |
| Handlers.Surround | src/ResponsibilityChain/InterceptedHandler.cs:17-20 | An interceptor, or an override, run around the handler it is given: `Intercept(handler, input, next)`. |
| Handlers.Eval | src/ResponsibilityChain/Handler.cs:67-96 | What invoking a handler does: a leaf runs its code, a composite its override around its base `Handle` or the base `Handle` alone, an interception wrapper its interceptor around the inner handler. |
| Handlers.FoldFromApplied | src/ResponsibilityChain/Handler.cs:42-51 | The delegate the loop builds for index i, given a continuation k, calls child i with the rest of the chain, built the same way, as its `next`. The last child gets k itself. |
| Handlers.ChainHandleFold | src/ResponsibilityChain/Handler.cs:81 | With children and a `next`, `Handle` is the folded delegate applied to `next` and then to the input. |
| Handlers.FoldFromShift | src/ResponsibilityChain/Handler.cs:45-51 | The fold from index i+1 is the fold of the list without its first child, from index i. |
| Handlers.FoldCons | src/ResponsibilityChain/Handler.cs:45-51 | The fold of two or more children is the first child linked in front of the fold of the rest. |
| Handlers.FoldSingle | src/ResponsibilityChain/Handler.cs:42-43 | With one child, that child receives the caller's `next`. |
| Handlers.FoldUnfold | src/ResponsibilityChain/Handler.cs:42-50 | Child i is called with the rest of the chain as its `next`. The last child is called with the caller's `next`. |
| Handlers.FoldRespectsSame | src/ResponsibilityChain/Handler.cs:45-51 | Congruent children folded over pointwise-equal continuations give pointwise-equal delegates. |
| Handlers.ChainRespectsSame | src/ResponsibilityChain/Handler.cs:67-82 | A composite of congruent children is congruent. It gives equal answers for `next` delegates that give equal answers, and for two null ones. |
| Handlers.SurroundRespectsSame | src/ResponsibilityChain/InterceptedHandler.cs:17-20 | A congruent interceptor around a congruent handler is a congruent handler. |
| Handlers.EvalCongruent | src/ResponsibilityChain/Handler.cs:67-82 | A handler tree whose leaves, overrides and interceptors are congruent is congruent as a whole. |
| Handlers.FoldIsByHand | src/ResponsibilityChain/Handler.cs:42-51 | For congruent children, the fold from index i answers, for every input, what calling children i.. by hand answers. |
| Handlers.ChainIsByHand | src/ResponsibilityChain/Handler.cs:57-82 | `Handle` invokes the children one by one, each given "the rest of the chain" as `next` and the caller's `next` after the last. |
| Handlers.ByHandAppend | src/ResponsibilityChain/Handler.cs:45-51 | Calling a + b by hand is calling a by hand with "b then the caller's `next`" as the continuation. |
| Handlers.SpliceHead | src/ResponsibilityChain/Handler.cs:67-82 | A composite at the head of a chain behaves like its children placed at the head. |
| Handlers.NestedChainSplices | src/ResponsibilityChain/Handler.cs:67-82 | A composite child without an override behaves as if its children were spliced into the parent's list at its place. |
| Handlers.FoldStopsAt | src/ResponsibilityChain/Handler.cs:45-51 | Below a child that ignores `next`, the fold equals the fold of the list cut off after that child, whatever the caller's continuation. |
| Handlers.ShortCircuit | src/ResponsibilityChain/Handler.cs:57-59 | A child that ignores `next` ends the chain. The children after it and the caller's `next` (null or not) make no difference. |
| Handlers.FoldForwards | src/ResponsibilityChain/Handler.cs:42-51 | If every child passes input x on, the fold delivers x to the caller's continuation. |
| Handlers.FallThrough | src/ResponsibilityChain/Handler.cs:64-74 | If every child passes the input on, the result is `next(input)`, or NotSupported when `next` is null. |
| Handlers.FoldForwardsTo | src/ResponsibilityChain/Handler.cs:45-51 | Children i..j-1 that pass x on hand it to child j unchanged. |
| Handlers.FirstHandlerWins | src/ResponsibilityChain/Handler.cs:57-59 | If children 0..j-1 pass the input on and child j answers it whatever `next` is, the composite answers child j's answer. |
| Interception.WrapOuterFirst | src/ResponsibilityChain/DefaultInterceptionStrategy.cs:52-57 | One wrapper per interceptor, the first outermost, around the same core; a wrapped handler shows as `InterceptedHandler`. |
| Interception.WrapInnerFirst | src/ResponsibilityChain.Interception/DefaultInterceptionStrategyHelper.cs:39-46 | One wrapper per interceptor, the first innermost, around the same core; a wrapped handler shows as `InterceptedHandler`. |
| Interception.DefaultIntercept | src/ResponsibilityChain/DefaultInterceptionStrategy.cs:35-60 | The descending loop wraps the handler with the first resolved interceptor outermost. A null or empty enumerable returns the handler itself. |
| Interception.InterceptImpl | src/ResponsibilityChain.Interception/DefaultInterceptionStrategyHelper.cs:34-47 | The ascending loop wraps the handler with the first interceptor innermost and the last outermost. |
| Interception.HelperIntercept | src/ResponsibilityChain.Interception/DefaultInterceptionStrategyHelper.cs:24-32 | A null enumerable counts as empty and the handler is returned unwrapped. Otherwise the result is that of `InterceptImpl`. |
| Interception.OuterFirstLayers | src/ResponsibilityChain/DefaultInterceptionStrategy.cs:52-57 | The wrappers, read from the outside, are the interceptors in the order resolved, followed by any the handler already had. The wrapped handler is unchanged. |
| Interception.InnerFirstLayers | src/ResponsibilityChain.Interception/DefaultInterceptionStrategyHelper.cs:39-46 | Read from the outside, the helper's wrappers are the interceptors reversed. The wrapped handler is unchanged. |
| Interception.InnerFirstIsReversedOuterFirst | src/ResponsibilityChain.Interception/DefaultInterceptionStrategyHelper.cs:34-47 | The helper's result is the default strategy's result for the reversed list. |
| Interception.BypassSkipsHandler | src/ResponsibilityChain/InterceptedHandler.cs:17-20 | An interceptor that only calls `next` cuts out the handler under it. The interceptors outside it still run, around a forwarder. |
| Interception.PassThroughIsInvisible | src/ResponsibilityChain/InterceptedHandler.cs:17-20 | Interceptors that return the wrapped handler's answer leave the handler's behaviour unchanged, for every input and `next`. |
| Strategies.Intercept | src/ResponsibilityChain/NoopInterceptionStrategy.cs:16-21 | The no-op strategy returns the handler itself. The default and helper strategies add the resolved interceptors as outer layers, in their respective orders, around the same core. A missing lookup leaves the handler as it is. |
| Strategies.InterceptAsync | src/ResponsibilityChain/AsyncHandler.cs:110-114 | The asynchronous composite's hook. The source calls `InterceptAsyncHandler`, which no strategy in the source defines; the model resolves it to a per-strategy asynchronous hook that coincides with the synchronous one for every strategy except a custom one. |
| Strategies.StrategyHolder.constructor | src/ResponsibilityChain/InterceptionStrategy.cs:20 | The current strategy starts as the no-op strategy. |
| Strategies.StrategyHolder.SetStrategy | src/ResponsibilityChain/InterceptionStrategy.cs:26-31 | A null strategy is refused with ArgumentNull and the current one is kept. Otherwise it becomes the current strategy. |
| Describe.AsNodes | src/ResponsibilityChain/Handler.cs:141-161 | The first node is the handler's own type name at the given level, and every later node is deeper. A non-composite child, an interception wrapper included, gives a single node. |
| Describe.ChildNodes | src/ResponsibilityChain/Handler.cs:147-160 | Every child contributes at least one node, none shallower than the child level. |
| Describe.Indent | src/ResponsibilityChain/Handler.cs:181-184 | The indentation is exactly 2·level spaces. |
| Describe.NodeToString | src/ResponsibilityChain/Handler.cs:177-189 | The loop gives 2·level spaces followed by the name, and nothing else. |
| Describe.TrimEnd | src/ResponsibilityChain/Handler.cs:133 | The result is a prefix of the input that loses only white space and does not itself end in white space. |
| Describe.Lines | src/ResponsibilityChain/Handler.cs:126-131 | The builder after one `AppendLine` per node: at least one character per node, ending in a new line. |
| Describe.Description | src/ResponsibilityChain/Handler.cs:124-134 | The description is a prefix of the appended lines and does not end in white space. |
| Describe.LinesAreJoined | src/ResponsibilityChain/Handler.cs:126-131 | Appending one line per node is the node lines joined by new lines, plus one final new line. |
| Describe.DescriptionIsJoinedLines | src/ResponsibilityChain/Handler.cs:124-134 | When the last name does not end in white space, the trimmed text is the lines joined by new lines, with no new line after the last. |
| Describe.DescriptionOf | src/ResponsibilityChain/Handler.cs:124-134 | The description of a handler is its nodes' lines joined by new lines, provided the last name does not end in white space. |
| Describe.ChildLevelNames | src/ResponsibilityChain/Handler.cs:145-160 | The lines at the children's own level name the children, each once and in order, however deep a composite child expands. |
| Describe.CompositeOutline | src/ResponsibilityChain/Handler.cs:141-161 | A composite's own name is its only line at its level. Its children's type names, in order, are the lines one level deeper. |
| Describe.ChildNodesAppend | src/ResponsibilityChain/Handler.cs:147-160 | The nodes of a concatenation of child lists are the concatenation of their nodes. |
| Describe.AppendedChildIsLast | src/ResponsibilityChain/Handler.cs:141-161 | Appending a child appends its block, one level deeper, to the end of the outline and changes nothing before it. |
| Composite.CompositeHandler.constructor | src/ResponsibilityChain/Handler.cs:24-28 | A null strategy falls back to the holder's current one. The list starts empty and there is no cached delegate. |
| Composite.CompositeHandler.ChainedDelegate | src/ResponsibilityChain/Handler.cs:33-55 | Returns the cached delegate if there is one. Otherwise the descending loop captures every child but the last in front of a step that reads the list's last child when it runs; the result is stored and returned. Building the cache does not change which children a call runs. |
| Composite.CompositeHandler.RunningDelegate | src/ResponsibilityChain/Handler.cs:42-51 | Once the cache exists whenever there are children, the cached delegate with the list's current last child in its last slot is the fold of `Running`. |
| Composite.CompositeHandler.CurrentRunsAll | src/ResponsibilityChain/Handler.cs:33-55 | With no child added since the cache was built, a call runs every child in order. |
| Composite.CompositeHandler.CurrentDispatch | src/ResponsibilityChain/Handler.cs:67-82 | The override run around the current delegate is the override run around the base `Handle` over `Running`; with no child added since the cache was built, that is what the composite answers as a value. |
| Composite.CompositeHandler.HandleBase | src/ResponsibilityChain/Handler.cs:67-82 | The base class's answer is `ChainHandle` of `Running`: before the cache exists every child; after it, the captured children and then the list's current last child. With children, a delegate is cached afterwards; an existing cache is kept. |
| Composite.CompositeHandler.Handle | src/ResponsibilityChain/Handler.cs:67 | The virtual method. Without an override it gives the base class's answer over `Running`. With one, it runs the override around that base `Handle`. While no child has been added since the cache was built, it answers what `AsHandler` answers as a value (`Eval`). |
| Composite.CompositeHandler.HandleInput | src/ResponsibilityChain/Handler.cs:93-96 | The virtual `Handle` with a null `next`, so a subclass's override runs. |
| Composite.CompositeHandler.AsHandler | src/ResponsibilityChain/Handler.cs:141-161 | The composite seen as a child: its type name, all its children and its override. `ToString` describes it, and `Handle` agrees with it while the cache is current. |
| Composite.CompositeHandler.AddHandler | src/ResponsibilityChain/Handler.cs:104-112 | A null child is refused with ArgumentNull and the list is unchanged. Otherwise the strategy's result for the child is appended. A cached delegate is not rebuilt: once it exists, the new child replaces the last child a call runs. |
| Composite.CompositeHandler.ToString | src/ResponsibilityChain/Handler.cs:124-134 | The string built is `Description` of the composite: its outline, one indented line per node, joined by new lines and trimmed at the end. |
| AsyncComposite.AsyncCompositeHandler.constructor | src/ResponsibilityChain/AsyncHandler.cs:24-28 | As for the synchronous composite. |
| AsyncComposite.AsyncCompositeHandler.ChainedDelegate | src/ResponsibilityChain/AsyncHandler.cs:30-53 | As for the synchronous composite, over `HandleAsync`: every child but the last captured, the last read when the delegate runs. |
| AsyncComposite.AsyncCompositeHandler.RunningDelegate | src/ResponsibilityChain/AsyncHandler.cs:39-49 | As for the synchronous composite. |
| AsyncComposite.AsyncCompositeHandler.CurrentRunsAll | src/ResponsibilityChain/AsyncHandler.cs:30-53 | As for the synchronous composite. |
| AsyncComposite.AsyncCompositeHandler.CurrentDispatch | src/ResponsibilityChain/AsyncHandler.cs:64-79 | As for the synchronous composite. |
| AsyncComposite.AsyncCompositeHandler.HandleAsyncBase | src/ResponsibilityChain/AsyncHandler.cs:64-79 | The base class's answer is `ChainHandle` of `Running`, the captured children and then the current last child. A null `next` throws NotSupported once reached, and an empty list forwards to `next`. |
| AsyncComposite.AsyncCompositeHandler.HandleAsync | src/ResponsibilityChain/AsyncHandler.cs:64 | The virtual method. Without an override it gives the base class's answer over `Running`. With one (the coin detector's), it runs the override around the base class's `HandleAsync`. While no child has been added since the cache was built, it answers what `AsHandler` answers as a value. |
| AsyncComposite.AsyncCompositeHandler.HandleAsyncInput | src/ResponsibilityChain/AsyncHandler.cs:89-92 | The virtual `HandleAsync` with a null `next`, so a subclass's override runs. |
| AsyncComposite.AsyncCompositeHandler.AsHandler | src/ResponsibilityChain/AsyncHandler.cs:64-79 | The composite seen as a child: its type name, all its children and its override; `HandleAsync` agrees with it while the cache is current. |
| AsyncComposite.AsyncCompositeHandler.AddHandler | src/ResponsibilityChain/AsyncHandler.cs:100-108 | A null child is refused. Otherwise the strategy's asynchronous result for the child is appended; once a delegate is cached, the new child replaces the last child a call runs. |
| Terminals.TerminalLeaf | src/ResponsibilityChain/ThrowNotSupported.cs:20-35 | A terminal ignores `next`, null included. The throwing ones fail with NotSupported for every input. The others answer `default(TOut)` (or a completed task) for every input. |
| Terminals.TerminalStopsChain | src/ResponsibilityChain/ReturnDefaultValue.cs:18 | A terminal child ends the chain. Later children and the caller's `next` are never consulted. |
| Terminals.TerminalAnswersChain | src/ResponsibilityChain/ReturnCompletedTaskWithDefaultValue.cs:20 | Reached by children that pass the input on, a terminal decides the composite's answer: NotSupported, or the default value. |
| ToStringExamples.PairShape | test/ResponsibilityChain.Tests/Handler_ToStringTest.cs:50-67 | A composite of two simple handlers prints its name, then both names indented by two spaces. |
| ToStringExamples.OneLevelShape | test/ResponsibilityChain.Tests/Handler_ToStringTest.cs:70-97 | A nested composite is expanded in place, its children indented by four spaces. |
| ToStringExamples.TwoLevelShape | test/ResponsibilityChain.Tests/Handler_ToStringTest.cs:100-134 | Two levels of nesting are expanded depth-first with growing indentation. |
| ToStringExamples.NoNestedDescription | test/ResponsibilityChain.Tests/Handler_ToStringTest.cs:50-67 | The exact string the first test expects, with the test's type names. |
| ToStringExamples.OneLevelDescription | test/ResponsibilityChain.Tests/Handler_ToStringTest.cs:70-97 | The exact string the second test expects. |
| ToStringExamples.TwoLevelDescription | test/ResponsibilityChain.Tests/Handler_ToStringTest.cs:100-134 | The exact string the third test expects. |
| CoinExamples.Split | test/ResponsibilityChain.Tests/AsyncHandlerTest.cs:103 | `Split(' ')` gives at least one piece, and no piece contains the separator. |
| CoinExamples.SplitJoin | test/ResponsibilityChain.Tests/AsyncHandlerTest.cs:103 | Joining the pieces with the separator gives the input back. |
| CoinExamples.DetectAll | test/ResponsibilityChain.Tests/AsyncHandlerTest.cs:101-108 | The sum succeeds exactly when every piece is detected. A failing first piece is the failure reported. |
| CoinExamples.DetectsFirstMatch | test/ResponsibilityChain.Tests/AsyncHandlerTest.cs:111-154 | A chain of penny handlers answers the value of the first handler whose coin the input is. |
| CoinExamples.RejectsUnknown | test/ResponsibilityChain.Tests/AsyncHandlerTest.cs:111-154 | An input that no penny handler knows falls through to NotSupported. |
| CoinExamples.DetectsSingleCoin | test/ResponsibilityChain.Tests/AsyncHandlerTest.cs:48-61 | The detector answers 1, 2 and 5 for "1", "2" and "5". |
| CoinExamples.UnknownCoinThrows | test/ResponsibilityChain.Tests/AsyncHandlerTest.cs:63-74 | The detector throws NotSupported for "3". |
| CoinExamples.DetectsThreeCoins | test/ResponsibilityChain.Tests/AsyncHandlerTest.cs:76-87 | The detector answers 8 for "1 2 5". |
| CoinExamples.CoinDetectorScenario | test/ResponsibilityChain.Tests/AsyncHandlerTest.cs:89-108 | The test's object, an asynchronous composite subclass with the three penny handlers and its override of `HandleAsync`, answers 8 for "1 2 5" through the class's virtual `HandleAsync`. |
| InterceptionExamples.BusinessIsWrapped | test/ResponsibilityChain.Interception.Tests/InterceptionTest.cs:154-173 | Under the test's strategy the business handler is wrapped with debug outermost, then stopwatch, then the opted-out interceptor. |
| InterceptionExamples.InterceptedBusinessForwards | test/ResponsibilityChain.Interception.Tests/InterceptionTest.cs:123-131 | The intercepted business handler passes every input on to `next`. |
| InterceptionExamples.FallbackIsNotWrapped | test/ResponsibilityChain.Interception.Tests/InterceptionTest.cs:21-39 | A handler type with no registered interceptors is stored unwrapped. |
| InterceptionExamples.InterceptedScenario | test/ResponsibilityChain.Interception.Tests/InterceptionTest.cs:41-56 | With the strategy set before construction, `Handle(111, null)` answers "unhandled". |
| InterceptionExamples.UninterceptedScenario | test/ResponsibilityChain.Interception.Tests/InterceptionTest.cs:134-151 | Without configuration, `Handle(112, null)` answers "business handled". |
| InterceptionExamples.CapturedStrategyScenario | src/ResponsibilityChain/Handler.cs:24-28 | A strategy set globally after the composite is built does not affect the children it adds: `Handle(111, null)` answers "business handled". |
| InterceptionExamples.CompletedTaskScenario | test/ResponsibilityChain.Tests/ReturnCompletedTaskWithDefaultValueTest.cs:31-46 | The terminal in the middle of the chain answers the null string, and the throwing terminal after it is never reached. |
| InterceptionExamples.SuppressScenario | test/ResponsibilityChain.Tests/AsyncHandlerTest.cs:166-186 | The custom asynchronous hook turns the throwing child's failure into `default(int)`. |
| InterceptionExamples.EmptyScenario | test/ResponsibilityChain.Tests/AsyncHandlerTest.cs:11-33 | A composite with no child passes the input to `next`. |
| InterceptionExamples.AddNullScenario | test/ResponsibilityChain.Tests/Handler_AddHandlerTest.cs:9-22 | Adding a null child is refused with ArgumentNull. |
| InterceptionExamples.StaleCacheScenario | src/ResponsibilityChain/Handler.cs:37-51 | Two pass-on children fall through to NotSupported and the first `Handle` caches the delegate. A default-value terminal added next takes the second child's place and answers 0. A throwing terminal added after it takes the place in turn, so the call throws although the full list, run in order, would answer 0. |
| InterceptionExamples.AddThenHandle | src/ResponsibilityChain/Handler.cs:42-43 | With a cache that captured one pass-on child, the child added next fills the last slot: a call runs the pass-on child and then that child. |

## Left out

- The service provider and `Activator`. The lookup of interceptors for a handler type is a
  parameter (`Strategy.Default`, `Strategy.Helper`), and it cannot throw. The casts and
  reflection of the service-provider extensions are not modelled.
- InterceptionExamples.Lookup: a handler type with no registrations gets none, as the
  interception test means it. The test's own provider hands any other type to
  `ActivatorServiceProvider` (`InterceptionTest.cs:37`), whose `Activator.CreateInstance` on the
  enumerable interface type (`ActivatorServiceProvider.cs:28`) would throw while the fallback
  handler is added.
- InterceptionExamples.FallbackIsNotWrapped: states what the interception test asserts, that the
  fallback handler is added without a wrapper. The test's own provider would throw through
  `Activator.CreateInstance` while that handler is added (`InterceptionTest.cs:37`,
  `ActivatorServiceProvider.cs:28`).
- InterceptionExamples.InterceptedScenario: answers "unhandled", as the interception test
  asserts. With the test's own provider, adding the fallback handler would throw through
  `Activator.CreateInstance` before `Handle` is reached (`InterceptionTest.cs:37`,
  `ActivatorServiceProvider.cs:28`).
- Strategies.Intercept: the lookup key is the runtime type name of the handler being added. The
  source resolves `IInterceptor<THandler, TIn, TOut>` for the static type argument of
  `AddHandler<THandler>` (`Handler.cs:104-117`, `DefaultInterceptionStrategy.cs:41-43`). The two
  differ when a child is added through a base class or interface type; every test adds children
  at their own class type.
- Composite.CompositeHandler.AsHandler: a value snapshot of the full child list. A class
  composite used as the child of another composite loses two things here. Its cache is
  lost: the value runs every child, while the object, once a child is added after its first
  call, runs the captured children and then its current last child. Its identity is lost too:
  children it gets later are not seen by the parent. `ToString` uses the full list, as the
  source does.
- AsyncComposite.AsyncCompositeHandler.AsHandler: the same value snapshot for the asynchronous
  composite. The value runs every child, while the object, once a child is added after its
  first call, runs the captured children and then its current last child. Children the object
  gets later are not seen by a parent that holds the value.
- Composite.CompositeHandler.Handle: with an override, the delegate is built and cached before
  the override runs, as if the override called `base.Handle` (the coin detector does). The
  source builds it only when the override's call of `base.Handle` reaches `ChainedDelegate`
  (`Handler.cs:67-82`). An override that skips `base` on its first call leaves the source's
  cache empty. If it calls `base` after a later `AddHandler`, the source runs every child, while
  the model runs the children captured at the first call and then the current last child.
- AsyncComposite.AsyncCompositeHandler.HandleAsync: the same gap for the asynchronous
  composite. With an override, the delegate is built and cached before the override runs, as if
  the override called `base.HandleAsync` (the coin detector does). The source builds it only
  when the override's call of `base.HandleAsync` reaches `ChainedDelegate`
  (`AsyncHandler.cs:64-79`). An override that skips `base` on its first call and calls it after
  a later `AddHandler` runs every child in the source, but the captured children and then the
  current last child in the model.
- Logging, stopwatches, `Thread.Sleep` and `Task.Delay` in interceptors and test handlers are
  not modelled. Interceptors are modelled by what they return.
- Cancellation tokens, and the `HandleAsync` overload that takes a cancellable `next`
  (`ReturnCompletedTaskWithDefaultValue.cs:29-30`), are not modelled; that overload answers the
  default value like `Handle`.
- Thread safety of the cached delegate is not modelled. Two threads building it at once each
  build the same fold.
- Singleton `Instance` identity of the terminal handlers is not modelled. A terminal is
  modelled by its behaviour.
- Tasks that are still running, and the difference between a synchronous throw and a faulted
  task: a task is a completed outcome.
- Generic arguments in runtime type names. A child that overrides `ToString` is shown with its
  type name.
- Handlers that use `next` other than by calling it (comparing delegates, say) are not
  modelled. The laws over several children assume congruence (`Congruent`, `AroundCongruent`,
  `WellBehaved`).
- Strategies.Intercept: a custom strategy is a total function of the handler, so a strategy
  that throws while intercepting (the synchronous hook of the suppress-exception test) is
  modelled as the identity.
- CoinExamples.DetectAll: the sum is over unbounded integers. `Enumerable.Sum` throws
  `OverflowException` past 32 bits, which the three-coin example never reaches.
- One holder per pair of input and output types, passed explicitly, stands for the static
  global `InterceptionStrategy.Current`.
- `Environment.NewLine` is `"\n"`. `char.IsWhiteSpace` is the fixed .NET set of white-space
  characters.
