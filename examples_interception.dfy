/** Scenarios of the interception and terminal tests, run through the composite classes: a global
    strategy captured at construction, interceptors resolved per handler type, a short-circuiting
    terminal in the middle of a chain, a custom asynchronous strategy that suppresses failures,
    the refusal of a null child, and a child added after the delegate has been cached. */
module InterceptionExamples {
  import opened Handlers
  import opened Interception
  import opened Strategies
  import opened Terminals
  import Composite
  import AsyncComposite

  // ---------------------------------------------------------------------------------------
  // A business handler whose interceptors opt out of it.

  /** `CoreBusinessHandler`: always answers "business handled". */
  function CoreBusiness(): Handler<int, string>
  {
    Leaf("CoreBusinessHandler", (x: int, n: Option<Continuation<int, string>>) => Ok("business handled"))
  }

  /** `FallbackHandler`: always answers "unhandled". */
  function Fallback(): Handler<int, string>
  {
    Leaf("FallbackHandler", (x: int, n: Option<Continuation<int, string>>) => Ok("unhandled"))
  }

  /** An interceptor that runs the handler it wraps and returns its answer (the stopwatch and
      debug interceptors, whose logging is not part of the model). */
  function Observer(name: string): Interceptor<int, string>
  {
    Interceptor(name, (f: HandleFn<int, string>, x: int, n: Option<Continuation<int, string>>) => f(x, n))
  }

  /** `FeatureOptedOutInterceptor`: skips the handler and passes the input to `next`. */
  function OptedOut(): Interceptor<int, string>
  {
    Interceptor("FeatureOptedOutInterceptor", (f: HandleFn<int, string>, x: int, n: Option<Continuation<int, string>>) => Call(n, x))
  }

  /** The service provider of the test as the test means it: three interceptors for the business
      handler, none for any other handler type. (The test's provider hands any other type to
      `Activator.CreateInstance`, which cannot build an enumerable interface.) */
  function Lookup(): string -> Option<seq<Interceptor<int, string>>>
  {
    (t: string) => if t == "CoreBusinessHandler" then Some([OptedOut(), Observer("StopwatchInterceptor"), Observer("DebugInterceptor")]) else None
  }

  /** The test's strategy, which hands the resolved interceptors to the helper. */
  function FakeStrategy(): Strategy<int, string>
  {
    Helper(Lookup())
  }

  lemma ObserverPassesThrough(name: string)
    ensures PassesThrough(Observer(name).intercept)
    ensures AroundCongruent(Observer(name).intercept)
  {
  }

  /** Under the test's strategy the business handler is wrapped debug outermost, then stopwatch,
      then the opted-out interceptor next to the handler. */
  lemma BusinessIsWrapped()
    ensures Intercept(FakeStrategy(), CoreBusiness()) ==
      WrapOuterFirst([Observer("DebugInterceptor"), Observer("StopwatchInterceptor"), OptedOut()], CoreBusiness())
  {
    var ics := [OptedOut(), Observer("StopwatchInterceptor"), Observer("DebugInterceptor")];
    assert Lookup()(TypeName(CoreBusiness())) == Some(ics);
    InnerFirstIsReversedOuterFirst(ics, CoreBusiness());
    assert Reverse(ics) == [ics[2], ics[1], ics[0]];
  }

  /** The intercepted business handler passes every input on: the opted-out interceptor cuts the
      handler out, and the two observers around it change nothing. */
  lemma InterceptedBusinessForwards(x: int)
    ensures Forwards(Eval(Intercept(FakeStrategy(), CoreBusiness())), x)
  {
    var ics := [Observer("DebugInterceptor"), Observer("StopwatchInterceptor"), OptedOut()];
    BusinessIsWrapped();
    ObserverPassesThrough("DebugInterceptor");
    ObserverPassesThrough("StopwatchInterceptor");
    BypassSkipsHandler(ics, 2, CoreBusiness());
    var f1 := Eval(WrapOuterFirst(ics, CoreBusiness()));
    var f2 := Eval(WrapOuterFirst(ics[..2], Forwarder()));
    forall k: Continuation<int, string> ensures f1(x, Some(k)) == k(x) {
      assert SameNext(Some(k), Some(k));
      assert f1(x, Some(k)) == f2(x, Some(k));
      PassThroughIsInvisible(ics[..2], Forwarder(), x, Some(k));
    }
  }

  /** The fallback handler is left alone: no interceptors are registered for it. */
  lemma FallbackIsNotWrapped()
    ensures Intercept(FakeStrategy(), Fallback()) == Fallback()
  {
    assert Lookup()(TypeName(Fallback())) == None;
  }

  /** The two children as the test's strategy stores them: the business handler skipped, the
      fallback answering. */
  lemma InterceptedChain()
    ensures ChainHandle(Evals([Intercept(FakeStrategy(), CoreBusiness()), Intercept(FakeStrategy(), Fallback())]), 111, None) == Ok("unhandled")
  {
    var fs := Evals([Intercept(FakeStrategy(), CoreBusiness()), Intercept(FakeStrategy(), Fallback())]);
    FallbackIsNotWrapped();
    assert Forwards(fs[0], 111) by { InterceptedBusinessForwards(111); }
    assert AnswersAt(fs[1], 111);
    FirstHandlerWins(fs, 1, 111, None);
  }

  /** With the strategy set globally before the composite is built, the business handler is
      skipped and the fallback answers "unhandled". */
  method InterceptedScenario() returns (r: Res<string>)
    ensures r == Ok("unhandled")
  {
    var holder := new StrategyHolder<int, string>();
    var _ := holder.SetStrategy(Some(FakeStrategy()));
    var handler := new Composite.CompositeHandler<int, string>("CompositeHandler", None, holder, None);
    var _ := handler.AddHandler(Some(CoreBusiness()));
    var _ := handler.AddHandler(Some(Fallback()));
    assert handler.Running() == [Intercept(FakeStrategy(), CoreBusiness()), Intercept(FakeStrategy(), Fallback())];
    InterceptedChain();
    r := handler.Handle(111, None);
  }

  /** With no strategy configured the holder's no-op strategy applies and the business handler
      answers. */
  method UninterceptedScenario() returns (r: Res<string>)
    ensures r == Ok("business handled")
  {
    var holder := new StrategyHolder<int, string>();
    var handler := new Composite.CompositeHandler<int, string>("CompositeHandler", None, holder, None);
    var _ := handler.AddHandler(Some(CoreBusiness()));
    var _ := handler.AddHandler(Some(Fallback()));
    r := handler.Handle(112, None);
    var fs := Evals(handler.handlers);
    assert AnswersAt(fs[0], 112);
    FirstHandlerWins(fs, 0, 112, None);
  }

  /** The strategy is captured when the composite is built: setting the global strategy
      afterwards changes nothing for the children added later, and the business handler
      answers. */
  method CapturedStrategyScenario() returns (r: Res<string>)
    ensures r == Ok("business handled")
  {
    var holder := new StrategyHolder<int, string>();
    var handler := new Composite.CompositeHandler<int, string>("CompositeHandler", None, holder, None);
    var _ := holder.SetStrategy(Some(FakeStrategy()));
    var _ := handler.AddHandler(Some(CoreBusiness()));
    var _ := handler.AddHandler(Some(Fallback()));
    r := handler.Handle(111, None);
    var fs := Evals(handler.handlers);
    assert AnswersAt(fs[0], 111);
    FirstHandlerWins(fs, 0, 111, None);
  }

  // ---------------------------------------------------------------------------------------
  // A completed task with the default value in the middle of a chain. The output `Task<string>`
  // is a completed string that may be null.

  /** `BarHandler`: awaits `next` and returns its result. */
  function Bar(): Handler<int, Option<string>>
  {
    Leaf("BarHandler", (x: int, n: Option<Continuation<int, Option<string>>>) => Call(n, x))
  }

  /** The children of the completed-task test. */
  function CompletedTaskChildren(): seq<Handler<int, Option<string>>>
  {
    [Bar(), TerminalLeaf(ReturnCompletedTaskWithDefaultValue, None), TerminalLeaf(ThrowNotSupported, None)]
  }

  /** The bar handler passes the input on and the default-value terminal answers it. */
  lemma CompletedTaskChain()
    ensures ChainHandle(Evals(CompletedTaskChildren()), 111, None) == Ok(None)
  {
    var fs := Evals(CompletedTaskChildren());
    assert Forwards(fs[0], 111);
    TerminalAnswersChain(fs, 1, ReturnCompletedTaskWithDefaultValue, None, 111, None);
  }

  /** The composite of the completed-task test with its first two children, added under the
      holder's default strategy, which leaves them unwrapped. */
  method CompletedTaskComposite() returns (handler: Composite.CompositeHandler<int, Option<string>>)
    ensures fresh(handler)
    ensures handler.Valid() && handler.strategy == Noop && handler.refine.None? && handler.chained.None?
    ensures handler.handlers == CompletedTaskChildren()[..2]
  {
    var holder := new StrategyHolder<int, Option<string>>();
    handler := new Composite.CompositeHandler<int, Option<string>>("CompositeFooAsyncHandler", None, holder, None);
    assert handler.strategy == Noop;
    var _ := handler.AddHandler(Some(Bar()));
    var _ := handler.AddHandler(Some(TerminalLeaf(ReturnCompletedTaskWithDefaultValue, None)));
    assert handler.handlers == [Bar(), TerminalLeaf(ReturnCompletedTaskWithDefaultValue, None)];
  }

  /** With the throwing terminal added last, the short-circuiting terminal answers the null
      string; the throwing terminal after it is never reached. */
  method CompletedTaskScenario() returns (r: Res<Option<string>>)
    ensures r == Ok(None)
  {
    var handler := CompletedTaskComposite();
    var cs := CompletedTaskChildren();
    var _ := handler.AddHandler(Some(cs[2]));
    assert handler.Running() == cs;
    CompletedTaskChain();
    r := handler.Handle(111, None);
  }

  // ---------------------------------------------------------------------------------------
  // A custom strategy whose asynchronous hook suppresses failures.

  /** `SuppressExceptionAsyncHandler`: the wrapped handler's answer, or `default(int)` when it
      fails. */
  function Suppress(): Interceptor<string, int>
  {
    Interceptor("SuppressExceptionAsyncHandler", (f: HandleFn<string, int>, x: string, n: Option<Continuation<string, int>>) =>
      var r := f(x, n); if r.Ok? then r else Ok(0))
  }

  /** `SuppressExceptionInterceptionStrategy`; its synchronous hook throws in the source and is
      the identity here. */
  function SuppressStrategy(): Strategy<string, int>
  {
    Custom((h: Handler<string, int>) => h, (h: Handler<string, int>) => Wrapped(Suppress(), h))
  }

  /** The throwing child, intercepted by the custom strategy, answers the default value. */
  method SuppressScenario() returns (r: Res<int>)
    ensures r == Ok(0)
  {
    var holder := new StrategyHolder<string, int>();
    var handler := new AsyncComposite.AsyncCompositeHandler<string, int>("CompositeHandlerThatThrows", Some(SuppressStrategy()), holder, None);
    var _ := handler.AddHandler(Some(TerminalLeaf<string, int>(ThrowNotSupported, 0)));
    var fs := Evals(handler.Running());
    FoldSingle(fs[0], "any", NotSupportedContinuation());
    assert fs == [fs[0]];
    r := handler.HandleAsync("any", None);
  }

  /** A composite with no child passes the input straight to `next`. */
  method EmptyScenario() returns (r: Res<int>)
    ensures r == Ok(0)
  {
    var holder := new StrategyHolder<string, int>();
    var handler := new AsyncComposite.AsyncCompositeHandler<string, int>("CompositeHandlerWithNoChild", None, holder, None);
    r := handler.HandleAsync("", Some((x: string) => Ok(0)));
  }

  /** Adding a null child is refused with ArgumentNullException. */
  method AddNullScenario() returns (r: Res<()>)
    ensures r == ArgumentNull
  {
    var holder := new StrategyHolder<int, int>();
    var handler := new Composite.CompositeHandler<int, int>("CompositeHandler", None, holder, None);
    r := handler.AddHandler(None);
  }

  // ---------------------------------------------------------------------------------------
  // The cached delegate.

  /** A child that passes every input on. */
  function PassOn(): Handler<int, int>
  {
    Leaf("PassOn", (x: int, n: Option<Continuation<int, int>>) => Call(n, x))
  }

  /** A default-value terminal and a throwing one, the children added after the first call. */
  function Answering(): Handler<int, int>
  {
    TerminalLeaf(ReturnDefaultValue, 0)
  }

  function Throwing(): Handler<int, int>
  {
    TerminalLeaf(ThrowNotSupported, 0)
  }

  /** Two pass-on children fall through to the throwing continuation. */
  lemma PassOnChain()
    ensures ChainHandle(Evals([PassOn(), PassOn()]), 1, None) == NotSupported
  {
    var fs := Evals([PassOn(), PassOn()]);
    assert Forwards(fs[0], 1) && Forwards(fs[1], 1);
    FallThrough(fs, 1, None);
  }

  /** After a pass-on child, a terminal answers: the default value, or the exception. */
  lemma TerminalAfterPassOn(t: Handler<int, int>)
    requires t == Answering() || t == Throwing()
    ensures ChainHandle(Evals([PassOn(), t]), 1, None) == if t == Answering() then Ok(0) else NotSupported
  {
    var fs := Evals([PassOn(), t]);
    assert fs[0] == Eval(PassOn()) && fs[1] == Eval(t);
    assert Forwards(fs[0], 1);
    if t == Answering() {
      TerminalAnswersChain(fs, 1, ReturnDefaultValue, 0, 1, None);
    } else {
      TerminalAnswersChain(fs, 1, ThrowNotSupported, 0, 1, None);
    }
  }

  /** Every child added so far, run in order, would answer the default value. */
  lemma FullListAnswers()
    ensures ChainHandle(Evals([PassOn(), PassOn(), Answering(), Throwing()]), 1, None) == Ok(0)
  {
    var fs := Evals([PassOn(), PassOn(), Answering(), Throwing()]);
    assert Forwards(fs[0], 1) && Forwards(fs[1], 1);
    TerminalAnswersChain(fs, 2, ReturnDefaultValue, 0, 1, None);
  }

  /** A composite with two pass-on children, after its first `Handle`: the input falls through
      to the throwing continuation, and the cached delegate captured the first child. */
  method PassOnsCached() returns (handler: Composite.CompositeHandler<int, int>, r: Res<int>)
    ensures fresh(handler)
    ensures handler.Valid() && handler.strategy == Noop && handler.refine.None?
    ensures handler.chained.Some? && handler.Captured() == [PassOn()]
    ensures r == NotSupported
  {
    var holder := new StrategyHolder<int, int>();
    handler := new Composite.CompositeHandler<int, int>("CompositeHandler", None, holder, None);
    assert handler.strategy == Noop;
    var _ := handler.AddHandler(Some(PassOn()));
    var _ := handler.AddHandler(Some(PassOn()));
    assert handler.Running() == [PassOn(), PassOn()];
    PassOnChain();
    r := handler.Handle(1, None);
    assert handler.Captured() == [PassOn()];
  }

  /** One child added to a composite whose cached delegate captured a single pass-on child,
      then one `Handle`: the new child fills the last slot and answers. */
  method AddThenHandle(handler: Composite.CompositeHandler<int, int>, t: Handler<int, int>) returns (r: Res<int>)
    requires handler.Valid() && handler.strategy == Noop && handler.refine.None?
    requires handler.chained.Some? && handler.Captured() == [PassOn()]
    requires t == Answering() || t == Throwing()
    modifies handler
    ensures handler.Valid() && handler.chained.Some? && handler.Captured() == [PassOn()]
    ensures handler.Running() == [PassOn(), t]
    ensures r == if t == Answering() then Ok(0) else NotSupported
  {
    var _ := handler.AddHandler(Some(t));
    assert handler.Running() == handler.Captured() + [t];
    assert handler.Running() == [PassOn(), t];
    TerminalAfterPassOn(t);
    r := handler.Handle(1, None);
  }

  /** The first `Handle` caches a delegate that captured the first child and reads the list's
      last child whenever it runs. A default-value terminal added afterwards takes the place of
      the second pass-on child and answers; a throwing terminal added after that takes its place
      in turn, so the default-value terminal is skipped and the call throws, although every child
      added so far, run in order, would answer the default value. */
  method StaleCacheScenario() returns (before: Res<int>, after: Res<int>, later: Res<int>)
    ensures before == NotSupported && after == Ok(0) && later == NotSupported
    ensures ChainHandle(Evals([PassOn(), PassOn(), Answering(), Throwing()]), 1, None) == Ok(0)
  {
    var handler;
    handler, before := PassOnsCached();
    after := AddThenHandle(handler, Answering());
    later := AddThenHandle(handler, Throwing());
    FullListAnswers();
  }
}
