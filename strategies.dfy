/** Interception strategies (`IInterceptionStrategy`) and the global holder of the current one. */
module Strategies {
  import opened Handlers
  import opened Interception

  /** A strategy, at one pair of input and output types. A service lookup is keyed by the
      runtime type name of the handler being added, which stands for the static type argument
      `THandler` of `AddHandler<THandler>`; the two agree when a child is added at its own
      class type. */
  datatype Strategy<!I, !O> =
    | Noop                                                            // NoopInterceptionStrategy
    | Default(lookup: string -> Option<seq<Interceptor<I, O>>>)       // DefaultInterceptionStrategy
    | Helper(lookup: string -> Option<seq<Interceptor<I, O>>>)        // a strategy delegating to DefaultInterceptionStrategyHelper.Intercept
    | Custom(intercept: Handler<I, O> -> Handler<I, O>, interceptAsync: Handler<I, O> -> Handler<I, O>)

  /** What the strategy turns a handler into before a composite stores it. */
  function Intercept<I(!new), O(!new)>(s: Strategy<I, O>, h: Handler<I, O>): (r: Handler<I, O>)
    ensures s.Noop? ==> r == h
    ensures s.Default? ==> Layers(r) == Resolved(s.lookup(TypeName(h))) + Layers(h) && Core(r) == Core(h)
    ensures s.Helper? ==> Layers(r) == Reverse(Resolved(s.lookup(TypeName(h)))) + Layers(h) && Core(r) == Core(h)
    ensures (s.Default? || s.Helper?) && s.lookup(TypeName(h)).None? ==> r == h
  {
    match s
    case Noop => h
    case Default(lookup) =>
      OuterFirstLayers(Resolved(lookup(TypeName(h))), h);
      WrapOuterFirst(Resolved(lookup(TypeName(h))), h)
    case Helper(lookup) =>
      InnerFirstLayers(Resolved(lookup(TypeName(h))), h);
      WrapInnerFirst(Resolved(lookup(TypeName(h))), h)
    case Custom(f, _) => f(h)
  }

  /** What the strategy turns an asynchronous handler into (`InterceptAsyncHandler`); only a
      custom strategy treats the two kinds differently. */
  function InterceptAsync<I(!new), O(!new)>(s: Strategy<I, O>, h: Handler<I, O>): (r: Handler<I, O>)
    ensures !s.Custom? ==> r == Intercept(s, h)
  {
    if s.Custom? then s.interceptAsync(h) else Intercept(s, h)
  }

  /** The static `InterceptionStrategy` class: `Current` with a private setter. */
  class StrategyHolder<I(!new), O(!new)> {
    var current: Strategy<I, O>

    constructor()
      ensures current == Noop
    {
      current := Noop;
    }

    /** `SetStrategy`: a null strategy is refused and nothing changes. */
    method SetStrategy(strategy: Option<Strategy<I, O>>) returns (r: Res<()>)
      modifies this
      ensures strategy.None? ==> r == ArgumentNull && current == old(current)
      ensures strategy.Some? ==> r == Ok(()) && current == strategy.value
    {
      if strategy.None? {
        return ArgumentNull;
      }
      current := strategy.value;
      r := Ok(());
    }
  }
}
