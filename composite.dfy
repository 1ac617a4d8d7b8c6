/** `Handler<TIn, TOut>`: the composite handler. It keeps its (intercepted) children in a list
    that grows by `AddHandler`, folds them into one delegate on first use and caches it. */
module Composite {
  import opened Handlers
  import opened Strategies
  import Describe

  class CompositeHandler<I(!new), O(!new)> {
    /** The runtime type name, which `ToString` shows. */
    const name: string
    /** The strategy captured at construction. */
    const strategy: Strategy<I, O>
    /** The override of `Handle` a subclass declares, if any. `Handle` dispatches to it, and it
        reaches the base class's `Handle` as `base`. */
    const refine: Option<Around<I, O>>
    var handlers: seq<Handler<I, O>>
    var chained: Option<LateChained<I, O>>
    /** The list when the cached delegate was built; the whole list while there is no cache. */
    ghost var builtFrom: seq<Handler<I, O>>

    /** The cached delegate captured every child the list held when it was built except the
        last, whose slot reads the list's current last child each time the delegate runs. */
    ghost predicate Valid()
      reads this
    {
      builtFrom <= handlers &&
      (chained.None? ==> builtFrom == handlers) &&
      (chained.Some? ==> |builtFrom| > 0 && chained.value == LateFoldFrom(Evals(Captured()), 0))
    }

    /** The children the cached delegate captured: all of `builtFrom` but its last. */
    ghost function Captured(): seq<Handler<I, O>>
      reads this
    {
      if |builtFrom| == 0 then [] else builtFrom[..|builtFrom| - 1]
    }

    /** The children a call of the base `Handle` runs, in order. With no cache, the whole list;
        with one, the captured children and then the current last child, so a child added after
        the first call takes the place of the last child the delegate was built with, and the
        children added in between are skipped. */
    ghost function Running(): seq<Handler<I, O>>
      reads this
      requires Valid()
    {
      if chained.None? then handlers else Captured() + [handlers[|handlers| - 1]]
    }

    /** Whether the delegate that `Handle` runs covers every child added so far: no child was
        added after the cache was built. */
    ghost predicate CacheCurrent()
      reads this
    {
      builtFrom == handlers
    }

    /** This composite as a child of another one. */
    function AsHandler(): Handler<I, O>
      reads this
    {
      Composite(name, handlers, refine)
    }

    /** A null strategy falls back to the holder's current one. */
    constructor(name: string, strategy: Option<Strategy<I, O>>, holder: StrategyHolder<I, O>, refine: Option<Around<I, O>>)
      ensures Valid() && CacheCurrent()
      ensures this.name == name && this.refine == refine
      ensures this.strategy == if strategy.Some? then strategy.value else holder.current
      ensures handlers == [] && chained == None
    {
      this.name := name;
      this.strategy := if strategy.Some? then strategy.value else holder.current;
      this.refine := refine;
      handlers := [];
      chained := None;
      builtFrom := [];
    }

    /** The `ChainedDelegate` property: the cached delegate if there is one, otherwise the
        delegate built by a descending loop over every child but the last, stored in the cache. */
    method ChainedDelegate() returns (d: LateChained<I, O>)
      requires Valid() && |handlers| > 0
      modifies this`chained
      ensures Valid() && chained == Some(d)
      ensures d == LateFoldFrom(Evals(Captured()), 0)
      ensures old(chained).Some? ==> d == old(chained).value
      ensures Running() == old(Running())
    {
      if chained.Some? {
        return chained.value;
      }
      ghost var ps := Evals(handlers[..|handlers| - 1]);
      d := LastSlot();
      var index := |handlers| - 2;
      while index >= 0
        invariant -1 <= index <= |handlers| - 2
        invariant d == LateFoldFrom(ps, index + 1)
        decreases index + 1
      {
        var handler := handlers[index];
        d := LateLink(Eval(handler), d);
        index := index - 1;
      }
      chained := Some(d);
      CurrentRunsAll();
    }

    /** The delegate the base `Handle` runs: the cached one with the list's current last child
        in its last slot, none before the cache is built. */
    function CurrentDelegate(): Option<Chained<I, O>>
      reads this
      requires Valid()
    {
      if chained.None? then None else Some(chained.value(Eval(handlers[|handlers| - 1])))
    }

    /** Once the cache exists whenever there are children, the current delegate is the fold of
        the children a call runs. */
    lemma RunningDelegate()
      requires Valid() && (chained.Some? <==> |handlers| > 0)
      ensures CurrentDelegate() == Delegate(Evals(Running()))
    {
      if chained.Some? {
        var last := handlers[|handlers| - 1];
        LateFoldIsFold(Evals(Captured()), 0, Eval(last));
        assert Evals(Running()) == Evals(Captured()) + [Eval(last)];
      } else {
        assert Evals(Running()) == [];
      }
    }

    /** With no child added since the cache was built, a call runs every child. */
    lemma CurrentRunsAll()
      requires Valid() && CacheCurrent()
      ensures Running() == handlers
    {
      if chained.Some? {
        assert handlers == handlers[..|handlers| - 1] + [handlers[|handlers| - 1]];
      }
    }

    /** What `Handle` answers once the cache exists whenever there are children: the override
        run around the base `Handle`, or the base alone, and with no child added since the cache
        was built, what this composite does as a child of another. */
    lemma CurrentDispatch(x: I, next: Option<Continuation<I, O>>)
      requires Valid() && (chained.Some? <==> |handlers| > 0)
      ensures refine.Some? ==>
        refine.value(DelegateHandle(CurrentDelegate()), x, next) == refine.value(BaseHandle(Evals(Running())), x, next)
      ensures CacheCurrent() ==>
        Eval(AsHandler())(x, next) ==
          if refine.Some? then refine.value(DelegateHandle(CurrentDelegate()), x, next)
          else ChainHandle(Evals(Running()), x, next)
    {
      RunningDelegate();
      CompositeDispatch(name, Running(), refine, CurrentDelegate(), x, next);
      if CacheCurrent() {
        CurrentRunsAll();
      }
    }

    /** The base class's `Handle(input, next)`: a null `next` becomes the throwing continuation;
        with no children the input goes straight to `next`; otherwise the (cached) delegate
        runs, its last slot given the list's current last child. */
    method HandleBase(x: I, next: Option<Continuation<I, O>>) returns (r: Res<O>)
      requires Valid()
      modifies this`chained
      ensures Valid()
      ensures Running() == old(Running())
      ensures r == ChainHandle(Evals(Running()), x, next)
      ensures old(chained).Some? || |handlers| == 0 ==> chained == old(chained)
      ensures |handlers| > 0 ==> chained.Some?
    {
      var k: Continuation<I, O> := if next.Some? then next.value else NotSupportedContinuation();
      if |handlers| == 0 {
        return k(x);
      }
      var d := ChainedDelegate();
      RunningDelegate();
      r := d(Eval(handlers[|handlers| - 1]))(k)(x);
    }

    /** `Handle(input, next)`, a virtual method: a subclass's override runs around the base
        class's `Handle`, which it reaches as `base`; without one the base class's runs. The
        override's calls of `base` build the delegate, which is then cached. */
    method Handle(x: I, next: Option<Continuation<I, O>>) returns (r: Res<O>)
      requires Valid()
      modifies this`chained
      ensures Valid()
      ensures Running() == old(Running())
      ensures refine.None? ==> r == ChainHandle(Evals(Running()), x, next)
      ensures refine.Some? ==> r == refine.value(BaseHandle(Evals(Running())), x, next)
      ensures CacheCurrent() ==> r == Eval(AsHandler())(x, next)
      ensures old(chained).Some? || |handlers| == 0 ==> chained == old(chained)
      ensures |handlers| > 0 ==> chained.Some?
    {
      if |handlers| > 0 {
        var _ := ChainedDelegate();
      }
      if refine.None? {
        r := HandleBase(x, next);
      } else {
        r := refine.value(DelegateHandle(CurrentDelegate()), x, next);
      }
      CurrentDispatch(x, next);
    }

    /** `Handle(input)`: the virtual `Handle` with a null `next`, so an override runs. */
    method HandleInput(x: I) returns (r: Res<O>)
      requires Valid()
      modifies this`chained
      ensures Valid()
      ensures Running() == old(Running())
      ensures refine.None? ==> r == ChainHandle(Evals(Running()), x, None)
      ensures refine.Some? ==> r == refine.value(BaseHandle(Evals(Running())), x, None)
      ensures CacheCurrent() ==> r == Eval(AsHandler())(x, None)
      ensures old(chained).Some? || |handlers| == 0 ==> chained == old(chained)
      ensures |handlers| > 0 ==> chained.Some?
    {
      r := Handle(x, None);
    }

    /** `AddHandler`: a null handler is refused and the list is unchanged; otherwise the
        strategy's result for it is appended. The cache is left as it is. */
    method AddHandler(h: Option<Handler<I, O>>) returns (r: Res<()>)
      requires Valid()
      modifies this`handlers, this`builtFrom
      ensures Valid()
      ensures h.None? ==> r == ArgumentNull && handlers == old(handlers)
      ensures h.Some? ==> r == Ok(()) && handlers == old(handlers) + [Intercept(strategy, h.value)]
      ensures chained.Some? ==> builtFrom == old(builtFrom)
      ensures h.Some? && chained.Some? ==>
        Running() == old(Running())[..|old(Running())| - 1] + [Intercept(strategy, h.value)]
    {
      if h.None? {
        return ArgumentNull;
      }
      var intercepted := Intercept(strategy, h.value);
      handlers := handlers + [intercepted];
      if chained.None? {
        builtFrom := handlers;
      }
      r := Ok(());
    }

    /** `ToString`: the line of every node, each followed by a new line, then trimmed at the
        end. */
    method ToString() returns (s: string)
      ensures s == Describe.Description(AsHandler())
    {
      var nodes := Describe.AsNodes(AsHandler(), 0);
      var builder := "";
      for i := 0 to |nodes|
        invariant builder == Describe.Lines(nodes[..i])
      {
        var line := Describe.NodeToString(nodes[i]);
        assert nodes[..i + 1][..i] == nodes[..i];
        builder := builder + line + Describe.NewLine;
      }
      assert nodes[..|nodes|] == nodes;
      s := Describe.TrimEnd(builder);
    }
  }
}
