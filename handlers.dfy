/** The handler capability (IHandler<TIn, TOut>) and the chain-building algorithm of the
    composite handler, as values: a handler tree, its meaning as a function, the right fold
    that the composite builds, and the laws that fold obeys. */
module Handlers {

  datatype Option<T> = None | Some(value: T)

  /** What a handler produces: a value, or the exception it raises (only its kind). A task is
      modelled as already completed, so a faulted task and a synchronous throw coincide. */
  datatype Res<O> =
    | Ok(value: O)
    | NotSupported           // NotSupportedException
    | ArgumentNull           // ArgumentNullException
    | NullReference          // invoking a null delegate
    | Failed(kind: string)   // any other exception, by its kind

  /** `Func<TIn, TOut> next`: the rest of the pipeline. */
  type Continuation<!I, !O> = I -> Res<O>

  /** `Handle(TIn input, Func<TIn, TOut> next)`; the delegate may be null, hence the Option. */
  type HandleFn<!I, !O> = (I, Option<Continuation<I, O>>) -> Res<O>

  /** Code that runs around a handler it is given: `IInterceptor.Intercept(handler, input, next)`,
      and equally an overriding `Handle` that calls `base.Handle`. */
  type Around<!I, !O> = (HandleFn<I, O>, I, Option<Continuation<I, O>>) -> Res<O>

  /** `Func<Func<TIn, TOut>, Func<TIn, TOut>>`: a chained delegate, given its last child. */
  type Chained<!I, !O> = Continuation<I, O> -> Continuation<I, O>

  datatype Interceptor<!I, !O> = Interceptor(name: string, intercept: Around<I, O>)

  /** A handler object as the chain sees it: a leaf with its own code, a composite with its
      children (and the override of `Handle` a subclass may declare), or an interception wrapper. */
  datatype Handler<!I, !O> =
    | Leaf(name: string, handle: HandleFn<I, O>)
    | Composite(name: string, children: seq<Handler<I, O>>, refine: Option<Around<I, O>>)
    | Wrapped(interceptor: Interceptor<I, O>, inner: Handler<I, O>)

  const InterceptedHandlerType := "ResponsibilityChain.InterceptedHandler`3"

  /** The runtime type name: what `GetType()` or the default `ToString()` shows. */
  function TypeName<I(!new), O(!new)>(h: Handler<I, O>): string
  {
    match h
    case Leaf(n, _) => n
    case Composite(n, _, _) => n
    case Wrapped(_, _) => InterceptedHandlerType
  }

  /** Invoking a delegate that may be null. */
  function Call<I(!new), O(!new)>(next: Option<Continuation<I, O>>, x: I): Res<O>
  {
    match next
    case None => NullReference
    case Some(k) => k(x)
  }

  /** The continuation a composite substitutes for a null `next`: it always throws. */
  function NotSupportedContinuation<I(!new), O(!new)>(): Continuation<I, O>
  {
    _ => NotSupported
  }

  /** `input => handler.Handle(input, next)`: one child bound to what follows it. */
  function Step<I(!new), O(!new)>(f: HandleFn<I, O>, k: Continuation<I, O>): Continuation<I, O>
  {
    x => f(x, Some(k))
  }

  /** The delegate the fold starts from: the last child receives the caller's `next`. */
  function Last<I(!new), O(!new)>(f: HandleFn<I, O>): Chained<I, O>
  {
    next => Step(f, next)
  }

  /** One round of the fold: child `f` in front of the delegate built so far. */
  function Link<I(!new), O(!new)>(f: HandleFn<I, O>, rest: Chained<I, O>): Chained<I, O>
  {
    next => Step(f, rest(next))
  }

  /** The delegate the descending loop holds once it has processed index `i`: the right fold of
      `fs[i..]`, first child outermost. */
  function FoldFrom<I(!new), O(!new)>(fs: seq<HandleFn<I, O>>, i: nat): Chained<I, O>
    requires i < |fs|
    decreases |fs| - i
  {
    if i == |fs| - 1 then Last(fs[i]) else Link(fs[i], FoldFrom(fs, i + 1))
  }

  /** The delegate a composite caches: the source's innermost step reads `_handlers.Last()` each
      time it runs, so until it runs the delegate still expects the current last child. */
  type LateChained<!I, !O> = HandleFn<I, O> -> Chained<I, O>

  /** The innermost step: the last child, whichever it is when the delegate runs, receives the
      caller's `next`. */
  function LastSlot<I(!new), O(!new)>(): LateChained<I, O>
  {
    last => Last(last)
  }

  /** One round of the loop: child `f`, captured when the delegate is built, in front of the
      delegate built so far. */
  function LateLink<I(!new), O(!new)>(f: HandleFn<I, O>, rest: LateChained<I, O>): LateChained<I, O>
  {
    last => Link(f, rest(last))
  }

  /** The delegate the descending loop holds once it has processed index `i` of `ps`, the
      children before the last. */
  function LateFoldFrom<I(!new), O(!new)>(ps: seq<HandleFn<I, O>>, i: nat): LateChained<I, O>
    requires i <= |ps|
    decreases |ps| - i
  {
    if i == |ps| then LastSlot() else LateLink(ps[i], LateFoldFrom(ps, i + 1))
  }

  /** Given the last child it runs with, the cached delegate is the right fold of the children
      captured when it was built followed by that child. */
  lemma {:induction false} LateFoldIsFold<I(!new), O(!new)>(ps: seq<HandleFn<I, O>>, i: nat, last: HandleFn<I, O>)
    requires i <= |ps|
    ensures LateFoldFrom(ps, i)(last) == FoldFrom(ps + [last], i)
    decreases |ps| - i
  {
    if i < |ps| {
      LateFoldIsFold(ps, i + 1, last);
      assert (ps + [last])[i] == ps[i];
    }
  }

  /** The composite's `Handle(input, next)`: a null `next` becomes the throwing continuation, an
      empty chain forwards to `next`, otherwise the folded delegate runs. */
  function ChainHandle<I(!new), O(!new)>(fs: seq<HandleFn<I, O>>, x: I, next: Option<Continuation<I, O>>): (r: Res<O>)
    ensures |fs| == 0 && next.Some? ==> r == next.value(x)
    ensures |fs| == 0 && next.None? ==> r == NotSupported
  {
    var k: Continuation<I, O> := if next.Some? then next.value else NotSupportedContinuation();
    if |fs| == 0 then k(x) else FoldFrom(fs, 0)(k)(x)
  }

  /** The composite's own `Handle` run from its delegate field: a null `next` becomes the
      throwing continuation, no delegate (no children) forwards to `next`, otherwise the delegate
      runs. */
  function DelegateHandle<I(!new), O(!new)>(d: Option<Chained<I, O>>): HandleFn<I, O>
  {
    (x: I, next: Option<Continuation<I, O>>) =>
      var k: Continuation<I, O> := if next.Some? then next.value else NotSupportedContinuation();
      if d.None? then k(x) else d.value(k)(x)
  }

  /** The delegate the children fold into, none for no children. */
  function Delegate<I(!new), O(!new)>(fs: seq<HandleFn<I, O>>): Option<Chained<I, O>>
  {
    if |fs| == 0 then None else Some(FoldFrom(fs, 0))
  }

  /** The composite's own `Handle` (what an override reaches as `base.Handle`) as a handler
      function. */
  function BaseHandle<I(!new), O(!new)>(fs: seq<HandleFn<I, O>>): (f: HandleFn<I, O>)
    ensures forall x, next :: f(x, next) == ChainHandle(fs, x, next)
  {
    DelegateHandle(Delegate(fs))
  }

  /** `a` run around `inner`; for an interceptor this is `InterceptedHandler.Handle`. */
  function Surround<I(!new), O(!new)>(a: Around<I, O>, inner: HandleFn<I, O>): HandleFn<I, O>
  {
    (x, next) => a(inner, x, next)
  }

  /** What invoking a handler does. */
  function Eval<I(!new), O(!new)>(h: Handler<I, O>): HandleFn<I, O>
    decreases h
  {
    match h
    case Leaf(_, f) => f
    case Composite(_, cs, refine) =>
      var base := BaseHandle(Evals(cs));
      if refine.Some? then Surround(refine.value, base) else base
    case Wrapped(ic, inner) => Surround(ic.intercept, Eval(inner))
  }

  function Evals<I(!new), O(!new)>(hs: seq<Handler<I, O>>): (fs: seq<HandleFn<I, O>>)
    decreases hs
  {
    seq(|hs|, i requires 0 <= i < |hs| => Eval(hs[i]))
  }

  /** A composite value given the delegate its children fold into: its override run around the
      base `Handle`, or the base `Handle` alone. */
  lemma CompositeDispatch<I(!new), O(!new)>(n: string, cs: seq<Handler<I, O>>, refine: Option<Around<I, O>>, d: Option<Chained<I, O>>, x: I, next: Option<Continuation<I, O>>)
    requires d == Delegate(Evals(cs))
    ensures refine.Some? ==> Eval(Composite(n, cs, refine))(x, next) == refine.value(DelegateHandle(d), x, next)
    ensures refine.None? ==> Eval(Composite(n, cs, refine))(x, next) == ChainHandle(Evals(cs), x, next)
  {
  }

  /** The interceptors wrapped around a handler, outermost first. */
  function Layers<I(!new), O(!new)>(h: Handler<I, O>): seq<Interceptor<I, O>>
  {
    match h
    case Wrapped(ic, inner) => [ic] + Layers(inner)
    case _ => []
  }

  /** The handler under all interception wrappers. */
  function Core<I(!new), O(!new)>(h: Handler<I, O>): Handler<I, O>
  {
    match h
    case Wrapped(_, inner) => Core(inner)
    case _ => h
  }

  // ---------------------------------------------------------------------------------------
  // Extensional sameness. Dafny has no extensionality for functions, and C# code could in
  // principle compare delegates by reference; the laws below hold for handlers that use their
  // continuation only by calling it, which is what `Congruent` says.

  ghost predicate SameCont<I(!new), O(!new)>(k1: Continuation<I, O>, k2: Continuation<I, O>)
  {
    forall y: I :: k1(y) == k2(y)
  }

  ghost predicate SameNext<I(!new), O(!new)>(n1: Option<Continuation<I, O>>, n2: Option<Continuation<I, O>>)
  {
    match n1
    case None => n2.None?
    case Some(k1) => n2.Some? && SameCont(k1, n2.value)
  }

  ghost predicate SameHandle<I(!new), O(!new)>(f1: HandleFn<I, O>, f2: HandleFn<I, O>)
  {
    forall x: I, n1: Option<Continuation<I, O>>, n2: Option<Continuation<I, O>> {:trigger SameNext(n1, n2), f1(x, n1), f2(x, n2)}
      | SameNext(n1, n2) :: f1(x, n1) == f2(x, n2)
  }

  /** The handler observes its continuation only through what the continuation returns. */
  ghost predicate Congruent<I(!new), O(!new)>(f: HandleFn<I, O>)
  {
    SameHandle(f, f)
  }

  ghost predicate AroundCongruent<I(!new), O(!new)>(a: Around<I, O>)
  {
    forall f1: HandleFn<I, O>, f2: HandleFn<I, O>, x: I, n1: Option<Continuation<I, O>>, n2: Option<Continuation<I, O>>
      {:trigger SameHandle(f1, f2), SameNext(n1, n2), a(f1, x, n1), a(f2, x, n2)}
      | SameHandle(f1, f2) && SameNext(n1, n2) :: a(f1, x, n1) == a(f2, x, n2)
  }

  /** A terminal handler: the result does not depend on `next` at all. */
  ghost predicate IgnoresNext<I(!new), O(!new)>(f: HandleFn<I, O>)
  {
    forall x: I, n1: Option<Continuation<I, O>>, n2: Option<Continuation<I, O>> :: f(x, n1) == f(x, n2)
  }

  /** The handler passes input `x` on to `next` and returns what it returns. */
  ghost predicate Forwards<I(!new), O(!new)>(f: HandleFn<I, O>, x: I)
  {
    forall k: Continuation<I, O> :: f(x, Some(k)) == k(x)
  }

  ghost predicate AllCongruent<I(!new), O(!new)>(fs: seq<HandleFn<I, O>>)
  {
    forall i :: 0 <= i < |fs| ==> Congruent(fs[i])
  }

  /** Every leaf, override and interceptor of the tree is congruent. */
  ghost predicate WellBehaved<I(!new), O(!new)>(h: Handler<I, O>)
    decreases h
  {
    match h
    case Leaf(_, f) => Congruent(f)
    case Composite(_, cs, refine) =>
      (forall i :: 0 <= i < |cs| ==> WellBehaved(cs[i])) &&
      (refine.Some? ==> AroundCongruent(refine.value))
    case Wrapped(ic, inner) => AroundCongruent(ic.intercept) && WellBehaved(inner)
  }

  /** Reference semantics: the children called one by one by hand, first to last, each given
      "the rest of the chain" as its continuation, the caller's `k` after the last. */
  function ByHand<I(!new), O(!new)>(fs: seq<HandleFn<I, O>>, k: Continuation<I, O>, x: I): Res<O>
    decreases |fs|, 0
  {
    if |fs| == 0 then k(x) else fs[0](x, Some(ByHandCont(fs[1..], k)))
  }

  /** "The rest of the chain" as a continuation, for the reference semantics. */
  function ByHandCont<I(!new), O(!new)>(fs: seq<HandleFn<I, O>>, k: Continuation<I, O>): Continuation<I, O>
    decreases |fs|, 1
  {
    y => ByHand(fs, k, y)
  }

  // ---------------------------------------------------------------------------------------
  // Laws of the fold.

  /** The delegate of index i already given the caller's continuation `k`: child i stepped in
      front of the rest of the chain. This is `FoldFrom(fs, i)(k)` in first-order form. */
  function FoldCont<I(!new), O(!new)>(fs: seq<HandleFn<I, O>>, i: nat, k: Continuation<I, O>): Continuation<I, O>
    requires i < |fs|
    decreases |fs| - i
  {
    Step(fs[i], if i == |fs| - 1 then k else FoldCont(fs, i + 1, k))
  }

  /** The closure the loop builds, applied to `k`, is the first-order fold. */
  lemma {:induction false} FoldFromApplied<I(!new), O(!new)>(fs: seq<HandleFn<I, O>>, i: nat, k: Continuation<I, O>)
    requires i < |fs|
    ensures FoldFrom(fs, i)(k) == FoldCont(fs, i, k)
    decreases |fs| - i
  {
    if i < |fs| - 1 {
      FoldFromApplied(fs, i + 1, k);
    }
  }

  /** A non-empty chain called with `next` runs the fold on `next`. */
  lemma ChainHandleFold<I(!new), O(!new)>(fs: seq<HandleFn<I, O>>, x: I, k: Continuation<I, O>)
    requires |fs| > 0
    ensures ChainHandle(fs, x, Some(k)) == FoldCont(fs, 0, k)(x)
  {
    FoldFromApplied(fs, 0, k);
  }

  /** Index-shifting: the loop's delegate at index i + 1 is the fold of the tail at index i. */
  lemma {:induction false} FoldFromShift<I(!new), O(!new)>(fs: seq<HandleFn<I, O>>, i: nat)
    requires i + 1 < |fs|
    ensures FoldFrom(fs, i + 1) == FoldFrom(fs[1..], i)
    decreases |fs| - i
  {
    if i + 1 < |fs| - 1 {
      FoldFromShift(fs, i + 1);
    }
  }

  /** The fold of a chain of two or more children is its first child linked in front of the
      fold of the rest: the first child is the outermost decision point. */
  lemma FoldCons<I(!new), O(!new)>(fs: seq<HandleFn<I, O>>)
    requires |fs| > 1
    ensures FoldFrom(fs, 0) == Link(fs[0], FoldFrom(fs[1..], 0))
  {
    FoldFromShift(fs, 0);
  }

  /** The fold of a single child hands it the caller's continuation unchanged. */
  lemma FoldSingle<I(!new), O(!new)>(f: HandleFn<I, O>, x: I, k: Continuation<I, O>)
    ensures ChainHandle([f], x, Some(k)) == f(x, Some(k))
  {
  }

  /** One unfolding of the fold at index i, at one input. */
  lemma FoldUnfold<I(!new), O(!new)>(fs: seq<HandleFn<I, O>>, i: nat, k: Continuation<I, O>, y: I)
    requires i < |fs|
    ensures i == |fs| - 1 ==> FoldCont(fs, i, k)(y) == fs[i](y, Some(k))
    ensures i < |fs| - 1 ==> FoldCont(fs, i, k)(y) == fs[i](y, Some(FoldCont(fs, i + 1, k)))
  {
  }

  /** Congruence, used at one input and two continuations. */
  lemma CongruentApply<I(!new), O(!new)>(f: HandleFn<I, O>, x: I, k1: Continuation<I, O>, k2: Continuation<I, O>)
    requires Congruent(f) && SameCont(k1, k2)
    ensures f(x, Some(k1)) == f(x, Some(k2))
  {
    assert SameNext(Some(k1), Some(k2));
  }

  /** One fold round: the same congruent child in front of pointwise-equal continuations. */
  lemma FoldStepSame<I(!new), O(!new)>(fs: seq<HandleFn<I, O>>, gs: seq<HandleFn<I, O>>, i: nat, r1: Continuation<I, O>, r2: Continuation<I, O>)
    requires i < |fs| && i < |gs| && fs[i] == gs[i] && Congruent(fs[i]) && SameCont(r1, r2)
    ensures SameCont(Step(fs[i], r1), Step(gs[i], r2))
  {
    forall y: I ensures Step(fs[i], r1)(y) == Step(gs[i], r2)(y) {
      CongruentApply(fs[i], y, r1, r2);
    }
  }

  /** Folding over congruent children maps pointwise-equal continuations to pointwise-equal
      delegates. */
  lemma {:induction false} FoldRespectsSame<I(!new), O(!new)>(fs: seq<HandleFn<I, O>>, i: nat, k1: Continuation<I, O>, k2: Continuation<I, O>)
    requires i < |fs| && AllCongruent(fs) && SameCont(k1, k2)
    ensures SameCont(FoldCont(fs, i, k1), FoldCont(fs, i, k2))
    decreases |fs| - i
  {
    assert Congruent(fs[i]);
    if i < |fs| - 1 {
      FoldRespectsSame(fs, i + 1, k1, k2);
      FoldStepSame(fs, fs, i, FoldCont(fs, i + 1, k1), FoldCont(fs, i + 1, k2));
    } else {
      FoldStepSame(fs, fs, i, k1, k2);
    }
  }

  /** A chain of congruent children is itself congruent in `next`. */
  lemma ChainRespectsSame<I(!new), O(!new)>(fs: seq<HandleFn<I, O>>)
    requires AllCongruent(fs)
    ensures Congruent(BaseHandle(fs))
  {
    forall x: I, n1: Option<Continuation<I, O>>, n2: Option<Continuation<I, O>> | SameNext(n1, n2)
      ensures BaseHandle(fs)(x, n1) == BaseHandle(fs)(x, n2)
    {
      var k1: Continuation<I, O> := if n1.Some? then n1.value else NotSupportedContinuation();
      var k2: Continuation<I, O> := if n2.Some? then n2.value else NotSupportedContinuation();
      assert SameCont(k1, k2);
      if |fs| > 0 {
        FoldFromApplied(fs, 0, k1);
        FoldFromApplied(fs, 0, k2);
        FoldRespectsSame(fs, 0, k1, k2);
      }
    }
  }

  /** Wrapping a congruent handler in congruent code gives a congruent handler. */
  lemma SurroundRespectsSame<I(!new), O(!new)>(a: Around<I, O>, inner: HandleFn<I, O>)
    requires AroundCongruent(a) && Congruent(inner)
    ensures Congruent(Surround(a, inner))
  {
    forall x: I, n1: Option<Continuation<I, O>>, n2: Option<Continuation<I, O>> | SameNext(n1, n2)
      ensures Surround(a, inner)(x, n1) == Surround(a, inner)(x, n2)
    {
      assert SameHandle(inner, inner);
      assert a(inner, x, n1) == a(inner, x, n2);
    }
  }

  /** A well-behaved handler tree evaluates to a congruent handler. */
  lemma {:induction false} EvalCongruent<I(!new), O(!new)>(h: Handler<I, O>)
    requires WellBehaved(h)
    ensures Congruent(Eval(h))
    decreases h
  {
    match h
    case Leaf(_, f) =>
    case Composite(_, cs, refine) =>
      EvalsCongruent(cs);
      ChainRespectsSame(Evals(cs));
      if refine.Some? {
        SurroundRespectsSame(refine.value, BaseHandle(Evals(cs)));
      }
    case Wrapped(ic, inner) =>
      EvalCongruent(inner);
      SurroundRespectsSame(ic.intercept, Eval(inner));
  }

  lemma {:induction false} EvalsCongruent<I(!new), O(!new)>(hs: seq<Handler<I, O>>)
    requires forall i :: 0 <= i < |hs| ==> WellBehaved(hs[i])
    ensures AllCongruent(Evals(hs))
    decreases hs
  {
    forall i | 0 <= i < |hs| ensures Congruent(Evals(hs)[i]) {
      EvalCongruent(hs[i]);
    }
  }

  /** The fold at index i agrees with calling fs[i..] by hand. */
  lemma {:induction false} FoldIsByHand<I(!new), O(!new)>(fs: seq<HandleFn<I, O>>, i: nat, k: Continuation<I, O>)
    requires i < |fs| && AllCongruent(fs)
    ensures SameCont(FoldCont(fs, i, k), ByHandCont(fs[i..], k))
    decreases |fs| - i
  {
    assert Congruent(fs[i]);
    assert fs[i..][0] == fs[i] && fs[i..][1..] == fs[i + 1..];
    var byHand := ByHandCont(fs[i + 1..], k);
    var rest: Continuation<I, O> := if i == |fs| - 1 then k else FoldCont(fs, i + 1, k);
    if i < |fs| - 1 {
      FoldIsByHand(fs, i + 1, k);
    } else {
      assert fs[i + 1..] == [];
      forall y: I ensures k(y) == byHand(y) {
        assert byHand(y) == ByHand([], k, y);
      }
    }
    FoldStepSame(fs, fs, i, rest, byHand);
    forall y: I ensures FoldCont(fs, i, k)(y) == ByHandCont(fs[i..], k)(y) {
      assert FoldCont(fs, i, k)(y) == Step(fs[i], rest)(y);
      assert ByHandCont(fs[i..], k)(y) == Step(fs[i], byHand)(y);
    }
  }

  /** For congruent children, the composite's result is exactly what calling the children one by
      one by hand produces: child 0 sees the input first, each child's `next` is the rest of the
      chain, and the last child's `next` is the caller's. */
  lemma ChainIsByHand<I(!new), O(!new)>(fs: seq<HandleFn<I, O>>, x: I, k: Continuation<I, O>)
    requires AllCongruent(fs)
    ensures ChainHandle(fs, x, Some(k)) == ByHand(fs, k, x)
  {
    if |fs| > 0 {
      ChainHandleFold(fs, x, k);
      FoldIsByHand(fs, 0, k);
      assert fs[0..] == fs;
      assert FoldCont(fs, 0, k)(x) == ByHandCont(fs, k)(x);
    }
  }

  /** Calling congruent children by hand respects pointwise-equal final continuations. */
  lemma {:induction false} ByHandRespectsSame<I(!new), O(!new)>(fs: seq<HandleFn<I, O>>, k1: Continuation<I, O>, k2: Continuation<I, O>)
    requires AllCongruent(fs) && SameCont(k1, k2)
    ensures SameCont(ByHandCont(fs, k1), ByHandCont(fs, k2))
    decreases |fs|
  {
    if |fs| > 0 {
      assert Congruent(fs[0]);
      assert AllCongruent(fs[1..]) by {
        forall i | 0 <= i < |fs| - 1 ensures Congruent(fs[1..][i]) {
          assert fs[1..][i] == fs[i + 1];
        }
      }
      ByHandRespectsSame(fs[1..], k1, k2);
      forall y: I ensures ByHand(fs, k1, y) == ByHand(fs, k2, y) {
        CongruentApply(fs[0], y, ByHandCont(fs[1..], k1), ByHandCont(fs[1..], k2));
      }
    }
  }

  /** Calling `gs ++ hs` by hand is calling `gs` by hand with "`hs` by hand" as the continuation. */
  lemma {:induction false} ByHandAppend<I(!new), O(!new)>(gs: seq<HandleFn<I, O>>, hs: seq<HandleFn<I, O>>, k: Continuation<I, O>)
    requires AllCongruent(gs)
    ensures SameCont(ByHandCont(gs + hs, k), ByHandCont(gs, ByHandCont(hs, k)))
    decreases |gs|
  {
    if |gs| > 0 {
      assert (gs + hs)[1..] == gs[1..] + hs;
      assert (gs + hs)[0] == gs[0];
      assert Congruent(gs[0]);
      assert AllCongruent(gs[1..]) by {
        forall i | 0 <= i < |gs| - 1 ensures Congruent(gs[1..][i]) {
          assert gs[1..][i] == gs[i + 1];
        }
      }
      ByHandAppend(gs[1..], hs, k);
      forall y: I ensures ByHand(gs + hs, k, y) == ByHand(gs, ByHandCont(hs, k), y) {
        CongruentApply(gs[0], y, ByHandCont(gs[1..] + hs, k), ByHandCont(gs[1..], ByHandCont(hs, k)));
      }
    } else {
      assert gs + hs == hs;
    }
  }

  lemma {:induction false} AllCongruentAppend<I(!new), O(!new)>(a: seq<HandleFn<I, O>>, b: seq<HandleFn<I, O>>)
    requires AllCongruent(a) && AllCongruent(b)
    ensures AllCongruent(a + b)
  {
    forall i | 0 <= i < |a + b| ensures Congruent((a + b)[i]) {
      if i < |a| {
        assert (a + b)[i] == a[i];
      } else {
        assert (a + b)[i] == b[i - |a|];
      }
    }
  }

  /** A nested composite at the head of the rest of the chain, by hand, is its children spliced
      in. */
  lemma SpliceHead<I(!new), O(!new)>(gs: seq<HandleFn<I, O>>, post: seq<HandleFn<I, O>>, k: Continuation<I, O>)
    requires AllCongruent(gs)
    ensures SameCont(ByHandCont([BaseHandle(gs)] + post, k), ByHandCont(gs + post, k))
  {
    var nested := [BaseHandle(gs)] + post;
    assert nested[0] == BaseHandle(gs) && nested[1..] == post;
    ByHandAppend(gs, post, k);
    forall y: I ensures ByHand(nested, k, y) == ByHand(gs + post, k, y) {
      calc {
        ByHand(nested, k, y);
        ChainHandle(gs, y, Some(ByHandCont(post, k)));
        { ChainIsByHand(gs, y, ByHandCont(post, k)); }
        ByHand(gs, ByHandCont(post, k), y);
        ByHandCont(gs, ByHandCont(post, k))(y);
        ByHandCont(gs + post, k)(y);
      }
    }
  }

  /** Nesting is splicing: a child that is a composite of `gs` (with no override) behaves exactly
      as if its children were inserted in its place. */
  lemma NestedChainSplices<I(!new), O(!new)>(pre: seq<HandleFn<I, O>>, gs: seq<HandleFn<I, O>>, post: seq<HandleFn<I, O>>, k: Continuation<I, O>, x: I)
    requires AllCongruent(pre) && AllCongruent(gs) && AllCongruent(post)
    ensures ChainHandle(pre + [BaseHandle(gs)] + post, x, Some(k)) == ChainHandle(pre + gs + post, x, Some(k))
  {
    var nested := [BaseHandle(gs)] + post;
    var spliced := gs + post;
    assert pre + [BaseHandle(gs)] + post == pre + nested;
    assert pre + gs + post == pre + spliced;
    ChainRespectsSame(gs);
    assert AllCongruent([BaseHandle(gs)]);
    AllCongruentAppend([BaseHandle(gs)], post);
    AllCongruentAppend(pre, nested);
    AllCongruentAppend(gs, post);
    AllCongruentAppend(pre, spliced);
    ChainIsByHand(pre + nested, x, k);
    ChainIsByHand(pre + spliced, x, k);
    ByHandAppend(pre, nested, k);
    ByHandAppend(pre, spliced, k);
    SpliceHead(gs, post, k);
    ByHandRespectsSame(pre, ByHandCont(nested, k), ByHandCont(spliced, k));
    calc {
      ByHand(pre + nested, k, x);
      ByHandCont(pre + nested, k)(x);
      ByHandCont(pre, ByHandCont(nested, k))(x);
      ByHandCont(pre, ByHandCont(spliced, k))(x);
      ByHandCont(pre + spliced, k)(x);
      ByHand(pre + spliced, k, x);
    }
  }

  /** A terminal handler's answer, at any two continuations. */
  lemma IgnoresApply<I(!new), O(!new)>(f: HandleFn<I, O>, x: I, n1: Option<Continuation<I, O>>, n2: Option<Continuation<I, O>>)
    requires IgnoresNext(f)
    ensures f(x, n1) == f(x, n2)
  {
  }

  /** The terminal child j, reached from either fold, answers alike. */
  lemma FoldStopsHere<I(!new), O(!new)>(fs: seq<HandleFn<I, O>>, j: nat, k1: Continuation<I, O>, k2: Continuation<I, O>)
    requires j < |fs| && IgnoresNext(fs[j])
    ensures SameCont(FoldCont(fs, j, k1), FoldCont(fs[..j + 1], j, k2))
  {
    var cut := fs[..j + 1];
    assert cut[j] == fs[j];
    var r: Continuation<I, O> := if j == |fs| - 1 then k1 else FoldCont(fs, j + 1, k1);
    forall y: I ensures FoldCont(fs, j, k1)(y) == FoldCont(cut, j, k2)(y) {
      IgnoresApply(fs[j], y, Some(r), Some(k2));
    }
  }

  /** One fold round in front of a chain and in front of its cut-off prefix. */
  lemma FoldCutStep<I(!new), O(!new)>(fs: seq<HandleFn<I, O>>, j: nat, i: nat, k1: Continuation<I, O>, k2: Continuation<I, O>)
    requires i < j < |fs| && Congruent(fs[i])
    requires SameCont(FoldCont(fs, i + 1, k1), FoldCont(fs[..j + 1], i + 1, k2))
    ensures SameCont(FoldCont(fs, i, k1), FoldCont(fs[..j + 1], i, k2))
  {
    var cut := fs[..j + 1];
    assert cut[i] == fs[i];
    FoldStepSame(fs, cut, i, FoldCont(fs, i + 1, k1), FoldCont(cut, i + 1, k2));
  }

  /** The fold from index i up to and including a terminal child j agrees, pointwise, with the
      fold of the chain cut off after j, whatever continuations the two are given. */
  lemma {:induction false} FoldStopsAt<I(!new), O(!new)>(fs: seq<HandleFn<I, O>>, j: nat, i: nat, k1: Continuation<I, O>, k2: Continuation<I, O>)
    requires i <= j < |fs| && IgnoresNext(fs[j])
    requires forall m :: 0 <= m < j ==> Congruent(fs[m])
    ensures SameCont(FoldCont(fs, i, k1), FoldCont(fs[..j + 1], i, k2))
    decreases j - i
  {
    if i == j {
      FoldStopsHere(fs, j, k1, k2);
    } else {
      assert Congruent(fs[i]);
      FoldStopsAt(fs, j, i + 1, k1, k2);
      FoldCutStep(fs, j, i, k1, k2);
    }
  }

  /** Short circuit: once child j ignores its continuation, no later child runs and the caller's
      `next` does not matter; the chain answers as the chain cut off after child j. */
  lemma ShortCircuit<I(!new), O(!new)>(fs: seq<HandleFn<I, O>>, j: nat, x: I, n1: Option<Continuation<I, O>>, n2: Option<Continuation<I, O>>)
    requires j < |fs| && IgnoresNext(fs[j])
    requires forall m :: 0 <= m < j ==> Congruent(fs[m])
    ensures ChainHandle(fs, x, n1) == ChainHandle(fs[..j + 1], x, n2)
  {
    var k1: Continuation<I, O> := if n1.Some? then n1.value else NotSupportedContinuation();
    var k2: Continuation<I, O> := if n2.Some? then n2.value else NotSupportedContinuation();
    FoldFromApplied(fs, 0, k1);
    FoldFromApplied(fs[..j + 1], 0, k2);
    FoldStopsAt(fs, j, 0, k1, k2);
    assert FoldCont(fs, 0, k1)(x) == FoldCont(fs[..j + 1], 0, k2)(x);
  }

  lemma {:induction false} FoldForwards<I(!new), O(!new)>(fs: seq<HandleFn<I, O>>, i: nat, x: I, k: Continuation<I, O>)
    requires i < |fs| && forall m :: 0 <= m < |fs| ==> Forwards(fs[m], x)
    ensures FoldCont(fs, i, k)(x) == k(x)
    decreases |fs| - i
  {
    assert Forwards(fs[i], x);
    FoldUnfold(fs, i, k, x);
    if i < |fs| - 1 {
      FoldForwards(fs, i + 1, x, k);
    }
  }

  /** Fall-through: when every child passes input `x` on, the chain's answer is the caller's
      `next(x)`, or NotSupported when no `next` was given. */
  lemma FallThrough<I(!new), O(!new)>(fs: seq<HandleFn<I, O>>, x: I, next: Option<Continuation<I, O>>)
    requires forall i :: 0 <= i < |fs| ==> Forwards(fs[i], x)
    ensures ChainHandle(fs, x, next) == if next.Some? then next.value(x) else NotSupported
  {
    var k: Continuation<I, O> := if next.Some? then next.value else NotSupportedContinuation();
    if |fs| > 0 {
      FoldFromApplied(fs, 0, k);
      FoldForwards(fs, 0, x, k);
    }
  }

  /** From index i, children that pass `x` on lead the fold to child j. */
  lemma {:induction false} FoldForwardsTo<I(!new), O(!new)>(fs: seq<HandleFn<I, O>>, i: nat, j: nat, x: I, k: Continuation<I, O>)
    requires i <= j < |fs| && forall m :: i <= m < j ==> Forwards(fs[m], x)
    ensures FoldCont(fs, i, k)(x) == FoldCont(fs, j, k)(x)
    decreases j - i
  {
    if i < j {
      assert Forwards(fs[i], x);
      FoldUnfold(fs, i, k, x);
      FoldForwardsTo(fs, i + 1, j, x, k);
    }
  }

  /** The handler answers input `x` by itself: its answer does not depend on `next`. */
  ghost predicate AnswersAt<I(!new), O(!new)>(f: HandleFn<I, O>, x: I)
  {
    forall n1: Option<Continuation<I, O>>, n2: Option<Continuation<I, O>> :: f(x, n1) == f(x, n2)
  }

  lemma AnswersAtApply<I(!new), O(!new)>(f: HandleFn<I, O>, x: I, n1: Option<Continuation<I, O>>, n2: Option<Continuation<I, O>>)
    requires AnswersAt(f, x)
    ensures f(x, n1) == f(x, n2)
  {
  }

  /** The first child that answers decides: when children 0..j-1 pass `x` on and child j answers
      `x` by itself, the chain answers what child j answers, whatever `next` is. */
  lemma FirstHandlerWins<I(!new), O(!new)>(fs: seq<HandleFn<I, O>>, j: nat, x: I, next: Option<Continuation<I, O>>)
    requires j < |fs| && AnswersAt(fs[j], x)
    requires forall m :: 0 <= m < j ==> Forwards(fs[m], x)
    ensures ChainHandle(fs, x, next) == fs[j](x, None)
  {
    var k: Continuation<I, O> := if next.Some? then next.value else NotSupportedContinuation();
    FoldFromApplied(fs, 0, k);
    FoldForwardsTo(fs, 0, j, x, k);
    FoldUnfold(fs, j, k, x);
    var r: Continuation<I, O> := if j == |fs| - 1 then k else FoldCont(fs, j + 1, k);
    AnswersAtApply(fs[j], x, Some(r), None);
  }
}
