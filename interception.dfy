/** Interception: an `InterceptedHandler` is one wrapper layer (`Handlers.Wrapped`) whose `Handle`
    is `interceptor.Intercept(inner, input, next)`. The default strategy stacks the resolved
    interceptors with the first one outermost; the helper stacks them with the first one
    innermost. */
module Interception {
  import opened Handlers

  /** The interceptors a service lookup resolved; a null enumerable counts as none. */
  function Resolved<I(!new), O(!new)>(lookup: Option<seq<Interceptor<I, O>>>): seq<Interceptor<I, O>>
  {
    if lookup.Some? then lookup.value else []
  }

  /** Reverse order, built from the back so that its head is the last element. */
  function Reverse<T>(s: seq<T>): (r: seq<T>)
    ensures |r| == |s|
    ensures forall i :: 0 <= i < |s| ==> r[i] == s[|s| - 1 - i]
  {
    if |s| == 0 then [] else [s[|s| - 1]] + Reverse(s[..|s| - 1])
  }

  /** Specification of the default strategy's layering: `ics[0]` outermost, the last interceptor
      right around `h`. */
  function WrapOuterFirst<I(!new), O(!new)>(ics: seq<Interceptor<I, O>>, h: Handler<I, O>): (r: Handler<I, O>)
    ensures Core(r) == Core(h)
    ensures |ics| > 0 ==> TypeName(r) == InterceptedHandlerType
    decreases |ics|
  {
    if |ics| == 0 then h else Wrapped(ics[0], WrapOuterFirst(ics[1..], h))
  }

  /** Specification of the helper's layering: `ics[0]` right around `h`, the last interceptor
      outermost. */
  function WrapInnerFirst<I(!new), O(!new)>(ics: seq<Interceptor<I, O>>, h: Handler<I, O>): (r: Handler<I, O>)
    ensures Core(r) == Core(h)
    ensures |ics| > 0 ==> TypeName(r) == InterceptedHandlerType
    decreases |ics|
  {
    if |ics| == 0 then h else Wrapped(ics[|ics| - 1], WrapInnerFirst(ics[..|ics| - 1], h))
  }

  /** `DefaultInterceptionStrategy.Intercept`, given what the service lookup returned for the
      handler's type: no interceptors leave the handler itself, otherwise a downward loop wraps
      one layer per interceptor. */
  method DefaultIntercept<I(!new), O(!new)>(h: Handler<I, O>, lookup: Option<seq<Interceptor<I, O>>>) returns (r: Handler<I, O>)
    ensures r == WrapOuterFirst(Resolved(lookup), h)
    ensures lookup.None? ==> r == h
  {
    var interceptors := Resolved(lookup);
    if |interceptors| == 0 {
      return h;
    }
    var intercepted: Handler<I, O> := h;
    var i := |interceptors| - 1;
    while i >= 0
      invariant -1 <= i < |interceptors|
      invariant intercepted == WrapOuterFirst(interceptors[i + 1..], h)
      decreases i + 1
    {
      assert interceptors[i..][1..] == interceptors[i + 1..];
      intercepted := Wrapped(interceptors[i], intercepted);
      i := i - 1;
    }
    assert interceptors[0..] == interceptors;
    r := intercepted;
  }

  /** `DefaultInterceptionStrategyHelper.InterceptImpl`: a forward loop wrapping one layer per
      interceptor. */
  method InterceptImpl<I(!new), O(!new)>(h: Handler<I, O>, interceptors: seq<Interceptor<I, O>>) returns (r: Handler<I, O>)
    ensures r == WrapInnerFirst(interceptors, h)
  {
    var intercepted := h;
    for n := 0 to |interceptors|
      invariant intercepted == WrapInnerFirst(interceptors[..n], h)
    {
      assert interceptors[..n + 1][..n] == interceptors[..n];
      intercepted := Wrapped(interceptors[n], intercepted);
    }
    assert interceptors[..|interceptors|] == interceptors;
    r := intercepted;
  }

  /** `DefaultInterceptionStrategyHelper.Intercept`: a null sequence counts as empty. */
  method HelperIntercept<I(!new), O(!new)>(h: Handler<I, O>, interceptors: Option<seq<Interceptor<I, O>>>) returns (r: Handler<I, O>)
    ensures r == WrapInnerFirst(Resolved(interceptors), h)
    ensures interceptors.None? ==> r == h
  {
    r := InterceptImpl(h, Resolved(interceptors));
  }

  /** The default strategy adds exactly the resolved interceptors, in order, outside the
      handler's own layers, and leaves the handler under them untouched. */
  lemma {:induction false} OuterFirstLayers<I(!new), O(!new)>(ics: seq<Interceptor<I, O>>, h: Handler<I, O>)
    ensures Layers(WrapOuterFirst(ics, h)) == ics + Layers(h)
    ensures Core(WrapOuterFirst(ics, h)) == Core(h)
    decreases |ics|
  {
    if |ics| > 0 {
      OuterFirstLayers(ics[1..], h);
      assert [ics[0]] + ics[1..] == ics;
    }
  }

  /** The helper adds the interceptors in reverse order: the last one outermost. */
  lemma {:induction false} InnerFirstLayers<I(!new), O(!new)>(ics: seq<Interceptor<I, O>>, h: Handler<I, O>)
    ensures Layers(WrapInnerFirst(ics, h)) == Reverse(ics) + Layers(h)
    ensures Core(WrapInnerFirst(ics, h)) == Core(h)
    decreases |ics|
  {
    if |ics| > 0 {
      InnerFirstLayers(ics[..|ics| - 1], h);
    }
  }

  /** The two layerings are mirror images: the helper's result is the default strategy's result
      for the reversed list. */
  lemma {:induction false} InnerFirstIsReversedOuterFirst<I(!new), O(!new)>(ics: seq<Interceptor<I, O>>, h: Handler<I, O>)
    ensures WrapInnerFirst(ics, h) == WrapOuterFirst(Reverse(ics), h)
    decreases |ics|
  {
    if |ics| > 0 {
      InnerFirstIsReversedOuterFirst(ics[..|ics| - 1], h);
      assert Reverse(ics)[1..] == Reverse(ics[..|ics| - 1]);
    }
  }

  /** The interceptor never runs the handler it wraps: it only passes the input to `next`. */
  ghost predicate Bypasses<I(!new), O(!new)>(a: Around<I, O>)
  {
    forall f: HandleFn<I, O>, x: I, n: Option<Continuation<I, O>> :: a(f, x, n) == Call(n, x)
  }

  /** The interceptor returns exactly what the wrapped handler returns for the same `next`. */
  ghost predicate PassesThrough<I(!new), O(!new)>(a: Around<I, O>)
  {
    forall f: HandleFn<I, O>, x: I, n: Option<Continuation<I, O>> :: a(f, x, n) == f(x, n)
  }

  /** A handler that only passes its input on to `next`. */
  function Forwarder<I(!new), O(!new)>(): Handler<I, O>
  {
    Leaf("", (x: I, n: Option<Continuation<I, O>>) => Call(n, x))
  }

  /** A bypassing layer cuts the handler out: with interceptor j bypassing (and the layers outside
      it congruent), the wrapped handler behaves as layers 0..j-1 around a plain forwarder. The
      original handler has no influence on the result, while the outer interceptors still run. */
  lemma {:induction false} BypassSkipsHandler<I(!new), O(!new)>(ics: seq<Interceptor<I, O>>, j: nat, h: Handler<I, O>)
    requires j < |ics| && Bypasses(ics[j].intercept)
    requires forall m :: 0 <= m < j ==> AroundCongruent(ics[m].intercept)
    ensures SameHandle(Eval(WrapOuterFirst(ics, h)), Eval(WrapOuterFirst(ics[..j], Forwarder())))
    decreases j
  {
    var f1 := Eval(WrapOuterFirst(ics, h));
    var f2 := Eval(WrapOuterFirst(ics[..j], Forwarder()));
    if j == 0 {
      assert ics[..0] == [];
      forall x: I, n1: Option<Continuation<I, O>>, n2: Option<Continuation<I, O>> | SameNext(n1, n2)
        ensures f1(x, n1) == f2(x, n2)
      {
        assert f1(x, n1) == ics[0].intercept(Eval(WrapOuterFirst(ics[1..], h)), x, n1);
      }
    } else {
      assert AroundCongruent(ics[0].intercept);
      BypassSkipsHandler(ics[1..], j - 1, h);
      assert ics[1..][..j - 1] == ics[..j][1..];
      var g1 := Eval(WrapOuterFirst(ics[1..], h));
      var g2 := Eval(WrapOuterFirst(ics[..j][1..], Forwarder()));
      assert SameHandle(g1, g2);
      forall x: I, n1: Option<Continuation<I, O>>, n2: Option<Continuation<I, O>> | SameNext(n1, n2)
        ensures f1(x, n1) == f2(x, n2)
      {
        assert f1(x, n1) == ics[0].intercept(g1, x, n1);
        assert f2(x, n2) == ics[..j][0].intercept(g2, x, n2);
      }
    }
  }

  /** Layers of pass-through interceptors are invisible: the wrapped handler answers what the
      handler answers, errors included, for every input and `next`. */
  lemma {:induction false} PassThroughIsInvisible<I(!new), O(!new)>(ics: seq<Interceptor<I, O>>, h: Handler<I, O>, x: I, n: Option<Continuation<I, O>>)
    requires forall m :: 0 <= m < |ics| ==> PassesThrough(ics[m].intercept)
    ensures Eval(WrapOuterFirst(ics, h))(x, n) == Eval(h)(x, n)
    decreases |ics|
  {
    if |ics| > 0 {
      assert PassesThrough(ics[0].intercept);
      PassThroughIsInvisible(ics[1..], h, x, n);
    }
  }
}
