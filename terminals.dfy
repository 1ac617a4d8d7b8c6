/** The terminal handlers: leaves that never call `next` (a null `next` is fine). They either
    fail with `NotSupportedException` or answer `default(TOut)`, possibly as a completed task. */
module Terminals {
  import opened Handlers

  datatype Terminal =
    | ThrowNotSupported                            // Handle and HandleAsync alike
    | ThrowNotSupportedHandler
    | ReturnDefaultValue
    | ReturnDefaultValueHandler                    // reached through its shared Instance
    | ReturnCompletedTask                          // output type Task: the model's output is ()
    | ReturnCompletedTaskHandler                   // output type Task, shared Instance
    | ReturnCompletedTaskFromDefaultValueHandler   // Task<TOut> holding default(TOut)
    | ReturnCompletedTaskWithDefaultValue          // Task<TOut> holding default(TOut)

  function TerminalTypeName(t: Terminal): string
  {
    match t
    case ThrowNotSupported => "ResponsibilityChain.ThrowNotSupported`2"
    case ThrowNotSupportedHandler => "ResponsibilityChain.ThrowNotSupportedHandler`2"
    case ReturnDefaultValue => "ResponsibilityChain.ReturnDefaultValue`2"
    case ReturnDefaultValueHandler => "ResponsibilityChain.ReturnDefaultValueHandler`2"
    case ReturnCompletedTask => "ResponsibilityChain.ReturnCompletedTask`1"
    case ReturnCompletedTaskHandler => "ResponsibilityChain.ReturnCompletedTaskHandler`1"
    case ReturnCompletedTaskFromDefaultValueHandler => "ResponsibilityChain.ReturnCompletedTaskFromDefaultValueHandler`2"
    case ReturnCompletedTaskWithDefaultValue => "ResponsibilityChain.ReturnCompletedTaskWithDefaultValue`2"
  }

  predicate Throws(t: Terminal)
  {
    t == ThrowNotSupported || t == ThrowNotSupportedHandler
  }

  /** The terminal as a child handler, given `default(TOut)` (for the two completed-task handlers
      of output type `Task`, the output type is () and `dflt` is ()). Whatever the input and
      whatever `next`, null included, it fails with NotSupported if it is a throwing terminal
      and answers the default otherwise. */
  function TerminalLeaf<I(!new), O(!new)>(t: Terminal, dflt: O): (h: Handler<I, O>)
    ensures TypeName(h) == TerminalTypeName(t)
    ensures IgnoresNext(Eval(h))
    ensures Throws(t) ==> forall x: I, n: Option<Continuation<I, O>> :: Eval(h)(x, n) == NotSupported
    ensures !Throws(t) ==> forall x: I, n: Option<Continuation<I, O>> :: Eval(h)(x, n) == Ok(dflt)
  {
    Leaf(TerminalTypeName(t), (x: I, n: Option<Continuation<I, O>>) => if Throws(t) then NotSupported else Ok(dflt))
  }

  /** A terminal child stops the chain: the children after it never run and the caller's `next`
      is never consulted, so the chain answers as the chain cut off after it. */
  lemma TerminalStopsChain<I(!new), O(!new)>(fs: seq<HandleFn<I, O>>, j: nat, t: Terminal, dflt: O, x: I, n1: Option<Continuation<I, O>>, n2: Option<Continuation<I, O>>)
    requires j < |fs| && fs[j] == Eval(TerminalLeaf<I, O>(t, dflt))
    requires forall m :: 0 <= m < j ==> Congruent(fs[m])
    ensures ChainHandle(fs, x, n1) == ChainHandle(fs[..j + 1], x, n2)
  {
    ShortCircuit(fs, j, x, n1, n2);
  }

  /** Reached by children that pass the input on, a terminal child gives the chain's answer:
      a returning terminal absorbs the fall-through, so the throwing continuation that stands for
      a null `next` is never invoked; a throwing one fails with NotSupported whatever `next` is. */
  lemma TerminalAnswersChain<I(!new), O(!new)>(fs: seq<HandleFn<I, O>>, j: nat, t: Terminal, dflt: O, x: I, next: Option<Continuation<I, O>>)
    requires j < |fs| && fs[j] == Eval(TerminalLeaf<I, O>(t, dflt))
    requires forall m :: 0 <= m < j ==> Forwards(fs[m], x)
    ensures ChainHandle(fs, x, next) == if Throws(t) then NotSupported else Ok(dflt)
  {
    assert AnswersAt(fs[j], x);
    FirstHandlerWins(fs, j, x, next);
  }
}
