/**
 * The entry points of the clone engine: DefaultCloner.deepClone (a fresh context
 * per call), Clones.defaultCloner (custom strategies registered one by one on a
 * new builder) and the Clones.deepClone facade over the shared default engine.
 */
module Clones {
  import opened Wrappers
  import opened CloneHeap
  import opened CloneHeapState
  import opened CloneStrategies
  import opened DefaultCloners
  import opened CloneSpec
  import opened CloneContexts

  /** The strategies read back to front: element `i` is element `|xs| - 1 - i` of the
      original. */
  function ReversedStrategies(xs: seq<Strategy>): (r: seq<Strategy>)
    ensures |r| == |xs|
    ensures forall i :: 0 <= i < |xs| ==> r[i] == xs[|xs| - 1 - i]
  {
    if xs == [] then [] else [xs[|xs| - 1]] + ReversedStrategies(xs[..|xs| - 1])
  }

  /** Reversing one more element puts it at the front. */
  lemma ReversedSnoc(xs: seq<Strategy>, x: Strategy)
    ensures ReversedStrategies(xs + [x]) == [x] + ReversedStrategies(xs)
  {
    assert (xs + [x])[..|xs|] == xs;
  }

  /** The last strategy of `xs` supporting `c`, if any. */
  function LastSupporting(xs: seq<Strategy>, c: ClassInfo): Option<Strategy> {
    if xs == [] then None
    else if Support(xs[|xs| - 1], c) then Some(xs[|xs| - 1])
    else LastSupporting(xs[..|xs| - 1], c)
  }

  /** Looking a class up in the reversed list finds the last supporting strategy of
      the original list. */
  lemma {:induction false} ReversedLookup(xs: seq<Strategy>, c: ClassInfo)
    ensures GetCloneStrategy(ReversedStrategies(xs), c) == LastSupporting(xs, c)
  {
    if xs != [] {
      var rev := ReversedStrategies(xs);
      assert rev[0] == xs[|xs| - 1] && rev[1..] == ReversedStrategies(xs[..|xs| - 1]);
      ReversedLookup(xs[..|xs| - 1], c);
    }
  }

  /** Clones.defaultCloner: each custom strategy, in argument order, is registered on a
      new builder, so the chain holds them in reverse order ahead of the built-ins. */
  method DefaultClonerOf(custom: seq<Strategy>) returns (cloner: DefaultCloner)
    ensures cloner.strategies == ReversedStrategies(custom) + BuiltIns
  {
    var builder := new Builder();
    for i := 0 to |custom|
      invariant builder.strategies == ReversedStrategies(custom[..i])
    {
      ReversedSnoc(custom[..i], custom[i]);
      assert custom[..i + 1] == custom[..i] + [custom[i]];
      builder.RegisterStrategy(custom[i]);
    }
    assert custom[..|custom|] == custom;
    cloner := builder.Build();
  }

  /** In a cloner made by defaultCloner, the custom strategy registered last among those
      supporting the class wins; the built-in selection applies only when none does. */
  lemma CustomStrategyPrecedence(custom: seq<Strategy>, c: ClassInfo)
    ensures GetCloneStrategy(ReversedStrategies(custom) + BuiltIns, c) ==
      (if LastSupporting(custom, c).Some? then LastSupporting(custom, c) else GetCloneStrategy(BuiltIns, c))
    ensures GetCloneStrategy(ReversedStrategies(custom) + BuiltIns, c).Some?
  {
    ReversedLookup(custom, c);
    RegisteredTakePrecedence(ReversedStrategies(custom), c);
    BuiltChainTotal(ReversedStrategies(custom), c);
  }

  /** Clones.ENGINE: the cloner defaultCloner builds without custom strategies. */
  const Engine: DefaultCloner := DefaultCloner(BuiltIns)

  /**
   * DefaultCloner.deepClone: a new context, with an empty visited map, proceeds into
   * `v`. The origin nodes are left as they were; every copy registered by the call is
   * complete; a successful result is the image of `v`. A failure is a failed lookup
   * or a wrapped reflective failure, and there is none when every object the clone
   * reaches is clonable: inside any set `S` that ClonableClosed accepts.
   */
  method DeepCloneWith(cloner: DefaultCloner, classes: ClassTable, heap: Heap, v: Value, ghost S: set<Ref>)
    returns (res: Result<Value, CloneError>, ghost visited: Visited)
    requires WfEnv(CloneSpec.Env(heap.nodes, classes, cloner.strategies)) && RefBelow(v, |heap.nodes|)
    modifies heap
    ensures old(heap.nodes) <= heap.nodes
    ensures VisitedOk(CloneSpec.Env(old(heap.nodes), classes, cloner.strategies), visited, |heap.nodes|)
    ensures res.Success? ==> AllDoneSince(CloneSpec.Env(old(heap.nodes), classes, cloner.strategies), {}, visited, heap.nodes)
    ensures res.Success? ==> Settled(CloneSpec.Env(old(heap.nodes), classes, cloner.strategies), v, visited)
    ensures res.Success? ==> res.value == Img(CloneSpec.Env(old(heap.nodes), classes, cloner.strategies), v, visited)
    ensures res.Failure? ==> Propagated(res.error)
    ensures ClonableClosed(CloneSpec.Env(old(heap.nodes), classes, cloner.strategies), S) && ValueIn(v, S) ==> res.Success?
    ensures v.Null? ==> res == Success(Null)
  {
    var context := new CloneContext(cloner, classes, heap);
    res := context.Proceed(v, S);
    visited := context.visited;
  }

  /** Clones.deepClone: DefaultCloner.deepClone on the shared engine. */
  method DeepClone(classes: ClassTable, heap: Heap, v: Value, ghost S: set<Ref>)
    returns (res: Result<Value, CloneError>, ghost visited: Visited)
    requires WfEnv(CloneSpec.Env(heap.nodes, classes, Engine.strategies)) && RefBelow(v, |heap.nodes|)
    modifies heap
    ensures old(heap.nodes) <= heap.nodes
    ensures VisitedOk(CloneSpec.Env(old(heap.nodes), classes, Engine.strategies), visited, |heap.nodes|)
    ensures res.Success? ==> AllDoneSince(CloneSpec.Env(old(heap.nodes), classes, Engine.strategies), {}, visited, heap.nodes)
    ensures res.Success? ==> Settled(CloneSpec.Env(old(heap.nodes), classes, Engine.strategies), v, visited)
    ensures res.Success? ==> res.value == Img(CloneSpec.Env(old(heap.nodes), classes, Engine.strategies), v, visited)
    ensures res.Failure? ==> Propagated(res.error)
    ensures ClonableClosed(CloneSpec.Env(old(heap.nodes), classes, Engine.strategies), S) && ValueIn(v, S) ==> res.Success?
    ensures v.Null? ==> res == Success(Null)
  {
    res, visited := DeepCloneWith(Engine, classes, heap, v, S);
  }
}
