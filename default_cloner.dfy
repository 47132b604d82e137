/**
 * DefaultCloner: an ordered chain of strategies where the first one that supports
 * a class clones its instances, and the Builder that puts registered strategies
 * in front of the five built-in ones.
 */
module DefaultCloners {
  import opened Wrappers
  import opened CloneHeap
  import opened CloneStrategies

  /** A configured cloner: its strategy chain, in priority order. */
  datatype DefaultCloner = DefaultCloner(strategies: seq<Strategy>)

  /** The strategies Builder.build appends after the registered ones. */
  const BuiltIns: seq<Strategy> :=
    [ImmutableStrategy, MapStrategy, CollectionStrategy, ArrayStrategy, ReflectionStrategy]

  /** DefaultCloner.getCloneStrategy: the first strategy that supports `c`; None stands
      for the IllegalArgumentException thrown when no strategy does. */
  function GetCloneStrategy(strategies: seq<Strategy>, c: ClassInfo): (r: Option<Strategy>)
    ensures r.Some? ==> Support(r.value, c) && r.value in strategies
  {
    if strategies == [] then None
    else if Support(strategies[0], c) then Some(strategies[0])
    else GetCloneStrategy(strategies[1..], c)
  }

  /** The strategy found is the first supporting one, and none is found exactly when
      no strategy of the chain supports the class. */
  lemma {:induction false} GetCloneStrategyFirst(strategies: seq<Strategy>, c: ClassInfo)
    ensures GetCloneStrategy(strategies, c).None? <==> forall i :: 0 <= i < |strategies| ==> !Support(strategies[i], c)
    ensures GetCloneStrategy(strategies, c).Some? ==> exists i :: (0 <= i < |strategies| &&
      strategies[i] == GetCloneStrategy(strategies, c).value && (forall j :: 0 <= j < i ==> !Support(strategies[j], c)))
  {
    if strategies != [] && !Support(strategies[0], c) {
      var tail := strategies[1..];
      GetCloneStrategyFirst(tail, c);
      forall i | 1 <= i < |strategies| ensures strategies[i] == tail[i - 1] { }
      if GetCloneStrategy(tail, c).Some? {
        var i :| 0 <= i < |tail| && tail[i] == GetCloneStrategy(tail, c).value &&
          (forall j :: 0 <= j < i ==> !Support(tail[j], c));
        assert strategies[i + 1] == tail[i];
        assert forall j :: 0 <= j < i + 1 ==> !Support(strategies[j], c) by {
          forall j | 0 <= j < i + 1 ensures !Support(strategies[j], c) {
            if j > 0 { assert strategies[j] == tail[j - 1]; }
          }
        }
      }
    } else if strategies != [] {
      assert strategies[0] == GetCloneStrategy(strategies, c).value;
    }
  }

  /** Looking a class up in a chain made of two parts: the first part decides when one
      of its strategies supports the class, the second part otherwise. */
  lemma {:induction false} GetCloneStrategyAppend(front: seq<Strategy>, back: seq<Strategy>, c: ClassInfo)
    ensures GetCloneStrategy(front + back, c) ==
      (if GetCloneStrategy(front, c).Some? then GetCloneStrategy(front, c) else GetCloneStrategy(back, c))
  {
    if front == [] {
      assert front + back == back;
    } else {
      assert (front + back)[1..] == front[1..] + back;
      GetCloneStrategyAppend(front[1..], back, c);
    }
  }

  /** The built-in part of the chain, class by class: immutables first (so an
      unmodifiable map or a record is shared, not copied), then maps, collections,
      arrays, and reflection for everything else. */
  lemma BuiltInSelection(c: ClassInfo)
    ensures GetCloneStrategy(BuiltIns, c) == Some(
      if ImmutableSupport(c) then ImmutableStrategy
      else if IsMapClass(c) then MapStrategy
      else if IsCollectionClass(c) then CollectionStrategy
      else if c.isArray then ArrayStrategy
      else ReflectionStrategy)
  {
    var t1 := BuiltIns[1..];
    var t2 := t1[1..];
    var t3 := t2[1..];
    var t4 := t3[1..];
    assert t1 == [MapStrategy, CollectionStrategy, ArrayStrategy, ReflectionStrategy];
    assert t2 == [CollectionStrategy, ArrayStrategy, ReflectionStrategy];
    assert t3 == [ArrayStrategy, ReflectionStrategy];
    assert t4 == [ReflectionStrategy];
    assert GetCloneStrategy(t4, c) == Some(ReflectionStrategy);
    assert GetCloneStrategy(t3, c) == Some(if c.isArray then ArrayStrategy else ReflectionStrategy);
    assert GetCloneStrategy(t2, c) == Some(if IsCollectionClass(c) then CollectionStrategy
      else if c.isArray then ArrayStrategy else ReflectionStrategy);
    assert GetCloneStrategy(t1, c) == Some(if IsMapClass(c) then MapStrategy
      else if IsCollectionClass(c) then CollectionStrategy
      else if c.isArray then ArrayStrategy else ReflectionStrategy);
  }

  /**
   * Builder: collects user strategies, each new one in front of those registered
   * before it, and builds the cloner by appending the built-in strategies.
   */
  class Builder {
    var strategies: seq<Strategy>

    constructor()
      ensures strategies == []
    {
      strategies := [];
    }

    /** Builder.registerStrategy: inserts at the head of the chain. */
    method RegisterStrategy(s: Strategy)
      modifies this
      ensures strategies == [s] + old(strategies)
    {
      strategies := [s] + strategies;
    }

    /** Builder.build: appends the built-ins to the builder's own list and hands that
        list to the new cloner. */
    method Build() returns (cloner: DefaultCloner)
      modifies this
      ensures strategies == old(strategies) + BuiltIns
      ensures cloner.strategies == strategies
    {
      strategies := strategies + BuiltIns;
      cloner := DefaultCloner(strategies);
    }
  }

  /** A chain produced by a builder always finds a strategy: reflection supports every
      class, so getCloneStrategy never throws for such a cloner. */
  lemma {:induction false} BuiltChainTotal(registered: seq<Strategy>, c: ClassInfo)
    ensures GetCloneStrategy(registered + BuiltIns, c).Some?
  {
    GetCloneStrategyAppend(registered, BuiltIns, c);
    BuiltInSelection(c);
  }

  /** In a built chain, a registered strategy that supports the class takes precedence
      over every built-in one; when none does, the built-in selection applies. */
  lemma {:induction false} RegisteredTakePrecedence(registered: seq<Strategy>, c: ClassInfo)
    ensures GetCloneStrategy(registered + BuiltIns, c) ==
      (if GetCloneStrategy(registered, c).Some? then GetCloneStrategy(registered, c)
       else GetCloneStrategy(BuiltIns, c))
  {
    GetCloneStrategyAppend(registered, BuiltIns, c);
  }
}
