/**
 * CloneContext: the state of one deep-clone call (the cloner and the identity map
 * from origin objects to their copies), proceeding into an object graph and
 * dispatching to the strategies, whose copy operations are methods here because
 * they write into the context and into the heap.
 */
module CloneContexts {
  import opened Wrappers
  import opened CloneHeap
  import opened CloneHeapState
  import opened CloneStrategies
  import opened DefaultCloners
  import opened CloneSpec

  /** The exceptions a clone can raise. */
  datatype CloneError =
    | NoStrategyFound(cls: ClassName)       // getCloneStrategy found no supporting strategy
    | NoSuchConstructor(cls: ClassName)     // reflection could not instantiate the class
    | ReflectionFailure(cause: CloneError)  // ReflectionStrategy wraps whatever it caught

  /** What reaches the caller of proceed: the failed lookup, or a reflective copy's
      wrapped failure; map, collection and array copies pass nested failures on as
      they are. */
  predicate Propagated(e: CloneError) {
    e.NoStrategyFound? || e.ReflectionFailure?
  }

  class CloneContext {
    const cloner: DefaultCloner
    const classes: ClassTable
    const heap: Heap
    /** The heap as it was when the context was created. */
    ghost const origin: seq<Node>
    var visited: map<Ref, Ref>

    ghost function Env(): Env {
      CloneSpec.Env(origin, classes, cloner.strategies)
    }

    ghost predicate Valid()
      reads this, heap
    {
      WfEnv(Env()) && origin <= heap.nodes && VisitedOk(Env(), visited, |heap.nodes|)
    }

    /** The origin objects not yet visited; every registration removes one. */
    ghost function Unvisited(): set<Ref>
      reads this
    {
      set k | 0 <= k < |origin| && k !in visited
    }

    constructor(cloner: DefaultCloner, classes: ClassTable, heap: Heap)
      requires WfEnv(CloneSpec.Env(heap.nodes, classes, cloner.strategies))
      ensures this.cloner == cloner && this.classes == classes && this.heap == heap
      ensures origin == heap.nodes && visited == map[]
      ensures Valid()
    {
      this.cloner := cloner;
      this.classes := classes;
      this.heap := heap;
      this.origin := heap.nodes;
      this.visited := map[];
    }

    /** CloneContext.registerVisited */
    method RegisterVisited(original: Ref, copy: Ref)
      modifies this
      ensures visited == old(visited)[original := copy]
    {
      visited := visited[original := copy];
    }

    /**
     * CloneContext.proceed: null and instances of ignored classes become null, an
     * object already visited becomes its copy, anything else goes to the first
     * strategy supporting its class. On success the result is the image of `v`, and
     * every copy registered meanwhile is complete. It succeeds whenever every object
     * it reaches is clonable, that is, inside some set `S` as ClonableClosed states.
     */
    method Proceed(v: Value, ghost S: set<Ref>) returns (res: Result<Value, CloneError>)
      requires Valid() && RefBelow(v, |origin|)
      modifies this, heap
      decreases Unvisited(), 4
      ensures Valid() && Grew(old(visited), old(heap.nodes)) && Unvisited() <= old(Unvisited())
      ensures res.Success? ==> Settled(Env(), v, visited) && res.value == Img(Env(), v, visited)
      ensures res.Success? ==> AllDoneSince(Env(), old(visited).Keys, visited, heap.nodes)
      ensures v.Null? || Ignored(ClassAt(Env(), v.ref)) || v.ref in old(visited) ==>
        res == Success(Img(Env(), v, old(visited))) && visited == old(visited) && heap.nodes == old(heap.nodes)
      ensures v.Ptr? && !Ignored(ClassAt(Env(), v.ref)) && StrategyAt(Env(), v.ref).None? ==>
        res == Failure(NoStrategyFound(OriginNode(Env(), v.ref).cls))
      ensures res.Failure? ==> Propagated(res.error)
      ensures ClonableClosed(Env(), S) && ValueIn(v, S) ==> res.Success?
    {
      if v.Null? {
        return Success(Null);
      }
      var r := v.ref;
      var node := heap.nodes[r];
      assert node == origin[r];
      var c := ClassOf(classes, node.cls);
      if IgnoreCloneAnnotation in c.annotations {
        return Success(Null);
      }
      if r in visited {
        assert Copied(Env(), r);
        return Success(Ptr(visited[r]));
      }
      var strategy := GetCloneStrategy(cloner.strategies, c);
      match strategy
      case None =>
        res := Failure(NoStrategyFound(node.cls));
      case Some(ImmutableStrategy) =>
        res := Success(v);
      case Some(CustomStrategy(_, result)) =>
        res := Success(result);
      case Some(MapStrategy) =>
        res := MapCopy(r, S);
      case Some(CollectionStrategy) =>
        res := CollectionCopy(r, S);
      case Some(ArrayStrategy) =>
        res := ArrayCopy(r, S);
      case Some(ReflectionStrategy) =>
        res := ReflectionCopy(r, S);
    }

    /** The visited map only grew and nodes were only appended or written above `N0`. */
    ghost predicate Grew(V0: Visited, N0: seq<Node>)
      reads this, heap
    {
      Extends(visited, V0) && N0 <= heap.nodes
    }

    /** The state while the copy `d` of `r` is being filled: `r` was registered on
        top of `V0` when `d` was allocated just past `N0`, and every other copy
        registered since is complete. */
    ghost predicate Building(r: Ref, d: Ref, V0: Visited, N0: seq<Node>)
      reads this, heap
    {
      Valid() && Grew(V0, N0) && r < |origin| && r in visited && visited[r] == d &&
      d == |N0| < |heap.nodes| && AllDoneSince(Env(), V0.Keys + {r}, visited, heap.nodes)
    }

    /** Allocates the copy of `r` and registers it. */
    method StartCopy(r: Ref, n: Node) returns (d: Ref)
      requires Valid() && r < |origin| && r !in visited && Copied(Env(), r)
      modifies this, heap
      ensures Building(r, d, old(visited), old(heap.nodes)) && Unvisited() < old(Unvisited())
      ensures heap.nodes == old(heap.nodes) + [n]
    {
      RegisterOk(Env(), visited, heap.nodes, n, r);
      d := heap.Alloc(n);
      RegisterVisited(r, d);
      assert r in old(Unvisited()) && r !in Unvisited();
    }

    /** Writes new contents into the copy being built; other copies stay complete. */
    method WriteCopy(r: Ref, d: Ref, b: Body, ghost V0: Visited, ghost N0: seq<Node>)
      requires Building(r, d, V0, N0)
      modifies heap
      ensures Building(r, d, V0, N0) && heap.nodes == old(heap.nodes)[d := Node(old(heap.nodes)[d].cls, b)]
    {
      AllDoneWrite(Env(), V0.Keys + {r}, visited, heap.nodes, d, Node(heap.nodes[d].cls, b));
      heap.SetBody(d, b);
    }

    /** Ends a copy whose node now has its expected contents. */
    method FinishCopy(r: Ref, d: Ref, ghost V0: Visited, ghost N0: seq<Node>) returns (res: Result<Value, CloneError>)
      requires Building(r, d, V0, N0) && ChildrenSettled(Env(), r, visited)
      requires heap.nodes[d] == Expected(Env(), r, visited)
      ensures res == Success(Ptr(d)) && res.value == Img(Env(), Ptr(r), visited) && Settled(Env(), Ptr(r), visited)
      ensures AllDoneSince(Env(), V0.Keys, visited, heap.nodes)
    {
      assert Copied(Env(), r);
      AllDoneAdd(Env(), V0.Keys, r, visited, heap.nodes);
      res := Success(Ptr(d));
    }

    /** MapStrategy.copy */
    method MapCopy(r: Ref, ghost S: set<Ref>) returns (res: Result<Value, CloneError>)
      requires Valid() && r < |origin| && r !in visited
      requires !Ignored(ClassAt(Env(), r)) && StrategyAt(Env(), r) == Some(MapStrategy)
      modifies this, heap
      decreases Unvisited(), 3
      ensures Valid() && Grew(old(visited), old(heap.nodes))
      ensures res.Success? ==> Settled(Env(), Ptr(r), visited) && res.value == Img(Env(), Ptr(r), visited)
      ensures res.Success? ==> AllDoneSince(Env(), old(visited).Keys, visited, heap.nodes)
      ensures res.Failure? ==> Propagated(res.error)
      ensures ClonableClosed(Env(), S) && r in S ==> res.Success?
    {
      var node := heap.nodes[r];
      assert node == origin[r];
      if ClonableClosed(Env(), S) && r in S {
        ClosedChildren(Env(), S, r);
      }
      var d := StartCopy(r, Node(MapDestClass(ClassOf(classes, node.cls)), Entries([])));
      var err := CopyEntries(r, d, old(visited), old(heap.nodes), old(Unvisited()), S);
      if err.Some? {
        res := Failure(err.value);
      } else {
        res := FinishCopy(r, d, old(visited), old(heap.nodes));
      }
    }

    /** The loop of MapStrategy.copy: every entry, in order, into the copy `d`. */
    method CopyEntries(r: Ref, d: Ref, ghost V0: Visited, ghost N0: seq<Node>, ghost U0: set<Ref>, ghost S: set<Ref>)
      returns (err: Option<CloneError>)
      requires Building(r, d, V0, N0) && Unvisited() < U0
      requires heap.nodes[d] == Node(MapDestClass(ClassAt(Env(), r)), Entries([]))
      modifies this, heap
      decreases U0, 1
      ensures Valid() && Grew(V0, N0)
      ensures err.None? ==> Building(r, d, V0, N0)
      ensures err.Some? ==> Propagated(err.value)
      ensures err.None? ==> heap.nodes[d] == Node(MapDestClass(ClassAt(Env(), r)),
        Entries(PutAll(ImgPairs(Env(), EntriesOf(origin[r].body), visited))))
      ensures err.None? ==> PairsSettled(Env(), EntriesOf(origin[r].body), visited)
      ensures ClonableClosed(Env(), S) && PairsIn(EntriesOf(origin[r].body), S) ==> err.None?
    {
      var entries := EntriesOf(heap.nodes[r].body);
      assert heap.nodes[r] == origin[r];
      var i := 0;
      while i < |entries|
        invariant 0 <= i <= |entries| && Building(r, d, V0, N0)
        invariant Unvisited() < U0
        invariant heap.nodes[d] == Node(MapDestClass(ClassAt(Env(), r)),
          Entries(PutAll(ImgPairs(Env(), EntriesOf(origin[r].body)[..i], visited))))
        invariant PairsSettled(Env(), EntriesOf(origin[r].body)[..i], visited)
      {
        err := CopyEntry(r, d, i, V0, N0, U0, S);
        if err.Some? {
          return;
        }
        i := i + 1;
      }
      assert entries[..i] == entries;
      err := None;
    }

    /** One pass of the loop of MapStrategy.copy: clones the key and the value of entry
        `i` and puts them into the copy. */
    method CopyEntry(r: Ref, d: Ref, i: nat, ghost V0: Visited, ghost N0: seq<Node>, ghost U0: set<Ref>, ghost S: set<Ref>)
      returns (err: Option<CloneError>)
      requires Building(r, d, V0, N0) && Unvisited() < U0
      requires i < |EntriesOf(origin[r].body)|
      requires heap.nodes[d] == Node(MapDestClass(ClassAt(Env(), r)),
        Entries(PutAll(ImgPairs(Env(), EntriesOf(origin[r].body)[..i], visited))))
      requires PairsSettled(Env(), EntriesOf(origin[r].body)[..i], visited)
      modifies this, heap
      decreases U0, 0
      ensures Valid() && Grew(V0, N0)
      ensures err.None? ==> Building(r, d, V0, N0) && Unvisited() < U0
      ensures err.None? ==> heap.nodes[d] == Node(MapDestClass(ClassAt(Env(), r)),
        Entries(PutAll(ImgPairs(Env(), EntriesOf(origin[r].body)[..i + 1], visited))))
      ensures err.None? ==> PairsSettled(Env(), EntriesOf(origin[r].body)[..i + 1], visited)
      ensures err.Some? ==> Propagated(err.value)
      ensures ClonableClosed(Env(), S) && PairsIn(EntriesOf(origin[r].body), S) ==> err.None?
    {
      var entries := EntriesOf(heap.nodes[r].body);
      assert heap.nodes[r] == origin[r];
      ClosedAt(origin, r);
      assert RefBelow(entries[i].0, |origin|) && RefBelow(entries[i].1, |origin|);
      ghost var V1, N1 := visited, heap.nodes;
      var key := Proceed(entries[i].0, S);
      GrowChain(V0, N0, V1, N1, visited, heap.nodes);
      if key.Failure? {
        err := Some(key.error);
      } else {
        AllDoneGrow(Env(), V0.Keys + {r}, V1, N1, visited, heap.nodes);
        ghost var V2, N2 := visited, heap.nodes;
        var value := Proceed(entries[i].1, S);
        GrowChain(V0, N0, V2, N2, visited, heap.nodes);
        if value.Failure? {
          err := Some(value.error);
        } else {
          AllDoneGrow(Env(), V0.Keys + {r}, V2, N2, visited, heap.nodes);
          ImgStable(Env(), entries[i].0, V2, visited);
          PairsStep(Env(), entries, i, V1, visited);
          var dest := EntriesOf(heap.nodes[d].body);
          WriteCopy(r, d, Entries(MapPut(dest, key.value, value.value)), V0, N0);
          err := None;
        }
      }
    }

    /** CollectionStrategy.copy */
    method CollectionCopy(r: Ref, ghost S: set<Ref>) returns (res: Result<Value, CloneError>)
      requires Valid() && r < |origin| && r !in visited
      requires !Ignored(ClassAt(Env(), r)) && StrategyAt(Env(), r) == Some(CollectionStrategy)
      modifies this, heap
      decreases Unvisited(), 3
      ensures Valid() && Grew(old(visited), old(heap.nodes))
      ensures res.Success? ==> Settled(Env(), Ptr(r), visited) && res.value == Img(Env(), Ptr(r), visited)
      ensures res.Success? ==> AllDoneSince(Env(), old(visited).Keys, visited, heap.nodes)
      ensures res.Failure? ==> Propagated(res.error)
      ensures ClonableClosed(Env(), S) && r in S ==> res.Success?
    {
      var node := heap.nodes[r];
      assert node == origin[r];
      if ClonableClosed(Env(), S) && r in S {
        ClosedChildren(Env(), S, r);
      }
      var d := StartCopy(r, Node(CollectionDestClass(ClassOf(classes, node.cls)), Elements([])));
      var err := CopyItems(r, d, old(visited), old(heap.nodes), old(Unvisited()), S);
      if err.Some? {
        res := Failure(err.value);
      } else {
        res := FinishCopy(r, d, old(visited), old(heap.nodes));
      }
    }

    /** The loop of CollectionStrategy.copy: every item, in order, into the copy `d`. */
    method CopyItems(r: Ref, d: Ref, ghost V0: Visited, ghost N0: seq<Node>, ghost U0: set<Ref>, ghost S: set<Ref>)
      returns (err: Option<CloneError>)
      requires Building(r, d, V0, N0) && Unvisited() < U0
      requires heap.nodes[d] == Node(CollectionDestClass(ClassAt(Env(), r)), Elements([]))
      modifies this, heap
      decreases U0, 1
      ensures Valid() && Grew(V0, N0)
      ensures err.None? ==> Building(r, d, V0, N0)
      ensures err.Some? ==> Propagated(err.value)
      ensures err.None? ==> heap.nodes[d] == Node(CollectionDestClass(ClassAt(Env(), r)),
        Elements(AddAll(ImgSeq(Env(), ItemsOf(origin[r].body), visited), IsSetClass(ClassAt(Env(), r)))))
      ensures err.None? ==> SeqSettled(Env(), ItemsOf(origin[r].body), visited)
      ensures ClonableClosed(Env(), S) && SeqIn(ItemsOf(origin[r].body), S) ==> err.None?
    {
      var items := ItemsOf(heap.nodes[r].body);
      assert heap.nodes[r] == origin[r];
      var i := 0;
      while i < |items|
        invariant 0 <= i <= |items| && Building(r, d, V0, N0)
        invariant Unvisited() < U0
        invariant heap.nodes[d] == Node(CollectionDestClass(ClassAt(Env(), r)),
          Elements(AddAll(ImgSeq(Env(), ItemsOf(origin[r].body)[..i], visited), IsSetClass(ClassAt(Env(), r)))))
        invariant SeqSettled(Env(), ItemsOf(origin[r].body)[..i], visited)
      {
        err := CopyItem(r, d, i, V0, N0, U0, S);
        if err.Some? {
          return;
        }
        i := i + 1;
      }
      assert items[..i] == items;
      err := None;
    }

    /** One pass of the loop of CollectionStrategy.copy: clones item `i` and adds it. */
    method CopyItem(r: Ref, d: Ref, i: nat, ghost V0: Visited, ghost N0: seq<Node>, ghost U0: set<Ref>, ghost S: set<Ref>)
      returns (err: Option<CloneError>)
      requires Building(r, d, V0, N0) && Unvisited() < U0
      requires i < |ItemsOf(origin[r].body)|
      requires heap.nodes[d] == Node(CollectionDestClass(ClassAt(Env(), r)),
        Elements(AddAll(ImgSeq(Env(), ItemsOf(origin[r].body)[..i], visited), IsSetClass(ClassAt(Env(), r)))))
      requires SeqSettled(Env(), ItemsOf(origin[r].body)[..i], visited)
      modifies this, heap
      decreases U0, 0
      ensures Valid() && Grew(V0, N0)
      ensures err.None? ==> Building(r, d, V0, N0) && Unvisited() < U0
      ensures err.None? ==> heap.nodes[d] == Node(CollectionDestClass(ClassAt(Env(), r)),
        Elements(AddAll(ImgSeq(Env(), ItemsOf(origin[r].body)[..i + 1], visited), IsSetClass(ClassAt(Env(), r)))))
      ensures err.None? ==> SeqSettled(Env(), ItemsOf(origin[r].body)[..i + 1], visited)
      ensures err.Some? ==> Propagated(err.value)
      ensures ClonableClosed(Env(), S) && SeqIn(ItemsOf(origin[r].body), S) ==> err.None?
    {
      var items := ItemsOf(heap.nodes[r].body);
      assert heap.nodes[r] == origin[r];
      ClosedAt(origin, r);
      assert RefBelow(items[i], |origin|);
      var isSet := IsSetClass(ClassOf(classes, heap.nodes[r].cls));
      ghost var V1, N1 := visited, heap.nodes;
      var item := Proceed(items[i], S);
      GrowChain(V0, N0, V1, N1, visited, heap.nodes);
      if item.Failure? {
        err := Some(item.error);
      } else {
        AllDoneGrow(Env(), V0.Keys + {r}, V1, N1, visited, heap.nodes);
        SeqStep(Env(), items, i, V1, visited, isSet);
        var dest := ItemsOf(heap.nodes[d].body);
        WriteCopy(r, d, Elements(CollectionAdd(dest, item.value, isSet)), V0, N0);
        err := None;
      }
    }

    /** ArrayStrategy.copy: a new array of the same class and length, filled slot by slot. */
    method ArrayCopy(r: Ref, ghost S: set<Ref>) returns (res: Result<Value, CloneError>)
      requires Valid() && r < |origin| && r !in visited
      requires !Ignored(ClassAt(Env(), r)) && StrategyAt(Env(), r) == Some(ArrayStrategy)
      modifies this, heap
      decreases Unvisited(), 3
      ensures Valid() && Grew(old(visited), old(heap.nodes))
      ensures res.Success? ==> Settled(Env(), Ptr(r), visited) && res.value == Img(Env(), Ptr(r), visited)
      ensures res.Success? ==> AllDoneSince(Env(), old(visited).Keys, visited, heap.nodes)
      ensures res.Failure? ==> Propagated(res.error)
      ensures ClonableClosed(Env(), S) && r in S ==> res.Success?
    {
      var node := heap.nodes[r];
      assert node == origin[r];
      if ClonableClosed(Env(), S) && r in S {
        ClosedChildren(Env(), S, r);
      }
      var d := StartCopy(r, Node(node.cls, Slots(seq(|SlotsOf(node.body)|, _ => Null))));
      var err := CopySlots(r, d, old(visited), old(heap.nodes), old(Unvisited()), S);
      if err.Some? {
        res := Failure(err.value);
      } else {
        res := FinishCopy(r, d, old(visited), old(heap.nodes));
      }
    }

    /** The loop of ArrayStrategy.copy: every slot, in order, into the copy `d`. */
    method CopySlots(r: Ref, d: Ref, ghost V0: Visited, ghost N0: seq<Node>, ghost U0: set<Ref>, ghost S: set<Ref>)
      returns (err: Option<CloneError>)
      requires Building(r, d, V0, N0) && Unvisited() < U0
      requires heap.nodes[d] == Node(origin[r].cls, Slots(seq(|SlotsOf(origin[r].body)|, _ => Null)))
      modifies this, heap
      decreases U0, 1
      ensures Valid() && Grew(V0, N0)
      ensures err.None? ==> Building(r, d, V0, N0)
      ensures err.Some? ==> Propagated(err.value)
      ensures err.None? ==> heap.nodes[d] == Node(origin[r].cls, Slots(ImgSeq(Env(), SlotsOf(origin[r].body), visited)))
      ensures err.None? ==> SeqSettled(Env(), SlotsOf(origin[r].body), visited)
      ensures ClonableClosed(Env(), S) && SeqIn(SlotsOf(origin[r].body), S) ==> err.None?
    {
      var slots := SlotsOf(heap.nodes[r].body);
      assert heap.nodes[r] == origin[r];
      assert ImgSeq(Env(), slots[..0], visited) + seq(|slots| - 0, _ => Null) == seq(|slots|, _ => Null);
      var i := 0;
      while i < |slots|
        invariant 0 <= i <= |slots| && Building(r, d, V0, N0)
        invariant Unvisited() < U0
        invariant heap.nodes[d] == Node(origin[r].cls, Slots(ImgSeq(Env(), SlotsOf(origin[r].body)[..i], visited) +
          seq(|SlotsOf(origin[r].body)| - i, _ => Null)))
        invariant SeqSettled(Env(), SlotsOf(origin[r].body)[..i], visited)
      {
        err := CopySlot(r, d, i, V0, N0, U0, S);
        if err.Some? {
          return;
        }
        i := i + 1;
      }
      assert slots[..i] == slots;
      assert ImgSeq(Env(), slots, visited) + seq(0, _ => Null) == ImgSeq(Env(), slots, visited);
      err := None;
    }

    /** One pass of the loop of ArrayStrategy.copy: clones slot `i` into the copy. */
    method CopySlot(r: Ref, d: Ref, i: nat, ghost V0: Visited, ghost N0: seq<Node>, ghost U0: set<Ref>, ghost S: set<Ref>)
      returns (err: Option<CloneError>)
      requires Building(r, d, V0, N0) && Unvisited() < U0
      requires i < |SlotsOf(origin[r].body)|
      requires heap.nodes[d] == Node(origin[r].cls, Slots(ImgSeq(Env(), SlotsOf(origin[r].body)[..i], visited) +
        seq(|SlotsOf(origin[r].body)| - i, _ => Null)))
      requires SeqSettled(Env(), SlotsOf(origin[r].body)[..i], visited)
      modifies this, heap
      decreases U0, 0
      ensures Valid() && Grew(V0, N0)
      ensures err.None? ==> Building(r, d, V0, N0) && Unvisited() < U0
      ensures err.None? ==> heap.nodes[d] == Node(origin[r].cls, Slots(ImgSeq(Env(), SlotsOf(origin[r].body)[..i + 1], visited) +
        seq(|SlotsOf(origin[r].body)| - (i + 1), _ => Null)))
      ensures err.None? ==> SeqSettled(Env(), SlotsOf(origin[r].body)[..i + 1], visited)
      ensures err.Some? ==> Propagated(err.value)
      ensures ClonableClosed(Env(), S) && SeqIn(SlotsOf(origin[r].body), S) ==> err.None?
    {
      var slots := SlotsOf(heap.nodes[r].body);
      assert heap.nodes[r] == origin[r];
      ClosedAt(origin, r);
      assert RefBelow(slots[i], |origin|);
      ghost var V1, N1 := visited, heap.nodes;
      var value := Proceed(slots[i], S);
      GrowChain(V0, N0, V1, N1, visited, heap.nodes);
      if value.Failure? {
        err := Some(value.error);
      } else {
        AllDoneGrow(Env(), V0.Keys + {r}, V1, N1, visited, heap.nodes);
        SeqStep(Env(), slots, i, V1, visited, false);
        var dest := SlotsOf(heap.nodes[d].body);
        SlotWrite(ImgSeq(Env(), slots[..i], V1), value.value, |slots| - i);
        WriteCopy(r, d, Slots(dest[i := value.value]), V0, N0);
        err := None;
      }
    }

    /**
     * ReflectionStrategy.copy: a fresh instance through the no-argument constructor,
     * then, class by class up the superclass chain until java.lang.Object, every
     * eligible declared field set to the clone of the origin's value. Any failure,
     * including one from a nested clone, is rethrown wrapped.
     */
    method ReflectionCopy(r: Ref, ghost S: set<Ref>) returns (res: Result<Value, CloneError>)
      requires Valid() && r < |origin| && r !in visited
      requires !Ignored(ClassAt(Env(), r)) && StrategyAt(Env(), r) == Some(ReflectionStrategy)
      modifies this, heap
      decreases Unvisited(), 3
      ensures Valid() && Grew(old(visited), old(heap.nodes))
      ensures res.Success? ==> Settled(Env(), Ptr(r), visited) && res.value == Img(Env(), Ptr(r), visited)
      ensures res.Success? ==> AllDoneSince(Env(), old(visited).Keys, visited, heap.nodes)
      ensures !ClassAt(Env(), r).noArgConstructor ==>
        res == Failure(ReflectionFailure(NoSuchConstructor(OriginNode(Env(), r).cls)))
      ensures res.Failure? ==> res.error.ReflectionFailure?
      ensures ClonableClosed(Env(), S) && r in S ==> res.Success?
    {
      var node := heap.nodes[r];
      assert node == origin[r];
      var c := ClassOf(classes, node.cls);
      if !c.noArgConstructor {
        return Failure(ReflectionFailure(NoSuchConstructor(node.cls)));
      }
      var d := StartCopy(r, Node(node.cls, Fields(map[])));
      var err := CopyHierarchy(r, d, old(visited), old(heap.nodes), old(Unvisited()), S);
      if err.Some? {
        return Failure(ReflectionFailure(err.value));
      }
      ReflectionExpected(Env(), r, visited);
      res := FinishCopy(r, d, old(visited), old(heap.nodes));
    }

    /** The outer loop of ReflectionStrategy.copy: the levels of the superclass chain of
        the origin's class, from the class itself up to, not including, java.lang.Object. */
    method CopyHierarchy(r: Ref, d: Ref, ghost V0: Visited, ghost N0: seq<Node>, ghost U0: set<Ref>, ghost S: set<Ref>)
      returns (err: Option<CloneError>)
      requires Building(r, d, V0, N0) && Unvisited() < U0
      requires heap.nodes[d] == Node(origin[r].cls, Fields(map[]))
      modifies this, heap
      decreases U0, 2
      ensures Valid() && Grew(V0, N0)
      ensures err.None? ==> Building(r, d, V0, N0)
      ensures err.None? ==> heap.nodes[d] == Node(origin[r].cls,
        Fields(CopyFields(Env(), origin[r].body, WalkedFields(ClassAt(Env(), r)), visited)))
      ensures err.None? ==> FieldsSettled(Env(), origin[r].body, WalkedFields(ClassAt(Env(), r)), visited)
      ensures ClonableClosed(Env(), S) && FieldsIn(origin[r].body, ClassAt(Env(), r).lineage, S) ==> err.None?
    {
      var lineage := ClassOf(classes, heap.nodes[r].cls).lineage;
      assert heap.nodes[r] == origin[r];
      ghost var walk := WalkLength(lineage);
      var li := 0;
      while li < |lineage| && lineage[li].name != ObjectClass
        invariant 0 <= li <= walk && Building(r, d, V0, N0)
        invariant Unvisited() < U0
        invariant heap.nodes[d] == Node(origin[r].cls, Fields(CopyFields(Env(), origin[r].body, FlatFields(lineage[..li]), visited)))
        invariant FieldsSettled(Env(), origin[r].body, FlatFields(lineage[..li]), visited)
      {
        WalkContinues(lineage, li);
        FlatFieldsStep(lineage, li);
        err := CopyLevel(r, d, lineage[li], FlatFields(lineage[..li]), V0, N0, U0, S);
        if err.Some? {
          return;
        }
        li := li + 1;
      }
      WalkStops(lineage, li);
      err := None;
    }

    /** One pass of the outer loop of ReflectionStrategy.copy: the declared fields of
        one class of the superclass chain, in order. */
    method CopyLevel(r: Ref, d: Ref, level: ClassLevel, ghost before: seq<(FieldKey, FieldInfo)>,
                     ghost V0: Visited, ghost N0: seq<Node>, ghost U0: set<Ref>, ghost S: set<Ref>)
      returns (err: Option<CloneError>)
      requires Building(r, d, V0, N0) && Unvisited() < U0
      requires heap.nodes[d] == Node(origin[r].cls, Fields(CopyFields(Env(), origin[r].body, before, visited)))
      requires FieldsSettled(Env(), origin[r].body, before, visited)
      modifies this, heap
      decreases U0, 1
      ensures Valid() && Grew(V0, N0)
      ensures err.None? ==> Building(r, d, V0, N0) && Unvisited() < U0
      ensures err.None? ==> heap.nodes[d] == Node(origin[r].cls,
        Fields(CopyFields(Env(), origin[r].body, before + LevelFields(level), visited)))
      ensures err.None? ==> FieldsSettled(Env(), origin[r].body, before + LevelFields(level), visited)
      ensures ClonableClosed(Env(), S) && LevelIn(origin[r].body, level, S) ==> err.None?
    {
      var fi := 0;
      assert before + LevelFields(level)[..0] == before;
      while fi < |level.declaredFields|
        invariant 0 <= fi <= |level.declaredFields| && Building(r, d, V0, N0)
        invariant Unvisited() < U0
        invariant heap.nodes[d] == Node(origin[r].cls, Fields(CopyFields(Env(), origin[r].body, before + LevelFields(level)[..fi], visited)))
        invariant FieldsSettled(Env(), origin[r].body, before + LevelFields(level)[..fi], visited)
      {
        err := CopyField(r, d, level, fi, before, V0, N0, U0, S);
        if err.Some? {
          return;
        }
        fi := fi + 1;
      }
      assert LevelFields(level)[..fi] == LevelFields(level);
      err := None;
    }

    /** One pass of the inner loop of ReflectionStrategy.copy: field `fi` declared by
        `level` is skipped when not eligible, otherwise set to the clone of its value. */
    method CopyField(r: Ref, d: Ref, level: ClassLevel, fi: nat, ghost before: seq<(FieldKey, FieldInfo)>,
                     ghost V0: Visited, ghost N0: seq<Node>, ghost U0: set<Ref>, ghost S: set<Ref>)
      returns (err: Option<CloneError>)
      requires Building(r, d, V0, N0) && Unvisited() < U0
      requires fi < |level.declaredFields|
      requires heap.nodes[d] == Node(origin[r].cls, Fields(CopyFields(Env(), origin[r].body, before + LevelFields(level)[..fi], visited)))
      requires FieldsSettled(Env(), origin[r].body, before + LevelFields(level)[..fi], visited)
      modifies this, heap
      decreases U0, 0
      ensures Valid() && Grew(V0, N0)
      ensures err.None? ==> Building(r, d, V0, N0) && Unvisited() < U0
      ensures err.None? ==> heap.nodes[d] == Node(origin[r].cls,
        Fields(CopyFields(Env(), origin[r].body, before + LevelFields(level)[..fi + 1], visited)))
      ensures err.None? ==> FieldsSettled(Env(), origin[r].body, before + LevelFields(level)[..fi + 1], visited)
      ensures ClonableClosed(Env(), S) && LevelIn(origin[r].body, level, S) ==> err.None?
    {
      var body := heap.nodes[r].body;
      assert heap.nodes[r] == origin[r];
      var field := level.declaredFields[fi];
      var key := FieldKey(level.name, field.name);
      ghost var done := before + LevelFields(level)[..fi];
      assert done + [(key, field)] == before + LevelFields(level)[..fi + 1];
      if EligibleField(field) {
        ClosedAt(origin, r);
      assert RefBelow(FieldValue(body, key), |origin|);
        ghost var V1, N1 := visited, heap.nodes;
        var value := Proceed(FieldValue(body, key), S);
        GrowChain(V0, N0, V1, N1, visited, heap.nodes);
        if value.Failure? {
          return Some(value.error);
        }
        AllDoneGrow(Env(), V0.Keys + {r}, V1, N1, visited, heap.nodes);
        FieldsStep(Env(), body, done, key, field, V1, visited);
        var dest := FieldsOf(heap.nodes[d].body);
        WriteCopy(r, d, Fields(dest[key := value.value]), V0, N0);
      } else {
        FieldsStep(Env(), body, done, key, field, visited, visited);
      }
      err := None;
    }
  }

  /** What a reflective copy must hold once every walked field is copied. */
  lemma ReflectionExpected(env: Env, r: Ref, V: Visited)
    requires StrategyAt(env, r) == Some(ReflectionStrategy)
    ensures Expected(env, r, V) == Node(OriginNode(env, r).cls,
      Fields(CopyFields(env, OriginNode(env, r).body, WalkedFields(ClassAt(env, r)), V)))
    ensures ChildrenSettled(env, r, V) == FieldsSettled(env, OriginNode(env, r).body, WalkedFields(ClassAt(env, r)), V)
  {
  }

  /** One more entry of a map copy: the images and settledness of the first `i`
      entries carry over to a larger visited map, extended by entry `i`. */
  lemma PairsStep(env: Env, ps: seq<(Value, Value)>, i: nat, V: Visited, W: Visited)
    requires i < |ps| && PairsSettled(env, ps[..i], V) && Extends(W, V)
    requires Settled(env, ps[i].0, W) && Settled(env, ps[i].1, W)
    ensures PairsSettled(env, ps[..i + 1], W)
    ensures PutAll(ImgPairs(env, ps[..i + 1], W)) ==
      MapPut(PutAll(ImgPairs(env, ps[..i], V)), Img(env, ps[i].0, W), Img(env, ps[i].1, W))
  {
    var prefix, next := ps[..i], ImgPairs(env, ps[..i + 1], W);
    PairsStable(env, prefix, V, W);
    PairsSnoc(env, ps, i, W);
    assert next[..i] == ImgPairs(env, prefix, W);
    PutAllSnoc(next);
  }

  /** Settled pairs stay settled, with the same images, in a larger visited map. */
  lemma PairsStable(env: Env, ps: seq<(Value, Value)>, V: Visited, W: Visited)
    requires PairsSettled(env, ps, V) && Extends(W, V)
    ensures PairsSettled(env, ps, W) && ImgPairs(env, ps, W) == ImgPairs(env, ps, V)
  {
    forall j | 0 <= j < |ps|
      ensures Settled(env, ps[j].0, W) && Settled(env, ps[j].1, W)
      ensures ImgPairs(env, ps, W)[j] == ImgPairs(env, ps, V)[j]
    {
      ImgStable(env, ps[j].0, V, W);
      ImgStable(env, ps[j].1, V, W);
    }
  }

  /** The first `i + 1` pairs: the first `i` and pair `i`. */
  lemma PairsSnoc(env: Env, ps: seq<(Value, Value)>, i: nat, W: Visited)
    requires i < |ps| && PairsSettled(env, ps[..i], W)
    requires Settled(env, ps[i].0, W) && Settled(env, ps[i].1, W)
    ensures PairsSettled(env, ps[..i + 1], W)
    ensures ImgPairs(env, ps[..i + 1], W)[..i] == ImgPairs(env, ps[..i], W)
  {
    var longer, shorter := ps[..i + 1], ps[..i];
    forall j | 0 <= j < i
      ensures Settled(env, longer[j].0, W) && Settled(env, longer[j].1, W)
    {
      assert longer[j] == shorter[j];
    }
    assert longer[i] == ps[i];
  }

  lemma PutAllSnoc(ps: seq<(Value, Value)>)
    requires ps != []
    ensures PutAll(ps) == MapPut(PutAll(ps[..|ps| - 1]), ps[|ps| - 1].0, ps[|ps| - 1].1)
  {
  }

  /** One more item or slot of a collection or array copy. */
  lemma SeqStep(env: Env, xs: seq<Value>, i: nat, V: Visited, W: Visited, isSet: bool)
    requires i < |xs| && SeqSettled(env, xs[..i], V) && Extends(W, V) && Settled(env, xs[i], W)
    ensures SeqSettled(env, xs[..i + 1], W)
    ensures ImgSeq(env, xs[..i + 1], W) == ImgSeq(env, xs[..i], V) + [Img(env, xs[i], W)]
    ensures AddAll(ImgSeq(env, xs[..i + 1], W), isSet) ==
      CollectionAdd(AddAll(ImgSeq(env, xs[..i], V), isSet), Img(env, xs[i], W), isSet)
  {
    forall j | 0 <= j < i ensures Settled(env, xs[j], W) && Img(env, xs[j], W) == Img(env, xs[j], V) {
      assert xs[..i][j] == xs[j];
      ImgStable(env, xs[j], V, W);
    }
    var next := ImgSeq(env, xs[..i + 1], W);
    assert next[..i] == ImgSeq(env, xs[..i], V);
  }

  /** Filling the first unfilled slot of an array whose other unfilled slots hold null. */
  lemma SlotWrite(filled: seq<Value>, v: Value, rest: nat)
    requires rest > 0
    ensures (filled + seq(rest, _ => Null))[|filled| := v] == filled + [v] + seq(rest - 1, _ => Null)
  {
  }

  /** One more declared field of a reflective copy. */
  lemma FieldsStep(env: Env, b: Body, done: seq<(FieldKey, FieldInfo)>, key: FieldKey, field: FieldInfo,
                   V: Visited, W: Visited)
    requires FieldsSettled(env, b, done, V) && Extends(W, V)
    requires EligibleField(field) ==> Settled(env, FieldValue(b, key), W)
    ensures FieldsSettled(env, b, done + [(key, field)], W)
    ensures CopyFields(env, b, done + [(key, field)], W) ==
      (if EligibleField(field) then CopyFields(env, b, done, V)[key := Img(env, FieldValue(b, key), W)]
       else CopyFields(env, b, done, V))
  {
    CopyFieldsStable(env, b, done, V, W);
    var all := done + [(key, field)];
    assert all[..|all| - 1] == done;
  }
}
