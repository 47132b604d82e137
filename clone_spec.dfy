/**
 * What a deep clone is supposed to produce, stated over the heap as it was before
 * cloning (the origin) and the visited map (origin object to its copy). `Img` is
 * the value a reference is replaced by in a copy; `Expected` is the node a
 * registering strategy builds for an origin object once all its children are
 * settled.
 */
module CloneSpec {
  import opened Wrappers
  import opened CloneHeap
  import opened CloneStrategies
  import opened DefaultCloners

  /** The fixed parameters of one clone run. */
  datatype Env = Env(origin: seq<Node>, classes: ClassTable, strategies: seq<Strategy>)

  type Visited = map<Ref, Ref>

  /** The origin's class table names each class by its own name, every reference in the
      origin points into it, and user strategies return null or origin objects. */
  predicate WfEnv(env: Env) {
    ClosedHeap(env.origin) &&
    (forall name :: name in env.classes ==> env.classes[name].name == name) &&
    (forall i :: 0 <= i < |env.strategies| && env.strategies[i].CustomStrategy? ==>
      RefBelow(env.strategies[i].result, |env.origin|))
  }

  function OriginNode(env: Env, r: Ref): Node {
    if r < |env.origin| then env.origin[r] else Node("", Atom(""))
  }

  function ClassAt(env: Env, r: Ref): ClassInfo {
    ClassOf(env.classes, OriginNode(env, r).cls)
  }

  /** CloneContext.ignoreCloneClass: the runtime class itself declares @IgnoreClone. */
  predicate Ignored(c: ClassInfo) {
    IgnoreCloneAnnotation in c.annotations
  }

  function StrategyAt(env: Env, r: Ref): Option<Strategy> {
    GetCloneStrategy(env.strategies, ClassAt(env, r))
  }

  /** The origin object is cloned by a strategy that creates and registers a copy. */
  predicate Copied(env: Env, r: Ref) {
    !Ignored(ClassAt(env, r)) && StrategyAt(env, r).Some? && Registers(StrategyAt(env, r).value)
  }

  /** `V` extends `W`: every pair of `W` is in `V`. */
  predicate Extends(V: Visited, W: Visited) {
    forall k :: k in W ==> k in V && V[k] == W[k]
  }

  /** The visited map of a run: origin objects that were copied, each to its own node
      allocated after the origin and below `n`. */
  predicate VisitedOk(env: Env, V: Visited, n: nat) {
    (forall k :: k in V ==> k < |env.origin| && |env.origin| <= V[k] < n) &&
    (forall k {:trigger Copied(env, k)} :: k in V ==> Copied(env, k)) &&
    (forall k, k' :: k in V && k' in V && k != k' ==> V[k] != V[k'])
  }

  /** The image of `v` is determined: null, ignored, shared, user-supplied, or already
      registered. A class no strategy supports is never settled. */
  predicate Settled(env: Env, v: Value, V: Visited) {
    v.Null? || Ignored(ClassAt(env, v.ref)) ||
    (StrategyAt(env, v.ref).Some? && (Registers(StrategyAt(env, v.ref).value) ==> v.ref in V))
  }

  /** The value that stands for `v` in a copy: null for null and for ignored classes,
      `v` itself for immutables, the fixed result of a user strategy, and the
      registered copy otherwise. */
  function Img(env: Env, v: Value, V: Visited): Value {
    if v.Null? || Ignored(ClassAt(env, v.ref)) then Null
    else match StrategyAt(env, v.ref)
      case None => Null
      case Some(s) =>
        if Registers(s) then (if v.ref in V then Ptr(V[v.ref]) else Null)
        else if s.CustomStrategy? then s.result
        else v
  }

  lemma ImgStable(env: Env, v: Value, V: Visited, W: Visited)
    requires Settled(env, v, V) && Extends(W, V)
    ensures Settled(env, v, W) && Img(env, v, W) == Img(env, v, V)
  {
  }

  function ImgSeq(env: Env, xs: seq<Value>, V: Visited): (r: seq<Value>)
    ensures |r| == |xs| && forall i :: 0 <= i < |xs| ==> r[i] == Img(env, xs[i], V)
  {
    seq(|xs|, i requires 0 <= i < |xs| => Img(env, xs[i], V))
  }

  function ImgPairs(env: Env, ps: seq<(Value, Value)>, V: Visited): (r: seq<(Value, Value)>)
    ensures |r| == |ps| && forall i :: 0 <= i < |ps| ==> r[i] == (Img(env, ps[i].0, V), Img(env, ps[i].1, V))
  {
    seq(|ps|, i requires 0 <= i < |ps| => (Img(env, ps[i].0, V), Img(env, ps[i].1, V)))
  }

  predicate SeqSettled(env: Env, xs: seq<Value>, V: Visited) {
    forall i {:trigger Settled(env, xs[i], V)} :: 0 <= i < |xs| ==> Settled(env, xs[i], V)
  }

  predicate PairsSettled(env: Env, ps: seq<(Value, Value)>, V: Visited) {
    forall i {:trigger Settled(env, ps[i].0, V)} {:trigger Settled(env, ps[i].1, V)} ::
      0 <= i < |ps| ==> Settled(env, ps[i].0, V) && Settled(env, ps[i].1, V)
  }

  /** The eligible fields among `keys` hold settled values in `b`. */
  predicate FieldsSettled(env: Env, b: Body, keys: seq<(FieldKey, FieldInfo)>, V: Visited) {
    forall i {:trigger Settled(env, FieldValue(b, keys[i].0), V)} ::
      0 <= i < |keys| && EligibleField(keys[i].1) ==> Settled(env, FieldValue(b, keys[i].0), V)
  }

  /** Putting the pairs, in order, into an empty map. */
  function PutAll(ps: seq<(Value, Value)>): seq<(Value, Value)> {
    if ps == [] then [] else MapPut(PutAll(ps[..|ps| - 1]), ps[|ps| - 1].0, ps[|ps| - 1].1)
  }

  /** Adding the items, in order, to an empty collection. */
  function AddAll(xs: seq<Value>, isSet: bool): seq<Value> {
    if xs == [] then [] else CollectionAdd(AddAll(xs[..|xs| - 1], isSet), xs[|xs| - 1], isSet)
  }

  /** The fields reflection sets, in order, on a fresh instance whose fields are all
      null: each eligible field takes the image of the origin's value. */
  function CopyFields(env: Env, b: Body, keys: seq<(FieldKey, FieldInfo)>, V: Visited): map<FieldKey, Value> {
    if keys == [] then map[]
    else
      var rest := CopyFields(env, b, keys[..|keys| - 1], V);
      var (k, f) := keys[|keys| - 1];
      if EligibleField(f) then rest[k := Img(env, FieldValue(b, k), V)] else rest
  }

  /** The children a registering strategy proceeds into are all settled. */
  predicate ChildrenSettled(env: Env, r: Ref, V: Visited) {
    var b := OriginNode(env, r).body;
    match StrategyAt(env, r)
    case Some(MapStrategy) => PairsSettled(env, EntriesOf(b), V)
    case Some(CollectionStrategy) => SeqSettled(env, ItemsOf(b), V)
    case Some(ArrayStrategy) => SeqSettled(env, SlotsOf(b), V)
    case Some(ReflectionStrategy) => FieldsSettled(env, b, WalkedFields(ClassAt(env, r)), V)
    case _ => true
  }

  /** `v` is null or one of the origin objects in `S`. */
  predicate ValueIn(v: Value, S: set<Ref>) {
    v.Ptr? ==> v.ref in S
  }

  predicate SeqIn(xs: seq<Value>, S: set<Ref>) {
    forall i :: 0 <= i < |xs| ==> ValueIn(xs[i], S)
  }

  predicate PairsIn(ps: seq<(Value, Value)>, S: set<Ref>) {
    forall i :: 0 <= i < |ps| ==> ValueIn(ps[i].0, S) && ValueIn(ps[i].1, S)
  }

  /** The eligible fields `level` declares hold values in `S`. */
  predicate LevelIn(b: Body, level: ClassLevel, S: set<Ref>) {
    forall f :: f in level.declaredFields && EligibleField(f) ==> ValueIn(FieldValue(b, FieldKey(level.name, f.name)), S)
  }

  /** The eligible fields of every level reflection walks hold values in `S`. */
  predicate FieldsIn(b: Body, lineage: seq<ClassLevel>, S: set<Ref>) {
    forall j :: 0 <= j < WalkLength(lineage) ==> LevelIn(b, lineage[j], S)
  }

  /** Every value the strategy of `r` proceeds into is in `S`. */
  predicate ChildrenIn(env: Env, r: Ref, S: set<Ref>) {
    var b := OriginNode(env, r).body;
    match StrategyAt(env, r)
    case Some(MapStrategy) => PairsIn(EntriesOf(b), S)
    case Some(CollectionStrategy) => SeqIn(ItemsOf(b), S)
    case Some(ArrayStrategy) => SeqIn(SlotsOf(b), S)
    case Some(ReflectionStrategy) => FieldsIn(b, ClassAt(env, r).lineage, S)
    case _ => true
  }

  /** Origin object `k` raises nothing of its own when proceeded into: its class is
      ignored, or a strategy supports it and, when that is reflection, the class has a
      no-argument constructor. */
  predicate Clonable(env: Env, k: Ref) {
    Ignored(ClassAt(env, k)) ||
    (StrategyAt(env, k).Some? && (StrategyAt(env, k) == Some(ReflectionStrategy) ==> ClassAt(env, k).noArgConstructor))
  }

  /**
   * `S` holds only clonable objects and, with every object whose class is not
   * ignored, every value its strategy proceeds into. The objects a clone of `v`
   * reaches form the least such set containing `v`, so "some such `S` contains `v`"
   * says that every object the clone reaches is clonable.
   */
  predicate ClonableClosed(env: Env, S: set<Ref>) {
    forall k :: k in S ==> Clonable(env, k) && (!Ignored(ClassAt(env, k)) ==> ChildrenIn(env, k, S))
  }

  /** An object of a closed set whose class is not ignored has, for its strategy, its
      children in the set. */
  lemma ClosedChildren(env: Env, S: set<Ref>, r: Ref)
    requires r < |env.origin| && ClonableClosed(env, S) && r in S && !Ignored(ClassAt(env, r))
    ensures StrategyAt(env, r) == Some(MapStrategy) ==> PairsIn(EntriesOf(env.origin[r].body), S)
    ensures StrategyAt(env, r) == Some(CollectionStrategy) ==> SeqIn(ItemsOf(env.origin[r].body), S)
    ensures StrategyAt(env, r) == Some(ArrayStrategy) ==> SeqIn(SlotsOf(env.origin[r].body), S)
    ensures StrategyAt(env, r) == Some(ReflectionStrategy) ==> FieldsIn(env.origin[r].body, ClassAt(env, r).lineage, S)
  {
    assert ChildrenIn(env, r, S);
  }

  /** The copy the strategy of `r` builds: a map of the MapDestClass holding the
      images of the entries, a collection of the CollectionDestClass holding the images
      of the items, an array of the same class holding the images of the slots, or an
      instance of the same class whose eligible walked fields hold the images of the
      origin's. */
  function Expected(env: Env, r: Ref, V: Visited): Node {
    var n := OriginNode(env, r);
    var c := ClassAt(env, r);
    match StrategyAt(env, r)
    case Some(MapStrategy) => Node(MapDestClass(c), Entries(PutAll(ImgPairs(env, EntriesOf(n.body), V))))
    case Some(CollectionStrategy) =>
      Node(CollectionDestClass(c), Elements(AddAll(ImgSeq(env, ItemsOf(n.body), V), IsSetClass(c))))
    case Some(ArrayStrategy) => Node(n.cls, Slots(ImgSeq(env, SlotsOf(n.body), V)))
    case Some(ReflectionStrategy) => Node(n.cls, Fields(CopyFields(env, n.body, WalkedFields(c), V)))
    case _ => n
  }

  /** The copy of `k` is complete: registered, its children settled, its node built. */
  predicate Done(env: Env, k: Ref, V: Visited, nodes: seq<Node>) {
    k in V && V[k] < |nodes| && ChildrenSettled(env, k, V) && nodes[V[k]] == Expected(env, k, V)
  }

  /** Every copy registered outside `base` is complete. */
  predicate AllDoneSince(env: Env, base: set<Ref>, V: Visited, nodes: seq<Node>) {
    forall k {:trigger Done(env, k, V, nodes)} :: k in V && k !in base ==> Done(env, k, V, nodes)
  }

  lemma {:induction false} CopyFieldsStable(env: Env, b: Body, keys: seq<(FieldKey, FieldInfo)>, V: Visited, W: Visited)
    requires FieldsSettled(env, b, keys, V) && Extends(W, V)
    ensures FieldsSettled(env, b, keys, W)
    ensures CopyFields(env, b, keys, W) == CopyFields(env, b, keys, V)
  {
    forall i | 0 <= i < |keys| && EligibleField(keys[i].1)
      ensures Settled(env, FieldValue(b, keys[i].0), W)
    {
      ImgStable(env, FieldValue(b, keys[i].0), V, W);
    }
    if keys != [] {
      var init := keys[..|keys| - 1];
      assert FieldsSettled(env, b, init, V) by {
        forall i | 0 <= i < |init| && EligibleField(init[i].1)
          ensures Settled(env, FieldValue(b, init[i].0), V)
        {
          assert init[i] == keys[i];
        }
      }
      CopyFieldsStable(env, b, init, V, W);
      var last := keys[|keys| - 1];
      if EligibleField(last.1) {
        ImgStable(env, FieldValue(b, last.0), V, W);
      }
    }
  }

  /** Once the children of `r` are settled, growing the visited map changes neither
      their settledness nor the node `r` is expected to have. */
  lemma ExpectedStable(env: Env, r: Ref, V: Visited, W: Visited)
    requires ChildrenSettled(env, r, V) && Extends(W, V)
    ensures ChildrenSettled(env, r, W) && Expected(env, r, W) == Expected(env, r, V)
  {
    var n := OriginNode(env, r);
    var c := ClassAt(env, r);
    match StrategyAt(env, r)
    case Some(MapStrategy) =>
      var ps := EntriesOf(n.body);
      forall i | 0 <= i < |ps|
        ensures Settled(env, ps[i].0, W) && Settled(env, ps[i].1, W)
        ensures Img(env, ps[i].0, W) == Img(env, ps[i].0, V) && Img(env, ps[i].1, W) == Img(env, ps[i].1, V)
      {
        assert Settled(env, ps[i].0, V) && Settled(env, ps[i].1, V);
        ImgStable(env, ps[i].0, V, W);
        ImgStable(env, ps[i].1, V, W);
      }
      assert ImgPairs(env, ps, W) == ImgPairs(env, ps, V);
    case Some(CollectionStrategy) =>
      var xs := ItemsOf(n.body);
      forall i | 0 <= i < |xs| ensures Settled(env, xs[i], W) && Img(env, xs[i], W) == Img(env, xs[i], V) {
        assert Settled(env, xs[i], V);
        ImgStable(env, xs[i], V, W);
      }
      assert ImgSeq(env, xs, W) == ImgSeq(env, xs, V);
    case Some(ArrayStrategy) =>
      var xs := SlotsOf(n.body);
      forall i | 0 <= i < |xs| ensures Settled(env, xs[i], W) && Img(env, xs[i], W) == Img(env, xs[i], V) {
        assert Settled(env, xs[i], V);
        ImgStable(env, xs[i], V, W);
      }
      assert ImgSeq(env, xs, W) == ImgSeq(env, xs, V);
    case Some(ReflectionStrategy) =>
      CopyFieldsStable(env, n.body, WalkedFields(c), V, W);
    case _ =>
  }

  /** A complete copy stays complete while the visited map grows and its node is
      not written. */
  lemma DoneStable(env: Env, k: Ref, V: Visited, N: seq<Node>, W: Visited, M: seq<Node>)
    requires Done(env, k, V, N) && Extends(W, V) && N <= M
    ensures Done(env, k, W, M)
  {
    ExpectedStable(env, k, V, W);
  }

  /** Completed copies survive a nested clone call that only extends the visited map
      and only appends nodes, and the copies that call registers are complete. */
  lemma AllDoneGrow(env: Env, base: set<Ref>, V: Visited, N: seq<Node>, W: Visited, M: seq<Node>)
    requires AllDoneSince(env, base, V, N) && Extends(W, V) && N <= M
    requires AllDoneSince(env, V.Keys, W, M)
    ensures AllDoneSince(env, base, W, M)
  {
    forall k | k in W && k !in base ensures Done(env, k, W, M) {
      if k in V {
        DoneStable(env, k, V, N, W, M);
      }
    }
  }

  /** Writing the node of one copy leaves the other completed copies complete. */
  lemma AllDoneWrite(env: Env, base: set<Ref>, V: Visited, N: seq<Node>, d: Ref, n: Node)
    requires AllDoneSince(env, base, V, N) && d < |N|
    requires forall k :: k in V && k !in base ==> V[k] != d
    ensures AllDoneSince(env, base, V, N[d := n])
  {
    forall k | k in V && k !in base ensures Done(env, k, V, N[d := n]) {
      assert Done(env, k, V, N);
    }
  }

  /** The copy of `r` is complete, so it joins the completed ones. */
  lemma AllDoneAdd(env: Env, base: set<Ref>, r: Ref, V: Visited, N: seq<Node>)
    requires AllDoneSince(env, base + {r}, V, N) && Done(env, r, V, N)
    ensures AllDoneSince(env, base, V, N)
  {
  }

  lemma GrowChain(V0: Visited, N0: seq<Node>, V1: Visited, N1: seq<Node>, V2: Visited, N2: seq<Node>)
    requires Extends(V1, V0) && N0 <= N1 && Extends(V2, V1) && N1 <= N2
    ensures Extends(V2, V0) && N0 <= N2
  {
  }

  /** Registering a node appended to the heap as the copy of an unvisited, copied
      origin object keeps the visited map well formed and extends it, and no other
      copy is registered yet. */
  lemma RegisterOk(env: Env, V: Visited, N: seq<Node>, node: Node, r: Ref)
    requires VisitedOk(env, V, |N|) && r < |env.origin| && r !in V && Copied(env, r) && |env.origin| <= |N|
    ensures VisitedOk(env, V[r := |N|], |N| + 1) && Extends(V[r := |N|], V)
    ensures AllDoneSince(env, V.Keys + {r}, V[r := |N|], N + [node])
  {
    var W := V[r := |N|];
    forall k | k in W ensures Copied(env, k) {
      if k != r {
        assert Copied(env, k);
      }
    }
  }
}
