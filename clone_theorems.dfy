/**
 * What a successful deep clone guarantees about the copies it leaves in the heap:
 * each copy is a new object with the shape its strategy promises, cycles and shared
 * references come out as in the origin, and no copy refers back to a mutable origin
 * object.
 */
module CloneTheorems {
  import opened Wrappers
  import opened CloneHeap
  import opened CloneStrategies
  import opened DefaultCloners
  import opened CloneSpec

  /** The state a successful DefaultCloner.deepClone ends in: the origin nodes kept as a
      prefix of the heap, and every registered copy complete. */
  predicate Finished(env: Env, V: Visited, N: seq<Node>) {
    WfEnv(env) && env.origin <= N && VisitedOk(env, V, |N|) && AllDoneSince(env, {}, V, N)
  }

  /** The registered copy of `k` is a new node, not one of the origin's, holding what
      the strategy of `k` builds. */
  lemma CopyAt(env: Env, V: Visited, N: seq<Node>, k: Ref)
    requires Finished(env, V, N) && k in V
    ensures k < |env.origin| <= V[k] < |N|
    ensures N[V[k]] == Expected(env, k, V) && ChildrenSettled(env, k, V) && Copied(env, k)
  {
    assert Done(env, k, V, N);
    assert Copied(env, k);
  }

  /** Identity, not equality, decides copies: distinct origin objects, even equal ones,
      get distinct copies. */
  lemma DistinctCopies(env: Env, V: Visited, N: seq<Node>, k: Ref, k': Ref)
    requires Finished(env, V, N) && k in V && k' in V && k != k'
    ensures V[k] != V[k']
  {
  }

  /** The references below `n`: the whole origin heap when `n` is its size. */
  function RefsBelow(n: nat): (r: set<Ref>)
    ensures forall k: Ref :: k in r <==> k < n
  {
    if n == 0 then {} else RefsBelow(n - 1) + {n - 1}
  }

  /** The whole origin heap is a clonable closed set once each of its objects is
      clonable on its own: every reference stored in the origin points into it. */
  lemma WholeHeapClosed(env: Env)
    requires WfEnv(env) && forall k :: 0 <= k < |env.origin| ==> Clonable(env, k)
    ensures ClonableClosed(env, RefsBelow(|env.origin|))
  {
    var S := RefsBelow(|env.origin|);
    forall k | k in S ensures ChildrenIn(env, k, S) {
      ClosedAt(env.origin, k);
      var b := env.origin[k].body;
      forall key ensures ValueIn(FieldValue(b, key), S) {
        if key in FieldsOf(b) {
          assert b.Fields? && key in b.fields;
        }
      }
    }
  }

  /** The class needs nothing of reflection under the built-in chain, or has the
      no-argument constructor reflection calls. */
  predicate EngineReady(c: ClassInfo) {
    Ignored(c) || ImmutableSupport(c) || IsMapClass(c) || IsCollectionClass(c) || c.isArray || c.noArgConstructor
  }

  /**
   * With the shared engine of Clones, whose chain is the built-in strategies, a
   * clone fails only for want of a no-argument constructor: the whole heap is a
   * clonable closed set when every object whose class is not ignored, immutable, a
   * map, a collection or an array has one.
   */
  lemma EngineHeapClosed(env: Env)
    requires WfEnv(env) && env.strategies == BuiltIns
    requires forall k :: 0 <= k < |env.origin| ==> EngineReady(ClassOf(env.classes, env.origin[k].cls))
    ensures ClonableClosed(env, RefsBelow(|env.origin|))
  {
    EngineAllClonable(env);
    WholeHeapClosed(env);
  }

  lemma EngineAllClonable(env: Env)
    requires env.strategies == BuiltIns
    requires forall k :: 0 <= k < |env.origin| ==> EngineReady(ClassOf(env.classes, env.origin[k].cls))
    ensures forall k :: 0 <= k < |env.origin| ==> Clonable(env, k)
  {
    forall k | 0 <= k < |env.origin| ensures Clonable(env, k) {
      EngineClonable(env, k);
    }
  }

  /** Under the built-in chain, an object is clonable when its class is ready. */
  lemma EngineClonable(env: Env, k: Ref)
    requires env.strategies == BuiltIns && k < |env.origin|
    requires EngineReady(ClassOf(env.classes, env.origin[k].cls))
    ensures Clonable(env, k)
  {
    assert ClassAt(env, k) == ClassOf(env.classes, env.origin[k].cls);
    BuiltInSelection(ClassAt(env, k));
  }

  // ---------------------------------------------------------------------------
  // Reflection copies

  /** Some eligible entry of `keys` names the field `key`. */
  predicate CopiesField(keys: seq<(FieldKey, FieldInfo)>, key: FieldKey) {
    exists i :: 0 <= i < |keys| && keys[i].0 == key && EligibleField(keys[i].1)
  }

  /** The fields set by reflection are exactly the eligible ones, each to the image of
      the origin's value. */
  lemma {:induction false} CopyFieldsAt(env: Env, b: Body, keys: seq<(FieldKey, FieldInfo)>, V: Visited, key: FieldKey)
    ensures key in CopyFields(env, b, keys, V) <==> CopiesField(keys, key)
    ensures key in CopyFields(env, b, keys, V) ==> CopyFields(env, b, keys, V)[key] == Img(env, FieldValue(b, key), V)
  {
    if keys != [] {
      var init := keys[..|keys| - 1];
      CopyFieldsAt(env, b, init, V, key);
      if CopiesField(init, key) {
        var i :| 0 <= i < |init| && init[i].0 == key && EligibleField(init[i].1);
        assert keys[i] == init[i];
      }
      if CopiesField(keys, key) {
        var i :| 0 <= i < |keys| && keys[i].0 == key && EligibleField(keys[i].1);
        if i < |init| {
          assert init[i] == keys[i];
        }
      }
    }
  }

  /** A field of a reflective copy holds the image of the origin's value when
      reflection copies it, and keeps the constructor's null otherwise (static,
      transient and @IgnoreClone fields, and fields of java.lang.Object and above). */
  lemma ReflectionFieldImage(env: Env, V: Visited, N: seq<Node>, k: Ref, key: FieldKey)
    requires Finished(env, V, N) && k in V && StrategyAt(env, k) == Some(ReflectionStrategy)
    ensures N[V[k]].cls == OriginNode(env, k).cls
    ensures FieldValue(N[V[k]].body, key) ==
      (if CopiesField(WalkedFields(ClassAt(env, k)), key) then Img(env, FieldValue(OriginNode(env, k).body, key), V) else Null)
    ensures CopiesField(WalkedFields(ClassAt(env, k)), key) ==> Settled(env, FieldValue(OriginNode(env, k).body, key), V)
  {
    CopyAt(env, V, N, k);
    var b := OriginNode(env, k).body;
    var keys := WalkedFields(ClassAt(env, k));
    CopyFieldsAt(env, b, keys, V, key);
    if CopiesField(keys, key) {
      var i :| 0 <= i < |keys| && keys[i].0 == key && EligibleField(keys[i].1);
      assert Settled(env, FieldValue(b, keys[i].0), V);
    }
  }

  /** Following a copied field of a reflective copy leads to the copy of the object the
      origin's field refers to; by induction on a path, a cycle in the origin is the
      same cycle among the copies. */
  lemma FieldFollow(env: Env, V: Visited, N: seq<Node>, k: Ref, key: FieldKey, x: Ref)
    requires Finished(env, V, N) && k in V && StrategyAt(env, k) == Some(ReflectionStrategy)
    requires CopiesField(WalkedFields(ClassAt(env, k)), key)
    requires FieldValue(OriginNode(env, k).body, key) == Ptr(x) && Copied(env, x)
    ensures x in V && FieldValue(N[V[k]].body, key) == Ptr(V[x])
  {
    ReflectionFieldImage(env, V, N, k, key);
  }

  /** Two objects referring to each other (a.next == b, b.next == a) clone to two
      distinct copies referring to each other: the copy c of a has c.next.next == c. */
  lemma TwoCycle(env: Env, V: Visited, N: seq<Node>, a: Ref, b: Ref, ka: FieldKey, kb: FieldKey)
    requires Finished(env, V, N) && a in V && a != b
    requires StrategyAt(env, a) == Some(ReflectionStrategy) && StrategyAt(env, b) == Some(ReflectionStrategy)
    requires !Ignored(ClassAt(env, b))
    requires CopiesField(WalkedFields(ClassAt(env, a)), ka) && CopiesField(WalkedFields(ClassAt(env, b)), kb)
    requires FieldValue(OriginNode(env, a).body, ka) == Ptr(b) && FieldValue(OriginNode(env, b).body, kb) == Ptr(a)
    ensures b in V && V[a] != V[b] && V[a] != a && V[b] != b
    ensures FieldValue(N[V[a]].body, ka) == Ptr(V[b]) && FieldValue(N[V[b]].body, kb) == Ptr(V[a])
  {
    CopyAt(env, V, N, a);
    assert Copied(env, b);
    FieldFollow(env, V, N, a, ka, b);
    CopyAt(env, V, N, b);
    FieldFollow(env, V, N, b, kb, a);
  }

  /** Shared references stay shared: two copied fields that refer to the same object in
      the origin refer to the same object in the copies. */
  lemma SharedStaysShared(env: Env, V: Visited, N: seq<Node>, k1: Ref, key1: FieldKey, k2: Ref, key2: FieldKey)
    requires Finished(env, V, N) && k1 in V && k2 in V
    requires StrategyAt(env, k1) == Some(ReflectionStrategy) && StrategyAt(env, k2) == Some(ReflectionStrategy)
    requires CopiesField(WalkedFields(ClassAt(env, k1)), key1) && CopiesField(WalkedFields(ClassAt(env, k2)), key2)
    requires FieldValue(OriginNode(env, k1).body, key1) == FieldValue(OriginNode(env, k2).body, key2)
    ensures FieldValue(N[V[k1]].body, key1) == FieldValue(N[V[k2]].body, key2)
  {
    ReflectionFieldImage(env, V, N, k1, key1);
    ReflectionFieldImage(env, V, N, k2, key2);
  }

  // ---------------------------------------------------------------------------
  // Collection, array and map copies

  /** Adding to a list appends every item. */
  lemma {:induction false} AddAllList(xs: seq<Value>)
    ensures AddAll(xs, false) == xs
  {
    if xs != [] {
      AddAllList(xs[..|xs| - 1]);
      assert xs[..|xs| - 1] + [xs[|xs| - 1]] == xs;
    }
  }

  /** Adding to a set keeps one of each item. */
  lemma {:induction false} AddAllSet(xs: seq<Value>)
    ensures forall x :: x in AddAll(xs, true) <==> x in xs
    ensures Distinct(AddAll(xs, true))
  {
    if xs != [] {
      var init := xs[..|xs| - 1];
      AddAllSet(init);
      assert xs == init + [xs[|xs| - 1]];
    }
  }

  /** A list is copied into a collection of the CollectionDestClass whose element `i` is
      the image of origin element `i`; ignored elements become null entries. */
  lemma ListCopy(env: Env, V: Visited, N: seq<Node>, k: Ref)
    requires Finished(env, V, N) && k in V && StrategyAt(env, k) == Some(CollectionStrategy)
    requires !IsSetClass(ClassAt(env, k))
    ensures N[V[k]].cls == CollectionDestClass(ClassAt(env, k))
    ensures |ItemsOf(N[V[k]].body)| == |ItemsOf(OriginNode(env, k).body)|
    ensures forall i :: 0 <= i < |ItemsOf(N[V[k]].body)| ==>
      ItemsOf(N[V[k]].body)[i] == Img(env, ItemsOf(OriginNode(env, k).body)[i], V)
  {
    CopyAt(env, V, N, k);
    AddAllList(ImgSeq(env, ItemsOf(OriginNode(env, k).body), V));
  }

  /** A set is copied into a collection without duplicates holding exactly the images
      of the origin's elements. */
  lemma SetCopy(env: Env, V: Visited, N: seq<Node>, k: Ref)
    requires Finished(env, V, N) && k in V && StrategyAt(env, k) == Some(CollectionStrategy)
    requires IsSetClass(ClassAt(env, k))
    ensures N[V[k]].cls == CollectionDestClass(ClassAt(env, k))
    ensures Distinct(ItemsOf(N[V[k]].body))
    ensures forall x :: x in ItemsOf(N[V[k]].body) <==> x in ImgSeq(env, ItemsOf(OriginNode(env, k).body), V)
  {
    CopyAt(env, V, N, k);
    AddAllSet(ImgSeq(env, ItemsOf(OriginNode(env, k).body), V));
  }

  /** An array is copied into an array of the same class and length whose slot `i` is
      the image of origin slot `i`. */
  lemma ArrayCopyShape(env: Env, V: Visited, N: seq<Node>, k: Ref)
    requires Finished(env, V, N) && k in V && StrategyAt(env, k) == Some(ArrayStrategy)
    ensures N[V[k]].cls == OriginNode(env, k).cls
    ensures |SlotsOf(N[V[k]].body)| == |SlotsOf(OriginNode(env, k).body)|
    ensures forall i :: 0 <= i < |SlotsOf(N[V[k]].body)| ==>
      SlotsOf(N[V[k]].body)[i] == Img(env, SlotsOf(OriginNode(env, k).body)[i], V)
  {
    CopyAt(env, V, N, k);
  }

  /** The value of the last pair with key `k`. */
  function LastValue(ps: seq<(Value, Value)>, k: Value): Option<Value> {
    if ps == [] then None
    else if ps[|ps| - 1].0 == k then Some(ps[|ps| - 1].1)
    else LastValue(ps[..|ps| - 1], k)
  }

  /** After putting the pairs in order, each key maps to the value of its last pair. */
  lemma {:induction false} PutAllLookup(ps: seq<(Value, Value)>, k: Value)
    ensures Lookup(PutAll(ps), k) == LastValue(ps, k)
  {
    if ps != [] {
      var init := ps[..|ps| - 1];
      PutAllLookup(init, k);
      MapPutLookup(PutAll(init), ps[|ps| - 1].0, ps[|ps| - 1].1, k);
    }
  }

  /** The keys of the pairs put. */
  function PairKeys(ps: seq<(Value, Value)>): set<Value> {
    set i | 0 <= i < |ps| :: ps[i].0
  }

  /** Putting the pairs in order yields distinct keys, exactly the keys put, and no more
      entries than pairs: keys with the same image collapse. */
  lemma {:induction false} PutAllShape(ps: seq<(Value, Value)>)
    ensures DistinctKeys(PutAll(ps)) && |PutAll(ps)| <= |ps|
    ensures KeySet(PutAll(ps)) == PairKeys(ps)
  {
    if ps != [] {
      var init := ps[..|ps| - 1];
      var last := ps[|ps| - 1];
      PutAllShape(init);
      MapPutKeys(PutAll(init), last.0, last.1);
      MapPutDistinct(PutAll(init), last.0, last.1);
      assert PairKeys(ps) == PairKeys(init) + {last.0} by {
        forall x | x in PairKeys(ps) ensures x in PairKeys(init) + {last.0} {
          var i :| 0 <= i < |ps| && ps[i].0 == x;
          if i < |init| {
            assert init[i] == ps[i];
          }
        }
        forall x | x in PairKeys(init) ensures x in PairKeys(ps) {
          var i :| 0 <= i < |init| && init[i].0 == x;
          assert ps[i] == init[i];
        }
      }
    }
  }

  /** A map is copied into a map of the MapDestClass, with distinct keys and at most as
      many entries as the origin, in which the image of each key maps to the image of
      the value of the last origin entry whose key has that image. */
  lemma MapCopyShape(env: Env, V: Visited, N: seq<Node>, k: Ref)
    requires Finished(env, V, N) && k in V && StrategyAt(env, k) == Some(MapStrategy)
    ensures N[V[k]].cls == MapDestClass(ClassAt(env, k))
    ensures DistinctKeys(EntriesOf(N[V[k]].body))
    ensures |EntriesOf(N[V[k]].body)| <= |EntriesOf(OriginNode(env, k).body)|
    ensures forall x :: Lookup(EntriesOf(N[V[k]].body), x) == LastValue(ImgPairs(env, EntriesOf(OriginNode(env, k).body), V), x)
  {
    CopyAt(env, V, N, k);
    var ps := ImgPairs(env, EntriesOf(OriginNode(env, k).body), V);
    PutAllShape(ps);
    forall x ensures Lookup(PutAll(ps), x) == LastValue(ps, x) {
      PutAllLookup(ps, x);
    }
  }

  // ---------------------------------------------------------------------------
  // Detachment

  /**
   * A value a copy may hold: null, a copy made by this clone, an origin object that
   * ImmutableStrategy shares, or the result of a user strategy.
   */
  predicate Detached(env: Env, V: Visited, x: Value) {
    x.Null? ||
    (exists k :: k in V && V[k] == x.ref) ||
    (x.ref < |env.origin| && !Ignored(ClassAt(env, x.ref)) && StrategyAt(env, x.ref) == Some(ImmutableStrategy)) ||
    (exists s :: s in env.strategies && s.CustomStrategy? && s.result == x)
  }

  predicate BodyDetached(env: Env, V: Visited, b: Body) {
    match b
    case Atom(_) => true
    case Entries(ps) => forall i :: 0 <= i < |ps| ==> Detached(env, V, ps[i].0) && Detached(env, V, ps[i].1)
    case Elements(xs) => forall i :: 0 <= i < |xs| ==> Detached(env, V, xs[i])
    case Slots(xs) => forall i :: 0 <= i < |xs| ==> Detached(env, V, xs[i])
    case Fields(fs) => forall key :: key in fs ==> Detached(env, V, fs[key])
  }

  /** The image of a settled origin value is detached. */
  lemma ImgDetached(env: Env, V: Visited, v: Value)
    requires Settled(env, v, V) && RefBelow(v, |env.origin|)
    ensures Detached(env, V, Img(env, v, V))
  {
    if v.Ptr? && !Ignored(ClassAt(env, v.ref)) {
      var s := StrategyAt(env, v.ref).value;
      if Registers(s) {
        assert V[v.ref] == Img(env, v, V).ref;
      } else if s.CustomStrategy? {
        assert s in env.strategies;
      }
    }
  }

  /** Every pair of a map built by puts is one of the pairs put. */
  lemma {:induction false} MapPutFrom(entries: seq<(Value, Value)>, k: Value, v: Value)
    ensures forall p :: p in MapPut(entries, k, v) ==> p in entries || p == (k, v)
  {
    if entries != [] && entries[0].0 != k {
      MapPutFrom(entries[1..], k, v);
      assert MapPut(entries, k, v) == [entries[0]] + MapPut(entries[1..], k, v);
      assert forall p :: p in entries[1..] ==> p in entries;
    } else if entries != [] {
      assert forall p :: p in entries[1..] ==> p in entries;
    }
  }

  lemma {:induction false} PutAllFrom(ps: seq<(Value, Value)>)
    ensures forall p :: p in PutAll(ps) ==> p in ps
  {
    if ps != [] {
      var init := ps[..|ps| - 1];
      PutAllFrom(init);
      MapPutFrom(PutAll(init), ps[|ps| - 1].0, ps[|ps| - 1].1);
      assert forall p :: p in init ==> p in ps;
    }
  }

  /** The images of settled origin values are detached. */
  lemma ImagesDetached(env: Env, V: Visited, xs: seq<Value>)
    requires SeqSettled(env, xs, V) && forall i :: 0 <= i < |xs| ==> RefBelow(xs[i], |env.origin|)
    ensures forall x :: x in ImgSeq(env, xs, V) ==> Detached(env, V, x)
  {
    var images := ImgSeq(env, xs, V);
    forall x | x in images ensures Detached(env, V, x) {
      var j :| 0 <= j < |images| && images[j] == x;
      assert Settled(env, xs[j], V);
      ImgDetached(env, V, xs[j]);
    }
  }

  /** A map copy holds only detached keys and values. */
  lemma MapCopyDetached(env: Env, V: Visited, ps: seq<(Value, Value)>)
    requires PairsSettled(env, ps, V)
    requires forall i :: 0 <= i < |ps| ==> RefBelow(ps[i].0, |env.origin|) && RefBelow(ps[i].1, |env.origin|)
    ensures BodyDetached(env, V, Entries(PutAll(ImgPairs(env, ps, V))))
  {
    var images := ImgPairs(env, ps, V);
    PutAllFrom(images);
    var copy := PutAll(images);
    forall i | 0 <= i < |copy| ensures Detached(env, V, copy[i].0) && Detached(env, V, copy[i].1) {
      assert copy[i] in images;
      var j :| 0 <= j < |images| && images[j] == copy[i];
      assert Settled(env, ps[j].0, V) && Settled(env, ps[j].1, V);
      ImgDetached(env, V, ps[j].0);
      ImgDetached(env, V, ps[j].1);
    }
  }

  /** A collection copy holds only detached elements. */
  lemma CollectionCopyDetached(env: Env, V: Visited, xs: seq<Value>, isSet: bool)
    requires SeqSettled(env, xs, V) && forall i :: 0 <= i < |xs| ==> RefBelow(xs[i], |env.origin|)
    ensures BodyDetached(env, V, Elements(AddAll(ImgSeq(env, xs, V), isSet)))
  {
    var images := ImgSeq(env, xs, V);
    ImagesDetached(env, V, xs);
    if isSet { AddAllSet(images); } else { AddAllList(images); }
    var copy := AddAll(images, isSet);
    forall i | 0 <= i < |copy| ensures Detached(env, V, copy[i]) {
      assert copy[i] in images;
    }
  }

  /** An array copy holds only detached elements. */
  lemma ArrayCopyDetached(env: Env, V: Visited, xs: seq<Value>)
    requires SeqSettled(env, xs, V) && forall i :: 0 <= i < |xs| ==> RefBelow(xs[i], |env.origin|)
    ensures BodyDetached(env, V, Slots(ImgSeq(env, xs, V)))
  {
    var images := ImgSeq(env, xs, V);
    ImagesDetached(env, V, xs);
    forall i | 0 <= i < |images| ensures Detached(env, V, images[i]) {
      assert images[i] in images;
    }
  }

  /** A reflective copy holds only detached field values. */
  lemma FieldsCopyDetached(env: Env, V: Visited, b: Body, keys: seq<(FieldKey, FieldInfo)>)
    requires FieldsSettled(env, b, keys, V) && BodyBelow(b, |env.origin|)
    ensures BodyDetached(env, V, Fields(CopyFields(env, b, keys, V)))
  {
    var fs := CopyFields(env, b, keys, V);
    forall key | key in fs ensures Detached(env, V, fs[key]) {
      CopyFieldsAt(env, b, keys, V, key);
      var i :| 0 <= i < |keys| && keys[i].0 == key && EligibleField(keys[i].1);
      assert Settled(env, FieldValue(b, keys[i].0), V);
      ImgDetached(env, V, FieldValue(b, key));
    }
  }

  /** No copy refers to a mutable origin object: every reference a copy holds is a copy
      made by the clone, a shared immutable origin object, or a user strategy's result. */
  lemma CopyDetached(env: Env, V: Visited, N: seq<Node>, k: Ref)
    requires Finished(env, V, N) && k in V
    ensures BodyDetached(env, V, N[V[k]].body)
  {
    CopyAt(env, V, N, k);
    ClosedAt(env.origin, k);
    var b := OriginNode(env, k).body;
    match StrategyAt(env, k).value
    case MapStrategy =>
      MapCopyDetached(env, V, EntriesOf(b));
    case CollectionStrategy =>
      CollectionCopyDetached(env, V, ItemsOf(b), IsSetClass(ClassAt(env, k)));
    case ArrayStrategy =>
      ArrayCopyDetached(env, V, SlotsOf(b));
    case ReflectionStrategy =>
      FieldsCopyDetached(env, V, b, WalkedFields(ClassAt(env, k)));
  }

  /** In particular, an origin object a copy refers to is one ImmutableStrategy shares
      or one a user strategy returns. */
  lemma OriginReferenceShared(env: Env, V: Visited, N: seq<Node>, x: Value)
    requires Finished(env, V, N) && Detached(env, V, x) && x.Ptr? && x.ref < |env.origin|
    ensures (!Ignored(ClassAt(env, x.ref)) && StrategyAt(env, x.ref) == Some(ImmutableStrategy)) ||
      (exists s :: s in env.strategies && s.CustomStrategy? && s.result == x)
  {
  }
}
