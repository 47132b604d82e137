/**
 * The object graph the deep-clone engine works on. Java objects are nodes of a
 * heap addressed by references; a node records its runtime class and its
 * contents: an opaque immutable payload, map entries, collection items, array
 * slots, or instance fields. Class metadata that the engine reads through
 * reflection (kind flags, assignable supertypes, declared annotations, no-arg
 * constructors, the superclass chain with its declared fields) is a table of
 * class descriptors.
 */
module CloneHeap {
  import opened Wrappers

  type Ref = nat
  type ClassName = string

  /** A Java reference: null or the address of a heap node. */
  datatype Value = Null | Ptr(ref: Ref)

  /** A declared field and the modifiers and annotation the engine inspects. */
  datatype FieldInfo = FieldInfo(name: string, isStatic: bool, isTransient: bool, ignoreClone: bool)

  /** One class of a superclass chain, with its declared fields in declaration order. */
  datatype ClassLevel = ClassLevel(name: ClassName, declaredFields: seq<FieldInfo>)

  /**
   * What reflection reveals about a runtime class. `supertypes` holds every type the
   * class is assignable to, itself included; `annotations` the annotations declared
   * on the class itself (neither clone annotation is inherited);
   * `noArgConstructor` says a no-argument constructor exists and succeeds once made
   * accessible, `publicNoArgConstructor` that it succeeds without that;
   * `lineage` is the class followed by its superclasses.
   */
  datatype ClassInfo = ClassInfo(
    name: ClassName,
    isPrimitive: bool,
    isArray: bool,
    isEnum: bool,
    isRecord: bool,
    supertypes: set<ClassName>,
    annotations: set<string>,
    noArgConstructor: bool,
    publicNoArgConstructor: bool,
    lineage: seq<ClassLevel>)

  type ClassTable = map<ClassName, ClassInfo>

  /** An instance field is identified by the class declaring it and its name. */
  datatype FieldKey = FieldKey(owner: ClassName, name: string)

  datatype Body =
    | Atom(data: string)
    | Entries(pairs: seq<(Value, Value)>)
    | Elements(items: seq<Value>)
    | Slots(slots: seq<Value>)
    | Fields(fields: map<FieldKey, Value>)

  datatype Node = Node(cls: ClassName, body: Body)

  const ObjectClass: ClassName := "java.lang.Object"
  const MapType: ClassName := "java.util.Map"
  const CollectionType: ClassName := "java.util.Collection"
  const SetType: ClassName := "java.util.Set"
  const LinkedHashMapClass: ClassName := "java.util.LinkedHashMap"
  const HashMapClass: ClassName := "java.util.HashMap"
  const HashSetClass: ClassName := "java.util.HashSet"
  const ArrayListClass: ClassName := "java.util.ArrayList"
  const TemporalType: ClassName := "java.time.temporal.Temporal"
  const IgnoreCloneAnnotation: string := "io.github.khezyapp.clone.annotation.IgnoreClone"
  const MarkAsImmuteAnnotation: string := "io.github.khezyapp.clone.annotation.MarkAsImmute"

  /** The descriptor of a class; a name missing from the table reads as a plain
      class without supertypes, annotations, constructor or fields. */
  function ClassOf(classes: ClassTable, name: ClassName): (c: ClassInfo)
    ensures name in classes ==> c == classes[name]
  {
    if name in classes then classes[name]
    else ClassInfo(name, false, false, false, false, {}, {}, false, false, [])
  }

  predicate IsMapClass(c: ClassInfo) { MapType in c.supertypes }
  predicate IsCollectionClass(c: ClassInfo) { CollectionType in c.supertypes }
  predicate IsSetClass(c: ClassInfo) { SetType in c.supertypes }

  /** The contents of a node viewed as each kind; a node of another kind has none. */
  function EntriesOf(b: Body): seq<(Value, Value)> { if b.Entries? then b.pairs else [] }
  function ItemsOf(b: Body): seq<Value> { if b.Elements? then b.items else [] }
  function SlotsOf(b: Body): seq<Value> { if b.Slots? then b.slots else [] }
  function FieldsOf(b: Body): map<FieldKey, Value> { if b.Fields? then b.fields else map[] }

  /** Field.get: a field that was never set holds null. */
  function FieldValue(b: Body, key: FieldKey): Value {
    var fs := FieldsOf(b);
    if key in fs then fs[key] else Null
  }

  /** `v` is null or a reference into the first `n` nodes. */
  predicate RefBelow(v: Value, n: nat) { v.Ptr? ==> v.ref < n }

  predicate BodyBelow(b: Body, n: nat) {
    match b
    case Atom(_) => true
    case Entries(ps) => forall i :: 0 <= i < |ps| ==> RefBelow(ps[i].0, n) && RefBelow(ps[i].1, n)
    case Elements(xs) => forall i :: 0 <= i < |xs| ==> RefBelow(xs[i], n)
    case Slots(xs) => forall i :: 0 <= i < |xs| ==> RefBelow(xs[i], n)
    case Fields(fs) => forall k :: k in fs ==> RefBelow(fs[k], n)
  }

  /** Every reference stored in the heap points to one of its nodes. */
  predicate ClosedHeap(nodes: seq<Node>) {
    ClosedFrom(nodes, 0, |nodes|)
  }

  /** Every reference stored in the nodes from index `i` on is below `n`. */
  predicate ClosedFrom(nodes: seq<Node>, i: nat, n: nat)
    decreases |nodes| - i
  {
    i >= |nodes| || (BodyBelow(nodes[i].body, n) && ClosedFrom(nodes, i + 1, n))
  }

  lemma {:induction false} ClosedFromAt(nodes: seq<Node>, i: nat, n: nat, r: nat)
    requires ClosedFrom(nodes, i, n) && i <= r < |nodes|
    ensures BodyBelow(nodes[r].body, n)
    decreases r - i
  {
    if i < r {
      ClosedFromAt(nodes, i + 1, n, r);
    }
  }

  /** In a closed heap, the references a node holds point to nodes of the heap. */
  lemma ClosedAt(nodes: seq<Node>, r: nat)
    requires ClosedHeap(nodes) && r < |nodes|
    ensures BodyBelow(nodes[r].body, |nodes|)
  {
    ClosedFromAt(nodes, 0, |nodes|, r);
  }

  /** Map.put on an insertion-ordered map whose keys compare by identity: an existing
      key keeps its position and takes the new value, a new key goes at the end. */
  function MapPut(entries: seq<(Value, Value)>, k: Value, v: Value): seq<(Value, Value)> {
    if entries == [] then [(k, v)]
    else if entries[0].0 == k then [(k, v)] + entries[1..]
    else [entries[0]] + MapPut(entries[1..], k, v)
  }

  function KeySet(entries: seq<(Value, Value)>): set<Value> {
    set i | 0 <= i < |entries| :: entries[i].0
  }

  predicate DistinctKeys(entries: seq<(Value, Value)>) {
    forall i, j :: 0 <= i < j < |entries| ==> entries[i].0 != entries[j].0
  }

  /** Map.get: the value of the first entry with key `k`. */
  function Lookup(entries: seq<(Value, Value)>, k: Value): Option<Value> {
    if entries == [] then None
    else if entries[0].0 == k then Some(entries[0].1)
    else Lookup(entries[1..], k)
  }

  lemma KeySetCons(entries: seq<(Value, Value)>)
    requires entries != []
    ensures KeySet(entries) == {entries[0].0} + KeySet(entries[1..])
  {
    assert forall i :: 1 <= i < |entries| ==> entries[i] == entries[1..][i - 1];
    assert forall i :: 0 <= i < |entries| - 1 ==> entries[1..][i] == entries[i + 1];
  }

  /** A key is found exactly when some entry has it. */
  lemma {:induction false} LookupFound(entries: seq<(Value, Value)>, k: Value)
    ensures Lookup(entries, k).None? <==> k !in KeySet(entries)
  {
    if entries != [] {
      KeySetCons(entries);
      LookupFound(entries[1..], k);
    }
  }

  /** After a put the keys are the old ones plus the new key, and the size grows only
      for a new key. */
  lemma {:induction false} MapPutKeys(entries: seq<(Value, Value)>, k: Value, v: Value)
    ensures KeySet(MapPut(entries, k, v)) == KeySet(entries) + {k}
    ensures |MapPut(entries, k, v)| == |entries| + (if k in KeySet(entries) then 0 else 1)
  {
    var r := MapPut(entries, k, v);
    if entries == [] {
      assert r[0].0 == k;
    } else {
      KeySetCons(entries);
      KeySetCons(r);
      if entries[0].0 == k {
        assert r[1..] == entries[1..];
      } else {
        MapPutKeys(entries[1..], k, v);
        assert r[1..] == MapPut(entries[1..], k, v);
      }
    }
  }

  /** After a put the key maps to the new value and every other key to what it mapped
      to before. */
  lemma {:induction false} MapPutLookup(entries: seq<(Value, Value)>, k: Value, v: Value, k': Value)
    ensures Lookup(MapPut(entries, k, v), k') == if k' == k then Some(v) else Lookup(entries, k')
  {
    if entries != [] && entries[0].0 != k {
      MapPutLookup(entries[1..], k, v, k');
      assert MapPut(entries, k, v)[1..] == MapPut(entries[1..], k, v);
    } else if entries != [] {
      assert MapPut(entries, k, v)[1..] == entries[1..];
    }
  }

  /** A put keeps keys distinct. */
  lemma {:induction false} MapPutDistinct(entries: seq<(Value, Value)>, k: Value, v: Value)
    requires DistinctKeys(entries)
    ensures DistinctKeys(MapPut(entries, k, v))
  {
    var r := MapPut(entries, k, v);
    if entries != [] {
      var tail := entries[1..];
      assert DistinctKeys(tail) by {
        forall i, j | 0 <= i < j < |tail| ensures tail[i].0 != tail[j].0 {
          assert tail[i] == entries[i + 1] && tail[j] == entries[j + 1];
        }
      }
      if entries[0].0 == k {
        forall i, j | 0 <= i < j < |r| ensures r[i].0 != r[j].0 {
          assert r[j] == entries[j];
          if i > 0 { assert r[i] == entries[i]; }
        }
      } else {
        var rest := MapPut(tail, k, v);
        MapPutDistinct(tail, k, v);
        MapPutKeys(tail, k, v);
        KeySetCons(entries);
        assert entries[0].0 !in KeySet(tail) by {
          forall i | 0 <= i < |tail| ensures tail[i].0 != entries[0].0 {
            assert tail[i] == entries[i + 1];
          }
        }
        forall i, j | 0 <= i < j < |r| ensures r[i].0 != r[j].0 {
          assert r[j] == rest[j - 1];
          if i > 0 {
            assert r[i] == rest[i - 1];
          } else {
            assert r[j].0 in KeySet(rest);
          }
        }
      }
    }
  }

  /** Collection.add: a set ignores an element it already holds (identity), any
      other collection appends. */
  function CollectionAdd(items: seq<Value>, v: Value, isSet: bool): (r: seq<Value>)
    ensures v in r && forall x :: x in r <==> x in items || x == v
    ensures isSet && Distinct(items) ==> Distinct(r)
    ensures !isSet ==> r == items + [v]
  {
    if isSet && v in items then items else items + [v]
  }

  predicate Distinct(xs: seq<Value>) {
    forall i, j :: 0 <= i < j < |xs| ==> xs[i] != xs[j]
  }
}

module CloneHeapState {
  import opened CloneHeap

  /** The mutable heap: allocation appends a node, a write replaces a node's contents. */
  class Heap {
    var nodes: seq<Node>

    constructor(nodes: seq<Node>)
      ensures this.nodes == nodes
    {
      this.nodes := nodes;
    }

    /** `new`: a fresh node at the next free address. */
    method Alloc(n: Node) returns (r: Ref)
      modifies this
      ensures nodes == old(nodes) + [n]
      ensures r == |old(nodes)|
    {
      r := |nodes|;
      nodes := nodes + [n];
    }

    /** Stores new contents into an existing node; its class does not change. */
    method SetBody(r: Ref, b: Body)
      requires r < |nodes|
      modifies this
      ensures nodes == old(nodes)[r := Node(old(nodes)[r].cls, b)]
    {
      nodes := nodes[r := Node(nodes[r].cls, b)];
    }
  }
}
