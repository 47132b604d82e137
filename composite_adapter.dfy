/**
 * CompositeTypeAdapter: forwards each access to the first registered adapter that
 * supports the target, memoising that choice per runtime class name in a
 * MapCache of 250 entries.
 */
module CompositeAdapters {
  import opened Wrappers
  import opened DynValues
  import opened TypeAdapters
  import opened MapCaches

  /** Adapter `i` is the first of `adapters` to support `target`. */
  predicate FirstSupporting(adapters: seq<Adapter>, target: DynValue, i: int) {
    0 <= i < |adapters| && Supports(adapters[i], target) &&
    forall j :: 0 <= j < i ==> !Supports(adapters[j], target)
  }

  /** The delegate for `target`: the first adapter in list order supporting it, or
      the "No adapter found" failure naming its class. */
  function Delegate(adapters: seq<Adapter>, target: DynValue): (r: Result<Adapter, AccessError>)
    requires target != Null
    ensures r.Success? ==> exists i :: FirstSupporting(adapters, target, i) && adapters[i] == r.value
    ensures r.Failure? <==> forall i :: 0 <= i < |adapters| ==> !Supports(adapters[i], target)
    ensures r.Failure? ==> r.error == NoAdapterFound(target.cls)
  {
    if adapters == [] then Failure(NoAdapterFound(target.cls))
    else if Supports(adapters[0], target) then
      assert FirstSupporting(adapters, target, 0);
      Success(adapters[0])
    else
      var r := Delegate(adapters[1..], target);
      if r.Success? then
        var i :| FirstSupporting(adapters[1..], target, i) && adapters[1..][i] == r.value;
        assert FirstSupporting(adapters, target, i + 1);
        r
      else
        r
  }

  /** Two objects of one class get the same delegate: the choice may be cached under
      the class name. */
  lemma {:induction false} DelegateByClass(adapters: seq<Adapter>, v: DynValue, w: DynValue)
    requires v != Null && w != Null && v.cls == w.cls && KindOf(v) == KindOf(w)
    ensures Delegate(adapters, v) == Delegate(adapters, w)
  {
    if adapters != [] {
      SupportsByKind(adapters[0], v, w);
      DelegateByClass(adapters[1..], v, w);
    }
  }

  /** CompositeTypeAdapter.getValue: the delegate's getValue. */
  function CompositeGet(adapters: seq<Adapter>, target: DynValue, property: string): Result<DynValue, AccessError>
    requires target != Null
  {
    var a :- Delegate(adapters, target);
    AdapterGet(a, target, property)
  }

  /** CompositeTypeAdapter.setValue: the delegate's setValue. */
  function CompositeSet(adapters: seq<Adapter>, target: DynValue, property: string, value: DynValue): Result<DynValue, AccessError>
    requires target != Null
  {
    var a :- Delegate(adapters, target);
    AdapterSet(a, target, property, value)
  }

  /** Adapters registered earlier are tried first: a later adapter is reached only
      when none of the earlier ones supports the target. */
  lemma {:induction false} EarlierAdaptersWin(earlier: seq<Adapter>, later: seq<Adapter>, target: DynValue)
    requires target != Null
    ensures Delegate(earlier + later, target) ==
      (if Delegate(earlier, target).Success? then Delegate(earlier, target) else Delegate(later, target))
  {
    if earlier == [] {
      assert earlier + later == later;
    } else {
      var both := earlier + later;
      assert both[0] == earlier[0] && both[1..] == earlier[1..] + later;
      if !Supports(earlier[0], target) {
        EarlierAdaptersWin(earlier[1..], later, target);
      }
    }
  }

  /** What the composite reads from an object is an object of the same run. */
  lemma CompositeGetKeepsClasses(classKinds: map<string, Kind>, adapters: seq<Adapter>, target: DynValue, property: string)
    requires target != Null && ClassesAgree(classKinds, target)
    requires CompositeGet(adapters, target, property).Success?
    ensures ClassesAgree(classKinds, CompositeGet(adapters, target, property).value)
  {
    AdapterGetKeepsClasses(classKinds, Delegate(adapters, target).value, target, property);
  }

  /**
   * A property written through the composite reads back through it: the object
   * written keeps its class (a record is rebuilt as one of the same class), so the
   * same adapter serves the read. A bean needs both a getter and a setter for
   * the property.
   */
  lemma CompositeSetThenGet(adapters: seq<Adapter>, target: DynValue, property: string, value: DynValue)
    requires target != Null
    requires CompositeGet(adapters, target, property).Success? && CompositeSet(adapters, target, property, value).Success?
    requires target.BeanObj? ==>
      HasAccessor(Getter, target.methods, property) && HasAccessor(Setter, target.methods, property)
    ensures CompositeSet(adapters, target, property, value).value != Null
    ensures CompositeSet(adapters, target, property, value).value.cls == target.cls
    ensures KindOf(CompositeSet(adapters, target, property, value).value) == KindOf(target)
    ensures CompositeGet(adapters, CompositeSet(adapters, target, property, value).value, property) == Success(value)
  {
    var a := Delegate(adapters, target).value;
    var w := CompositeSet(adapters, target, property, value).value;
    DelegateByClass(adapters, target, w);
    match a
    case MapAdapter =>
      MapSetThenGet(target, property, property, value);
    case RecordAdapter =>
      RecordSetThenGet(target.components, property, value);
    case BeanAdapter =>
      BeanSetThenGet(target, property, value);
  }

  /** A write through the composite leaves every other property reading as before. */
  lemma CompositeSetKeepsOthers(adapters: seq<Adapter>, target: DynValue, property: string, other: string, value: DynValue)
    requires target != Null && other != property
    requires CompositeSet(adapters, target, property, value).Success?
    ensures CompositeSet(adapters, target, property, value).value != Null
    ensures CompositeGet(adapters, CompositeSet(adapters, target, property, value).value, other) ==
      CompositeGet(adapters, target, other)
  {
    var a := Delegate(adapters, target).value;
    AdapterSetKeepsOthers(a, target, property, other, value);
    DelegateByClass(adapters, target, AdapterSet(a, target, property, value).value);
  }

  /** CompositeTypeAdapter.supports: every non-null target, whether or not some
      adapter will take it. It refuses null even though the bean adapter's own test
      accepts it, and it accepts a list that no property adapter takes. */
  function CompositeSupports(target: DynValue): (r: bool)
    ensures !r ==> target == Null && Supports(BeanAdapter, target)
    ensures r && !target.ListObj? ==>
      Supports(MapAdapter, target) || Supports(BeanAdapter, target) || Supports(RecordAdapter, target)
    ensures target.ListObj? ==> r && forall a: Adapter :: !Supports(a, target)
  {
    target != Null
  }

  /** Every cached adapter is the delegate of the object recorded for its class. */
  ghost predicate CacheSound(adapters: seq<Adapter>, store: map<string, Adapter>, witnesses: map<string, DynValue>) {
    forall c :: c in store ==>
      c in witnesses && witnesses[c] != Null && witnesses[c].cls == c &&
      Delegate(adapters, witnesses[c]) == Success(store[c])
  }

  /** Caching the delegate of a new class, with the object it was looked up for, keeps
      the cache sound, whatever entry the insertion evicts. */
  lemma CacheSoundInsert(adapters: seq<Adapter>, keys: seq<string>, store: map<string, Adapter>,
                         witnesses: map<string, DynValue>, target: DynValue, v: Adapter, maxEntries: nat)
    requires CacheOk(keys, store, maxEntries) && CacheSound(adapters, store, witnesses)
    requires target != Null && target.cls !in store && Delegate(adapters, target) == Success(v)
    ensures CacheSound(adapters, InsertStore(keys, store, target.cls, v, maxEntries), witnesses[target.cls := target])
  {
    InsertKeeps(keys, store, target.cls, v, maxEntries);
  }

  /** The cache of the composite adapter: its size of 250 entries. */
  const AdapterCacheEntries: nat := 250

  class CompositeTypeAdapter {
    const adapters: seq<Adapter>
    const adapterCache: MapCache<Adapter>
    /** For each class name the cache has seen, the object whose lookup cached it. */
    ghost var witnesses: map<string, DynValue>

    /** Every cached adapter is the delegate of an object of that class. */
    ghost predicate Valid()
      reads this, adapterCache
    {
      adapterCache.Valid() && CacheSound(adapters, adapterCache.store, witnesses)
    }

    /** The objects seen so far are described by the class table. */
    ghost predicate SeenAgree(classKinds: map<string, Kind>)
      reads this
    {
      forall c :: c in witnesses ==>
        witnesses[c] != Null && c in classKinds && classKinds[c] == KindOf(witnesses[c])
    }

    /** new CompositeTypeAdapter(adapters) */
    constructor (adapters: seq<Adapter>)
      ensures this.adapters == adapters && fresh(adapterCache)
      ensures adapterCache.maxEntries == AdapterCacheEntries && adapterCache.keys == []
      ensures witnesses == map[] && Valid()
    {
      this.adapters := adapters;
      adapterCache := new MapCache<Adapter>(AdapterCacheEntries);
      witnesses := map[];
    }

    /**
     * CompositeTypeAdapter.getDelegate: the adapter cached for the target's class,
     * else the first supporting adapter, which is then cached; when none supports
     * the target the lookup fails and nothing is cached. Either way the result is
     * the first supporting adapter.
     */
    method GetDelegate(target: DynValue, ghost classKinds: map<string, Kind>) returns (r: Result<Adapter, AccessError>)
      requires Valid() && SeenAgree(classKinds)
      requires target != Null && target.cls in classKinds && classKinds[target.cls] == KindOf(target)
      modifies this, adapterCache
      ensures Valid() && SeenAgree(classKinds)
      ensures r == Delegate(adapters, target)
      ensures target.cls in old(adapterCache.store) ==>
        r == Success(old(adapterCache.store)[target.cls]) &&
        adapterCache.keys == old(adapterCache.keys) && adapterCache.store == old(adapterCache.store)
      ensures target.cls !in old(adapterCache.store) && r.Success? ==>
        adapterCache.keys == InsertKeys(old(adapterCache.keys), target.cls, adapterCache.maxEntries) &&
        adapterCache.store == InsertStore(old(adapterCache.keys), old(adapterCache.store), target.cls, r.value, adapterCache.maxEntries)
      ensures r.Failure? ==> adapterCache.keys == old(adapterCache.keys) && adapterCache.store == old(adapterCache.store)
    {
      ghost var oldKeys, oldStore := adapterCache.keys, adapterCache.store;
      if target.cls in adapterCache.store {
        DelegateByClass(adapters, witnesses[target.cls], target);
      }
      r := adapterCache.Get(target.cls, _ => Delegate(adapters, target));
      if target.cls !in oldStore && r.Success? {
        CacheSoundInsert(adapters, oldKeys, oldStore, witnesses, target, r.value, adapterCache.maxEntries);
        witnesses := witnesses[target.cls := target];
      }
    }

    /** CompositeTypeAdapter.getValue */
    method GetValue(target: DynValue, property: string, ghost classKinds: map<string, Kind>) returns (r: Result<DynValue, AccessError>)
      requires Valid() && SeenAgree(classKinds)
      requires target != Null && target.cls in classKinds && classKinds[target.cls] == KindOf(target)
      modifies this, adapterCache
      ensures Valid() && SeenAgree(classKinds)
      ensures r == CompositeGet(adapters, target, property)
    {
      var delegate := GetDelegate(target, classKinds);
      if delegate.Failure? {
        return Failure(delegate.error);
      }
      r := TypeAdapters.GetValue(delegate.value, target, property);
    }

    /** CompositeTypeAdapter.setValue */
    method SetValue(target: DynValue, property: string, value: DynValue, ghost classKinds: map<string, Kind>)
      returns (r: Result<DynValue, AccessError>)
      requires Valid() && SeenAgree(classKinds)
      requires target != Null && target.cls in classKinds && classKinds[target.cls] == KindOf(target)
      modifies this, adapterCache
      ensures Valid() && SeenAgree(classKinds)
      ensures r == CompositeSet(adapters, target, property, value)
    {
      var delegate := GetDelegate(target, classKinds);
      if delegate.Failure? {
        return Failure(delegate.error);
      }
      r := TypeAdapters.SetValue(delegate.value, target, property, value);
    }
  }
}
