/**
 * AccessorFactoryImpl, the builder of object accessors, and DynamicObjects, the
 * static facade wired with the default adapters.
 */
module AccessorFactories {
  import opened Wrappers
  import opened PathParsing
  import opened MapCaches
  import opened DynValues
  import opened TypeAdapters
  import opened CompositeAdapters
  import opened ObjectAccessors

  /** The NullPointerException of Objects.requireNonNull on a null argument. */
  datatype FactoryError = NullAdapter | NullParser

  class AccessorFactory {
    /** The type adapters in registration order. */
    var adapters: seq<Adapter>
    var collectionAdapter: Option<CollectionAdapter>
    var parser: Option<DefaultPathParser>

    /** new AccessorFactoryImpl(): nothing registered yet. */
    constructor ()
      ensures adapters == [] && collectionAdapter == None && parser == None
    {
      adapters := [];
      collectionAdapter := None;
      parser := None;
    }

    /** registerAdapter(TypeAdapter): appended after the adapters registered
        before, so those are tried first. A null adapter is refused. */
    method RegisterAdapter(adapter: Option<Adapter>) returns (r: Result<AccessorFactory, FactoryError>)
      modifies this
      ensures adapter.None? ==> r == Failure(NullAdapter) && adapters == old(adapters)
      ensures adapter.Some? ==> r == Success(this) && adapters == old(adapters) + [adapter.value]
      ensures collectionAdapter == old(collectionAdapter) && parser == old(parser)
    {
      if adapter.None? {
        return Failure(NullAdapter);
      }
      adapters := adapters + [adapter.value];
      r := Success(this);
    }

    /** registerAdapter(CollectionTypeAdapter): replaces any collection adapter
        registered before. A null adapter is refused. */
    method RegisterCollectionAdapter(adapter: Option<CollectionAdapter>) returns (r: Result<AccessorFactory, FactoryError>)
      modifies this
      ensures adapter.None? ==> r == Failure(NullAdapter) && collectionAdapter == old(collectionAdapter)
      ensures adapter.Some? ==> r == Success(this) && collectionAdapter == adapter
      ensures adapters == old(adapters) && parser == old(parser)
    {
      if adapter.None? {
        return Failure(NullAdapter);
      }
      collectionAdapter := adapter;
      r := Success(this);
    }

    /** withParser: replaces the parser. A null parser is refused. */
    method WithParser(p: Option<DefaultPathParser>) returns (r: Result<AccessorFactory, FactoryError>)
      modifies this
      ensures p.None? ==> r == Failure(NullParser) && parser == old(parser)
      ensures p.Some? ==> r == Success(this) && parser == p
      ensures adapters == old(adapters) && collectionAdapter == old(collectionAdapter)
    {
      if p.None? {
        return Failure(NullParser);
      }
      parser := p;
      r := Success(this);
    }

    /** build: an accessor over the current parser, a new composite of the adapters
        registered so far and the current collection adapter, none of them
        checked. */
    method Build() returns (accessor: DefaultObjectAccessor)
      ensures fresh(accessor) && fresh(accessor.adapters) && fresh(accessor.adapters.adapterCache)
      ensures accessor.parser == parser && accessor.collectionAdapter == collectionAdapter
      ensures accessor.adapters.adapters == adapters
      ensures accessor.adapters.Valid() && accessor.adapters.witnesses == map[]
    {
      var composite := new CompositeTypeAdapter(adapters);
      accessor := new DefaultObjectAccessor(parser, composite, collectionAdapter);
    }
  }

  /** The adapters of DynamicObjects, in registration order. */
  const DefaultAdapters: seq<Adapter> := [MapAdapter, BeanAdapter, RecordAdapter]

  /** The size of each cache DynamicObjects creates. */
  const DefaultCacheEntries: nat := 250

  /**
   * The static initialiser of DynamicObjects: the map, bean and record adapters
   * in that order, the list adapter for index steps and a parser with a cache of
   * 250 paths.
   */
  method DynamicObjects() returns (accessor: DefaultObjectAccessor)
    ensures fresh(accessor) && fresh(accessor.adapters) && fresh(accessor.adapters.adapterCache)
    ensures accessor.adapters.adapters == DefaultAdapters
    ensures accessor.collectionAdapter == Some(ListAdapter)
    ensures accessor.parser.Some? && fresh(accessor.parser.value) && fresh(accessor.parser.value.cache)
    ensures accessor.parser.value.cache.maxEntries == DefaultCacheEntries && accessor.parser.value.cache.keys == []
    ensures forall classKinds :: KnowsContainers(classKinds) ==> accessor.Valid(classKinds)
  {
    var factory := new AccessorFactory();
    var registered := factory.RegisterAdapter(Some(MapAdapter));
    registered := factory.RegisterAdapter(Some(BeanAdapter));
    registered := factory.RegisterAdapter(Some(RecordAdapter));
    registered := factory.RegisterCollectionAdapter(Some(ListAdapter));
    var cache := new MapCache<seq<PathToken>>(DefaultCacheEntries);
    var parser := new DefaultPathParser(cache);
    registered := factory.WithParser(Some(parser));
    accessor := factory.Build();
  }

  /**
   * With the default adapters every map goes to the map adapter, every record to
   * the record adapter and every other object, lists excepted, to the bean
   * adapter; no adapter takes a list, so a property of a list fails.
   */
  lemma DefaultDelegates(target: DynValue)
    requires target != Null
    ensures target.MapObj? ==> Delegate(DefaultAdapters, target) == Success(MapAdapter)
    ensures target.RecordObj? ==> Delegate(DefaultAdapters, target) == Success(RecordAdapter)
    ensures target.BeanObj? ==> Delegate(DefaultAdapters, target) == Success(BeanAdapter)
    ensures target.ListObj? ==> Delegate(DefaultAdapters, target) == Failure(NoAdapterFound(target.cls))
  {
    assert DefaultAdapters[1..] == [BeanAdapter, RecordAdapter];
    assert DefaultAdapters[1..][1..] == [RecordAdapter];
    assert DefaultAdapters[1..][1..][1..] == [];
    if target.RecordObj? {
      assert Delegate(DefaultAdapters[1..][1..], target) == Success(RecordAdapter);
    }
  }
}
