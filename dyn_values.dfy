/**
 * The object graphs the dynamic-object accessor walks, as values. Every non-null
 * object carries the name of its runtime class; what the adapters can do with it
 * depends on whether that class is a Map, a List, a Record or anything else (a
 * bean, which includes the scalar leaves such as strings and numbers).
 */
module DynValues {
  import opened PathParsing

  /** java.lang.reflect.Modifier.PRIVATE */
  const PrivateModifier: int := 2

  /** What the bean adapter sees of a public method: its name, its arity and its
      modifier bits. */
  datatype MethodInfo = MethodInfo(name: string, paramCount: nat, modifiers: int)

  datatype DynValue =
    | Null
      /** a java.util.Map keyed by strings */
    | MapObj(cls: string, entries: map<string, DynValue>)
      /** a java.util.List */
    | ListObj(cls: string, items: seq<DynValue>)
      /** a java.lang.Record: its components in declaration order */
    | RecordObj(cls: string, components: seq<(string, DynValue)>)
      /** any other object: its public methods, and the property each accessor pair
          reads and writes */
    | BeanObj(cls: string, methods: seq<MethodInfo>, props: map<string, DynValue>)

  /** The four families of classes the adapters tell apart. */
  datatype Kind = MapKind | ListKind | RecordKind | BeanKind

  function KindOf(v: DynValue): Kind
    requires v != Null
  {
    match v
    case MapObj(_, _) => MapKind
    case ListObj(_, _) => ListKind
    case RecordObj(_, _) => RecordKind
    case BeanObj(_, _, _) => BeanKind
  }

  /** The classes the accessor instantiates for missing containers. */
  const HashMapClass: string := "java.util.HashMap"
  const ArrayListClass: string := "java.util.ArrayList"

  /** new HashMap<>() */
  const EmptyMap: DynValue := MapObj(HashMapClass, map[])
  /** new ArrayList<>() */
  const EmptyList: DynValue := ListObj(ArrayListClass, [])

  /** The exceptions an access can raise. */
  datatype AccessError =
      /** getProperty on a null target (its error message dereferences the target) */
    | NullTarget
      /** CompositeTypeAdapter: no registered adapter supports the class */
    | NoAdapterFound(cls: string)
      /** the ClassCastException of the list adapter on a target that is not a list */
    | NotAList
      /** RecordAdapter.getValue: the record has no component of that name */
    | UnknownComponent(property: string)
      /** BeanAdapter.decap on the empty remainder of a method named just "get" or "set" */
    | AccessorNameTooShort(methodName: string)
      /** an index step on an accessor built without a collection adapter */
    | NoCollectionAdapter
      /** a get or set on an accessor built without a parser */
    | NoParser
      /** the path did not parse */
    | PathError(error: ParseError)

  /**
   * The class table of a run: every non-null object in `v` has a class listed in
   * `classKinds`, with the kind of that object. In the JVM a class name names one
   * class, so two objects of the same class are of the same kind.
   */
  ghost predicate ClassesAgree(classKinds: map<string, Kind>, v: DynValue) {
    match v
    case Null => true
    case MapObj(c, es) =>
      c in classKinds && classKinds[c] == MapKind &&
      forall k :: k in es ==> ClassesAgree(classKinds, es[k])
    case ListObj(c, xs) =>
      c in classKinds && classKinds[c] == ListKind &&
      forall i :: 0 <= i < |xs| ==> ClassesAgree(classKinds, xs[i])
    case RecordObj(c, cs) =>
      c in classKinds && classKinds[c] == RecordKind &&
      forall i :: 0 <= i < |cs| ==> ClassesAgree(classKinds, cs[i].1)
    case BeanObj(c, _, ps) =>
      c in classKinds && classKinds[c] == BeanKind &&
      forall k :: k in ps ==> ClassesAgree(classKinds, ps[k])
  }

  /** The class table knows the two container classes the accessor creates. */
  ghost predicate KnowsContainers(classKinds: map<string, Kind>) {
    HashMapClass in classKinds && classKinds[HashMapClass] == MapKind &&
    ArrayListClass in classKinds && classKinds[ArrayListClass] == ListKind
  }
}
