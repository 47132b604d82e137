/**
 * DefaultObjectAccessor: reads and writes the value at a path such as
 * "users[0].profile?.name" in a graph of maps, lists, records and beans. The path
 * is parsed into tokens; a read walks them, a write descends recursively and
 * hands each updated child back to its parent, creating missing maps and lists on
 * the way.
 */
module ObjectAccessors {
  import opened Wrappers
  import opened JavaString
  import opened PathParsing
  import opened DynValues
  import opened TypeAdapters
  import opened CompositeAdapters

  // ---------------------------------------------------------------- reading

  /** getProperty(target, name): the composite adapter when it supports the target;
      a null target is refused. */
  function PropertyGet(adapters: seq<Adapter>, target: DynValue, name: string): Result<DynValue, AccessError> {
    if !CompositeSupports(target) then Failure(NullTarget) else CompositeGet(adapters, target, name)
  }

  /** setProperty: the composite adapter when it supports the target; a null target
      is handed back as it is. */
  function PropertySet(adapters: seq<Adapter>, target: DynValue, name: string, value: DynValue): Result<DynValue, AccessError> {
    if !CompositeSupports(target) then Success(target) else CompositeSet(adapters, target, name, value)
  }

  /** getProperty(target, index): the collection adapter; an accessor built without
      one dereferences null. */
  function IndexGet(collection: Option<CollectionAdapter>, target: DynValue, index: nat): Result<DynValue, AccessError> {
    if collection.None? then Failure(NoCollectionAdapter) else ListGetValue(target, index)
  }

  /**
   * DefaultObjectAccessor.get once the path is parsed: each token moves from the
   * current object to a child. Once the current object is null the remaining
   * tokens are skipped and null is the result; a property that cannot be read
   * gives null when its token asks for safe access and fails otherwise.
   */
  function GetPath(adapters: seq<Adapter>, collection: Option<CollectionAdapter>, current: DynValue, tokens: seq<PathToken>)
    : Result<DynValue, AccessError>
    decreases |tokens|
  {
    if tokens == [] then Success(current)
    else if current == Null then Success(Null)
    else
      match tokens[0]
      case PropertyToken(name, safeAccess) =>
        (match PropertyGet(adapters, current, name)
         case Failure(e) => if safeAccess then Success(Null) else Failure(e)
         case Success(child) => GetPath(adapters, collection, child, tokens[1..]))
      case IndexToken(index) =>
        var child :- IndexGet(collection, current, index);
        GetPath(adapters, collection, child, tokens[1..])
  }

  /** DefaultObjectAccessor.get: parse, then walk. */
  function GetAtPath(adapters: seq<Adapter>, collection: Option<CollectionAdapter>, target: DynValue, path: Option<string>)
    : Result<DynValue, AccessError>
  {
    match ParsePath(path)
    case Failure(e) => Failure(PathError(e))
    case Success(tokens) => GetPath(adapters, collection, target, tokens)
  }

  // ---------------------------------------------------------------- writing

  /** The elements of a list; any other object is replaced by a new empty list. */
  function ListItems(v: DynValue): seq<DynValue> {
    if v.ListObj? then v.items else []
  }

  /** The list after `while (list.size() <= index) list.add(null)`. */
  function Padded(items: seq<DynValue>, index: nat): (r: seq<DynValue>)
    ensures |r| == if |items| > index then |items| else index + 1
    ensures r[..|items|] == items
    ensures forall k :: |items| <= k < |r| ==> r[k] == Null
  {
    if |items| > index then items else items + seq(index + 1 - |items|, _ => Null)
  }

  /** The container created for a missing child: a map when the next token names a
      property, a list when it is an index. */
  function NewContainer(next: PathToken): DynValue {
    if next.PropertyToken? then EmptyMap else EmptyList
  }

  /**
   * DefaultObjectAccessor.setRecursive from the current object: when no token is
   * left the value itself is the result; otherwise the first token's step.
   */
  function SetPath(adapters: seq<Adapter>, current: DynValue, tokens: seq<PathToken>, value: DynValue)
    : Result<DynValue, AccessError>
    decreases |tokens|, 1
  {
    if tokens == [] then Success(value)
    else
      match tokens[0]
      case PropertyToken(name, _) => SetPropertyStep(adapters, current, name, tokens[1..], value)
      case IndexToken(index) => SetIndexStep(adapters, current, index, tokens[1..], value)
  }

  /** A property step reads the child (a null child becomes a new map), updates it
      along the remaining tokens and writes it back with setProperty, whose result
      (a new record, say) is what the parent receives. */
  function SetPropertyStep(adapters: seq<Adapter>, current: DynValue, name: string, rest: seq<PathToken>, value: DynValue)
    : Result<DynValue, AccessError>
    decreases |rest| + 1, 0
  {
    var child :- PropertyGet(adapters, current, name);
    var updated :- SetPath(adapters, if child == Null then EmptyMap else child, rest, value);
    PropertySet(adapters, current, name, updated)
  }

  /** An index step turns anything but a list into a new list and pads it with
      nulls up to the index; then it writes the value when no token follows, or
      else updates the slot's child along the remaining tokens, first putting a new
      container in a null slot. */
  function SetIndexStep(adapters: seq<Adapter>, current: DynValue, index: nat, rest: seq<PathToken>, value: DynValue)
    : Result<DynValue, AccessError>
    decreases |rest| + 1, 0
  {
    var cls := if current.ListObj? then current.cls else ArrayListClass;
    var items := Padded(ListItems(current), index);
    if items[index] == Null && rest != [] then
      var updated :- SetPath(adapters, NewContainer(rest[0]), rest, value);
      Success(ListObj(cls, items[index := updated]))
    else if rest == [] then
      Success(ListObj(cls, items[index := value]))
    else
      var updated :- SetPath(adapters, items[index], rest, value);
      Success(ListObj(cls, items[index := updated]))
  }

  /** DefaultObjectAccessor.set: parse, then write. */
  function SetAtPath(adapters: seq<Adapter>, target: DynValue, path: Option<string>, value: DynValue)
    : Result<DynValue, AccessError>
  {
    match ParsePath(path)
    case Failure(e) => Failure(PathError(e))
    case Success(tokens) => SetPath(adapters, target, tokens, value)
  }

  // ---------------------------------------------------------------- properties of reads

  /** Reading along `a + b` is reading along `a`, then along `b` from what was
      found; a walk cut short by null (or by a safe access) stays null. */
  lemma {:induction false} GetPathConcat(adapters: seq<Adapter>, collection: Option<CollectionAdapter>,
                                        current: DynValue, a: seq<PathToken>, b: seq<PathToken>)
    ensures GetPath(adapters, collection, current, a + b) ==
      (match GetPath(adapters, collection, current, a)
       case Failure(e) => Failure(e)
       case Success(w) => GetPath(adapters, collection, w, b))
    decreases |a|
  {
    if a == [] {
      assert a + b == b;
    } else {
      assert (a + b)[0] == a[0] && (a + b)[1..] == a[1..] + b;
      if current != Null {
        match a[0]
        case PropertyToken(name, _) =>
          if PropertyGet(adapters, current, name).Success? {
            GetPathConcat(adapters, collection, PropertyGet(adapters, current, name).value, a[1..], b);
          }
        case IndexToken(index) =>
          if IndexGet(collection, current, index).Success? {
            GetPathConcat(adapters, collection, IndexGet(collection, current, index).value, a[1..], b);
          }
      }
    }
  }

  /** Reading "p.q" is reading "q" from what "p" reads. */
  lemma GetDottedPath(adapters: seq<Adapter>, collection: Option<CollectionAdapter>, target: DynValue, p: string, q: string)
    requires Tokens(p).Success? && Tokens(q).Success?
    ensures Tokens(p + "." + q).Success?
    ensures GetPath(adapters, collection, target, Tokens(p + "." + q).value) ==
      (match GetPath(adapters, collection, target, Tokens(p).value)
       case Failure(e) => Failure(e)
       case Success(w) => GetPath(adapters, collection, w, Tokens(q).value))
  {
    DotConcat(p, q);
    GetPathConcat(adapters, collection, target, Tokens(p).value, Tokens(q).value);
  }

  /** A path of safe-access property tokens (every segment marked with '?') never
      fails: whatever cannot be read gives null. */
  lemma {:induction false} SafePathNeverFails(adapters: seq<Adapter>, collection: Option<CollectionAdapter>,
                                             current: DynValue, tokens: seq<PathToken>)
    requires forall k :: 0 <= k < |tokens| ==> tokens[k].PropertyToken? && tokens[k].safeAccess
    ensures GetPath(adapters, collection, current, tokens).Success?
    decreases |tokens|
  {
    if tokens != [] && current != Null {
      var name := tokens[0].name;
      if PropertyGet(adapters, current, name).Success? {
        SafePathNeverFails(adapters, collection, PropertyGet(adapters, current, name).value, tokens[1..]);
      }
    }
  }

  /** An index step reads through the collection adapter: past the end of a list it
      gives null, and on an object that is no list it fails. */
  lemma IndexStepReads(adapters: seq<Adapter>, target: DynValue, index: nat, rest: seq<PathToken>)
    requires target != Null
    ensures !target.ListObj? ==>
      GetPath(adapters, Some(ListAdapter), target, [IndexToken(index)] + rest) == Failure(NotAList)
    ensures target.ListObj? && index >= |target.items| ==>
      GetPath(adapters, Some(ListAdapter), target, [IndexToken(index)] + rest) == Success(Null)
    ensures target.ListObj? && index < |target.items| ==>
      GetPath(adapters, Some(ListAdapter), target, [IndexToken(index)] + rest) ==
      GetPath(adapters, Some(ListAdapter), target.items[index], rest)
  {
    assert ([IndexToken(index)] + rest)[1..] == rest;
  }

  // ---------------------------------------------------------------- properties of writes

  /** The child a write descends into at an index step followed by `next`. */
  function IndexChild(current: DynValue, index: nat, next: PathToken): DynValue {
    var items := Padded(ListItems(current), index);
    if items[index] == Null then NewContainer(next) else items[index]
  }

  /**
   * The objects a write passes through read back what is written into them: along
   * the path, every bean stepped through by a property has both a getter and a
   * setter for it.
   */
  ghost predicate PathWritable(adapters: seq<Adapter>, current: DynValue, tokens: seq<PathToken>)
    decreases |tokens|
  {
    if tokens == [] then true
    else
      match tokens[0]
      case PropertyToken(name, _) =>
        (current.BeanObj? ==>
          HasAccessor(Getter, current.methods, name) && HasAccessor(Setter, current.methods, name)) &&
        (PropertyGet(adapters, current, name).Success? ==>
          var child := PropertyGet(adapters, current, name).value;
          PathWritable(adapters, if child == Null then EmptyMap else child, tokens[1..]))
      case IndexToken(index) =>
        |tokens| > 1 ==> PathWritable(adapters, IndexChild(current, index, tokens[1]), tokens[1..])
  }

  /**
   * A successful write reads back: after `set(target, path, value)` the result
   * holds `value` at the path, through maps, lists (created and padded as needed),
   * records and beans with accessor pairs.
   */
  lemma {:induction false} SetThenGet(adapters: seq<Adapter>, current: DynValue, tokens: seq<PathToken>, value: DynValue)
    requires SetPath(adapters, current, tokens, value).Success?
    requires PathWritable(adapters, current, tokens)
    ensures GetPath(adapters, Some(ListAdapter), SetPath(adapters, current, tokens, value).value, tokens) == Success(value)
    decreases |tokens|, 1
  {
    if tokens != [] {
      match tokens[0]
      case PropertyToken(name, _) =>
        SetThenGetProperty(adapters, current, name, tokens[1..], value);
      case IndexToken(index) =>
        SetThenGetIndex(adapters, current, index, tokens[1..], value);
    }
  }

  /** The property step of SetThenGet: the written object reads back the updated
      child, which reads back the value along the remaining tokens. */
  lemma {:induction false} SetThenGetProperty(adapters: seq<Adapter>, current: DynValue, name: string,
                                             rest: seq<PathToken>, value: DynValue)
    requires SetPropertyStep(adapters, current, name, rest, value).Success?
    requires current.BeanObj? ==>
      HasAccessor(Getter, current.methods, name) && HasAccessor(Setter, current.methods, name)
    requires PropertyGet(adapters, current, name).Success? ==>
      var child := PropertyGet(adapters, current, name).value;
      PathWritable(adapters, if child == Null then EmptyMap else child, rest)
    ensures var r := SetPropertyStep(adapters, current, name, rest, value).value;
      r != Null && PropertyGet(adapters, r, name).Success? &&
      GetPath(adapters, Some(ListAdapter), PropertyGet(adapters, r, name).value, rest) == Success(value)
    decreases |rest| + 1, 0
  {
    var child := PropertyGet(adapters, current, name).value;
    var next := if child == Null then EmptyMap else child;
    var updated := SetPath(adapters, next, rest, value).value;
    SetThenGet(adapters, next, rest, value);
    CompositeSetThenGet(adapters, current, name, updated);
  }

  /** The index step of SetThenGet: the slot holds the value, or a child that reads
      it back along the remaining tokens. */
  lemma {:induction false} SetThenGetIndex(adapters: seq<Adapter>, current: DynValue, index: nat,
                                          rest: seq<PathToken>, value: DynValue)
    requires SetIndexStep(adapters, current, index, rest, value).Success?
    requires rest != [] ==> PathWritable(adapters, IndexChild(current, index, rest[0]), rest)
    ensures var r := SetIndexStep(adapters, current, index, rest, value).value;
      r.ListObj? && index < |r.items| &&
      GetPath(adapters, Some(ListAdapter), r.items[index], rest) == Success(value)
    decreases |rest| + 1, 0
  {
    if rest != [] {
      SetThenGet(adapters, IndexChild(current, index, rest[0]), rest, value);
    }
  }

  /** A write at a property leaves every other property of the object reading as
      before. */
  lemma SetKeepsSiblings(adapters: seq<Adapter>, current: DynValue, name: string, safeAccess: bool,
                         rest: seq<PathToken>, other: string, value: DynValue)
    requires other != name
    requires SetPath(adapters, current, [PropertyToken(name, safeAccess)] + rest, value).Success?
    ensures current != Null
    ensures PropertyGet(adapters, SetPath(adapters, current, [PropertyToken(name, safeAccess)] + rest, value).value, other) ==
      PropertyGet(adapters, current, other)
  {
    var tokens := [PropertyToken(name, safeAccess)] + rest;
    assert tokens[1..] == rest;
    var child := PropertyGet(adapters, current, name).value;
    var updated := SetPath(adapters, if child == Null then EmptyMap else child, rest, value).value;
    CompositeSetKeepsOthers(adapters, current, name, other, updated);
  }

  /** A write at an index gives a list (the same list's class, or a new ArrayList)
      padded with nulls up to the index; every slot but the index keeps its
      element. */
  lemma SetIndexKeepsSlots(adapters: seq<Adapter>, current: DynValue, index: nat, rest: seq<PathToken>, value: DynValue)
    requires SetPath(adapters, current, [IndexToken(index)] + rest, value).Success?
    ensures var r := SetPath(adapters, current, [IndexToken(index)] + rest, value).value;
      r.ListObj? && r.cls == (if current.ListObj? then current.cls else ArrayListClass) &&
      |r.items| == (if |ListItems(current)| > index then |ListItems(current)| else index + 1) &&
      (forall k :: 0 <= k < |ListItems(current)| && k != index ==> r.items[k] == ListItems(current)[k]) &&
      (forall k :: |ListItems(current)| <= k < |r.items| && k != index ==> r.items[k] == Null)
  {
    var tokens := [IndexToken(index)] + rest;
    assert tokens[1..] == rest;
    var items := Padded(ListItems(current), index);
    assert forall k :: 0 <= k < |ListItems(current)| ==> items[k] == items[..|ListItems(current)|][k];
  }

  // ---------------------------------------------------------------- the accessor

  /** The null padding loop of an index step. */
  method PadWithNulls(items: seq<DynValue>, index: nat) returns (list: seq<DynValue>)
    ensures list == Padded(items, index)
  {
    list := items;
    while |list| <= index
      invariant |items| <= |list| <= if |items| > index then |items| else index + 1
      invariant list[..|items|] == items
      invariant forall k :: |items| <= k < |list| ==> list[k] == Null
      decreases index + 1 - |list|
    {
      list := list + [Null];
    }
  }

  /** The elements of a padded list are nulls or elements of the original list, so
      they agree with the class table as the list does. */
  lemma PaddedAgree(classKinds: map<string, Kind>, current: DynValue, index: nat)
    requires ClassesAgree(classKinds, current)
    ensures forall k :: 0 <= k < |Padded(ListItems(current), index)| ==>
      Padded(ListItems(current), index)[k] == Null || Padded(ListItems(current), index)[k] in ListItems(current)
    ensures forall k :: 0 <= k < |Padded(ListItems(current), index)| ==>
      ClassesAgree(classKinds, Padded(ListItems(current), index)[k])
  {
    var items := ListItems(current);
    var padded := Padded(items, index);
    forall k | 0 <= k < |padded|
      ensures padded[k] == Null || padded[k] in items
      ensures ClassesAgree(classKinds, padded[k])
    {
      if k < |items| {
        assert padded[k] == padded[..|items|][k];
      }
    }
  }

  /** The class of the list an index step writes: the current list's, or a new
      ArrayList's. */
  function ListClass(current: DynValue): string {
    if current.ListObj? then current.cls else ArrayListClass
  }

  /** The index step of the last token writes the value into the padded list. */
  lemma SetIndexStepLast(adapters: seq<Adapter>, current: DynValue, index: nat, value: DynValue)
    ensures SetIndexStep(adapters, current, index, [], value) ==
      Success(ListObj(ListClass(current), Padded(ListItems(current), index)[index := value]))
  {
  }

  /** The index step of an inner token writes back what setting the rest of the path
      in the child gives, the child being created when the slot holds null. */
  lemma SetIndexStepInner(adapters: seq<Adapter>, current: DynValue, index: nat, rest: seq<PathToken>,
                          value: DynValue, child: DynValue, updated: Result<DynValue, AccessError>)
    requires rest != []
    requires child == (if Padded(ListItems(current), index)[index] == Null then NewContainer(rest[0])
                       else Padded(ListItems(current), index)[index])
    requires updated == SetPath(adapters, child, rest, value)
    ensures SetIndexStep(adapters, current, index, rest, value) ==
      if updated.Failure? then Failure(updated.error)
      else Success(ListObj(ListClass(current), Padded(ListItems(current), index)[index := updated.value]))
  {
  }

  /** The start of the index step of setRecursive: a target that is not a list is
      replaced by a new ArrayList, the list is padded with nulls in a loop up to the
      index, and a null slot gets a new container when more tokens follow. */
  method IndexSlot(current: DynValue, index: nat, rest: seq<PathToken>, ghost classKinds: map<string, Kind>)
    returns (cls: string, list: seq<DynValue>, child: DynValue)
    requires ClassesAgree(classKinds, current) && KnowsContainers(classKinds)
    ensures cls == ListClass(current) && list == Padded(ListItems(current), index)
    ensures child == if list[index] == Null && rest != [] then NewContainer(rest[0]) else list[index]
    ensures ClassesAgree(classKinds, child)
  {
    var items := if current.ListObj? then current.items else [];
    cls := if current.ListObj? then current.cls else ArrayListClass;
    list := PadWithNulls(items, index);
    child := list[index];
    assert ClassesAgree(classKinds, child) by {
      PaddedAgree(classKinds, current, index);
    }
    if child == Null && rest != [] {
      child := NewContainer(rest[0]);
    }
  }

  class DefaultObjectAccessor {
    const parser: Option<DefaultPathParser>
    const adapters: CompositeTypeAdapter
    const collectionAdapter: Option<CollectionAdapter>

    /** new DefaultObjectAccessor(parser, adapters, collectionTypeAdapter); a null
        parser or collection adapter is None. */
    constructor (parser: Option<DefaultPathParser>, adapters: CompositeTypeAdapter, collectionAdapter: Option<CollectionAdapter>)
      ensures this.parser == parser && this.adapters == adapters && this.collectionAdapter == collectionAdapter
    {
      this.parser := parser;
      this.adapters := adapters;
      this.collectionAdapter := collectionAdapter;
    }

    ghost function ParserRepr(): set<object>
      reads this
    {
      if parser.Some? then {parser.value, parser.value.cache} else {}
    }

    /** The caches are consistent, the class table describes what the adapter cache
        has seen, and the parser's cache is its own. */
    ghost predicate Valid(classKinds: map<string, Kind>)
      reads this, adapters, adapters.adapterCache, ParserRepr()
    {
      adapters.Valid() && adapters.SeenAgree(classKinds) && KnowsContainers(classKinds) &&
      (parser.Some? ==>
        parser.value.cache.Valid() && parser.value.Consistent() &&
        parser.value as object != adapters && parser.value.cache as object != adapters &&
        parser.value.cache as object != adapters.adapterCache)
    }

    /** The private getProperty(target, name). */
    method GetProperty(target: DynValue, name: string, ghost classKinds: map<string, Kind>) returns (r: Result<DynValue, AccessError>)
      requires adapters.Valid() && adapters.SeenAgree(classKinds) && ClassesAgree(classKinds, target)
      modifies adapters, adapters.adapterCache
      ensures adapters.Valid() && adapters.SeenAgree(classKinds)
      ensures r == PropertyGet(adapters.adapters, target, name)
      ensures r.Success? ==> ClassesAgree(classKinds, r.value)
    {
      if !CompositeSupports(target) {
        return Failure(NullTarget);
      }
      r := adapters.GetValue(target, name, classKinds);
      if r.Success? {
        CompositeGetKeepsClasses(classKinds, adapters.adapters, target, name);
      }
    }

    /** The private setProperty. */
    method SetProperty(target: DynValue, name: string, value: DynValue, ghost classKinds: map<string, Kind>)
      returns (r: Result<DynValue, AccessError>)
      requires adapters.Valid() && adapters.SeenAgree(classKinds) && ClassesAgree(classKinds, target)
      modifies adapters, adapters.adapterCache
      ensures adapters.Valid() && adapters.SeenAgree(classKinds)
      ensures r == PropertySet(adapters.adapters, target, name, value)
    {
      if !CompositeSupports(target) {
        return Success(target);
      }
      r := adapters.SetValue(target, name, value, classKinds);
    }

    /** The private getProperty(target, index). */
    method GetIndex(target: DynValue, index: nat) returns (r: Result<DynValue, AccessError>)
      ensures r == IndexGet(collectionAdapter, target, index)
    {
      if collectionAdapter.None? {
        return Failure(NoCollectionAdapter);
      }
      r := ListGetValue(target, index);
    }

    /** DefaultObjectAccessor.get */
    method Get(target: DynValue, path: Option<string>, ghost classKinds: map<string, Kind>) returns (r: Result<DynValue, AccessError>)
      requires Valid(classKinds) && ClassesAgree(classKinds, target)
      modifies adapters, adapters.adapterCache, ParserRepr()
      ensures Valid(classKinds)
      ensures parser.None? ==> r == Failure(NoParser)
      ensures parser.Some? ==> r == GetAtPath(adapters.adapters, collectionAdapter, target, path)
    {
      if parser.None? {
        return Failure(NoParser);
      }
      var parsed := parser.value.Parse(path);
      if parsed.Failure? {
        return Failure(PathError(parsed.error));
      }
      r := Walk(target, parsed.value, classKinds);
    }

    /** The token loop of DefaultObjectAccessor.get. */
    method Walk(target: DynValue, tokens: seq<PathToken>, ghost classKinds: map<string, Kind>) returns (r: Result<DynValue, AccessError>)
      requires adapters.Valid() && adapters.SeenAgree(classKinds) && ClassesAgree(classKinds, target)
      modifies adapters, adapters.adapterCache
      ensures adapters.Valid() && adapters.SeenAgree(classKinds)
      ensures r == GetPath(adapters.adapters, collectionAdapter, target, tokens)
    {
      var current := target;
      for k := 0 to |tokens|
        invariant adapters.Valid() && adapters.SeenAgree(classKinds) && ClassesAgree(classKinds, current)
        invariant GetPath(adapters.adapters, collectionAdapter, target, tokens) ==
          GetPath(adapters.adapters, collectionAdapter, current, tokens[k..])
      {
        assert tokens[k..][0] == tokens[k] && tokens[k..][1..] == tokens[k + 1..];
        if current == Null {
          return Success(Null);
        }
        match tokens[k]
        case PropertyToken(name, safeAccess) =>
          var child := GetProperty(current, name, classKinds);
          if child.Failure? {
            if safeAccess {
              return Success(Null);
            }
            return Failure(child.error);
          }
          current := child.value;
        case IndexToken(index) =>
          var child := GetIndex(current, index);
          if child.Failure? {
            return Failure(child.error);
          }
          assert current.ListObj? && index < |current.items| ==> child.value == current.items[index];
          current := child.value;
      }
      r := Success(current);
    }

    /** DefaultObjectAccessor.setRecursive */
    method SetRecursive(current: DynValue, tokens: seq<PathToken>, index: nat, value: DynValue, ghost classKinds: map<string, Kind>)
      returns (r: Result<DynValue, AccessError>)
      requires index <= |tokens|
      requires adapters.Valid() && adapters.SeenAgree(classKinds) && KnowsContainers(classKinds)
      requires ClassesAgree(classKinds, current)
      modifies adapters, adapters.adapterCache
      ensures adapters.Valid() && adapters.SeenAgree(classKinds)
      ensures r == SetPath(adapters.adapters, current, tokens[index..], value)
      decreases |tokens| - index, 1
    {
      if index == |tokens| {
        return Success(value);
      }
      ghost var ts := tokens[index..];
      assert ts[0] == tokens[index] && ts[1..] == tokens[index + 1..];
      match tokens[index]
      case PropertyToken(name, _) =>
        r := SetPropertyAt(current, name, tokens, index, value, classKinds);
      case IndexToken(i) =>
        r := SetIndexAt(current, i, tokens, index, value, classKinds);
    }

    /** The property step of setRecursive. */
    method SetPropertyAt(current: DynValue, name: string, tokens: seq<PathToken>, index: nat, value: DynValue,
                         ghost classKinds: map<string, Kind>)
      returns (r: Result<DynValue, AccessError>)
      requires index < |tokens|
      requires adapters.Valid() && adapters.SeenAgree(classKinds) && KnowsContainers(classKinds)
      requires ClassesAgree(classKinds, current)
      modifies adapters, adapters.adapterCache
      ensures adapters.Valid() && adapters.SeenAgree(classKinds)
      ensures r == SetPropertyStep(adapters.adapters, current, name, tokens[index + 1..], value)
      decreases |tokens| - index, 0
    {
      var child := GetProperty(current, name, classKinds);
      if child.Failure? {
        return Failure(child.error);
      }
      var next := child.value;
      if next == Null {
        next := EmptyMap;
      }
      var updated := SetRecursive(next, tokens, index + 1, value, classKinds);
      if updated.Failure? {
        return updated;
      }
      r := SetProperty(current, name, updated.value, classKinds);
    }

    /** The index step of setRecursive: the list is padded with nulls in a loop,
        then the slot is written. */
    method SetIndexAt(pcurrent: DynValue, i: nat, tokens: seq<PathToken>, index: nat, value: DynValue,
                      ghost classKinds: map<string, Kind>)
      returns (r: Result<DynValue, AccessError>)
      requires index < |tokens|
      requires adapters.Valid() && adapters.SeenAgree(classKinds) && KnowsContainers(classKinds)
      requires ClassesAgree(classKinds, pcurrent)
      modifies adapters, adapters.adapterCache
      ensures adapters.Valid() && adapters.SeenAgree(classKinds)
      ensures r == SetIndexStep(adapters.adapters, pcurrent, i, tokens[index + 1..], value)
      decreases |tokens| - index, 0
    {
      ghost var rest := tokens[index + 1..];
      var cls, list, child := IndexSlot(pcurrent, i, tokens[index + 1..], classKinds);
      if |tokens| == index + 1 {
        SetIndexStepLast(adapters.adapters, pcurrent, i, value);
        r := Success(ListObj(cls, list[i := value]));
      } else {
        var updated := SetRecursive(child, tokens, index + 1, value, classKinds);
        SetIndexStepInner(adapters.adapters, pcurrent, i, rest, value, child, updated);
        if updated.Failure? {
          r := updated;
        } else {
          r := Success(ListObj(cls, list[i := updated.value]));
        }
      }
    }

    /** DefaultObjectAccessor.set */
    method Set(target: DynValue, path: Option<string>, value: DynValue, ghost classKinds: map<string, Kind>)
      returns (r: Result<DynValue, AccessError>)
      requires Valid(classKinds) && ClassesAgree(classKinds, target)
      modifies adapters, adapters.adapterCache, ParserRepr()
      ensures Valid(classKinds)
      ensures parser.None? ==> r == Failure(NoParser)
      ensures parser.Some? ==> r == SetAtPath(adapters.adapters, target, path, value)
    {
      if parser.None? {
        return Failure(NoParser);
      }
      var parsed := parser.value.Parse(path);
      if parsed.Failure? {
        return Failure(PathError(parsed.error));
      }
      assert parsed.value[0..] == parsed.value;
      r := SetRecursive(target, parsed.value, 0, value, classKinds);
    }
  }
}
