/**
 * The type adapters: MapAdapter, RecordAdapter and BeanAdapter read and write a
 * named property of an object; ListAdapter, the collection adapter, reads and
 * writes an index. Writes return the object that now holds the new value: the
 * updated map, list or bean, or a new record.
 */
module TypeAdapters {
  import opened Wrappers
  import opened JavaString
  import opened DynValues

  /** The property adapters a CompositeTypeAdapter can delegate to. */
  datatype Adapter = MapAdapter | BeanAdapter | RecordAdapter

  /** The collection adapter for index steps. */
  datatype CollectionAdapter = ListAdapter

  /** TypeAdapter.supports of each property adapter. A map, a record or a bean is
      taken by its own adapter only; null fails every `instanceof` test, so the bean
      adapter takes it; a list is left to the collection adapter. */
  function Supports(a: Adapter, target: DynValue): (r: bool)
    ensures target.ListObj? ==> !r
    ensures target.MapObj? ==> (r <==> a == MapAdapter)
    ensures target.RecordObj? ==> (r <==> a == RecordAdapter)
    ensures target == Null || target.BeanObj? ==> (r <==> a == BeanAdapter)
  {
    match a
    case MapAdapter => target.MapObj?
    case BeanAdapter => !target.MapObj? && !target.ListObj? && !target.RecordObj?
    case RecordAdapter => target.RecordObj?
  }

  /** Whether an adapter supports an object depends on its kind only, hence on its
      class. */
  lemma SupportsByKind(a: Adapter, v: DynValue, w: DynValue)
    requires v != Null && w != Null && KindOf(v) == KindOf(w)
    ensures Supports(a, v) == Supports(a, w)
  {
  }

  // ---------------------------------------------------------------- MapAdapter

  /** MapAdapter.getValue: a plain key lookup; an absent key gives null. */
  function MapGetValue(target: DynValue, property: string): (r: DynValue)
    requires target.MapObj?
    ensures property !in target.entries ==> r == Null
    ensures r != Null ==> property in target.entries && target.entries[property] == r
  {
    if property in target.entries then target.entries[property] else Null
  }

  /** MapAdapter.setValue: puts the pair and returns the map. */
  function MapSetValue(target: DynValue, property: string, value: DynValue): (r: DynValue)
    requires target.MapObj?
    ensures r.MapObj? && r.cls == target.cls
    ensures r.entries.Keys == target.entries.Keys + {property}
    ensures MapGetValue(r, property) == value
  {
    MapObj(target.cls, target.entries[property := value])
  }

  /** After a put the key reads back the value; every other key reads as before. */
  lemma MapSetThenGet(target: DynValue, property: string, other: string, value: DynValue)
    requires target.MapObj?
    ensures MapSetValue(target, property, value).MapObj? && MapSetValue(target, property, value).cls == target.cls
    ensures MapGetValue(MapSetValue(target, property, value), property) == value
    ensures other != property ==>
      MapGetValue(MapSetValue(target, property, value), other) == MapGetValue(target, other)
    ensures MapSetValue(target, property, value).entries.Keys == target.entries.Keys + {property}
  {
  }

  // ---------------------------------------------------------------- RecordAdapter

  /** The accessor table of a record: the component registered last under a name
      is the one read. */
  function ComponentValue(cs: seq<(string, DynValue)>, name: string): (r: Option<DynValue>)
    ensures r.Some? <==> exists j :: 0 <= j < |cs| && cs[j].0 == name
    ensures r.Some? ==> exists j :: (0 <= j < |cs| && cs[j] == (name, r.value) &&
      forall k :: j < k < |cs| ==> cs[k].0 != name)
  {
    if cs == [] then None
    else if cs[|cs| - 1].0 == name then Some(cs[|cs| - 1].1)
    else
      var r := ComponentValue(cs[..|cs| - 1], name);
      assert forall j :: 0 <= j < |cs| - 1 ==> cs[..|cs| - 1][j] == cs[j];
      r
  }

  /** RecordAdapter.getValue: the component's value; a name that is no component is
      refused. */
  function RecordGetValue(target: DynValue, property: string): (r: Result<DynValue, AccessError>)
    requires target.RecordObj?
    ensures r.Failure? <==> forall j :: 0 <= j < |target.components| ==> target.components[j].0 != property
    ensures r.Failure? ==> r.error == UnknownComponent(property)
    ensures r.Success? ==> exists j :: 0 <= j < |target.components| && target.components[j] == (property, r.value)
  {
    match ComponentValue(target.components, property)
    case None => Failure(UnknownComponent(property))
    case Some(v) => Success(v)
  }

  /** The arguments of the new record: `value` for every component named
      `property`, the original component otherwise. */
  function Replaced(cs: seq<(string, DynValue)>, property: string, value: DynValue): seq<(string, DynValue)> {
    seq(|cs|, j requires 0 <= j < |cs| => (cs[j].0, if cs[j].0 == property then value else cs[j].1))
  }

  /**
   * RecordAdapter.setValue: the constructor arguments are collected component by
   * component, then a new record of the same class is built from them. The target
   * itself is a value and stays as it was.
   */
  method RecordSetValue(target: DynValue, property: string, value: DynValue) returns (r: DynValue)
    requires target.RecordObj?
    ensures r.RecordObj? && r.cls == target.cls && |r.components| == |target.components|
    ensures forall j :: 0 <= j < |target.components| ==>
      r.components[j].0 == target.components[j].0 &&
      r.components[j].1 == (if target.components[j].0 == property then value else target.components[j].1)
    ensures r == RecordObj(target.cls, Replaced(target.components, property, value))
  {
    var cs := target.components;
    var args := new DynValue[|cs|](_ => Null);
    for i := 0 to |cs|
      invariant forall j :: 0 <= j < i ==> args[j] == (if cs[j].0 == property then value else cs[j].1)
    {
      var name := cs[i].0;
      var current := cs[i].1;
      args[i] := if name == property then value else current;
    }
    r := RecordObj(target.cls, seq(|cs|, j requires 0 <= j < |cs| reads args => (cs[j].0, args[j])));
  }

  /** The arguments for a shorter prefix of the components are the prefix of the
      arguments. */
  lemma ReplacedPrefix(cs: seq<(string, DynValue)>, property: string, value: DynValue, n: nat)
    requires n <= |cs|
    ensures Replaced(cs, property, value)[..n] == Replaced(cs[..n], property, value)
  {
  }

  /** A record written at `property` reads back `value` there when `property` is a
      component, and still has no such component otherwise. */
  lemma {:induction false} RecordSetThenGet(cs: seq<(string, DynValue)>, property: string, value: DynValue)
    ensures ComponentValue(Replaced(cs, property, value), property) ==
      (if ComponentValue(cs, property).Some? then Some(value) else None)
  {
    if cs != [] {
      var n := |cs| - 1;
      var rs := Replaced(cs, property, value);
      RecordSetThenGet(cs[..n], property, value);
      ReplacedPrefix(cs, property, value, n);
      assert rs[n].0 == cs[n].0;
    }
  }

  /** Writing one component keeps every other component's value. */
  lemma {:induction false} RecordSetKeepsOthers(cs: seq<(string, DynValue)>, property: string, other: string, value: DynValue)
    requires other != property
    ensures ComponentValue(Replaced(cs, property, value), other) == ComponentValue(cs, other)
  {
    if cs != [] {
      var n := |cs| - 1;
      var rs := Replaced(cs, property, value);
      RecordSetKeepsOthers(cs[..n], property, other, value);
      ReplacedPrefix(cs, property, value, n);
      assert rs[n].0 == cs[n].0;
      if cs[n].0 == other {
        assert rs[n].1 == cs[n].1;
      }
    }
  }

  /** Writing a property that names no component gives a record equal to the
      original, component by component. */
  lemma RecordSetUnknown(cs: seq<(string, DynValue)>, property: string, value: DynValue)
    requires ComponentValue(cs, property).None?
    ensures Replaced(cs, property, value) == cs
  {
    forall j | 0 <= j < |cs|
      ensures Replaced(cs, property, value)[j] == cs[j]
    {
      assert cs[j].0 != property;
    }
  }

  // ---------------------------------------------------------------- BeanAdapter

  /** BeanAdapter.isJavaBeanGetter */
  predicate IsBeanGetter(m: MethodInfo) {
    m.paramCount == 0 && StartsWith(m.name, "get") && m.modifiers != PrivateModifier && m.name != "getClass"
  }

  /** BeanAdapter.isJavaBeanSetter */
  predicate IsBeanSetter(m: MethodInfo) {
    m.paramCount == 1 && StartsWith(m.name, "set") && m.modifiers != PrivateModifier
  }

  datatype AccessorRole = Getter | Setter

  predicate Selects(role: AccessorRole, m: MethodInfo) {
    if role == Getter then IsBeanGetter(m) else IsBeanSetter(m)
  }

  /** BeanAdapter.decap: the first character lower-cased. */
  function Decap(property: string): string
    requires property != []
  {
    [ToLowerChar(property[0])] + property[1..]
  }

  /** The property an accessor method stands for: its name without the three-letter
      prefix, decapitalised. */
  function PropertyName(m: MethodInfo): string
    requires |m.name| > 3
  {
    Decap(m.name[3..])
  }

  /**
   * inspectGetters / inspectSetters, as the HashMap they fill: the methods are
   * visited in order, a later method of the same property replacing an earlier
   * one. A selected method named just "get" or "set" leaves nothing to decapitalise
   * and makes the whole inspection fail.
   */
  function AccessorTable(role: AccessorRole, ms: seq<MethodInfo>): (r: Result<map<string, MethodInfo>, AccessError>)
    ensures r.Failure? <==> exists i :: 0 <= i < |ms| && Selects(role, ms[i]) && |ms[i].name| == 3
    ensures r.Success? ==> forall p :: p in r.value ==>
      r.value[p] in ms && Selects(role, r.value[p]) && |r.value[p].name| > 3 && PropertyName(r.value[p]) == p
    ensures r.Success? ==> forall i :: 0 <= i < |ms| && Selects(role, ms[i]) ==>
      |ms[i].name| > 3 && PropertyName(ms[i]) in r.value
  {
    if ms == [] then Success(map[])
    else
      var n := |ms| - 1;
      assert forall i :: 0 <= i < n ==> ms[..n][i] == ms[i];
      var t :- AccessorTable(role, ms[..n]);
      var m := ms[n];
      if !Selects(role, m) then Success(t)
      else if |m.name| == 3 then Failure(AccessorNameTooShort(m.name))
      else Success(t[PropertyName(m) := m])
  }

  /** Once a prefix of the methods makes the inspection fail, the whole inspection
      fails with the same error: the loop stops at the first bad method. */
  lemma {:induction false} AccessorTableFails(role: AccessorRole, ms: seq<MethodInfo>, k: nat)
    requires k <= |ms| && AccessorTable(role, ms[..k]).Failure?
    ensures AccessorTable(role, ms) == AccessorTable(role, ms[..k])
    decreases |ms| - k
  {
    if k < |ms| {
      assert ms[..k + 1][..k] == ms[..k];
      AccessorTableFails(role, ms, k + 1);
    } else {
      assert ms[..k] == ms;
    }
  }

  /** inspectGetters / inspectSetters: one pass over the methods filling a map. */
  method InspectTable(role: AccessorRole, ms: seq<MethodInfo>) returns (r: Result<map<string, MethodInfo>, AccessError>)
    ensures r == AccessorTable(role, ms)
  {
    var table: map<string, MethodInfo> := map[];
    for i := 0 to |ms|
      invariant AccessorTable(role, ms[..i]) == Success(table)
    {
      var m := ms[i];
      assert ms[..i + 1][..i] == ms[..i];
      if Selects(role, m) {
        if |m.name| == 3 {
          AccessorTableFails(role, ms, i + 1);
          return Failure(AccessorNameTooShort(m.name));
        }
        table := table[PropertyName(m) := m];
      }
    }
    assert ms[..|ms|] == ms;
    r := Success(table);
  }

  /** The value a bean's accessor pair for `property` holds; unset reads as null. */
  function Slot(props: map<string, DynValue>, property: string): DynValue {
    if property in props then props[property] else Null
  }

  /** BeanAdapter.getValue: a property without a getter reads as null. */
  function BeanGetValue(target: DynValue, property: string): (r: Result<DynValue, AccessError>)
    requires target.BeanObj?
    ensures r.Failure? <==>
      exists i :: 0 <= i < |target.methods| && IsBeanGetter(target.methods[i]) && |target.methods[i].name| == 3
    ensures r.Success? && HasAccessor(Getter, target.methods, property) ==> r.value == Slot(target.props, property)
    ensures r.Success? && r.value != Null ==> property in target.props && r.value == target.props[property]
  {
    var getters :- AccessorTable(Getter, target.methods);
    if property !in getters then Success(Null) else Success(Slot(target.props, property))
  }

  /** BeanAdapter.setValue: a property without a setter leaves the bean untouched. */
  function BeanSetValue(target: DynValue, property: string, value: DynValue): (r: Result<DynValue, AccessError>)
    requires target.BeanObj?
    ensures r.Failure? <==>
      exists i :: 0 <= i < |target.methods| && IsBeanSetter(target.methods[i]) && |target.methods[i].name| == 3
    ensures r.Success? ==> r.value.BeanObj? && r.value.cls == target.cls && r.value.methods == target.methods
    ensures r.Success? ==> forall p :: p != property ==> Slot(r.value.props, p) == Slot(target.props, p)
    ensures r.Success? && HasAccessor(Setter, target.methods, property) ==> Slot(r.value.props, property) == value
  {
    var setters :- AccessorTable(Setter, target.methods);
    if property !in setters then Success(target)
    else Success(BeanObj(target.cls, target.methods, target.props[property := value]))
  }

  /** Some accessor of the role stands for `property`. */
  predicate HasAccessor(role: AccessorRole, ms: seq<MethodInfo>, property: string) {
    exists i :: 0 <= i < |ms| && Selects(role, ms[i]) && |ms[i].name| > 3 && PropertyName(ms[i]) == property
  }

  /** The bean adapter's failures: exactly when the class has an accessor named just
      "get" (for reads) or "set" (for writes). */
  lemma BeanAccessFails(target: DynValue, property: string, value: DynValue)
    requires target.BeanObj?
    ensures BeanGetValue(target, property).Failure? <==>
      exists i :: 0 <= i < |target.methods| && IsBeanGetter(target.methods[i]) && |target.methods[i].name| == 3
    ensures BeanSetValue(target, property, value).Failure? <==>
      exists i :: 0 <= i < |target.methods| && IsBeanSetter(target.methods[i]) && |target.methods[i].name| == 3
  {
  }

  /** A property no getter stands for reads as null (names are matched exactly); a
      property no setter stands for is not written. */
  lemma BeanMissingAccessor(target: DynValue, property: string, value: DynValue)
    requires target.BeanObj?
    ensures BeanGetValue(target, property).Success? && !HasAccessor(Getter, target.methods, property) ==>
      BeanGetValue(target, property) == Success(Null)
    ensures BeanSetValue(target, property, value).Success? && !HasAccessor(Setter, target.methods, property) ==>
      BeanSetValue(target, property, value) == Success(target)
  {
    var ms := target.methods;
    var g := AccessorTable(Getter, ms);
    if g.Success? && property in g.value {
      var m := g.value[property];
      var i :| 0 <= i < |ms| && ms[i] == m;
      assert Selects(Getter, ms[i]);
    }
    var s := AccessorTable(Setter, ms);
    if s.Success? && property in s.value {
      var m := s.value[property];
      var i :| 0 <= i < |ms| && ms[i] == m;
      assert Selects(Setter, ms[i]);
    }
  }

  /** A property with both a getter and a setter reads back what was written. */
  lemma BeanSetThenGet(target: DynValue, property: string, value: DynValue)
    requires target.BeanObj? && BeanGetValue(target, property).Success? && BeanSetValue(target, property, value).Success?
    requires HasAccessor(Getter, target.methods, property) && HasAccessor(Setter, target.methods, property)
    ensures BeanSetValue(target, property, value).value.BeanObj?
    ensures BeanGetValue(BeanSetValue(target, property, value).value, property) == Success(value)
  {
  }

  // ---------------------------------------------------------------- dispatch

  /** getValue of the adapter `a` on a target it supports. */
  function AdapterGet(a: Adapter, target: DynValue, property: string): Result<DynValue, AccessError>
    requires target != Null && Supports(a, target)
  {
    match a
    case MapAdapter => Success(MapGetValue(target, property))
    case RecordAdapter => RecordGetValue(target, property)
    case BeanAdapter => BeanGetValue(target, property)
  }

  /** setValue of the adapter `a` on a target it supports. */
  function AdapterSet(a: Adapter, target: DynValue, property: string, value: DynValue): Result<DynValue, AccessError>
    requires target != Null && Supports(a, target)
  {
    match a
    case MapAdapter => Success(MapSetValue(target, property, value))
    case RecordAdapter => Success(RecordObj(target.cls, Replaced(target.components, property, value)))
    case BeanAdapter => BeanSetValue(target, property, value)
  }

  /** TypeAdapter.getValue, run by the adapter: the bean adapter inspects the
      class's getters first. */
  method GetValue(a: Adapter, target: DynValue, property: string) returns (r: Result<DynValue, AccessError>)
    requires target != Null && Supports(a, target)
    ensures r == AdapterGet(a, target, property)
  {
    match a
    case MapAdapter =>
      r := Success(MapGetValue(target, property));
    case RecordAdapter =>
      r := RecordGetValue(target, property);
    case BeanAdapter =>
      var getters := InspectTable(Getter, target.methods);
      if getters.Failure? {
        return Failure(getters.error);
      }
      r := if property in getters.value then Success(Slot(target.props, property)) else Success(Null);
  }

  /** TypeAdapter.setValue, run by the adapter: the record adapter builds a new
      record, the bean adapter inspects the class's setters first. */
  method SetValue(a: Adapter, target: DynValue, property: string, value: DynValue) returns (r: Result<DynValue, AccessError>)
    requires target != Null && Supports(a, target)
    ensures r == AdapterSet(a, target, property, value)
  {
    match a
    case MapAdapter =>
      r := Success(MapSetValue(target, property, value));
    case RecordAdapter =>
      var record := RecordSetValue(target, property, value);
      r := Success(record);
    case BeanAdapter =>
      var setters := InspectTable(Setter, target.methods);
      if setters.Failure? {
        return Failure(setters.error);
      }
      if property !in setters.value {
        return Success(target);
      }
      r := Success(BeanObj(target.cls, target.methods, target.props[property := value]));
  }

  /** A write through an adapter keeps the object's class and kind, and every other
      property reads as before. */
  lemma AdapterSetKeepsOthers(a: Adapter, target: DynValue, property: string, other: string, value: DynValue)
    requires target != Null && Supports(a, target) && other != property
    requires AdapterSet(a, target, property, value).Success?
    ensures var w := AdapterSet(a, target, property, value).value;
      w != Null && w.cls == target.cls && KindOf(w) == KindOf(target) && Supports(a, w) &&
      AdapterGet(a, w, other) == AdapterGet(a, target, other)
  {
    match a
    case MapAdapter =>
      MapSetThenGet(target, property, other, value);
    case RecordAdapter =>
      RecordSetKeepsOthers(target.components, property, other, value);
    case BeanAdapter =>
  }

  /** What an adapter reads from an object is an object of the same run: the class
      table still applies to it. */
  lemma AdapterGetKeepsClasses(classKinds: map<string, Kind>, a: Adapter, target: DynValue, property: string)
    requires target != Null && Supports(a, target) && ClassesAgree(classKinds, target)
    requires AdapterGet(a, target, property).Success?
    ensures ClassesAgree(classKinds, AdapterGet(a, target, property).value)
  {
    if a == RecordAdapter {
      var j :| 0 <= j < |target.components| && target.components[j] == (property, AdapterGet(a, target, property).value);
      assert ClassesAgree(classKinds, target.components[j].1);
    }
  }

  // ---------------------------------------------------------------- ListAdapter

  /** ListAdapter.supports */
  predicate ListSupports(target: DynValue) {
    target.ListObj?
  }

  /** ListAdapter.getValue: an index past the end reads as null; a target that is
      no list fails the cast. */
  function ListGetValue(target: DynValue, index: nat): (r: Result<DynValue, AccessError>)
    ensures r.Failure? <==> !ListSupports(target)
  {
    if !target.ListObj? then Failure(NotAList)
    else if index >= |target.items| then Success(Null)
    else Success(target.items[index])
  }

  /** ListAdapter.setValue: an index past the end writes nothing and gives null;
      otherwise the slot is replaced and the list returned. */
  function ListSetValue(target: DynValue, index: nat, value: DynValue): (r: Result<DynValue, AccessError>)
    ensures r.Failure? <==> !ListSupports(target)
  {
    if !target.ListObj? then Failure(NotAList)
    else if index >= |target.items| then Success(Null)
    else Success(ListObj(target.cls, target.items[index := value]))
  }

  /** An in-range write keeps the list's class and size, reads back the value at the
      index and changes no other slot; an out-of-range write gives null. */
  lemma ListSetThenGet(target: DynValue, index: nat, other: nat, value: DynValue)
    requires target.ListObj?
    ensures index >= |target.items| ==> ListSetValue(target, index, value) == Success(Null)
    ensures index < |target.items| ==>
      var r := ListSetValue(target, index, value).value;
      r.ListObj? && r.cls == target.cls && |r.items| == |target.items| &&
      ListGetValue(r, index) == Success(value) &&
      (other != index ==> ListGetValue(r, other) == ListGetValue(target, other))
  {
  }
}
