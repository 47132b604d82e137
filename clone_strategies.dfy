/**
 * The five built-in clone strategies, and user strategies, as far as the engine
 * sees them: which classes each supports, which ones create and register a new
 * object, which class that new object has, and which fields reflection copies.
 */
module CloneStrategies {
  import opened Wrappers
  import opened JavaString
  import opened CloneHeap

  /** The standard value classes that ImmutableStrategy shares by reference. */
  const Immutables: set<ClassName> := {
    "java.lang.String", "java.lang.Integer", "java.lang.Long", "java.lang.Short",
    "java.lang.Byte", "java.lang.Double", "java.lang.Float", "java.lang.Character",
    "java.lang.Boolean", "java.math.BigDecimal", "java.math.BigInteger", "java.util.UUID"
  }

  /** Package and class-name patterns of third-party and JDK-internal immutable types. */
  predicate ImmutableByName(name: ClassName) {
    StartsWith(name, "java.time.") ||
    StartsWith(name, "org.joda.time.") ||
    StartsWith(name, "com.google.common.collect.Immutable") ||
    StartsWith(name, "java.util.ImmutableCollections") ||
    Contains(name, "Unmodifiable")
  }

  /** ImmutableStrategy.support: primitives, the standard value classes (exact class,
      not subclasses), temporal types, enums, records, classes that declare
      @MarkAsImmute, and the name patterns. */
  predicate ImmutableSupport(c: ClassInfo) {
    c.isPrimitive || c.name in Immutables || TemporalType in c.supertypes ||
    c.isEnum || c.isRecord || MarkAsImmuteAnnotation in c.annotations ||
    ImmutableByName(c.name)
  }

  /**
   * A strategy of the chain. A user strategy is described by the classes it
   * supports and the value its copy returns.
   */
  datatype Strategy =
    | ImmutableStrategy
    | MapStrategy
    | CollectionStrategy
    | ArrayStrategy
    | ReflectionStrategy
    | CustomStrategy(supported: set<ClassName>, result: Value)

  /** CloneStrategy.support */
  predicate Support(s: Strategy, c: ClassInfo) {
    match s
    case ImmutableStrategy => ImmutableSupport(c)
    case MapStrategy => IsMapClass(c)
    case CollectionStrategy => IsCollectionClass(c)
    case ArrayStrategy => c.isArray
    case ReflectionStrategy => true
    case CustomStrategy(supported, _) => c.name in supported
  }

  /** The strategies whose copy makes a new object and registers it as visited. */
  predicate Registers(s: Strategy) {
    s.MapStrategy? || s.CollectionStrategy? || s.ArrayStrategy? || s.ReflectionStrategy?
  }

  /** The class of a map copy: the origin's own class when its no-argument constructor
      can be called directly, otherwise LinkedHashMap for a LinkedHashMap and HashMap
      for anything else. */
  function MapDestClass(c: ClassInfo): (d: ClassName)
    ensures d == c.name || d == LinkedHashMapClass || d == HashMapClass
    ensures !c.publicNoArgConstructor && LinkedHashMapClass in c.supertypes ==> d == LinkedHashMapClass
  {
    if c.publicNoArgConstructor then c.name
    else if LinkedHashMapClass in c.supertypes then LinkedHashMapClass
    else HashMapClass
  }

  /** The class of a collection copy: the origin's own class when it can be
      instantiated directly, otherwise HashSet for a set and ArrayList for the rest. */
  function CollectionDestClass(c: ClassInfo): (d: ClassName)
    ensures d == c.name || d == HashSetClass || d == ArrayListClass
    ensures !c.publicNoArgConstructor ==> (d == HashSetClass <==> IsSetClass(c))
  {
    if c.publicNoArgConstructor then c.name
    else if IsSetClass(c) then HashSetClass
    else ArrayListClass
  }

  /** ReflectionStrategy.eligibleField */
  predicate EligibleField(f: FieldInfo) {
    !f.ignoreClone && !f.isStatic && !f.isTransient
  }

  /** How many levels of the superclass chain reflection walks: up to, not including,
      java.lang.Object. */
  function WalkLength(lineage: seq<ClassLevel>): (n: nat)
    ensures n <= |lineage|
    ensures forall i :: 0 <= i < n ==> lineage[i].name != ObjectClass
    ensures n < |lineage| ==> lineage[n].name == ObjectClass
  {
    if lineage == [] || lineage[0].name == ObjectClass then 0
    else 1 + WalkLength(lineage[1..])
  }

  /** The walk goes on past a level that is not java.lang.Object ... */
  lemma WalkContinues(lineage: seq<ClassLevel>, i: nat)
    requires i <= WalkLength(lineage) && i < |lineage| && lineage[i].name != ObjectClass
    ensures i < WalkLength(lineage)
  {
  }

  /** ... and stops at java.lang.Object or at the end of the chain. */
  lemma WalkStops(lineage: seq<ClassLevel>, i: nat)
    requires i <= WalkLength(lineage) && (i == |lineage| || (i < |lineage| && lineage[i].name == ObjectClass))
    ensures i == WalkLength(lineage)
  {
  }

  /** The fields one class declares, keyed by that class. */
  function LevelFields(level: ClassLevel): (r: seq<(FieldKey, FieldInfo)>)
    ensures |r| == |level.declaredFields|
    ensures forall i :: 0 <= i < |r| ==>
      r[i] == (FieldKey(level.name, level.declaredFields[i].name), level.declaredFields[i])
  {
    seq(|level.declaredFields|, i requires 0 <= i < |level.declaredFields| =>
      (FieldKey(level.name, level.declaredFields[i].name), level.declaredFields[i]))
  }

  /** The fields of several levels, level after level. */
  function FlatFields(levels: seq<ClassLevel>): seq<(FieldKey, FieldInfo)> {
    if levels == [] then []
    else FlatFields(levels[..|levels| - 1]) + LevelFields(levels[|levels| - 1])
  }

  /** Walking one more level appends that level's fields. */
  lemma FlatFieldsStep(levels: seq<ClassLevel>, i: nat)
    requires i < |levels|
    ensures FlatFields(levels[..i + 1]) == FlatFields(levels[..i]) + LevelFields(levels[i])
  {
    assert levels[..i + 1][..i] == levels[..i];
  }

  /** The fields ReflectionStrategy visits for an object of class `c`. */
  function WalkedFields(c: ClassInfo): seq<(FieldKey, FieldInfo)> {
    FlatFields(c.lineage[..WalkLength(c.lineage)])
  }
}
